/**
 * PinboardToDataFilter: turns a `.pinboard` file into a data file holding
 * the screen rectangle followed by every rectangle of the pinboard.
 */
module PinboardFilter {
  import opened Wrappers
  import opened Common

  /** The filter's one pattern: a `.pinboard` input makes a `.data` output. */
  const PinboardExtension := Extension([".pinboard"], [".data"])

  /** PinboardFileV1.RectangleInfo: a named rectangle of the pinboard. */
  datatype RectInfo = RectInfo(name: string, x: int, y: int, width: int, height: int)

  /** PinboardFileV1: the screen rectangle and the pinboard's rectangles in file order. */
  datatype Pinboard = Pinboard(screen: RectInfo, rectInfos: seq<RectInfo>)

  /** System.Drawing.Rectangle. */
  datatype Rectangle = Rectangle(x: int, y: int, width: int, height: int)

  /** The rectangle with a pinboard rectangle's position and size. */
  function ToRectangle(ri: RectInfo): (r: Rectangle)
    ensures r.x == ri.x && r.y == ri.y && r.width == ri.width && r.height == ri.height
  {
    Rectangle(ri.x, ri.y, ri.width, ri.height)
  }

  /** The rectangles of the given infos, in order. */
  function Rectangles(infos: seq<RectInfo>): (r: seq<Rectangle>)
    ensures |r| == |infos|
    ensures forall i :: 0 <= i < |infos| ==> r[i] == ToRectangle(infos[i])
  {
    if infos == [] then [] else Rectangles(infos[..|infos| - 1]) + [ToRectangle(infos[|infos| - 1])]
  }

  /** The table the filter writes: the screen first, then each rectangle in file order. */
  function RectangleTable(p: Pinboard): (r: seq<Rectangle>)
    ensures |r| == |p.rectInfos| + 1
    ensures r[0] == ToRectangle(p.screen)
    ensures forall i :: 0 <= i < |p.rectInfos| ==> r[i + 1] == ToRectangle(p.rectInfos[i])
  {
    [ToRectangle(p.screen)] + Rectangles(p.rectInfos)
  }

  /** Two info records have the same position and size. */
  predicate SameGeometry(a: RectInfo, b: RectInfo)
  {
    a.x == b.x && a.y == b.y && a.width == b.width && a.height == b.height
  }

  /**
   * Two pinboards give the same table exactly when their screens and their
   * rectangles, one by one, have the same geometry: the names are dropped
   * and nothing else is.
   */
  lemma TableKeepsGeometry(p: Pinboard, q: Pinboard)
    ensures RectangleTable(p) == RectangleTable(q) <==>
      SameGeometry(p.screen, q.screen) && |p.rectInfos| == |q.rectInfos|
      && forall i :: 0 <= i < |p.rectInfos| ==> SameGeometry(p.rectInfos[i], q.rectInfos[i])
  {
    if SameGeometry(p.screen, q.screen) && |p.rectInfos| == |q.rectInfos|
       && forall i :: 0 <= i < |p.rectInfos| ==> SameGeometry(p.rectInfos[i], q.rectInfos[i]) {
      SameGeometrySameRectangles(p.rectInfos, q.rectInfos);
    }
    if RectangleTable(p) == RectangleTable(q) {
      SameTableSameGeometry(p, q);
    }
  }

  lemma SameGeometrySameRectangles(a: seq<RectInfo>, b: seq<RectInfo>)
    requires |a| == |b| && forall i :: 0 <= i < |a| ==> SameGeometry(a[i], b[i])
    ensures Rectangles(a) == Rectangles(b)
  {
    var ra, rb := Rectangles(a), Rectangles(b);
    assert forall i :: 0 <= i < |ra| ==> ra[i] == rb[i];
  }

  lemma SameTableSameGeometry(p: Pinboard, q: Pinboard)
    requires RectangleTable(p) == RectangleTable(q)
    ensures SameGeometry(p.screen, q.screen) && |p.rectInfos| == |q.rectInfos|
    ensures forall i :: 0 <= i < |p.rectInfos| ==> SameGeometry(p.rectInfos[i], q.rectInfos[i])
  {
    var tp, tq := RectangleTable(p), RectangleTable(q);
    forall i | 0 <= i < |p.rectInfos|
      ensures SameGeometry(p.rectInfos[i], q.rectInfos[i])
    {
      assert tp[i + 1] == tq[i + 1];
    }
  }

  /** The rectangle array: allocated with one slot more than there are rectangles, screen first, then filled by index. */
  method BuildRectangles(p: Pinboard) returns (rectangles: array<Rectangle>)
    ensures fresh(rectangles)
    ensures rectangles[..] == RectangleTable(p)
  {
    var screen := ToRectangle(p.screen);
    rectangles := new Rectangle[|p.rectInfos| + 1](_ => screen);
    rectangles[0] := screen;
    var i := 0;
    while i < |p.rectInfos|
      invariant 0 <= i <= |p.rectInfos|
      invariant rectangles[0] == screen
      invariant forall k :: 0 <= k < i ==> rectangles[k + 1] == ToRectangle(p.rectInfos[k])
    {
      rectangles[i + 1] := ToRectangle(p.rectInfos[i]);
      i := i + 1;
    }
    TableFromSlots(p, rectangles[..]);
  }

  /** A sequence holding the screen first and rectangle k at slot k + 1 is the table. */
  lemma TableFromSlots(p: Pinboard, slots: seq<Rectangle>)
    requires |slots| == |p.rectInfos| + 1 && slots[0] == ToRectangle(p.screen)
    requires forall k :: 0 <= k < |p.rectInfos| ==> slots[k + 1] == ToRectangle(p.rectInfos[k])
    ensures slots == RectangleTable(p)
  {
    var rest := slots[1..];
    assert forall k :: 0 <= k < |rest| ==> rest[k] == slots[k + 1];
    assert rest == Rectangles(p.rectInfos);
    assert slots == [slots[0]] + rest;
  }

  /** What the filter writes: the data file's path and the rectangle table. */
  datatype PinboardOutput = PinboardOutput(dataPath: Path, rectangles: seq<Rectangle>)

  /**
   * Filter for one target. `targetLocation` is where the target's name is
   * declared in the content file, which the arity errors carry; `load` is
   * PinboardFileCache.Load.
   */
  method Filter(inputPaths: seq<Path>, outputPaths: seq<Path>, targetLocation: Location, load: Path -> Pinboard)
    returns (r: Result<PinboardOutput, Error>)
    ensures |inputPaths| != 1 ==> r == Failure(WrongInputCount(1, targetLocation))
    ensures |inputPaths| == 1 && |outputPaths| != 1 ==> r == Failure(WrongOutputCount(1, targetLocation))
    ensures |inputPaths| == 1 && |outputPaths| == 1 ==>
      r == Success(PinboardOutput(outputPaths[0], RectangleTable(load(inputPaths[0]))))
  {
    if |inputPaths| != 1 {
      return Failure(WrongInputCount(1, targetLocation));
    }
    if |outputPaths| != 1 {
      return Failure(WrongOutputCount(1, targetLocation));
    }
    var pinboardPath := inputPaths[0];
    var dataPath := outputPaths[0];
    var pinboard := load(pinboardPath);
    var rectangles := BuildRectangles(pinboard);
    return Success(PinboardOutput(dataPath, rectangles[..]));
  }
}
