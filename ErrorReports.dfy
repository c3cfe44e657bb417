/**
 * The catch block of VacuumTool.Execute: it reports an exception and each
 * of its inner exceptions in turn, with the content file's line and column
 * once an exception that carries a location has been seen.
 */
module ErrorReports {
  import opened Wrappers
  import opened Common

  /** The exception types the walk tells apart: the three that carry an error location, and the rest. */
  datatype FaultKind = ContentFileFault | TsonParseFault | TsonFormatFault | OtherFault

  /** An exception: its type, its error location (read only for the located types), its message and its inner exception. */
  datatype Fault = Fault(kind: FaultKind, location: Location, message: string, inner: Option<Fault>)

  /** One reported line: WriteErrorWithLine, or a plain error message. */
  datatype ReportLine = ErrorAt(path: Path, line: nat, column: nat, message: string) | PlainError(message: string)

  /** The exception and its inner exceptions, outermost first. */
  function Chain(e: Fault): (r: seq<Fault>)
    ensures |r| >= 1 && r[0] == e
    decreases e
  {
    match e.inner
    case None => [e]
    case Some(inner) => [e] + Chain(inner)
  }

  /** The exception has a location property, so the walk reads it. */
  predicate Located(e: Fault)
  {
    e.kind != OtherFault
  }

  /**
   * The `location` variable after the walk has visited `faults`: the
   * location of the last located exception among them, or null when there
   * is none.
   */
  function StickyLocation(faults: seq<Fault>): Option<Location>
  {
    if faults == [] then None
    else if Located(faults[|faults| - 1]) then Some(faults[|faults| - 1].location)
    else StickyLocation(faults[..|faults| - 1])
  }

  /** The line reported for a message when the walk holds `location`. */
  function LineFor(path: Path, location: Option<Location>, message: string): ReportLine
  {
    if location.Some? && location.value.At? then ErrorAt(path, location.value.line, location.value.column, message)
    else PlainError(message)
  }

  /**
   * The sticky location is the location of the last located exception so
   * far, and there is none exactly when no exception so far is located.
   */
  lemma {:induction false} StickyLocationSpec(faults: seq<Fault>)
    ensures StickyLocation(faults).None? <==> forall i :: 0 <= i < |faults| ==> !Located(faults[i])
    ensures StickyLocation(faults).Some? ==>
      exists i :: 0 <= i < |faults| && Located(faults[i]) && faults[i].location == StickyLocation(faults).value
        && forall j :: i < j < |faults| ==> !Located(faults[j])
  {
    if faults != [] {
      var init := faults[..|faults| - 1];
      StickyLocationSpec(init);
      assert forall i :: 0 <= i < |init| ==> init[i] == faults[i];
      if !Located(faults[|faults| - 1]) && StickyLocation(init).Some? {
        var i :| 0 <= i < |init| && Located(init[i]) && init[i].location == StickyLocation(init).value
          && forall j :: i < j < |init| ==> !Located(init[j]);
        assert faults[i] == init[i];
      }
    }
  }

  /**
   * Once a located exception with a real location is reported with it,
   * every following exception without one of its own is reported with the
   * same line and column.
   */
  lemma LocationSticks(path: Path, faults: seq<Fault>, i: nat, m: nat)
    requires i <= m < |faults| && Located(faults[i]) && faults[i].location.At?
    requires forall j :: i < j <= m ==> !Located(faults[j])
    ensures LineFor(path, StickyLocation(faults[..m + 1]), faults[m].message)
         == ErrorAt(path, faults[i].location.line, faults[i].location.column, faults[m].message)
  {
    StickyAfter(faults, i, m);
  }

  lemma {:induction false} StickyAfter(faults: seq<Fault>, i: nat, m: nat)
    requires i <= m < |faults| && Located(faults[i])
    requires forall j :: i < j <= m ==> !Located(faults[j])
    ensures StickyLocation(faults[..m + 1]) == Some(faults[i].location)
    decreases m - i
  {
    var prefix := faults[..m + 1];
    assert prefix[|prefix| - 1] == faults[m];
    if m > i {
      assert prefix[..|prefix| - 1] == faults[..m];
      StickyAfter(faults, i, m - 1);
    }
  }

  /** A chain without located exceptions is reported as plain messages only. */
  lemma UnlocatedChainIsPlain(path: Path, faults: seq<Fault>, m: nat)
    requires m < |faults| && forall j :: 0 <= j < |faults| ==> !Located(faults[j])
    ensures LineFor(path, StickyLocation(faults[..m + 1]), faults[m].message) == PlainError(faults[m].message)
  {
    var prefix := faults[..m + 1];
    StickyLocationSpec(prefix);
    assert forall j :: 0 <= j < |prefix| ==> prefix[j] == faults[j];
  }

  /** Walking one exception further updates the sticky location as the loop body does. */
  lemma StickyStep(chain: seq<Fault>, k: nat)
    requires k < |chain|
    ensures StickyLocation(chain[..k + 1])
         == if Located(chain[k]) then Some(chain[k].location) else StickyLocation(chain[..k])
  {
    assert chain[..k + 1][..k] == chain[..k];
    assert chain[..k + 1][k] == chain[k];
  }

  /** The chain from position k on is the chain of the exception at k. */
  lemma ChainStep(chain: seq<Fault>, k: nat, current: Fault)
    requires k < |chain| && chain[k..] == Chain(current)
    ensures chain[k] == current
    ensures current.inner.None? ==> k == |chain| - 1
    ensures current.inner.Some? ==> k + 1 < |chain| && chain[k + 1..] == Chain(current.inner.value)
  {
    assert chain[k..][0] == chain[k];
    if current.inner.Some? {
      assert chain[k + 1..] == chain[k..][1..];
    }
  }

  /** Appending the report of exception k to the reports of the first k exceptions reports the first k + 1. */
  lemma AppendReport(path: Path, chain: seq<Fault>, lines: seq<ReportLine>, line: ReportLine, k: nat)
    requires k < |chain| && |lines| == k
    requires forall i :: 0 <= i < k ==> lines[i] == LineFor(path, StickyLocation(chain[..i + 1]), chain[i].message)
    requires line == LineFor(path, StickyLocation(chain[..k + 1]), chain[k].message)
    ensures forall i :: 0 <= i < k + 1 ==>
      (lines + [line])[i] == LineFor(path, StickyLocation(chain[..i + 1]), chain[i].message)
  {
  }

  /** The catch block's do/while loop: one line per exception of the chain, outermost first. */
  method ReportErrorChain(path: Path, e: Fault) returns (lines: seq<ReportLine>)
    ensures |lines| == |Chain(e)|
    ensures forall i :: 0 <= i < |lines| ==>
      lines[i] == LineFor(path, StickyLocation(Chain(e)[..i + 1]), Chain(e)[i].message)
  {
    var chain := Chain(e);
    var location: Option<Location> := None;
    var current := e;
    lines := [];
    var k := 0;
    while true
      invariant 0 <= k < |chain| && |lines| == k
      invariant chain[k..] == Chain(current)
      invariant location == StickyLocation(chain[..k])
      invariant forall i :: 0 <= i < k ==> lines[i] == LineFor(path, StickyLocation(chain[..i + 1]), chain[i].message)
      decreases |chain| - k
    {
      ChainStep(chain, k, current);
      StickyStep(chain, k);
      if current.kind != OtherFault {
        location := Some(current.location);
      }
      var line;
      if location.Some? && location.value.At? {
        line := ErrorAt(path, location.value.line, location.value.column, current.message);
      } else {
        line := PlainError(current.message);
      }
      assert line == LineFor(path, StickyLocation(chain[..k + 1]), chain[k].message);
      AppendReport(path, chain, lines, line, k);
      lines := lines + [line];
      if current.inner.None? {
        return;
      }
      current := current.inner.value;
      k := k + 1;
    }
  }
}
