/**
 * List<ParsedPath>.Sort: the library sort the target constructor applies to
 * its input and output lists. ParsedPath's comparison is not part of this
 * model; paths are ordered here by ordinal lexicographic order of their text.
 */
module Sorting {
  import opened Common

  /** Ordinal lexicographic order on path text. */
  predicate PathLe(a: Path, b: Path)
  {
    a == [] || (b != [] && (a[0] < b[0] || (a[0] == b[0] && PathLe(a[1..], b[1..]))))
  }

  lemma {:induction false} PathLeTotal(a: Path, b: Path)
    ensures PathLe(a, b) || PathLe(b, a)
  {
    if a != [] && b != [] && a[0] == b[0] {
      PathLeTotal(a[1..], b[1..]);
    }
  }

  lemma {:induction false} PathLeReflexive(a: Path)
    ensures PathLe(a, a)
  {
    if a != [] {
      PathLeReflexive(a[1..]);
    }
  }

  lemma {:induction false} PathLeTransitive(a: Path, b: Path, c: Path)
    requires PathLe(a, b) && PathLe(b, c)
    ensures PathLe(a, c)
  {
    if a != [] && b != [] && c != [] && a[0] == b[0] == c[0] {
      PathLeTransitive(a[1..], b[1..], c[1..]);
    }
  }

  lemma {:induction false} PathLeAntisymmetric(a: Path, b: Path)
    requires PathLe(a, b) && PathLe(b, a)
    ensures a == b
  {
    if a != [] && b != [] {
      PathLeAntisymmetric(a[1..], b[1..]);
      assert a == [a[0]] + a[1..];
      assert b == [b[0]] + b[1..];
    }
  }

  predicate Sorted(s: seq<Path>)
  {
    forall i, j :: 0 <= i < j < |s| ==> PathLe(s[i], s[j])
  }

  /** Inserts `x` into a sorted list in front of the first element it precedes. */
  function Insert(x: Path, s: seq<Path>): (r: seq<Path>)
    requires Sorted(s)
    ensures Sorted(r)
    ensures multiset(r) == multiset(s) + multiset{x}
    ensures |r| == |s| + 1
  {
    if s == [] then [x]
    else if PathLe(x, s[0]) then
      FirstBoundsSorted(x, s);
      SortedCons(x, s);
      [x] + s
    else
      PathLeTotal(x, s[0]);
      var rest := Insert(x, s[1..]);
      assert s == [s[0]] + s[1..];
      BoundKeptByInsert(s[0], x, s[1..], rest);
      SortedCons(s[0], rest);
      [s[0]] + rest
  }

  /** An element below the head of a sorted list is below all of it. */
  lemma FirstBoundsSorted(x: Path, s: seq<Path>)
    requires Sorted(s) && s != [] && PathLe(x, s[0])
    ensures forall j :: 0 <= j < |s| ==> PathLe(x, s[j])
  {
    forall j | 0 < j < |s| ensures PathLe(x, s[j]) { PathLeTransitive(x, s[0], s[j]); }
  }

  /** A sorted list with an element in front that is below all of it is sorted. */
  lemma SortedCons(x: Path, s: seq<Path>)
    requires Sorted(s) && forall j :: 0 <= j < |s| ==> PathLe(x, s[j])
    ensures Sorted([x] + s)
  {
    var t := [x] + s;
    forall i, j | 0 <= i < j < |t| ensures PathLe(t[i], t[j]) {
      assert t[j] == s[j - 1];
      if i > 0 {
        assert t[i] == s[i - 1];
      }
    }
  }

  /** A lower bound of the list and of the inserted element is a lower bound of the result. */
  lemma BoundKeptByInsert(b: Path, x: Path, s: seq<Path>, r: seq<Path>)
    requires PathLe(b, x) && forall j :: 0 <= j < |s| ==> PathLe(b, s[j])
    requires multiset(r) == multiset(s) + multiset{x}
    ensures forall j :: 0 <= j < |r| ==> PathLe(b, r[j])
  {
    forall j | 0 <= j < |r| ensures PathLe(b, r[j]) {
      assert r[j] in multiset(r);
      if r[j] != x {
        assert r[j] in multiset(s);
        var k :| 0 <= k < |s| && s[k] == r[j];
      }
    }
  }

  /** The sorted rearrangement of `s`. */
  function Sort(s: seq<Path>): (r: seq<Path>)
    ensures Sorted(r)
    ensures multiset(r) == multiset(s)
    ensures |r| == |s|
  {
    if s == [] then []
    else
      assert s == [s[0]] + s[1..];
      Insert(s[0], Sort(s[1..]))
  }

  lemma SortedHeadIsLeast(a: seq<Path>, x: Path)
    requires Sorted(a) && x in multiset(a)
    ensures PathLe(a[0], x)
  {
    var i :| 0 <= i < |a| && a[i] == x;
    if i == 0 { PathLeReflexive(x); }
  }

  lemma SortedTail(a: seq<Path>)
    requires Sorted(a) && a != []
    ensures Sorted(a[1..]) && multiset(a[1..]) == multiset(a) - multiset{a[0]}
  {
    assert a == [a[0]] + a[1..];
  }

  /** Two sorted rearrangements of the same paths are equal. */
  lemma {:induction false} SortUnique(a: seq<Path>, b: seq<Path>)
    requires Sorted(a) && Sorted(b) && multiset(a) == multiset(b)
    ensures a == b
    decreases |a|
  {
    assert |a| == |multiset(a)| == |b|;
    if a != [] {
      assert a[0] in multiset(a) && b[0] in multiset(b);
      SortedHeadIsLeast(a, b[0]);
      SortedHeadIsLeast(b, a[0]);
      PathLeAntisymmetric(a[0], b[0]);
      SortedTail(a);
      SortedTail(b);
      SortUnique(a[1..], b[1..]);
      assert a == [a[0]] + a[1..];
      assert b == [b[0]] + b[1..];
    }
  }

  /** Wildcard determinism: two enumerations of the same files sort to the same list. */
  lemma SortIgnoresArrivalOrder(a: seq<Path>, b: seq<Path>)
    requires multiset(a) == multiset(b)
    ensures Sort(a) == Sort(b)
  {
    SortUnique(Sort(a), Sort(b));
  }
}
