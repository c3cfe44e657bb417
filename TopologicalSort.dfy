/**
 * VacuumTool.TopologicallySortVacuumTargets: Kahn's algorithm over an
 * input-path index, an adjacency dictionary, in-edge counters and a FIFO
 * queue of roots. Targets are referred to by their position in the list.
 */
module TopologicalSort {
  import opened Wrappers
  import opened Common
  import opened Targets

  /** What the sort reads of a target: its name and its input and output paths. */
  datatype Node = Node(name: string, inputs: seq<Path>, outputs: seq<Path>)

  function Nodes(targets: seq<Target>): (g: seq<Node>)
    ensures |g| == |targets|
    ensures forall i :: 0 <= i < |targets| ==>
      g[i] == Node(targets[i].name, targets[i].inputPaths, targets[i].outputPaths)
  {
    seq(|targets|, i requires 0 <= i < |targets| =>
      Node(targets[i].name, targets[i].inputPaths, targets[i].outputPaths))
  }

  predicate Distinct(s: seq<nat>)
  {
    forall i, j :: 0 <= i < j < |s| ==> s[i] != s[j]
  }

  // ---------------------------------------------------------------------
  // The dependency relation

  /** An output of target `a` is an input of target `b`. */
  predicate Feeds(g: seq<Node>, a: nat, b: nat)
    requires a < |g| && b < |g|
  {
    exists p :: p in g[a].outputs && p in g[b].inputs
  }

  /** The number of (output, input) occurrence pairs naming the same path. */
  function PairCount(outputs: seq<Path>, inputs: seq<Path>): nat
  {
    if outputs == [] then 0
    else PairCount(outputs[..|outputs| - 1], inputs) + multiset(inputs)[outputs[|outputs| - 1]]
  }

  /** How many times the sort increments b's in-edge counter on behalf of a. */
  function Weight(g: seq<Node>, a: nat, b: nat): nat
    requires a < |g| && b < |g|
  {
    PairCount(g[a].outputs, g[b].inputs)
  }

  /** The in-edge counter of b once the graph is built: the weights into b from the first m targets. */
  function InCountUpTo(g: seq<Node>, m: nat, b: nat): nat
    requires m <= |g| && b < |g|
  {
    if m == 0 then 0 else InCountUpTo(g, m - 1, b) + Weight(g, m - 1, b)
  }

  function InCount(g: seq<Node>, b: nat): nat
    requires b < |g|
  {
    InCountUpTo(g, |g|, b)
  }

  /** The targets among the first m that feed b. */
  function PredsUpTo(g: seq<Node>, m: nat, b: nat): set<nat>
    requires m <= |g| && b < |g|
  {
    set a: nat | a < m && Feeds(g, a, b)
  }

  function Preds(g: seq<Node>, b: nat): set<nat>
    requires b < |g|
  {
    PredsUpTo(g, |g|, b)
  }

  /** No two targets are linked by more than one (output, input) occurrence pair. */
  predicate SingleEdges(g: seq<Node>)
  {
    forall a, b :: 0 <= a < |g| && 0 <= b < |g| ==> Weight(g, a, b) <= 1
  }

  /** A nonempty set of positions of g. */
  predicate Within(g: seq<Node>, s: set<nat>)
  {
    s != {} && forall x :: x in s ==> x < |g|
  }

  /** Every nonempty set of targets holds one that no member of the set feeds: there is no cycle. */
  ghost predicate Acyclic(g: seq<Node>)
  {
    forall s :: Within(g, s) ==>
      exists b :: b in s && forall a :: a in s ==> !Feeds(g, a, b)
  }

  /** The targets nobody feeds, in declaration order: the sort's initial queue. */
  function RootsUpTo(g: seq<Node>, m: nat): seq<nat>
    requires m <= |g|
  {
    if m == 0 then [] else RootsUpTo(g, m - 1) + if InCount(g, m - 1) == 0 then [m - 1] else []
  }

  function Roots(g: seq<Node>): seq<nat>
  {
    RootsUpTo(g, |g|)
  }

  /** `order` lists every position of g exactly once. */
  predicate IsPermutation(g: seq<Node>, order: seq<nat>)
  {
    (forall i :: 0 <= i < |order| ==> order[i] < |g|)
    && Distinct(order)
    && forall b :: 0 <= b < |g| ==> b in order
  }

  /** Every producer comes before every consumer of its outputs. */
  predicate RespectsFeeds(g: seq<Node>, order: seq<nat>)
  {
    forall i, j ::
      (0 <= i < |order| && 0 <= j < |order| && order[i] < |g| && order[j] < |g|
       && Feeds(g, order[i], order[j])) ==> i < j
  }

  // ---------------------------------------------------------------------
  // Lemmas about the relation

  /** A positive pair count is exactly a shared path. */
  lemma {:induction false} PairCountPositive(outputs: seq<Path>, inputs: seq<Path>)
    ensures PairCount(outputs, inputs) > 0 <==> exists p :: p in outputs && p in inputs
  {
    if outputs != [] {
      var init := outputs[..|outputs| - 1];
      var last := outputs[|outputs| - 1];
      PairCountPositive(init, inputs);
      assert outputs == init + [last];
      if PairCount(init, inputs) > 0 {
        var p :| p in init && p in inputs;
        assert p in outputs;
      }
      if multiset(inputs)[last] > 0 {
        assert last in outputs && last in inputs;
      }
      forall p | p in outputs && p in inputs
        ensures PairCount(outputs, inputs) > 0
      {
        if p !in init {
          assert p == last;
        }
      }
    }
  }

  /** A target feeds another exactly when the sort increments the other's counter on its behalf. */
  lemma FeedsIffWeight(g: seq<Node>, a: nat, b: nat)
    requires a < |g| && b < |g|
    ensures Feeds(g, a, b) <==> Weight(g, a, b) > 0
  {
    PairCountPositive(g[a].outputs, g[b].inputs);
  }

  lemma PredsUpToStep(g: seq<Node>, m: nat, b: nat)
    requires m < |g| && b < |g|
    ensures PredsUpTo(g, m + 1, b) == PredsUpTo(g, m, b) + if Feeds(g, m, b) then {m} else {}
    ensures |PredsUpTo(g, m + 1, b)| == |PredsUpTo(g, m, b)| + if Feeds(g, m, b) then 1 else 0
  {
    assert m !in PredsUpTo(g, m, b);
  }

  /**
   * The in-edge counter is at least the number of producers, and equals it
   * exactly when each producer is linked to b by a single path occurrence.
   */
  lemma {:induction false} InCountBoundsPreds(g: seq<Node>, m: nat, b: nat)
    requires m <= |g| && b < |g|
    ensures InCountUpTo(g, m, b) >= |PredsUpTo(g, m, b)|
    ensures InCountUpTo(g, m, b) == |PredsUpTo(g, m, b)| <==> forall a :: 0 <= a < m ==> Weight(g, a, b) <= 1
  {
    if m == 0 {
      assert PredsUpTo(g, 0, b) == {};
    } else {
      InCountBoundsPreds(g, m - 1, b);
      PredsUpToStep(g, m - 1, b);
      FeedsIffWeight(g, m - 1, b);
    }
  }

  /** Counting only the producers already in `done`. */
  function DonePreds(g: seq<Node>, b: nat, done: seq<nat>): set<nat>
    requires b < |g|
  {
    set a: nat | a in done && a < |g| && Feeds(g, a, b)
  }

  lemma DonePredsBound(g: seq<Node>, b: nat, done: seq<nat>)
    requires b < |g|
    ensures DonePreds(g, b, done) <= Preds(g, b)
    ensures |DonePreds(g, b, done)| <= |Preds(g, b)| <= InCount(g, b)
  {
    SubsetCardinality(DonePreds(g, b, done), Preds(g, b));
    InCountBoundsPreds(g, |g|, b);
  }

  lemma {:induction false} SubsetCardinality(s: set<nat>, t: set<nat>)
    requires s <= t
    ensures |s| <= |t|
    ensures |s| == |t| ==> s == t
    decreases t
  {
    if s != {} {
      var x :| x in s;
      SubsetCardinality(s - {x}, t - {x});
      assert s == (s - {x}) + {x};
      assert t == (t - {x}) + {x};
    } else if |s| == |t| {
      assert t == {};
    }
  }

  lemma DonePredsSnoc(g: seq<Node>, b: nat, done: seq<nat>, a: nat)
    requires b < |g| && a < |g| && a !in done
    ensures DonePreds(g, b, done + [a]) == DonePreds(g, b, done) + if Feeds(g, a, b) then {a} else {}
    ensures |DonePreds(g, b, done + [a])| == |DonePreds(g, b, done)| + if Feeds(g, a, b) then 1 else 0
  {
    assert a !in DonePreds(g, b, done);
  }

  /**
   * A counter that has reached zero means every producer of b is done and b
   * is linked to each of them by a single path occurrence.
   */
  lemma ZeroCountMeansPredsDone(g: seq<Node>, b: nat, done: seq<nat>)
    requires b < |g|
    requires InCount(g, b) == |DonePreds(g, b, done)|
    ensures forall a :: 0 <= a < |g| && Feeds(g, a, b) ==> a in done
    ensures forall a :: 0 <= a < |g| ==> Weight(g, a, b) <= 1
  {
    DonePredsBound(g, b, done);
    InCountBoundsPreds(g, |g|, b);
    SubsetCardinality(DonePreds(g, b, done), Preds(g, b));
    forall a | 0 <= a < |g| && Feeds(g, a, b)
      ensures a in done
    {
      assert a in Preds(g, b);
    }
  }

  /** When every producer of b is done, the done producers are all of b's producers. */
  lemma PredsAllDone(g: seq<Node>, b: nat, done: seq<nat>)
    requires b < |g|
    requires forall a :: 0 <= a < |g| && Feeds(g, a, b) ==> a in done
    ensures DonePreds(g, b, done) == Preds(g, b)
  {
  }

  /** The first position of `order` holding a member of `s`. */
  lemma FirstInSet(order: seq<nat>, s: set<nat>, x: nat) returns (i: nat)
    requires x in s && x in order
    ensures i < |order| && order[i] in s
    ensures forall j :: 0 <= j < i ==> order[j] !in s
  {
    i := 0;
    while order[i] !in s
      invariant i < |order|
      invariant forall j :: 0 <= j < i ==> order[j] !in s
      invariant x in order[i..]
      decreases |order| - i
    {
      i := i + 1;
    }
  }

  /** A complete order in which producers precede consumers rules out every cycle. */
  lemma TopologicalOrderIsAcyclic(g: seq<Node>, order: seq<nat>)
    requires IsPermutation(g, order) && RespectsFeeds(g, order)
    ensures Acyclic(g)
  {
    forall s | Within(g, s)
      ensures exists b :: b in s && forall a :: a in s ==> !Feeds(g, a, b)
    {
      var x :| x in s;
      var i := FirstInSet(order, s, x);
      var b := order[i];
      forall a | a in s
        ensures !Feeds(g, a, b)
      {
        assert a in order;
        var j :| 0 <= j < |order| && order[j] == a;
        assert j >= i;
      }
    }
  }

  /** A target that reads one of its own outputs is a cycle. */
  lemma SelfFeedingIsCyclic(g: seq<Node>, a: nat)
    requires a < |g| && Feeds(g, a, a)
    ensures !Acyclic(g)
  {
    assert Within(g, {a});
  }

  /** Two targets that feed each other are a cycle. */
  lemma TwoCycleIsCyclic(g: seq<Node>, a: nat, b: nat)
    requires a < |g| && b < |g| && Feeds(g, a, b) && Feeds(g, b, a)
    ensures !Acyclic(g)
  {
    assert Within(g, {a, b});
  }

  /** A producer two of whose outputs a consumer reads breaks SingleEdges. */
  lemma {:induction false} TwoSharedPathsAreDoubleEdge(g: seq<Node>, a: nat, b: nat, i: nat, j: nat)
    requires a < |g| && b < |g|
    requires i < j < |g[a].outputs|
    requires g[a].outputs[i] in g[b].inputs && g[a].outputs[j] in g[b].inputs
    ensures !SingleEdges(g)
  {
    PairCountAtLeast(g[a].outputs, g[b].inputs, i, j);
    assert Weight(g, a, b) >= 2;
  }

  lemma {:induction false} PairCountAtLeast(outputs: seq<Path>, inputs: seq<Path>, i: nat, j: nat)
    requires i < j < |outputs|
    requires outputs[i] in inputs && outputs[j] in inputs
    ensures PairCount(outputs, inputs) >= 2
  {
    var init := outputs[..|outputs| - 1];
    if j < |outputs| - 1 {
      PairCountAtLeast(init, inputs, i, j);
    } else {
      assert outputs[i] in init;
      PairCountPositive(init, inputs);
    }
  }

  /**
   * The literal counting quirk: a producer with outputs p and q and a
   * consumer reading both form no cycle, yet they are not single-edged, so
   * the sort reports a circular dependency for them.
   */
  lemma DoubleLinkWithoutCycle()
    ensures var g := [Node("produce", ["x"], ["p", "q"]), Node("consume", ["p", "q"], ["y"])];
      Acyclic(g) && !SingleEdges(g)
  {
    var g := [Node("produce", ["x"], ["p", "q"]), Node("consume", ["p", "q"], ["y"])];
    assert !Feeds(g, 0, 0) && !Feeds(g, 1, 0) && !Feeds(g, 1, 1);
    TopologicalOrderIsAcyclic(g, [0, 1]);
    TwoSharedPathsAreDoubleEdge(g, 0, 1, 0, 1);
  }

  // ---------------------------------------------------------------------
  // Phase 1: the index of consumers by input path

  /** inputPaths.TryGetValue, with an absent path read as an empty list. */
  function Lookup(index: map<Path, seq<nat>>, p: Path): seq<nat>
  {
    if p in index then index[p] else []
  }

  /** How often target b is listed as a consumer of path p. */
  function Tally(index: map<Path, seq<nat>>, p: Path, b: nat): nat
  {
    multiset(Lookup(index, p))[b]
  }

  /** The occurrences of p among b's inputs that the index loop has seen, at target t, input j. */
  function Indexed(g: seq<Node>, t: nat, j: nat, p: Path, b: nat): nat
    requires t <= |g| && (t < |g| ==> j <= |g[t].inputs|)
  {
    if b < t then multiset(g[b].inputs)[p]
    else if b == t && t < |g| then multiset(g[t].inputs[..j])[p]
    else 0
  }

  /** The index says, for every path, which targets read it and how many times. */
  ghost predicate IndexesInputs(g: seq<Node>, index: map<Path, seq<nat>>)
  {
    forall p, b: nat :: Tally(index, p, b) == if b < |g| then multiset(g[b].inputs)[p] else 0
  }

  /** Listing target t once more for its j-th input path. */
  lemma IndexAddStep(g: seq<Node>, t: nat, j: nat, before: map<Path, seq<nat>>, after: map<Path, seq<nat>>)
    requires t < |g| && j < |g[t].inputs|
    requires after == before[g[t].inputs[j] := Lookup(before, g[t].inputs[j]) + [t]]
    requires forall p, b: nat :: Tally(before, p, b) == Indexed(g, t, j, p, b)
    ensures forall p, b: nat :: Tally(after, p, b) == Indexed(g, t, j + 1, p, b)
  {
    forall p, b: nat
      ensures Tally(after, p, b) == Indexed(g, t, j + 1, p, b)
    {
      TallyStep(before, after, g[t].inputs[j], t, p, b);
      IndexedStep(g, t, j, p, b);
    }
  }

  lemma TallyStep(before: map<Path, seq<nat>>, after: map<Path, seq<nat>>, path: Path, t: nat, p: Path, b: nat)
    requires after == before[path := Lookup(before, path) + [t]]
    ensures Tally(after, p, b) == Tally(before, p, b) + if p == path && b == t then 1 else 0
  {
    if p == path {
      assert Lookup(after, p) == Lookup(before, p) + [t];
    } else {
      assert Lookup(after, p) == Lookup(before, p);
    }
  }

  lemma IndexedStep(g: seq<Node>, t: nat, j: nat, p: Path, b: nat)
    requires t < |g| && j < |g[t].inputs|
    ensures Indexed(g, t, j + 1, p, b) == Indexed(g, t, j, p, b) + if p == g[t].inputs[j] && b == t then 1 else 0
  {
    assert g[t].inputs[..j + 1] == g[t].inputs[..j] + [g[t].inputs[j]];
  }

  lemma IndexNextTarget(g: seq<Node>, t: nat, index: map<Path, seq<nat>>)
    requires t < |g|
    requires forall p, b: nat :: Tally(index, p, b) == Indexed(g, t, |g[t].inputs|, p, b)
    ensures forall p, b: nat :: Tally(index, p, b) == Indexed(g, t + 1, 0, p, b)
  {
    assert g[t].inputs[..|g[t].inputs|] == g[t].inputs;
    forall p, b: nat
      ensures Tally(index, p, b) == Indexed(g, t + 1, 0, p, b)
    {
      assert Tally(index, p, b) == Indexed(g, t, |g[t].inputs|, p, b);
    }
  }

  lemma IndexDone(g: seq<Node>, index: map<Path, seq<nat>>)
    requires forall p, b: nat :: Tally(index, p, b) == Indexed(g, |g|, 0, p, b)
    ensures IndexesInputs(g, index)
  {
    forall p, b: nat
      ensures Tally(index, p, b) == if b < |g| then multiset(g[b].inputs)[p] else 0
    {
      assert Tally(index, p, b) == Indexed(g, |g|, 0, p, b);
    }
  }

  /** The first loop of the sort: every target is appended to the list of each of its input paths. */
  method BuildInputIndex(g: seq<Node>) returns (index: map<Path, seq<nat>>)
    ensures IndexesInputs(g, index)
  {
    index := map[];
    var t := 0;
    while t < |g|
      invariant 0 <= t <= |g|
      invariant forall p, b: nat :: Tally(index, p, b) == Indexed(g, t, 0, p, b)
    {
      var inputs := g[t].inputs;
      var j := 0;
      while j < |inputs|
        invariant 0 <= j <= |inputs|
        invariant forall p, b: nat :: Tally(index, p, b) == Indexed(g, t, j, p, b)
      {
        var path := inputs[j];
        var inputTargets := if path in index then index[path] else [];
        ghost var before := index;
        index := index[path := inputTargets + [t]];
        IndexAddStep(g, t, j, before, index);
        j := j + 1;
      }
      IndexNextTarget(g, t, index);
      t := t + 1;
    }
    IndexDone(g, index);
  }

  // ---------------------------------------------------------------------
  // Phase 2: the adjacency sets and the in-edge counters

  /** The successor lists: duplicate-free, and holding exactly the targets each target feeds. */
  ghost predicate IsSuccessorMap(g: seq<Node>, graph: map<nat, seq<nat>>)
  {
    (forall x: nat :: x in graph <==> x < |g|)
    && (forall x :: x in graph ==> Distinct(graph[x]))
    && (forall x: nat, b: nat :: x in graph ==> (b in graph[x] <==> b < |g| && Feeds(g, x, b)))
  }

  /** The counters: one per target, each its in-edge count. */
  ghost predicate IsInCountMap(g: seq<Node>, counts: map<nat, int>)
  {
    (forall x: nat :: x in counts <==> x < |g|)
    && (forall b :: b in counts ==> counts[b] == InCount(g, b))
  }

  /**
   * The state of the second loop after the targets before `a` and, for
   * target `a`, the output paths `done` and the consumers `extra` of the
   * current output path.
   */
  ghost predicate GraphState(g: seq<Node>, graph: map<nat, seq<nat>>, counts: map<nat, int>,
                             a: nat, done: seq<Path>, extra: seq<nat>)
  {
    EdgesState(g, graph, a, done, extra) && CountsState(g, counts, a, done, extra)
  }

  /** The successor sets of GraphState. */
  ghost predicate EdgesState(g: seq<Node>, graph: map<nat, seq<nat>>, a: nat, done: seq<Path>, extra: seq<nat>)
  {
    a <= |g|
    && (forall x: nat :: x in graph <==> x < |g|)
    && (forall x :: x in graph ==> Distinct(graph[x]))
    && (forall x: nat, b: nat :: x < a ==> (b in graph[x] <==> b < |g| && Feeds(g, x, b)))
    && (forall x: nat :: a < x < |g| ==> graph[x] == [])
    && (a < |g| ==> forall b: nat :: b in graph[a] <==> (b < |g| && PairCount(done, g[b].inputs) > 0) || b in extra)
  }

  /** The in-edge counters of GraphState. */
  ghost predicate CountsState(g: seq<Node>, counts: map<nat, int>, a: nat, done: seq<Path>, extra: seq<nat>)
  {
    a <= |g|
    && (forall x: nat :: x in counts <==> x < |g|)
    && (forall b: nat :: b < |g| ==>
          counts[b] == InCountUpTo(g, a, b) + (if a < |g| then PairCount(done, g[b].inputs) else 0) + multiset(extra)[b])
  }

  /** HashSet.Add on an insertion-ordered set. */
  function AddToSet(s: seq<nat>, x: nat): (r: seq<nat>)
    ensures Distinct(s) ==> Distinct(r)
    ensures forall y :: y in r <==> y in s || y == x
  {
    if x in s then s else s + [x]
  }

  /** One consumer of the current output path: add the edge unless present, bump the counter. */
  lemma EdgeStep(g: seq<Node>, graph: map<nat, seq<nat>>, counts: map<nat, int>,
                 a: nat, done: seq<Path>, extra: seq<nat>, to: nat)
    requires GraphState(g, graph, counts, a, done, extra) && a < |g| && to < |g|
    ensures GraphState(g, graph[a := AddToSet(graph[a], to)], counts[to := counts[to] + 1], a, done, extra + [to])
  {
    EdgeStepEdges(g, graph, a, done, extra, to);
    EdgeStepCounts(g, counts, a, done, extra, to);
  }

  lemma EdgeStepEdges(g: seq<Node>, graph: map<nat, seq<nat>>, a: nat, done: seq<Path>, extra: seq<nat>, to: nat)
    requires EdgesState(g, graph, a, done, extra) && a < |g| && to < |g|
    ensures EdgesState(g, graph[a := AddToSet(graph[a], to)], a, done, extra + [to])
  {
    var graph' := graph[a := AddToSet(graph[a], to)];
    assert forall x: nat :: x in graph' <==> x < |g|;
    forall x | x in graph'
      ensures Distinct(graph'[x])
    {
      if x != a {
        assert graph'[x] == graph[x];
      }
    }
    forall x: nat, b: nat | x < a
      ensures b in graph'[x] <==> b < |g| && Feeds(g, x, b)
    {
      assert graph'[x] == graph[x];
    }
    forall x: nat | a < x < |g|
      ensures graph'[x] == []
    {
      assert graph'[x] == graph[x];
    }
    forall b: nat
      ensures b in graph'[a] <==> (b < |g| && PairCount(done, g[b].inputs) > 0) || b in extra + [to]
    {
      assert b in graph'[a] <==> b in graph[a] || b == to;
    }
  }

  lemma EdgeStepCounts(g: seq<Node>, counts: map<nat, int>, a: nat, done: seq<Path>, extra: seq<nat>, to: nat)
    requires CountsState(g, counts, a, done, extra) && a < |g| && to < |g|
    ensures CountsState(g, counts[to := counts[to] + 1], a, done, extra + [to])
  {
    var counts' := counts[to := counts[to] + 1];
    assert forall x: nat :: x in counts' <==> x < |g|;
    forall b: nat | b < |g|
      ensures counts'[b] == InCountUpTo(g, a, b) + PairCount(done, g[b].inputs) + multiset(extra + [to])[b]
    {
      assert multiset(extra + [to])[b] == multiset(extra)[b] + if b == to then 1 else 0;
    }
  }

  /** The consumers of output path p are done: p joins the finished output paths. */
  lemma PathStep(g: seq<Node>, graph: map<nat, seq<nat>>, counts: map<nat, int>,
                 a: nat, done: seq<Path>, consumers: seq<nat>, p: Path)
    requires GraphState(g, graph, counts, a, done, consumers) && a < |g|
    requires forall b: nat :: multiset(consumers)[b] == if b < |g| then multiset(g[b].inputs)[p] else 0
    ensures GraphState(g, graph, counts, a, done + [p], [])
  {
    assert (done + [p])[..|done|] == done;
    forall b: nat
      ensures b in graph[a] <==> (b < |g| && PairCount(done + [p], g[b].inputs) > 0)
    {
      assert b in consumers <==> multiset(consumers)[b] > 0;
    }
  }

  /** All output paths of target a are done: move on to target a + 1. */
  lemma TargetStep(g: seq<Node>, graph: map<nat, seq<nat>>, counts: map<nat, int>, a: nat)
    requires a < |g| && GraphState(g, graph, counts, a, g[a].outputs, [])
    ensures GraphState(g, graph, counts, a + 1, [], [])
  {
    forall b: nat | b < |g|
      ensures b in graph[a] <==> Feeds(g, a, b)
    {
      FeedsIffWeight(g, a, b);
    }
  }

  lemma GraphDone(g: seq<Node>, graph: map<nat, seq<nat>>, counts: map<nat, int>)
    requires GraphState(g, graph, counts, |g|, [], [])
    ensures IsSuccessorMap(g, graph) && IsInCountMap(g, counts)
  {
  }

  /** graph.Add(item, new HashSet()) and inputEdgeCounts[item] = 0 for every target. */
  method InitGraph(g: seq<Node>, n: nat) returns (graph: map<nat, seq<nat>>, counts: map<nat, int>)
    requires n == |g|
    ensures GraphState(g, graph, counts, 0, [], [])
  {
    graph := map[];
    counts := map[];
    var e := 0;
    while e < n
      invariant 0 <= e <= n
      invariant forall x: nat :: x in graph <==> x < e
      invariant forall x: nat :: x in counts <==> x < e
      invariant forall x :: x in graph ==> graph[x] == []
      invariant forall x :: x in counts ==> counts[x] == 0
    {
      graph := graph[e := []];
      counts := counts[e := 0];
      e := e + 1;
    }
  }

  /** The innermost loop: an edge from `a` and a counter increment for each listed consumer. */
  method AddConsumers(g: seq<Node>, graph0: map<nat, seq<nat>>, counts0: map<nat, int>,
                      a: nat, ghost done: seq<Path>, outputTargets: seq<nat>)
    returns (graph: map<nat, seq<nat>>, counts: map<nat, int>)
    requires a < |g| && GraphState(g, graph0, counts0, a, done, [])
    requires forall b :: b in outputTargets ==> b < |g|
    ensures GraphState(g, graph, counts, a, done, outputTargets)
  {
    graph, counts := graph0, counts0;
    ghost var listed: seq<nat> := [];
    var k := 0;
    while k < |outputTargets|
      invariant 0 <= k <= |outputTargets| && listed == outputTargets[..k]
      invariant GraphState(g, graph, counts, a, done, listed)
    {
      var outputTarget := outputTargets[k];
      assert outputTarget in outputTargets;
      EdgeStep(g, graph, counts, a, done, listed, outputTarget);
      graph := graph[a := AddToSet(graph[a], outputTarget)];
      counts := counts[outputTarget := counts[outputTarget] + 1];
      PrefixStep(outputTargets, k);
      listed := listed + [outputTarget];
      k := k + 1;
    }
    assert listed == outputTargets;
  }

  /** The prefix one element longer. */
  lemma PrefixStep<T>(s: seq<T>, i: nat)
    requires i < |s|
    ensures s[..i + 1] == s[..i] + [s[i]]
  {
  }

  /** The consumers the index lists for a path: each target as often as it reads the path. */
  lemma ConsumersFromIndex(g: seq<Node>, index: map<Path, seq<nat>>, p: Path)
    requires IndexesInputs(g, index)
    ensures forall b: nat ::
      multiset(Lookup(index, p))[b] == if b < |g| then multiset(g[b].inputs)[p] else 0
    ensures forall b :: b in Lookup(index, p) ==> b < |g|
  {
    forall b | b in Lookup(index, p)
      ensures b < |g|
    {
      assert multiset(Lookup(index, p))[b] > 0;
      assert Tally(index, p, b) == if b < |g| then multiset(g[b].inputs)[p] else 0;
    }
    forall b: nat
      ensures multiset(Lookup(index, p))[b] == if b < |g| then multiset(g[b].inputs)[p] else 0
    {
      assert Tally(index, p, b) == if b < |g| then multiset(g[b].inputs)[p] else 0;
    }
  }

  /** The edges for one output path of target a: one per consumer the index lists. */
  method AddPathEdges(g: seq<Node>, index: map<Path, seq<nat>>, graph0: map<nat, seq<nat>>, counts0: map<nat, int>,
                      a: nat, ghost done: seq<Path>, outputPath: Path)
    returns (graph: map<nat, seq<nat>>, counts: map<nat, int>)
    requires IndexesInputs(g, index)
    requires a < |g| && GraphState(g, graph0, counts0, a, done, [])
    ensures GraphState(g, graph, counts, a, done + [outputPath], [])
  {
    var outputTargets := Lookup(index, outputPath);
    ConsumersFromIndex(g, index, outputPath);
    graph, counts := AddConsumers(g, graph0, counts0, a, done, outputTargets);
    PathStep(g, graph, counts, a, done, outputTargets, outputPath);
  }

  /** The edges out of target a: one pass over its output paths. */
  method AddTargetEdges(g: seq<Node>, index: map<Path, seq<nat>>,
                        graph0: map<nat, seq<nat>>, counts0: map<nat, int>, a: nat)
    returns (graph: map<nat, seq<nat>>, counts: map<nat, int>)
    requires IndexesInputs(g, index)
    requires a < |g| && GraphState(g, graph0, counts0, a, [], [])
    ensures GraphState(g, graph, counts, a + 1, [], [])
  {
    graph, counts := graph0, counts0;
    var outputs := g[a].outputs;
    ghost var done: seq<Path> := [];
    var i := 0;
    while i < |outputs|
      invariant 0 <= i <= |outputs| && done == outputs[..i]
      invariant GraphState(g, graph, counts, a, done, [])
    {
      graph, counts := AddPathEdges(g, index, graph, counts, a, done, outputs[i]);
      PrefixStep(outputs, i);
      done := done + [outputs[i]];
      i := i + 1;
    }
    assert done == outputs;
    TargetStep(g, graph, counts, a);
  }

  /** The second loop of the sort: an edge and a counter increment per consumer of each output path. */
  method BuildGraph(g: seq<Node>, index: map<Path, seq<nat>>)
    returns (graph: map<nat, seq<nat>>, counts: map<nat, int>)
    requires IndexesInputs(g, index)
    ensures IsSuccessorMap(g, graph)
    ensures IsInCountMap(g, counts)
  {
    graph, counts := InitGraph(g, |g|);
    var a := 0;
    while a < |g|
      invariant 0 <= a <= |g|
      invariant GraphState(g, graph, counts, a, [], [])
    {
      graph, counts := AddTargetEdges(g, index, graph, counts, a);
      a := a + 1;
    }
    GraphDone(g, graph, counts);
  }

  // ---------------------------------------------------------------------
  // Phase 3: the initial queue

  /** The roots of the first m targets are exactly those among them with no in-edge, each once. */
  lemma {:induction false} RootsShape(g: seq<Node>, m: nat)
    requires m <= |g|
    ensures forall x: nat :: x in RootsUpTo(g, m) <==> x < m && InCount(g, x) == 0
    ensures Distinct(RootsUpTo(g, m))
  {
    if m > 0 {
      RootsShape(g, m - 1);
      var prev := RootsUpTo(g, m - 1);
      var last: seq<nat> := if InCount(g, m - 1) == 0 then [m - 1] else [];
      assert RootsUpTo(g, m) == prev + last;
      forall x: nat
        ensures x in prev + last <==> x < m && InCount(g, x) == 0
      {
        assert x in prev + last <==> x in prev || x in last;
      }
    }
  }

  /** A target with no in-edge has no producer. */
  lemma NoPredsOfRoot(g: seq<Node>, b: nat)
    requires b < |g| && InCount(g, b) == 0
    ensures forall a :: 0 <= a < |g| ==> !Feeds(g, a, b)
  {
    InCountBoundsPreds(g, |g|, b);
    assert Preds(g, b) == {};
    forall a | 0 <= a < |g|
      ensures !Feeds(g, a, b)
    {
      assert a in PredsUpTo(g, |g|, b) <==> Feeds(g, a, b);
    }
  }

  /** The third loop of the sort: every target whose counter is zero, in declaration order. */
  method CollectRoots(g: seq<Node>, counts: map<nat, int>) returns (queue: seq<nat>)
    requires IsInCountMap(g, counts)
    ensures queue == Roots(g)
  {
    queue := [];
    var c := 0;
    while c < |g|
      invariant 0 <= c <= |g|
      invariant queue == RootsUpTo(g, c)
    {
      if counts[c] == 0 {
        queue := queue + [c];
      }
      c := c + 1;
    }
  }

  // ---------------------------------------------------------------------
  // Phase 4: the queue

  /** Every producer of a queued or ordered target is already ordered. */
  ghost predicate PredsDone(g: seq<Node>, order: seq<nat>, listed: seq<nat>)
  {
    forall j, a: nat :: 0 <= j < |listed| && a < |g| && listed[j] < |g| && Feeds(g, a, listed[j]) ==> a in order
  }

  /**
   * The state of the queue loop: `order` is what has been dequeued, `queue`
   * what waits, `graph` the successor lists of the targets not yet dequeued,
   * and `pending` the successors of the last dequeued target whose counters
   * have not been decremented yet.
   */
  ghost predicate KahnState(g: seq<Node>, succ: map<nat, seq<nat>>, graph: map<nat, seq<nat>>,
                            counts: map<nat, int>, order: seq<nat>, queue: seq<nat>, pending: seq<nat>)
  {
    IsSuccessorMap(g, succ)
    && GraphTracks(g, succ, graph, order)
    && Listed(g, order, order + queue)
    && Counted(g, counts, order, order + queue, pending)
  }

  /** `graph` holds the successor lists of exactly the targets not yet ordered. */
  ghost predicate GraphTracks(g: seq<Node>, succ: map<nat, seq<nat>>, graph: map<nat, seq<nat>>, order: seq<nat>)
  {
    (forall x: nat :: x in graph <==> x < |g| && x !in order)
    && (forall x :: x in graph ==> x in succ && graph[x] == succ[x])
  }

  /** The ordered-then-queued targets: distinct, topological, and starting with the roots. */
  ghost predicate Listed(g: seq<Node>, order: seq<nat>, listed: seq<nat>)
  {
    (forall x :: x in listed ==> x < |g|)
    && Distinct(listed)
    && PredsDone(g, order, listed)
    && RespectsFeeds(g, listed)
    && Roots(g) <= listed
  }

  /** Each counter is the number of in-edges whose producer is not yet ordered, plus one while its decrement is pending. */
  ghost predicate Counted(g: seq<Node>, counts: map<nat, int>, order: seq<nat>, listed: seq<nat>, pending: seq<nat>)
  {
    (forall x: nat :: x in counts <==> x < |g|)
    && (forall b: nat :: b < |g| ==>
          counts[b] == InCount(g, b) - |DonePreds(g, b, order)| + if b in pending then 1 else 0)
    && (forall b: nat :: b < |g| ==> (counts[b] == 0 <==> b in listed))
    && (forall b :: b in pending ==> b < |g| && b !in listed)
    && Distinct(pending)
  }

  lemma KahnInit(g: seq<Node>, succ: map<nat, seq<nat>>, counts: map<nat, int>)
    requires IsSuccessorMap(g, succ) && IsInCountMap(g, counts)
    ensures KahnState(g, succ, succ, counts, [], Roots(g), [])
  {
    var roots := Roots(g);
    RootsShape(g, |g|);
    assert [] + roots == roots;
    forall b: nat | b < |g|
      ensures counts[b] == InCount(g, b) - |DonePreds(g, b, [])|
    {
      assert DonePreds(g, b, []) == {};
    }
    forall j | 0 <= j < |roots|
      ensures roots[j] < |g| && forall a :: 0 <= a < |g| ==> !Feeds(g, a, roots[j])
    {
      assert roots[j] in roots;
      NoPredsOfRoot(g, roots[j]);
    }
  }

  /** Dequeue the front target: it joins the order, leaves the graph, and its successors become pending. */
  lemma KahnDequeue(g: seq<Node>, succ: map<nat, seq<nat>>, graph: map<nat, seq<nat>>,
                    counts: map<nat, int>, order: seq<nat>, queue: seq<nat>)
    requires KahnState(g, succ, graph, counts, order, queue, []) && queue != []
    ensures queue[0] in graph && graph[queue[0]] == succ[queue[0]]
    ensures KahnState(g, succ, graph - {queue[0]}, counts, order + [queue[0]], queue[1..], succ[queue[0]])
  {
    var from := queue[0];
    var listed := order + queue;
    var order' := order + [from];
    assert order' + queue[1..] == listed;
    assert listed[|order|] == from;
    assert from in listed;
    assert from !in order by {
      forall i | 0 <= i < |order|
        ensures order[i] != from
      {
        assert listed[i] == order[i];
      }
    }
    assert from < |g|;
    forall b: nat | b < |g|
      ensures counts[b] == InCount(g, b) - |DonePreds(g, b, order')| + if b in succ[from] then 1 else 0
    {
      DonePredsSnoc(g, b, order, from);
    }
    forall b | b in succ[from]
      ensures b !in listed
    {
      forall j | 0 <= j < |listed|
        ensures listed[j] != b
      {
      }
    }
  }

  /** A new last element all of whose producers are ordered, and which is not itself ordered, keeps the order topological. */
  lemma RespectsFeedsSnoc(g: seq<Node>, order: seq<nat>, listed: seq<nat>, x: nat)
    requires RespectsFeeds(g, listed) && PredsDone(g, order, listed)
    requires x < |g| && x !in order
    requires forall a :: 0 <= a < |g| && Feeds(g, a, x) ==> a in order
    ensures RespectsFeeds(g, listed + [x])
  {
    var l := listed + [x];
    forall i, j | 0 <= i < |l| && 0 <= j < |l| && l[i] < |g| && l[j] < |g| && Feeds(g, l[i], l[j])
      ensures i < j
    {
      if j < |listed| {
        assert l[j] == listed[j];
        if i < |listed| {
          assert l[i] == listed[i];
        }
      }
    }
  }

  /** Appending a target that is not listed and whose producers are all ordered keeps the listing valid. */
  lemma ListedSnoc(g: seq<Node>, order: seq<nat>, listed: seq<nat>, to: nat)
    requires Listed(g, order, listed) && order <= listed
    requires to < |g| && to !in listed
    requires forall a :: 0 <= a < |g| && Feeds(g, a, to) ==> a in order
    ensures Listed(g, order, listed + [to])
  {
    var l := listed + [to];
    assert to !in order;
    RespectsFeedsSnoc(g, order, listed, to);
    forall j, a: nat | 0 <= j < |l| && a < |g| && l[j] < |g| && Feeds(g, a, l[j])
      ensures a in order
    {
      if j < |listed| {
        assert l[j] == listed[j];
      }
    }
    assert Roots(g) <= l;
  }

  /** Decrement the counter of the first pending successor and enqueue it when the counter reaches zero. */
  lemma KahnRelease(g: seq<Node>, succ: map<nat, seq<nat>>, graph: map<nat, seq<nat>>,
                    counts: map<nat, int>, order: seq<nat>, queue: seq<nat>, pending: seq<nat>)
    requires KahnState(g, succ, graph, counts, order, queue, pending) && pending != []
    ensures pending[0] in counts
    ensures var to := pending[0];
      var counts' := counts[to := counts[to] - 1];
      KahnState(g, succ, graph, counts', order, if counts'[to] == 0 then queue + [to] else queue, pending[1..])
  {
    assert pending[0] in pending;
    if counts[pending[0]] == 1 {
      KahnReleaseLast(g, succ, graph, counts, order, queue, pending);
    } else {
      KahnReleaseOne(g, succ, graph, counts, order, queue, pending);
    }
  }

  /** The decrement that brings a counter to zero: every producer of that target is ordered, so it joins the queue. */
  lemma KahnReleaseLast(g: seq<Node>, succ: map<nat, seq<nat>>, graph: map<nat, seq<nat>>,
                        counts: map<nat, int>, order: seq<nat>, queue: seq<nat>, pending: seq<nat>)
    requires KahnState(g, succ, graph, counts, order, queue, pending) && pending != []
    requires pending[0] in counts && counts[pending[0]] == 1
    ensures KahnState(g, succ, graph, counts[pending[0] := 0], order, queue + [pending[0]], pending[1..])
  {
    var to := pending[0];
    var listed := order + queue;
    assert order + (queue + [to]) == listed + [to];
    CountedLast(g, counts, order, listed, pending);
    ZeroCountMeansPredsDone(g, to, order);
    ListedSnoc(g, order, listed, to);
  }

  lemma CountedLast(g: seq<Node>, counts: map<nat, int>, order: seq<nat>, listed: seq<nat>, pending: seq<nat>)
    requires Counted(g, counts, order, listed, pending) && pending != []
    requires pending[0] in counts && counts[pending[0]] == 1
    ensures pending[0] < |g| && pending[0] !in listed
    ensures InCount(g, pending[0]) == |DonePreds(g, pending[0], order)|
    ensures Counted(g, counts[pending[0] := 0], order, listed + [pending[0]], pending[1..])
  {
    var to := pending[0];
    var rest := pending[1..];
    assert to in pending;
    assert pending == [to] + rest;
    assert to !in rest;
    var l := listed + [to];
    forall b | b in rest
      ensures b < |g| && b !in l
    {
      assert b in pending && b != to;
    }
  }

  /** A decrement that leaves the counter positive: the queue is unchanged. */
  lemma KahnReleaseOne(g: seq<Node>, succ: map<nat, seq<nat>>, graph: map<nat, seq<nat>>,
                       counts: map<nat, int>, order: seq<nat>, queue: seq<nat>, pending: seq<nat>)
    requires KahnState(g, succ, graph, counts, order, queue, pending) && pending != []
    requires pending[0] in counts && counts[pending[0]] != 1
    ensures KahnState(g, succ, graph, counts[pending[0] := counts[pending[0]] - 1], order, queue, pending[1..])
  {
    CountedOne(g, counts, order, order + queue, pending);
  }

  lemma CountedOne(g: seq<Node>, counts: map<nat, int>, order: seq<nat>, listed: seq<nat>, pending: seq<nat>)
    requires Counted(g, counts, order, listed, pending) && pending != []
    requires pending[0] in counts && counts[pending[0]] != 1
    ensures Counted(g, counts[pending[0] := counts[pending[0]] - 1], order, listed, pending[1..])
  {
    var to := pending[0];
    var rest := pending[1..];
    assert to in pending;
    assert pending == [to] + rest;
    assert to !in rest;
    forall b | b in rest
      ensures b < |g| && b !in listed
    {
      assert b in pending && b != to;
    }
  }

  /** The fourth loop of the sort: Kahn's queue, from the roots, until it runs dry. */
  method RunQueue(g: seq<Node>, succ: map<nat, seq<nat>>, counts0: map<nat, int>, roots: seq<nat>)
    returns (order: seq<nat>, graph: map<nat, seq<nat>>, counts: map<nat, int>)
    requires IsSuccessorMap(g, succ) && IsInCountMap(g, counts0) && roots == Roots(g)
    ensures KahnState(g, succ, graph, counts, order, [], [])
  {
    KahnInit(g, succ, counts0);
    graph, counts := succ, counts0;
    var queue := roots;
    order := [];
    while |queue| != 0
      invariant KahnState(g, succ, graph, counts, order, queue, [])
      decreases graph
    {
      KahnDequeue(g, succ, graph, counts, order, queue);
      var fromTarget := queue[0];
      queue := queue[1..];
      order := order + [fromTarget];
      var toTargets := graph[fromTarget];
      graph := graph - {fromTarget};
      counts, queue := ReleaseSuccessors(g, succ, graph, counts, order, queue, toTargets);
    }
  }

  /** The inner loop of the queue: one decrement per successor of the dequeued target. */
  method ReleaseSuccessors(g: seq<Node>, succ: map<nat, seq<nat>>, graph: map<nat, seq<nat>>,
                           counts0: map<nat, int>, order: seq<nat>, queue0: seq<nat>, toTargets: seq<nat>)
    returns (counts: map<nat, int>, queue: seq<nat>)
    requires KahnState(g, succ, graph, counts0, order, queue0, toTargets)
    ensures KahnState(g, succ, graph, counts, order, queue, [])
  {
    counts, queue := counts0, queue0;
    var k := 0;
    while k < |toTargets|
      invariant 0 <= k <= |toTargets|
      invariant KahnState(g, succ, graph, counts, order, queue, toTargets[k..])
    {
      KahnRelease(g, succ, graph, counts, order, queue, toTargets[k..]);
      var toTarget := toTargets[k];
      assert toTargets[k..][0] == toTarget && toTargets[k..][1..] == toTargets[k + 1..];
      counts := counts[toTarget := counts[toTarget] - 1];
      if counts[toTarget] == 0 {
        queue := queue + [toTarget];
      }
      k := k + 1;
    }
  }

  /** A run that dequeues every target has produced a topological order, so the graph is acyclic with single edges. */
  lemma KahnSuccess(g: seq<Node>, succ: map<nat, seq<nat>>, graph: map<nat, seq<nat>>,
                    counts: map<nat, int>, order: seq<nat>)
    requires KahnState(g, succ, graph, counts, order, [], [])
    requires forall x :: x !in graph
    ensures IsPermutation(g, order) && RespectsFeeds(g, order) && Roots(g) <= order
    ensures Acyclic(g) && SingleEdges(g)
  {
    assert order + [] == order;
    forall b | 0 <= b < |g|
      ensures b in order
    {
      assert b !in graph;
    }
    forall i | 0 <= i < |order|
      ensures order[i] < |g|
    {
      assert order[i] in order;
    }
    TopologicalOrderIsAcyclic(g, order);
    forall a, b | 0 <= a < |g| && 0 <= b < |g|
      ensures Weight(g, a, b) <= 1
    {
      assert b in order;
      ZeroCountMeansPredsDone(g, b, order);
    }
  }

  /**
   * A run that leaves some target w in the graph: w has an in-edge, and
   * either there is a cycle or two targets are linked by several paths.
   */
  lemma KahnFailure(g: seq<Node>, succ: map<nat, seq<nat>>, graph: map<nat, seq<nat>>,
                    counts: map<nat, int>, order: seq<nat>, w: nat)
    requires KahnState(g, succ, graph, counts, order, [], [])
    requires w in graph
    ensures w < |g| && InCount(g, w) > 0
    ensures !(Acyclic(g) && SingleEdges(g))
  {
    assert order + [] == order;
    assert GraphTracks(g, succ, graph, order) && Counted(g, counts, order, order, []);
    StuckTarget(g, succ, graph, counts, order, w);
    DonePredsBound(g, w, order);
    if Acyclic(g) {
      var s := graph.Keys;
      assert Within(g, s) by {
        assert w in s;
      }
      var b :| b in s && forall a :: a in s ==> !Feeds(g, a, b);
      StuckTarget(g, succ, graph, counts, order, b);
      forall a | 0 <= a < |g| && Feeds(g, a, b)
        ensures a in order
      {
        assert a !in s;
      }
      PredsAllDone(g, b, order);
      InCountBoundsPreds(g, |g|, b);
    }
  }

  /** A target still in the graph at the end has a counter that has not reached zero. */
  lemma StuckTarget(g: seq<Node>, succ: map<nat, seq<nat>>, graph: map<nat, seq<nat>>,
                    counts: map<nat, int>, order: seq<nat>, b: nat)
    requires GraphTracks(g, succ, graph, order) && Counted(g, counts, order, order, [])
    requires b in graph
    ensures b < |g| && InCount(g, b) != |DonePreds(g, b, order)|
  {
  }

  /**
   * VacuumTool.TopologicallySortVacuumTargets. On success the result lists
   * every target once, producers before consumers, starting with the
   * targets that have no in-edge; it succeeds exactly when the graph is
   * acyclic and no two targets are linked by more than one path pair. On
   * failure it names some target left with an in-edge.
   */
  method TopologicallySortVacuumTargets(targets: seq<Target>) returns (r: Result<seq<nat>, Error>)
    ensures r.Success? <==> Acyclic(Nodes(targets)) && SingleEdges(Nodes(targets))
    ensures r.Success? ==>
      IsPermutation(Nodes(targets), r.value) && RespectsFeeds(Nodes(targets), r.value)
      && Roots(Nodes(targets)) <= r.value
    ensures r.Failure? ==>
      r.error.CircularDependency? && r.error.position < |targets|
      && r.error.target == targets[r.error.position].name
      && InCount(Nodes(targets), r.error.position) > 0
  {
    var g := Nodes(targets);
    var index := BuildInputIndex(g);
    var succ, counts0 := BuildGraph(g, index);
    var roots := CollectRoots(g, counts0);
    var order, graph, counts := RunQueue(g, succ, counts0, roots);
    if |graph| != 0 {
      assert graph.Keys != {};
      var w :| w in graph;
      KahnFailure(g, succ, graph, counts, order, w);
      return Failure(CircularDependency(w, targets[w].name));
    }
    assert forall x :: x !in graph;
    KahnSuccess(g, succ, graph, counts, order);
    return Success(order);
  }
}
