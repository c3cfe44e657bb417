/** The two folds the engine runs over write times: the latest and the earliest. */
module Times {
  import opened Common

  /** Start from `start` and keep any later time: the `if (t > newest) newest = t` loop. */
  function Latest(start: Time, ts: seq<Time>): Time
  {
    if ts == [] then start
    else
      var m := Latest(start, ts[..|ts| - 1]);
      if ts[|ts| - 1] > m then ts[|ts| - 1] else m
  }

  /** Start from `start` and keep any earlier time: the `if (t < oldest) oldest = t` loop. */
  function Earliest(start: Time, ts: seq<Time>): Time
  {
    if ts == [] then start
    else
      var m := Earliest(start, ts[..|ts| - 1]);
      if ts[|ts| - 1] < m then ts[|ts| - 1] else m
  }

  /** Latest is the maximum of `start` and the times: an upper bound that is one of them. */
  lemma {:induction false} LatestIsMaximum(start: Time, ts: seq<Time>)
    ensures Latest(start, ts) >= start
    ensures forall i :: 0 <= i < |ts| ==> Latest(start, ts) >= ts[i]
    ensures Latest(start, ts) == start || exists i :: 0 <= i < |ts| && Latest(start, ts) == ts[i]
  {
    if ts != [] {
      var init := ts[..|ts| - 1];
      LatestIsMaximum(start, init);
      assert forall i :: 0 <= i < |init| ==> ts[i] == init[i];
      if Latest(start, ts) != start && Latest(start, ts) != ts[|ts| - 1] {
        var i :| 0 <= i < |init| && Latest(start, init) == init[i];
        assert Latest(start, ts) == ts[i];
      }
    }
  }

  /** Earliest is the minimum of `start` and the times: a lower bound that is one of them. */
  lemma {:induction false} EarliestIsMinimum(start: Time, ts: seq<Time>)
    ensures Earliest(start, ts) <= start
    ensures forall i :: 0 <= i < |ts| ==> Earliest(start, ts) <= ts[i]
    ensures Earliest(start, ts) == start || exists i :: 0 <= i < |ts| && Earliest(start, ts) == ts[i]
  {
    if ts != [] {
      var init := ts[..|ts| - 1];
      EarliestIsMinimum(start, init);
      assert forall i :: 0 <= i < |init| ==> ts[i] == init[i];
      if Earliest(start, ts) != start && Earliest(start, ts) != ts[|ts| - 1] {
        var i :| 0 <= i < |init| && Earliest(start, init) == init[i];
        assert Earliest(start, ts) == ts[i];
      }
    }
  }
}
