/** The invariant of the queue-based Bellman-Ford search and its termination measure.
    `p` is some potential of the graph; it exists because no cycle is negative. */
module Spfa {
  import opened Residual
  import opened ShortestTree

  /** How far a label lies above the potential.  Along every predecessor arc this never
      falls, and when it stays level the child was stamped later: hence no cycles. */
  ghost function Slack(dist: seq<Distance>, p: seq<int>, v: nat): int
    requires |dist| == |p| && Reached(dist, v)
  {
    dist[v].value - p[v]
  }

  ghost predicate Later(dist: seq<Distance>, p: seq<int>, stamp: seq<nat>, u: nat, v: nat)
    requires |dist| == |p| == |stamp| && Reached(dist, u) && Reached(dist, v)
  {
    || Slack(dist, p, u) < Slack(dist, p, v)
    || (Slack(dist, p, u) == Slack(dist, p, v) && stamp[u] < stamp[v])
  }

  ghost predicate ParentArc(net: Net, n: nat, p: seq<int>, dist: seq<Distance>, prev: seq<int>, stamp: seq<nat>, v: nat)
    requires WellFormed(net, n) && |p| == |dist| == |prev| == |stamp| == n && Reached(dist, v)
  {
    && 0 <= prev[v]
    && IsArc(net, prev[v])
    && net[prev[v]].to == v
    && Reached(dist, From(net, prev[v]))
    && dist[From(net, prev[v])].value + net[prev[v]].cost <= dist[v].value
    && Later(dist, p, stamp, From(net, prev[v]), v)
  }

  ghost predicate Labelled(net: Net, n: nat, source: nat, p: seq<int>, dist: seq<Distance>, prev: seq<int>,
                           stamp: seq<nat>, clock: nat)
    requires WellFormed(net, n)
  {
    && source < n
    && ValidPotential(net, n, p)
    && |dist| == |prev| == |stamp| == n
    && dist[source] == Finite(0)
    && (forall v: nat :: v < n && Reached(dist, v) ==> p[v] - p[source] <= dist[v].value)
    && (forall v: nat {:trigger ParentArc(net, n, p, dist, prev, stamp, v)} ::
          v < n && v != source && Reached(dist, v) ==> ParentArc(net, n, p, dist, prev, stamp, v))
    && (forall v: nat :: v < n ==> stamp[v] < clock)
  }

  /** One improving relaxation along arc `id`.  It never touches the source, never loops
      back on its own tail, and keeps the invariant. */
  lemma {:induction false} Relax(net: Net, n: nat, source: nat, p: seq<int>, dist: seq<Distance>, prev: seq<int>,
                                 stamp: seq<nat>, clock: nat, id: nat)
    requires WellFormed(net, n) && Labelled(net, n, source, p, dist, prev, stamp, clock)
    requires IsArc(net, id) && Reached(dist, From(net, id))
    requires Improves(dist[From(net, id)].value + net[id].cost, dist[net[id].to])
    ensures net[id].to != source && net[id].to != From(net, id)
    ensures var v, x := net[id].to, dist[From(net, id)].value + net[id].cost;
            Labelled(net, n, source, p, dist[v := Finite(x)], prev[v := id], stamp[v := clock], clock + 1)
  {
    var u, v := From(net, id), net[id].to;
    var x := dist[u].value + net[id].cost;
    assert 0 <= net[id].cost + p[u] - p[v];
    var dist', prev', stamp' := dist[v := Finite(x)], prev[v := id], stamp[v := clock];
    forall y: nat | y < n && y != source && Reached(dist', y)
      ensures ParentArc(net, n, p, dist', prev', stamp', y)
    {
      if y != v {
        assert Reached(dist, y);
        assert ParentArc(net, n, p, dist, prev, stamp, y);
      }
    }
  }

  // ---- Termination -----------------------------------------------------------

  ghost function Unreached(dist: seq<Distance>, k: nat): nat
    requires k <= |dist|
  {
    if k == 0 then 0 else Unreached(dist, k - 1) + if dist[k - 1].Infinite? then 1 else 0
  }

  ghost function SlackSum(dist: seq<Distance>, p: seq<int>, base: int, k: nat): int
    requires k <= |dist| == |p|
  {
    if k == 0 then 0
    else SlackSum(dist, p, base, k - 1) + if dist[k - 1].Finite? then dist[k - 1].value - p[k - 1] + base else 0
  }

  lemma {:induction false} SlackSumNonNegative(dist: seq<Distance>, p: seq<int>, base: int, k: nat)
    requires k <= |dist| == |p|
    requires forall v: nat :: v < |dist| && Reached(dist, v) ==> p[v] - base <= dist[v].value
    ensures 0 <= SlackSum(dist, p, base, k)
  {
    if k > 0 {
      SlackSumNonNegative(dist, p, base, k - 1);
      assert Reached(dist, k - 1) ==> p[k - 1] - base <= dist[k - 1].value;
    }
  }

  lemma {:induction false} MeasureAfterUpdate(dist: seq<Distance>, p: seq<int>, base: int, v: nat, x: int, k: nat)
    requires k <= |dist| == |p| && v < |dist|
    requires Improves(x, dist[v])
    ensures var dist' := dist[v := Finite(x)];
            && Unreached(dist', k) == Unreached(dist, k) - (if v < k && dist[v].Infinite? then 1 else 0)
            && SlackSum(dist', p, base, k) == SlackSum(dist, p, base, k)
                 + (if v < k then x - p[v] + base - (if dist[v].Finite? then dist[v].value - p[v] + base else 0) else 0)
  {
    if k > 0 {
      MeasureAfterUpdate(dist, p, base, v, x, k - 1);
    }
  }

  /** The measure is below (unreached, slack, length), lexicographically. */
  ghost predicate Shrunk(dist: seq<Distance>, p: seq<int>, base: int, n: nat, queued: nat,
                         unreached: nat, slack: int, length: nat)
    requires |dist| == |p| == n
  {
    || Unreached(dist, n) < unreached
    || (Unreached(dist, n) == unreached && SlackSum(dist, p, base, n) < slack)
    || (Unreached(dist, n) == unreached && SlackSum(dist, p, base, n) == slack && queued < length)
  }

  /** Any improvement shrinks it, whatever the queue's length. */
  lemma ShrunkAfterUpdate(dist: seq<Distance>, p: seq<int>, base: int, n: nat, v: nat, x: int,
                          queued: nat, later: nat, unreached: nat, slack: int, length: nat)
    requires |dist| == |p| == n && v < n && Improves(x, dist[v])
    requires Shrunk(dist, p, base, n, queued, unreached, slack, length)
    ensures Shrunk(dist[v := Finite(x)], p, base, n, later, unreached, slack, length)
  {
    MeasureAfterUpdate(dist, p, base, v, x, n);
    hide Unreached, SlackSum;
  }

  lemma ShrunkAtStart(dist: seq<Distance>, p: seq<int>, base: int, n: nat, length: nat)
    requires |dist| == |p| == n
    ensures Shrunk(dist, p, base, n, length, Unreached(dist, n), SlackSum(dist, p, base, n), length + 1)
  {
    hide Unreached, SlackSum;
  }

  // ---- The queue ---------------------------------------------------------------

  /** The variables of one search; the stamps are ghost bookkeeping. */
  datatype Search = Search(dist: seq<Distance>, prev: seq<int>, inQueue: seq<bool>, q: seq<nat>,
                           stamp: seq<nat>, clock: nat)

  ghost predicate LabelledBy(net: Net, n: nat, source: nat, p: seq<int>, s: Search)
    requires WellFormed(net, n)
  {
    Labelled(net, n, source, p, s.dist, s.prev, s.stamp, s.clock)
  }

  /** Queued nodes carry a label, and the flags never claim a node that is not queued. */
  ghost predicate QueueHolds(n: nat, s: Search)
  {
    && |s.inQueue| == n
    && (forall x :: x in s.q ==> x < n && Reached(s.dist, x))
    && (forall v: nat :: v < n && s.inQueue[v] ==> v in s.q)
  }

  /** Only queued nodes (and, while it is being scanned, `u`) may have unsatisfied arcs. */
  ghost predicate SatisfiedElsewhere(net: Net, n: nat, s: Search, u: nat)
    requires WellFormed(net, n) && |s.dist| == |s.inQueue| == n
  {
    forall e: nat :: IsArc(net, e) && !s.inQueue[From(net, e)] && From(net, e) != u ==> Satisfied(net, n, s.dist, e)
  }

  /** The invariant between two scans. */
  ghost predicate Running(net: Net, n: nat, source: nat, p: seq<int>, s: Search)
    requires WellFormed(net, n)
  {
    && LabelledBy(net, n, source, p, s)
    && QueueHolds(n, s)
    && SatisfiedElsewhere(net, n, s, n)
  }

  ghost predicate Sized(n: nat, s: Search)
  {
    |s.dist| == |s.prev| == |s.inQueue| == |s.stamp| == n
  }

  ghost predicate Scanning(net: Net, n: nat, source: nat, p: seq<int>, s: Search, u: nat, ids: seq<nat>, i: nat)
    requires WellFormed(net, n)
  {
    && LabelledBy(net, n, source, p, s)
    && QueueHolds(n, s)
    && Reached(s.dist, u) && !s.inQueue[u]
    && SatisfiedElsewhere(net, n, s, u)
    && i <= |ids|
    && (forall j :: 0 <= j < |ids| ==> ids[j] < |net| && From(net, ids[j]) == u)
    && (forall j :: 0 <= j < i && IsArc(net, ids[j]) ==> Satisfied(net, n, s.dist, ids[j]))
  }

  ghost function Relaxing(net: Net, n: nat, s: Search, id: nat): Search
    requires |net| % 2 == 0 && |s.dist| == |s.prev| == |s.inQueue| == |s.stamp| == n
    requires id < |net| && net[id].to < n && Reached(s.dist, From(net, id))
  {
    var v := net[id].to;
    Search(s.dist[v := Finite(s.dist[From(net, id)].value + net[id].cost)], s.prev[v := id],
           s.inQueue[v := true], if s.inQueue[v] then s.q else s.q + [v],
           s.stamp[v := s.clock], s.clock + 1)
  }

  lemma {:induction false} Start(net: Net, n: nat, source: nat, p: seq<int>, s: Search)
    requires WellFormed(net, n) && ValidPotential(net, n, p) && source < n && Sized(n, s)
    requires s.dist == seq(n, _ => Infinite)[source := Finite(0)]
    requires s.inQueue == seq(n, _ => false)[source := true] && s.q == [source]
    requires s.clock == 1 && s.stamp == seq(n, _ => 0)
    ensures Running(net, n, source, p, s)
  {
    assert source in s.q;
    assert s.dist[source] == Finite(0);
    assert forall v: nat :: v < n && v != source ==> s.dist[v] == Infinite && !s.inQueue[v];
    assert forall v: nat :: v < n ==> s.stamp[v] == 0;
  }

  lemma {:induction false} Front(net: Net, n: nat, source: nat, p: seq<int>, s: Search)
    requires WellFormed(net, n) && Running(net, n, source, p, s) && s.q != []
    ensures s.q[0] < n && Reached(s.dist, s.q[0])
    ensures 0 <= SlackSum(s.dist, p, p[source], n)
  {
    assert s.q[0] in s.q;
    SlackSumNonNegative(s.dist, p, p[source], n);
  }

  lemma {:induction false} QueueAfterFront(n: nat, s: Search)
    requires Sized(n, s) && QueueHolds(n, s) && s.q != [] && s.q[0] < n
    ensures QueueHolds(n, s.(q := s.q[1..], inQueue := s.inQueue[s.q[0] := false]))
  {
    var u := s.q[0];
    var r := s.(q := s.q[1..], inQueue := s.inQueue[u := false]);
    assert s.q == [u] + r.q;
    forall x | x in r.q ensures x < n && Reached(r.dist, x) {
      assert x in s.q;
    }
    forall y: nat | y < n && r.inQueue[y] ensures y in r.q {
      assert y in s.q && y != u;
    }
  }

  /** Taking the front node off the queue starts its scan. */
  lemma {:induction false} ScanStart(net: Net, n: nat, source: nat, p: seq<int>, s: Search, ids: seq<nat>)
    requires WellFormed(net, n) && Running(net, n, source, p, s) && s.q != []
    requires s.q[0] < n && forall j :: 0 <= j < |ids| ==> ids[j] < |net| && From(net, ids[j]) == s.q[0]
    ensures Scanning(net, n, source, p, s.(q := s.q[1..], inQueue := s.inQueue[s.q[0] := false]), s.q[0], ids, 0)
  {
    var u := s.q[0];
    var r := s.(q := s.q[1..], inQueue := s.inQueue[u := false]);
    QueueAfterFront(n, s);
    assert u in s.q && s.q == [u] + r.q;
    forall e: nat | IsArc(net, e) && !r.inQueue[From(net, e)] && From(net, e) != u
      ensures Satisfied(net, n, r.dist, e)
    {
      assert !s.inQueue[From(net, e)];
    }
  }

  /** Lowering the label of `v` only endangers arcs that leave `v`. */
  lemma {:induction false} SatisfiedKept(net: Net, n: nat, dist: seq<Distance>, v: nat, x: int, e: nat)
    requires WellFormed(net, n) && |dist| == n && v < n && Improves(x, dist[v]) && e < |net|
    requires Satisfied(net, n, dist, e) && From(net, e) != v
    ensures Satisfied(net, n, dist[v := Finite(x)], e)
  {
    if Reached(dist[v := Finite(x)], From(net, e)) {
      assert Reached(dist, From(net, e));
    }
  }

  lemma {:induction false} QueueAfterRelax(net: Net, n: nat, s: Search, id: nat)
    requires WellFormed(net, n) && QueueHolds(n, s) && |s.dist| == |s.prev| == |s.stamp| == n
    requires id < |net| && Reached(s.dist, From(net, id))
    ensures QueueHolds(n, Relaxing(net, n, s, id))
  {
    var r := Relaxing(net, n, s, id);
    var v := net[id].to;
    assert v in r.q;
    forall x | x in r.q ensures x < n && Reached(r.dist, x) {
      if x != v {
        assert x in s.q;
      }
    }
    forall y: nat | y < n && r.inQueue[y] ensures y in r.q {
      if y != v {
        assert y in s.q;
      }
    }
  }

  lemma {:induction false} ArcsAfterRelax(net: Net, n: nat, s: Search, u: nat, ids: seq<nat>, i: nat)
    requires WellFormed(net, n) && Sized(n, s) && SatisfiedElsewhere(net, n, s, u)
    requires i < |ids| && forall j :: 0 <= j < |ids| ==> ids[j] < |net| && From(net, ids[j]) == u
    requires forall j :: 0 <= j < i && IsArc(net, ids[j]) ==> Satisfied(net, n, s.dist, ids[j])
    requires Reached(s.dist, u) && net[ids[i]].to != u
    requires Improves(s.dist[u].value + net[ids[i]].cost, s.dist[net[ids[i]].to])
    ensures SatisfiedElsewhere(net, n, Relaxing(net, n, s, ids[i]), u)
    ensures forall j :: 0 <= j < i + 1 && IsArc(net, ids[j]) ==>
              Satisfied(net, n, Relaxing(net, n, s, ids[i]).dist, ids[j])
  {
    var id := ids[i];
    var v := net[id].to;
    var r := Relaxing(net, n, s, id);
    var x := s.dist[u].value + net[id].cost;
    forall e: nat | IsArc(net, e) && !r.inQueue[From(net, e)] && From(net, e) != u
      ensures Satisfied(net, n, r.dist, e)
    {
      SatisfiedKept(net, n, s.dist, v, x, e);
    }
    forall j | 0 <= j < i + 1 && IsArc(net, ids[j])
      ensures Satisfied(net, n, r.dist, ids[j])
    {
      if j < i {
        SatisfiedKept(net, n, s.dist, v, x, ids[j]);
      }
    }
  }

  lemma {:induction false} ScanStep(net: Net, n: nat, source: nat, p: seq<int>, s: Search, u: nat, ids: seq<nat>, i: nat)
    requires WellFormed(net, n) && Scanning(net, n, source, p, s, u, ids, i) && i < |ids|
    requires IsArc(net, ids[i]) && Improves(s.dist[u].value + net[ids[i]].cost, s.dist[net[ids[i]].to])
    ensures Scanning(net, n, source, p, Relaxing(net, n, s, ids[i]), u, ids, i + 1)
  {
    assert Sized(n, s);
    hide Labelled, QueueHolds, SatisfiedElsewhere, Satisfied;
    Relax(net, n, source, p, s.dist, s.prev, s.stamp, s.clock, ids[i]);
    QueueAfterRelax(net, n, s, ids[i]);
    ArcsAfterRelax(net, n, s, u, ids, i);
  }

  lemma {:induction false} ScanSkip(net: Net, n: nat, source: nat, p: seq<int>, s: Search, u: nat, ids: seq<nat>, i: nat)
    requires WellFormed(net, n) && Scanning(net, n, source, p, s, u, ids, i) && i < |ids|
    requires IsArc(net, ids[i]) ==> !Improves(s.dist[u].value + net[ids[i]].cost, s.dist[net[ids[i]].to])
    ensures Scanning(net, n, source, p, s, u, ids, i + 1)
  {
  }

  /** When every listed arc of `u` has been looked at, and the list is complete, `u` needs
      no exception any more. */
  lemma {:induction false} ScanDone(net: Net, n: nat, source: nat, p: seq<int>, s: Search, u: nat, ids: seq<nat>)
    requires WellFormed(net, n) && Scanning(net, n, source, p, s, u, ids, |ids|)
    requires forall e: nat :: e < |net| && From(net, e) == u ==> e in ids
    ensures Running(net, n, source, p, s)
  {
    forall e: nat | IsArc(net, e) && !s.inQueue[From(net, e)]
      ensures Satisfied(net, n, s.dist, e)
    {
      if From(net, e) == u {
        assert e in ids;
      }
    }
  }

  // ---- What the search leaves behind -------------------------------------------

  /** Length of the predecessor chain, which the slack and the stamps make finite. */
  ghost function ChainLength(net: Net, n: nat, source: nat, p: seq<int>, dist: seq<Distance>, prev: seq<int>,
                             stamp: seq<nat>, clock: nat, v: nat): nat
    requires WellFormed(net, n) && Labelled(net, n, source, p, dist, prev, stamp, clock)
    requires v < n && Reached(dist, v)
    decreases Slack(dist, p, v) + p[source], stamp[v]
  {
    if v == source then 0
    else
      assert ParentArc(net, n, p, dist, prev, stamp, v);
      var u := From(net, prev[v]);
      assert p[u] - p[source] <= dist[u].value;
      1 + ChainLength(net, n, source, p, dist, prev, stamp, clock, u)
  }

  lemma {:induction false} FinalTree(net: Net, n: nat, source: nat, p: seq<int>, s: Search) returns (depth: seq<nat>)
    requires WellFormed(net, n) && Running(net, n, source, p, s) && s.q == []
    ensures IsShortestTree(net, n, source, s.dist, s.prev, depth)
  {
    depth := seq(n, v requires 0 <= v < n =>
      if Reached(s.dist, v) then ChainLength(net, n, source, p, s.dist, s.prev, s.stamp, s.clock, v) else 0);
    forall e: nat | IsArc(net, e)
      ensures Satisfied(net, n, s.dist, e)
    {
      assert !s.inQueue[From(net, e)];
    }
    forall v | 0 <= v < n && v != source && Reached(s.dist, v)
      ensures TreeArc(net, n, s.dist, s.prev, depth, v)
    {
      assert ParentArc(net, n, p, s.dist, s.prev, s.stamp, v);
      assert Satisfied(net, n, s.dist, s.prev[v]);
    }
  }
}
