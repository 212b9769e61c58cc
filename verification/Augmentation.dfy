/** Augmenting along the tree path, edge by edge from the sink back to the source. */
module Augmentation {
  import opened Residual
  import opened FlowTheory
  import opened ShortestTree

  /** From `before` to `after`, `amount` units moved from `s` to `t` at `price` each; the
      amounts are measured against `base`. */
  ghost predicate PushedAlong(base: Net, before: Net, after: Net, n: nat, s: nat, t: nat, amount: int, price: int)
    requires |base| % 2 == 0 && |base| == |before| == |after|
  {
    && (forall v: nat :: v < n ==>
          Value(base, Pushed(base, after), v) == Value(base, Pushed(base, before), v)
            + (if v == s then amount else 0) - (if v == t then amount else 0))
    && Cost(base, Pushed(base, after)) == Cost(base, Pushed(base, before)) + amount * price
  }

  /** The capacities on the remaining path are untouched and sufficient. */
  ghost predicate PathIntact(before: Net, now: Net, w: seq<nat>, amount: int)
  {
    forall e :: e in w ==> e < |before| && e < |now| && now[e].cap == before[e].cap && amount <= before[e].cap
  }

  /** The walk has come back from `sink` to `v`, pushing behind it. */
  ghost predicate Along(base: Net, before: Net, now: Net, n: nat, source: nat, sink: nat, dist: seq<Distance>,
                        prev: seq<int>, depth: seq<nat>, v: nat, amount: int)
  {
    && WellFormed(base, n) && WellFormed(before, n) && WellFormed(now, n)
    && SameShape(base, before) && SameShape(base, now) && SameShape(before, now)
    && IsShortestTree(before, n, source, dist, prev, depth)
    && Reached(dist, v) && Reached(dist, sink) && 0 < amount
    && PathIntact(before, now, PathTo(before, n, source, dist, prev, depth, v), amount)
    && OnlyTightReversals(before, now, n, dist)
    && PushedAlong(base, before, now, n, v, sink, amount, dist[sink].value - dist[v].value)
  }

  lemma StartAlong(base: Net, before: Net, n: nat, source: nat, sink: nat, dist: seq<Distance>, prev: seq<int>,
                   depth: seq<nat>, amount: int)
    requires WellFormed(base, n) && WellFormed(before, n) && SameShape(base, before)
    requires IsShortestTree(before, n, source, dist, prev, depth) && Reached(dist, sink) && 0 < amount
    requires forall e :: e in PathTo(before, n, source, dist, prev, depth, sink) ==> e < |before| && amount <= before[e].cap
    ensures Along(base, before, before, n, source, sink, dist, prev, depth, sink, amount)
    ensures |base| == |before| && |base| % 2 == 0 && |prev| == |depth| == |dist| == n && sink < n
  {
    hide PathTo, Value, Cost;
  }

  lemma {:induction false} IntactStep(before: Net, now: Net, n: nat, source: nat, dist: seq<Distance>, prev: seq<int>,
                                      depth: seq<nat>, v: nat, amount: int)
    requires WellFormed(before, n) && SameShape(before, now)
    requires IsShortestTree(before, n, source, dist, prev, depth) && Reached(dist, v) && v != source
    requires PathIntact(before, now, PathTo(before, n, source, dist, prev, depth, v), amount)
    requires TreeArc(before, n, dist, prev, depth, v)
    ensures amount <= now[prev[v]].cap
    ensures PathIntact(before, PushEdge(now, prev[v], amount),
                       PathTo(before, n, source, dist, prev, depth, From(before, prev[v])), amount)
  {
    var id: nat := prev[v];
    PathStep(before, n, source, dist, prev, depth, v);
    var path := PathTo(before, n, source, dist, prev, depth, v);
    var rest := PathTo(before, n, source, dist, prev, depth, From(before, id));
    PathDepths(before, n, source, dist, prev, depth, From(before, id));
    hide IsShortestTree, PathTo, WellFormed, TreeArc;
    assert id in path;
    forall e | e in rest
      ensures e < |before| && PushEdge(now, id, amount)[e].cap == before[e].cap && amount <= before[e].cap
    {
      assert e in path;
      assert e != id && e != Partner(id);
    }
  }

  lemma {:induction false} ReversalStep(before: Net, now: Net, n: nat, dist: seq<Distance>, prev: seq<int>,
                                        depth: seq<nat>, v: nat, amount: int)
    requires WellFormed(before, n) && SameShape(before, now) && |dist| == |prev| == |depth| == n && v < n
    requires TreeArc(before, n, dist, prev, depth, v) && OnlyTightReversals(before, now, n, dist)
    requires SameShape(before, PushEdge(now, prev[v], amount))
    ensures OnlyTightReversals(before, PushEdge(now, prev[v], amount), n, dist)
  {
    var id: nat := prev[v];
    var after := PushEdge(now, id, amount);
    assert before[Partner(id)].cost == -before[id].cost;
    forall e: nat | IsArc(after, e) && !IsArc(before, e)
      ensures Reached(dist, From(before, e)) && Reached(dist, before[e].to)
      ensures dist[before[e].to].value == dist[From(before, e)].value + before[e].cost
    {
      if e != id && e != Partner(id) {
        assert IsArc(now, e);
      } else if e == Partner(id) {
        assert Partner(e) == id;
      }
    }
  }

  lemma {:induction false} BalanceStep(base: Net, before: Net, now: Net, n: nat, sink: nat, id: nat, u: nat, v: nat,
                                       amount: int, price: int)
    requires WellFormed(base, n) && SameShape(base, now) && |before| == |base|
    requires id < |base| && From(base, id) == u && base[id].to == v
    requires PushedAlong(base, before, now, n, v, sink, amount, price)
    ensures |PushEdge(now, id, amount)| == |base|
    ensures PushedAlong(base, before, PushEdge(now, id, amount), n, u, sink, amount, price + base[id].cost)
  {
    var after := PushEdge(now, id, amount);
    forall x: nat | x < n
      ensures Value(base, Pushed(base, after), x) == Value(base, Pushed(base, before), x)
                + (if x == u then amount else 0) - (if x == sink then amount else 0)
    {
      OutflowAfterPush(base, now, id, amount, x, |base| / 2);
    }
    CostAfterPush(base, now, n, id, amount, |base| / 2);
    assert amount * (price + base[id].cost) == amount * price + amount * base[id].cost;
  }

  lemma {:induction false} ParentFacts(base: Net, before: Net, now: Net, n: nat, source: nat, dist: seq<Distance>,
                                       prev: seq<int>, depth: seq<nat>, v: nat) returns (id: nat, u: nat)
    requires WellFormed(before, n) && SameShape(base, now) && SameShape(before, now)
    requires IsShortestTree(before, n, source, dist, prev, depth) && Reached(dist, v) && v != source
    ensures |base| == |before| == |now| && |base| % 2 == 0 && |prev| == |depth| == |dist| == n && v < n
    ensures prev[v] == id && id < |now| && From(now, id) == From(base, id) == From(before, id) == u
    ensures u < n && depth[u] < depth[v] && base[id].to == v && Reached(dist, u)
    ensures dist[v].value == dist[u].value + base[id].cost
    ensures TreeArc(before, n, dist, prev, depth, v)
  {
    PathStep(before, n, source, dist, prev, depth, v);
    id := prev[v];
    u := From(before, id);
    SameTail(base, now, id);
    SameTail(before, now, id);
  }

  /** One edge of the backward walk: from `v` to its parent `u` over edge `id`. */
  lemma {:induction false} StepAlong(base: Net, before: Net, now: Net, n: nat, source: nat, sink: nat, dist: seq<Distance>,
                                     prev: seq<int>, depth: seq<nat>, v: nat, amount: int) returns (id: nat, u: nat)
    requires Along(base, before, now, n, source, sink, dist, prev, depth, v, amount) && v != source
    ensures |now| % 2 == 0 && |prev| == |depth| == n && v < n && prev[v] == id && id < |now|
    ensures From(now, id) == u && u < n && depth[u] < depth[v]
    ensures Along(base, before, PushEdge(now, id, amount), n, source, sink, dist, prev, depth, u, amount)
  {
    hide IsShortestTree, PathTo, PathIntact, OnlyTightReversals, PushedAlong, WellFormed, SameShape, PushEdge, TreeArc;
    id, u := ParentFacts(base, before, now, n, source, dist, prev, depth, v);
    IntactStep(before, now, n, source, dist, prev, depth, v, amount);
    PushKeepsShape(base, now, n, id, amount);
    PushKeepsShape(before, now, n, id, amount);
    ReversalStep(before, now, n, dist, prev, depth, v, amount);
    BalanceStep(base, before, now, n, sink, id, u, v, amount, dist[sink].value - dist[v].value);
  }

  lemma EndAlong(base: Net, before: Net, now: Net, n: nat, source: nat, sink: nat, dist: seq<Distance>, prev: seq<int>,
                 depth: seq<nat>, amount: int)
    requires Along(base, before, now, n, source, sink, dist, prev, depth, source, amount)
    ensures WellFormed(now, n) && SameShape(base, now) && SameShape(before, now)
    ensures OnlyTightReversals(before, now, n, dist)
    ensures PushedAlong(base, before, now, n, source, sink, amount, dist[sink].value)
  {
    hide PathTo, PathIntact;
    assert dist[source].value == 0;
  }
}
