/** Distance labels with predecessor edges, as both shortest-path engines leave
    them, and what such labels mean: exact shortest distances, a path to every
    reached node, and a potential that survives augmenting along that path. */
module ShortestTree {
  import opened Residual
  import opened FlowTheory

  /** `Infinite` is the program's INF marker. */
  datatype Distance = Infinite | Finite(value: int)

  /** `x < d` where nothing is below INF except INF's absence. */
  predicate Improves(x: int, d: Distance)
  {
    d.Infinite? || x < d.value
  }

  ghost predicate Reached(dist: seq<Distance>, v: nat)
  {
    v < |dist| && dist[v].Finite?
  }

  /** Arc `e` satisfies the triangle inequality under the labels. */
  ghost predicate Satisfied(net: Net, n: nat, dist: seq<Distance>, e: nat)
    requires WellFormed(net, n) && |dist| == n && e < |net|
  {
    Reached(dist, From(net, e)) ==>
      Reached(dist, net[e].to) && dist[net[e].to].value <= dist[From(net, e)].value + net[e].cost
  }

  /** `prev[v]` is a tight residual arc from a node one step closer to the root. */
  ghost predicate TreeArc(net: Net, n: nat, dist: seq<Distance>, prev: seq<int>, depth: seq<nat>, v: nat)
    requires WellFormed(net, n) && |dist| == |prev| == |depth| == n && v < n
  {
    && 0 <= prev[v]
    && IsArc(net, prev[v])
    && net[prev[v]].to == v
    && Reached(dist, From(net, prev[v]))
    && Reached(dist, v)
    && dist[v].value == dist[From(net, prev[v])].value + net[prev[v]].cost
    && depth[From(net, prev[v])] < depth[v]
  }

  ghost predicate IsShortestTree(net: Net, n: nat, source: nat, dist: seq<Distance>, prev: seq<int>, depth: seq<nat>)
    requires WellFormed(net, n)
  {
    && source < n
    && |dist| == |prev| == |depth| == n
    && dist[source] == Finite(0)
    && (forall v: nat {:trigger TreeArc(net, n, dist, prev, depth, v)} ::
          v < n && v != source && Reached(dist, v) ==> TreeArc(net, n, dist, prev, depth, v))
    && (forall e: nat :: IsArc(net, e) ==> Satisfied(net, n, dist, e))
  }

  /** The edges of the tree path to `v`, read off the predecessors. */
  ghost function PathTo(net: Net, n: nat, source: nat, dist: seq<Distance>, prev: seq<int>, depth: seq<nat>, v: nat): seq<nat>
    requires WellFormed(net, n) && IsShortestTree(net, n, source, dist, prev, depth)
    requires Reached(dist, v)
    decreases depth[v]
  {
    if v == source then
      []
    else
      assert TreeArc(net, n, dist, prev, depth, v);
      PathTo(net, n, source, dist, prev, depth, From(net, prev[v])) + [prev[v]]
  }

  /** One step of the walk back along the predecessors. */
  lemma PathStep(net: Net, n: nat, source: nat, dist: seq<Distance>, prev: seq<int>, depth: seq<nat>, v: nat)
    requires WellFormed(net, n) && IsShortestTree(net, n, source, dist, prev, depth)
    requires Reached(dist, v) && v != source
    ensures TreeArc(net, n, dist, prev, depth, v)
    ensures PathTo(net, n, source, dist, prev, depth, v) ==
              PathTo(net, n, source, dist, prev, depth, From(net, prev[v])) + [prev[v]]
  {
    assert TreeArc(net, n, dist, prev, depth, v);
  }

  lemma PathAtRoot(net: Net, n: nat, source: nat, dist: seq<Distance>, prev: seq<int>, depth: seq<nat>)
    requires WellFormed(net, n) && IsShortestTree(net, n, source, dist, prev, depth)
    ensures Reached(dist, source) && dist[source].value == 0
    ensures PathTo(net, n, source, dist, prev, depth, source) == []
  {
  }

  lemma WalkSnoc(net: Net, n: nat, s: nat, w: seq<nat>, e: nat)
    requires WellFormed(net, n) && IsArc(net, e) && IsWalk(net, s, w, From(net, e))
    ensures IsWalk(net, s, w + [e], net[e].to) && WalkCost(net, w + [e]) == WalkCost(net, w) + net[e].cost
  {
    assert (w + [e])[..|w + [e]| - 1] == w;
  }

  lemma NoWalk(net: Net, n: nat, s: nat)
    requires WellFormed(net, n)
    ensures IsWalk(net, s, [], s) && WalkCost(net, []) == 0
  {
  }

  lemma {:induction false} PathIsWalk(net: Net, n: nat, source: nat, dist: seq<Distance>, prev: seq<int>, depth: seq<nat>, v: nat)
    requires WellFormed(net, n) && IsShortestTree(net, n, source, dist, prev, depth)
    requires Reached(dist, v)
    ensures IsWalk(net, source, PathTo(net, n, source, dist, prev, depth, v), v)
    ensures WalkCost(net, PathTo(net, n, source, dist, prev, depth, v)) == dist[v].value
    decreases depth[v]
  {
    hide PathTo, IsWalk, WalkCost, Satisfied;
    if v == source {
      NoWalk(net, n, source);
      PathAtRoot(net, n, source, dist, prev, depth);
    } else {
      PathStep(net, n, source, dist, prev, depth, v);
      var u := From(net, prev[v]);
      PathIsWalk(net, n, source, dist, prev, depth, u);
      WalkSnoc(net, n, source, PathTo(net, n, source, dist, prev, depth, u), prev[v]);
    }
  }

  lemma {:induction false} LabelsBoundWalks(net: Net, n: nat, source: nat, dist: seq<Distance>, w: seq<nat>, v: nat)
    requires WellFormed(net, n) && |dist| == n && source < n && dist[source] == Finite(0)
    requires forall e: nat :: IsArc(net, e) ==> Satisfied(net, n, dist, e)
    requires IsWalk(net, source, w, v)
    ensures Reached(dist, v) && dist[v].value <= WalkCost(net, w)
  {
    if w != [] {
      var e := w[|w| - 1];
      LabelsBoundWalks(net, n, source, dist, w[..|w| - 1], From(net, e));
      assert Satisfied(net, n, dist, e);
    }
  }

  /** The labels are the shortest distances, and finite exactly where a walk exists. */
  lemma {:induction false} TreeIsExact(net: Net, n: nat, source: nat, dist: seq<Distance>, prev: seq<int>, depth: seq<nat>, v: nat)
    requires WellFormed(net, n) && IsShortestTree(net, n, source, dist, prev, depth) && v < n
    ensures Reached(dist, v) <==> Reachable(net, source, v)
    ensures Reached(dist, v) ==> IsShortest(net, source, v, dist[v].value)
  {
    if Reached(dist, v) {
      var w := PathTo(net, n, source, dist, prev, depth, v);
      PathIsWalk(net, n, source, dist, prev, depth, v);
      assert IsWalk(net, source, w, v) && WalkCost(net, w) == dist[v].value;
    }
    forall w | IsWalk(net, source, w, v)
      ensures Reached(dist, v) && dist[v].value <= WalkCost(net, w)
    {
      LabelsBoundWalks(net, n, source, dist, w, v);
    }
  }

  lemma {:induction false} TreeIsExactEverywhere(net: Net, n: nat, source: nat, dist: seq<Distance>, prev: seq<int>, depth: seq<nat>)
    requires WellFormed(net, n) && IsShortestTree(net, n, source, dist, prev, depth)
    ensures forall v: nat :: v < n ==> (Reached(dist, v) <==> Reachable(net, source, v))
    ensures forall v: nat :: v < n && Reached(dist, v) ==> IsShortest(net, source, v, dist[v].value)
  {
    forall v: nat | v < n
      ensures Reached(dist, v) <==> Reachable(net, source, v)
      ensures Reached(dist, v) ==> IsShortest(net, source, v, dist[v].value)
    {
      TreeIsExact(net, n, source, dist, prev, depth, v);
    }
  }

  /** Edges of the tree path stay at or above the depth of its end. */
  lemma {:induction false} PathDepths(net: Net, n: nat, source: nat, dist: seq<Distance>, prev: seq<int>, depth: seq<nat>, v: nat)
    requires WellFormed(net, n) && IsShortestTree(net, n, source, dist, prev, depth)
    requires Reached(dist, v)
    ensures forall e :: e in PathTo(net, n, source, dist, prev, depth, v) ==>
              && IsArc(net, e)
              && depth[net[e].to] <= depth[v]
              && depth[From(net, e)] < depth[v]
    decreases depth[v]
  {
    if v != source {
      PathStep(net, n, source, dist, prev, depth, v);
      PathDepths(net, n, source, dist, prev, depth, From(net, prev[v]));
    }
  }

  ghost function ReachedSet(n: nat, dist: seq<Distance>): (cut: set<nat>)
    ensures forall v: nat :: v in cut <==> v < n && Reached(dist, v)
  {
    set v: nat | v < n && Reached(dist, v)
  }

  // ---- Potentials from labels ----------------------------------------------

  /** A bound above every label's excess over `p`. */
  ghost function Excess(dist: seq<Distance>, p: seq<int>, k: nat): (b: int)
    requires |dist| == |p| && k <= |dist|
    ensures forall v :: 0 <= v < k && dist[v].Finite? ==> dist[v].value - p[v] <= b
  {
    if k == 0 then 0
    else
      var b := Excess(dist, p, k - 1);
      if dist[k - 1].Finite? && b < dist[k - 1].value - p[k - 1] then dist[k - 1].value - p[k - 1] else b
  }

  /** Labels where they exist; elsewhere the old potential lifted by the largest
      excess, so that no arc into the reached part turns negative. */
  ghost function Lifted(dist: seq<Distance>, p: seq<int>): (q: seq<int>)
    requires |dist| == |p|
    ensures |q| == |p|
    ensures forall v :: 0 <= v < |p| && dist[v].Finite? ==> q[v] == dist[v].value
  {
    seq(|p|, v requires 0 <= v < |p| =>
      if dist[v].Finite? then dist[v].value else p[v] + Excess(dist, p, |p|))
  }

  lemma {:induction false} LiftedIsValid(net: Net, n: nat, dist: seq<Distance>, p: seq<int>)
    requires WellFormed(net, n) && |dist| == n && ValidPotential(net, n, p)
    requires forall e: nat :: IsArc(net, e) ==> Satisfied(net, n, dist, e)
    ensures ValidPotential(net, n, Lifted(dist, p))
  {
    var q := Lifted(dist, p);
    forall e: nat | IsArc(net, e)
      ensures 0 <= net[e].cost + q[From(net, e)] - q[net[e].to]
    {
      assert Satisfied(net, n, dist, e);
      assert 0 <= net[e].cost + p[From(net, e)] - p[net[e].to];
    }
  }

  /** Every arc `after` has beyond `before` reverses a tight arc between reached nodes. */
  ghost predicate OnlyTightReversals(before: Net, after: Net, n: nat, dist: seq<Distance>)
    requires WellFormed(before, n) && SameShape(before, after) && |dist| == n
  {
    forall e: nat :: IsArc(after, e) ==>
      || IsArc(before, e)
      || (&& Reached(dist, From(before, e)) && Reached(dist, before[e].to)
          && dist[before[e].to].value == dist[From(before, e)].value + before[e].cost)
  }

  /** Labels and lifted potential stay valid when only tight arcs were reversed. */
  lemma {:induction false} SurvivesAugmentation(before: Net, after: Net, n: nat, dist: seq<Distance>, p: seq<int>)
    requires WellFormed(before, n) && WellFormed(after, n) && SameShape(before, after)
    requires |dist| == n && ValidPotential(before, n, p)
    requires forall e: nat :: IsArc(before, e) ==> Satisfied(before, n, dist, e)
    requires OnlyTightReversals(before, after, n, dist)
    ensures ValidPotential(after, n, Lifted(dist, p))
    ensures ClosedUnderArcs(after, ReachedSet(n, dist))
    ensures forall e: nat :: IsArc(after, e) ==> Satisfied(after, n, dist, e)
  {
    LiftedIsValid(before, n, dist, p);
    var q := Lifted(dist, p);
    forall e: nat | IsArc(after, e)
      ensures 0 <= after[e].cost + q[From(after, e)] - q[after[e].to]
      ensures Satisfied(after, n, dist, e)
    {
      assert From(after, e) == From(before, e);
      if IsArc(before, e) {
        assert Satisfied(before, n, dist, e);
        assert 0 <= before[e].cost + q[From(before, e)] - q[before[e].to];
      }
    }
  }

  /** Nothing outside a closed set is reachable from inside it. */
  lemma {:induction false} ClosedContainsReachable(net: Net, n: nat, cut: set<nat>, s: nat, w: seq<nat>, v: nat)
    requires WellFormed(net, n) && ClosedUnderArcs(net, cut) && s in cut
    requires IsWalk(net, s, w, v)
    ensures v in cut
  {
    if w != [] {
      ClosedContainsReachable(net, n, cut, s, w[..|w| - 1], From(net, w[|w| - 1]));
    }
  }
}
