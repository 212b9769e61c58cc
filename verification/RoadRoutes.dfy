/** Routes through a road network, their driving time and length, and fastest routes. */
module RoadRoutes {
  import opened RoadGraph

  datatype Leg = Leg(from: nat, arc: RoadArc)

  type Route = seq<Leg>

  ghost predicate HeadsInRange(adj: Adjacency)
  {
    forall v: nat, r: RoadArc :: v < |adj| && r in adj[v] ==> r.to < |adj|
  }

  /** Arcs stay in range and take non-negative time. */
  ghost predicate IsNetwork(adj: Adjacency)
  {
    forall v: nat, r: RoadArc :: v < |adj| && r in adj[v] ==> r.to < |adj| && 0.0 <= r.travelSeconds
  }

  ghost predicate IsRoute(adj: Adjacency, s: nat, w: Route, t: nat)
  {
    if w == [] then
      s == t
    else
      var l := w[|w| - 1];
      l.from < |adj| && l.arc in adj[l.from] && l.arc.to == t && IsRoute(adj, s, w[..|w| - 1], l.from)
  }

  ghost function Seconds(w: Route): real
  {
    if w == [] then 0.0 else Seconds(w[..|w| - 1]) + w[|w| - 1].arc.travelSeconds
  }

  ghost function Meters(w: Route): real
  {
    if w == [] then 0.0 else Meters(w[..|w| - 1]) + w[|w| - 1].arc.lengthMeters
  }

  ghost predicate CanReach(adj: Adjacency, s: nat, t: nat)
  {
    exists w :: IsRoute(adj, s, w, t)
  }

  /** `d` is the driving time of some route from `s` to `t`, and no route is faster. */
  ghost predicate IsFastest(adj: Adjacency, s: nat, t: nat, d: real)
  {
    && (exists w :: IsRoute(adj, s, w, t) && Seconds(w) == d)
    && forall w :: IsRoute(adj, s, w, t) ==> d <= Seconds(w)
  }

  lemma FastestIsUnique(adj: Adjacency, s: nat, t: nat, d: real, e: real)
    requires IsFastest(adj, s, t, d) && IsFastest(adj, s, t, e)
    ensures d == e
  {
  }

  lemma {:induction false} Append(adj: Adjacency, s: nat, w: Route, u: nat, r: RoadArc)
    requires IsRoute(adj, s, w, u) && u < |adj| && r in adj[u]
    ensures IsRoute(adj, s, w + [Leg(u, r)], r.to)
    ensures Seconds(w + [Leg(u, r)]) == Seconds(w) + r.travelSeconds
    ensures Meters(w + [Leg(u, r)]) == Meters(w) + r.lengthMeters
  {
    assert (w + [Leg(u, r)])[..|w|] == w;
  }

  lemma {:induction false} Prepend(adj: Adjacency, u: nat, r: RoadArc, w: Route, t: nat)
    requires u < |adj| && r in adj[u] && IsRoute(adj, r.to, w, t)
    ensures IsRoute(adj, u, [Leg(u, r)] + w, t)
    ensures Seconds([Leg(u, r)] + w) == r.travelSeconds + Seconds(w)
    decreases |w|
  {
    var first: Route := [];
    if w == [] {
      assert [Leg(u, r)] + w == [Leg(u, r)];
      assert [Leg(u, r)][..0] == first;
      assert IsRoute(adj, u, first, u) && Seconds(first) == 0.0;
    } else {
      var l := w[|w| - 1];
      Prepend(adj, u, r, w[..|w| - 1], l.from);
      assert ([Leg(u, r)] + w)[..|w|] == [Leg(u, r)] + w[..|w| - 1];
    }
  }

  /** Driving a route backwards in the transposed network takes the same time. */
  lemma {:induction false} ReverseRoute(adj: Adjacency, rev: Adjacency, s: nat, w: Route, t: nat) returns (r: Route)
    requires IsTranspose(adj, rev) && IsRoute(adj, s, w, t)
    ensures IsRoute(rev, t, r, s) && Seconds(r) == Seconds(w)
    decreases |w|
  {
    if w == [] {
      r := [];
    } else {
      var l := w[|w| - 1];
      r := ReverseRoute(adj, rev, s, w[..|w| - 1], l.from);
      Prepend(rev, t, RoadArc(l.from, l.arc.travelSeconds, l.arc.lengthMeters), r, s);
      r := [Leg(t, RoadArc(l.from, l.arc.travelSeconds, l.arc.lengthMeters))] + r;
    }
  }

  lemma TransposeIsSymmetric(a: Adjacency, b: Adjacency)
    requires IsTranspose(a, b)
    ensures IsTranspose(b, a)
  {
  }

  /** Fastest times in the transposed network answer the opposite question. */
  lemma {:induction false} FastestReversed(adj: Adjacency, rev: Adjacency, s: nat, t: nat, d: real)
    requires IsTranspose(adj, rev) && IsFastest(rev, s, t, d)
    ensures IsFastest(adj, t, s, d)
  {
    hide IsTranspose, IsRoute;
    var w :| IsRoute(rev, s, w, t) && Seconds(w) == d;
    TransposeIsSymmetric(adj, rev);
    var r := ReverseRoute(rev, adj, s, w, t);
    forall x | IsRoute(adj, t, x, s) ensures d <= Seconds(x) {
      var y := ReverseRoute(adj, rev, t, x, s);
    }
  }

  lemma {:induction false} ReachReversed(adj: Adjacency, rev: Adjacency, s: nat, t: nat)
    requires IsTranspose(adj, rev)
    ensures CanReach(rev, s, t) <==> CanReach(adj, t, s)
  {
    hide IsTranspose, IsRoute;
    TransposeIsSymmetric(adj, rev);
    if w :| IsRoute(rev, s, w, t) {
      var r := ReverseRoute(rev, adj, s, w, t);
    }
    if w :| IsRoute(adj, t, w, s) {
      var r := ReverseRoute(adj, rev, t, w, s);
    }
  }

  lemma {:induction false} RouteConcat(adj: Adjacency, s: nat, a: Route, m: nat, b: Route, t: nat)
    requires IsRoute(adj, s, a, m) && IsRoute(adj, m, b, t)
    ensures IsRoute(adj, s, a + b, t)
    decreases |b|
  {
    if b == [] {
      assert a + b == a;
    } else {
      var l := b[|b| - 1];
      RouteConcat(adj, s, a, m, b[..|b| - 1], l.from);
      assert (a + b)[..|a + b| - 1] == a + b[..|b| - 1];
    }
  }
}
