/** Exactly when the straight-line heuristic of A* is sound, and what happens when it is not. */
module StraightLine {
  import opened RoadGraph
  import opened RoadRoutes
  import opened LabelSearch
  import opened GuidedSearch
  import opened Router
  import RoadNetwork

  /** Consistent towards every target. */
  ghost predicate AlwaysConsistent(graph: Graph, metric: Metric)
    requires graph.Indexed()
  {
    forall target: nat :: target < |graph.nodes| ==> IsGuide(graph.Forward(), Guide(graph, metric, target))
  }

  /** Admissible: from no node to no target does the heuristic exceed the time of a route. */
  ghost predicate NeverOverEstimates(graph: Graph, metric: Metric)
    requires graph.Indexed()
  {
    forall target: nat, v: nat, w :: target < |graph.nodes| && v < |graph.nodes| && IsRoute(graph.Forward(), v, w, target) ==>
      StraightLineTime(graph, metric, target, v) <= Seconds(w)
  }

  /** Consistency, admissibility, and a check of every single arc are the same thing. */
  lemma {:induction false} ConsistentExactlyWhen(graph: Graph, metric: Metric)
    requires Drivable(graph) && IsMetric(metric)
    ensures AlwaysConsistent(graph, metric) <==> RespectsStraightLine(graph, metric)
    ensures NeverOverEstimates(graph, metric) <==> RespectsStraightLine(graph, metric)
  {
    hide RespectsStraightLine, IsGuide, IsRoute, IsMetric;
    if RespectsStraightLine(graph, metric) {
      forall target: nat | target < |graph.nodes|
        ensures IsGuide(graph.Forward(), Guide(graph, metric, target)) && Guide(graph, metric, target)[target] == 0.0
      {
        GuideIsConsistent(graph, metric, target);
      }
      forall target: nat, v: nat, w | target < |graph.nodes| && v < |graph.nodes| && IsRoute(graph.Forward(), v, w, target)
        ensures StraightLineTime(graph, metric, target, v) <= Seconds(w)
      {
        DropsAlongRoute(graph.Forward(), Guide(graph, metric, target), v, w, target);
      }
    }
    if AlwaysConsistent(graph, metric) {
      ConsistentMeansRespects(graph, metric);
    }
    if NeverOverEstimates(graph, metric) {
      AdmissibleMeansRespects(graph, metric);
    }
  }

  lemma {:induction false} DropsAlongRoute(adj: Adjacency, h: seq<real>, s: nat, w: Route, t: nat)
    requires IsNetwork(adj) && IsGuide(adj, h) && s < |adj| && IsRoute(adj, s, w, t)
    ensures t < |adj| && h[s] <= Seconds(w) + h[t]
  {
    if w != [] {
      var l := w[|w| - 1];
      DropsAlongRoute(adj, h, s, w[..|w| - 1], l.from);
      assert l.arc in adj[l.from] && l.arc.to < |adj|;
    }
  }

  /** Towards the head of an arc, consistency along it is the check of that arc. */
  lemma {:induction false} ConsistentMeansRespects(graph: Graph, metric: Metric)
    requires Drivable(graph) && IsMetric(metric) && AlwaysConsistent(graph, metric)
    ensures RespectsStraightLine(graph, metric)
  {
    hide IsMetric, IsCsr;
    forall v: nat, r: RoadArc | 0.0 < graph.maxSpeedMps && v < |graph.nodes| && r in graph.Forward()[v]
      ensures metric(graph.nodes[v], graph.nodes[r.to]) <= r.travelSeconds * graph.maxSpeedMps
    {
      var h := Guide(graph, metric, r.to);
      assert IsGuide(graph.Forward(), h) && h[v] <= r.travelSeconds + h[r.to];
      OneArc(graph, metric, v, r);
    }
  }

  lemma OneArc(graph: Graph, metric: Metric, v: nat, r: RoadArc)
    requires IsMetric(metric) && 0.0 < graph.maxSpeedMps && v < |graph.nodes| && r.to < |graph.nodes|
    ensures StraightLineTime(graph, metric, r.to, v) <= r.travelSeconds + StraightLineTime(graph, metric, r.to, r.to) <==>
            metric(graph.nodes[v], graph.nodes[r.to]) <= r.travelSeconds * graph.maxSpeedMps
  {
    assert metric(graph.nodes[r.to], graph.nodes[r.to]) == 0.0;
    TimeBound(metric(graph.nodes[v], graph.nodes[r.to]), 0.0, r.travelSeconds, graph.maxSpeedMps);
  }

  lemma {:induction false} AdmissibleMeansRespects(graph: Graph, metric: Metric)
    requires Drivable(graph) && IsMetric(metric) && NeverOverEstimates(graph, metric)
    ensures RespectsStraightLine(graph, metric)
  {
    hide IsMetric, IsCsr, IsRoute, Seconds, StraightLineTime;
    forall v: nat, r: RoadArc | 0.0 < graph.maxSpeedMps && v < |graph.nodes| && r in graph.Forward()[v]
      ensures metric(graph.nodes[v], graph.nodes[r.to]) <= r.travelSeconds * graph.maxSpeedMps
    {
      var w := ArcAsRoute(graph.Forward(), v, r);
      assert StraightLineTime(graph, metric, r.to, v) <= r.travelSeconds;
      OneArc(graph, metric, v, r);
      NoTimeAtTarget(graph, metric, r.to);
    }
  }

  lemma ArcAsRoute(adj: Adjacency, v: nat, r: RoadArc) returns (w: Route)
    requires v < |adj| && r in adj[v]
    ensures IsRoute(adj, v, w, r.to) && Seconds(w) == r.travelSeconds
  {
    var nothing: Route := [];
    assert IsRoute(adj, v, nothing, v) && Seconds(nothing) == 0.0;
    Append(adj, v, nothing, v, r);
    w := nothing + [Leg(v, r)];
  }

  lemma NoTimeAtTarget(graph: Graph, metric: Metric, t: nat)
    requires IsMetric(metric) && t < |graph.nodes|
    ensures StraightLineTime(graph, metric, t, t) == 0.0
  {
    assert metric(graph.nodes[t], graph.nodes[t]) == 0.0;
  }

  // ---- A graph the builder accepts ---------------------------------------------------------------

  /** Two short arcs lead from `s` over `a` to `t`, one longer arc leads there directly. */
  function ShortCutArcs(d: real): seq<PendingArc>
  {
    [PendingArc(0, 1, d / 8.0, d / 8.0), PendingArc(0, 2, d / 2.0, d / 2.0), PendingArc(1, 2, d / 8.0, d / 8.0)]
  }

  ghost predicate IsShortCut(graph: Graph, s: GeoNode, a: GeoNode, t: GeoNode, d: real)
  {
    && graph.nodes == [s, a, t] && graph.maxSpeedMps == 1.0 && graph.Indexed()
    && IndexesArcs(graph.csr, 3, ShortCutArcs(d))
  }

  predicate IsNew(nodes: seq<GeoNode>, id: int)
  {
    forall v :: 0 <= v < |nodes| ==> nodes[v].osmId != id
  }

  /** Adding a node that is not there yet. */
  method AddNew(builder: RoadGraphBuilder, node: GeoNode) returns (i: nat)
    requires builder.Valid() && IsNew(builder.nodes, node.osmId)
    modifies builder
    ensures builder.Valid() && builder.nodes == old(builder.nodes) + [node] && i == |old(builder.nodes)|
    ensures builder.arcs == old(builder.arcs) && builder.maxSpeedMps == old(builder.maxSpeedMps)
  {
    hide NotFaster, RoadGraphBuilder.Valid;
    i := builder.AddNode(node.osmId, node.lat, node.lon);
    OnlyNode(builder, i, |builder.nodes| - 1);
  }

  method PlaceNodes(s: GeoNode, a: GeoNode, t: GeoNode) returns (builder: RoadGraphBuilder, i: nat, j: nat, k: nat)
    requires s.osmId != a.osmId && s.osmId != t.osmId && a.osmId != t.osmId
    ensures fresh(builder) && builder.Valid() && builder.nodes == [s, a, t] && builder.arcs == [] && builder.maxSpeedMps == 0.0
    ensures i == 0 && j == 1 && k == 2
  {
    hide RoadGraphBuilder.Valid;
    builder := new RoadGraphBuilder();
    i := AddNew(builder, s);
    assert builder.nodes == [s];
    j := AddNew(builder, a);
    assert builder.nodes == [s, a];
    k := AddNew(builder, t);
  }

  lemma OnlyNode(builder: RoadGraphBuilder, i: nat, j: nat)
    requires builder.Valid() && i < |builder.nodes| && j < |builder.nodes| && builder.nodes[i].osmId == builder.nodes[j].osmId
    ensures i == j
  {
    hide NotFaster;
  }

  /** Built by the public operations, whatever three nodes are chosen. */
  method BuildShortCut(s: GeoNode, a: GeoNode, t: GeoNode, d: real) returns (graph: Graph)
    requires s.osmId != a.osmId && s.osmId != t.osmId && a.osmId != t.osmId
    ensures IsShortCut(graph, s, a, t, d)
  {
    hide IndexesArcs, IsCsr;
    var builder, i, j, k := PlaceNodes(s, a, t);
    hide RoadGraphBuilder.Valid;
    builder.AddArc(i, j, d / 8.0, 1.0);
    builder.AddArc(i, k, d / 2.0, 1.0);
    builder.AddArc(j, k, d / 8.0, 1.0);
    assert builder.arcs == ShortCutArcs(d);
    var frozen := RoadNetwork.Freeze(builder);
    graph := frozen.graph;
  }

  lemma ShortCutBuckets(d: real)
    ensures |ShortCutArcs(d)| == 3
    ensures ArcsFrom(ShortCutArcs(d), 0, 3) == [RoadArc(1, d / 8.0, d / 8.0), RoadArc(2, d / 2.0, d / 2.0)]
    ensures ArcsFrom(ShortCutArcs(d), 1, 3) == [RoadArc(2, d / 8.0, d / 8.0)]
    ensures ArcsFrom(ShortCutArcs(d), 2, 3) == []
  {
    var arcs := ShortCutArcs(d);
    forall v: nat ensures ArcsFrom(arcs, v, 1) == if v == 0 then [RoadArc(1, d / 8.0, d / 8.0)] else [] {
      assert ArcsFrom(arcs, v, 0) == [];
    }
    forall v: nat ensures ArcsFrom(arcs, v, 2) == ArcsFrom(arcs, v, 1) + if v == 0 then [RoadArc(2, d / 2.0, d / 2.0)] else [] {
    }
  }

  lemma ShortCutForward(graph: Graph, s: GeoNode, a: GeoNode, t: GeoNode, d: real)
    requires IsShortCut(graph, s, a, t, d) && 0.0 <= d
    ensures Drivable(graph)
    ensures graph.Forward() == [[RoadArc(1, d / 8.0, d / 8.0), RoadArc(2, d / 2.0, d / 2.0)], [RoadArc(2, d / 8.0, d / 8.0)], []]
  {
    ShortCutBuckets(d);
    hide ArcsFrom, ShortCutArcs, IsCsr;
    var adj := graph.Forward();
    assert forall v: nat :: v < 3 ==> adj[v] == ArcsFrom(ShortCutArcs(d), v, 3);
    assert adj[0] == ArcsFrom(ShortCutArcs(d), 0, 3) && adj[1] == ArcsFrom(ShortCutArcs(d), 1, 3) && adj[2] == [];
    assert adj == [adj[0], adj[1], adj[2]];
  }

  /** The arc from `a` is shorter than the straight line, so the heuristic is not consistent. */
  lemma ShortCutIsInconsistent(graph: Graph, metric: Metric, s: GeoNode, a: GeoNode, t: GeoNode, d: real)
    requires IsMetric(metric) && d == metric(a, t) && 0.0 < d && IsShortCut(graph, s, a, t, d)
    ensures Drivable(graph) && !RespectsStraightLine(graph, metric)
    ensures !IsGuide(graph.Forward(), Guide(graph, metric, 2))
  {
    hide IndexesArcs, IsCsr, ShortCutArcs;
    ShortCutForward(graph, s, a, t, d);
    var r := RoadArc(2, d / 8.0, d / 8.0);
    assert r in graph.Forward()[1] && metric(graph.nodes[1], graph.nodes[2]) == d;
    assert metric(t, t) == 0.0;
    TimeBound(d, 0.0, d / 8.0, 1.0);
  }

  // ---- ... on which A* stops too early -------------------------------------------------------------

  /** The search after the source is popped and its two arcs are relaxed. */
  ghost function AfterSource(h: seq<real>, s0: Search, d: real): Search
    requires |h| == 3 && IsStart(h, 0, s0)
  {
    var s1 := Popped(s0, 3, (h[0], 0));
    var s2 := Relaxing(h, s1, 0, RoadArc(1, d / 8.0, d / 8.0));
    Relaxing(h, s2, 0, RoadArc(2, d / 2.0, d / 2.0))
  }

  lemma ForcedPops(h: seq<real>, s0: Search, d: real)
    requires |h| == 3 && h[1] == d && h[2] == 0.0 && 0.0 < d && IsStart(h, 0, s0)
    ensures forall top :: IsTop(s0, top) <==> top == (h[0], 0)
    ensures var s3 := AfterSource(h, s0, d);
            && s3.g == [At(0.0), At(d / 8.0), At(d / 2.0)] && !s3.settled[2] && s3.heap != multiset{}
            && forall top :: IsTop(s3, top) <==> top == (d / 2.0, 2)
  {
    var s3 := AfterSource(h, s0, d);
    assert s0.g == [At(0.0), Unreachable, Unreachable];
    assert s3.heap == multiset{(d / 8.0 + d, 1), (d / 2.0, 2)};
    assert (d / 2.0, 2) in s3.heap;
  }

  lemma FirstTurn(adj: Adjacency, h: seq<real>, s0: Search, d: real)
    requires |adj| == |h| == 3 && adj[0] == [RoadArc(1, d / 8.0, d / 8.0), RoadArc(2, d / 2.0, d / 2.0)] && 0.0 < d
    requires IsStart(h, 0, s0) && CanPop(adj, h, s0, (h[0], 0))
    ensures AfterPop(adj, h, 2, s0, (h[0], 0)) == AfterSource(h, s0, d)
  {
    var s1 := Popped(s0, 3, (h[0], 0));
    var arcs := adj[0];
    assert s1.g == [At(0.0), Unreachable, Unreachable];
    var t0 := ScanFrom(h, s1, 0, arcs, 0);
    var t1 := ScanFrom(h, s1, 0, arcs, 1);
    assert t1 == Relaxing(h, s1, 0, arcs[0]);
    assert t1.g == [At(0.0), At(d / 8.0), Unreachable];
    assert ScanFrom(h, s1, 0, arcs, 2) == Relaxing(h, t1, 0, arcs[1]);
  }

  /** Whatever ties there are, a search of this graph settles the target at d / 2. */
  lemma {:induction false} RunsStopTooEarly(adj: Adjacency, h: seq<real>, d: real, run: Run, time: Time)
    requires |adj| == |h| == 3 && adj[0] == [RoadArc(1, d / 8.0, d / 8.0), RoadArc(2, d / 2.0, d / 2.0)] && 0.0 < d
    requires h[1] == d && h[2] == 0.0 && IsEndedRun(adj, h, 0, 2, run, time)
    ensures time == At(d / 2.0)
  {
    hide AfterPop, AfterSource, IsTop, HeadsInRange;
    var s0 := run.states[0];
    ForcedPops(h, s0, d);
    assert !s0.settled[2] && s0.heap != multiset{} by {
      assert (h[0], 0) in s0.heap;
    }
    assert CanPop(adj, h, s0, run.pops[0]) && run.states[1] == AfterPop(adj, h, 2, s0, run.pops[0]);
    FirstTurn(adj, h, s0, d);
    var s3 := run.states[1];
    assert s3 == AfterSource(h, s0, d);
    assert CanPop(adj, h, s3, run.pops[1]) && run.states[2] == AfterPop(adj, h, 2, s3, run.pops[1]);
    LastTurn(adj, h, s3, d);
    assert run.states[2].settled[2];
    assert |run.pops| == 2;
  }

  lemma LastTurn(adj: Adjacency, h: seq<real>, s: Search, d: real)
    requires CanPop(adj, h, s, (d / 2.0, 2)) && |h| == 3 && s.g == [At(0.0), At(d / 8.0), At(d / 2.0)] && !s.settled[2]
    ensures var t := AfterPop(adj, h, 2, s, (d / 2.0, 2)); |t.settled| == |t.g| == 3 && t.settled[2] && t.g == s.g
  {
  }

  lemma GuideOfShortCut(graph: Graph, metric: Metric, s: GeoNode, a: GeoNode, t: GeoNode, d: real)
    requires IsMetric(metric) && d == metric(a, t) && IsShortCut(graph, s, a, t, d)
    ensures Guide(graph, metric, 2)[1] == d && Guide(graph, metric, 2)[2] == 0.0
  {
    assert metric(t, t) == 0.0;
  }

  /** On the graph A* is sure to report d / 2, and a route of d / 4 exists. */
  lemma AStarStopsTooEarly(graph: Graph, metric: Metric, s: GeoNode, a: GeoNode, t: GeoNode, d: real, run: Run, time: Time)
    requires IsMetric(metric) && d == metric(a, t) && 0.0 < d && IsShortCut(graph, s, a, t, d)
    requires IsEndedRun(graph.Forward(), Guide(graph, metric, 2), 0, 2, run, time)
    ensures time == At(d / 2.0) && IsFastest(graph.Forward(), 0, 2, d / 4.0)
  {
    hide IndexesArcs, IsCsr, ShortCutArcs, IsEndedRun, IsFastest;
    ShortCutForward(graph, s, a, t, d);
    GuideOfShortCut(graph, metric, s, a, t, d);
    RunsStopTooEarly(graph.Forward(), Guide(graph, metric, 2), d, run, time);
    FasterRoute(graph.Forward(), d);
  }

  lemma FasterRoute(adj: Adjacency, d: real)
    requires adj == [[RoadArc(1, d / 8.0, d / 8.0), RoadArc(2, d / 2.0, d / 2.0)], [RoadArc(2, d / 8.0, d / 8.0)], []] && 0.0 < d
    ensures IsFastest(adj, 0, 2, d / 4.0)
  {
    var first, second := RoadArc(1, d / 8.0, d / 8.0), RoadArc(2, d / 8.0, d / 8.0);
    var nothing: Route := [];
    assert IsRoute(adj, 0, nothing, 0) && Seconds(nothing) == 0.0;
    Append(adj, 0, nothing, 0, first);
    Append(adj, 0, nothing + [Leg(0, first)], 1, second);
    var w := nothing + [Leg(0, first)] + [Leg(1, second)];
    assert IsRoute(adj, 0, w, 2) && Seconds(w) == d / 4.0;
    forall x | IsRoute(adj, 0, x, 2) ensures d / 4.0 <= Seconds(x) {
      AtLeast(adj, d, x, 2);
    }
  }

  /** Every route from `s` takes at least d / 8 to `a` and d / 4 to `t`. */
  lemma {:induction false} AtLeast(adj: Adjacency, d: real, w: Route, v: nat)
    requires adj == [[RoadArc(1, d / 8.0, d / 8.0), RoadArc(2, d / 2.0, d / 2.0)], [RoadArc(2, d / 8.0, d / 8.0)], []] && 0.0 < d
    requires IsRoute(adj, 0, w, v)
    ensures Seconds(w) >= if v == 0 then 0.0 else if v == 1 then d / 8.0 else d / 4.0
  {
    if w != [] {
      var l := w[|w| - 1];
      AtLeast(adj, d, w[..|w| - 1], l.from);
      assert l.from == 0 || l.from == 1 || l.from == 2;
    }
  }

  /** The same through the public operations: build the graph, ask A*. */
  method AskShortCut(metric: Metric, s: GeoNode, a: GeoNode, t: GeoNode) returns (graph: Graph, r: Result<RouteResult>)
    requires IsMetric(metric) && 0.0 < metric(a, t)
    requires s.osmId != a.osmId && s.osmId != t.osmId && a.osmId != t.osmId
    ensures graph.nodes == [s, a, t] && Drivable(graph)
    ensures r.Ok? && r.value.travelSeconds == At(metric(a, t) / 2.0)
    ensures IsFastest(graph.Forward(), 0, 2, metric(a, t) / 4.0)
  {
    hide IndexesArcs, IsCsr, ShortCutArcs, IsEndedRun, IsFastest, IsMetric, IsNetwork, IsRealAnswer, IsAnswer, SettledBy, IsGuide;
    graph := BuildShortCut(s, a, t, metric(a, t));
    ShortCutForward(graph, s, a, t, metric(a, t));
    ghost var settled;
    ghost var run;
    r, settled, run := AStar(graph, metric, 0, 2);
    AStarStopsTooEarly(graph, metric, s, a, t, metric(a, t), run, r.value.travelSeconds);
  }
}
