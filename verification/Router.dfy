/** Point-to-point Dijkstra and A*, and the one-to-all search, over the road graph. */
module Router {
  import opened Basics
  import opened RoadGraph
  import opened RoadRoutes
  import opened LabelSearch
  import opened GuidedSearch
  import opened PriorityQueue

  datatype Result<T> = Ok(value: T) | OutOfRange(what: string)

  /** `path` lists the nodes from source to target; empty when there is no route. */
  datatype RouteResult = RouteResult(travelSeconds: Time, lengthMeters: real, path: seq<nat>, nodesSettled: nat)

  /** What the searches need of a graph: an index, heads in range, no negative time. */
  ghost predicate Drivable(graph: Graph)
  {
    graph.Indexed() && IsNetwork(graph.Forward())
  }

  ghost function NodesOf(source: nat, w: Route): (r: seq<nat>)
    ensures |r| == |w| + 1
  {
    [source] + seq(|w|, i requires 0 <= i < |w| => w[i].arc.to)
  }

  /** The reported time is the fastest possible, and the reported path and length belong to
      one real route that takes exactly this time. */
  ghost predicate IsAnswer(adj: Adjacency, source: nat, target: nat, r: RouteResult)
  {
    if r.travelSeconds.Unreachable? then
      !CanReach(adj, source, target) && r.path == [] && r.lengthMeters == 0.0
    else
      && IsFastest(adj, source, target, r.travelSeconds.secs)
      && exists w :: IsRoute(adj, source, w, target) && Seconds(w) == r.travelSeconds.secs
                     && Meters(w) == r.lengthMeters && NodesOf(source, w) == r.path
  }

  /** Which nodes a search with guide `h` settled: only those whose fastest time plus guide
      does not exceed the target's, all those strictly below it, and everything reachable
      when the target is not. */
  ghost predicate SettledBy(adj: Adjacency, h: seq<real>, source: nat, target: nat, r: RouteResult, settled: set<nat>)
    requires |h| == |adj| && target < |adj|
  {
    && r.nodesSettled == |settled|
    && (r.travelSeconds.At? ==> target in settled)
    && (forall v :: v in settled ==>
          v < |adj| && CanReach(adj, source, v)
          && (r.travelSeconds.At? ==> exists d :: IsFastest(adj, source, v, d) && d + h[v] <= r.travelSeconds.secs + h[target]))
    && (forall v: nat, w :: v < |adj| && IsRoute(adj, source, w, v) && v !in settled ==>
          r.travelSeconds.At? && r.travelSeconds.secs + h[target] <= Seconds(w) + h[v])
  }

  /** No route means unreachable; otherwise the time is that of some real route, and path and
      length are those of a real route that takes no longer. */
  ghost predicate IsRealAnswer(adj: Adjacency, source: nat, target: nat, r: RouteResult)
  {
    if r.travelSeconds.Unreachable? then
      !CanReach(adj, source, target) && r.path == [] && r.lengthMeters == 0.0
    else
      && Driven(adj, source, target, r.travelSeconds.secs)
      && exists w :: IsRoute(adj, source, w, target) && Seconds(w) <= r.travelSeconds.secs
                     && Meters(w) == r.lengthMeters && NodesOf(source, w) == r.path
  }

  ghost function NoGuide(n: nat): (h: seq<real>)
    ensures |h| == n && forall v: nat :: v < n ==> h[v] == 0.0
  {
    seq(n, _ => 0.0)
  }

  predicate InGraph(graph: Graph, v: int)
  {
    0 <= v < |graph.nodes|
  }

  // ---- Path reconstruction -------------------------------------------------------------------

  lemma {:induction false} NodesOfExtended(source: nat, w: Route, l: Leg)
    ensures NodesOf(source, w + [l]) == NodesOf(source, w) + [l.arc.to]
  {
    var x := w + [l];
    assert forall i :: 0 <= i < |w| ==> x[i] == w[i];
  }

  lemma RouteStep(adj: Adjacency, source: nat, s: Search, v: nat)
    requires Sized(s, |adj|) && Parented(adj, source, s) && Reached(s.g, v) && v != source
    ensures ParentOf(adj, s, v) && s.parent[v] >= 0 && Rank(s, s.parent[v]) < Rank(s, v)
    ensures var rest := RouteTo(adj, source, s, s.parent[v]);
            && NodesOf(source, RouteTo(adj, source, s, v)) == NodesOf(source, rest) + [v]
            && Meters(RouteTo(adj, source, s, v)) == Meters(rest) + s.parentLength[v]
  {
    assert ParentOf(adj, s, v);
    var u: nat := s.parent[v];
    EarlierRanksLower(s, u, v);
    var rest, l := RouteTo(adj, source, s, u), Leg(u, s.via[v]);
    NodesOfExtended(source, rest, l);
    assert (rest + [l])[..|rest|] == rest;
  }

  lemma RouteRoot(adj: Adjacency, source: nat, s: Search)
    requires Sized(s, |adj|) && Parented(adj, source, s) && Reached(s.g, source)
    ensures RouteTo(adj, source, s, source) == [] && NodesOf(source, []) == [source] && Meters([]) == 0.0
  {
  }

  ghost function Reversed(xs: seq<nat>): (r: seq<nat>)
    ensures |r| == |xs| && forall i :: 0 <= i < |xs| ==> r[i] == xs[|xs| - 1 - i]
  {
    seq(|xs|, i requires 0 <= i < |xs| => xs[|xs| - 1 - i])
  }

  lemma ReversedSnoc(xs: seq<nat>, v: nat)
    ensures Reversed(xs + [v]) == [v] + Reversed(xs)
  {
  }

  method ReverseNodes(xs: seq<nat>) returns (r: seq<nat>)
    ensures r == Reversed(xs)
  {
    r := [];
    for i := 0 to |xs|
      invariant |r| == i && forall k :: 0 <= k < i ==> r[k] == xs[|xs| - 1 - k]
    {
      r := r + [xs[|xs| - 1 - i]];
    }
  }

  /** Walks the parents back from the target, adds up the lengths, and flips the list: the
      nodes and the length of the route the target's label stands for. */
  method Reconstruct(n: nat, parent: seq<int>, parentLength: seq<real>, source: nat, target: nat,
                     ghost adj: Adjacency, ghost s: Search)
    returns (found: bool, path: seq<nat>, meters: real)
    requires |adj| == n && source < n && target < n && Sized(s, n) && Parented(adj, source, s)
    requires parent == s.parent && parentLength == s.parentLength
    requires Reached(s.g, target) && Reached(s.g, source)
    ensures found
    ensures path == NodesOf(source, RouteTo(adj, source, s, target))
    ensures meters == Meters(RouteTo(adj, source, s, target))
  {
    hide Parented, RouteTo, NodesOf, Meters, Reversed, Rank;
    ghost var whole := RouteTo(adj, source, s, target);
    var back: seq<nat> := [];
    meters := 0.0;
    var v: int := target;
    RouteRoot(adj, source, s);
    ReversedEmpty();
    while v != -1
      invariant 0 <= v < n && Reached(s.g, v)
      invariant NodesOf(source, whole) == NodesOf(source, RouteTo(adj, source, s, v)) + Reversed(back)
      invariant Meters(whole) == Meters(RouteTo(adj, source, s, v)) + meters
      decreases Rank(s, v)
    {
      ReversedSnoc(back, v);
      back := back + [v];
      if v == source {
        break;
      }
      RouteStep(adj, source, s, v);
      meters := meters + parentLength[v];
      v := parent[v];
    }
    found := back != [] && back[|back| - 1] == source;
    path := ReverseNodes(back);
  }

  /** The result for the target's label: without a label there is no path. */
  method ResultFor(time: Time, n: nat, parent: seq<int>, parentLength: seq<real>, source: nat, target: nat, nodesSettled: nat,
                   ghost adj: Adjacency, ghost s: Search)
    returns (result: RouteResult)
    requires |adj| == n && source < n && target < n && Sized(s, n) && Parented(adj, source, s) && time == s.g[target]
    requires parent == s.parent && parentLength == s.parentLength && Reached(s.g, source)
    ensures result.travelSeconds == time && result.nodesSettled == nodesSettled
    ensures if time.Unreachable? then result.path == [] && result.lengthMeters == 0.0
            else result.path == NodesOf(source, RouteTo(adj, source, s, target))
                 && result.lengthMeters == Meters(RouteTo(adj, source, s, target))
  {
    hide Parented, RouteTo, NodesOf, Meters;
    result := RouteResult(time, 0.0, [], nodesSettled);
    if time.At? {
      var _, path, meters := Reconstruct(n, parent, parentLength, source, target, adj, s);
      result := RouteResult(time, meters, path, nodesSettled);
    }
  }

  lemma ReversedEmpty()
    ensures Reversed([]) == []
  {
  }

  // ---- Dijkstra ----------------------------------------------------------------------------

  /** The relaxation pass over the arcs out of `u`, with plain costs as keys. */
  method ScanPlain(arcs: seq<RoadArc>, u: nat, d: real, g0: seq<Time>, parent0: seq<int>, parentLength0: seq<real>,
                   heap0: Heap<real>, ghost adj: Adjacency, ghost source: nat, ghost before: Search)
    returns (g: seq<Time>, parent: seq<int>, parentLength: seq<real>, heap: Heap<real>, ghost after: Search)
    requires u < |adj| && arcs == adj[u] && Sized(before, |adj|) && before.settled[u] && before.g[u] == At(d)
    requires before.g == g0 && before.parent == parent0 && before.parentLength == parentLength0 && before.heap == heap0
    requires before.level == d && Searching(adj, NoGuide(|adj|), source, before) && SettledRelaxed(adj, before, u)
    ensures Sized(after, |adj|) && after.settled == before.settled
    ensures after.g == g && after.parent == parent && after.parentLength == parentLength && after.heap == heap
    ensures Searching(adj, NoGuide(|adj|), source, after) && SettledRelaxed(adj, after, |adj|)
  {
    hide Searching, SettledRelaxed, ArcsRelaxed;
    g, parent, parentLength, heap, after := g0, parent0, parentLength0, heap0, before;
    ghost var h := NoGuide(|adj|);
    ScanStart(after, u, arcs);
    for i := 0 to |arcs|
      invariant Sized(after, |adj|) && after.settled == before.settled && after.level == d && after.g[u] == At(d)
      invariant after.g == g && after.parent == parent && after.parentLength == parentLength && after.heap == heap
      invariant Searching(adj, h, source, after) && SettledRelaxed(adj, after, u) && ArcsRelaxed(after, u, arcs, i)
    {
      var arc := arcs[i];
      var candidate := d + arc.travelSeconds;
      HeadInRange(adj, h, source, after, u, i);
      if IsSooner(candidate, g[arc.to]) {
        Relax(adj, h, source, after, u, arc);
        RelaxedAfter(adj, h, after, u, i);
        after := Relaxing(h, after, u, arc);
        g := g[arc.to := At(candidate)];
        parent := parent[arc.to := u];
        parentLength := parentLength[arc.to := arc.lengthMeters];
        heap := heap + multiset{(candidate, arc.to)};
      } else {
        SkipArc(after, u, arcs, i);
      }
    }
    ScanDone(adj, after, u);
  }

  /** From the final state of a search to its answer. */
  lemma {:induction false} AnswerFrom(adj: Adjacency, h: seq<real>, source: nat, target: nat, s: Search, r: RouteResult)
    requires IsNetwork(adj) && Concluded(adj, h, source, target, s)
    requires r.nodesSettled == |SettledSet(s.settled, |adj|)| && r.travelSeconds == s.g[target]
    requires if r.travelSeconds.Unreachable? then r.path == [] && r.lengthMeters == 0.0
             else r.path == NodesOf(source, RouteTo(adj, source, s, target))
                  && r.lengthMeters == Meters(RouteTo(adj, source, s, target))
    ensures IsAnswer(adj, source, target, r)
    ensures SettledBy(adj, h, source, target, r, SettledSet(s.settled, |adj|))
  {
    if r.travelSeconds.At? {
      RouteToIsRoute(adj, source, s, target);
      SettledIsFastest(adj, source, s, target);
    }
    forall v | v in SettledSet(s.settled, |adj|)
      ensures CanReach(adj, source, v)
      ensures r.travelSeconds.At? ==>
                exists d :: IsFastest(adj, source, v, d) && d + h[v] <= r.travelSeconds.secs + h[target]
    {
      SettledIsFastest(adj, source, s, v);
    }
  }

  lemma ConcludedFacts(adj: Adjacency, h: seq<real>, source: nat, target: nat, s: Search)
    requires Concluded(adj, h, source, target, s)
    ensures Sized(s, |adj|) && source < |adj| && target < |adj| && Parented(adj, source, s) && Reached(s.g, source)
  {
  }

  /** The source's plain Dijkstra: stops as soon as the target is popped. */
  method Dijkstra(graph: Graph, source: int, target: int) returns (r: Result<RouteResult>, ghost settledNodes: set<nat>)
    requires Drivable(graph)
    ensures r.Ok? <==> InGraph(graph, source) && InGraph(graph, target)
    ensures r.Ok? ==> IsAnswer(graph.Forward(), source, target, r.value)
    ensures r.Ok? ==> SettledBy(graph.Forward(), NoGuide(|graph.nodes|), source, target, r.value, settledNodes)
  {
    hide Searching, SettledRelaxed, Concluded, IsNetwork, Unset, IsCsr, IsAnswer, SettledBy, Popped, IsStart, Parented, NodesOf,
      RouteTo, Meters, IsGuide, NoGuide, HeadsInRange, Rank, Earlier;
    settledNodes := {};
    if !InGraph(graph, source) {
      return OutOfRange("source"), {};
    }
    if !InGraph(graph, target) {
      return OutOfRange("target"), {};
    }
    ghost var adj := graph.Forward();
    var n := |graph.nodes|;
    ghost var h := NoGuide(n);
    NoGuideIsGuide(adj);
    var dist := seq(n, _ => Unreachable);
    var parent: seq<int> := seq(n, _ => -1);
    var parentLength := seq(n, _ => 0.0);
    var settled := seq(n, _ => false);
    var nodesSettled: nat := 0;
    dist := dist[source := At(0.0)];
    var heap: Heap<real> := multiset{(0.0, source as nat)};
    ghost var s := Search(dist, parent, parentLength, settled, heap, seq(n, _ => RoadArc(0, 0.0, 0.0)), seq(n, _ => 0), 1, 0.0);
    FreshStart(h, source, s);
    Start(adj, h, source, s);
    ghost var stopped := false;
    SettledSetSize(settled, n);
    NoneSettled(settled, n);

    while heap != multiset{}
      invariant Sized(s, n) && s.g == dist && s.parent == parent && s.parentLength == parentLength
      invariant s.settled == settled && s.heap == heap
      invariant nodesSettled + Unset(settled, n) == n
      invariant !stopped && !settled[target]
      invariant Searching(adj, h, source, s) && SettledRelaxed(adj, s, n)
      decreases Unset(settled, n), |heap|
    {
      ghost var before := s;
      var top, rest := PopLeastReal(heap);
      var d, v := top.0, top.1;
      heap := rest;
      Pop(adj, h, source, before, top);
      PopChanges(before, n, top);
      s := Popped(before, n, top);
      if settled[v] {
        assert settled[v := true] == settled;
        continue;
      }
      UnsetDrops(settled, v, n);
      settled := settled[v := true];
      nodesSettled := nodesSettled + 1;
      if v == target {
        StopAtTarget(adj, h, source, target, before, top);
        stopped := true;
        break;
      }
      dist, parent, parentLength, heap, s := ScanPlain(graph.ArcsOut(v), v, d, dist, parent, parentLength, heap, adj, source, s);
    }
    if !stopped {
      StopWhenEmpty(adj, h, source, target, s);
    }
    ConcludedFacts(adj, h, source, target, s);
    SettledSetSize(settled, n);
    settledNodes := SettledSet(settled, n);
    var result := ResultFor(dist[target], n, parent, parentLength, source, target, nodesSettled, adj, s);
    AnswerFrom(adj, h, source, target, s, result);
    r := Ok(result);
  }

  lemma {:induction false} NoneSettled(settled: seq<bool>, k: nat)
    requires k <= |settled| && forall v :: 0 <= v < |settled| ==> !settled[v]
    ensures Unset(settled, k) == k
  {
    if k > 0 {
      NoneSettled(settled, k - 1);
    }
  }

  lemma NoGuideIsGuide(adj: Adjacency)
    requires IsNetwork(adj)
    ensures IsGuide(adj, NoGuide(|adj|))
  {
  }

  // ---- A* --------------------------------------------------------------------------------------

  /** Straight-line distance between two nodes' positions, as an abstract metric. */
  type Metric = (GeoNode, GeoNode) -> real

  ghost predicate IsMetric(metric: Metric)
  {
    && (forall a, b :: 0.0 <= metric(a, b))
    && (forall a :: metric(a, a) == 0.0)
    && (forall a, b, c :: metric(a, c) <= metric(a, b) + metric(b, c))
  }

  /** Driving straight at the recorded top speed is at least as fast as any arc. */
  ghost predicate RespectsStraightLine(graph: Graph, metric: Metric)
    requires Drivable(graph)
  {
    0.0 < graph.maxSpeedMps ==>
      forall v: nat, r: RoadArc :: v < |graph.nodes| && r in graph.Forward()[v] ==>
        metric(graph.nodes[v], graph.nodes[r.to]) <= r.travelSeconds * graph.maxSpeedMps
  }

  /** Where there is an arc there is a top speed, as the builder sees to. */
  ghost predicate ArcsNeedSpeed(graph: Graph)
    requires graph.Indexed()
  {
    graph.maxSpeedMps <= 0.0 ==> forall v: nat :: v < |graph.nodes| ==> graph.Forward()[v] == []
  }

  /** Straight line at the network's top speed; zero when there is no top speed. */
  function StraightLineTime(graph: Graph, metric: Metric, target: nat, v: nat): real
    requires target < |graph.nodes| && v < |graph.nodes|
  {
    if graph.maxSpeedMps <= 0.0 then 0.0 else metric(graph.nodes[v], graph.nodes[target]) / graph.maxSpeedMps
  }

  ghost function Guide(graph: Graph, metric: Metric, target: nat): (h: seq<real>)
    requires target < |graph.nodes|
    ensures |h| == |graph.nodes|
    ensures forall v: nat :: v < |graph.nodes| ==> h[v] == StraightLineTime(graph, metric, target, v)
  {
    seq(|graph.nodes|, v requires 0 <= v < |graph.nodes| => StraightLineTime(graph, metric, target, v))
  }

  lemma TimeBound(near: real, far: real, seconds: real, speed: real)
    requires 0.0 < speed
    ensures near <= seconds * speed + far <==> near / speed <= seconds + far / speed
  {
    var a, b := near / speed, far / speed;
    assert a * speed == near && b * speed == far;
    assert (seconds + b) * speed == seconds * speed + b * speed;
    ScaleUp(seconds + b, a, speed);
    ScaleUp(a, seconds + b, speed);
  }

  lemma ScaleUp(a: real, b: real, speed: real)
    requires 0.0 < speed
    ensures a < b ==> a * speed < b * speed
  {
  }

  /** The heuristic is consistent, not merely admissible. */
  lemma {:induction false} GuideIsConsistent(graph: Graph, metric: Metric, target: nat)
    requires Drivable(graph) && IsMetric(metric) && RespectsStraightLine(graph, metric) && target < |graph.nodes|
    ensures IsGuide(graph.Forward(), Guide(graph, metric, target))
    ensures Guide(graph, metric, target)[target] == 0.0
  {
    var adj, h := graph.Forward(), Guide(graph, metric, target);
    forall v: nat, r: RoadArc | v < |adj| && r in adj[v] && r.to < |adj|
      ensures h[v] <= r.travelSeconds + h[r.to]
    {
      var a, b, goal := graph.nodes[v], graph.nodes[r.to], graph.nodes[target];
      assert metric(a, goal) <= metric(a, b) + metric(b, goal);
      if graph.maxSpeedMps > 0.0 {
        TimeBound(metric(a, goal), metric(b, goal), r.travelSeconds, graph.maxSpeedMps);
      }
    }
    if graph.maxSpeedMps > 0.0 {
      assert metric(graph.nodes[target], graph.nodes[target]) == 0.0;
    }
  }

  /** A memo cell: the NaN marker, or the one value h(v) ever has. */
  datatype Memo = NotComputed | Computed(value: real)

  ghost predicate MemoAgrees(memo: seq<Memo>, h: seq<real>)
  {
    |memo| == |h| && forall v :: 0 <= v < |h| && memo[v].Computed? ==> memo[v].value == h[v]
  }

  method Heuristic(graph: Graph, metric: Metric, target: nat, v: nat, memo0: seq<Memo>) returns (value: real, memo: seq<Memo>)
    requires target < |graph.nodes| && v < |graph.nodes| && MemoAgrees(memo0, Guide(graph, metric, target))
    ensures value == Guide(graph, metric, target)[v] && MemoAgrees(memo, Guide(graph, metric, target))
  {
    memo := memo0;
    if graph.maxSpeedMps <= 0.0 {
      return 0.0, memo;
    }
    if memo[v].Computed? {
      return memo[v].value, memo;
    }
    value := metric(graph.nodes[v], graph.nodes[target]) / graph.maxSpeedMps;
    memo := memo[v := Computed(value)];
  }

  /** What A* keeps while it scans the arcs of `u`, and what it keeps besides if its guide is
      consistent. */
  ghost predicate MidScan(adj: Adjacency, h: seq<real>, source: nat, s: Search, u: nat, arcs: seq<RoadArc>, i: nat)
    requires i <= |arcs|
  {
    && Labelled(adj, h, source, s) && HeadsReached(adj, s, u) && FirstHeadsReached(s, arcs, i)
    && (IsGuide(adj, h) ==> Searching(adj, h, source, s) && SettledRelaxed(adj, s, u) && ArcsRelaxed(s, u, arcs, i))
  }

  ghost predicate BetweenTurns(adj: Adjacency, h: seq<real>, source: nat, s: Search, u: nat)
  {
    && Labelled(adj, h, source, s) && HeadsReached(adj, s, u)
    && (IsGuide(adj, h) ==> Searching(adj, h, source, s) && SettledRelaxed(adj, s, u))
  }

  lemma ScanBegins(adj: Adjacency, h: seq<real>, source: nat, s: Search, u: nat, arcs: seq<RoadArc>)
    requires BetweenTurns(adj, h, source, s, u)
    ensures MidScan(adj, h, source, s, u, arcs, 0)
  {
    hide Labelled, Searching, IsGuide, HeadsReached, SettledRelaxed;
  }

  lemma ScanRelaxes(adj: Adjacency, h: seq<real>, source: nat, s: Search, u: nat, i: nat)
    requires u < |adj| && i < |adj[u]| && MidScan(adj, h, source, s, u, adj[u], i)
    requires Sized(s, |adj|) && |h| == |adj| && s.settled[u] && Reached(s.g, u)
    requires IsGuide(adj, h) ==> s.level == s.g[u].secs + h[u]
    requires adj[u][i].to < |adj| && IsSooner(s.g[u].secs + adj[u][i].travelSeconds, s.g[adj[u][i].to])
    ensures MidScan(adj, h, source, Relaxing(h, s, u, adj[u][i]), u, adj[u], i + 1)
    ensures adj[u][i].to != u
  {
    hide Labelled, Searching, IsGuide, HeadsReached, SettledRelaxed, FirstHeadsReached, ArcsRelaxed;
    var r := adj[u][i];
    assert r in adj[u];
    RelaxLabelled(adj, h, source, s, u, r);
    HeadsAfter(adj, h, s, u, i);
    if IsGuide(adj, h) {
      Relax(adj, h, source, s, u, r);
      RelaxedAfter(adj, h, s, u, i);
    }
  }

  lemma ScanSkips(adj: Adjacency, h: seq<real>, source: nat, s: Search, u: nat, i: nat)
    requires u < |adj| && i < |adj[u]| && MidScan(adj, h, source, s, u, adj[u], i)
    requires Sized(s, |adj|) && Reached(s.g, u) && adj[u][i].to < |adj|
    requires !IsSooner(s.g[u].secs + adj[u][i].travelSeconds, s.g[adj[u][i].to])
    ensures MidScan(adj, h, source, s, u, adj[u], i + 1)
  {
    hide Labelled, Searching, IsGuide, HeadsReached, SettledRelaxed, FirstHeadsReached, ArcsRelaxed;
    HeadsSkip(s, adj[u], i, s.g[u].secs + adj[u][i].travelSeconds);
    if IsGuide(adj, h) {
      SkipArc(s, u, adj[u], i);
    }
  }

  lemma ScanEnds(adj: Adjacency, h: seq<real>, source: nat, s: Search, u: nat)
    requires u < |adj| && Sized(s, |adj|) && MidScan(adj, h, source, s, u, adj[u], |adj[u]|)
    ensures BetweenTurns(adj, h, source, s, |adj|)
  {
    hide Labelled, Searching, IsGuide, HeadsReached, SettledRelaxed, FirstHeadsReached, ArcsRelaxed;
    HeadsDone(adj, s, u);
    if IsGuide(adj, h) {
      ScanDone(adj, s, u);
    }
  }

  lemma TurnsBegin(adj: Adjacency, h: seq<real>, source: nat, s: Search)
    requires IsNetwork(adj) && |h| == |adj| && IsStart(h, source, s)
    ensures BetweenTurns(adj, h, source, s, |adj|)
  {
    hide Labelled, Searching, IsGuide, HeadsReached, SettledRelaxed, IsStart, IsNetwork;
    StartLabelled(adj, h, source, s);
    if IsGuide(adj, h) {
      Start(adj, h, source, s);
    }
  }

  lemma TurnBegins(adj: Adjacency, h: seq<real>, source: nat, s: Search, top: (real, nat))
    requires BetweenTurns(adj, h, source, s, |adj|) && Sized(s, |adj|) && IsTop(s, top)
    ensures top.1 < |adj| && Reached(s.g, top.1) && Sized(Popped(s, |adj|, top), |adj|)
    ensures BetweenTurns(adj, h, source, Popped(s, |adj|, top), if s.settled[top.1] then |adj| else top.1)
  {
    hide Labelled, Searching, IsGuide, HeadsReached, SettledRelaxed;
    PopLabelled(adj, h, source, s, top);
    PopHeads(adj, s, top);
    if IsGuide(adj, h) {
      Pop(adj, h, source, s, top);
    }
  }

  /** The relaxation pass of A*: keys are g + h, the stored cost stays g. */
  method ScanGuided(graph: Graph, metric: Metric, target: nat, arcs: seq<RoadArc>, u: nat, gu: real,
                    g0: seq<Time>, parent0: seq<int>, parentLength0: seq<real>, heap0: Heap<real>, memo0: seq<Memo>,
                    ghost adj: Adjacency, ghost source: nat, ghost before: Search)
    returns (g: seq<Time>, parent: seq<int>, parentLength: seq<real>, heap: Heap<real>, memo: seq<Memo>, ghost after: Search)
    requires IsNetwork(adj) && target < |graph.nodes| == |adj| && MemoAgrees(memo0, Guide(graph, metric, target))
    requires u < |adj| && arcs == adj[u] && Sized(before, |adj|) && before.settled[u] && before.g[u] == At(gu)
    requires before.g == g0 && before.parent == parent0 && before.parentLength == parentLength0 && before.heap == heap0
    requires IsGuide(adj, Guide(graph, metric, target)) ==> before.level == gu + Guide(graph, metric, target)[u]
    requires BetweenTurns(adj, Guide(graph, metric, target), source, before, u)
    ensures MemoAgrees(memo, Guide(graph, metric, target))
    ensures Sized(after, |adj|) && after.settled == before.settled
    ensures after.g == g && after.parent == parent && after.parentLength == parentLength && after.heap == heap
    ensures BetweenTurns(adj, Guide(graph, metric, target), source, after, |adj|)
    ensures HeadsInRange(adj) && InBounds(arcs, |adj|)
    ensures after == ScanFrom(Guide(graph, metric, target), before, u, arcs, |arcs|)
  {
    hide MidScan, BetweenTurns, IsGuide, MemoAgrees, StraightLineTime, IsNetwork, ScanFrom, Relaxing, InBounds;
    g, parent, parentLength, heap, memo, after := g0, parent0, parentLength0, heap0, memo0, before;
    ghost var h := Guide(graph, metric, target);
    HeadsOf(adj, u);
    ScanBegins(adj, h, source, after, u, arcs);
    NothingScanned(h, before, u, arcs);
    for i := 0 to |arcs|
      invariant Sized(after, |adj|) && after.settled == before.settled && after.level == before.level && after.g[u] == At(gu)
      invariant after.g == g && after.parent == parent && after.parentLength == parentLength && after.heap == heap
      invariant MemoAgrees(memo, h)
      invariant MidScan(adj, h, source, after, u, arcs, i)
      invariant after == ScanFrom(h, before, u, arcs, i)
    {
      var arc := arcs[i];
      var candidate := gu + arc.travelSeconds;
      ArcInRange(adj, u, i);
      OneMoreScanned(h, before, u, arcs, i);
      if IsSooner(candidate, g[arc.to]) {
        ScanRelaxes(adj, h, source, after, u, i);
        Relabelled(h, after, u, arc);
        after := Relaxing(h, after, u, arc);
        g := g[arc.to := At(candidate)];
        parent := parent[arc.to := u];
        parentLength := parentLength[arc.to := arc.lengthMeters];
        var estimate;
        estimate, memo := Heuristic(graph, metric, target, arc.to, memo);
        heap := heap + multiset{(candidate + estimate, arc.to)};
      } else {
        ScanSkips(adj, h, source, after, u, i);
      }
    }
    ScanEnds(adj, h, source, after, u);
  }

  ghost predicate InBounds(arcs: seq<RoadArc>, n: nat)
  {
    forall j :: 0 <= j < |arcs| ==> arcs[j].to < n
  }

  lemma HeadsOf(adj: Adjacency, u: nat)
    requires IsNetwork(adj) && u < |adj|
    ensures HeadsInRange(adj) && InBounds(adj[u], |adj|) && forall j :: 0 <= j < |adj[u]| ==> adj[u][j].to < |adj|
  {
    assert forall j :: 0 <= j < |adj[u]| ==> adj[u][j] in adj[u];
  }

  lemma NothingScanned(h: seq<real>, s: Search, u: nat, arcs: seq<RoadArc>)
    requires Sized(s, |h|) && u < |h| && Reached(s.g, u) && forall j :: 0 <= j < |arcs| ==> arcs[j].to < |h|
    ensures ScanFrom(h, s, u, arcs, 0) == s
  {
  }

  lemma OneMoreScanned(h: seq<real>, s: Search, u: nat, arcs: seq<RoadArc>, i: nat)
    requires Sized(s, |h|) && u < |h| && Reached(s.g, u) && i < |arcs|
    requires forall j :: 0 <= j < |arcs| ==> arcs[j].to < |h|
    ensures var t := ScanFrom(h, s, u, arcs, i);
            ScanFrom(h, s, u, arcs, i + 1)
            == if IsSooner(t.g[u].secs + arcs[i].travelSeconds, t.g[arcs[i].to]) then Relaxing(h, t, u, arcs[i]) else t
  {
  }

  /** What an improving relaxation changes, field by field. */
  lemma Relabelled(h: seq<real>, s: Search, u: nat, r: RoadArc)
    requires Sized(s, |h|) && u < |h| && r.to < |h| && Reached(s.g, u)
    ensures var t := Relaxing(h, s, u, r);
            && Sized(t, |h|) && t.settled == s.settled && t.level == s.level
            && t.g == s.g[r.to := At(s.g[u].secs + r.travelSeconds)] && t.parent == s.parent[r.to := u]
            && t.parentLength == s.parentLength[r.to := r.lengthMeters]
            && t.heap == s.heap + multiset{(s.g[u].secs + r.travelSeconds + h[r.to], r.to)}
  {
  }

  lemma LabelledRoute(adj: Adjacency, h: seq<real>, source: nat, s: Search, v: nat)
    requires Labelled(adj, h, source, s) && v < |adj|
    ensures s.settled[v] ==> Reached(s.g, v)
    ensures Reached(s.g, v) ==>
              && Driven(adj, source, v, s.g[v].secs)
              && IsRoute(adj, source, RouteTo(adj, source, s, v), v) && Seconds(RouteTo(adj, source, s, v)) <= s.g[v].secs
  {
    if Reached(s.g, v) {
      RouteToIsRoute(adj, source, s, v);
    }
  }

  /** From the final state of any run to what its answer is worth. */
  lemma {:induction false} RealAnswerFrom(adj: Adjacency, h: seq<real>, source: nat, target: nat, s: Search, r: RouteResult)
    requires Labelled(adj, h, source, s) && target < |adj|
    requires s.settled[target] || (s.heap == multiset{} && HeadsReached(adj, s, |adj|))
    requires r.travelSeconds == s.g[target]
    requires if r.travelSeconds.Unreachable? then r.path == [] && r.lengthMeters == 0.0
             else r.path == NodesOf(source, RouteTo(adj, source, s, target))
                  && r.lengthMeters == Meters(RouteTo(adj, source, s, target))
    ensures IsRealAnswer(adj, source, target, r)
  {
    hide NodesQueued, EntriesReached, StampsPast, HeadsReached, IsNetwork, Parented, AllDriven, SettledReached;
    LabelledRoute(adj, h, source, s, target);
    if r.travelSeconds.At? {
      assert Reached(s.g, target);
    } else if CanReach(adj, source, target) {
      var w :| IsRoute(adj, source, w, target);
      NothingLeft(adj, h, source, s, w, target);
    }
  }

  /** What a turn of A* adds to the run. */
  lemma TurnIsStep(adj: Adjacency, h: seq<real>, source: nat, target: nat, run: Run, s: Search, top: (real, nat))
    returns (more: Run)
    requires IsNetwork(adj) && BetweenTurns(adj, h, source, s, |adj|) && Sized(s, |adj|) && IsTop(s, top)
    requires RunsTo(adj, h, source, target, run, s) && target < |adj| && !s.settled[target]
    ensures CanPop(adj, h, s, top)
    ensures RunsTo(adj, h, source, target, more, AfterPop(adj, h, target, s, top))
  {
    hide AfterPop, Searching, SettledRelaxed, HeadsReached, IsGuide;
    TurnBegins(adj, h, source, s, top);
    more := Run(run.states + [AfterPop(adj, h, target, s, top)], run.pops + [top]);
    RunGoesOn(adj, h, source, target, run, s, top, AfterPop(adj, h, target, s, top));
  }

  /** The run so far has led to this state. */
  ghost predicate RunsTo(adj: Adjacency, h: seq<real>, source: nat, target: nat, run: Run, s: Search)
  {
    IsPartialRun(adj, h, source, target, run) && run.states[|run.pops|] == s
  }

  lemma NewRun(adj: Adjacency, h: seq<real>, source: nat, target: nat, s: Search) returns (run: Run)
    requires IsStart(h, source, s) && target < |h|
    ensures RunsTo(adj, h, source, target, run, s)
  {
    run := Run([s], []);
    RunStarts(adj, h, source, target, s);
  }

  lemma RunHasEnded(adj: Adjacency, h: seq<real>, source: nat, target: nat, run: Run, s: Search)
    requires RunsTo(adj, h, source, target, run, s) && Ended(adj, h, source, target, s) && Sized(s, |adj|) && target < |adj| == |h|
    ensures IsEndedRun(adj, h, source, target, run, s.g[target])
  {
    hide IsPartialRun, Labelled, Concluded, HeadsReached;
  }

  lemma TurnEnds(adj: Adjacency, h: seq<real>, target: nat, s: Search, top: (real, nat))
    requires CanPop(adj, h, s, top)
    ensures Sized(Popped(s, |h|, top), |h|) && Reached(Popped(s, |h|, top).g, top.1)
    ensures forall j :: 0 <= j < |adj[top.1]| ==> adj[top.1][j].to < |h|
    ensures AfterPop(adj, h, target, s, top) ==
            if s.settled[top.1] || top.1 == target then Popped(s, |h|, top)
            else ScanFrom(h, Popped(s, |h|, top), top.1, adj[top.1], |adj[top.1]|)
  {
    assert forall j :: 0 <= j < |adj[top.1]| ==> adj[top.1][j] in adj[top.1];
  }

  lemma PopChanges(s: Search, n: nat, top: (real, nat))
    requires Sized(s, n) && top.1 < n
    ensures var t := Popped(s, n, top);
            && Sized(t, n) && t.g == s.g && t.parent == s.parent && t.parentLength == s.parentLength
            && t.heap == s.heap - multiset{top}
            && t.settled == s.settled[top.1 := true]
            && (!s.settled[top.1] ==> t.level == top.0)
  {
  }

  lemma KeyOfTop(adj: Adjacency, h: seq<real>, source: nat, s: Search, top: (real, nat))
    requires BetweenTurns(adj, h, source, s, |adj|) && Sized(s, |adj|) && IsTop(s, top) && IsGuide(adj, h)
    ensures top.1 < |adj| && Reached(s.g, top.1) && (!s.settled[top.1] ==> top.0 == s.g[top.1].secs + h[top.1])
  {
    hide Searching, SettledRelaxed, HeadsReached, IsGuide, Labelled;
    Pop(adj, h, source, s, top);
  }

  /** The search ends when the target is popped, ... */
  lemma EndsAtTarget(adj: Adjacency, h: seq<real>, source: nat, target: nat, s: Search, top: (real, nat))
    requires BetweenTurns(adj, h, source, s, |adj|) && Sized(s, |adj|) && IsTop(s, top)
    requires top.1 == target && target < |adj| && !s.settled[target]
    ensures Ended(adj, h, source, target, Popped(s, |adj|, top))
  {
    hide Searching, SettledRelaxed, IsGuide, Labelled, Concluded, HeadsReached;
    TurnBegins(adj, h, source, s, top);
    PopChanges(s, |adj|, top);
    if IsGuide(adj, h) {
      StopAtTarget(adj, h, source, target, s, top);
    }
  }

  /** ... or when nothing is left to pop. */
  lemma EndsEmpty(adj: Adjacency, h: seq<real>, source: nat, target: nat, s: Search)
    requires BetweenTurns(adj, h, source, s, |adj|) && Sized(s, |adj|) && target < |adj| && !s.settled[target] && s.heap == multiset{}
    ensures Ended(adj, h, source, target, s)
  {
    hide Searching, SettledRelaxed, IsGuide, Labelled, Concluded, HeadsReached;
    if IsGuide(adj, h) {
      StopWhenEmpty(adj, h, source, target, s);
    }
  }

  ghost predicate Ended(adj: Adjacency, h: seq<real>, source: nat, target: nat, s: Search)
  {
    && Labelled(adj, h, source, s) && Sized(s, |adj|) && target < |adj|
    && (s.settled[target] || (s.heap == multiset{} && HeadsReached(adj, s, |adj|)))
    && (IsGuide(adj, h) ==> Concluded(adj, h, source, target, s))
  }

  lemma EndedFacts(adj: Adjacency, h: seq<real>, source: nat, target: nat, s: Search)
    requires Ended(adj, h, source, target, s)
    ensures Sized(s, |adj|) && source < |adj| && target < |adj| && Parented(adj, source, s) && Reached(s.g, source)
  {
    hide Concluded, HeadsReached, IsGuide, Parented;
  }

  lemma AnswerOfEnd(adj: Adjacency, h: seq<real>, source: nat, target: nat, s: Search, r: RouteResult)
    requires Ended(adj, h, source, target, s) && IsNetwork(adj) && |h| == |adj| && Sized(s, |adj|) && Parented(adj, source, s)
    requires r.nodesSettled == |SettledSet(s.settled, |adj|)| && r.travelSeconds == s.g[target]
    requires if r.travelSeconds.Unreachable? then r.path == [] && r.lengthMeters == 0.0
             else r.path == NodesOf(source, RouteTo(adj, source, s, target))
                  && r.lengthMeters == Meters(RouteTo(adj, source, s, target))
    ensures IsRealAnswer(adj, source, target, r)
    ensures IsGuide(adj, h) ==>
              IsAnswer(adj, source, target, r) && SettledBy(adj, h, source, target, r, SettledSet(s.settled, |adj|))
  {
    hide Concluded, HeadsReached, IsGuide, Labelled, IsAnswer, SettledBy, IsRealAnswer, Parented, RouteTo, NodesOf, Meters;
    RealAnswerFrom(adj, h, source, target, s, r);
    if IsGuide(adj, h) {
      AnswerFrom(adj, h, source, target, s, r);
    }
  }

  /** A*: a real answer on every drivable graph, and the exact one whenever the heuristic is
      consistent towards the target.  `run` is the search itself, turn by turn. */
  method AStar(graph: Graph, metric: Metric, source: int, target: int)
    returns (r: Result<RouteResult>, ghost settledNodes: set<nat>, ghost run: Run)
    requires Drivable(graph)
    ensures r.Ok? <==> InGraph(graph, source) && InGraph(graph, target)
    ensures r.Ok? ==> IsRealAnswer(graph.Forward(), source, target, r.value) && r.value.nodesSettled == |settledNodes|
    ensures r.Ok? ==> IsEndedRun(graph.Forward(), Guide(graph, metric, target), source, target, run, r.value.travelSeconds)
    ensures r.Ok? && IsGuide(graph.Forward(), Guide(graph, metric, target)) ==>
              && IsAnswer(graph.Forward(), source, target, r.value)
              && SettledBy(graph.Forward(), Guide(graph, metric, target), source, target, r.value, settledNodes)
  {
    hide BetweenTurns, RunsTo, Ended, IsNetwork, Unset, IsCsr, IsAnswer, IsRealAnswer, SettledBy, MemoAgrees, StraightLineTime, IsGuide,
      IsPartialRun, IsEndedRun, AfterPop, CanPop, Popped, IsStart, ScanFrom, Parented, NodesOf, RouteTo, Meters;
    settledNodes, run := {}, Run([], []);
    if !InGraph(graph, source) {
      return OutOfRange("source"), {}, run;
    }
    if !InGraph(graph, target) {
      return OutOfRange("target"), {}, run;
    }
    ghost var adj := graph.Forward();
    var n := |graph.nodes|;
    ghost var h := Guide(graph, metric, target);
    var memo: seq<Memo> := seq(n, _ => NotComputed);
    MemoEmpty(memo, h);
    var g := seq(n, _ => Unreachable);
    var parent: seq<int> := seq(n, _ => -1);
    var parentLength := seq(n, _ => 0.0);
    var settled := seq(n, _ => false);
    var nodesSettled: nat := 0;
    g := g[source := At(0.0)];
    var estimate;
    estimate, memo := Heuristic(graph, metric, target, source, memo);
    var heap: Heap<real> := multiset{(estimate, source as nat)};
    ghost var s := Search(g, parent, parentLength, settled, heap, seq(n, _ => RoadArc(0, 0.0, 0.0)), seq(n, _ => 0), 1, h[source]);
    assert IsStart(h, source, s) by { FreshStart(h, source, s); }
    TurnsBegin(adj, h, source, s);
    run := NewRun(adj, h, source, target, s);
    ghost var stopped := false;
    NoneSettled(settled, n);

    while heap != multiset{}
      invariant Sized(s, n) && s.g == g && s.parent == parent && s.parentLength == parentLength
      invariant s.settled == settled && s.heap == heap && MemoAgrees(memo, h)
      invariant nodesSettled + Unset(settled, n) == n
      invariant !stopped && !settled[target]
      invariant BetweenTurns(adj, h, source, s, n)
      invariant RunsTo(adj, h, source, target, run, s)
      decreases Unset(settled, n), |heap|
    {
      ghost var before := s;
      var top, rest := PopLeastReal(heap);
      var v := top.1;
      heap := rest;
      TurnBegins(adj, h, source, before, top);
      run := TurnIsStep(adj, h, source, target, run, before, top);
      TurnEnds(adj, h, target, before, top);
      PopChanges(before, n, top);
      s := Popped(before, n, top);
      if settled[v] {
        assert settled[v := true] == settled;
        continue;
      }
      UnsetDrops(settled, v, n);
      settled := settled[v := true];
      nodesSettled := nodesSettled + 1;
      if v == target {
        EndsAtTarget(adj, h, source, target, before, top);
        stopped := true;
        break;
      }
      var gv := g[v].secs;
      if IsGuide(adj, h) {
        KeyOfTop(adj, h, source, before, top);
      }
      g, parent, parentLength, heap, memo, s :=
        ScanGuided(graph, metric, target, graph.ArcsOut(v), v, gv, g, parent, parentLength, heap, memo, adj, source, s);
    }
    if !stopped {
      EndsEmpty(adj, h, source, target, s);
    }
    EndedFacts(adj, h, source, target, s);
    RunHasEnded(adj, h, source, target, run, s);
    SettledSetSize(settled, n);
    settledNodes := SettledSet(settled, n);
    var result := ResultFor(g[target], n, parent, parentLength, source, target, nodesSettled, adj, s);
    AnswerOfEnd(adj, h, source, target, s, result);
    r := Ok(result);
  }

  lemma FreshStart(h: seq<real>, source: nat, s: Search)
    requires source < |h| && s.g == seq(|h|, _ => Unreachable)[source := At(0.0)] && s.parent == seq(|h|, _ => -1)
    requires |s.parentLength| == |s.via| == |h| && s.settled == seq(|h|, _ => false)
    requires s.heap == multiset{(h[source], source)} && s.stamp == seq(|h|, _ => 0) && s.clock == 1 && s.level == h[source]
    ensures IsStart(h, source, s)
  {
  }

  lemma MemoEmpty(memo: seq<Memo>, h: seq<real>)
    requires |memo| == |h| && memo == seq(|h|, _ => NotComputed)
    ensures MemoAgrees(memo, h)
  {
  }

  // ---- The two searches compared ---------------------------------------------------------------

  /** Same travel time, or both unreachable. */
  lemma SameTravelTime(adj: Adjacency, source: nat, target: nat, dijkstra: RouteResult, astar: RouteResult)
    requires IsAnswer(adj, source, target, dijkstra) && IsAnswer(adj, source, target, astar)
    ensures dijkstra.travelSeconds == astar.travelSeconds
  {
    if dijkstra.travelSeconds.At? && astar.travelSeconds.At? {
      FastestIsUnique(adj, source, target, dijkstra.travelSeconds.secs, astar.travelSeconds.secs);
    }
  }

  /** No other node lies where the target lies. */
  ghost predicate TargetStandsAlone(graph: Graph, metric: Metric, target: nat)
    requires target < |graph.nodes|
  {
    forall v: nat :: v < |graph.nodes| && v != target ==> 0.0 < metric(graph.nodes[v], graph.nodes[target])
  }

  lemma {:induction false} WithoutSpeedNothingMoves(graph: Graph, s: nat, w: Route, t: nat)
    requires graph.Indexed() && ArcsNeedSpeed(graph) && graph.maxSpeedMps <= 0.0
    requires IsRoute(graph.Forward(), s, w, t)
    ensures s == t
  {
  }

  lemma GuideElsewhere(graph: Graph, metric: Metric, target: nat, v: nat)
    requires target < |graph.nodes| && v < |graph.nodes| && v != target
    requires TargetStandsAlone(graph, metric, target) && 0.0 < graph.maxSpeedMps
    ensures 0.0 < Guide(graph, metric, target)[v]
  {
    var m := metric(graph.nodes[v], graph.nodes[target]);
    assert m / graph.maxSpeedMps * graph.maxSpeedMps == m;
  }

  /** A* never settles a node that Dijkstra would not settle, so it never settles more. */
  lemma {:induction false} AStarSettlesNoMore(graph: Graph, metric: Metric, source: nat, target: nat,
                                              dijkstra: RouteResult, astar: RouteResult, byDijkstra: set<nat>, byAStar: set<nat>)
    requires Drivable(graph) && IsMetric(metric) && RespectsStraightLine(graph, metric) && ArcsNeedSpeed(graph)
    requires source < |graph.nodes| && target < |graph.nodes| && TargetStandsAlone(graph, metric, target)
    requires IsAnswer(graph.Forward(), source, target, dijkstra) && IsAnswer(graph.Forward(), source, target, astar)
    requires SettledBy(graph.Forward(), NoGuide(|graph.nodes|), source, target, dijkstra, byDijkstra)
    requires SettledBy(graph.Forward(), Guide(graph, metric, target), source, target, astar, byAStar)
    ensures byAStar <= byDijkstra
    ensures astar.nodesSettled <= dijkstra.nodesSettled
  {
    var adj, h := graph.Forward(), Guide(graph, metric, target);
    SameTravelTime(adj, source, target, dijkstra, astar);
    GuideIsConsistent(graph, metric, target);
    forall v | v in byAStar ensures v in byDijkstra {
      SettledByAStarToo(graph, metric, source, target, dijkstra, astar, byDijkstra, byAStar, v);
    }
    SubsetSize(byAStar, byDijkstra);
  }

  lemma {:induction false} SettledByAStarToo(graph: Graph, metric: Metric, source: nat, target: nat,
                                             dijkstra: RouteResult, astar: RouteResult, byDijkstra: set<nat>, byAStar: set<nat>, v: nat)
    requires Drivable(graph) && RespectsStraightLine(graph, metric) && ArcsNeedSpeed(graph)
    requires source < |graph.nodes| && target < |graph.nodes| && TargetStandsAlone(graph, metric, target)
    requires dijkstra.travelSeconds == astar.travelSeconds && Guide(graph, metric, target)[target] == 0.0
    requires SettledBy(graph.Forward(), NoGuide(|graph.nodes|), source, target, dijkstra, byDijkstra)
    requires SettledBy(graph.Forward(), Guide(graph, metric, target), source, target, astar, byAStar)
    requires v in byAStar
    ensures v in byDijkstra
  {
    var adj, h := graph.Forward(), Guide(graph, metric, target);
    if v !in byDijkstra && v != target {
      var w :| IsRoute(adj, source, w, v);
      assert dijkstra.travelSeconds.At?;
      var d :| IsFastest(adj, source, v, d) && d + h[v] <= astar.travelSeconds.secs;
      var x :| IsRoute(adj, source, x, v) && Seconds(x) == d;
      assert dijkstra.travelSeconds.secs <= d;
      if graph.maxSpeedMps > 0.0 {
        GuideElsewhere(graph, metric, target, v);
      } else {
        WithoutSpeedNothingMoves(graph, source, x, v);
        assert target in byAStar;
        var y :| IsRoute(adj, source, y, target);
        WithoutSpeedNothingMoves(graph, source, y, target);
      }
    }
  }

  // ---- One-to-all ----------------------------------------------------------------------------------

  /** Times from the source, or (over the reverse index) from everywhere to it. */
  datatype SearchDirection = Forward | Backward

  ghost predicate IsTree(adj: Adjacency, source: nat, dist: seq<Time>)
  {
    && |dist| == |adj|
    && forall v: nat :: v < |adj| ==>
         if dist[v].Unreachable? then !CanReach(adj, source, v) else IsFastest(adj, source, v, dist[v].secs)
  }

  lemma {:induction false} TreeFrom(adj: Adjacency, h: seq<real>, source: nat, s: Search)
    requires Searching(adj, h, source, s) && SettledRelaxed(adj, s, |adj|) && s.heap == multiset{}
    ensures IsTree(adj, source, s.g)
  {
    Exhausted(adj, h, source, s);
    forall v: nat | v < |adj|
      ensures if s.g[v].Unreachable? then !CanReach(adj, source, v) else IsFastest(adj, source, v, s.g[v].secs)
    {
      if Reached(s.g, v) {
        SettledIsFastest(adj, source, s, v);
      }
    }
  }

  /** One sweep settles the whole reachable part of the (possibly reversed) graph. */
  method ShortestPathTree(graph: Graph, source: int, direction: SearchDirection) returns (r: Result<seq<Time>>)
    requires Drivable(graph) && IsNetwork(graph.Backward())
    ensures r.Ok? <==> InGraph(graph, source)
    ensures r.Ok? ==>
              IsTree(if direction.Forward? then graph.Forward() else graph.Backward(), source, r.value)
  {
    hide Searching, SettledRelaxed, IsNetwork, Unset, IsCsr, IsTree;
    if !InGraph(graph, source) {
      return OutOfRange("source");
    }
    ghost var adj := if direction.Forward? then graph.Forward() else graph.Backward();
    var n := |graph.nodes|;
    ghost var h := NoGuide(n);
    NoGuideIsGuide(adj);
    var dist := seq(n, _ => Unreachable);
    var parent: seq<int> := seq(n, _ => -1);
    var parentLength := seq(n, _ => 0.0);
    var settled := seq(n, _ => false);
    dist := dist[source := At(0.0)];
    var heap: Heap<real> := multiset{(0.0, source as nat)};
    ghost var s := Search(dist, parent, parentLength, settled, heap, seq(n, _ => RoadArc(0, 0.0, 0.0)), seq(n, _ => 0), 1, 0.0);
    Start(adj, h, source, s);

    while heap != multiset{}
      invariant Sized(s, n) && s.g == dist && s.parent == parent && s.parentLength == parentLength
      invariant s.settled == settled && s.heap == heap
      invariant Searching(adj, h, source, s) && SettledRelaxed(adj, s, n)
      decreases Unset(settled, n), |heap|
    {
      ghost var before := s;
      var top, rest := PopLeastReal(heap);
      var d, v := top.0, top.1;
      heap := rest;
      Pop(adj, h, source, before, top);
      s := Popped(before, n, top);
      if settled[v] {
        continue;
      }
      UnsetDrops(settled, v, n);
      settled := settled[v := true];
      var arcs := if direction.Forward? then graph.ArcsOut(v) else graph.ArcsIn(v);
      dist, parent, parentLength, heap, s := ScanPlain(arcs, v, d, dist, parent, parentLength, heap, adj, source, s);
    }
    TreeFrom(adj, h, source, s);
    r := Ok(dist);
  }

  /** A backward tree answers "how long from v to the source?" for every v at once. */
  lemma {:induction false} BackwardTreeIsForwardTime(graph: Graph, pending: seq<PendingArc>, source: nat, dist: seq<Time>, v: nat)
    requires graph.Indexed() && ArcsInRange(pending, |graph.nodes|) && IndexesArcs(graph.csr, |graph.nodes|, pending)
    requires source < |graph.nodes| && v < |graph.nodes| && IsTree(graph.Backward(), source, dist)
    ensures dist[v].Unreachable? <==> !CanReach(graph.Forward(), v, source)
    ensures dist[v].At? ==> IsFastest(graph.Forward(), v, source, dist[v].secs)
  {
    IncomingIsTranspose(graph.csr, |graph.nodes|, pending);
    ReachReversed(graph.Forward(), graph.Backward(), source, v);
    if dist[v].At? {
      FastestReversed(graph.Forward(), graph.Backward(), source, v, dist[v].secs);
    }
  }

  /** The table of one-to-all results for a list of hot origins, row by row; the first origin
      out of range stops the whole build. */
  method BuildDistanceCache(graph: Graph, origins: seq<int>, direction: SearchDirection) returns (r: Result<seq<Time>>)
    requires Drivable(graph) && IsNetwork(graph.Backward())
    ensures r.Ok? <==> forall i :: 0 <= i < |origins| ==> InGraph(graph, origins[i])
    ensures r.Ok? ==> |r.value| == |origins| * |graph.nodes|
    ensures r.Ok? ==> forall slot: nat :: slot < |origins| ==> RowIsTree(graph, origins, direction, r.value, slot)
  {
    hide IsTree, IsNetwork, IsCsr;
    var n := |graph.nodes|;
    var table := [];
    for slot := 0 to |origins|
      invariant |table| == slot * n
      invariant forall i: nat :: i < slot ==> InGraph(graph, origins[i]) && RowIsTree(graph, origins, direction, table, i)
    {
      var tree := ShortestPathTree(graph, origins[slot], direction);
      if tree.OutOfRange? {
        return OutOfRange(tree.what);
      }
      ghost var before := table;
      TreeSize(if direction.Forward? then graph.Forward() else graph.Backward(), origins[slot], tree.value);
      table := table + tree.value;
      assert (slot + 1) * n == slot * n + n;
      assert table[slot * n..(slot + 1) * n] == tree.value;
      forall i: nat | i < slot ensures RowIsTree(graph, origins, direction, table, i) {
        RowKept(graph, origins, direction, before, table, i);
      }
    }
    r := Ok(table);
  }

  ghost predicate RowIsTree(graph: Graph, origins: seq<int>, direction: SearchDirection, table: seq<Time>, slot: nat)
  {
    && graph.Indexed() && slot < |origins| && 0 <= origins[slot]
    && slot * |graph.nodes| <= (slot + 1) * |graph.nodes| <= |table|
    && IsTree(if direction.Forward? then graph.Forward() else graph.Backward(), origins[slot],
              table[slot * |graph.nodes|..(slot + 1) * |graph.nodes|])
  }

  lemma RowKept(graph: Graph, origins: seq<int>, direction: SearchDirection, before: seq<Time>, after: seq<Time>, slot: nat)
    requires RowIsTree(graph, origins, direction, before, slot) && before <= after
    ensures RowIsTree(graph, origins, direction, after, slot)
  {
    var a, b := slot * |graph.nodes|, (slot + 1) * |graph.nodes|;
    assert after[a..b] == before[a..b];
  }

  lemma TreeSize(adj: Adjacency, source: nat, dist: seq<Time>)
    requires IsTree(adj, source, dist)
    ensures |dist| == |adj|
  {
  }
}
