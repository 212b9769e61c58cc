/** Pricing pairs by real driving time: one backward sweep per rider, and no edge for a
    driver who cannot get there. */
module RoadEdges {
  import opened Basics
  import opened MatchingNetwork
  import opened CostMatrix
  import opened NearestTheory
  import opened QuadModel
  import opened QuadTree
  import opened LabelSearch
  import opened GuidedSearch
  import opened RoadGraph
  import opened RoadRoutes
  import opened Router

  datatype GeoPoint = GeoPoint(id: int, lat: real, lon: real)

  /** Non-negative seconds to integer units, halves rounded up. */
  function ScaledSeconds(seconds: real): int
  {
    (seconds * COST_SCALE + 0.5).Floor
  }

  /** What pricing needs of a graph: it indexes some list of arcs, none with negative time. */
  ghost predicate Priceable(graph: Graph, pending: seq<PendingArc>)
  {
    && Drivable(graph) && RoadRoutes.IsNetwork(graph.Backward())
    && ArcsInRange(pending, |graph.nodes|) && IndexesArcs(graph.csr, |graph.nodes|, pending)
  }

  /** `cost` is the fastest driving time between the nodes, in integer units. */
  ghost predicate DriveCost(graph: Graph, from: nat, to: nat, cost: int)
    requires graph.Indexed()
  {
    exists secs :: IsFastest(graph.Forward(), from, to, secs) && cost == ScaledSeconds(secs)
  }

  /** `cost` is a thousand times the fastest driving time, rounded to the nearest integer. */
  ghost predicate CostsItsTime(graph: Graph, from: nat, to: nat, cost: int)
    requires graph.Indexed()
  {
    exists secs :: IsFastest(graph.Forward(), from, to, secs) && -0.5 <= 1000.0 * secs - cost as real < 0.5
  }

  lemma DriveCostIsTime(graph: Graph, from: nat, to: nat, cost: int)
    requires graph.Indexed() && DriveCost(graph, from, to, cost)
    ensures CostsItsTime(graph, from, to, cost)
  {
    hide IsFastest, IsCsr;
    var secs :| IsFastest(graph.Forward(), from, to, secs) && cost == ScaledSeconds(secs);
    assert -0.5 <= 1000.0 * secs - cost as real < 0.5;
  }

  lemma DriveCostUnique(graph: Graph, from: nat, to: nat, a: int, b: int)
    requires graph.Indexed() && DriveCost(graph, from, to, a) && DriveCost(graph, from, to, b)
    ensures a == b
  {
    hide IsFastest;
    var s :| IsFastest(graph.Forward(), from, to, s) && a == ScaledSeconds(s);
    var t :| IsFastest(graph.Forward(), from, to, t) && b == ScaledSeconds(t);
    FastestIsUnique(graph.Forward(), from, to, s, t);
  }

  /** The sweep from the rider's node prices every driver's trip to the rider. */
  ghost predicate SweepTo(graph: Graph, to: nat, time: seq<Time>)
    requires graph.Indexed()
  {
    && |time| == |graph.nodes|
    && forall v: nat :: v < |time| ==>
         && (time[v].At? <==> CanReach(graph.Forward(), v, to))
         && (time[v].At? ==> DriveCost(graph, v, to, ScaledSeconds(time[v].secs)))
  }

  method SweepBackward(graph: Graph, to: nat, ghost pending: seq<PendingArc>) returns (time: seq<Time>)
    requires Priceable(graph, pending) && to < |graph.nodes|
    ensures SweepTo(graph, to, time)
  {
    hide RoadRoutes.IsNetwork, IsCsr, IndexesArcs, IsTree, IsFastest, CanReach;
    var tree := ShortestPathTree(graph, to, Backward);
    time := tree.value;
    TreeSize(graph.Backward(), to, time);
    forall v: nat | v < |time|
      ensures time[v].At? <==> CanReach(graph.Forward(), v, to)
      ensures time[v].At? ==> DriveCost(graph, v, to, ScaledSeconds(time[v].secs))
    {
      BackwardTreeIsForwardTime(graph, pending, to, time, v);
    }
  }

  // ---- Snapping -----------------------------------------------------------------------------------

  function Snapped(points: seq<GeoPoint>, snap: GeoPoint -> nat): seq<nat>
  {
    seq(|points|, i requires 0 <= i < |points| => snap(points[i]))
  }

  ghost predicate SnapsInto(graph: Graph, snap: GeoPoint -> nat)
  {
    forall p: GeoPoint :: snap(p) < |graph.nodes|
  }

  method SnapAll(points: seq<GeoPoint>, snap: GeoPoint -> nat) returns (nodes: seq<nat>)
    ensures nodes == Snapped(points, snap)
  {
    nodes := [];
    for i := 0 to |points|
      invariant |nodes| == i && forall j :: 0 <= j < i ==> nodes[j] == snap(points[j])
    {
      nodes := nodes + [snap(points[i])];
    }
  }

  // ---- Dense ----------------------------------------------------------------------------------------

  ghost predicate RoadPriced(graph: Graph, riderNodes: seq<nat>, driverNodes: seq<nat>, e: MatchEdge)
    requires graph.Indexed()
  {
    && MatchingNetwork.InRange(|riderNodes|, |driverNodes|, e)
    && DriveCost(graph, driverNodes[e.driver], riderNodes[e.rider], e.cost)
  }

  /** Exactly the pairs whose driver can reach the rider, each once, at the fastest time. */
  ghost predicate IsRoadDense(graph: Graph, riderNodes: seq<nat>, driverNodes: seq<nat>, edges: seq<MatchEdge>)
    requires graph.Indexed()
  {
    && PairsOnce(edges)
    && (forall e :: e in edges <==> RoadPriced(graph, riderNodes, driverNodes, e))
    && forall i: nat, j: nat :: i < |riderNodes| && j < |driverNodes| ==>
         (j in Shortlisted(edges, i) <==> CanReach(graph.Forward(), driverNodes[j], riderNodes[i]))
  }

  /** The first `m` candidates of rider `i` have been priced. */
  ghost predicate RowPricedUpTo(graph: Graph, to: nat, driverNodes: seq<nat>, i: nat, candidates: seq<nat>, row: seq<MatchEdge>, m: nat)
    requires graph.Indexed() && m <= |candidates|
  {
    && PairsOnce(row)
    && forall e :: e in row <==>
         && e.rider == i && 0 <= e.driver < |driverNodes| && e.driver in candidates[..m]
         && DriveCost(graph, driverNodes[e.driver], to, e.cost)
  }

  lemma RowStep(graph: Graph, to: nat, driverNodes: seq<nat>, i: nat, candidates: seq<nat>, row: seq<MatchEdge>, m: nat,
                time: seq<Time>)
    requires graph.Indexed() && m < |candidates| && Distinct(candidates)
    requires RowPricedUpTo(graph, to, driverNodes, i, candidates, row, m) && SweepTo(graph, to, time)
    requires candidates[m] < |driverNodes| && driverNodes[candidates[m]] < |time|
    ensures var t := time[driverNodes[candidates[m]]];
            RowPricedUpTo(graph, to, driverNodes, i, candidates,
                          if t.Unreachable? then row else row + [MatchEdge(i, candidates[m], ScaledSeconds(t.secs))], m + 1)
  {
    hide ScaledSeconds, DriveCost;
    var j := candidates[m];
    var t := time[driverNodes[j]];
    assert candidates[..m + 1] == candidates[..m] + [j];
    assert j !in candidates[..m];
    if t.Unreachable? {
      forall cost | DriveCost(graph, driverNodes[j], to, cost) ensures false {
        NoCostUnreachable(graph, driverNodes[j], to, cost);
      }
    } else {
      var e := MatchEdge(i, j, ScaledSeconds(t.secs));
      PairAdded(row, e);
      forall d: MatchEdge | d.rider == i && d.driver == j && DriveCost(graph, driverNodes[j], to, d.cost) ensures d == e {
        DriveCostUnique(graph, driverNodes[j], to, d.cost, e.cost);
      }
    }
  }

  lemma NoCostUnreachable(graph: Graph, from: nat, to: nat, cost: int)
    requires graph.Indexed() && DriveCost(graph, from, to, cost)
    ensures CanReach(graph.Forward(), from, to)
  {
    var s :| IsFastest(graph.Forward(), from, to, s) && cost == ScaledSeconds(s);
  }

  /** All of one rider's edges, added to those of earlier riders. */
  lemma RoadRowsApart(graph: Graph, riderNodes: seq<nat>, driverNodes: seq<nat>, edges: seq<MatchEdge>, row: seq<MatchEdge>,
                      i: nat, candidates: seq<nat>)
    requires graph.Indexed() && i < |riderNodes| && PairsOnce(edges) && forall e :: e in edges ==> e.rider < i
    requires RowPricedUpTo(graph, riderNodes[i], driverNodes, i, candidates, row, |candidates|)
    ensures PairsOnce(edges + row)
  {
    hide DriveCost;
    RowsApart(edges, row, i);
  }

  ghost function UpTo(n: nat): (r: seq<nat>)
    ensures |r| == n && (forall j: nat :: j < n ==> r[j] == j) && forall j: nat :: j in r <==> j < n
  {
    if n == 0 then [] else UpTo(n - 1) + [n - 1]
  }

  method PriceEveryDriver(graph: Graph, to: nat, driverNodes: seq<nat>, i: nat, time: seq<Time>) returns (row: seq<MatchEdge>)
    requires graph.Indexed() && SweepTo(graph, to, time)
    requires forall j :: 0 <= j < |driverNodes| ==> driverNodes[j] < |time|
    ensures RowPricedUpTo(graph, to, driverNodes, i, UpTo(|driverNodes|), row, |driverNodes|)
  {
    hide DriveCost, SweepTo, RowPricedUpTo, ScaledSeconds, IsCsr;
    row := [];
    ghost var all := UpTo(|driverNodes|);
    EmptyRow(graph, to, driverNodes, i, all);
    for j := 0 to |driverNodes|
      invariant RowPricedUpTo(graph, to, driverNodes, i, all, row, j)
    {
      RowStep(graph, to, driverNodes, i, all, row, j, time);
      if time[driverNodes[j]].Unreachable? {
        continue;
      }
      row := row + [MatchEdge(i, j, ScaledSeconds(time[driverNodes[j]].secs))];
    }
  }

  lemma EmptyRow(graph: Graph, to: nat, driverNodes: seq<nat>, i: nat, candidates: seq<nat>)
    requires graph.Indexed()
    ensures RowPricedUpTo(graph, to, driverNodes, i, candidates, [], 0)
  {
  }

  ghost predicate DenseUpTo(graph: Graph, riderNodes: seq<nat>, driverNodes: seq<nat>, edges: seq<MatchEdge>, m: nat)
    requires graph.Indexed()
  {
    PairsOnce(edges) && forall e :: e in edges <==> RoadPriced(graph, riderNodes, driverNodes, e) && e.rider < m
  }

  lemma DenseStep(graph: Graph, riderNodes: seq<nat>, driverNodes: seq<nat>, edges: seq<MatchEdge>, row: seq<MatchEdge>, i: nat)
    requires graph.Indexed() && i < |riderNodes| && DenseUpTo(graph, riderNodes, driverNodes, edges, i)
    requires RowPricedUpTo(graph, riderNodes[i], driverNodes, i, UpTo(|driverNodes|), row, |driverNodes|)
    ensures DenseUpTo(graph, riderNodes, driverNodes, edges + row, i + 1)
  {
    hide DriveCost, IsCsr;
    var all := UpTo(|driverNodes|);
    assert all[..|all|] == all;
    RoadRowsApart(graph, riderNodes, driverNodes, edges, row, i, all);
  }

  lemma DenseDone(graph: Graph, pending: seq<PendingArc>, riderNodes: seq<nat>, driverNodes: seq<nat>, edges: seq<MatchEdge>)
    requires Priceable(graph, pending) && DenseUpTo(graph, riderNodes, driverNodes, edges, |riderNodes|)
    requires forall i :: 0 <= i < |riderNodes| ==> riderNodes[i] < |graph.nodes|
    requires forall j :: 0 <= j < |driverNodes| ==> driverNodes[j] < |graph.nodes|
    requires forall i: nat, j: nat :: i < |riderNodes| && j < |driverNodes| && CanReach(graph.Forward(), driverNodes[j], riderNodes[i])
               ==> exists cost :: DriveCost(graph, driverNodes[j], riderNodes[i], cost)
    ensures IsRoadDense(graph, riderNodes, driverNodes, edges)
  {
    hide DriveCost, IsCsr, RoadRoutes.IsNetwork, IndexesArcs, CanReach;
    forall i: nat, j: nat | i < |riderNodes| && j < |driverNodes|
      ensures j in Shortlisted(edges, i) <==> CanReach(graph.Forward(), driverNodes[j], riderNodes[i])
    {
      if j in Shortlisted(edges, i) {
        var e :| e in edges && e.rider == i && e.driver == j;
        NoCostUnreachable(graph, driverNodes[j], riderNodes[i], e.cost);
      }
      if CanReach(graph.Forward(), driverNodes[j], riderNodes[i]) {
        var cost :| DriveCost(graph, driverNodes[j], riderNodes[i], cost);
        assert RoadPriced(graph, riderNodes, driverNodes, MatchEdge(i, j, cost));
        assert MatchEdge(i, j, cost) in edges;
      }
    }
  }

  lemma SweepPrices(graph: Graph, to: nat, time: seq<Time>, driverNodes: seq<nat>)
    requires graph.Indexed() && SweepTo(graph, to, time)
    requires forall j :: 0 <= j < |driverNodes| ==> driverNodes[j] < |graph.nodes|
    ensures forall j: nat :: j < |driverNodes| && CanReach(graph.Forward(), driverNodes[j], to) ==>
              exists cost :: DriveCost(graph, driverNodes[j], to, cost)
  {
  }

  /** Every rider against every driver who can reach it. */
  method BuildRoadEdgesDense(riders: seq<GeoPoint>, drivers: seq<GeoPoint>, graph: Graph, snap: GeoPoint -> nat,
                             ghost pending: seq<PendingArc>) returns (edges: seq<MatchEdge>)
    requires Priceable(graph, pending) && SnapsInto(graph, snap)
    ensures IsRoadDense(graph, Snapped(riders, snap), Snapped(drivers, snap), edges)
    ensures TimedEdges(graph, riders, drivers, snap, edges)
  {
    hide TimedEdges, DriveCost, SweepTo, RowPricedUpTo, DenseUpTo, IsCsr, RoadRoutes.IsNetwork, IndexesArcs, CanReach, IsRoadDense;
    edges := [];
    if riders == [] || drivers == [] {
      NobodyToPrice(graph, Snapped(riders, snap), Snapped(drivers, snap));
      DenseIsTimed(graph, riders, drivers, snap, edges);
      return;
    }
    var riderNodes := SnapAll(riders, snap);
    var driverNodes := SnapAll(drivers, snap);
    NoneDense(graph, riderNodes, driverNodes);
    for i := 0 to |riders|
      invariant DenseUpTo(graph, riderNodes, driverNodes, edges, i)
      invariant forall h: nat, j: nat :: h < i && j < |driverNodes| && CanReach(graph.Forward(), driverNodes[j], riderNodes[h])
                  ==> exists cost :: DriveCost(graph, driverNodes[j], riderNodes[h], cost)
    {
      var time := SweepBackward(graph, riderNodes[i], pending);
      SweepSize(graph, riderNodes[i], time);
      SweepPrices(graph, riderNodes[i], time, driverNodes);
      var row := PriceEveryDriver(graph, riderNodes[i], driverNodes, i, time);
      DenseStep(graph, riderNodes, driverNodes, edges, row, i);
      edges := edges + row;
    }
    DenseDone(graph, pending, riderNodes, driverNodes, edges);
    DenseIsTimed(graph, riders, drivers, snap, edges);
  }

  /** Every edge costs the fastest driving time from where the driver snaps to where the
      rider does. */
  ghost predicate TimedEdges(graph: Graph, riders: seq<GeoPoint>, drivers: seq<GeoPoint>, snap: GeoPoint -> nat, edges: seq<MatchEdge>)
    requires graph.Indexed()
  {
    forall e :: e in edges ==>
      && MatchingNetwork.InRange(|riders|, |drivers|, e)
      && CostsItsTime(graph, snap(drivers[e.driver]), snap(riders[e.rider]), e.cost)
  }

  lemma DenseIsTimed(graph: Graph, riders: seq<GeoPoint>, drivers: seq<GeoPoint>, snap: GeoPoint -> nat, edges: seq<MatchEdge>)
    requires graph.Indexed() && IsRoadDense(graph, Snapped(riders, snap), Snapped(drivers, snap), edges)
    ensures TimedEdges(graph, riders, drivers, snap, edges)
  {
    hide IsCsr, DriveCost, CostsItsTime, CanReach, Shortlisted, PairsOnce;
    forall e | e in edges
      ensures MatchingNetwork.InRange(|riders|, |drivers|, e)
              && CostsItsTime(graph, snap(drivers[e.driver]), snap(riders[e.rider]), e.cost)
    {
      assert RoadPriced(graph, Snapped(riders, snap), Snapped(drivers, snap), e);
      DriveCostIsTime(graph, snap(drivers[e.driver]), snap(riders[e.rider]), e.cost);
    }
  }

  lemma SparseIsTimed(graph: Graph, riders: seq<GeoPoint>, drivers: seq<GeoPoint>, snap: GeoPoint -> nat, k: nat,
                      lonScaleAt: real -> real, edges: seq<MatchEdge>)
    requires graph.Indexed() && IsRoadSparseAtMean(graph, riders, drivers, snap, k, lonScaleAt, edges)
    ensures TimedEdges(graph, riders, drivers, snap, edges)
  {
    hide IsCsr, DriveCost, CostsItsTime, PairsOnce, LatitudeRange, IsShortlist, Everyone;
    var low, high :|
      && LatitudeRange(drivers, |drivers|, riders, |riders|, low, high)
      && IsRoadSparse(graph, FlatAll(riders, lonScaleAt((low + high) / 2.0)), FlatAll(drivers, lonScaleAt((low + high) / 2.0)),
                      Snapped(riders, snap), Snapped(drivers, snap), k, edges);
    var s := lonScaleAt((low + high) / 2.0);
    forall e | e in edges
      ensures MatchingNetwork.InRange(|riders|, |drivers|, e)
              && CostsItsTime(graph, snap(drivers[e.driver]), snap(riders[e.rider]), e.cost)
    {
      assert RoadRowShortlisted(graph, FlatAll(riders, s), FlatAll(drivers, s), Snapped(riders, snap), Snapped(drivers, snap), k, edges, e.rider);
      assert RoadPriced(graph, Snapped(riders, snap), Snapped(drivers, snap), e);
      DriveCostIsTime(graph, snap(drivers[e.driver]), snap(riders[e.rider]), e.cost);
    }
  }

  /** `a` is no farther from `r` than `b`, with longitudes shortened by the scale. */
  ghost predicate NoFarther(r: GeoPoint, a: GeoPoint, b: GeoPoint, scale: real)
  {
    var x, y := a.lon * scale - r.lon * scale, a.lat - r.lat;
    var u, v := b.lon * scale - r.lon * scale, b.lat - r.lat;
    x * x + y * y <= u * u + v * v
  }

  lemma FlatIsNoFarther(r: GeoPoint, a: GeoPoint, b: GeoPoint, scale: real)
    requires var at := Flat(r, scale); DistSq(at.x, at.y, Flat(a, scale)) <= DistSq(at.x, at.y, Flat(b, scale))
    ensures NoFarther(r, a, b, scale)
  {
  }

  /** What "nearest" means for a shortlist: longitudes shortened to the mean latitude's scale. */
  lemma ShortlistInDegrees(riders: seq<GeoPoint>, drivers: seq<GeoPoint>, scale: real, i: nat, k: nat, near: set<int>, c: int, j: int)
    requires i < |riders| && IsShortlist(FlatAll(riders, scale)[i], FlatAll(drivers, scale), Everyone(|drivers|), k, near)
    requires c in near && 0 <= j < |drivers| && j !in near
    ensures 0 <= c < |drivers| && NoFarther(riders[i], drivers[c], drivers[j], scale)
  {
    hide Everyone, Scaled, DistSq, NoFarther;
    var others := Everyone(|drivers|) - near;
    assert j in others;
    FlatIsNoFarther(riders[i], drivers[c], drivers[j], scale);
  }

  lemma SweepSize(graph: Graph, to: nat, time: seq<Time>)
    requires graph.Indexed() && SweepTo(graph, to, time)
    ensures |time| == |graph.nodes|
  {
  }

  lemma NoneDense(graph: Graph, riderNodes: seq<nat>, driverNodes: seq<nat>)
    requires graph.Indexed()
    ensures DenseUpTo(graph, riderNodes, driverNodes, [], 0)
  {
  }

  lemma NobodyToPrice(graph: Graph, riderNodes: seq<nat>, driverNodes: seq<nat>)
    requires graph.Indexed() && (riderNodes == [] || driverNodes == [])
    ensures IsRoadDense(graph, riderNodes, driverNodes, [])
  {
  }

  // ---- Sparse -----------------------------------------------------------------------------------------

  /** The flat position used for shortlisting. */
  /** A longitude shortened to the scale of a latitude. */
  function Scaled(lon: real, scale: real): real
  {
    lon * scale
  }

  function Flat(p: GeoPoint, lonScale: real): Point
  {
    Point(p.id, Scaled(p.lon, lonScale), p.lat)
  }

  function FlatAll(ps: seq<GeoPoint>, lonScale: real): seq<Point>
  {
    seq(|ps|, i requires 0 <= i < |ps| => Flat(ps[i], lonScale))
  }

  ghost predicate WithinSpan(ps: seq<GeoPoint>, m: nat, minLat: real, maxLat: real, minLon: real, maxLon: real)
    requires m <= |ps|
  {
    forall i :: 0 <= i < m ==> minLat <= ps[i].lat <= maxLat && minLon <= ps[i].lon <= maxLon
  }

  /** The latitudes of the first `m` drivers and `n` riders reach exactly from `low` to `high`. */
  ghost predicate LatitudeRange(drivers: seq<GeoPoint>, m: nat, riders: seq<GeoPoint>, n: nat, low: real, high: real)
    requires m <= |drivers| && n <= |riders|
  {
    && (forall i :: 0 <= i < m ==> low <= drivers[i].lat <= high)
    && (forall i :: 0 <= i < n ==> low <= riders[i].lat <= high)
    && ((exists i :: 0 <= i < m && drivers[i].lat == low) || exists i :: 0 <= i < n && riders[i].lat == low)
    && ((exists i :: 0 <= i < m && drivers[i].lat == high) || exists i :: 0 <= i < n && riders[i].lat == high)
  }

  method Span(drivers: seq<GeoPoint>, riders: seq<GeoPoint>) returns (minLat: real, maxLat: real, minLon: real, maxLon: real)
    requires drivers != []
    ensures WithinSpan(drivers, |drivers|, minLat, maxLat, minLon, maxLon)
    ensures WithinSpan(riders, |riders|, minLat, maxLat, minLon, maxLon)
    ensures LatitudeRange(drivers, |drivers|, riders, |riders|, minLat, maxLat) && minLon <= maxLon
  {
    hide LatitudeRange;
    FirstLatitude(drivers, riders);
    minLat, maxLat, minLon, maxLon := drivers[0].lat, drivers[0].lat, drivers[0].lon, drivers[0].lon;
    for i := 1 to |drivers|
      invariant WithinSpan(drivers, i, minLat, maxLat, minLon, maxLon) && minLon <= maxLon
      invariant LatitudeRange(drivers, i, riders, 0, minLat, maxLat)
    {
      DriverLatitude(drivers, i, riders, minLat, maxLat);
      minLat, maxLat := Smaller(minLat, drivers[i].lat), Larger(maxLat, drivers[i].lat);
      minLon, maxLon := Smaller(minLon, drivers[i].lon), Larger(maxLon, drivers[i].lon);
    }
    for i := 0 to |riders|
      invariant WithinSpan(drivers, |drivers|, minLat, maxLat, minLon, maxLon) && minLon <= maxLon
      invariant WithinSpan(riders, i, minLat, maxLat, minLon, maxLon)
      invariant LatitudeRange(drivers, |drivers|, riders, i, minLat, maxLat)
    {
      RiderLatitude(drivers, riders, i, minLat, maxLat);
      minLat, maxLat := Smaller(minLat, riders[i].lat), Larger(maxLat, riders[i].lat);
      minLon, maxLon := Smaller(minLon, riders[i].lon), Larger(maxLon, riders[i].lon);
    }
  }

  lemma FirstLatitude(drivers: seq<GeoPoint>, riders: seq<GeoPoint>)
    requires drivers != []
    ensures LatitudeRange(drivers, 1, riders, 0, drivers[0].lat, drivers[0].lat)
  {
  }

  lemma DriverLatitude(drivers: seq<GeoPoint>, m: nat, riders: seq<GeoPoint>, low: real, high: real)
    requires m < |drivers| && LatitudeRange(drivers, m, riders, 0, low, high)
    ensures LatitudeRange(drivers, m + 1, riders, 0, Smaller(low, drivers[m].lat), Larger(high, drivers[m].lat))
  {
  }

  lemma RiderLatitude(drivers: seq<GeoPoint>, riders: seq<GeoPoint>, n: nat, low: real, high: real)
    requires n < |riders| && LatitudeRange(drivers, |drivers|, riders, n, low, high)
    ensures LatitudeRange(drivers, |drivers|, riders, n + 1, Smaller(low, riders[n].lat), Larger(high, riders[n].lat))
  {
  }


  /** A box around these ranges, padded so that nothing sits on its edge. */
  function BoxAround(xMin: real, xMax: real, yMin: real, yMax: real): Box
  {
    var halfW := Larger((xMax - xMin) / 2.0, 0.000000001) * 1.001;
    var halfH := Larger((yMax - yMin) / 2.0, 0.000000001) * 1.001;
    Box((xMin + xMax) / 2.0, (yMin + yMax) / 2.0, halfW, halfH)
  }

  /** The root box around every rider and driver, padded so that none sits outside. */
  function SpanBox(minLat: real, maxLat: real, minLon: real, maxLon: real, lonScale: real): Box
  {
    BoxAround(Scaled(minLon, lonScale), Scaled(maxLon, lonScale), minLat, maxLat)
  }

  lemma ScaleKeepsOrder(a: real, b: real, s: real)
    requires a <= b && 0.0 <= s
    ensures Scaled(a, s) <= Scaled(b, s)
  {
    assert 0.0 <= (b - a) * s;
    assert (b - a) * s == b * s - a * s;
  }

  lemma SpanBoxEncloses(minLat: real, maxLat: real, minLon: real, maxLon: real, lonScale: real, p: GeoPoint)
    requires minLat <= p.lat <= maxLat && minLon <= p.lon <= maxLon && 0.0 <= lonScale
    ensures SpanBox(minLat, maxLat, minLon, maxLon, lonScale).Contains(Flat(p, lonScale))
  {
    hide Scaled, BoxAround, Box.ContainsXY;
    ScaleKeepsOrder(minLon, p.lon, lonScale);
    ScaleKeepsOrder(p.lon, maxLon, lonScale);
    BoxAroundHolds(Scaled(minLon, lonScale), Scaled(maxLon, lonScale), minLat, maxLat, Flat(p, lonScale));
  }

  lemma BoxAroundHolds(xMin: real, xMax: real, yMin: real, yMax: real, q: Point)
    requires xMin <= q.x <= xMax && yMin <= q.y <= yMax
    ensures BoxAround(xMin, xMax, yMin, yMax).Contains(q)
  {
    Padded(xMin, q.x, xMax);
    Padded(yMin, q.y, yMax);
  }

  lemma Padded(low: real, x: real, high: real)
    requires low <= x <= high
    ensures (low + high) / 2.0 - Larger((high - low) / 2.0, 0.000000001) * 1.001 <= x
            <= (low + high) / 2.0 + Larger((high - low) / 2.0, 0.000000001) * 1.001
  {
  }

  lemma SpanEnclosesAll(ps: seq<GeoPoint>, minLat: real, maxLat: real, minLon: real, maxLon: real, lonScale: real)
    requires WithinSpan(ps, |ps|, minLat, maxLat, minLon, maxLon) && 0.0 <= lonScale
    ensures AllInside(FlatAll(ps, lonScale), SpanBox(minLat, maxLat, minLon, maxLon, lonScale))
  {
    hide SpanBox, Flat, Box.ContainsXY;
    forall i | 0 <= i < |ps| ensures SpanBox(minLat, maxLat, minLon, maxLon, lonScale).Contains(Flat(ps[i], lonScale)) {
      SpanBoxEncloses(minLat, maxLat, minLon, maxLon, lonScale, ps[i]);
    }
  }

  lemma EveryoneInside(drivers: seq<Point>, box: Box)
    requires AllInside(drivers, box)
    ensures DriversIn(drivers, box, |drivers|) == Everyone(|drivers|)
  {
  }

  /** Rider `i` is offered those of its `k` geometrically nearest drivers who can reach it. */
  ghost predicate RoadRowShortlisted(graph: Graph, riders: seq<Point>, drivers: seq<Point>, riderNodes: seq<nat>,
                                     driverNodes: seq<nat>, k: nat, edges: seq<MatchEdge>, i: nat)
    requires graph.Indexed() && i < |riders| == |riderNodes| && |drivers| == |driverNodes|
  {
    exists near :: && IsShortlist(riders[i], drivers, Everyone(|drivers|), k, near)
                   && forall e: MatchEdge :: e.rider == i ==>
                        (e in edges <==> e.driver in near && RoadPriced(graph, riderNodes, driverNodes, e))
  }

  ghost predicate RoadSparseUpTo(graph: Graph, riders: seq<Point>, drivers: seq<Point>, riderNodes: seq<nat>,
                                 driverNodes: seq<nat>, k: nat, edges: seq<MatchEdge>, m: nat)
    requires graph.Indexed() && m <= |riders| == |riderNodes| && |drivers| == |driverNodes|
  {
    && PairsOnce(edges)
    && (forall e :: e in edges ==> 0 <= e.rider < m && 0 <= e.driver < |drivers|)
    && forall i: nat :: i < m ==> RoadRowShortlisted(graph, riders, drivers, riderNodes, driverNodes, k, edges, i)
  }

  function Indices(ps: seq<Point>): (r: seq<nat>)
    requires forall c :: 0 <= c < |ps| ==> 0 <= ps[c].id
    ensures |r| == |ps| && forall c :: 0 <= c < |ps| ==> r[c] == ps[c].id
  {
    seq(|ps|, c requires 0 <= c < |ps| => ps[c].id as nat)
  }

  lemma RoadRowKept(graph: Graph, riders: seq<Point>, drivers: seq<Point>, riderNodes: seq<nat>, driverNodes: seq<nat>,
                    k: nat, edges: seq<MatchEdge>, row: seq<MatchEdge>, h: nat, i: nat)
    requires graph.Indexed() && h < i < |riders| == |riderNodes| && |drivers| == |driverNodes|
    requires RoadRowShortlisted(graph, riders, drivers, riderNodes, driverNodes, k, edges, h)
    requires forall e :: e in row ==> e.rider == i
    ensures RoadRowShortlisted(graph, riders, drivers, riderNodes, driverNodes, k, edges + row, h)
  {
    hide IsShortlist, RoadPriced, IsCsr;
    var near :| && IsShortlist(riders[h], drivers, Everyone(|drivers|), k, near)
                && forall e: MatchEdge :: e.rider == h ==>
                     (e in edges <==> e.driver in near && RoadPriced(graph, riderNodes, driverNodes, e));
    assert forall e: MatchEdge :: e.rider == h ==> (e in edges + row <==> e in edges);
  }

  lemma RoadRowNew(graph: Graph, riders: seq<Point>, drivers: seq<Point>, riderNodes: seq<nat>, driverNodes: seq<nat>,
                   k: nat, edges: seq<MatchEdge>, row: seq<MatchEdge>, i: nat, nearest: seq<Point>)
    requires graph.Indexed() && i < |riders| == |riderNodes| && |drivers| == |driverNodes|
    requires forall e :: e in edges ==> e.rider < i
    requires forall c :: 0 <= c < |nearest| ==> 0 <= nearest[c].id
    requires RowPricedUpTo(graph, riderNodes[i], driverNodes, i, Indices(nearest), row, |nearest|)
    requires IsShortlist(riders[i], drivers, Everyone(|drivers|), k, Ids(nearest))
    ensures RoadRowShortlisted(graph, riders, drivers, riderNodes, driverNodes, k, edges + row, i)
  {
    hide IsShortlist, DriveCost, IsCsr, Everyone;
    var near := Ids(nearest);
    var indices := Indices(nearest);
    assert indices[..|nearest|] == indices;
    forall e: MatchEdge | e.rider == i
      ensures e in edges + row <==> e.driver in near && RoadPriced(graph, riderNodes, driverNodes, e)
    {
      assert e in edges + row <==> e in row;
      if e.driver in near {
        var c :| 0 <= c < |nearest| && nearest[c].id == e.driver;
        assert indices[c] == e.driver;
      }
    }
  }

  lemma RoadSparseStep(graph: Graph, riders: seq<Point>, drivers: seq<Point>, riderNodes: seq<nat>, driverNodes: seq<nat>,
                       k: nat, edges: seq<MatchEdge>, row: seq<MatchEdge>, i: nat, nearest: seq<Point>)
    requires graph.Indexed() && i < |riders| == |riderNodes| && |drivers| == |driverNodes|
    requires RoadSparseUpTo(graph, riders, drivers, riderNodes, driverNodes, k, edges, i)
    requires forall c :: 0 <= c < |nearest| ==> 0 <= nearest[c].id
    requires RowPricedUpTo(graph, riderNodes[i], driverNodes, i, Indices(nearest), row, |nearest|)
    requires IsShortlist(riders[i], drivers, Everyone(|drivers|), k, Ids(nearest))
    ensures RoadSparseUpTo(graph, riders, drivers, riderNodes, driverNodes, k, edges + row, i + 1)
  {
    hide IsShortlist, DriveCost, IsCsr, Everyone, RoadRowShortlisted;
    RoadRowsApart(graph, riderNodes, driverNodes, edges, row, i, Indices(nearest));
    forall h: nat | h <= i ensures RoadRowShortlisted(graph, riders, drivers, riderNodes, driverNodes, k, edges + row, h) {
      if h < i {
        RoadRowKept(graph, riders, drivers, riderNodes, driverNodes, k, edges, row, h, i);
      } else {
        RoadRowNew(graph, riders, drivers, riderNodes, driverNodes, k, edges, row, i, nearest);
      }
    }
  }

  /** The shortlist of the rider, as the tree over all drivers reports it. */
  lemma TreeShortlist(t: Tree, rider: Point, drivers: seq<Point>, box: Box, k: nat, nearest: seq<Point>)
    requires Contents(t) == multiset(TaggedIn(drivers, box, |drivers|)) && AllInside(drivers, box)
    requires IsKNearest(t, rider.x, rider.y, k, nearest) && multiset(nearest) <= Contents(t)
    ensures forall c :: 0 <= c < |nearest| ==> 0 <= nearest[c].id < |drivers|
    ensures forall a, b :: 0 <= a < b < |nearest| ==> nearest[a].id != nearest[b].id
    ensures IsShortlist(rider, drivers, Everyone(|drivers|), k, Ids(nearest))
  {
    hide Contents, TaggedIn, IsKNearestOf, IsShortlist, Ids;
    PickedAreDistinct(drivers, box, nearest);
    EveryoneInside(drivers, box);
    NearestIsShortlist(Contents(t), rider, drivers, box, k, nearest);
  }

  method PriceCandidates(graph: Graph, to: nat, driverNodes: seq<nat>, i: nat, candidates: seq<Point>, time: seq<Time>)
    returns (row: seq<MatchEdge>)
    requires graph.Indexed() && SweepTo(graph, to, time)
    requires forall c :: 0 <= c < |candidates| ==> 0 <= candidates[c].id < |driverNodes|
    requires forall a, b :: 0 <= a < b < |candidates| ==> candidates[a].id != candidates[b].id
    requires forall j :: 0 <= j < |driverNodes| ==> driverNodes[j] < |time|
    ensures RowPricedUpTo(graph, to, driverNodes, i, Indices(candidates), row, |candidates|)
  {
    hide DriveCost, SweepTo, RowPricedUpTo, ScaledSeconds, IsCsr;
    row := [];
    ghost var indices := Indices(candidates);
    EmptyRow(graph, to, driverNodes, i, indices);
    for c := 0 to |candidates|
      invariant RowPricedUpTo(graph, to, driverNodes, i, indices, row, c)
    {
      RowStep(graph, to, driverNodes, i, indices, row, c, time);
      var seconds := time[driverNodes[candidates[c].id]];
      if seconds.Unreachable? {
        continue;
      }
      row := row + [MatchEdge(i, candidates[c].id, ScaledSeconds(seconds.secs))];
    }
  }

  ghost predicate IsRoadSparse(graph: Graph, riders: seq<Point>, drivers: seq<Point>, riderNodes: seq<nat>,
                               driverNodes: seq<nat>, k: nat, edges: seq<MatchEdge>)
    requires graph.Indexed() && |riders| == |riderNodes| && |drivers| == |driverNodes|
  {
    RoadSparseUpTo(graph, riders, drivers, riderNodes, driverNodes, k, edges, |riders|)
  }

  method FlatPoints(ps: seq<GeoPoint>, lonScale: real) returns (r: seq<Point>)
    ensures r == FlatAll(ps, lonScale)
  {
    r := FlatAll(ps, lonScale);
  }

  /** The shortlists are taken in the projection at the middle of the batch's latitudes. */
  ghost predicate IsRoadSparseAtMean(graph: Graph, riders: seq<GeoPoint>, drivers: seq<GeoPoint>, snap: GeoPoint -> nat, k: nat,
                                     lonScaleAt: real -> real, edges: seq<MatchEdge>)
    requires graph.Indexed()
  {
    exists low, high ::
      && LatitudeRange(drivers, |drivers|, riders, |riders|, low, high)
      && var lonScale := lonScaleAt((low + high) / 2.0);
         IsRoadSparse(graph, FlatAll(riders, lonScale), FlatAll(drivers, lonScale),
                      Snapped(riders, snap), Snapped(drivers, snap), k, edges)
  }

  lemma SparseAtMean(graph: Graph, riders: seq<GeoPoint>, drivers: seq<GeoPoint>, snap: GeoPoint -> nat, k: nat,
                     lonScaleAt: real -> real, edges: seq<MatchEdge>, low: real, high: real)
    requires graph.Indexed() && LatitudeRange(drivers, |drivers|, riders, |riders|, low, high)
    requires var lonScale := lonScaleAt((low + high) / 2.0);
             IsRoadSparse(graph, FlatAll(riders, lonScale), FlatAll(drivers, lonScale),
                          Snapped(riders, snap), Snapped(drivers, snap), k, edges)
    ensures IsRoadSparseAtMean(graph, riders, drivers, snap, k, lonScaleAt, edges)
  {
    hide IsRoadSparse, LatitudeRange;
  }

  /** Road prices, but only for each rider's `k` geometrically nearest drivers.  The scale of a
      degree of longitude depends on the mean latitude and is never negative. */
  method BuildRoadEdgesSparse(riders: seq<GeoPoint>, drivers: seq<GeoPoint>, graph: Graph, snap: GeoPoint -> nat, k: int,
                              lonScaleAt: real -> real, ghost pending: seq<PendingArc>)
    returns (edges: seq<MatchEdge>)
    requires Priceable(graph, pending) && SnapsInto(graph, snap) && forall lat :: 0.0 <= lonScaleAt(lat)
    ensures riders == [] || drivers == [] || k <= 0 ==> edges == []
    ensures riders != [] && drivers != [] && k > 0 ==> IsRoadSparseAtMean(graph, riders, drivers, snap, k, lonScaleAt, edges)
    ensures graph.Indexed() && TimedEdges(graph, riders, drivers, snap, edges)
  {
    hide *;
    PriceableIsIndexed(graph, pending);
    NothingTimed(graph, riders, drivers, snap);
    edges := [];
    if riders == [] || drivers == [] || k <= 0 {
      return;
    }
    var riderNodes := SnapAll(riders, snap);
    var driverNodes := SnapAll(drivers, snap);
    SnappedInto(graph, riders, snap);
    SnappedInto(graph, drivers, snap);
    var minLat, maxLat, minLon, maxLon := Span(drivers, riders);
    var scale := lonScaleAt((minLat + maxLat) / 2.0);
    var box := SpanBox(minLat, maxLat, minLon, maxLon, scale);
    var flatDrivers := FlatPoints(drivers, scale);
    var flatRiders := FlatPoints(riders, scale);
    SpanEnclosesAll(drivers, minLat, maxLat, minLon, maxLon, scale);
    SpanEnclosesAll(riders, minLat, maxLat, minLon, maxLon, scale);
    FlatSize(riders, scale);
    FlatSize(drivers, scale);
    var driverTree := IndexDrivers(flatDrivers, box);
    PriceableIsIndexed(graph, pending);
    NoneSparse(graph, flatRiders, flatDrivers, riderNodes, driverNodes, k);
    for i := 0 to |riders|
      invariant driverTree.Valid() && WellFormed(driverTree.tree) && driverTree.boundary == box
      invariant Contents(driverTree.tree) == multiset(TaggedIn(flatDrivers, box, |flatDrivers|))
      invariant RoadSparseUpTo(graph, flatRiders, flatDrivers, riderNodes, driverNodes, k, edges, i)
    {
      InsideAt(flatRiders, box, i);
      var candidates := driverTree.KNearest(flatRiders[i].x, flatRiders[i].y, k);
      SelectionStored(driverTree.tree, flatRiders[i].x, flatRiders[i].y, k, candidates);
      TreeShortlist(driverTree.tree, flatRiders[i], flatDrivers, box, k, candidates);
      if candidates == [] {
        NoCandidates(graph, flatRiders, flatDrivers, riderNodes, driverNodes, k, edges, i);
        continue;
      }
      var time := SweepBackward(graph, riderNodes[i], pending);
      SweepSize(graph, riderNodes[i], time);
      var row := PriceCandidates(graph, riderNodes[i], driverNodes, i, candidates, time);
      RoadSparseStep(graph, flatRiders, flatDrivers, riderNodes, driverNodes, k, edges, row, i, candidates);
      edges := edges + row;
    }
    SparseDone(graph, flatRiders, flatDrivers, riderNodes, driverNodes, k, edges);
    SparseAtMean(graph, riders, drivers, snap, k, lonScaleAt, edges, minLat, maxLat);
    SparseIsTimed(graph, riders, drivers, snap, k, lonScaleAt, edges);
  }

  lemma NothingTimed(graph: Graph, riders: seq<GeoPoint>, drivers: seq<GeoPoint>, snap: GeoPoint -> nat)
    requires graph.Indexed()
    ensures TimedEdges(graph, riders, drivers, snap, [])
  {
  }

  lemma SparseDone(graph: Graph, riders: seq<Point>, drivers: seq<Point>, riderNodes: seq<nat>, driverNodes: seq<nat>,
                   k: nat, edges: seq<MatchEdge>)
    requires graph.Indexed() && |riders| == |riderNodes| && |drivers| == |driverNodes|
    requires RoadSparseUpTo(graph, riders, drivers, riderNodes, driverNodes, k, edges, |riders|)
    ensures IsRoadSparse(graph, riders, drivers, riderNodes, driverNodes, k, edges)
  {
  }

  lemma NoCandidates(graph: Graph, riders: seq<Point>, drivers: seq<Point>, riderNodes: seq<nat>, driverNodes: seq<nat>,
                     k: nat, edges: seq<MatchEdge>, i: nat)
    requires graph.Indexed() && i < |riders| == |riderNodes| && |drivers| == |driverNodes|
    requires RoadSparseUpTo(graph, riders, drivers, riderNodes, driverNodes, k, edges, i)
    requires IsShortlist(riders[i], drivers, Everyone(|drivers|), k, Ids([]))
    ensures RoadSparseUpTo(graph, riders, drivers, riderNodes, driverNodes, k, edges, i + 1)
  {
    hide IsShortlist, DriveCost, IsCsr, Everyone, RoadRowShortlisted, RoadSparseUpTo;
    EmptyRow(graph, riderNodes[i], driverNodes, i, Indices([]));
    RoadSparseStep(graph, riders, drivers, riderNodes, driverNodes, k, edges, [], i, []);
    assert edges + [] == edges;
  }

  lemma InsideAt(ps: seq<Point>, box: Box, i: nat)
    requires AllInside(ps, box) && i < |ps|
    ensures box.ContainsXY(ps[i].x, ps[i].y)
  {
  }

  lemma FlatSize(ps: seq<GeoPoint>, lonScale: real)
    ensures |FlatAll(ps, lonScale)| == |ps|
  {
  }

  lemma SnappedInto(graph: Graph, ps: seq<GeoPoint>, snap: GeoPoint -> nat)
    requires SnapsInto(graph, snap)
    ensures |Snapped(ps, snap)| == |ps| && forall i :: 0 <= i < |ps| ==> Snapped(ps, snap)[i] < |graph.nodes|
  {
  }

  lemma PriceableIsIndexed(graph: Graph, pending: seq<PendingArc>)
    requires Priceable(graph, pending)
    ensures graph.Indexed()
  {
  }

  lemma NoneSparse(graph: Graph, riders: seq<Point>, drivers: seq<Point>, riderNodes: seq<nat>, driverNodes: seq<nat>, k: nat)
    requires graph.Indexed() && |riders| == |riderNodes| && |drivers| == |driverNodes|
    ensures RoadSparseUpTo(graph, riders, drivers, riderNodes, driverNodes, k, [], 0)
  {
  }
}
