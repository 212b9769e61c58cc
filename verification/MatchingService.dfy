/** One batch request, end to end: validate, price, apply the ceiling, solve, report. */
module MatchingService {
  import opened Basics
  import opened MatchingNetwork
  import opened CostMatrix
  import opened RoadEdges
  import opened BatchOutcome
  import A = Assignment
  import QM = QuadModel
  import NT = NearestTheory
  import opened OutsideQueries
  import RG = RoadGraph
  import RoadRoutes
  import Mcmf

  /** A coordinate or amount as received; NotFinite stands for NaN and the infinities. */
  datatype Number = Finite(value: real) | NotFinite

  datatype LatLng = LatLng(lat: Number, lng: Number)

  /** A rider with its pickup, or a driver with its location. */
  datatype Party = Party(id: string, at: LatLng)

  datatype CostMetric = Unspecified | Euclidean | TravelTime

  datatype Request = Request(riders: seq<Party>, drivers: seq<Party>, metric: CostMetric, roadGraphId: string,
                             maxCandidatesPerRider: int, maxPairingCost: Number)

  datatype Status = Ok | ResourceExhausted | InvalidArgument | FailedPrecondition | Cancelled

  datatype Response = Response(matches: seq<Match>, unmatched: seq<Unmatched>, candidatesPerRider: int, totalCost: int,
                               metricUsed: CostMetric, roadGraphId: string)

  datatype Options = Options(maxRiders: int, maxDrivers: int)

  /** A loaded road graph and how a position snaps to one of its nodes. */
  datatype Road = Road(graph: RG.Graph, snap: GeoPoint -> nat)

  // ---- Validation -----------------------------------------------------------------------------

  ghost predicate GoodCoordinate(p: LatLng)
  {
    p.lat.Finite? && p.lng.Finite? && -90.0 <= p.lat.value <= 90.0 && -180.0 <= p.lng.value <= 180.0
  }

  function IdsOf(ps: seq<Party>): seq<string>
  {
    seq(|ps|, i requires 0 <= i < |ps| => ps[i].id)
  }

  ghost predicate GoodParties(ps: seq<Party>, m: nat)
    requires m <= |ps|
  {
    && (forall i :: 0 <= i < m ==> ps[i].id != "" && GoodCoordinate(ps[i].at))
    && forall i, j :: 0 <= i < j < m ==> ps[i].id != ps[j].id
  }

  ghost predicate IsAcceptable(r: Request)
  {
    && GoodParties(r.riders, |r.riders|) && GoodParties(r.drivers, |r.drivers|)
    && 0 <= r.maxCandidatesPerRider
    && r.maxPairingCost.Finite? && 0.0 <= r.maxPairingCost.value
  }

  ghost predicate FitsLimits(r: Request, o: Options)
  {
    |r.riders| <= o.maxRiders && |r.drivers| <= o.maxDrivers
  }

  method CheckParties(ps: seq<Party>) returns (ok: bool)
    ensures ok <==> GoodParties(ps, |ps|)
  {
    var seen: set<string> := {};
    for i := 0 to |ps|
      invariant GoodParties(ps, i)
      invariant forall s :: s in seen <==> exists j :: 0 <= j < i && ps[j].id == s
    {
      if ps[i].id == "" {
        return false;
      }
      if ps[i].id in seen {
        return false;
      }
      seen := seen + {ps[i].id};
      var lat, lng := ps[i].at.lat, ps[i].at.lng;
      if lat.NotFinite? || lng.NotFinite? {
        return false;
      }
      if lat.value < -90.0 || lat.value > 90.0 || lng.value < -180.0 || lng.value > 180.0 {
        return false;
      }
    }
    ok := true;
  }

  /** Size limits first; then every id is present and unique, every coordinate in range and
      both numeric options sensible. */
  method Validate(r: Request, o: Options) returns (status: Status)
    ensures status == if !FitsLimits(r, o) then ResourceExhausted else if IsAcceptable(r) then Ok else InvalidArgument
  {
    hide GoodParties;
    if |r.riders| > o.maxRiders || |r.drivers| > o.maxDrivers {
      return ResourceExhausted;
    }
    var ok := CheckParties(r.riders);
    if !ok {
      return InvalidArgument;
    }
    ok := CheckParties(r.drivers);
    if !ok {
      return InvalidArgument;
    }
    if r.maxCandidatesPerRider < 0 {
      return InvalidArgument;
    }
    if r.maxPairingCost.NotFinite? || r.maxPairingCost.value < 0.0 {
      return InvalidArgument;
    }
    status := Ok;
  }

  // ---- Projection -------------------------------------------------------------------------------

  const METERS_PER_DEGREE_LAT := 111320.0

  function Project(i: int, p: LatLng, lonScale: real): QM.Point
    requires GoodCoordinate(p)
  {
    QM.Point(i, p.lng.value * lonScale * METERS_PER_DEGREE_LAT, p.lat.value * METERS_PER_DEGREE_LAT)
  }

  function ProjectAll(ps: seq<Party>, lonScale: real): seq<QM.Point>
    requires forall i :: 0 <= i < |ps| ==> GoodCoordinate(ps[i].at)
  {
    seq(|ps|, i requires 0 <= i < |ps| => Project(i, ps[i].at, lonScale))
  }

  function GeoAt(i: int, p: LatLng): GeoPoint
    requires GoodCoordinate(p)
  {
    GeoPoint(i, p.lat.value, p.lng.value)
  }

  function Geo(ps: seq<Party>): seq<GeoPoint>
    requires forall i :: 0 <= i < |ps| ==> GoodCoordinate(ps[i].at)
  {
    seq(|ps|, i requires 0 <= i < |ps| => GeoAt(i, ps[i].at))
  }

  ghost function LatSum(ps: seq<Party>, m: nat): real
    requires m <= |ps| && forall i :: 0 <= i < |ps| ==> GoodCoordinate(ps[i].at)
  {
    if m == 0 then 0.0 else LatSum(ps, m - 1) + ps[m - 1].at.lat.value
  }

  method SumLatitudes(ps: seq<Party>, start: real) returns (sum: real)
    requires forall i :: 0 <= i < |ps| ==> GoodCoordinate(ps[i].at)
    ensures sum == start + LatSum(ps, |ps|)
  {
    sum := start;
    for i := 0 to |ps|
      invariant sum == start + LatSum(ps, i)
    {
      sum := sum + ps[i].at.lat.value;
    }
  }

  /** No coordinate exceeds `m`, which is at least zero. */
  ghost predicate IsReach(m: real, ps: seq<QM.Point>)
  {
    0.0 <= m && forall i :: 0 <= i < |ps| ==> ps[i].x <= m && ps[i].y <= m
  }

  ghost predicate Attained(m: real, ps: seq<QM.Point>)
  {
    exists i :: 0 <= i < |ps| && (ps[i].x == m || ps[i].y == m)
  }

  /** The largest coordinate of riders and drivers, or zero if none is positive. */
  ghost predicate IsMaxCoord(m: real, riders: seq<QM.Point>, drivers: seq<QM.Point>)
  {
    && IsReach(m, riders) && IsReach(m, drivers)
    && (m == 0.0 || Attained(m, riders) || Attained(m, drivers))
  }

  method Reach(ps: seq<QM.Point>, start: real) returns (m: real)
    requires 0.0 <= start
    ensures IsReach(m, ps) && start <= m && (m == start || Attained(m, ps))
  {
    m := start;
    for i := 0 to |ps|
      invariant 0.0 <= start <= m && forall j :: 0 <= j < i ==> ps[j].x <= m && ps[j].y <= m
      invariant m == start || Attained(m, ps)
    {
      m := QM.Larger(m, QM.Larger(ps[i].x, ps[i].y));
    }
  }

  /** The square world sized from the largest coordinate encloses exactly the points without a
      negative coordinate: batches south of the equator or west of Greenwich fall outside. */
  lemma WorldEncloses(m: real, ps: seq<QM.Point>, i: nat)
    requires IsReach(m, ps) && i < |ps|
    ensures World(m * 2.0 + 1.0).Contains(ps[i]) <==> 0.0 <= ps[i].x && 0.0 <= ps[i].y
  {
  }

  // ---- Pricing ---------------------------------------------------------------------------------

  /** A cap at or above the driver count is no cap. */
  function Cap(r: Request): int
  {
    if r.maxCandidatesPerRider >= |r.drivers| then 0 else r.maxCandidatesPerRider
  }

  ghost predicate IsEuclideanPricing(r: Request, lonScale: real, edges: seq<MatchEdge>)
    requires IsAcceptable(r)
  {
    var riders, drivers := ProjectAll(r.riders, lonScale), ProjectAll(r.drivers, lonScale);
    if Cap(r) == 0 then IsDense(riders, drivers, edges)
    else exists m :: IsMaxCoord(m, riders, drivers)
                     && IsSparse(riders, drivers, World(m * 2.0 + 1.0), Cap(r), edges)
  }

  ghost predicate IsRoadPricing(r: Request, road: Road, lonScaleAt: real -> real, edges: seq<MatchEdge>)
    requires IsAcceptable(r) && road.graph.Indexed()
  {
    var riders, drivers := Geo(r.riders), Geo(r.drivers);
    if Cap(r) == 0 then IsRoadDense(road.graph, Snapped(riders, road.snap), Snapped(drivers, road.snap), edges)
    else IsRoadSparseAtMean(road.graph, riders, drivers, road.snap, Cap(r), lonScaleAt, edges)
  }

  /** What every pricing gives the solver. */
  ghost predicate GoodEdges(r: Request, edges: seq<MatchEdge>)
  {
    PairsOnce(edges) && forall e :: e in edges ==> MatchingNetwork.InRange(|r.riders|, |r.drivers|, e)
  }

  lemma EuclideanEdgesAreGood(r: Request, lonScale: real, edges: seq<MatchEdge>)
    requires IsAcceptable(r) && IsEuclideanPricing(r, lonScale, edges)
    ensures GoodEdges(r, edges)
  {
    hide ScaledDistance, IsShortlist, RowShortlisted;
    assert |ProjectAll(r.riders, lonScale)| == |r.riders| && |ProjectAll(r.drivers, lonScale)| == |r.drivers|;
  }

  lemma RoadEdgesAreGood(r: Request, road: Road, lonScaleAt: real -> real, edges: seq<MatchEdge>)
    requires IsAcceptable(r) && road.graph.Indexed() && IsRoadPricing(r, road, lonScaleAt, edges)
    ensures GoodEdges(r, edges)
  {
    hide DriveCost, RoadRowShortlisted, RG.IsCsr;
  }

  method MeanLatitude(r: Request) returns (mean: real)
    requires IsAcceptable(r) && r.riders != []
    ensures mean * (|r.riders| + |r.drivers|) as real == LatSum(r.riders, |r.riders|) + LatSum(r.drivers, |r.drivers|)
  {
    var sum := SumLatitudes(r.riders, 0.0);
    sum := SumLatitudes(r.drivers, sum);
    mean := sum / (|r.riders| + |r.drivers|) as real;
  }

  method PriceEuclidean(r: Request, lonScaleAt: real -> real) returns (edges: seq<MatchEdge>, ghost mean: real)
    requires IsAcceptable(r) && r.riders != [] && r.drivers != []
    ensures mean * (|r.riders| + |r.drivers|) as real == LatSum(r.riders, |r.riders|) + LatSum(r.drivers, |r.drivers|)
    ensures IsEuclideanPricing(r, lonScaleAt(mean), edges) && GoodEdges(r, edges)
  {
    hide IsSparse, IsDense, IsReach, Attained, IsMaxCoord, GoodEdges;
    var meanLat := MeanLatitude(r);
    mean := meanLat;
    var lonScale := lonScaleAt(meanLat);
    var riders, drivers := ProjectAll(r.riders, lonScale), ProjectAll(r.drivers, lonScale);
    if Cap(r) == 0 {
      edges := BuildDenseEdges(riders, drivers);
    } else {
      var maxCoord := Reach(riders, 0.0);
      ReachIsPositive(maxCoord, riders);
      var further := Reach(drivers, maxCoord);
      LargestOfBoth(maxCoord, further, riders, drivers);
      edges := BuildSparseEdges(riders, drivers, Cap(r), further * 2.0 + 1.0);
    }
    EuclideanEdgesAreGood(r, lonScale, edges);
  }

  lemma ReachIsPositive(m: real, ps: seq<QM.Point>)
    requires IsReach(m, ps)
    ensures 0.0 <= m
  {
  }

  lemma LargestOfBoth(m: real, n: real, riders: seq<QM.Point>, drivers: seq<QM.Point>)
    requires IsReach(m, riders) && (m == 0.0 || Attained(m, riders)) && m <= n
    requires IsReach(n, drivers) && (n == m || Attained(n, drivers))
    ensures IsMaxCoord(n, riders, drivers)
  {
  }

  method PriceRoad(r: Request, road: Road, lonScaleAt: real -> real, ghost pending: seq<RG.PendingArc>) returns (edges: seq<MatchEdge>)
    requires IsAcceptable(r) && r.riders != [] && r.drivers != []
    requires Priceable(road.graph, pending) && SnapsInto(road.graph, road.snap) && forall lat :: 0.0 <= lonScaleAt(lat)
    ensures road.graph.Indexed() && IsRoadPricing(r, road, lonScaleAt, edges) && GoodEdges(r, edges)
  {
    hide IsRoadDense, IsRoadSparseAtMean, Priceable, SnapsInto, RG.IsCsr, GoodEdges;
    PriceableIsIndexed(road.graph, pending);
    if Cap(r) == 0 {
      edges := BuildRoadEdgesDense(Geo(r.riders), Geo(r.drivers), road.graph, road.snap, pending);
    } else {
      edges := BuildRoadEdgesSparse(Geo(r.riders), Geo(r.drivers), road.graph, road.snap, Cap(r), lonScaleAt, pending);
    }
    RoadEdgesAreGood(r, road, lonScaleAt, edges);
  }

  // ---- Ceiling, counting, solving, reporting -----------------------------------------------------

  /** Zero switches the ceiling off. */
  function Ceiling(cutoff: real): Option<int>
  {
    if cutoff > 0.0 then Some((cutoff * COST_SCALE + 0.5).Floor) else None
  }

  method KeepWithin(edges: seq<MatchEdge>, limit: Option<int>) returns (kept: seq<MatchEdge>)
    ensures kept == Within(edges, limit)
  {
    if limit.None? {
      return edges;
    }
    kept := [];
    for i := 0 to |edges|
      invariant kept == Within(edges[..i], limit)
    {
      assert edges[..i + 1][..i] == edges[..i];
      if edges[i].cost <= limit.value {
        kept := kept + [edges[i]];
      }
    }
    assert edges[..|edges|] == edges;
  }

  ghost function OfferCount(edges: seq<MatchEdge>, i: int): nat
  {
    if edges == [] then 0
    else OfferCount(edges[..|edges| - 1], i) + if edges[|edges| - 1].rider == i then 1 else 0
  }

  lemma {:induction false} CountedMeansOffered(edges: seq<MatchEdge>, i: int)
    ensures OfferCount(edges, i) > 0 <==> HasOffer(edges, i)
  {
    if edges != [] {
      CountedMeansOffered(edges[..|edges| - 1], i);
      assert edges == edges[..|edges| - 1] + [edges[|edges| - 1]];
      if HasOffer(edges, i) {
        var e :| e in edges && e.rider == i;
        assert e in edges[..|edges| - 1] || e == edges[|edges| - 1];
      }
    }
  }

  lemma LastIsNew(edges: seq<MatchEdge>)
    requires PairsOnce(edges) && edges != []
    ensures PairsOnce(edges[..|edges| - 1])
    ensures edges[|edges| - 1].driver !in Shortlisted(edges[..|edges| - 1], edges[|edges| - 1].rider)
  {
  }

  /** Where no pair is offered twice, a rider's count is the number of drivers offered to it. */
  lemma {:induction false} CountIsShortlistSize(edges: seq<MatchEdge>, i: int)
    requires PairsOnce(edges)
    ensures OfferCount(edges, i) == |Shortlisted(edges, i)|
  {
    hide PairsOnce, Shortlisted;
    ShortlistedAlone(i);
    if edges != [] {
      var init, last := edges[..|edges| - 1], edges[|edges| - 1];
      LastIsNew(edges);
      CountIsShortlistSize(init, i);
      assert edges == init + [last];
      ShortlistedAppend(init, [last], i);
    }
  }

  lemma ShortlistedAlone(i: int)
    ensures Shortlisted([], i) == {}
    ensures forall e :: Shortlisted([e], i) == if e.rider == i then {e.driver} else {}
  {
  }

  method CountPerRider(edges: seq<MatchEdge>, numRiders: nat, ghost drivers: nat) returns (counts: seq<nat>)
    requires forall e :: e in edges ==> MatchingNetwork.InRange(numRiders, drivers, e)
    requires PairsOnce(edges)
    ensures |counts| == numRiders
    ensures forall i :: 0 <= i < numRiders ==> counts[i] == |Shortlisted(edges, i)| && (counts[i] > 0 <==> HasOffer(edges, i))
  {
    hide HasOffer, PairsOnce, Shortlisted;
    counts := seq(numRiders, _ => 0);
    for k := 0 to |edges|
      invariant |counts| == numRiders
      invariant forall i :: 0 <= i < numRiders ==> counts[i] == OfferCount(edges[..k], i)
    {
      assert edges[..k + 1][..k] == edges[..k];
      assert edges[k] in edges;
      counts := counts[edges[k].rider := counts[edges[k].rider] + 1];
    }
    assert edges[..|edges|] == edges;
    forall i | 0 <= i < numRiders ensures counts[i] == |Shortlisted(edges, i)| && (counts[i] > 0 <==> HasOffer(edges, i)) {
      CountedMeansOffered(edges, i);
      CountIsShortlistSize(edges, i);
    }
  }

  /** The cost of each matched rider's edge, in one pass over the edges. */
  method WinningCosts(kept: seq<MatchEdge>, a: seq<int>, ghost drivers: nat) returns (costs: seq<int>)
    requires PairsOnce(kept) && forall e :: e in kept ==> MatchingNetwork.InRange(|a|, drivers, e)
    requires IsLegal(|a|, drivers, kept, a)
    ensures |costs| == |a| && forall i :: 0 <= i < |a| && a[i] >= 0 ==> costs[i] == PairCost(kept, i, a[i])
  {
    costs := seq(|a|, _ => 0);
    assert forall k :: 0 <= k < |kept| ==> kept[k] in kept;
    for c := 0 to |kept|
      invariant |costs| == |a|
      invariant forall k :: 0 <= k < c && a[kept[k].rider] == kept[k].driver ==> costs[kept[k].rider] == kept[k].cost
    {
      if a[kept[c].rider] == kept[c].driver {
        costs := costs[kept[c].rider := kept[c].cost];
      }
    }
    forall i | 0 <= i < |a| && a[i] >= 0 ensures costs[i] == PairCost(kept, i, a[i]) {
      assert IsOffered(kept, i, a[i]);
      var k :| 0 <= k < |kept| && kept[k].rider == i && kept[k].driver == a[i];
      OnlyPrice(kept, k);
    }
  }

  lemma {:induction false} AllOffered(riders: nat, drivers: nat, edges: seq<MatchEdge>)
    requires forall e :: e in edges ==> MatchingNetwork.InRange(riders, drivers, e)
    ensures Offered(riders, drivers, edges) == edges
  {
    hide Offered;
    if edges == [] {
      NoneOffered(riders, drivers);
    } else {
      var init, last := edges[..|edges| - 1], edges[|edges| - 1];
      assert edges == init + [last];
      assert last in edges && forall e :: e in init ==> e in edges;
      AllOffered(riders, drivers, init);
      OfferedStep(riders, drivers, edges, |edges| - 1);
      assert edges[..|edges|] == edges;
    }
  }

  lemma NoneOffered(riders: nat, drivers: nat)
    ensures Offered(riders, drivers, []) == []
  {
  }

  /** The response reports an optimal assignment of the affordable edges. */
  ghost predicate IsSettled(r: Request, edges: seq<MatchEdge>, a: seq<int>, response: Response)
  {
    var kept := Within(edges, if r.maxPairingCost.Finite? then Ceiling(r.maxPairingCost.value) else None);
    var riders, drivers, timed := IdsOf(r.riders), IdsOf(r.drivers), r.metric.TravelTime?;
    && IsOptimal(|r.riders|, |r.drivers|, kept, a)
    && InRangeAnswer(riders, drivers, a)
    && response.totalCost == TotalCost(kept, a)
    && response.matches == MatchRows(riders, drivers, kept, a, timed, |a|)
    && response.unmatched == UnmatchedRows(riders, edges, kept, a, timed, |a|)
  }

  method Report(r: Request, shortlistSize: nat, edges: seq<MatchEdge>, kept: seq<MatchEdge>, a: seq<int>,
                considered: seq<nat>, keptCounts: seq<nat>, costs: seq<int>)
    returns (matches: seq<Match>, unmatched: seq<Unmatched>)
    requires InRangeAnswer(IdsOf(r.riders), IdsOf(r.drivers), a) && shortlistSize > 0
    requires |considered| == |keptCounts| == |costs| == |a|
    requires forall i :: 0 <= i < |a| ==> (considered[i] > 0 <==> HasOffer(edges, i))
    requires forall i :: 0 <= i < |a| ==> (keptCounts[i] > 0 <==> HasOffer(kept, i))
    requires forall i :: 0 <= i < |a| && a[i] >= 0 ==> costs[i] == PairCost(kept, i, a[i])
    ensures matches == MatchRows(IdsOf(r.riders), IdsOf(r.drivers), kept, a, r.metric.TravelTime?, |a|)
    ensures unmatched == UnmatchedRows(IdsOf(r.riders), edges, kept, a, r.metric.TravelTime?, |a|)
  {
    hide HasOffer, PairCost;
    matches, unmatched := [], [];
    var timed := r.metric.TravelTime?;
    for i := 0 to |a|
      invariant matches == MatchRows(IdsOf(r.riders), IdsOf(r.drivers), kept, a, timed, i)
      invariant unmatched == UnmatchedRows(IdsOf(r.riders), edges, kept, a, timed, i)
    {
      var j := a[i];
      if j < 0 {
        var reason :=
          if shortlistSize == 0 then NoCandidatesInShortlist
          else if considered[i] == 0 then (if timed then Unreachable else NoCandidatesInShortlist)
          else if keptCounts[i] == 0 then AllCandidatesAboveCutoff
          else NoDriverAvailable;
        unmatched := unmatched + [Unmatched(r.riders[i].id, reason)];
        continue;
      }
      matches := matches + [Match(r.riders[i].id, r.drivers[j].id, if timed then Some(EtaOf(costs[i])) else None)];
    }
  }

  method Settle(r: Request, edges: seq<MatchEdge>) returns (response: Response, ghost a: seq<int>)
    requires IsAcceptable(r) && GoodEdges(r, edges) && r.drivers != []
    ensures IsSettled(r, edges, a, response)
    ensures response.candidatesPerRider == Cap(r) && response.metricUsed == MetricUsed(r) && response.roadGraphId == GraphUsed(r)
  {
    hide IsOptimal, HasOffer, PairCost, TotalCost, GoodParties, PairsOnce, IsLegal;
    var shortlistSize := if Cap(r) == 0 then |r.drivers| else Cap(r);
    var considered := CountPerRider(edges, |r.riders|, |r.drivers|);
    var limit := Ceiling(r.maxPairingCost.value);
    var kept := KeepWithin(edges, limit);
    WithinKeepsPairsOnce(edges, limit);
    var keptCounts := CountPerRider(kept, |r.riders|, |r.drivers|);
    AllOffered(|r.riders|, |r.drivers|, kept);
    var assignment := A.SolveAssignment(|r.riders|, |r.drivers|, kept, Mcmf.Auto);
    a := assignment.riderToDriver;
    OptimalIsLegal(|r.riders|, |r.drivers|, kept, a);
    var costs := WinningCosts(kept, assignment.riderToDriver, |r.drivers|);
    assert |IdsOf(r.riders)| == |r.riders| && |IdsOf(r.drivers)| == |r.drivers|;
    var matches, unmatched := Report(r, shortlistSize, edges, kept, assignment.riderToDriver, considered, keptCounts, costs);
    response := Response(matches, unmatched, Cap(r), assignment.totalCost, MetricUsed(r), GraphUsed(r));
  }

  lemma OptimalIsLegal(riders: nat, drivers: nat, kept: seq<MatchEdge>, a: seq<int>)
    requires IsOptimal(riders, drivers, kept, a)
    ensures IsLegal(riders, drivers, kept, a) && |a| == riders
    ensures forall i :: 0 <= i < |a| ==> a[i] == -1 || 0 <= a[i] < drivers
  {
  }

  // ---- The service ----------------------------------------------------------------------------------

  function MetricUsed(r: Request): CostMetric
  {
    if r.metric.TravelTime? then TravelTime else Euclidean
  }

  function GraphUsed(r: Request): string
  {
    if r.metric.TravelTime? then r.roadGraphId else ""
  }

  /** Riders or drivers are missing: everyone goes unmatched, and the batch is still fine. */
  ghost predicate IsQuietAnswer(r: Request, response: Response)
  {
    && response.matches == [] && response.totalCost == 0
    && |response.unmatched| == |r.riders|
    && forall i :: 0 <= i < |r.riders| ==> response.unmatched[i] == Unmatched(r.riders[i].id, NoDriverAvailable)
  }

  /** The edges the batch was solved on. */
  ghost predicate IsPricing(r: Request, roads: map<string, Road>, lonScaleAt: real -> real, edges: seq<MatchEdge>)
    requires IsAcceptable(r)
  {
    if r.metric.TravelTime? then
      r.roadGraphId in roads && roads[r.roadGraphId].graph.Indexed() && IsRoadPricing(r, roads[r.roadGraphId], lonScaleAt, edges)
    else
      exists mean: real ::
        && mean * (|r.riders| + |r.drivers|) as real == LatSum(r.riders, |r.riders|) + LatSum(r.drivers, |r.drivers|)
        && IsEuclideanPricing(r, lonScaleAt(mean), edges)
  }

  ghost predicate GoodRoads(roads: map<string, Road>, arcs: map<string, seq<RG.PendingArc>>)
  {
    forall id :: id in roads ==> id in arcs && Priceable(roads[id].graph, arcs[id]) && SnapsInto(roads[id].graph, roads[id].snap)
  }

  /** The status follows the checks in their order, and an answered batch is either a quiet
      one or an optimal assignment over the affordable priced edges.  `cancelled` says whether
      the client had given up by the time the edges were priced. */
  method SolveBatch(r: Request, options: Options, roads: map<string, Road>, ghost arcs: map<string, seq<RG.PendingArc>>,
                    lonScaleAt: real -> real, cancelled: bool)
    returns (status: Status, response: Response, ghost edges: seq<MatchEdge>, ghost a: seq<int>)
    requires GoodRoads(roads, arcs) && forall lat :: 0.0 <= lonScaleAt(lat)
    ensures status == if !FitsLimits(r, options) then ResourceExhausted
                      else if !IsAcceptable(r) then InvalidArgument
                      else if r.metric.TravelTime? && r.roadGraphId !in roads then FailedPrecondition
                      else if r.riders != [] && r.drivers != [] && cancelled then Cancelled
                      else Ok
    ensures status.Ok? ==> response.metricUsed == MetricUsed(r) && response.roadGraphId == GraphUsed(r)
    ensures status.Ok? ==> response.metricUsed == if r.metric == TravelTime then TravelTime else Euclidean
    ensures status.Ok? ==> response.roadGraphId == if r.metric == TravelTime then r.roadGraphId else ""
    ensures status.Ok? && (r.riders == [] || r.drivers == []) ==> IsQuietAnswer(r, response)
    ensures status.Ok? && r.riders != [] && r.drivers != [] ==>
              response.candidatesPerRider == if 0 < r.maxCandidatesPerRider < |r.drivers| then r.maxCandidatesPerRider else 0
    ensures status.Ok? && r.riders != [] && r.drivers != [] ==>
              && response.candidatesPerRider == Cap(r)
              && IsPricing(r, roads, lonScaleAt, edges) && GoodEdges(r, edges)
              && IsSettled(r, edges, a, response)
  {
    hide IsSettled, IsRoadPricing, IsEuclideanPricing, GoodParties, Priceable, SnapsInto, GoodEdges, LatSum, RG.IsCsr;
    response := Response([], [], 0, 0, MetricUsed(r), GraphUsed(r));
    edges, a := [], [];
    status := Validate(r, options);
    if !status.Ok? {
      return;
    }
    if r.metric.TravelTime? && r.roadGraphId !in roads {
      status := FailedPrecondition;
      return;
    }
    if r.riders == [] || r.drivers == [] {
      response := response.(unmatched := QuietRows(r.riders));
      return;
    }
    var priced: seq<MatchEdge>;
    if r.metric.TravelTime? {
      priced := PriceRoad(r, roads[r.roadGraphId], lonScaleAt, arcs[r.roadGraphId]);
    } else {
      ghost var mean;
      priced, mean := PriceEuclidean(r, lonScaleAt);
    }
    edges := priced;
    if cancelled {
      status := Cancelled;
      return;
    }
    response, a := Settle(r, priced);
  }

  function QuietRows(ps: seq<Party>): (rows: seq<Unmatched>)
    ensures |rows| == |ps|
    ensures forall i :: 0 <= i < |ps| ==> rows[i] == Unmatched(ps[i].id, NoDriverAvailable)
  {
    seq(|ps|, i requires 0 <= i < |ps| => Unmatched(ps[i].id, NoDriverAvailable))
  }

  // ---- What the caller may rely on ---------------------------------------------------------------------

  lemma DistinctIdsOf(ps: seq<Party>)
    requires GoodParties(ps, |ps|)
    ensures Distinct(IdsOf(ps))
  {
  }

  /** Every rider id appears exactly once in the response, and every driver id at most once. */
  lemma EachPartyOnce(r: Request, edges: seq<MatchEdge>, a: seq<int>, response: Response, id: string)
    requires IsAcceptable(r) && IsSettled(r, edges, a, response)
    ensures RiderIds(response.matches) + UnmatchedIds(response.unmatched) == multiset(IdsOf(r.riders))
    ensures RiderIds(response.matches)[id] + UnmatchedIds(response.unmatched)[id] == if id in IdsOf(r.riders) then 1 else 0
    ensures DriverIds(response.matches)[id] <= if id in IdsOf(r.drivers) then 1 else 0
  {
    hide GoodCoordinate, RiderIds, DriverIds, UnmatchedIds, MatchRows, UnmatchedRows, Within;
    var kept := Within(edges, Ceiling(r.maxPairingCost.value));
    var riders, drivers := IdsOf(r.riders), IdsOf(r.drivers);
    EveryRiderOnce(riders, drivers, edges, kept, a, r.metric.TravelTime?, |a|);
    assert riders[..|a|] == riders;
    DistinctIdsOf(r.riders);
    DistinctIdsOf(r.drivers);
    OnceEach(riders, id);
    OptimalIsLegal(|r.riders|, |r.drivers|, kept, a);
    LegalIsInjective(|r.riders|, |r.drivers|, kept, a);
    NoDriverTwice(riders, drivers, kept, a, r.metric.TravelTime?, |a|);
    UsedAreDrivers(drivers, a, id);
  }

  lemma LegalIsInjective(riders: nat, drivers: nat, kept: seq<MatchEdge>, a: seq<int>)
    requires IsLegal(riders, drivers, kept, a)
    ensures forall i, j :: 0 <= i < j < |a| && a[i] != -1 ==> a[i] != a[j]
  {
  }

  lemma UsedAreDrivers(drivers: seq<string>, a: seq<int>, id: string)
    requires forall i :: 0 <= i < |a| ==> a[i] == -1 || 0 <= a[i] < |drivers|
    ensures multiset(UsedBy(drivers, a, |a|))[id] <= if id in drivers then 1 else 0
  {
  }

  lemma {:induction false} OnceEach(s: seq<string>, id: string)
    requires Distinct(s)
    ensures multiset(s)[id] == if id in s then 1 else 0
  {
    if s != [] {
      var init := s[..|s| - 1];
      OnceEach(init, id);
      assert s == init + [s[|s| - 1]];
    }
  }

  /** A rider reported as out of drivers had affordable edges, and each driver on them is
      reported as the match of another rider. */
  lemma OutOfDrivers(r: Request, edges: seq<MatchEdge>, a: seq<int>, response: Response, row: Unmatched) returns (i: nat)
    requires IsAcceptable(r) && GoodEdges(r, edges) && IsSettled(r, edges, a, response)
    requires row in response.unmatched && row.reason == NoDriverAvailable
    ensures i < |r.riders| && row.riderId == r.riders[i].id
    ensures HasOffer(Within(edges, Ceiling(r.maxPairingCost.value)), i)
    ensures forall e :: e in Within(edges, Ceiling(r.maxPairingCost.value)) && e.rider == i ==>
              0 <= e.driver < |r.drivers| && ServesAnother(response, r.drivers[e.driver].id, row.riderId)
  {
    hide MatchRows, UnmatchedRows, TotalCost, GoodParties, ServesAnother, IsOptimal, PairsOnce, Within;
    var kept := Within(edges, Ceiling(r.maxPairingCost.value));
    i := UnmatchedRowOrigin(IdsOf(r.riders), edges, kept, a, r.metric.TravelTime?, |a|, row);
    forall e | e in kept && e.rider == i
      ensures 0 <= e.driver < |r.drivers| && ServesAnother(response, r.drivers[e.driver].id, row.riderId)
    {
      DriverServesAnother(r, edges, a, response, i, e);
    }
  }

  ghost predicate ServesAnother(response: Response, driverId: string, riderId: string)
  {
    exists m :: m in response.matches && m.driverId == driverId && m.riderId != riderId
  }

  lemma DriverServesAnother(r: Request, edges: seq<MatchEdge>, a: seq<int>, response: Response, i: nat, e: MatchEdge)
    requires IsAcceptable(r) && GoodEdges(r, edges) && IsSettled(r, edges, a, response) && i < |a| && a[i] == -1
    requires e in Within(edges, Ceiling(r.maxPairingCost.value)) && e.rider == i
    ensures 0 <= e.driver < |r.drivers| && ServesAnother(response, r.drivers[e.driver].id, r.riders[i].id)
  {
    hide MatchRows, UnmatchedRows, TotalCost, GoodCoordinate, IsOptimal, PairsOnce;
    var kept := Within(edges, Ceiling(r.maxPairingCost.value));
    NoDriverAvailableMeansTaken(|r.riders|, |r.drivers|, kept, a, i, e);
    var h: nat :| h < |a| && h != i && a[h] == e.driver;
    var riders, drivers, timed := IdsOf(r.riders), IdsOf(r.drivers), r.metric.TravelTime?;
    MatchRowPresent(riders, drivers, kept, a, timed, |a|, h);
    RowNames(riders, drivers, kept, a, timed, h);
    DistinctIdsOf(r.riders);
    assert riders[h] != riders[i];
    assert MatchRow(riders, drivers, kept, a, timed, h) in response.matches;
  }

  // ---- Arrival times ---------------------------------------------------------------------------------

  /** Every edge of a road pricing carries the driving time between the snapped positions. */
  lemma RoadEdgesAreTimes(r: Request, road: Road, lonScaleAt: real -> real, edges: seq<MatchEdge>, e: MatchEdge)
    requires IsAcceptable(r) && road.graph.Indexed() && IsRoadPricing(r, road, lonScaleAt, edges) && e in edges
    ensures 0 <= e.rider < |r.riders| && 0 <= e.driver < |r.drivers|
    ensures DriveCost(road.graph, road.snap(GeoAt(e.driver, r.drivers[e.driver].at)), road.snap(GeoAt(e.rider, r.riders[e.rider].at)), e.cost)
  {
    hide DriveCost, RG.IsCsr, IsShortlist, PairsOnce, LatitudeRange, Shortlisted;
    var riders, drivers := Snapped(Geo(r.riders), road.snap), Snapped(Geo(r.drivers), road.snap);
    if Cap(r) == 0 {
      assert RoadPriced(road.graph, riders, drivers, e);
    } else {
      var low, high :|
        && LatitudeRange(Geo(r.drivers), |Geo(r.drivers)|, Geo(r.riders), |Geo(r.riders)|, low, high)
        && IsRoadSparse(road.graph, FlatAll(Geo(r.riders), lonScaleAt((low + high) / 2.0)),
                        FlatAll(Geo(r.drivers), lonScaleAt((low + high) / 2.0)), riders, drivers, Cap(r), edges);
      assert RoadRowShortlisted(road.graph, FlatAll(Geo(r.riders), lonScaleAt((low + high) / 2.0)),
                                FlatAll(Geo(r.drivers), lonScaleAt((low + high) / 2.0)), riders, drivers, Cap(r), edges, e.rider);
      assert RoadPriced(road.graph, riders, drivers, e);
    }
  }

  /** Each match of a travel-time batch reports, to within half a second (and half a unit of
      cost), the fastest driving time from that driver to that rider. */
  lemma EtaIsFastestTime(r: Request, road: Road, lonScaleAt: real -> real, edges: seq<MatchEdge>, a: seq<int>,
                         response: Response, row: Match)
    returns (i: nat, j: nat, secs: real)
    requires IsAcceptable(r) && r.metric.TravelTime? && road.graph.Indexed() && GoodEdges(r, edges)
    requires IsRoadPricing(r, road, lonScaleAt, edges) && IsSettled(r, edges, a, response) && row in response.matches
    ensures i < |r.riders| && j < |r.drivers| && row.riderId == r.riders[i].id && row.driverId == r.drivers[j].id
    ensures RoadRoutes.IsFastest(road.graph.Forward(), road.snap(GeoAt(j, r.drivers[j].at)), road.snap(GeoAt(i, r.riders[i].at)), secs)
    ensures row.etaSeconds.Some? && -0.5005 <= row.etaSeconds.value as real - secs <= 0.5005
  {
    hide RoadRoutes.IsFastest, RG.IsCsr, EtaOf, IsRoadPricing, MatchRows, UnmatchedRows, TotalCost, PairCost, PairsOnce, Within;
    var limit := Ceiling(r.maxPairingCost.value);
    var kept := Within(edges, limit);
    i := MatchRowOrigin(IdsOf(r.riders), IdsOf(r.drivers), kept, a, true, |a|, row);
    j := a[i];
    OptimalIsLegal(|r.riders|, |r.drivers|, kept, a);
    MatchedWithinCeiling(|r.riders|, |r.drivers|, edges, limit, a, i);
    var e :| e in edges && e.rider == i && e.driver == a[i] && e.cost == PairCost(kept, i, a[i]);
    RoadEdgesAreTimes(r, road, lonScaleAt, edges, e);
    secs := EtaOfCost(road, road.snap(GeoAt(j, r.drivers[j].at)), road.snap(GeoAt(i, r.riders[i].at)), e.cost);
  }

  lemma EtaOfCost(road: Road, from: nat, to: nat, cost: int) returns (secs: real)
    requires road.graph.Indexed() && DriveCost(road.graph, from, to, cost)
    ensures RoadRoutes.IsFastest(road.graph.Forward(), from, to, secs)
    ensures -0.5005 <= EtaOf(cost) as real - secs <= 0.5005
  {
    hide RoadRoutes.IsFastest, RG.IsCsr, EtaOf;
    secs :| RoadRoutes.IsFastest(road.graph.Forward(), from, to, secs) && cost == ScaledSeconds(secs);
    EtaIsClose(secs, cost);
  }

  // ---- Which capped batches keep their drivers ---------------------------------------------------------

  /** South of the equator, or west of the prime meridian: off the square world. */
  predicate OffWorld(p: LatLng, lonScale: real)
    requires GoodCoordinate(p)
  {
    p.lat.value < 0.0 || (p.lng.value < 0.0 && 0.0 < lonScale)
  }

  lemma OffWorldIsNegative(i: int, p: LatLng, lonScale: real)
    requires GoodCoordinate(p) && 0.0 <= lonScale
    ensures OffWorld(p, lonScale) <==> Project(i, p, lonScale).x < 0.0 || Project(i, p, lonScale).y < 0.0
  {
    Signs(p.lng.value, lonScale);
    var x := p.lng.value * lonScale;
    assert x < 0.0 <==> x * METERS_PER_DEGREE_LAT < 0.0;
  }

  lemma Signs(a: real, s: real)
    requires 0.0 <= s
    ensures a * s < 0.0 <==> a < 0.0 && 0.0 < s
  {
    if a >= 0.0 {
      assert 0.0 <= a * s;
    } else if s > 0.0 {
      assert 0.0 < (-a) * s;
    }
  }

  /** If every driver is off the world, a capped batch offers nobody anything. */
  lemma NegativeCoordinatesAreLost(r: Request, lonScale: real, edges: seq<MatchEdge>)
    requires IsAcceptable(r) && 0 < Cap(r) && 0.0 <= lonScale && IsEuclideanPricing(r, lonScale, edges)
    requires forall j :: 0 <= j < |r.drivers| ==> OffWorld(r.drivers[j].at, lonScale)
    ensures edges == []
  {
    hide ScaledDistance, IsSparse, OffWorld, Project, IsDense;
    var riders, drivers := ProjectAll(r.riders, lonScale), ProjectAll(r.drivers, lonScale);
    var m :| IsMaxCoord(m, riders, drivers) && IsSparse(riders, drivers, World(m * 2.0 + 1.0), Cap(r), edges);
    if edges != [] {
      OutsideIsNeverOffered(riders, drivers, World(m * 2.0 + 1.0), Cap(r), edges, edges[0]);
      var j := edges[0].driver;
      WorldEncloses(m, drivers, j);
      OffWorldIsNegative(j, r.drivers[j].at, lonScale);
    }
  }

  /** ... and reports every rider as without candidates, although drivers were submitted. */
  lemma EverybodyIsTurnedAway(r: Request, lonScale: real, edges: seq<MatchEdge>, a: seq<int>, response: Response)
    requires IsAcceptable(r) && 0 < Cap(r) && 0.0 <= lonScale && IsEuclideanPricing(r, lonScale, edges)
    requires forall j :: 0 <= j < |r.drivers| ==> OffWorld(r.drivers[j].at, lonScale)
    requires !r.metric.TravelTime? && IsSettled(r, edges, a, response)
    ensures response.matches == [] && |response.unmatched| == |r.riders|
    ensures forall i :: 0 <= i < |r.riders| ==> response.unmatched[i] == Unmatched(r.riders[i].id, NoCandidatesInShortlist)
  {
    hide IsEuclideanPricing, IsOptimal, TotalCost, GoodParties;
    NegativeCoordinatesAreLost(r, lonScale, edges);
    OptimalIsLegal(|r.riders|, |r.drivers|, [], a);
    TurnedAwayRows(IdsOf(r.riders), IdsOf(r.drivers), a, |a|);
  }

  lemma {:induction false} TurnedAwayRows(riders: seq<string>, drivers: seq<string>, a: seq<int>, m: nat)
    requires InRangeAnswer(riders, drivers, a) && IsLegal(|riders|, |drivers|, [], a) && m <= |a|
    ensures MatchRows(riders, drivers, [], a, false, m) == []
    ensures |UnmatchedRows(riders, [], [], a, false, m)| == m
    ensures forall i :: 0 <= i < m ==> UnmatchedRows(riders, [], [], a, false, m)[i] == Unmatched(riders[i], NoCandidatesInShortlist)
  {
    if m > 0 {
      TurnedAwayRows(riders, drivers, a, m - 1);
      assert a[m - 1] == -1;
    }
  }

  /** From a point below the square world's upper ends, the last search box covers the world
      exactly when the point is at most seven world sizes beyond its lower ends. */
  lemma WorldReach(size: real, x: real, y: real)
    requires 1.0 <= size && x <= size && y <= size
    ensures FullyInReach(World(size), x, y) <==> -7.0 * size <= x && -7.0 * size <= y
  {
    var b := World(size);
    assert NT.StartRadius(QM.Larger(b.hw, b.hh)) == size / 2.0 && NT.MaxRadius(b) == 4.0 * size + 1.0;
    EightSizes(size);
  }

  lemma EightSizes(size: real)
    requires 1.0 <= size
    ensures NT.RadiusReaching(size / 2.0, 4.0 * size + 1.0) == 8.0 * size
  {
    var limit := 4.0 * size + 1.0;
    assert NT.RadiusReaching(8.0 * size, limit) == 8.0 * size;
    assert NT.RadiusReaching(4.0 * size, limit) == 8.0 * size;
    assert NT.RadiusReaching(2.0 * size, limit) == 8.0 * size;
    assert NT.RadiusReaching(size, limit) == 8.0 * size;
  }

  /** No coordinate of the rider is more than seven world sizes below zero. */
  ghost predicate NearWorld(r: Request, lonScale: real, i: nat)
    requires IsAcceptable(r) && i < |r.riders|
  {
    var p := Project(i, r.riders[i].at, lonScale);
    forall m :: IsMaxCoord(m, ProjectAll(r.riders, lonScale), ProjectAll(r.drivers, lonScale)) ==>
      -7.0 * (m * 2.0 + 1.0) <= p.x && -7.0 * (m * 2.0 + 1.0) <= p.y
  }

  lemma OnWorldIsNear(r: Request, lonScale: real, i: nat)
    requires IsAcceptable(r) && i < |r.riders| && 0.0 <= lonScale && !OffWorld(r.riders[i].at, lonScale)
    ensures NearWorld(r, lonScale, i)
  {
    hide IsMaxCoord, Project;
    OffWorldIsNegative(i, r.riders[i].at, lonScale);
    forall m | IsMaxCoord(m, ProjectAll(r.riders, lonScale), ProjectAll(r.drivers, lonScale)) ensures 0.0 <= m {
      MaxIsPositive(m, ProjectAll(r.riders, lonScale), ProjectAll(r.drivers, lonScale));
    }
  }

  lemma MaxIsPositive(m: real, riders: seq<QM.Point>, drivers: seq<QM.Point>)
    requires IsMaxCoord(m, riders, drivers)
    ensures 0.0 <= m && IsReach(m, riders) && IsReach(m, drivers)
  {
  }

  ghost predicate HasReach(r: Request, lonScale: real, m: real)
    requires IsAcceptable(r)
  {
    IsMaxCoord(m, ProjectAll(r.riders, lonScale), ProjectAll(r.drivers, lonScale))
  }

  lemma OneReach(m: real, n: real, riders: seq<QM.Point>, drivers: seq<QM.Point>)
    requires IsMaxCoord(m, riders, drivers) && IsMaxCoord(n, riders, drivers)
    ensures m == n
  {
  }

  /** Any rider of any capped batch keeps its cheapest dense edges exactly when each driver it
      does not see has as many that it sees, at no higher cost, as the cap allows. */
  lemma CapKeepsCheapestExactlyWhen(r: Request, lonScale: real, m: real, dense: seq<MatchEdge>, edges: seq<MatchEdge>, i: nat)
    requires IsAcceptable(r) && 0 < Cap(r) && IsEuclideanPricing(r, lonScale, edges) && HasReach(r, lonScale, m)
    requires IsDense(ProjectAll(r.riders, lonScale), ProjectAll(r.drivers, lonScale), dense) && i < |r.riders|
    ensures var riders, drivers := ProjectAll(r.riders, lonScale), ProjectAll(r.drivers, lonScale);
            KeepsCheapest(dense, edges, i, |r.drivers|, Cap(r))
            <==> UnseenAreReplaceable(riders[i], drivers, SeenDrivers(riders[i], drivers, World(m * 2.0 + 1.0)), Cap(r))
  {
    hide ScaledDistance, IsSparse, Project, IsDense, KeepsCheapest, SeenDrivers, UnseenAreReplaceable, IsMaxCoord;
    var riders, drivers := ProjectAll(r.riders, lonScale), ProjectAll(r.drivers, lonScale);
    var n :| IsMaxCoord(n, riders, drivers) && IsSparse(riders, drivers, World(n * 2.0 + 1.0), Cap(r), edges);
    OneReach(m, n, riders, drivers);
    KeepsCheapestExactlyWhen(riders, drivers, World(m * 2.0 + 1.0), Cap(r), dense, edges, i);
  }

  /** The drivers on the world. */
  ghost function OnWorld(r: Request, lonScale: real): (on: set<int>)
    requires IsAcceptable(r)
    ensures forall j :: j in on <==> 0 <= j < |r.drivers| && !OffWorld(r.drivers[j].at, lonScale)
  {
    set j | 0 <= j < |r.drivers| && !OffWorld(r.drivers[j].at, lonScale)
  }

  /** A rider on the world or near it sees exactly the drivers on the world. */
  lemma NearRiderSeesWorld(r: Request, lonScale: real, m: real, i: nat)
    requires IsAcceptable(r) && 0.0 <= lonScale && HasReach(r, lonScale, m) && i < |r.riders| && NearWorld(r, lonScale, i)
    ensures SeenDrivers(ProjectAll(r.riders, lonScale)[i], ProjectAll(r.drivers, lonScale), World(m * 2.0 + 1.0)) == OnWorld(r, lonScale)
  {
    hide OffWorld, Project, FullyInReach, IsMaxCoord, SeenDrivers;
    var riders, drivers := ProjectAll(r.riders, lonScale), ProjectAll(r.drivers, lonScale);
    var box := World(m * 2.0 + 1.0);
    MaxIsPositive(m, riders, drivers);
    WorldReach(m * 2.0 + 1.0, riders[i].x, riders[i].y);
    SeenAreInside(riders[i], drivers, box);
    forall j | 0 <= j < |drivers| ensures j in DriversIn(drivers, box, |drivers|) <==> j in OnWorld(r, lonScale) {
      WorldEncloses(m, drivers, j);
      OffWorldIsNegative(j, r.drivers[j].at, lonScale);
    }
  }

  /** So for such a rider nothing cheaper is lost exactly when each driver off the world has as
      many on it, at no higher cost, as the cap allows. */
  lemma NearRiderKeepsCheapestExactlyWhen(r: Request, lonScale: real, dense: seq<MatchEdge>, edges: seq<MatchEdge>, i: nat)
    requires IsAcceptable(r) && 0 < Cap(r) && 0.0 <= lonScale && IsEuclideanPricing(r, lonScale, edges)
    requires IsDense(ProjectAll(r.riders, lonScale), ProjectAll(r.drivers, lonScale), dense)
    requires i < |r.riders| && NearWorld(r, lonScale, i)
    ensures var riders, drivers := ProjectAll(r.riders, lonScale), ProjectAll(r.drivers, lonScale);
            KeepsCheapest(dense, edges, i, |r.drivers|, Cap(r))
            <==> UnseenAreReplaceable(riders[i], drivers, OnWorld(r, lonScale), Cap(r))
  {
    hide ScaledDistance, IsSparse, Project, IsDense, KeepsCheapest, SeenDrivers, UnseenAreReplaceable, IsMaxCoord, OffWorld, NearWorld;
    var riders, drivers := ProjectAll(r.riders, lonScale), ProjectAll(r.drivers, lonScale);
    var m :| IsMaxCoord(m, riders, drivers) && IsSparse(riders, drivers, World(m * 2.0 + 1.0), Cap(r), edges);
    NearRiderSeesWorld(r, lonScale, m, i);
    CapKeepsCheapestExactlyWhen(r, lonScale, m, dense, edges, i);
  }

  /** In particular when no driver is off the world. */
  lemma OnWorldKeepsCheapest(r: Request, lonScale: real, dense: seq<MatchEdge>, edges: seq<MatchEdge>, i: nat)
    requires IsAcceptable(r) && 0 < Cap(r) && 0.0 <= lonScale && IsEuclideanPricing(r, lonScale, edges)
    requires IsDense(ProjectAll(r.riders, lonScale), ProjectAll(r.drivers, lonScale), dense)
    requires forall j :: 0 <= j < |r.drivers| ==> !OffWorld(r.drivers[j].at, lonScale)
    requires i < |r.riders| && NearWorld(r, lonScale, i)
    ensures KeepsCheapest(dense, edges, i, |r.drivers|, Cap(r))
  {
    hide ScaledDistance, Project, IsDense, KeepsCheapest, OffWorld, NearWorld, IsEuclideanPricing;
    NearRiderKeepsCheapestExactlyWhen(r, lonScale, dense, edges, i);
  }

  /** A rider far south and two drivers at the origin, one candidate per rider. */
  const FarBatch := Request([Party("rider", LatLng(Finite(-45.0), Finite(0.0)))],
                            [Party("one", LatLng(Finite(0.0), Finite(0.0))), Party("two", LatLng(Finite(0.0), Finite(0.0)))],
                            Euclidean, "", 1, Finite(0.0))

  /** No driver is off the world, and yet this rider, beyond reach, is offered nobody. */
  lemma FarRiderSeesNobody(lonScale: real, edges: seq<MatchEdge>)
    requires 0.0 <= lonScale
    ensures IsAcceptable(FarBatch) && Cap(FarBatch) == 1
    ensures forall j :: 0 <= j < |FarBatch.drivers| ==> !OffWorld(FarBatch.drivers[j].at, lonScale)
    ensures IsEuclideanPricing(FarBatch, lonScale, edges) ==> edges == []
  {
    assert "one"[0] != "two"[0];
    if IsEuclideanPricing(FarBatch, lonScale, edges) {
      FarEdges(lonScale, edges);
    }
  }

  lemma FarEdges(lonScale: real, edges: seq<MatchEdge>)
    requires 0.0 <= lonScale && IsAcceptable(FarBatch) && IsEuclideanPricing(FarBatch, lonScale, edges)
    ensures edges == []
  {
    hide ScaledDistance, SeenDrivers, IsShortlist, IsSparse, Shortlisted;
    FarPoints(lonScale);
    var riders, drivers := ProjectAll(FarBatch.riders, lonScale), ProjectAll(FarBatch.drivers, lonScale);
    var m :| IsMaxCoord(m, riders, drivers) && IsSparse(riders, drivers, World(m * 2.0 + 1.0), 1, edges);
    hide Project, ProjectAll;
    assert m == 0.0;
    if edges != [] {
      RowOf(riders, drivers, World(1.0), 1, edges, 0);
      assert edges[0] in edges && Priced(riders, drivers, edges[0]) && edges[0].rider == 0;
      FirstIsShortlisted(edges);
      FarDriversUnseen(riders[0], drivers);
    }
  }

  lemma FirstIsShortlisted(edges: seq<MatchEdge>)
    requires edges != []
    ensures edges[0].driver in Shortlisted(edges, edges[0].rider)
  {
  }

  lemma FarPoints(lonScale: real)
    requires IsAcceptable(FarBatch)
    ensures ProjectAll(FarBatch.riders, lonScale) == [QM.Point(0, 0.0, -45.0 * METERS_PER_DEGREE_LAT)]
    ensures ProjectAll(FarBatch.drivers, lonScale) == [QM.Point(0, 0.0, 0.0), QM.Point(1, 0.0, 0.0)]
  {
  }

  lemma FarDriversUnseen(rider: QM.Point, drivers: seq<QM.Point>)
    requires rider.x == 0.0 && rider.y == -45.0 * METERS_PER_DEGREE_LAT
    requires forall j :: 0 <= j < |drivers| ==> drivers[j].x == drivers[j].y == 0.0
    ensures SeenDrivers(rider, drivers, World(1.0)) == {}
  {
    hide Overlap;
    EightSizes(1.0);
    assert OutsideRadius(World(1.0)) == 8.0;
    forall j | 0 <= j < |drivers| ensures !SeenBox(World(1.0), rider.x, rider.y).Contains(drivers[j]) {
      OverlapHolds(World(1.0), NT.SearchBox(rider.x, rider.y, 8.0), drivers[j]);
    }
  }

  /** One rider and two drivers in Sydney, one candidate per rider. */
  const SydneyBatch := Request([Party("rider", LatLng(Finite(-33.87), Finite(151.21)))],
                               [Party("near", LatLng(Finite(-33.87), Finite(151.21))), Party("far", LatLng(Finite(-33.90), Finite(151.25)))],
                               Euclidean, "", 1, Finite(0.0))

  lemma SydneyIsAcceptable()
    ensures IsAcceptable(SydneyBatch) && IsAcceptable(SydneyBatch.(maxCandidatesPerRider := 0)) && Cap(SydneyBatch) == 1
  {
    assert "near"[0] != "far"[0];
  }

  /** The capped batch turns the rider away, the same batch without a cap offers it a driver
      at no distance at all. */
  lemma SydneyIsTurnedAway(lonScale: real, edges: seq<MatchEdge>, a: seq<int>, response: Response, dense: seq<MatchEdge>)
    requires 0.0 <= lonScale
    ensures IsAcceptable(SydneyBatch) && IsAcceptable(SydneyBatch.(maxCandidatesPerRider := 0))
    ensures IsEuclideanPricing(SydneyBatch, lonScale, edges) && IsSettled(SydneyBatch, edges, a, response) ==>
              response.matches == [] && response.unmatched == [Unmatched("rider", NoCandidatesInShortlist)]
    ensures IsEuclideanPricing(SydneyBatch.(maxCandidatesPerRider := 0), lonScale, dense) ==> MatchEdge(0, 0, 0) in dense
  {
    hide IsSettled, ScaledDistance, IsEuclideanPricing, IsAcceptable;
    SydneyIsAcceptable();
    if IsEuclideanPricing(SydneyBatch, lonScale, edges) && IsSettled(SydneyBatch, edges, a, response) {
      EverybodyIsTurnedAway(SydneyBatch, lonScale, edges, a, response);
    }
    if IsEuclideanPricing(SydneyBatch.(maxCandidatesPerRider := 0), lonScale, dense) {
      SydneyUncapped(lonScale, dense);
    }
  }

  lemma SydneyUncapped(lonScale: real, dense: seq<MatchEdge>)
    requires IsAcceptable(SydneyBatch.(maxCandidatesPerRider := 0)) && IsEuclideanPricing(SydneyBatch.(maxCandidatesPerRider := 0), lonScale, dense)
    ensures MatchEdge(0, 0, 0) in dense
  {
    var r := SydneyBatch.(maxCandidatesPerRider := 0);
    var riders, drivers := ProjectAll(r.riders, lonScale), ProjectAll(r.drivers, lonScale);
    var d := NT.DistSq(riders[0].x, riders[0].y, drivers[0]);
    assert d == 0.0;
    assert IsRoundedRoot(0.0, ScaledDistance(riders[0], drivers[0]));
    assert ScaledDistance(riders[0], drivers[0]) == 0;
    assert Priced(riders, drivers, MatchEdge(0, 0, 0));
  }
}
