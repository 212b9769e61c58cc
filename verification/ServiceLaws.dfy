/** What a batch response means in the terms of the request alone: its price ceiling, its
    coordinates, its cap. */
module ServiceLaws {
  import opened Basics
  import opened MatchingNetwork
  import opened CostMatrix
  import opened RoadEdges
  import opened BatchOutcome
  import opened MatchingService
  import RG = RoadGraph
  import RoadRoutes

  // ---- The price ceiling ------------------------------------------------------------------------

  /** Below the request's ceiling, in thousandths and rounded; zero means no ceiling. */
  ghost predicate Affordable(r: Request, e: MatchEdge)
    requires r.maxPairingCost.Finite?
  {
    r.maxPairingCost.value > 0.0 ==> e.cost as real <= r.maxPairingCost.value * 1000.0 + 0.5
  }

  lemma KeptAreAffordable(r: Request, edges: seq<MatchEdge>, e: MatchEdge)
    requires r.maxPairingCost.Finite?
    ensures e in Within(edges, Ceiling(r.maxPairingCost.value)) <==> e in edges && Affordable(r, e)
  {
    var x := r.maxPairingCost.value * 1000.0 + 0.5;
    AtMostFloor(e.cost, x);
  }

  lemma AtMostFloor(n: int, x: real)
    ensures n <= x.Floor <==> n as real <= x
  {
  }

  /** Every match of the response is of a pair on offer whose one edge respects the ceiling. */
  lemma MatchesRespectCeiling(r: Request, edges: seq<MatchEdge>, a: seq<int>, response: Response, row: Match)
    returns (i: nat, j: nat, e: MatchEdge)
    requires IsAcceptable(r) && GoodEdges(r, edges) && IsSettled(r, edges, a, response) && row in response.matches
    ensures i < |r.riders| && j < |r.drivers| && row.riderId == r.riders[i].id && row.driverId == r.drivers[j].id
    ensures e in edges && e.rider == i && e.driver == j
    ensures r.maxPairingCost.value > 0.0 ==> e.cost as real <= r.maxPairingCost.value * 1000.0 + 0.5
    ensures forall d :: d in edges && d.rider == i && d.driver == j ==> d == e
    ensures row.etaSeconds.Some? <==> r.metric == TravelTime
  {
    hide MatchRows, UnmatchedRows, TotalCost, GoodParties, IsOffered, Within, Ceiling;
    var kept := Within(edges, Ceiling(r.maxPairingCost.value));
    i := MatchRowOrigin(IdsOf(r.riders), IdsOf(r.drivers), kept, a, r.metric.TravelTime?, |a|, row);
    j := a[i];
    RowNames(IdsOf(r.riders), IdsOf(r.drivers), kept, a, r.metric.TravelTime?, i);
    OptimalIsLegal(|r.riders|, |r.drivers|, kept, a);
    var k := OfferedEdge(|r.riders|, |r.drivers|, kept, a, i);
    e := kept[k];
    assert e in kept;
    KeptAreAffordable(r, edges, e);
    forall d | d in edges && d.rider == i && d.driver == j ensures d == e {
      OneEdgePerPair(edges, d, e);
    }
  }

  lemma OfferedEdge(riders: nat, drivers: nat, kept: seq<MatchEdge>, a: seq<int>, i: nat) returns (k: nat)
    requires IsLegal(riders, drivers, kept, a) && i < |a| && a[i] >= 0
    ensures k < |kept| && kept[k].rider == i && kept[k].driver == a[i]
  {
    assert IsOffered(kept, i, a[i]);
    k :| k < |kept| && kept[k].rider == i && kept[k].driver == a[i];
  }

  lemma OneEdgePerPair(edges: seq<MatchEdge>, d: MatchEdge, e: MatchEdge)
    requires PairsOnce(edges) && d in edges && e in edges && d.rider == e.rider && d.driver == e.driver
    ensures d == e
  {
    var k :| 0 <= k < |edges| && edges[k] == d;
    var l :| 0 <= l < |edges| && edges[l] == e;
    assert k == l;
  }

  /** The same edges in another order are priced the same. */
  lemma SamePrice(x: seq<MatchEdge>, y: seq<MatchEdge>, i: int, j: int)
    requires PairsOnce(x) && PairsOnce(y) && (forall e :: e in x <==> e in y) && IsOffered(x, i, j)
    ensures IsOffered(y, i, j) && PairCost(x, i, j) == PairCost(y, i, j)
  {
    hide PairsOnce, PairCost;
    var k :| 0 <= k < |x| && x[k].rider == i && x[k].driver == j;
    assert x[k] in y;
    var l :| 0 <= l < |y| && y[l] == x[k];
    OnlyPrice(x, k);
    OnlyPrice(y, l);
  }

  lemma SameLegal(riders: nat, drivers: nat, x: seq<MatchEdge>, y: seq<MatchEdge>, a: seq<int>)
    requires PairsOnce(x) && PairsOnce(y) && (forall e :: e in x <==> e in y) && IsLegal(riders, drivers, x, a)
    ensures IsLegal(riders, drivers, y, a) && TotalCost(x, a) == TotalCost(y, a)
  {
    hide PairsOnce, IsOffered;
    forall i | 0 <= i < riders && a[i] != -1 ensures IsOffered(y, i, a[i]) {
      SamePrice(x, y, i, a[i]);
    }
    SameTotal(riders, drivers, x, y, a, |a|);
  }

  lemma {:induction false} SameTotal(riders: nat, drivers: nat, x: seq<MatchEdge>, y: seq<MatchEdge>, a: seq<int>, m: nat)
    requires PairsOnce(x) && PairsOnce(y) && (forall e :: e in x <==> e in y) && IsLegal(riders, drivers, x, a) && m <= |a|
    ensures CostOfFirst(x, a, m) == CostOfFirst(y, a, m)
  {
    hide PairsOnce, PairCost, IsOffered;
    if m > 0 {
      SameTotal(riders, drivers, x, y, a, m - 1);
      if a[m - 1] >= 0 {
        SamePrice(x, y, m - 1, a[m - 1]);
      }
    }
  }

  lemma SameOptimum(riders: nat, drivers: nat, x: seq<MatchEdge>, y: seq<MatchEdge>, a: seq<int>)
    requires PairsOnce(x) && PairsOnce(y) && (forall e :: e in x <==> e in y) && IsOptimal(riders, drivers, x, a)
    ensures IsOptimal(riders, drivers, y, a) && TotalCost(x, a) == TotalCost(y, a)
  {
    hide PairsOnce, IsLegal, TotalCost;
    SameLegal(riders, drivers, x, y, a);
    forall b | IsLegal(riders, drivers, y, b)
      ensures Matched(b) <= Matched(a) && (Matched(b) == Matched(a) ==> TotalCost(y, a) <= TotalCost(y, b))
    {
      SameLegal(riders, drivers, y, x, b);
    }
  }

  /** The assignment reported is optimal over exactly the edges within the ceiling, in whatever
      order they are listed, and over all edges when there is no ceiling. */
  lemma OptimalOverAffordable(r: Request, edges: seq<MatchEdge>, a: seq<int>, response: Response, kept: seq<MatchEdge>)
    requires IsAcceptable(r) && GoodEdges(r, edges) && IsSettled(r, edges, a, response) && PairsOnce(kept)
    requires forall e :: e in kept <==> e in edges && (r.maxPairingCost.value > 0.0 ==> e.cost as real <= r.maxPairingCost.value * 1000.0 + 0.5)
    ensures IsOptimal(|r.riders|, |r.drivers|, kept, a) && response.totalCost == TotalCost(kept, a)
  {
    hide MatchRows, UnmatchedRows, GoodParties, IsOptimal, TotalCost, PairsOnce, Within, Ceiling;
    var solved := Within(edges, Ceiling(r.maxPairingCost.value));
    WithinKeepsPairsOnce(edges, Ceiling(r.maxPairingCost.value));
    forall e ensures e in solved <==> e in kept {
      KeptAreAffordable(r, edges, e);
    }
    SameOptimum(|r.riders|, |r.drivers|, solved, kept, a);
  }

  ghost predicate HasEdge(edges: seq<MatchEdge>, i: nat)
  {
    exists e :: e in edges && e.rider == i
  }

  ghost predicate HasAffordable(r: Request, edges: seq<MatchEdge>, i: nat)
    requires r.maxPairingCost.Finite?
  {
    exists e :: e in edges && e.rider == i && Affordable(r, e)
  }

  /** The reason given to an unmatched rider, each exactly when it is true. */
  lemma ReasonsAreExact(r: Request, edges: seq<MatchEdge>, a: seq<int>, response: Response, row: Unmatched) returns (i: nat)
    requires IsAcceptable(r) && GoodEdges(r, edges) && IsSettled(r, edges, a, response) && row in response.unmatched
    ensures i < |r.riders| && row.riderId == r.riders[i].id
    ensures row.reason == AllCandidatesAboveCutoff <==>
            && HasEdge(edges, i) && r.maxPairingCost.value > 0.0
            && forall e :: e in edges && e.rider == i ==> r.maxPairingCost.value * 1000.0 + 0.5 < e.cost as real
    ensures row.reason == Unreachable <==> r.metric.TravelTime? && !HasEdge(edges, i)
    ensures row.reason == NoCandidatesInShortlist <==> !r.metric.TravelTime? && !HasEdge(edges, i)
    ensures row.reason == NoDriverAvailable <==> HasAffordable(r, edges, i)
  {
    hide MatchRows, UnmatchedRows, GoodParties, IsOptimal, TotalCost, PairsOnce, Within, Ceiling;
    var kept := Within(edges, Ceiling(r.maxPairingCost.value));
    i := UnmatchedRowOrigin(IdsOf(r.riders), edges, kept, a, r.metric.TravelTime?, |a|, row);
    OffersAreAffordable(r, edges, i);
    assert HasOffer(edges, i) <==> HasEdge(edges, i);
  }

  lemma OffersAreAffordable(r: Request, edges: seq<MatchEdge>, i: nat)
    requires r.maxPairingCost.Finite?
    ensures HasOffer(Within(edges, Ceiling(r.maxPairingCost.value)), i) <==> HasAffordable(r, edges, i)
  {
    hide Within, Ceiling, Affordable;
    forall e ensures e in Within(edges, Ceiling(r.maxPairingCost.value)) <==> e in edges && Affordable(r, e) {
      KeptAreAffordable(r, edges, e);
    }
  }

  // ---- Prices ----------------------------------------------------------------------------------------

  /** The metres from one position east to another, with longitudes shortened by the scale, ... */
  ghost function EastMetres(p: LatLng, d: LatLng, lonScale: real): real
    requires p.lng.Finite? && d.lng.Finite?
  {
    (p.lng.value - d.lng.value) * lonScale * 111320.0
  }

  /** ... and the metres north: 111320 to a degree. */
  ghost function NorthMetres(p: LatLng, d: LatLng): real
    requires p.lat.Finite? && d.lat.Finite?
  {
    (p.lat.value - d.lat.value) * 111320.0
  }

  ghost predicate CostsItsMetres(p: LatLng, d: LatLng, lonScale: real, n: int)
    requires p.lat.Finite? && p.lng.Finite? && d.lat.Finite? && d.lng.Finite?
  {
    IsScaledLength(EastMetres(p, d, lonScale), NorthMetres(p, d), n)
  }

  /** So costs every edge of a euclidean batch. */
  lemma EuclideanPrice(r: Request, lonScale: real, edges: seq<MatchEdge>, e: MatchEdge)
    requires IsAcceptable(r) && IsEuclideanPricing(r, lonScale, edges) && e in edges
    ensures 0 <= e.rider < |r.riders| && 0 <= e.driver < |r.drivers|
    ensures CostsItsMetres(r.riders[e.rider].at, r.drivers[e.driver].at, lonScale, e.cost)
  {
    hide ScaledDistance, IsShortlist, IsScaledLength, EastMetres, NorthMetres, Project;
    var riders, drivers := ProjectAll(r.riders, lonScale), ProjectAll(r.drivers, lonScale);
    assert Priced(riders, drivers, e);
    PricedByLength(riders, drivers, e);
    ProjectedDifference(e.rider, r.riders[e.rider].at, e.driver, r.drivers[e.driver].at, lonScale);
  }

  lemma ProjectedDifference(i: int, p: LatLng, j: int, d: LatLng, lonScale: real)
    requires GoodCoordinate(p) && GoodCoordinate(d)
    ensures Project(i, p, lonScale).x - Project(j, d, lonScale).x == EastMetres(p, d, lonScale)
    ensures Project(i, p, lonScale).y - Project(j, d, lonScale).y == NorthMetres(p, d)
  {
    var a, b, c := p.lng.value * lonScale, d.lng.value * lonScale, (p.lng.value - d.lng.value) * lonScale;
    assert c == a - b;
    assert a * 111320.0 - b * 111320.0 == c * 111320.0;
  }

  /** The node that the i-th party of a list snaps to. */
  function SnapOf(road: Road, i: int, p: LatLng): nat
    requires p.lat.Finite? && p.lng.Finite?
  {
    road.snap(GeoPoint(i, p.lat.value, p.lng.value))
  }

  /** A travel-time edge costs a thousand times the fastest driving time between the snapped
      positions. */
  lemma TravelPrice(r: Request, road: Road, lonScaleAt: real -> real, edges: seq<MatchEdge>, e: MatchEdge)
    requires IsAcceptable(r) && road.graph.Indexed() && IsRoadPricing(r, road, lonScaleAt, edges) && e in edges
    ensures 0 <= e.rider < |r.riders| && 0 <= e.driver < |r.drivers|
    ensures CostsItsTime(road.graph, SnapOf(road, e.driver, r.drivers[e.driver].at), SnapOf(road, e.rider, r.riders[e.rider].at), e.cost)
  {
    hide DriveCost, RG.IsCsr, CostsItsTime, IsRoadPricing;
    RoadEdgesAreTimes(r, road, lonScaleAt, edges, e);
    DriveCostIsTime(road.graph, road.snap(GeoAt(e.driver, r.drivers[e.driver].at)), road.snap(GeoAt(e.rider, r.riders[e.rider].at)), e.cost);
  }

  // ---- The cap ---------------------------------------------------------------------------------------

  /** Between nought and the driver count the cap limits every rider's offers; anywhere else
      each rider is offered every driver. */
  lemma EuclideanCap(r: Request, lonScale: real, edges: seq<MatchEdge>, i: nat)
    requires IsAcceptable(r) && IsEuclideanPricing(r, lonScale, edges) && i < |r.riders|
    ensures 0 < r.maxCandidatesPerRider < |r.drivers| ==> |Shortlisted(edges, i)| <= r.maxCandidatesPerRider
    ensures !(0 < r.maxCandidatesPerRider < |r.drivers|) ==> forall j :: j in Shortlisted(edges, i) <==> 0 <= j < |r.drivers|
  {
    hide ScaledDistance, SeenDrivers;
    var riders, drivers := ProjectAll(r.riders, lonScale), ProjectAll(r.drivers, lonScale);
    if 0 < r.maxCandidatesPerRider < |r.drivers| {
      var m :| IsMaxCoord(m, riders, drivers) && IsSparse(riders, drivers, World(m * 2.0 + 1.0), Cap(r), edges);
      assert RowShortlisted(riders, drivers, World(m * 2.0 + 1.0), Cap(r), edges, i);
    } else {
      forall j ensures j in Shortlisted(edges, i) <==> 0 <= j < |r.drivers| {
        if 0 <= j < |r.drivers| {
          var e := MatchEdge(i, j, ScaledDistance(riders[i], drivers[j]));
          assert Priced(riders, drivers, e);
          assert e in edges;
        }
      }
    }
  }

  /** The same for travel times, except that only those who can get there are offered. */
  lemma TravelCap(r: Request, road: Road, lonScaleAt: real -> real, edges: seq<MatchEdge>, i: nat)
    requires IsAcceptable(r) && road.graph.Indexed() && IsRoadPricing(r, road, lonScaleAt, edges) && i < |r.riders|
    ensures 0 < r.maxCandidatesPerRider < |r.drivers| ==> |Shortlisted(edges, i)| <= r.maxCandidatesPerRider
    ensures !(0 < r.maxCandidatesPerRider < |r.drivers|) ==>
              forall j :: j in Shortlisted(edges, i) <==>
                && 0 <= j < |r.drivers|
                && RoadRoutes.CanReach(road.graph.Forward(), SnapOf(road, j, r.drivers[j].at), SnapOf(road, i, r.riders[i].at))
  {
    hide DriveCost, RG.IsCsr, RoadRoutes.CanReach, LatitudeRange, PairsOnce, Everyone;
    var riders, drivers := Geo(r.riders), Geo(r.drivers);
    var riderNodes, driverNodes := Snapped(riders, road.snap), Snapped(drivers, road.snap);
    if 0 < r.maxCandidatesPerRider < |r.drivers| {
      var low, high :|
        && LatitudeRange(drivers, |drivers|, riders, |riders|, low, high)
        && IsRoadSparse(road.graph, FlatAll(riders, lonScaleAt((low + high) / 2.0)), FlatAll(drivers, lonScaleAt((low + high) / 2.0)),
                        riderNodes, driverNodes, Cap(r), edges);
      var s := lonScaleAt((low + high) / 2.0);
      assert RoadRowShortlisted(road.graph, FlatAll(riders, s), FlatAll(drivers, s), riderNodes, driverNodes, Cap(r), edges, i);
      var near :| IsShortlist(FlatAll(riders, s)[i], FlatAll(drivers, s), Everyone(|drivers|), Cap(r), near)
                  && forall e: MatchEdge :: e.rider == i ==> (e in edges <==> e.driver in near && RoadPriced(road.graph, riderNodes, driverNodes, e));
      SubsetSize(Shortlisted(edges, i), near);
    } else {
      forall j | j in Shortlisted(edges, i) ensures 0 <= j < |r.drivers| {
        var e :| e in edges && e.rider == i && e.driver == j;
        assert RoadPriced(road.graph, riderNodes, driverNodes, e);
      }
      forall j: nat | j < |r.drivers|
        ensures j in Shortlisted(edges, i) <==>
                RoadRoutes.CanReach(road.graph.Forward(), road.snap(GeoAt(j, r.drivers[j].at)), road.snap(GeoAt(i, r.riders[i].at)))
      {
        assert driverNodes[j] == road.snap(GeoAt(j, r.drivers[j].at)) && riderNodes[i] == road.snap(GeoAt(i, r.riders[i].at));
      }
    }
  }
}
