/** The correspondence between legal assignments and flows of the matching network, in
    both directions, and what it makes of an optimal flow. */
module MatchingFlow {
  import opened Residual
  import opened FlowTheory
  import opened MatchingNetwork

  // ---- Cost, grouped by rider --------------------------------------------------------

  ghost function OfferCost(offered: seq<MatchEdge>, x: seq<int>, m: nat): int
    requires m <= |offered| == |x|
  {
    if m == 0 then 0 else OfferCost(offered, x, m - 1) + x[m - 1] * offered[m - 1].cost
  }

  ghost function CostByRider(offered: seq<MatchEdge>, x: seq<int>, riders: nat, m: nat): int
    requires m <= |offered| == |x|
  {
    if riders == 0 then 0 else CostByRider(offered, x, riders - 1, m) + RiderCost(offered, x, riders - 1, m)
  }

  lemma {:induction false} CostByRiderStep(offered: seq<MatchEdge>, x: seq<int>, riders: nat, m: nat)
    requires 0 < m <= |offered| == |x|
    ensures CostByRider(offered, x, riders, m) == CostByRider(offered, x, riders, m - 1)
              + if 0 <= offered[m - 1].rider < riders then x[m - 1] * offered[m - 1].cost else 0
  {
    if riders > 0 {
      CostByRiderStep(offered, x, riders - 1, m);
    }
  }

  lemma {:induction false} CostByRiderEmpty(offered: seq<MatchEdge>, x: seq<int>, riders: nat)
    requires |offered| == |x|
    ensures CostByRider(offered, x, riders, 0) == 0
  {
    if riders > 0 {
      CostByRiderEmpty(offered, x, riders - 1);
    }
  }

  lemma {:induction false} OfferCostByRider(riders: nat, drivers: nat, offered: seq<MatchEdge>, x: seq<int>, m: nat)
    requires m <= |offered| == |x| && forall k :: 0 <= k < m ==> InRange(riders, drivers, offered[k])
    ensures OfferCost(offered, x, m) == CostByRider(offered, x, riders, m)
  {
    if m == 0 {
      CostByRiderEmpty(offered, x, riders);
    } else {
      OfferCostByRider(riders, drivers, offered, x, m - 1);
      CostByRiderStep(offered, x, riders, m);
      assert InRange(riders, drivers, offered[m - 1]);
    }
  }

  lemma {:induction false} FlowCostOverOffers(riders: nat, drivers: nat, offered: seq<MatchEdge>, net: Net, h: Flow, m: nat)
    requires IsNetwork(riders, drivers, offered, net) && |h| == |net| / 2 && m <= |h|
    ensures CostUpTo(net, h, m) == if riders + drivers < m then
              OfferCost(offered, OverOffers(riders, drivers, offered, h), m - riders - drivers) else 0
  {
    if m > 0 {
      FlowCostOverOffers(riders, drivers, offered, net, h, m - 1);
      assert IsPair(riders, drivers, offered, net, m - 1);
    }
  }

  lemma {:induction false} FlowCostByRider(riders: nat, drivers: nat, offered: seq<MatchEdge>, net: Net, h: Flow)
    requires IsNetwork(riders, drivers, offered, net) && |h| == |net| / 2
    ensures Cost(net, h) == CostByRider(offered, OverOffers(riders, drivers, offered, h), riders, |offered|)
  {
    FlowCostOverOffers(riders, drivers, offered, net, h, |h|);
    forall k: nat | k < |offered| ensures InRange(riders, drivers, offered[k]) {
      assert IsPair(riders, drivers, offered, net, riders + drivers + k);
    }
    OfferCostByRider(riders, drivers, offered, OverOffers(riders, drivers, offered, h), |offered|);
  }

  // ---- From an assignment to a flow ---------------------------------------------------

  /** Offer `k` carries the assignment: it is the cheapest offer of a matched pair. */
  ghost predicate Carries(offered: seq<MatchEdge>, b: seq<int>, k: nat)
    requires k < |offered|
  {
    && 0 <= offered[k].rider < |b|
    && b[offered[k].rider] == offered[k].driver
    && Pick(offered, offered[k].rider, offered[k].driver, |offered|) == k
  }

  ghost function Selection(offered: seq<MatchEdge>, b: seq<int>): (x: seq<int>)
    ensures |x| == |offered|
  {
    seq(|offered|, k requires 0 <= k < |offered| => if Carries(offered, b, k) then 1 else 0)
  }

  ghost function FlowOf(riders: nat, drivers: nat, offered: seq<MatchEdge>, b: seq<int>): (h: Flow)
    requires |b| == riders
    ensures |h| == riders + drivers + |offered|
  {
    seq(riders, i requires 0 <= i < riders => if b[i] >= 0 then 1 else 0)
    + seq(drivers, j requires 0 <= j < drivers => if j in b then 1 else 0)
    + Selection(offered, b)
  }

  lemma FlowOfParts(riders: nat, drivers: nat, offered: seq<MatchEdge>, b: seq<int>)
    requires |b| == riders
    ensures OverOffers(riders, drivers, offered, FlowOf(riders, drivers, offered, b)) == Selection(offered, b)
    ensures forall i: nat :: i < riders ==> FlowOf(riders, drivers, offered, b)[i] == if b[i] >= 0 then 1 else 0
    ensures forall j: nat :: j < drivers ==> FlowOf(riders, drivers, offered, b)[riders + j] == if j in b then 1 else 0
  {
  }

  lemma {:induction false} SelectionByRider(offered: seq<MatchEdge>, b: seq<int>, i: nat, m: nat)
    requires m <= |offered| && i < |b|
    ensures var x, p := Selection(offered, b), Pick(offered, i, b[i], |offered|);
            && RiderSum(offered, x, i, m) == (if 0 <= p < m then 1 else 0)
            && RiderCost(offered, x, i, m) == (if 0 <= p < m then offered[p].cost else 0)
  {
    if m > 0 {
      SelectionByRider(offered, b, i, m - 1);
      var x, p := Selection(offered, b), Pick(offered, i, b[i], |offered|);
      assert offered[m - 1].rider == i ==> (Carries(offered, b, m - 1) <==> m - 1 == p);
      assert x[m - 1] == if Carries(offered, b, m - 1) then 1 else 0;
    }
  }

  lemma {:induction false} SelectionByDriver(riders: nat, drivers: nat, offered: seq<MatchEdge>, b: seq<int>, j: nat, i: int, m: nat)
    requires m <= |offered| && IsLegal(riders, drivers, offered, b)
    requires if j in b then 0 <= i < |b| && b[i] == j else i == -1
    ensures var p := if i >= 0 then Pick(offered, i, j, |offered|) else -1;
            DriverSum(offered, Selection(offered, b), j, m) == if 0 <= p < m then 1 else 0
  {
    if m > 0 {
      SelectionByDriver(riders, drivers, offered, b, j, i, m - 1);
      var p := if i >= 0 then Pick(offered, i, j, |offered|) else -1;
      if offered[m - 1].driver == j && Carries(offered, b, m - 1) {
        var r := offered[m - 1].rider;
        assert b[r] == j;
        assert r == i;
      }
      assert offered[m - 1].driver == j ==> (Carries(offered, b, m - 1) <==> m - 1 == p);
    }
  }

  lemma {:induction false} MatchedIsPrefix(a: seq<int>, h: Flow, m: nat)
    requires m <= |a| && m <= |h| && forall i: nat :: i < m ==> h[i] == if a[i] >= 0 then 1 else 0
    ensures Prefix(h, m) == MatchedUpTo(a, m)
  {
    if m > 0 {
      MatchedIsPrefix(a, h, m - 1);
    }
  }

  ghost predicate AllInRange(riders: nat, drivers: nat, offered: seq<MatchEdge>)
  {
    forall k: nat :: k < |offered| ==> InRange(riders, drivers, offered[k])
  }

  lemma NetworkOffersInRange(riders: nat, drivers: nat, offered: seq<MatchEdge>, net: Net)
    requires IsNetwork(riders, drivers, offered, net)
    ensures AllInRange(riders, drivers, offered)
  {
    forall k: nat | k < |offered| ensures InRange(riders, drivers, offered[k]) {
      assert IsPair(riders, drivers, offered, net, riders + drivers + k);
    }
  }

  lemma {:induction false} SelectionCost(riders: nat, drivers: nat, offered: seq<MatchEdge>, b: seq<int>, m: nat)
    requires AllInRange(riders, drivers, offered) && IsLegal(riders, drivers, offered, b) && m <= riders
    ensures CostByRider(offered, Selection(offered, b), m, |offered|) == CostOfFirst(offered, b, m)
  {
    if m > 0 {
      SelectionCost(riders, drivers, offered, b, m - 1);
      SelectionByRider(offered, b, m - 1, |offered|);
      var p := Pick(offered, m - 1, b[m - 1], |offered|);
      assert p >= 0 ==> InRange(riders, drivers, offered[p]);
    }
  }

  lemma {:induction false} RiderConserved(riders: nat, drivers: nat, offered: seq<MatchEdge>, net: Net, b: seq<int>, i: nat)
    requires IsNetwork(riders, drivers, offered, net) && IsLegal(riders, drivers, offered, b) && i < riders
    ensures var h := FlowOf(riders, drivers, offered, b); Outflow(net, h, 1 + i, |h|) == 0
  {
    var h := FlowOf(riders, drivers, offered, b);
    FlowOfParts(riders, drivers, offered, b);
    NetworkOffersInRange(riders, drivers, offered, net);
    RiderOutflow(riders, drivers, offered, net, h, i, |h|);
    SelectionByRider(offered, b, i, |offered|);
    var p := Pick(offered, i, b[i], |offered|);
    assert p >= 0 ==> InRange(riders, drivers, offered[p]);
    assert h[i] == RiderSum(offered, Selection(offered, b), i, |offered|);
  }

  lemma {:induction false} DriverConserved(riders: nat, drivers: nat, offered: seq<MatchEdge>, net: Net, b: seq<int>, j: nat)
    requires IsNetwork(riders, drivers, offered, net) && IsLegal(riders, drivers, offered, b) && j < drivers
    ensures var h := FlowOf(riders, drivers, offered, b); Outflow(net, h, 1 + riders + j, |h|) == 0
  {
    var h := FlowOf(riders, drivers, offered, b);
    FlowOfParts(riders, drivers, offered, b);
    DriverOutflow(riders, drivers, offered, net, h, j, |h|);
    hide Outflow, FlowOf, DriverSum, Selection;
    var i := if j in b then (var i :| 0 <= i < |b| && b[i] == j; i) else -1;
    SelectionByDriver(riders, drivers, offered, b, j, i, |offered|);
    assert i >= 0 ==> IsOffered(offered, i, b[i]);
    assert h[riders + j] == DriverSum(offered, Selection(offered, b), j, |offered|);
  }

  lemma {:induction false} FlowOfConserves(riders: nat, drivers: nat, offered: seq<MatchEdge>, net: Net, b: seq<int>)
    requires IsNetwork(riders, drivers, offered, net) && IsLegal(riders, drivers, offered, b)
    ensures Conserves(net, SinkOf(riders, drivers) + 1, FlowOf(riders, drivers, offered, b), 0, SinkOf(riders, drivers))
  {
    hide FlowOf, Outflow;
    var h := FlowOf(riders, drivers, offered, b);
    forall v | 0 < v < SinkOf(riders, drivers)
      ensures Outflow(net, h, v, |h|) == 0
    {
      if v <= riders {
        RiderConserved(riders, drivers, offered, net, b, v - 1);
      } else {
        DriverConserved(riders, drivers, offered, net, b, v - 1 - riders);
      }
    }
  }

  lemma {:induction false} FlowOfFits(riders: nat, drivers: nat, offered: seq<MatchEdge>, net: Net, b: seq<int>)
    requires IsNetwork(riders, drivers, offered, net) && |b| == riders
    ensures WithinCapacity(net, FlowOf(riders, drivers, offered, b))
  {
    var h := FlowOf(riders, drivers, offered, b);
    forall q | 0 <= q < |h| ensures -net[2 * q + 1].cap <= h[q] <= net[2 * q].cap {
      assert IsPair(riders, drivers, offered, net, q);
      assert 0 <= h[q] <= 1;
    }
  }

  /** Every legal assignment is a flow of its size and cost. */
  lemma {:induction false} AssignmentIsFlow(riders: nat, drivers: nat, offered: seq<MatchEdge>, net: Net, b: seq<int>)
    requires IsNetwork(riders, drivers, offered, net) && IsLegal(riders, drivers, offered, b)
    ensures var h := FlowOf(riders, drivers, offered, b);
            && IsFlow(net, SinkOf(riders, drivers) + 1, h, 0, SinkOf(riders, drivers))
            && Value(net, h, 0) == Matched(b)
            && Cost(net, h) == TotalCost(offered, b)
  {
    var h := FlowOf(riders, drivers, offered, b);
    FlowOfFits(riders, drivers, offered, net, b);
    FlowOfConserves(riders, drivers, offered, net, b);
    FlowOfParts(riders, drivers, offered, b);
    NetworkOffersInRange(riders, drivers, offered, net);
    SourceOutflow(riders, drivers, offered, net, h, |h|);
    MatchedIsPrefix(b, h, riders);
    FlowCostByRider(riders, drivers, offered, net, h);
    SelectionCost(riders, drivers, offered, b, riders);
  }

  // ---- From a flow to an assignment ------------------------------------------------

  /** Later offers that carry flow overwrite earlier ones, as the read-back loop does. */
  ghost function ReadBack(riders: nat, drivers: nat, offered: seq<MatchEdge>, x: seq<int>, m: nat): (a: seq<int>)
    requires m <= |offered| == |x| && AllInRange(riders, drivers, offered)
    ensures |a| == riders
  {
    if m == 0 then
      seq(riders, _ => -1)
    else
      var a := ReadBack(riders, drivers, offered, x, m - 1);
      assert InRange(riders, drivers, offered[m - 1]);
      if x[m - 1] > 0 then a[offered[m - 1].rider := offered[m - 1].driver] else a
  }

  ghost predicate Binary(x: seq<int>)
  {
    forall k :: 0 <= k < |x| ==> 0 <= x[k] <= 1
  }

  /** At most one offer of a rider carries flow; it is the one read back. */
  lemma {:induction false} ReadBackAt(riders: nat, drivers: nat, offered: seq<MatchEdge>, x: seq<int>, i: nat, m: nat)
    returns (k: int)
    requires m <= |offered| == |x| && AllInRange(riders, drivers, offered) && Binary(x) && i < riders
    requires RiderSum(offered, x, i, m) <= 1
    ensures 0 <= RiderSum(offered, x, i, m)
    ensures var a := ReadBack(riders, drivers, offered, x, m);
            if k < 0 then a[i] == -1 && RiderSum(offered, x, i, m) == 0 && RiderCost(offered, x, i, m) == 0
            else k < m && x[k] == 1 && offered[k].rider == i && a[i] == offered[k].driver
                 && RiderSum(offered, x, i, m) == 1 && RiderCost(offered, x, i, m) == offered[k].cost
  {
    if m == 0 {
      k := -1;
    } else {
      assert InRange(riders, drivers, offered[m - 1]);
      RiderSumNonNegative(offered, x, i, m - 1);
      k := ReadBackAt(riders, drivers, offered, x, i, m - 1);
      if offered[m - 1].rider == i && x[m - 1] == 1 {
        k := m - 1;
      }
    }
  }

  lemma {:induction false} RiderSumNonNegative(offered: seq<MatchEdge>, x: seq<int>, i: int, m: nat)
    requires m <= |offered| == |x| && Binary(x)
    ensures 0 <= RiderSum(offered, x, i, m)
  {
    if m > 0 {
      RiderSumNonNegative(offered, x, i, m - 1);
    }
  }

  lemma {:induction false} DriverSumCounts(offered: seq<MatchEdge>, x: seq<int>, j: int, k1: int, k2: int, m: nat)
    requires m <= |offered| == |x| && Binary(x) && 0 <= k1 < |x| && 0 <= k2 < |x| && k1 != k2
    requires x[k1] == x[k2] == 1 && offered[k1].driver == offered[k2].driver == j
    ensures (if k1 < m then 1 else 0) + (if k2 < m then 1 else 0) <= DriverSum(offered, x, j, m)
  {
    if m > 0 {
      DriverSumCounts(offered, x, j, k1, k2, m - 1);
    }
  }

  /** An integral flow of a unit-capacity network is 0/1 on every pair. */
  lemma {:induction false} FlowIsBinary(riders: nat, drivers: nat, offered: seq<MatchEdge>, net: Net, f: Flow)
    requires IsNetwork(riders, drivers, offered, net) && |f| == |net| / 2 && WithinCapacity(net, f)
    ensures Binary(f) && Binary(OverOffers(riders, drivers, offered, f))
  {
    forall q | 0 <= q < |f| ensures 0 <= f[q] <= 1 {
      assert IsPair(riders, drivers, offered, net, q);
      assert -net[2 * q + 1].cap <= f[q] <= net[2 * q].cap;
    }
  }

  /** Conservation at a rider: what comes in from the source leaves over its offers. */
  lemma {:induction false} RiderBalance(riders: nat, drivers: nat, offered: seq<MatchEdge>, net: Net, f: Flow, i: nat)
    requires IsNetwork(riders, drivers, offered, net) && i < riders
    requires IsFlow(net, SinkOf(riders, drivers) + 1, f, 0, SinkOf(riders, drivers))
    ensures RiderSum(offered, OverOffers(riders, drivers, offered, f), i, |offered|) == f[i] <= 1
  {
    RiderOutflow(riders, drivers, offered, net, f, i, |f|);
    FlowIsBinary(riders, drivers, offered, net, f);
    assert Outflow(net, f, 1 + i, |f|) == 0;
  }

  lemma {:induction false} DriverBalance(riders: nat, drivers: nat, offered: seq<MatchEdge>, net: Net, f: Flow, j: nat)
    requires IsNetwork(riders, drivers, offered, net) && j < drivers
    requires IsFlow(net, SinkOf(riders, drivers) + 1, f, 0, SinkOf(riders, drivers))
    ensures DriverSum(offered, OverOffers(riders, drivers, offered, f), j, |offered|) == f[riders + j] <= 1
  {
    DriverOutflow(riders, drivers, offered, net, f, j, |f|);
    FlowIsBinary(riders, drivers, offered, net, f);
    assert Outflow(net, f, 1 + riders + j, |f|) == 0;
  }

  /** What the read-back loop returns for an integral flow. */
  ghost function Assigned(riders: nat, drivers: nat, offered: seq<MatchEdge>, f: Flow): (a: seq<int>)
    requires |f| == riders + drivers + |offered| && AllInRange(riders, drivers, offered)
    ensures |a| == riders
  {
    ReadBack(riders, drivers, offered, OverOffers(riders, drivers, offered, f), |offered|)
  }

  lemma {:induction false} AssignedAt(riders: nat, drivers: nat, offered: seq<MatchEdge>, net: Net, f: Flow, i: nat)
    returns (k: int)
    requires IsNetwork(riders, drivers, offered, net) && AllInRange(riders, drivers, offered) && i < riders
    requires IsFlow(net, SinkOf(riders, drivers) + 1, f, 0, SinkOf(riders, drivers))
    ensures var a, x := Assigned(riders, drivers, offered, f), OverOffers(riders, drivers, offered, f);
            if k < 0 then a[i] == -1 && f[i] == 0 && RiderCost(offered, x, i, |offered|) == 0
            else k < |offered| && x[k] == 1 && offered[k].rider == i && a[i] == offered[k].driver
                 && f[i] == 1 && RiderCost(offered, x, i, |offered|) == offered[k].cost
  {
    FlowIsBinary(riders, drivers, offered, net, f);
    RiderBalance(riders, drivers, offered, net, f, i);
    k := ReadBackAt(riders, drivers, offered, OverOffers(riders, drivers, offered, f), i, |offered|);
  }

  lemma {:induction false} AssignedIsLegal(riders: nat, drivers: nat, offered: seq<MatchEdge>, net: Net, f: Flow)
    requires IsNetwork(riders, drivers, offered, net) && AllInRange(riders, drivers, offered)
    requires IsFlow(net, SinkOf(riders, drivers) + 1, f, 0, SinkOf(riders, drivers))
    ensures IsLegal(riders, drivers, offered, Assigned(riders, drivers, offered, f))
  {
    var a, x := Assigned(riders, drivers, offered, f), OverOffers(riders, drivers, offered, f);
    forall i | 0 <= i < riders
      ensures a[i] == -1 || (0 <= a[i] < drivers && IsOffered(offered, i, a[i]))
    {
      var k := AssignedAt(riders, drivers, offered, net, f, i);
      if k >= 0 {
        assert InRange(riders, drivers, offered[k]);
      }
    }
    forall i, j | 0 <= i < j < riders && a[i] != -1
      ensures a[i] != a[j]
    {
      var k1 := AssignedAt(riders, drivers, offered, net, f, i);
      var k2 := AssignedAt(riders, drivers, offered, net, f, j);
      if a[i] == a[j] {
        FlowIsBinary(riders, drivers, offered, net, f);
        DriverBalance(riders, drivers, offered, net, f, a[i]);
        DriverSumCounts(offered, x, a[i], k1, k2, |offered|);
      }
    }
  }

  lemma {:induction false} AssignedSize(riders: nat, drivers: nat, offered: seq<MatchEdge>, net: Net, f: Flow, m: nat)
    requires IsNetwork(riders, drivers, offered, net) && AllInRange(riders, drivers, offered) && m <= riders
    requires IsFlow(net, SinkOf(riders, drivers) + 1, f, 0, SinkOf(riders, drivers))
    ensures MatchedUpTo(Assigned(riders, drivers, offered, f), m) == Prefix(f, m)
    ensures CostOfFirst(offered, Assigned(riders, drivers, offered, f), m)
              <= CostByRider(offered, OverOffers(riders, drivers, offered, f), m, |offered|)
  {
    if m > 0 {
      AssignedSize(riders, drivers, offered, net, f, m - 1);
      var k := AssignedAt(riders, drivers, offered, net, f, m - 1);
      if k >= 0 {
        assert InRange(riders, drivers, offered[k]);
      }
    }
  }

  /** A flow is read back as a legal assignment of its value that costs no more. */
  lemma {:induction false} FlowIsAssignment(riders: nat, drivers: nat, offered: seq<MatchEdge>, net: Net, f: Flow)
    requires IsNetwork(riders, drivers, offered, net) && AllInRange(riders, drivers, offered)
    requires IsFlow(net, SinkOf(riders, drivers) + 1, f, 0, SinkOf(riders, drivers))
    ensures var a := Assigned(riders, drivers, offered, f);
            && IsLegal(riders, drivers, offered, a)
            && Matched(a) == Value(net, f, 0)
            && TotalCost(offered, a) <= Cost(net, f)
  {
    AssignedIsLegal(riders, drivers, offered, net, f);
    AssignedSize(riders, drivers, offered, net, f, riders);
    SourceOutflow(riders, drivers, offered, net, f, |f|);
    FlowCostByRider(riders, drivers, offered, net, f);
  }

  /** An optimal flow is read back as an optimal assignment, with exactly its value and cost. */
  lemma {:induction false} OptimalFlowIsOptimalAssignment(riders: nat, drivers: nat, offered: seq<MatchEdge>, net: Net, f: Flow)
    requires IsNetwork(riders, drivers, offered, net) && AllInRange(riders, drivers, offered)
    requires IsMinCostMaxFlow(net, SinkOf(riders, drivers) + 1, f, 0, SinkOf(riders, drivers))
    ensures var a := Assigned(riders, drivers, offered, f);
            && IsOptimal(riders, drivers, offered, a)
            && Matched(a) == Value(net, f, 0)
            && TotalCost(offered, a) == Cost(net, f)
  {
    var a := Assigned(riders, drivers, offered, f);
    FlowIsAssignment(riders, drivers, offered, net, f);
    AssignmentCostsAtLeast(riders, drivers, offered, net, f, a);
    forall b | IsLegal(riders, drivers, offered, b)
      ensures Matched(b) <= Matched(a)
      ensures Matched(b) == Matched(a) ==> TotalCost(offered, a) <= TotalCost(offered, b)
    {
      AssignmentCostsAtLeast(riders, drivers, offered, net, f, b);
    }
  }

  lemma {:induction false} AssignmentCostsAtLeast(riders: nat, drivers: nat, offered: seq<MatchEdge>, net: Net, f: Flow, b: seq<int>)
    requires IsNetwork(riders, drivers, offered, net) && IsLegal(riders, drivers, offered, b)
    requires IsMinCostMaxFlow(net, SinkOf(riders, drivers) + 1, f, 0, SinkOf(riders, drivers))
    ensures Matched(b) <= Value(net, f, 0)
    ensures Matched(b) == Value(net, f, 0) ==> Cost(net, f) <= TotalCost(offered, b)
  {
    var n, sink := SinkOf(riders, drivers) + 1, SinkOf(riders, drivers);
    AssignmentIsFlow(riders, drivers, offered, net, b);
    var g := FlowOf(riders, drivers, offered, b);
    assert IsFlow(net, n, g, 0, sink);
    if Matched(b) == Value(net, f, 0) {
      assert IsMaxFlow(net, n, g, 0, sink);
    }
  }
}
