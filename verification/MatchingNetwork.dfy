/** The assignment problem, stated on its own terms, and the unit-capacity network that
    encodes it: legal assignments become flows of the same size and cost, and flows
    are read back as legal assignments. */
module MatchingNetwork {
  import opened Residual
  import opened FlowTheory

  /** One allowed pairing and its integer cost. */
  datatype MatchEdge = MatchEdge(rider: int, driver: int, cost: int)

  predicate InRange(riders: int, drivers: int, e: MatchEdge)
  {
    0 <= e.rider < riders && 0 <= e.driver < drivers
  }

  /** The offered edges: those whose indices are in range, in their given order. */
  function Offered(riders: int, drivers: int, edges: seq<MatchEdge>): (r: seq<MatchEdge>)
    ensures forall e :: e in r <==> e in edges && InRange(riders, drivers, e)
  {
    if edges == [] then
      []
    else
      var last := edges[|edges| - 1];
      assert edges == edges[..|edges| - 1] + [last];
      Offered(riders, drivers, edges[..|edges| - 1]) + if InRange(riders, drivers, last) then [last] else []
  }

  lemma OfferedStep(riders: int, drivers: int, edges: seq<MatchEdge>, k: nat)
    requires k < |edges|
    ensures if InRange(riders, drivers, edges[k])
            then Offered(riders, drivers, edges[..k + 1]) == Offered(riders, drivers, edges[..k]) + [edges[k]]
            else Offered(riders, drivers, edges[..k + 1]) == Offered(riders, drivers, edges[..k])
  {
    assert edges[..k + 1][..k] == edges[..k];
  }

  // ---- The problem ---------------------------------------------------------------

  ghost predicate IsOffered(offered: seq<MatchEdge>, i: int, j: int)
  {
    exists k :: 0 <= k < |offered| && offered[k].rider == i && offered[k].driver == j
  }

  /** The position of the cheapest of the first `m` offers for a pair, or -1. */
  ghost function Pick(offered: seq<MatchEdge>, i: int, j: int, m: nat): (p: int)
    requires m <= |offered|
    ensures -1 <= p < m
    ensures p >= 0 ==> offered[p].rider == i && offered[p].driver == j
    ensures forall k :: 0 <= k < m && offered[k].rider == i && offered[k].driver == j ==>
              p >= 0 && offered[p].cost <= offered[k].cost
  {
    if m == 0 then
      -1
    else
      var p := Pick(offered, i, j, m - 1);
      var e := offered[m - 1];
      if e.rider == i && e.driver == j && (p == -1 || e.cost < offered[p].cost) then m - 1 else p
  }

  /** The least cost at which the pair is offered. */
  ghost function PairCost(offered: seq<MatchEdge>, i: int, j: int): int
  {
    var p := Pick(offered, i, j, |offered|);
    if p >= 0 then offered[p].cost else 0
  }

  /** Each rider gets at most one driver it was offered, and no driver serves two riders. */
  ghost predicate IsLegal(riders: nat, drivers: nat, offered: seq<MatchEdge>, a: seq<int>)
  {
    && |a| == riders
    && (forall i :: 0 <= i < riders ==> a[i] == -1 || (0 <= a[i] < drivers && IsOffered(offered, i, a[i])))
    && (forall i, j :: 0 <= i < j < riders && a[i] != -1 ==> a[i] != a[j])
  }

  ghost function MatchedUpTo(a: seq<int>, m: nat): nat
    requires m <= |a|
  {
    if m == 0 then 0 else MatchedUpTo(a, m - 1) + if a[m - 1] >= 0 then 1 else 0
  }

  ghost function CostOfFirst(offered: seq<MatchEdge>, a: seq<int>, m: nat): int
    requires m <= |a|
  {
    if m == 0 then 0
    else CostOfFirst(offered, a, m - 1) + if a[m - 1] >= 0 then PairCost(offered, m - 1, a[m - 1]) else 0
  }

  ghost function Matched(a: seq<int>): nat
  {
    MatchedUpTo(a, |a|)
  }

  ghost function TotalCost(offered: seq<MatchEdge>, a: seq<int>): int
  {
    CostOfFirst(offered, a, |a|)
  }

  /** As many riders as possible, and among all such assignments the cheapest. */
  ghost predicate IsOptimal(riders: nat, drivers: nat, offered: seq<MatchEdge>, a: seq<int>)
  {
    && IsLegal(riders, drivers, offered, a)
    && forall b :: IsLegal(riders, drivers, offered, b) ==>
         && Matched(b) <= Matched(a)
         && (Matched(b) == Matched(a) ==> TotalCost(offered, a) <= TotalCost(offered, b))
  }

  // ---- The network -----------------------------------------------------------------

  function SinkOf(riders: nat, drivers: nat): nat
  {
    1 + riders + drivers
  }

  /** Pairs 0..riders run from the source to the riders, the next ones from the drivers to
      the sink, then one pair per offer; all with one unit of capacity. */
  ghost predicate IsPair(riders: nat, drivers: nat, offered: seq<MatchEdge>, net: Net, q: nat)
  {
    && 2 * q + 1 < |net|
    && (q < riders ==> net[2 * q] == Edge(1 + q, 1, 0) && net[2 * q + 1] == Edge(0, 0, 0))
    && (riders <= q < riders + drivers ==>
          net[2 * q] == Edge(SinkOf(riders, drivers), 1, 0) && net[2 * q + 1] == Edge(1 + q, 0, 0))
    && (riders + drivers <= q ==>
          && q - riders - drivers < |offered|
          && var e := offered[q - riders - drivers];
             && InRange(riders, drivers, e)
             && net[2 * q] == Edge(1 + riders + e.driver, 1, e.cost)
             && net[2 * q + 1] == Edge(1 + e.rider, 0, -e.cost))
  }

  ghost predicate IsNetwork(riders: nat, drivers: nat, offered: seq<MatchEdge>, net: Net)
  {
    && |net| == 2 * (riders + drivers + |offered|)
    && forall q: nat :: q < riders + drivers + |offered| ==> IsPair(riders, drivers, offered, net, q)
  }

  // ---- What enters a rider, leaves for a driver ------------------------------------

  ghost function RiderSum(offered: seq<MatchEdge>, x: seq<int>, i: int, m: nat): int
    requires m <= |offered| == |x|
  {
    if m == 0 then 0 else RiderSum(offered, x, i, m - 1) + if offered[m - 1].rider == i then x[m - 1] else 0
  }

  ghost function DriverSum(offered: seq<MatchEdge>, x: seq<int>, j: int, m: nat): int
    requires m <= |offered| == |x|
  {
    if m == 0 then 0 else DriverSum(offered, x, j, m - 1) + if offered[m - 1].driver == j then x[m - 1] else 0
  }

  ghost function RiderCost(offered: seq<MatchEdge>, x: seq<int>, i: int, m: nat): int
    requires m <= |offered| == |x|
  {
    if m == 0 then 0
    else RiderCost(offered, x, i, m - 1) + if offered[m - 1].rider == i then x[m - 1] * offered[m - 1].cost else 0
  }

  ghost function Prefix(h: Flow, m: nat): int
    requires m <= |h|
  {
    if m == 0 then 0 else Prefix(h, m - 1) + h[m - 1]
  }

  /** The part of a flow that runs over the offers. */
  ghost function OverOffers(riders: nat, drivers: nat, offered: seq<MatchEdge>, h: Flow): (x: seq<int>)
    requires |h| == riders + drivers + |offered|
    ensures |x| == |offered|
  {
    h[riders + drivers..]
  }

  lemma {:induction false} SourceOutflow(riders: nat, drivers: nat, offered: seq<MatchEdge>, net: Net, h: Flow, m: nat)
    requires IsNetwork(riders, drivers, offered, net) && |h| == |net| / 2 && m <= |h|
    ensures Outflow(net, h, 0, m) == Prefix(h, if m < riders then m else riders)
  {
    if m > 0 {
      SourceOutflow(riders, drivers, offered, net, h, m - 1);
      assert IsPair(riders, drivers, offered, net, m - 1);
    }
  }

  lemma {:induction false} RiderOutflow(riders: nat, drivers: nat, offered: seq<MatchEdge>, net: Net, h: Flow, i: nat, m: nat)
    requires IsNetwork(riders, drivers, offered, net) && |h| == |net| / 2 && m <= |h| && i < riders
    ensures Outflow(net, h, 1 + i, m) == (if i < m then -h[i] else 0)
              + (if riders + drivers < m then
                   RiderSum(offered, OverOffers(riders, drivers, offered, h), i, m - riders - drivers) else 0)
  {
    if m > 0 {
      RiderOutflow(riders, drivers, offered, net, h, i, m - 1);
      assert IsPair(riders, drivers, offered, net, m - 1);
    }
  }

  lemma {:induction false} DriverOutflow(riders: nat, drivers: nat, offered: seq<MatchEdge>, net: Net, h: Flow, j: nat, m: nat)
    requires IsNetwork(riders, drivers, offered, net) && |h| == |net| / 2 && m <= |h| && j < drivers
    ensures Outflow(net, h, 1 + riders + j, m) == (if riders + j < m then h[riders + j] else 0)
              - (if riders + drivers < m then
                   DriverSum(offered, OverOffers(riders, drivers, offered, h), j, m - riders - drivers) else 0)
  {
    if m > 0 {
      DriverOutflow(riders, drivers, offered, net, h, j, m - 1);
      assert IsPair(riders, drivers, offered, net, m - 1);
    }
  }

  lemma {:induction false} NetworkIsWellFormed(riders: nat, drivers: nat, offered: seq<MatchEdge>, net: Net)
    requires IsNetwork(riders, drivers, offered, net)
    ensures WellFormed(net, SinkOf(riders, drivers) + 1)
  {
    forall e: nat | e < |net|
      ensures net[e].to < SinkOf(riders, drivers) + 1 && 0 <= net[e].cap
      ensures Partner(e) < |net| && net[Partner(e)].cost == -net[e].cost
    {
      assert IsPair(riders, drivers, offered, net, e / 2);
      assert e == 2 * (e / 2) || e == 2 * (e / 2) + 1;
    }
  }

  // ---- No negative cycle: the network is layered -----------------------------------

  function Layer(riders: nat, drivers: nat, v: nat): int
  {
    if v == 0 then 0 else if v <= riders then 1 else if v <= riders + drivers then 2 else 3
  }

  ghost function Dearest(offered: seq<MatchEdge>, m: nat): (b: int)
    requires m <= |offered|
    ensures 0 <= b && forall k :: 0 <= k < m ==> -b <= offered[k].cost
  {
    if m == 0 then 0
    else
      var b := Dearest(offered, m - 1);
      if -b <= offered[m - 1].cost then b else -offered[m - 1].cost
  }

  lemma {:induction false} NetworkHasNoNegativeCycle(riders: nat, drivers: nat, offered: seq<MatchEdge>, net: Net)
    requires IsNetwork(riders, drivers, offered, net)
    ensures WellFormed(net, SinkOf(riders, drivers) + 1) && NoNegativeCycle(net)
  {
    NetworkIsWellFormed(riders, drivers, offered, net);
    var n := SinkOf(riders, drivers) + 1;
    var b := Dearest(offered, |offered|);
    var p := seq(n, v requires 0 <= v < n => -(b * Layer(riders, drivers, v)));
    forall e: nat | IsArc(net, e)
      ensures 0 <= net[e].cost + p[From(net, e)] - p[net[e].to]
    {
      assert IsPair(riders, drivers, offered, net, e / 2);
      assert e == 2 * (e / 2);
      assert Layer(riders, drivers, net[e].to) == Layer(riders, drivers, From(net, e)) + 1;
      var l := Layer(riders, drivers, From(net, e));
      assert b * (l + 1) == b * l + b;
    }
    PotentialExcludesNegativeCycles(net, n, p);
  }
}
