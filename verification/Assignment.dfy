/** Optimal rider/driver assignment on top of the flow solver. */
module Assignment {
  import opened Residual
  import opened FlowTheory
  import opened MatchingNetwork
  import opened MatchingFlow
  import opened Mcmf

  /** `riderToDriver[i]` is the driver of rider i, or -1. */
  datatype Assignment = Assignment(riderToDriver: seq<int>, totalCost: int, matchedCount: int)

  lemma PairKept(riders: nat, drivers: nat, offered: seq<MatchEdge>, net: Net, offered': seq<MatchEdge>, net': Net, q: nat)
    requires IsPair(riders, drivers, offered, net, q) && offered <= offered' && net <= net'
    ensures IsPair(riders, drivers, offered', net', q)
  {
  }

  ghost predicate BuiltUpTo(riders: nat, drivers: nat, offered: seq<MatchEdge>, net: Net, m: nat)
  {
    |net| == 2 * m && forall q: nat :: q < m ==> IsPair(riders, drivers, offered, net, q)
  }

  /** One more AddEdge, when the two edges it appends are those of pair `m`. */
  lemma {:induction false} BuildStep(riders: nat, drivers: nat, offered: seq<MatchEdge>, net: Net,
                                     offered': seq<MatchEdge>, net': Net, m: nat)
    requires BuiltUpTo(riders, drivers, offered, net, m)
    requires offered <= offered' && net <= net' && |net'| == |net| + 2
    requires IsPair(riders, drivers, offered', net', m)
    ensures BuiltUpTo(riders, drivers, offered', net', m + 1)
  {
    forall q: nat | q < m ensures IsPair(riders, drivers, offered', net', q) {
      PairKept(riders, drivers, offered, net, offered', net', q);
    }
  }

  ghost predicate ChosenFor(riders: nat, drivers: nat, offered: seq<MatchEdge>, chosen: seq<(nat, int, int)>)
  {
    && |chosen| == |offered|
    && forall c :: 0 <= c < |chosen| ==>
         chosen[c] == (2 * (riders + drivers + c), offered[c].rider, offered[c].driver)
  }

  /** Builds the network: sources, sinks, then one edge per in-range offer, skipping the rest. */
  method BuildNetwork(numRiders: nat, numDrivers: nat, edges: seq<MatchEdge>)
    returns (mcmf: MinCostMaxFlow, chosen: seq<(nat, int, int)>)
    ensures fresh(mcmf) && mcmf.Valid() && mcmf.n == SinkOf(numRiders, numDrivers) + 1
    ensures IsNetwork(numRiders, numDrivers, Offered(numRiders, numDrivers, edges), mcmf.edges)
    ensures ChosenFor(numRiders, numDrivers, Offered(numRiders, numDrivers, edges), chosen)
  {
    hide WellFormed, FitsInt, IsAdjacency, Offered, BuiltUpTo;
    BuildStart(numRiders, numDrivers);
    var source := 0;
    var riderBase := 1;
    var driverBase := 1 + numRiders;
    var sink := SinkOf(numRiders, numDrivers);
    mcmf := new MinCostMaxFlow(sink + 1);
    ghost var net: Net;
    for i := 0 to numRiders
      invariant mcmf.Valid() && mcmf.n == sink + 1
      invariant BuiltUpTo(numRiders, numDrivers, [], mcmf.edges, i)
    {
      net := mcmf.edges;
      BuiltSize(numRiders, numDrivers, [], net, i);
      var _ := mcmf.AddEdge(source, riderBase + i, 1, 0);
      BuildStep(numRiders, numDrivers, [], net, [], mcmf.edges, i);
    }
    for j := 0 to numDrivers
      invariant mcmf.Valid() && mcmf.n == sink + 1
      invariant BuiltUpTo(numRiders, numDrivers, [], mcmf.edges, numRiders + j)
    {
      net := mcmf.edges;
      BuiltSize(numRiders, numDrivers, [], net, numRiders + j);
      var _ := mcmf.AddEdge(driverBase + j, sink, 1, 0);
      BuildStep(numRiders, numDrivers, [], net, [], mcmf.edges, numRiders + j);
    }
    chosen := [];
    assert edges[..0] == [];
    for k := 0 to |edges|
      invariant mcmf.Valid() && mcmf.n == sink + 1
      invariant ChosenFor(numRiders, numDrivers, Offered(numRiders, numDrivers, edges[..k]), chosen)
      invariant BuiltUpTo(numRiders, numDrivers, Offered(numRiders, numDrivers, edges[..k]), mcmf.edges,
                          numRiders + numDrivers + |chosen|)
    {
      var e := edges[k];
      ghost var offered := Offered(numRiders, numDrivers, edges[..k]);
      OfferedStep(numRiders, numDrivers, edges, k);
      if e.rider < 0 || e.rider >= numRiders || e.driver < 0 || e.driver >= numDrivers {
        continue;
      }
      net := mcmf.edges;
      BuiltSize(numRiders, numDrivers, offered, net, numRiders + numDrivers + |chosen|);
      var id := mcmf.AddEdge(riderBase + e.rider, driverBase + e.driver, 1, e.cost);
      BuildStep(numRiders, numDrivers, offered, net, offered + [e], mcmf.edges, numRiders + numDrivers + |chosen|);
      chosen := chosen + [(id, e.rider, e.driver)];
    }
    assert edges[..|edges|] == edges;
    BuildDone(numRiders, numDrivers, Offered(numRiders, numDrivers, edges), mcmf.edges);
  }

  lemma BuildStart(riders: nat, drivers: nat)
    ensures BuiltUpTo(riders, drivers, [], [], 0) && Offered(riders, drivers, []) == []
  {
  }

  lemma BuildDone(riders: nat, drivers: nat, offered: seq<MatchEdge>, net: Net)
    requires BuiltUpTo(riders, drivers, offered, net, riders + drivers + |offered|)
    ensures IsNetwork(riders, drivers, offered, net)
  {
  }

  lemma BuiltSize(riders: nat, drivers: nat, offered: seq<MatchEdge>, net: Net, m: nat)
    requires BuiltUpTo(riders, drivers, offered, net, m)
    ensures |net| == 2 * m
  {
  }

  /** Reads back which offers carried flow. */
  method ReadChosen(mcmf: MinCostMaxFlow, chosen: seq<(nat, int, int)>, numRiders: nat,
                    ghost drivers: nat, ghost offered: seq<MatchEdge>, ghost net: Net)
    returns (riderToDriver: seq<int>)
    requires mcmf.Valid() && SameShape(net, mcmf.edges)
    requires IsNetwork(numRiders, drivers, offered, net) && AllInRange(numRiders, drivers, offered)
    requires ChosenFor(numRiders, drivers, offered, chosen)
    ensures riderToDriver == Assigned(numRiders, drivers, offered, Pushed(net, mcmf.edges))
  {
    hide WellFormed, FitsInt, IsAdjacency, IsNetwork, SameShape;
    FlowSize(numRiders, drivers, offered, net, mcmf.edges);
    ghost var f := Pushed(net, mcmf.edges);
    riderToDriver := seq(numRiders, _ => -1);
    for c := 0 to |chosen|
      invariant riderToDriver == ReadBack(numRiders, drivers, offered, OverOffers(numRiders, drivers, offered, f), c)
    {
      var id, rider, driver := chosen[c].0, chosen[c].1, chosen[c].2;
      assert chosen[c] == (2 * (numRiders + drivers + c), offered[c].rider, offered[c].driver);
      CarriedFlow(numRiders, drivers, offered, net, mcmf.edges, c);
      assert InRange(numRiders, drivers, offered[c]);
      if mcmf.GetFlow(id) > 0 {
        riderToDriver := riderToDriver[rider := driver];
      }
    }
  }

  /** Maximum matching first, then minimum cost among all maximum matchings, over the offered
      edges whose indices are in range.  The reported count and cost are those of the returned
      vector; a pair offered twice counts at its cheaper price. */
  method SolveAssignment(numRiders: nat, numDrivers: int, edges: seq<MatchEdge>, engine: Engine) returns (result: Assignment)
    ensures var drivers := if numDrivers <= 0 then 0 else numDrivers;
            var offered := Offered(numRiders, drivers, edges);
            && IsOptimal(numRiders, drivers, offered, result.riderToDriver)
            && result.matchedCount == Matched(result.riderToDriver)
            && result.totalCost == TotalCost(offered, result.riderToDriver)
  {
    hide WellFormed, FitsInt, IsAdjacency, IsNetwork, NoNegativeCycle, IsMinCostMaxFlow, IsOptimal, ChosenFor;
    result := Assignment(seq(numRiders, _ => -1), 0, 0);
    if numRiders <= 0 || numDrivers <= 0 {
      NothingToMatch(numRiders, if numDrivers <= 0 then 0 else numDrivers, edges);
      return;
    }
    ghost var offered := Offered(numRiders, numDrivers, edges);
    var source, sink := 0, SinkOf(numRiders, numDrivers);
    var mcmf, chosen := BuildNetwork(numRiders, numDrivers, edges);
    ghost var net := mcmf.edges;
    NetworkHasNoNegativeCycle(numRiders, numDrivers, offered, net);
    var flow, cost := mcmf.Solve(source, sink, engine);
    result := result.(totalCost := cost, matchedCount := flow);

    NetworkOffersInRange(numRiders, numDrivers, offered, net);
    FlowSize(numRiders, numDrivers, offered, net, mcmf.edges);
    OptimalFlowIsOptimalAssignment(numRiders, numDrivers, offered, net, Pushed(net, mcmf.edges));
    var riderToDriver := ReadChosen(mcmf, chosen, numRiders, numDrivers, offered, net);
    result := result.(riderToDriver := riderToDriver);
  }

  lemma FlowSize(riders: nat, drivers: nat, offered: seq<MatchEdge>, net: Net, after: Net)
    requires IsNetwork(riders, drivers, offered, net) && SameShape(net, after)
    ensures |net| == |after| == 2 * (riders + drivers + |offered|)
  {
  }

  /** What getFlow reports for an offer's edge is the flow pushed on its pair. */
  lemma CarriedFlow(riders: nat, drivers: nat, offered: seq<MatchEdge>, net: Net, after: Net, c: nat)
    requires IsNetwork(riders, drivers, offered, net) && SameShape(net, after) && c < |offered|
    ensures 2 * (riders + drivers + c) + 1 < |after| && |Pushed(net, after)| == riders + drivers + |offered|
    ensures after[Partner(2 * (riders + drivers + c))].cap == Pushed(net, after)[riders + drivers + c]
    ensures Pushed(net, after)[riders + drivers + c] == OverOffers(riders, drivers, offered, Pushed(net, after))[c]
  {
    var q := riders + drivers + c;
    assert IsPair(riders, drivers, offered, net, q);
    assert Partner(2 * q) == 2 * q + 1;
  }

  lemma {:induction false} NobodyMatched(offered: seq<MatchEdge>, a: seq<int>, m: nat)
    requires m <= |a| && forall i :: 0 <= i < |a| ==> a[i] == -1
    ensures MatchedUpTo(a, m) == 0 && CostOfFirst(offered, a, m) == 0
  {
    if m > 0 {
      NobodyMatched(offered, a, m - 1);
    }
  }

  /** Without riders or without drivers the empty assignment is the only legal one. */
  lemma {:induction false} NothingToMatch(riders: nat, drivers: nat, edges: seq<MatchEdge>)
    requires riders == 0 || drivers == 0
    ensures var offered, a := Offered(riders, drivers, edges), seq(riders, _ => -1);
            IsOptimal(riders, drivers, offered, a) && Matched(a) == 0 && TotalCost(offered, a) == 0
  {
    var offered, a := Offered(riders, drivers, edges), seq(riders, _ => -1);
    NobodyMatched(offered, a, riders);
    forall b | IsLegal(riders, drivers, offered, b)
      ensures Matched(b) == 0 && TotalCost(offered, b) == 0
    {
      NobodyMatched(offered, b, riders);
    }
  }
}
