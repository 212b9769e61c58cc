/** Freezing a builder into the immutable road graph. */
module RoadNetwork {
  import opened RoadGraph
  import opened RoadRoutes
  import opened Router
  import Components

  datatype FreezeResult = Frozen(graph: Graph) | NoNodes

  /** No arc's length is negative; the loaders only add positive great-circle lengths. */
  ghost predicate NonNegativeLengths(pending: seq<PendingArc>)
  {
    forall a :: a in pending ==> 0.0 <= a.lengthMeters
  }

  lemma {:induction false} ArcsOfGraph(csr: Csr, n: nat, pending: seq<PendingArc>, v: nat, r: RoadArc)
    requires IndexesArcs(csr, n, pending) && v < n
    ensures r in Outgoing(csr, n)[v] <==> PendingArc(v, r.to, r.travelSeconds, r.lengthMeters) in pending
    ensures r in Incoming(csr, n)[v] <==> PendingArc(r.to, v, r.travelSeconds, r.lengthMeters) in pending
  {
    ArcsFromMembers(pending, v, |pending|, r);
    ArcsIntoMembers(pending, v, |pending|, r);
    assert pending[..|pending|] == pending;
  }

  /** Heads stay in range, whatever the lengths. */
  lemma {:induction false} FrozenHeads(csr: Csr, n: nat, pending: seq<PendingArc>)
    requires IndexesArcs(csr, n, pending) && ArcsInRange(pending, n)
    ensures HeadsInRange(Outgoing(csr, n)) && HeadsInRange(Incoming(csr, n))
  {
    forall v: nat, r: RoadArc | v < n && r in Outgoing(csr, n)[v] ensures r.to < n {
      ArcsOfGraph(csr, n, pending, v, r);
    }
    forall v: nat, r: RoadArc | v < n && r in Incoming(csr, n)[v] ensures r.to < n {
      ArcsOfGraph(csr, n, pending, v, r);
    }
  }

  /** The frozen graph holds the builder's nodes, its arcs in both directions, and the
      largest strongly connected component.  A builder without nodes is refused. */
  method Freeze(builder: RoadGraphBuilder) returns (r: FreezeResult)
    requires builder.Valid()
    ensures r.NoNodes? <==> builder.nodes == []
    ensures r.Frozen? ==>
              && r.graph.nodes == builder.nodes && r.graph.maxSpeedMps == builder.maxSpeedMps
              && r.graph.Indexed() && IndexesArcs(r.graph.csr, |r.graph.nodes|, builder.arcs)
              && Components.IsLargestComponent(r.graph.Forward(), r.graph.largestComponent)
  {
    hide Components.IsLargestComponent, IndexesArcs, IsCsr, HeadsInRange, IsTranspose;
    if builder.nodes == [] {
      return NoNodes;
    }
    var n := |builder.nodes|;
    assert ArcsInRange(builder.arcs, n) by {
      forall i | 0 <= i < |builder.arcs| ensures builder.arcs[i].from < n && builder.arcs[i].to < n {
        assert builder.arcs[i] in builder.arcs;
      }
    }
    var csr := BuildCsr(n, builder.arcs);
    IndexedArcs(csr, n, builder.arcs);
    FrozenHeads(csr, n, builder.arcs);
    IncomingIsTranspose(csr, n, builder.arcs);
    var largest := Components.LargestComponent(csr, n, Outgoing(csr, n));
    r := Frozen(Graph(builder.nodes, csr, builder.maxSpeedMps, largest));
  }

  lemma IndexedArcs(csr: Csr, n: nat, pending: seq<PendingArc>)
    requires IndexesArcs(csr, n, pending)
    ensures IsCsr(n, csr.outOffsets, csr.arcs) && IsCsr(n, csr.inOffsets, csr.reverseArcs)
  {
  }

  /** An arc of either index, traced back to the builder. */
  lemma FrozenArc(csr: Csr, n: nat, pending: seq<PendingArc>, speed: real, v: nat, r: RoadArc)
    requires IndexesArcs(csr, n, pending) && v < n && NonNegativeLengths(pending)
    requires forall a :: a in pending ==> a.from < n && a.to < n && NotFaster(a, speed)
    ensures r in Outgoing(csr, n)[v] ==>
              && PendingArc(v, r.to, r.travelSeconds, r.lengthMeters) in pending
              && r.to < n && 0.0 <= r.travelSeconds && r.lengthMeters <= r.travelSeconds * speed
    ensures r in Incoming(csr, n)[v] ==> r.to < n && 0.0 <= r.travelSeconds
  {
    hide IndexesArcs, Outgoing, Incoming;
    ArcsOfGraph(csr, n, pending, v, r);
    assert PendingArc(v, r.to, r.travelSeconds, r.lengthMeters) in pending ==>
        NotFaster(PendingArc(v, r.to, r.travelSeconds, r.lengthMeters), speed);
    assert PendingArc(r.to, v, r.travelSeconds, r.lengthMeters) in pending ==>
        NotFaster(PendingArc(r.to, v, r.travelSeconds, r.lengthMeters), speed);
  }

  lemma WithoutArcs(csr: Csr, n: nat, v: nat)
    requires IndexesArcs(csr, n, []) && v < n
    ensures Outgoing(csr, n)[v] == []
  {
    assert Outgoing(csr, n)[v] == ArcsFrom([], v, 0);
  }

  /** What the searches require holds of every frozen graph whose lengths are not negative,
      and the heuristic of A* is sound once no length undercuts the straight line. */
  lemma {:induction false} FrozenIsDrivable(graph: Graph, pending: seq<PendingArc>, metric: Metric)
    requires graph.Indexed() && IndexesArcs(graph.csr, |graph.nodes|, pending) && ArcsInRange(pending, |graph.nodes|)
    requires NonNegativeLengths(pending) && 0.0 <= graph.maxSpeedMps
    requires forall a :: a in pending ==> NotFaster(a, graph.maxSpeedMps) && 0.0 < graph.maxSpeedMps
    ensures Drivable(graph) && IsNetwork(graph.Backward()) && ArcsNeedSpeed(graph)
    ensures (forall a :: a in pending ==> metric(graph.nodes[a.from], graph.nodes[a.to]) <= a.lengthMeters) ==>
              RespectsStraightLine(graph, metric)
  {
    hide IndexesArcs, IsCsr, NotFaster, NonNegativeLengths, Outgoing, Incoming;
    var n := |graph.nodes|;
    forall v: nat, r: RoadArc | v < n
      ensures r in graph.Forward()[v] ==>
                && PendingArc(v, r.to, r.travelSeconds, r.lengthMeters) in pending
                && r.to < n && 0.0 <= r.travelSeconds && r.lengthMeters <= r.travelSeconds * graph.maxSpeedMps
      ensures r in graph.Backward()[v] ==> r.to < n && 0.0 <= r.travelSeconds
    {
      FrozenArc(graph.csr, n, pending, graph.maxSpeedMps, v, r);
    }
    assert pending != [] ==> pending[0] in pending;
    if graph.maxSpeedMps <= 0.0 {
      forall v: nat | v < n ensures graph.Forward()[v] == [] {
        WithoutArcs(graph.csr, n, v);
      }
    }
  }
}
