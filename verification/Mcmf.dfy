/** Min-cost max-flow by successive shortest paths, with both shortest-path engines. */
module Mcmf {
  import opened Basics
  import opened Residual
  import opened FlowTheory
  import opened ShortestTree
  import opened PriorityQueue
  import opened Augmentation
  import opened Magnitude
  import Spfa
  import Johnson

  const INT_MAX := 0x7fff_ffff

  datatype Engine = Auto | Dijkstra | Spfa

  /** `graph[u]` lists exactly the ids of the edges that leave `u`. */
  ghost predicate IsAdjacency(net: Net, n: nat, graph: seq<seq<nat>>)
    requires WellFormed(net, n)
  {
    && |graph| == n
    && (forall u, i :: 0 <= u < n && 0 <= i < |graph[u]| ==> graph[u][i] < |net| && From(net, graph[u][i]) == u)
    && (forall e: nat :: e < |net| ==> e in graph[From(net, e)])
  }

  /** Pushing back and forth within a pair never leaves the range of a 32-bit int. */
  ghost predicate FitsInt(net: Net)
    requires |net| % 2 == 0
  {
    forall e: nat {:trigger Partner(e)} :: e < |net| ==> net[e].cap + net[Partner(e)].cap <= INT_MAX
  }

  lemma {:induction false} AppendKeepsShape(net: Net, grown: Net, n: nat, from: nat, to: nat, capacity: int, cost: int)
    requires WellFormed(net, n) && FitsInt(net) && from < n && to < n && 0 <= capacity <= INT_MAX
    requires grown == net + [Edge(to, capacity, cost), Edge(from, 0, -cost)]
    ensures WellFormed(grown, n) && FitsInt(grown)
    ensures forall e: nat :: e < |net| ==> Partner(e) < |net| && From(grown, e) == From(net, e)
  {
    forall e: nat | e < |grown|
      ensures grown[e].to < n && 0 <= grown[e].cap && grown[Partner(e)].cost == -grown[e].cost
      ensures grown[e].cap + grown[Partner(e)].cap <= INT_MAX
    {
      if e < |net| {
        assert grown[e] == net[e] && grown[Partner(e)] == net[Partner(e)];
      }
    }
  }

  lemma {:induction false} AppendKeepsAdjacency(net: Net, grown: Net, n: nat, graph: seq<seq<nat>>, from: nat, to: nat)
    requires WellFormed(net, n) && WellFormed(grown, n) && IsAdjacency(net, n, graph) && |graph| == n && from < n && to < n
    requires |grown| == |net| + 2 && grown[|net|].to == to && grown[|net| + 1].to == from
    requires forall e: nat :: e < |net| ==> Partner(e) < |net| && From(grown, e) == From(net, e)
    ensures var g := graph[from := graph[from] + [|net|]];
            IsAdjacency(grown, n, g[to := g[to] + [|net| + 1]])
  {
    hide WellFormed, IsAdjacency, Lists, Tails;
    AdjacencyIsLists(net, n, graph);
    TailsGrow(net, grown, n);
    ListsAgree(graph, Tails(net, n), Tails(grown, n));
    ListsGrow(graph, Tails(grown, n), |net|, n, from, to);
    var g := graph[from := graph[from] + [|net|]];
    AdjacencyIsLists(grown, n, g[to := g[to] + [|net| + 1]]);
  }

  ghost function Tails(net: Net, n: nat): (tails: seq<nat>)
    requires WellFormed(net, n)
    ensures |tails| == |net|
  {
    seq(|net|, e requires 0 <= e < |net| => From(net, e))
  }

  lemma AdjacencyIsLists(net: Net, n: nat, graph: seq<seq<nat>>)
    requires WellFormed(net, n) && |graph| == n
    ensures IsAdjacency(net, n, graph) <==> Lists(graph, Tails(net, n), |net|)
  {
    assert forall e: nat :: e < |net| ==> Tails(net, n)[e] == From(net, e) < n;
  }

  lemma TailsGrow(net: Net, grown: Net, n: nat)
    requires WellFormed(net, n) && WellFormed(grown, n) && |grown| == |net| + 2
    requires forall e: nat :: e < |net| ==> Partner(e) < |net| && From(grown, e) == From(net, e)
    ensures Tails(net, n) <= Tails(grown, n)
    ensures Tails(grown, n)[|net|] == grown[|net| + 1].to && Tails(grown, n)[|net| + 1] == grown[|net|].to
  {
  }

  lemma ListsAgree(lists: seq<seq<nat>>, a: seq<nat>, b: seq<nat>)
    requires Lists(lists, a, |a|) && a <= b
    ensures Lists(lists, b, |a|)
  {
  }

  /** Every list holds numbers of its own tail, and every number is listed. */
  ghost predicate Lists(lists: seq<seq<nat>>, tails: seq<nat>, m: nat)
    requires m <= |tails|
  {
    && (forall u, i :: 0 <= u < |lists| && 0 <= i < |lists[u]| ==> lists[u][i] < m && tails[lists[u][i]] == u)
    && (forall e: nat :: e < m ==> tails[e] < |lists| && e in lists[tails[e]])
  }

  lemma ListsGrow(lists: seq<seq<nat>>, tails: seq<nat>, m: nat, n: nat, from: nat, to: nat)
    requires |tails| == m + 2 && |lists| == n && from < n && to < n && Lists(lists, tails, m)
    requires tails[m] == from && tails[m + 1] == to
    ensures var g := lists[from := lists[from] + [m]]; Lists(g[to := g[to] + [m + 1]], tails, m + 2)
  {
    hide Lists;
    ListGrows(lists, tails, m);
    ListGrows(lists[from := lists[from] + [m]], tails, m + 1);
  }

  lemma ListGrows(lists: seq<seq<nat>>, tails: seq<nat>, m: nat)
    requires m < |tails| && tails[m] < |lists| && Lists(lists, tails, m)
    ensures Lists(lists[tails[m] := lists[tails[m]] + [m]], tails, m + 1)
  {
    var grown := lists[tails[m] := lists[tails[m]] + [m]];
    forall e: nat | e < m + 1 ensures tails[e] < |grown| && e in grown[tails[e]] {
      if e < m {
        Inherited(lists[tails[e]], grown[tails[e]], e);
      } else {
        assert grown[tails[m]][|lists[tails[m]]|] == m;
      }
    }
  }

  lemma Inherited(a: seq<nat>, b: seq<nat>, x: nat)
    requires a <= b && x in a
    ensures x in b
  {
    var i :| 0 <= i < |a| && a[i] == x;
    assert b[i] == x;
  }

  lemma ShapeKeepsAdjacency(a: Net, b: Net, n: nat, graph: seq<seq<nat>>)
    requires WellFormed(a, n) && WellFormed(b, n) && SameShape(a, b)
    requires IsAdjacency(a, n, graph) && FitsInt(a)
    ensures IsAdjacency(b, n, graph) && FitsInt(b)
  {
    assert forall e: nat :: e < |a| ==> From(b, e) == From(a, e);
  }

  lemma ListOf(net: Net, n: nat, graph: seq<seq<nat>>, u: nat)
    requires WellFormed(net, n) && IsAdjacency(net, n, graph) && u < n
    ensures |graph| == n && forall j :: 0 <= j < |graph[u]| ==> graph[u][j] < |net| && From(net, graph[u][j]) == u
    ensures forall e: nat :: e < |net| && From(net, e) == u ==> e in graph[u]
  {
  }

  /** The invariant of successive shortest paths: what was pushed since `base` conserves
      flow, and the running totals are its value and its cost. */
  ghost predicate Solving(base: Net, now: Net, n: nat, source: nat, sink: nat, totalFlow: int, totalCost: int)
  {
    && WellFormed(base, n) && WellFormed(now, n) && SameShape(base, now)
    && source < n && sink < n && source != sink
    && Conserves(base, n, Pushed(base, now), source, sink)
    && totalFlow == Value(base, Pushed(base, now), source)
    && totalCost == Cost(base, Pushed(base, now))
  }

  /** What a finished run guarantees. */
  ghost predicate Solved(base: Net, now: Net, n: nat, source: nat, sink: nat, totalFlow: int, totalCost: int)
  {
    && SameShape(base, now)
    && IsMinCostMaxFlow(base, n, Pushed(base, now), source, sink)
    && totalFlow == Value(base, Pushed(base, now), source)
    && totalCost == Cost(base, Pushed(base, now))
    && NoNegativeCycle(now) && !Reachable(now, source, sink)
  }

  lemma {:induction false} NothingPushed(base: Net, v: nat, k: nat)
    requires |base| % 2 == 0 && k <= |base| / 2
    ensures Outflow(base, Pushed(base, base), v, k) == 0 && CostUpTo(base, Pushed(base, base), k) == 0
  {
    if k > 0 {
      NothingPushed(base, v, k - 1);
    }
  }

  lemma {:induction false} StartSolving(base: Net, n: nat, source: nat, sink: nat)
    requires WellFormed(base, n) && source < n && sink < n && source != sink
    ensures Solving(base, base, n, source, sink, 0, 0) && |base| % 2 == 0
  {
    forall v: nat ensures Outflow(base, Pushed(base, base), v, |base| / 2) == 0 {
      NothingPushed(base, v, |base| / 2);
    }
    NothingPushed(base, source, |base| / 2);
  }

  lemma SolvingShape(base: Net, now: Net, n: nat, source: nat, sink: nat, totalFlow: int, totalCost: int)
    requires Solving(base, now, n, source, sink, totalFlow, totalCost)
    ensures WellFormed(base, n) && SameShape(base, now)
  {
  }

  /** One augmentation keeps the invariant, leaves a valid potential, and pushes more. */
  lemma {:induction false} Advance(base: Net, before: Net, after: Net, n: nat, source: nat, sink: nat,
                                   totalFlow: int, totalCost: int, amount: int,
                                   dist: seq<Distance>, prev: seq<int>, depth: seq<nat>, p: seq<int>)
    requires Solving(base, before, n, source, sink, totalFlow, totalCost)
    requires WellFormed(after, n) && SameShape(base, after) && SameShape(before, after)
    requires IsShortestTree(before, n, source, dist, prev, depth) && ValidPotential(before, n, p)
    requires Reached(dist, sink) && 0 < amount
    requires OnlyTightReversals(before, after, n, dist)
    requires PushedAlong(base, before, after, n, source, sink, amount, dist[sink].value)
    ensures Solving(base, after, n, source, sink, totalFlow + amount, totalCost + amount * dist[sink].value)
    ensures ValidPotential(after, n, Lifted(dist, p))
    ensures totalFlow < TotalCapacity(base, |base| / 2)
  {
    SurvivesAugmentation(before, after, n, dist, p);
    PushedWithinCapacity(base, after, n);
    ValueBounded(base, n, Pushed(base, after), source, |base| / 2);
    forall v | 0 <= v < n && v != source && v != sink
      ensures Outflow(base, Pushed(base, after), v, |base| / 2) == 0
    {
      assert Value(base, Pushed(base, after), v) == Value(base, Pushed(base, before), v);
    }
    assert Value(base, Pushed(base, after), source) == Value(base, Pushed(base, before), source) + amount;
  }

  /** No more flow is ever sent than leaves the source. */
  lemma FlowWithin(base: Net, now: Net, n: nat, source: nat, sink: nat, totalFlow: int, totalCost: int)
    requires Solving(base, now, n, source, sink, totalFlow, totalCost)
    ensures |base| % 2 == 0 && totalFlow <= OutCapacity(base, source, |base| / 2)
  {
    PushedWithinCapacity(base, now, n);
    ValueWithin(base, n, Pushed(base, now), source, |base| / 2);
  }

  /** When the sink is out of reach the reached nodes are a closed cut, and with the
      potential they certify the optimum. */
  lemma {:induction false} Finish(base: Net, now: Net, n: nat, source: nat, sink: nat, totalFlow: int, totalCost: int,
                                  cut: set<nat>, p: seq<int>)
    requires Solving(base, now, n, source, sink, totalFlow, totalCost) && ValidPotential(now, n, p)
    requires ClosedUnderArcs(now, cut) && source in cut && sink !in cut
    ensures Solved(base, now, n, source, sink, totalFlow, totalCost)
  {
    CertifiesOptimum(base, now, n, source, sink, cut, p);
    PotentialExcludesNegativeCycles(now, n, p);
    forall w ensures !IsWalk(now, source, w, sink) {
      if IsWalk(now, source, w, sink) {
        ClosedContainsReachable(now, n, cut, source, w, sink);
      }
    }
  }

  lemma {:induction false} ReachedIsClosed(net: Net, n: nat, source: nat, dist: seq<Distance>, prev: seq<int>, depth: seq<nat>)
    requires WellFormed(net, n) && IsShortestTree(net, n, source, dist, prev, depth)
    ensures ClosedUnderArcs(net, ReachedSet(n, dist)) && source in ReachedSet(n, dist)
    ensures |dist| == |prev| == |depth| == n && source < n && dist[source] == Finite(0)
  {
    forall e: nat | IsArc(net, e) && From(net, e) in ReachedSet(n, dist)
      ensures net[e].to in ReachedSet(n, dist)
    {
      assert Satisfied(net, n, dist, e);
    }
  }

  /** Bellman-Ford distances, with 0 where there is none. */
  method SeedPotential(seed: seq<Distance>) returns (pot: seq<int>)
    ensures |pot| == |seed|
    ensures forall v :: 0 <= v < |seed| ==> pot[v] == if seed[v].Finite? then seed[v].value else 0
  {
    pot := [];
    for v := 0 to |seed|
      invariant |pot| == v
      invariant forall x :: 0 <= x < v ==> pot[x] == if seed[x].Finite? then seed[x].value else 0
    {
      pot := pot + [if seed[v].Infinite? then 0 else seed[v].value];
    }
  }

  /** The potential of every reached node moves up by its distance; the rest stays frozen. */
  method RollForward(pot0: seq<int>, dist: seq<Distance>, ghost limit: int) returns (pot: seq<int>)
    requires |pot0| == |dist|
    requires forall v :: 0 <= v < |dist| && dist[v].Finite? ==> -limit <= pot0[v] + dist[v].value <= limit
    ensures pot == Johnson.RolledPot(pot0, dist)
  {
    pot := pot0;
    for v := 0 to |dist|
      invariant |pot| == |dist|
      invariant forall x :: 0 <= x < |dist| ==>
                  pot[x] == if x < v && dist[x].Finite? then pot0[x] + dist[x].value else pot0[x]
    {
      if dist[v].Finite? {
        pot := pot[v := Within(pot[v] + dist[v].value, limit)];
      }
    }
  }

  /** Whatever engine a run used, and whichever optimal flow it found, the reported pair is
      the same. */
  lemma EnginesAgree(base: Net, n: nat, source: nat, sink: nat,
                     spfa: Net, flow1: int, cost1: int, dijkstra: Net, flow2: int, cost2: int)
    requires Solved(base, spfa, n, source, sink, flow1, cost1)
    requires Solved(base, dijkstra, n, source, sink, flow2, cost2)
    ensures flow1 == flow2 && cost1 == cost2
  {
    var f, g := Pushed(base, spfa), Pushed(base, dijkstra);
    assert IsFlow(base, n, f, source, sink) && IsFlow(base, n, g, source, sink);
    assert Value(base, f, source) == Value(base, g, source);
    assert IsMaxFlow(base, n, f, source, sink) && IsMaxFlow(base, n, g, source, sink);
  }

  /** Adds one augmentation to the running totals; every sum and product stays in bounds. */
  method AddTotals(ghost n: nat, ghost c: nat, ghost capacity: nat, totalFlow: int, totalCost: int, amount: int, price: int)
    returns (flow: int, cost: int)
    requires TotalsWithin(n, c, capacity, totalFlow, totalCost) && 1 <= n && 0 <= amount && totalFlow + amount <= capacity
    requires -Longest(n, c) <= price <= Longest(n, c)
    ensures flow == totalFlow + amount && cost == totalCost + amount * price
    ensures TotalsWithin(n, c, capacity, flow, cost)
  {
    hide Longest;
    TotalsStep(n, c, capacity, totalFlow, totalCost, amount, price);
    flow := Within(totalFlow + amount, capacity);
    cost := Within(totalCost + Within(amount * price, capacity * n * c), capacity * n * c);
  }

  /** The relaxation pass over the arcs that leave a dequeued node. */
  method ScanArcs(net: Net, n: nat, ghost source: nat, u: nat, ids: seq<nat>,
                  dist0: seq<Distance>, prev0: seq<int>, inQueue0: seq<bool>, q0: seq<nat>,
                  ghost p: seq<int>, ghost stamp0: seq<nat>, ghost clock0: nat, ghost c: nat)
    returns (dist: seq<Distance>, prevEdge: seq<int>, inQueue: seq<bool>, q: seq<nat>,
             ghost stamp: seq<nat>, ghost clock: nat)
    requires WellFormed(net, n) && source < n && |p| == n
    requires Spfa.Sized(n, Spfa.Search(dist0, prev0, inQueue0, q0, stamp0, clock0)) && Reached(dist0, u)
    requires Spfa.Scanning(net, n, source, p, Spfa.Search(dist0, prev0, inQueue0, q0, stamp0, clock0), u, ids, 0)
    requires forall j :: 0 <= j < |ids| ==> ids[j] < |net| && From(net, ids[j]) == u
    requires forall e: nat :: e < |net| && From(net, e) == u ==> e in ids
    requires LargestCost(net) <= c && NotPositive(n, c, p) && Spread(n, c, Zeros(n), dist0)
    ensures Spread(n, c, Zeros(n), dist)
    ensures Spfa.Sized(n, Spfa.Search(dist, prevEdge, inQueue, q, stamp, clock))
    ensures Spfa.Running(net, n, source, p, Spfa.Search(dist, prevEdge, inQueue, q, stamp, clock))
    ensures Spfa.Shrunk(dist, p, p[source], n, |q|, Spfa.Unreached(dist0, n), Spfa.SlackSum(dist0, p, p[source], n), |q0| + 1)
  {
    hide Spfa.Running, Spfa.Scanning, Spfa.Unreached, Spfa.SlackSum, Spfa.Shrunk, Spread, NotPositive, Limit, WellFormed;
    dist, prevEdge, inQueue, q, stamp, clock := dist0, prev0, inQueue0, q0, stamp0, clock0;
    Spfa.ShrunkAtStart(dist0, p, p[source], n, |q0|);
    for i := 0 to |ids|
      invariant Spfa.Sized(n, Spfa.Search(dist, prevEdge, inQueue, q, stamp, clock)) && Reached(dist, u)
      invariant Spfa.Scanning(net, n, source, p, Spfa.Search(dist, prevEdge, inQueue, q, stamp, clock), u, ids, i)
      invariant Spread(n, c, Zeros(n), dist)
      invariant Spfa.Shrunk(dist, p, p[source], n, |q|, Spfa.Unreached(dist0, n), Spfa.SlackSum(dist0, p, p[source], n), |q0| + 1)
    {
      ghost var s := Spfa.Search(dist, prevEdge, inQueue, q, stamp, clock);
      SpfaSumWithin(net, n, source, p, s, u, ids, i, c);
      var id := ids[i];
      var e := net[id];
      if e.cap > 0 && dist[u].Finite? && Improves(Within(dist[u].value + e.cost, Limit(n, c)), dist[e.to]) {
        Spfa.ScanStep(net, n, source, p, s, u, ids, i);
        Spfa.ShrunkAfterUpdate(dist, p, p[source], n, e.to, dist[u].value + e.cost, |q|, if inQueue[e.to] then |q| else |q| + 1,
                               Spfa.Unreached(dist0, n), Spfa.SlackSum(dist0, p, p[source], n), |q0| + 1);
        dist := dist[e.to := Finite(dist[u].value + e.cost)];
        prevEdge := prevEdge[e.to := id];
        stamp, clock := stamp[e.to := clock], clock + 1;
        if !inQueue[e.to] {
          inQueue := inQueue[e.to := true];
          q := q + [e.to];
        } else {
          assert inQueue == inQueue[e.to := true];
        }
      } else {
        Spfa.ScanSkip(net, n, source, p, s, u, ids, i);
      }
    }
    Spfa.ScanDone(net, n, source, p, Spfa.Search(dist, prevEdge, inQueue, q, stamp, clock), u, ids);
  }

  /** The relaxation pass over the arcs that leave a node just settled at cost `d`. */
  method RelaxArcs(net: Net, n: nat, ghost source: nat, ghost zone: set<nat>, u: nat, d: int, ids: seq<nat>, pot: seq<int>,
                   dist0: seq<Distance>, prev0: seq<int>, ghost settled: seq<bool>, ghost depth0: seq<nat>, heap0: Heap<int>,
                   ghost c: nat)
    returns (dist: seq<Distance>, prevEdge: seq<int>, heap: Heap<int>, ghost depth: seq<nat>)
    requires WellFormed(net, n) && |pot| == n && u < n
    requires Johnson.Sized(Johnson.Search(dist0, prev0, settled, depth0, heap0, d), n)
    requires Johnson.Searching(net, n, source, zone, pot, Johnson.Search(dist0, prev0, settled, depth0, heap0, d))
    requires Johnson.SettledRelaxed(net, n, pot, Johnson.Search(dist0, prev0, settled, depth0, heap0, d), u)
    requires settled[u] && dist0[u] == Finite(d)
    requires forall j :: 0 <= j < |ids| ==> ids[j] < |net| && From(net, ids[j]) == u
    requires forall e: nat :: e < |net| && From(net, e) == u ==> e in ids
    requires LargestCost(net) <= c && PotentialWithin(n, c, pot) && Spread(n, c, pot, dist0)
    ensures Spread(n, c, pot, dist)
    ensures Johnson.Sized(Johnson.Search(dist, prevEdge, settled, depth, heap, d), n)
    ensures Johnson.Searching(net, n, source, zone, pot, Johnson.Search(dist, prevEdge, settled, depth, heap, d))
    ensures Johnson.SettledRelaxed(net, n, pot, Johnson.Search(dist, prevEdge, settled, depth, heap, d), n)
  {
    hide Johnson.Searching, Johnson.SettledRelaxed, Johnson.ArcsRelaxed, Spread, PotentialWithin, Limit;
    dist, prevEdge, depth, heap := dist0, prev0, depth0, heap0;
    Johnson.ScanStart(net, n, pot, Johnson.Search(dist, prevEdge, settled, depth, heap, d), u, ids);
    for i := 0 to |ids|
      invariant Johnson.Sized(Johnson.Search(dist, prevEdge, settled, depth, heap, d), n)
      invariant dist[u] == Finite(d) && Spread(n, c, pot, dist)
      invariant Johnson.Searching(net, n, source, zone, pot, Johnson.Search(dist, prevEdge, settled, depth, heap, d))
      invariant Johnson.SettledRelaxed(net, n, pot, Johnson.Search(dist, prevEdge, settled, depth, heap, d), u)
      invariant Johnson.ArcsRelaxed(net, n, pot, Johnson.Search(dist, prevEdge, settled, depth, heap, d), ids, i)
    {
      var id := ids[i];
      var e := net[id];
      ghost var s := Johnson.Search(dist, prevEdge, settled, depth, heap, d);
      if e.cap <= 0 {
        Johnson.SkipArc(net, n, pot, s, ids, i);
        continue;
      }
      DijkstraSumWithin(net, n, pot, dist, id, c);
      var weight := Within(Within(e.cost + pot[u], Limit(n, c)) - pot[e.to], Limit(n, c));
      if Improves(Within(d + weight, Limit(n, c)), dist[e.to]) {
        Johnson.Relax(net, n, source, zone, pot, s, id);
        Johnson.RelaxedAfter(net, n, pot, s, u, ids, i);
        dist := dist[e.to := Finite(d + weight)];
        prevEdge := prevEdge[e.to := id];
        depth := depth[e.to := depth[u] + 1];
        heap := heap + multiset{(d + weight, e.to)};
      } else {
        Johnson.SkipArc(net, n, pot, s, ids, i);
      }
    }
    Johnson.ScanDone(net, n, pot, Johnson.Search(dist, prevEdge, settled, depth, heap, d), u, ids);
  }

  class MinCostMaxFlow {
    var edges: Net
    var graph: seq<seq<nat>>
    const n: nat

    ghost predicate Valid()
      reads this
    {
      && WellFormed(edges, n)
      && FitsInt(edges)
      && IsAdjacency(edges, n, graph)
    }

    constructor (numNodes: nat)
      ensures Valid() && n == numNodes && edges == []
    {
      n := numNodes;
      edges := [];
      graph := seq(numNodes, _ => []);
    }

    /** Appends a forward edge and its empty reverse edge; nothing else changes. */
    method AddEdge(from: nat, to: nat, capacity: int, cost: int) returns (forwardId: nat)
      requires Valid() && from < n && to < n && 0 <= capacity <= INT_MAX
      modifies this
      ensures Valid()
      ensures forwardId == old(|edges|)
      ensures edges == old(edges) + [Edge(to, capacity, cost), Edge(from, 0, -cost)]
    {
      forwardId := |edges|;
      ghost var net, lists := edges, graph;
      edges := edges + [Edge(to, capacity, cost)];
      graph := graph[from := graph[from] + [forwardId]];
      edges := edges + [Edge(from, 0, -cost)];
      graph := graph[to := graph[to] + [forwardId + 1]];
      assert edges == net + [Edge(to, capacity, cost), Edge(from, 0, -cost)];
      AppendKeepsShape(net, edges, n, from, to, capacity, cost);
      AppendKeepsAdjacency(net, edges, n, lists, from, to);
    }

    /** The residual capacity of the reverse edge is the flow pushed on the forward edge. */
    function GetFlow(forwardEdgeId: nat): int
      requires Valid() && forwardEdgeId < |edges|
      reads this
    {
      edges[Partner(forwardEdgeId)].cap
    }

    /** Queue-based Bellman-Ford: terminates without negative cycles, finds the exact
        shortest distances, and leaves predecessor arcs that form a tree. */
    method BellmanFord(source: nat) returns (dist: seq<Distance>, prevEdge: seq<int>, ghost depth: seq<nat>)
      requires Valid() && source < n && NoNegativeCycle(edges)
      ensures IsShortestTree(edges, n, source, dist, prevEdge, depth)
      ensures forall v: nat :: v < n ==> (Reached(dist, v) <==> Reachable(edges, source, v))
      ensures forall v: nat :: v < n && Reached(dist, v) ==> IsShortest(edges, source, v, dist[v].value)
    {
      hide Spfa.Running, Spfa.Scanning, Spfa.Unreached, Spfa.SlackSum, NoNegativeCycle, IsShortestTree, Reachable,
        IsShortest,
        Spread, NotPositive, Layer, Limit, LargestCost, IsAdjacency, FitsInt, ValidPotential;
      var net, lists := edges, graph;
      ghost var p := PotentialExists(net, n);
      ghost var c := LargestCost(net);
      LayersNotPositive(net, n, p, c);
      dist := seq(n, _ => Infinite);
      var inQueue := seq(n, _ => false);
      prevEdge := seq(n, _ => -1);
      ghost var stamp: seq<nat> := seq(n, _ => 0);
      ghost var clock: nat := 1;

      dist := dist[source := Finite(0)];
      var q: seq<nat> := [source];
      inQueue := inQueue[source := true];
      Spfa.Start(net, n, source, p, Spfa.Search(dist, prevEdge, inQueue, q, stamp, clock));
      SpreadStart(n, c, Zeros(n), dist, source);

      while q != []
        invariant Spfa.Sized(n, Spfa.Search(dist, prevEdge, inQueue, q, stamp, clock))
        invariant Spfa.Running(net, n, source, p, Spfa.Search(dist, prevEdge, inQueue, q, stamp, clock))
        invariant Spread(n, c, Zeros(n), dist)
        decreases Spfa.Unreached(dist, n), Spfa.SlackSum(dist, p, p[source], n), |q|
      {
        var u := q[0];
        Spfa.Front(net, n, source, p, Spfa.Search(dist, prevEdge, inQueue, q, stamp, clock));
        ListOf(net, n, lists, u);
        Spfa.ScanStart(net, n, source, p, Spfa.Search(dist, prevEdge, inQueue, q, stamp, clock), lists[u]);
        q := q[1..];
        inQueue := inQueue[u := false];
        dist, prevEdge, inQueue, q, stamp, clock :=
          ScanArcs(net, n, source, u, lists[u], dist, prevEdge, inQueue, q, p, stamp, clock, c);
      }
      depth := Spfa.FinalTree(net, n, source, p, Spfa.Search(dist, prevEdge, inQueue, q, stamp, clock));
      TreeIsExactEverywhere(net, n, source, dist, prevEdge, depth);
    }

    /** Dijkstra over reduced costs with lazy deletion.  The labels it returns are
        distances relative to `pot`; rolled forward they are exact. */
    method DijkstraPass(source: nat, pot: seq<int>, ghost zone: set<nat>, ghost c: nat)
      returns (dist: seq<Distance>, prevEdge: seq<int>, ghost depth: seq<nat>)
      requires Valid() && Johnson.ZoneValid(edges, n, source, zone, pot)
      requires LargestCost(edges) <= c && PotentialWithin(n, c, pot)
      ensures |dist| == n
      ensures IsShortestTree(edges, n, source, Johnson.Rolled(pot, dist), prevEdge, depth)
      ensures ReachedSet(n, dist) <= zone
    {
      assert |pot| == n && source < n && pot[source] == 0;
      hide Johnson.Searching, Johnson.SettledRelaxed, Johnson.ZoneValid, Unset, IsShortestTree,
        Johnson.Rolled,
        Spread, PotentialWithin;
      var net, lists := edges, graph;
      dist := seq(n, _ => Infinite);
      prevEdge := seq(n, _ => -1);
      var settled := seq(n, _ => false);
      depth := seq(n, _ => 0);
      ghost var level := 0;

      dist := dist[source := Finite(0)];
      var heap: Heap<int> := multiset{(0, source)};
      Johnson.Start(net, n, source, zone, pot, Johnson.Search(dist, prevEdge, settled, depth, heap, level));
      SpreadStart(n, c, pot, dist, source);

      while heap != multiset{}
        invariant Johnson.Sized(Johnson.Search(dist, prevEdge, settled, depth, heap, level), n)
        invariant Johnson.Searching(net, n, source, zone, pot, Johnson.Search(dist, prevEdge, settled, depth, heap, level))
        invariant Johnson.SettledRelaxed(net, n, pot, Johnson.Search(dist, prevEdge, settled, depth, heap, level), n)
        invariant Spread(n, c, pot, dist)
        decreases Unset(settled, n), |heap|
      {
        ghost var before := Johnson.Search(dist, prevEdge, settled, depth, heap, level);
        var top, rest := PopLeastInt(heap);
        var d, u := top.0, top.1;
        heap := rest;
        Johnson.TopIsNode(net, n, source, zone, pot, before, top);
        Johnson.Pop(net, n, source, zone, pot, before, top);
        Johnson.PopRelaxed(net, n, pot, before, top);
        if settled[u] {
          assert Johnson.Popped(before, n, top) == Johnson.Search(dist, prevEdge, settled, depth, heap, level);
          continue;
        }
        UnsetDrops(settled, u, n);
        settled := settled[u := true];
        level := d;
        assert Johnson.Popped(before, n, top) == Johnson.Search(dist, prevEdge, settled, depth, heap, level);
        dist, prevEdge, heap, depth :=
          RelaxArcs(net, n, source, zone, u, d, lists[u], pot, dist, prevEdge, settled, depth, heap, c);
      }
      Johnson.FinalTree(net, n, source, zone, pot, Johnson.Search(dist, prevEdge, settled, depth, heap, level));
    }

    /** The least residual capacity on the tree path, found by walking it backwards. */
    method Bottleneck(source: nat, sink: nat, prevEdge: seq<int>, ghost dist: seq<Distance>, ghost depth: seq<nat>)
      returns (bottleneck: int)
      requires Valid() && IsShortestTree(edges, n, source, dist, prevEdge, depth)
      requires Reached(dist, sink) && sink != source
      ensures 0 < bottleneck <= INT_MAX
      ensures forall e :: e in PathTo(edges, n, source, dist, prevEdge, depth, sink) ==>
                e < |edges| && bottleneck <= edges[e].cap
    {
      assert |prevEdge| == |depth| == |dist| == n;
      hide IsShortestTree, PathTo, IsAdjacency;
      var net := edges;
      bottleneck := INT_MAX;
      var v: nat := sink;
      ghost var tail: seq<nat> := [];
      while v != source
        invariant Reached(dist, v) && |prevEdge| == |depth| == |dist| == n
        invariant PathTo(net, n, source, dist, prevEdge, depth, sink) ==
                    PathTo(net, n, source, dist, prevEdge, depth, v) + tail
        invariant 0 < bottleneck <= INT_MAX
        invariant forall e :: e in tail ==> e < |net| && bottleneck <= net[e].cap
        decreases depth[v]
      {
        PathStep(net, n, source, dist, prevEdge, depth, v);
        var id: nat := prevEdge[v];
        bottleneck := if net[id].cap < bottleneck then net[id].cap else bottleneck;
        tail := [id] + tail;
        v := net[Partner(id)].to;
      }
      PathAtRoot(net, n, source, dist, prevEdge, depth);
    }

    /** Moves `bottleneck` units along the tree path: measured from any earlier state
        `base`, the source sends that much more, the sink receives it, every other node
        still conserves, and the cost grows by the path's cost per unit. */
    method Augment(source: nat, sink: nat, prevEdge: seq<int>, bottleneck: int,
                   ghost dist: seq<Distance>, ghost depth: seq<nat>, ghost base: Net)
      requires Valid() && IsShortestTree(edges, n, source, dist, prevEdge, depth)
      requires Reached(dist, sink) && sink != source && 0 < bottleneck
      requires forall e :: e in PathTo(edges, n, source, dist, prevEdge, depth, sink) ==>
                 e < |edges| && bottleneck <= edges[e].cap
      requires WellFormed(base, n) && SameShape(base, edges)
      modifies this`edges
      ensures Valid() && SameShape(base, edges) && SameShape(old(edges), edges)
      ensures OnlyTightReversals(old(edges), edges, n, dist)
      ensures PushedAlong(base, old(edges), edges, n, source, sink, bottleneck, dist[sink].value)
    {
      hide IsShortestTree, PathTo, IsAdjacency, FitsInt, SameShape, WellFormed, PathIntact, Along,
        OnlyTightReversals, PushedAlong, Value, Cost;
      ghost var before := edges;
      var v: nat := sink;
      StartAlong(base, before, n, source, sink, dist, prevEdge, depth, bottleneck);
      while v != source
        invariant |edges| == |before| && |edges| % 2 == 0 && |prevEdge| == |depth| == n && v < n
        invariant Along(base, before, edges, n, source, sink, dist, prevEdge, depth, v, bottleneck)
        decreases depth[v]
      {
        ghost var now := edges;
        ghost var e, u := StepAlong(base, before, now, n, source, sink, dist, prevEdge, depth, v, bottleneck);
        var id: nat := prevEdge[v];
        edges := edges[id := edges[id].(cap := edges[id].cap - bottleneck)];
        edges := edges[Partner(id) := edges[Partner(id)].(cap := edges[Partner(id)].cap + bottleneck)];
        assert edges == PushEdge(now, id, bottleneck);
        v := edges[Partner(id)].to;
      }
      EndAlong(base, before, edges, n, source, sink, dist, prevEdge, depth, bottleneck);
      ShapeKeepsAdjacency(before, edges, n, graph);
    }

    /** The flow pushed by this call is a minimum-cost maximum flow of the residual network
        it started from, and the returned pair is that flow's value and cost.  Each pair of
        edges keeps its capacity.  The engine has no influence on the pair. */
    method Solve(source: nat, sink: nat, engine: Engine) returns (totalFlow: int, totalCost: int)
      requires Valid() && source < n && sink < n && source != sink && NoNegativeCycle(edges)
      modifies this`edges
      ensures Valid() && SameShape(old(edges), edges)
      ensures IsMinCostMaxFlow(old(edges), n, Pushed(old(edges), edges), source, sink)
      ensures totalFlow == Value(old(edges), Pushed(old(edges), edges), source)
      ensures totalCost == Cost(old(edges), Pushed(old(edges), edges))
      ensures NoNegativeCycle(edges) && !Reachable(edges, source, sink)
      ensures TotalsWithin(n, LargestCost(old(edges)), OutCapacity(old(edges), source, |old(edges)| / 2), totalFlow, totalCost)
    {
      var chosen := engine;
      if chosen == Auto {
        // edges / 2 / n > 40.0, multiplied out
        chosen := if |edges| / 2 > 40 * n then Engine.Dijkstra else Engine.Spfa;
      }
      if chosen == Engine.Spfa {
        totalFlow, totalCost := SolveSpfa(source, sink);
      } else {
        totalFlow, totalCost := SolveDijkstra(source, sink);
      }
    }

    /** Johnson's variant.  `zone` holds the nodes still reachable and only shrinks; on it
        the program's potential agrees with a ghost potential that is valid everywhere. */
    method SolveDijkstra(source: nat, sink: nat) returns (totalFlow: int, totalCost: int)
      requires Valid() && source < n && sink < n && source != sink && NoNegativeCycle(edges)
      modifies this`edges
      ensures Valid() && Solved(old(edges), edges, n, source, sink, totalFlow, totalCost)
      ensures TotalsWithin(n, LargestCost(old(edges)), OutCapacity(old(edges), source, |old(edges)| / 2), totalFlow, totalCost)
    {
      hide WellFormed, FitsInt, IsAdjacency, SameShape, NoNegativeCycle, ValidPotential, IsShortestTree, PathTo,
        Solving, PushedAlong, Solved,
        Johnson.ZoneValid, Johnson.Rolled, Johnson.RolledPot, OnlyTightReversals,
        Reachable, IsShortest, ClosedUnderArcs, TotalCapacity, PotentialWithin, TotalsWithin, OutCapacity, LargestCost, Limit, Longest, Layer,
        ReachedSet, Lifted, Partner, From, IsArc, Satisfied;
      ghost var base := edges;
      totalFlow, totalCost := 0, 0;
      StartSolving(base, n, source, sink);
      ghost var c, capacity := LargestCost(base), OutCapacity(base, source, |base| / 2);
      ghost var p := PotentialExists(edges, n);

      var seed, prevSeed, depthSeed := BellmanFord(source);
      var pot := SeedPotential(seed);
      ghost var zone := ReachedSet(n, seed);
      ReachedIsClosed(edges, n, source, seed, prevSeed, depthSeed);
      Johnson.SeedIsValid(edges, n, source, seed, prevSeed, depthSeed, pot);
      SeedWithin(edges, n, source, seed, pot, c);
      NoTotals(n, c, capacity);

      while true
        invariant Valid() && Solving(base, edges, n, source, sink, totalFlow, totalCost)
        invariant ValidPotential(edges, n, p)
        invariant |pot| == n && pot[source] == 0 && Johnson.ZoneValid(edges, n, source, zone, pot)
        invariant LargestCost(edges) == c && PotentialWithin(n, c, pot) && TotalsWithin(n, c, capacity, totalFlow, totalCost)
        decreases TotalCapacity(base, |base| / 2) - totalFlow
      {
        var dist, prevEdge, depth := DijkstraPass(source, pot, zone, c);
        ghost var before, labels := edges, Johnson.Rolled(pot, dist);
        Johnson.RoundFacts(edges, n, source, pot, dist, prevEdge, depth);
        if dist[sink].Infinite? {
          Finish(base, edges, n, source, sink, totalFlow, totalCost, ReachedSet(n, dist), p);
          return;
        }
        ghost var pot0 := pot;
        PotentialExcludesNegativeCycles(edges, n, p);
        RolledWithin(edges, n, source, pot, dist, prevEdge, depth, c);
        RolledInLimit(n, c, pot, dist);
        pot := RollForward(pot, dist, Limit(n, c));
        PotentialAt(n, c, pot, sink);
        var bottleneck := Bottleneck(source, sink, prevEdge, labels, depth);
        SolvingShape(base, edges, n, source, sink, totalFlow, totalCost);
        Augment(source, sink, prevEdge, bottleneck, labels, depth, base);
        Advance(base, before, edges, n, source, sink, totalFlow, totalCost, bottleneck, labels, prevEdge, depth, p);
        Johnson.RoundKeepsInvariant(before, edges, n, source, pot0, dist, prevEdge, depth);
        p := Lifted(labels, p);
        zone := ReachedSet(n, dist);
        ShapeKeepsCost(before, edges);
        FlowWithin(base, edges, n, source, sink, totalFlow + bottleneck, totalCost + bottleneck * pot[sink]);
        totalFlow, totalCost := AddTotals(n, c, capacity, totalFlow, totalCost, bottleneck, pot[sink]);
      }
    }

    method SolveSpfa(source: nat, sink: nat) returns (totalFlow: int, totalCost: int)
      requires Valid() && source < n && sink < n && source != sink && NoNegativeCycle(edges)
      modifies this`edges
      ensures Valid() && Solved(old(edges), edges, n, source, sink, totalFlow, totalCost)
      ensures TotalsWithin(n, LargestCost(old(edges)), OutCapacity(old(edges), source, |old(edges)| / 2), totalFlow, totalCost)
    {
      hide WellFormed, FitsInt, IsAdjacency, SameShape, NoNegativeCycle, ValidPotential, IsShortestTree, PathTo,
        Solving, PushedAlong, Solved, Reachable, IsShortest, OnlyTightReversals, ClosedUnderArcs, TotalCapacity,
        TotalsWithin, OutCapacity, LargestCost, Longest, Layer, ReachedSet, Lifted, Partner, From, IsArc, Satisfied;
      ghost var base := edges;
      totalFlow, totalCost := 0, 0;
      StartSolving(base, n, source, sink);
      ghost var c, capacity := LargestCost(base), OutCapacity(base, source, |base| / 2);
      ghost var p := PotentialExists(edges, n);
      NoTotals(n, c, capacity);
      while true
        invariant Valid() && Solving(base, edges, n, source, sink, totalFlow, totalCost)
        invariant ValidPotential(edges, n, p)
        invariant LargestCost(edges) == c && TotalsWithin(n, c, capacity, totalFlow, totalCost)
        decreases TotalCapacity(base, |base| / 2) - totalFlow
      {
        PotentialExcludesNegativeCycles(edges, n, p);
        var dist, prevEdge, depth := BellmanFord(source);
        ReachedIsClosed(edges, n, source, dist, prevEdge, depth);
        if dist[sink].Infinite? {
          Finish(base, edges, n, source, sink, totalFlow, totalCost, ReachedSet(n, dist), p);
          return;
        }
        ghost var before := edges;
        var bottleneck := Bottleneck(source, sink, prevEdge, dist, depth);
        SolvingShape(base, edges, n, source, sink, totalFlow, totalCost);
        Augment(source, sink, prevEdge, bottleneck, dist, depth, base);
        Advance(base, before, edges, n, source, sink, totalFlow, totalCost, bottleneck, dist, prevEdge, depth, p);
        p := Lifted(dist, p);
        ShortestWithin(before, n, source, sink, dist[sink].value, c);
        ShapeKeepsCost(before, edges);
        FlowWithin(base, edges, n, source, sink, totalFlow + bottleneck, totalCost + bottleneck * dist[sink].value);
        totalFlow, totalCost := AddTotals(n, c, capacity, totalFlow, totalCost, bottleneck, dist[sink].value);
      }
    }
  }
}
