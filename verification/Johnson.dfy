/** Dijkstra on Johnson's reduced costs: the invariant of one search over the nodes
    `zone` on whose outgoing residual arcs the potential `pot` is valid. */
module Johnson {
  import opened Residual
  import opened FlowTheory
  import opened ShortestTree

  /** cost'(u -> v) = cost(u -> v) + pot[u] - pot[v] */
  function Weight(net: Net, n: nat, pot: seq<int>, e: nat): int
    requires |net| % 2 == 0 && |pot| == n && e < |net| && From(net, e) < n && net[e].to < n
  {
    net[e].cost + pot[From(net, e)] - pot[net[e].to]
  }

  /** `zone` holds the source, is closed under residual arcs, and none of its arcs has
      a negative reduced cost: the Johnson invariant. */
  ghost predicate ZoneValid(net: Net, n: nat, source: nat, zone: set<nat>, pot: seq<int>)
    requires WellFormed(net, n)
  {
    && source < n && source in zone
    && |pot| == n && pot[source] == 0
    && ClosedUnderArcs(net, zone)
    && forall e: nat :: IsArc(net, e) && From(net, e) in zone ==> 0 <= Weight(net, n, pot, e)
  }

  ghost predicate Relaxed(net: Net, n: nat, pot: seq<int>, dist: seq<Distance>, e: nat)
    requires WellFormed(net, n) && |pot| == |dist| == n && e < |net|
  {
    && Reached(dist, From(net, e))
    && Reached(dist, net[e].to)
    && dist[net[e].to].value <= dist[From(net, e)].value + Weight(net, n, pot, e)
  }

  ghost predicate ParentOf(net: Net, n: nat, pot: seq<int>, dist: seq<Distance>, prev: seq<int>, settled: seq<bool>,
                           depth: seq<nat>, v: nat)
    requires WellFormed(net, n) && |pot| == |dist| == |prev| == |settled| == |depth| == n && Reached(dist, v)
  {
    && 0 <= prev[v]
    && IsArc(net, prev[v])
    && net[prev[v]].to == v
    && Reached(dist, From(net, prev[v]))
    && settled[From(net, prev[v])]
    && dist[v].value == dist[From(net, prev[v])].value + Weight(net, n, pot, prev[v])
    && depth[From(net, prev[v])] < depth[v]
  }

  /** The variables of one search; `level` is the key of the last entry popped. */
  datatype Search = Search(dist: seq<Distance>, prev: seq<int>, settled: seq<bool>, depth: seq<nat>,
                           heap: multiset<(int, nat)>, level: int)

  ghost predicate Sized(s: Search, n: nat)
  {
    |s.dist| == |s.prev| == |s.settled| == |s.depth| == n && 0 <= s.level
  }

  /** Everything settled lies at or below `level`; everything reached lies in the zone. */
  ghost predicate SettledBelow(s: Search, n: nat, zone: set<nat>)
    requires Sized(s, n)
  {
    && (forall v: nat :: Reached(s.dist, v) ==> v in zone)
    && (forall v: nat :: v < n && s.settled[v] ==> Reached(s.dist, v) && s.dist[v].value <= s.level)
  }

  /** Every reached unsettled node is queued at its label; stale entries only lie higher. */
  ghost predicate Queued(s: Search, n: nat)
    requires Sized(s, n)
  {
    && (forall v: nat :: v < n && Reached(s.dist, v) && !s.settled[v] ==> (s.dist[v].value, v) in s.heap)
    && (forall en :: en in s.heap ==> Reached(s.dist, en.1) && s.dist[en.1].value <= en.0 && s.level <= en.0)
  }

  ghost predicate Parented(net: Net, n: nat, source: nat, pot: seq<int>, s: Search)
    requires WellFormed(net, n) && Sized(s, n) && |pot| == n
  {
    forall v: nat {:trigger ParentOf(net, n, pot, s.dist, s.prev, s.settled, s.depth, v)} ::
      v < n && v != source && Reached(s.dist, v) ==>
        ParentOf(net, n, pot, s.dist, s.prev, s.settled, s.depth, v)
  }

  ghost predicate Searching(net: Net, n: nat, source: nat, zone: set<nat>, pot: seq<int>, s: Search)
    requires WellFormed(net, n)
  {
    && ZoneValid(net, n, source, zone, pot)
    && Sized(s, n)
    && s.dist[source] == Finite(0)
    && SettledBelow(s, n, zone)
    && Queued(s, n)
    && Parented(net, n, source, pot, s)
  }

  /** The state after an improving relaxation along `id`. */
  ghost function Relaxing(net: Net, n: nat, pot: seq<int>, s: Search, id: nat): Search
    requires WellFormed(net, n) && Sized(s, n) && |pot| == n && id < |net|
  {
    var v := net[id].to;
    var x := s.level + Weight(net, n, pot, id);
    s.(dist := s.dist[v := Finite(x)], prev := s.prev[v := id],
       depth := s.depth[v := s.depth[From(net, id)] + 1], heap := s.heap + multiset{(x, v)})
  }

  ghost predicate CanRelax(net: Net, n: nat, source: nat, zone: set<nat>, pot: seq<int>, s: Search, id: nat)
    requires WellFormed(net, n)
  {
    && Searching(net, n, source, zone, pot, s)
    && IsArc(net, id) && s.settled[From(net, id)] && s.dist[From(net, id)] == Finite(s.level)
    && Improves(s.level + Weight(net, n, pot, id), s.dist[net[id].to])
  }

  lemma {:induction false} RelaxTarget(net: Net, n: nat, source: nat, zone: set<nat>, pot: seq<int>, s: Search, id: nat)
    requires WellFormed(net, n) && CanRelax(net, n, source, zone, pot, s, id)
    ensures !s.settled[net[id].to] && net[id].to != source && net[id].to in zone
    ensures 0 <= Weight(net, n, pot, id)
  {
    assert Reached(s.dist, From(net, id));
    assert s.dist[source] == Finite(0);
  }

  lemma {:induction false} RelaxQueued(net: Net, n: nat, pot: seq<int>, s: Search, id: nat)
    requires WellFormed(net, n) && Sized(s, n) && |pot| == n && id < |net|
    requires Queued(s, n) && !s.settled[net[id].to] && 0 <= Weight(net, n, pot, id)
    requires Improves(s.level + Weight(net, n, pot, id), s.dist[net[id].to])
    ensures Queued(Relaxing(net, n, pot, s, id), n)
  {
    var r := Relaxing(net, n, pot, s, id);
    var v := net[id].to;
    forall y: nat | y < n && Reached(r.dist, y) && !r.settled[y]
      ensures (r.dist[y].value, y) in r.heap
    {
      if y != v {
        assert Reached(s.dist, y);
      }
    }
    forall en | en in r.heap
      ensures Reached(r.dist, en.1) && r.dist[en.1].value <= en.0 && r.level <= en.0
    {
      if en in s.heap {
        assert Reached(s.dist, en.1);
      }
    }
  }

  lemma {:induction false} RelaxParented(net: Net, n: nat, source: nat, pot: seq<int>, s: Search, id: nat)
    requires WellFormed(net, n) && Sized(s, n) && |pot| == n && IsArc(net, id)
    requires Parented(net, n, source, pot, s) && !s.settled[net[id].to]
    requires s.settled[From(net, id)] && s.dist[From(net, id)] == Finite(s.level)
    ensures Parented(net, n, source, pot, Relaxing(net, n, pot, s, id))
  {
    var r := Relaxing(net, n, pot, s, id);
    var v := net[id].to;
    forall y: nat | y < n && y != source && Reached(r.dist, y)
      ensures ParentOf(net, n, pot, r.dist, r.prev, r.settled, r.depth, y)
    {
      if y != v {
        assert Reached(s.dist, y);
        assert ParentOf(net, n, pot, s.dist, s.prev, s.settled, s.depth, y);
      }
    }
  }

  /** Relaxing an arc out of the node just settled keeps the invariant; in particular
      a settled node is never improved again. */
  lemma {:induction false} Relax(net: Net, n: nat, source: nat, zone: set<nat>, pot: seq<int>, s: Search, id: nat)
    requires WellFormed(net, n) && CanRelax(net, n, source, zone, pot, s, id)
    ensures !s.settled[net[id].to] && net[id].to != source
    ensures Searching(net, n, source, zone, pot, Relaxing(net, n, pot, s, id))
  {
    RelaxTarget(net, n, source, zone, pot, s, id);
    RelaxQueued(net, n, pot, s, id);
    RelaxParented(net, n, source, pot, s, id);
    var r := Relaxing(net, n, pot, s, id);
    forall y: nat | Reached(r.dist, y) ensures y in zone {
      if y != net[id].to {
        assert Reached(s.dist, y);
      }
    }
    assert SettledBelow(r, n, zone);
  }

  // ---- Which arcs are relaxed already ---------------------------------------------

  /** Every arc out of a settled node other than `u` is relaxed. */
  ghost predicate SettledRelaxed(net: Net, n: nat, pot: seq<int>, s: Search, u: nat)
    requires WellFormed(net, n) && Sized(s, n) && |pot| == n
  {
    forall e: nat :: IsArc(net, e) && s.settled[From(net, e)] && From(net, e) != u ==> Relaxed(net, n, pot, s.dist, e)
  }

  ghost predicate ArcsRelaxed(net: Net, n: nat, pot: seq<int>, s: Search, ids: seq<nat>, i: nat)
    requires WellFormed(net, n) && Sized(s, n) && |pot| == n && i <= |ids|
    requires forall j :: 0 <= j < |ids| ==> ids[j] < |net|
  {
    forall j :: 0 <= j < i && IsArc(net, ids[j]) ==> Relaxed(net, n, pot, s.dist, ids[j])
  }

  /** The state after popping `top`: a stale copy is dropped, otherwise its node settles. */
  ghost function Popped(s: Search, n: nat, top: (int, nat)): Search
    requires Sized(s, n) && top.1 < n
  {
    if s.settled[top.1] then
      s.(heap := s.heap - multiset{top})
    else
      s.(settled := s.settled[top.1 := true], heap := s.heap - multiset{top}, level := top.0)
  }

  ghost predicate IsTop(s: Search, n: nat, top: (int, nat))
  {
    && top.1 < n && top in s.heap
    && forall en :: en in s.heap ==> top.0 <= en.0
  }

  lemma TopIsNode(net: Net, n: nat, source: nat, zone: set<nat>, pot: seq<int>, s: Search, top: (int, nat))
    requires WellFormed(net, n) && Searching(net, n, source, zone, pot, s)
    requires top in s.heap && forall en :: en in s.heap ==> top.0 <= en.0
    ensures IsTop(s, n, top)
  {
    assert Reached(s.dist, top.1);
  }

  lemma {:induction false} PopQueued(s: Search, n: nat, zone: set<nat>, top: (int, nat))
    requires Sized(s, n) && SettledBelow(s, n, zone) && Queued(s, n) && IsTop(s, n, top)
    ensures Sized(Popped(s, n, top), n)
    ensures Queued(Popped(s, n, top), n) && SettledBelow(Popped(s, n, top), n, zone)
    ensures !s.settled[top.1] ==> s.dist[top.1] == Finite(top.0)
  {
    var u := top.1;
    assert Reached(s.dist, u) && s.dist[u].value <= top.0 && s.level <= top.0;
    if !s.settled[u] {
      assert (s.dist[u].value, u) in s.heap;
    }
    PopNodes(s, n, top);
    PopEntries(s, n, top);
    hide IsTop;
  }

  lemma {:induction false} PopNodes(s: Search, n: nat, top: (int, nat))
    requires Sized(s, n) && Queued(s, n) && top.1 < n
    ensures var r := Popped(s, n, top);
            forall v: nat :: v < n && Reached(r.dist, v) && !r.settled[v] ==> (r.dist[v].value, v) in r.heap
  {
    var r := Popped(s, n, top);
    forall v: nat | v < n && Reached(r.dist, v) && !r.settled[v]
      ensures (r.dist[v].value, v) in r.heap
    {
      assert (s.dist[v].value, v) in s.heap;
      assert v != top.1;
    }
  }

  lemma {:induction false} PopEntries(s: Search, n: nat, top: (int, nat))
    requires Sized(s, n) && Queued(s, n) && IsTop(s, n, top)
    ensures var r := Popped(s, n, top);
            forall en :: en in r.heap ==> Reached(r.dist, en.1) && r.dist[en.1].value <= en.0 && r.level <= en.0
  {
    var r := Popped(s, n, top);
    forall en | en in r.heap ensures Reached(r.dist, en.1) && r.dist[en.1].value <= en.0 && r.level <= en.0 {
      assert en in s.heap;
    }
  }

  lemma {:induction false} PopParented(net: Net, n: nat, source: nat, pot: seq<int>, s: Search, top: (int, nat))
    requires WellFormed(net, n) && Sized(s, n) && |pot| == n && top.1 < n
    requires Parented(net, n, source, pot, s)
    requires Sized(Popped(s, n, top), n)
    ensures Parented(net, n, source, pot, Popped(s, n, top))
  {
    var r := Popped(s, n, top);
    forall v: nat | v < n && v != source && Reached(r.dist, v)
      ensures ParentOf(net, n, pot, r.dist, r.prev, r.settled, r.depth, v)
    {
      assert ParentOf(net, n, pot, s.dist, s.prev, s.settled, s.depth, v);
    }
  }

  lemma {:induction false} PopRelaxed(net: Net, n: nat, pot: seq<int>, s: Search, top: (int, nat))
    requires WellFormed(net, n) && Sized(s, n) && |pot| == n && top.1 < n
    requires SettledRelaxed(net, n, pot, s, n) && Sized(Popped(s, n, top), n)
    ensures SettledRelaxed(net, n, pot, Popped(s, n, top), if s.settled[top.1] then n else top.1)
  {
  }

  /** A node settles at its final cost, whatever stale copies the heap still holds. */
  lemma {:induction false} Pop(net: Net, n: nat, source: nat, zone: set<nat>, pot: seq<int>, s: Search, top: (int, nat))
    requires WellFormed(net, n) && Searching(net, n, source, zone, pot, s) && IsTop(s, n, top)
    ensures Searching(net, n, source, zone, pot, Popped(s, n, top))
    ensures !s.settled[top.1] ==> s.dist[top.1] == Finite(top.0)
    ensures Sized(Popped(s, n, top), n)
  {
    PopQueued(s, n, zone, top);
    PopParented(net, n, source, pot, s, top);
  }

  lemma {:induction false} Start(net: Net, n: nat, source: nat, zone: set<nat>, pot: seq<int>, s: Search)
    requires WellFormed(net, n) && ZoneValid(net, n, source, zone, pot) && Sized(s, n)
    requires s.dist == seq(n, _ => Infinite)[source := Finite(0)]
    requires s.settled == seq(n, _ => false) && s.heap == multiset{(0, source)} && s.level == 0
    ensures Searching(net, n, source, zone, pot, s)
    ensures SettledRelaxed(net, n, pot, s, n)
  {
    assert forall v: nat :: v < n && v != source ==> s.dist[v] == Infinite;
    assert forall v: nat :: v < n ==> !s.settled[v];
    assert forall en :: en in s.heap ==> en == (0, source);
  }

  lemma {:induction false} ScanStart(net: Net, n: nat, pot: seq<int>, s: Search, u: nat, ids: seq<nat>)
    requires WellFormed(net, n) && Sized(s, n) && |pot| == n
    requires forall j :: 0 <= j < |ids| ==> ids[j] < |net|
    ensures ArcsRelaxed(net, n, pot, s, ids, 0)
  {
  }

  lemma {:induction false} SkipArc(net: Net, n: nat, pot: seq<int>, s: Search, ids: seq<nat>, i: nat)
    requires WellFormed(net, n) && Sized(s, n) && |pot| == n && i < |ids|
    requires forall j :: 0 <= j < |ids| ==> ids[j] < |net|
    requires ArcsRelaxed(net, n, pot, s, ids, i)
    requires IsArc(net, ids[i]) ==>
               && Reached(s.dist, From(net, ids[i]))
               && !Improves(s.dist[From(net, ids[i])].value + Weight(net, n, pot, ids[i]), s.dist[net[ids[i]].to])
    ensures ArcsRelaxed(net, n, pot, s, ids, i + 1)
  {
  }

  /** A relaxed arc stays relaxed when the label of a node that is not its tail drops. */
  lemma {:induction false} RelaxedKept(net: Net, n: nat, pot: seq<int>, dist: seq<Distance>, v: nat, x: int, e: nat)
    requires WellFormed(net, n) && |pot| == |dist| == n && v < n && Improves(x, dist[v]) && e < |net|
    requires Reached(dist, From(net, e)) && Relaxed(net, n, pot, dist, e) && From(net, e) != v
    ensures Reached(dist[v := Finite(x)], From(net, e))
    ensures Relaxed(net, n, pot, dist[v := Finite(x)], e)
  {
  }

  lemma {:induction false} RelaxedAfter(net: Net, n: nat, pot: seq<int>, s: Search, u: nat, ids: seq<nat>, i: nat)
    requires WellFormed(net, n) && Sized(s, n) && |pot| == n && u < n && s.settled[u] && s.dist[u] == Finite(s.level)
    requires i < |ids| && forall j :: 0 <= j < |ids| ==> ids[j] < |net| && From(net, ids[j]) == u
    requires SettledRelaxed(net, n, pot, s, u) && ArcsRelaxed(net, n, pot, s, ids, i)
    requires !s.settled[net[ids[i]].to]
    requires Improves(s.level + Weight(net, n, pot, ids[i]), s.dist[net[ids[i]].to])
    ensures Sized(Relaxing(net, n, pot, s, ids[i]), n)
    ensures SettledRelaxed(net, n, pot, Relaxing(net, n, pot, s, ids[i]), u)
    ensures ArcsRelaxed(net, n, pot, Relaxing(net, n, pot, s, ids[i]), ids, i + 1)
  {
    var v, x := net[ids[i]].to, s.level + Weight(net, n, pot, ids[i]);
    var r := Relaxing(net, n, pot, s, ids[i]);
    forall e: nat | IsArc(net, e) && s.settled[From(net, e)] && From(net, e) != u
      ensures Reached(r.dist, From(net, e)) && Relaxed(net, n, pot, r.dist, e)
    {
      RelaxedKept(net, n, pot, s.dist, v, x, e);
    }
    forall j | 0 <= j < i + 1 && IsArc(net, ids[j])
      ensures Relaxed(net, n, pot, r.dist, ids[j])
    {
      if j < i {
        RelaxedKept(net, n, pot, s.dist, v, x, ids[j]);
      }
    }
  }

  lemma {:induction false} ScanDone(net: Net, n: nat, pot: seq<int>, s: Search, u: nat, ids: seq<nat>)
    requires WellFormed(net, n) && Sized(s, n) && |pot| == n
    requires forall j :: 0 <= j < |ids| ==> ids[j] < |net|
    requires forall e: nat :: e < |net| && From(net, e) == u ==> e in ids
    requires SettledRelaxed(net, n, pot, s, u) && ArcsRelaxed(net, n, pot, s, ids, |ids|)
    ensures SettledRelaxed(net, n, pot, s, n)
  {
    forall e: nat | IsArc(net, e) && s.settled[From(net, e)]
      ensures Relaxed(net, n, pot, s.dist, e)
    {
      if From(net, e) == u {
        assert e in ids;
      }
    }
  }

  /** The rolled-forward potential as labels of the nodes this search reached. */
  ghost function Rolled(pot: seq<int>, dist: seq<Distance>): (labels: seq<Distance>)
    requires |pot| == |dist|
    ensures |labels| == |dist|
  {
    seq(|dist|, v requires 0 <= v < |dist| =>
      if dist[v].Finite? then Finite(pot[v] + dist[v].value) else Infinite)
  }

  lemma {:induction false} FinalTree(net: Net, n: nat, source: nat, zone: set<nat>, pot: seq<int>, s: Search)
    requires WellFormed(net, n)
    requires Searching(net, n, source, zone, pot, s) && s.heap == multiset{}
    requires SettledRelaxed(net, n, pot, s, n)
    ensures IsShortestTree(net, n, source, Rolled(pot, s.dist), s.prev, s.depth)
    ensures ReachedSet(n, s.dist) <= zone
  {
    var labels := Rolled(pot, s.dist);
    forall v | 0 <= v < n && v != source && Reached(labels, v)
      ensures TreeArc(net, n, labels, s.prev, s.depth, v)
    {
      assert Reached(s.dist, v);
      assert ParentOf(net, n, pot, s.dist, s.prev, s.settled, s.depth, v);
    }
    forall e: nat | IsArc(net, e)
      ensures Satisfied(net, n, labels, e)
    {
      if Reached(labels, From(net, e)) {
        assert Reached(s.dist, From(net, e));
        assert s.settled[From(net, e)];
        assert Relaxed(net, n, pot, s.dist, e);
      }
    }
  }

  // ---- The invariant across rounds ---------------------------------------------

  /** `pot[v] += dist[v]` for every node this round reached; the others are frozen. */
  ghost function RolledPot(pot: seq<int>, dist: seq<Distance>): (r: seq<int>)
    requires |pot| == |dist|
    ensures |r| == |pot|
  {
    seq(|pot|, v requires 0 <= v < |pot| => if dist[v].Finite? then pot[v] + dist[v].value else pot[v])
  }

  lemma {:induction false} RolledIsExact(net: Net, n: nat, source: nat, pot: seq<int>, dist: seq<Distance>,
                                         prev: seq<int>, depth: seq<nat>, v: nat)
    requires WellFormed(net, n) && |pot| == |dist| == n && v < n
    requires IsShortestTree(net, n, source, Rolled(pot, dist), prev, depth)
    ensures v in ReachedSet(n, dist) <==> Reachable(net, source, v)
    ensures v in ReachedSet(n, dist) ==> IsShortest(net, source, v, RolledPot(pot, dist)[v])
  {
    TreeIsExact(net, n, source, Rolled(pot, dist), prev, depth, v);
  }

  lemma {:induction false} ZoneAfterRound(before: Net, after: Net, n: nat, source: nat, pot: seq<int>, dist: seq<Distance>)
    requires WellFormed(before, n) && WellFormed(after, n) && SameShape(before, after)
    requires source < n && |pot| == |dist| == n && pot[source] == 0 && Rolled(pot, dist)[source] == Finite(0)
    requires forall e: nat :: IsArc(before, e) ==> Satisfied(before, n, Rolled(pot, dist), e)
    requires OnlyTightReversals(before, after, n, Rolled(pot, dist))
    ensures ZoneValid(after, n, source, ReachedSet(n, dist), RolledPot(pot, dist))
  {
    hide OnlyTightReversals, SameShape, Satisfied, Weight;
    var zone', pot' := ReachedSet(n, dist), RolledPot(pot, dist);
    forall e: nat | IsArc(after, e) && From(after, e) in zone'
      ensures after[e].to in zone' && 0 <= Weight(after, n, pot', e)
    {
      ArcAfterRound(before, after, n, source, pot, dist, e);
    }
  }

  lemma {:induction false} ArcAfterRound(before: Net, after: Net, n: nat, source: nat, pot: seq<int>, dist: seq<Distance>, e: nat)
    requires WellFormed(before, n) && WellFormed(after, n) && SameShape(before, after) && |pot| == |dist| == n
    requires forall d: nat :: IsArc(before, d) ==> Satisfied(before, n, Rolled(pot, dist), d)
    requires OnlyTightReversals(before, after, n, Rolled(pot, dist))
    requires IsArc(after, e) && From(after, e) in ReachedSet(n, dist)
    ensures after[e].to in ReachedSet(n, dist) && 0 <= Weight(after, n, RolledPot(pot, dist), e)
  {
    assert From(after, e) == From(before, e);
    if IsArc(before, e) {
      assert Satisfied(before, n, Rolled(pot, dist), e);
    }
  }

  /** One round of the Dijkstra engine, from the residual state `before` to the state
      `after` in which some tight arcs have been reversed.  The rolled potential is the
      true shortest distance of every node still reached, everything reachable afterwards
      was reached before, and the Johnson invariant holds again. */
  lemma {:induction false} RoundKeepsInvariant(before: Net, after: Net, n: nat, source: nat,
                                               pot: seq<int>, dist: seq<Distance>, prev: seq<int>, depth: seq<nat>)
    requires WellFormed(before, n) && WellFormed(after, n) && SameShape(before, after)
    requires |pot| == |dist| == n && source < n && pot[source] == 0
    requires IsShortestTree(before, n, source, Rolled(pot, dist), prev, depth)
    requires OnlyTightReversals(before, after, n, Rolled(pot, dist))
    ensures ZoneValid(after, n, source, ReachedSet(n, dist), RolledPot(pot, dist))
    ensures forall v :: v in ReachedSet(n, dist) ==> IsShortest(before, source, v, RolledPot(pot, dist)[v])
    ensures forall v: nat :: v < n && Reachable(after, source, v) ==> Reachable(before, source, v)
  {
    var zone' := ReachedSet(n, dist);
    ZoneAfterRound(before, after, n, source, pot, dist);
    forall v: nat | v < n
      ensures v in zone' ==> IsShortest(before, source, v, RolledPot(pot, dist)[v])
      ensures Reachable(after, source, v) ==> Reachable(before, source, v)
    {
      RolledIsExact(before, n, source, pot, dist, prev, depth, v);
      if w :| IsWalk(after, source, w, v) {
        ClosedContainsReachable(after, n, zone', source, w, v);
      }
    }
  }

  lemma {:induction false} SeedIsValid(net: Net, n: nat, source: nat, seed: seq<Distance>, prev: seq<int>,
                                       depth: seq<nat>, pot: seq<int>)
    requires WellFormed(net, n) && IsShortestTree(net, n, source, seed, prev, depth)
    requires |pot| == n && forall v :: 0 <= v < n ==> pot[v] == if seed[v].Finite? then seed[v].value else 0
    ensures ZoneValid(net, n, source, ReachedSet(n, seed), pot)
  {
    forall e: nat | IsArc(net, e) && From(net, e) in ReachedSet(n, seed)
      ensures net[e].to in ReachedSet(n, seed) && 0 <= Weight(net, n, pot, e)
    {
      assert Satisfied(net, n, seed, e);
    }
  }

  /** What one pass hands to the rest of its round. */
  lemma {:induction false} RoundFacts(net: Net, n: nat, source: nat, pot: seq<int>, dist: seq<Distance>, prev: seq<int>, depth: seq<nat>)
    requires WellFormed(net, n) && |pot| == |dist| == n
    requires IsShortestTree(net, n, source, Rolled(pot, dist), prev, depth)
    ensures |prev| == |depth| == n && source < n && source in ReachedSet(n, dist)
    ensures |RolledPot(pot, dist)| == n && (pot[source] == 0 ==> RolledPot(pot, dist)[source] == 0)
    ensures ClosedUnderArcs(net, ReachedSet(n, dist))
    ensures forall v: nat :: v < n ==> (Reached(dist, v) <==> Reached(Rolled(pot, dist), v))
    ensures forall v: nat :: v < n && Reached(dist, v) ==> Rolled(pot, dist)[v].value == RolledPot(pot, dist)[v]
  {
    var labels := Rolled(pot, dist);
    assert labels[source] == Finite(0);
    forall e: nat | IsArc(net, e) && From(net, e) in ReachedSet(n, dist)
      ensures net[e].to in ReachedSet(n, dist)
    {
      assert Satisfied(net, n, labels, e);
    }
  }
}
