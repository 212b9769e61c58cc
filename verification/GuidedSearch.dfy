/** The invariant shared by the road searches.  A search settles nodes in order of
    g + h, where g is the best time found so far and h a guide: zero for Dijkstra, the
    straight-line bound for A*.  No node is ever settled twice or improved after it was
    settled, and that is sound because the guide is consistent. */
module GuidedSearch {
  import opened Basics
  import opened RoadGraph
  import opened RoadRoutes
  import opened LabelSearch

  /** Consistency: along an arc the guide drops by no more than the arc's time. */
  ghost predicate IsGuide(adj: Adjacency, h: seq<real>)
  {
    && |h| == |adj|
    && forall v: nat, r: RoadArc :: v < |adj| && r in adj[v] && r.to < |adj| ==> h[v] <= r.travelSeconds + h[r.to]
  }

  /** Settled nodes carry a label and a key at or below the level. */
  ghost predicate SettledBelow(h: seq<real>, s: Search)
    requires Sized(s, |h|)
  {
    forall v: nat :: v < |h| && s.settled[v] ==> Reached(s.g, v) && s.g[v].secs + h[v] <= s.level
  }

  /** Stale entries only lie higher. */
  ghost predicate EntriesHigh(h: seq<real>, s: Search)
    requires Sized(s, |h|)
  {
    forall en :: en in s.heap ==> Reached(s.g, en.1) && s.g[en.1].secs + h[en.1] <= en.0 && s.level <= en.0
  }

  ghost predicate NoRouteBelow(adj: Adjacency, source: nat, v: nat, d: real)
  {
    forall w :: IsRoute(adj, source, w, v) ==> d <= Seconds(w)
  }

  /** The label of a settled node is final. */
  ghost predicate SettledExact(adj: Adjacency, source: nat, s: Search)
    requires Sized(s, |adj|)
  {
    forall v: nat :: v < |adj| && s.settled[v] ==> Reached(s.g, v) && NoRouteBelow(adj, source, v, s.g[v].secs)
  }

  ghost predicate RelaxedArc(s: Search, u: nat, r: RoadArc)
  {
    Reached(s.g, u) && Reached(s.g, r.to) && s.g[r.to].secs <= s.g[u].secs + r.travelSeconds
  }

  /** Every arc out of a settled node other than `u` is relaxed. */
  ghost predicate SettledRelaxed(adj: Adjacency, s: Search, u: nat)
    requires Sized(s, |adj|)
  {
    forall x: nat, r: RoadArc :: x < |adj| && s.settled[x] && x != u && r in adj[x] ==> RelaxedArc(s, x, r)
  }

  ghost predicate ArcsRelaxed(s: Search, u: nat, arcs: seq<RoadArc>, i: nat)
    requires i <= |arcs|
  {
    forall j :: 0 <= j < i ==> RelaxedArc(s, u, arcs[j])
  }

  ghost predicate Searching(adj: Adjacency, h: seq<real>, source: nat, s: Search)
  {
    && Labelled(adj, h, source, s)
    && IsGuide(adj, h)
    && SettledBelow(h, s)
    && EntriesHigh(h, s)
    && SettledExact(adj, source, s)
  }

  lemma Start(adj: Adjacency, h: seq<real>, source: nat, s: Search)
    requires IsNetwork(adj) && IsGuide(adj, h) && IsStart(h, source, s)
    ensures Searching(adj, h, source, s) && SettledRelaxed(adj, s, |adj|)
  {
    StartLabelled(adj, h, source, s);
    assert forall v: nat :: v < |adj| ==> !s.settled[v];
    assert forall en :: en in s.heap ==> en == (h[source], source);
  }

  /** The frontier argument: a route either ends in a settled node that is no slower, or
      it passes the frontier, and then consistency keeps it at or above every key there. */
  lemma {:induction false} FrontierBound(adj: Adjacency, h: seq<real>, source: nat, s: Search, key: real, w: Route, x: nat)
    requires IsNetwork(adj) && IsGuide(adj, h) && source < |adj| && Sized(s, |adj|) && s.g[source] == At(0.0)
    requires SettledRelaxed(adj, s, |adj|) && IsRoute(adj, source, w, x)
    requires forall v: nat :: v < |adj| && Reached(s.g, v) && !s.settled[v] ==> key <= s.g[v].secs + h[v]
    requires forall v: nat :: v < |adj| && s.settled[v] ==> Reached(s.g, v)
    ensures x < |adj|
    ensures (s.settled[x] && Reached(s.g, x) && s.g[x].secs <= Seconds(w)) || key <= Seconds(w) + h[x]
  {
    if w != [] {
      var l := w[|w| - 1];
      FrontierBound(adj, h, source, s, key, w[..|w| - 1], l.from);
      if s.settled[l.from] {
        assert RelaxedArc(s, l.from, l.arc);
      }
    }
  }

  // ---- Steps -------------------------------------------------------------------------------

  ghost predicate CanRelax(adj: Adjacency, h: seq<real>, source: nat, s: Search, u: nat, r: RoadArc)
  {
    && Searching(adj, h, source, s)
    && u < |adj| && s.settled[u] && Reached(s.g, u) && s.g[u].secs + h[u] == s.level
    && r in adj[u] && r.to < |adj|
    && IsSooner(s.g[u].secs + r.travelSeconds, s.g[r.to])
  }

  /** A settled node is never improved: its label is final, and any improvement is a route. */
  lemma {:induction false} RelaxTarget(adj: Adjacency, h: seq<real>, source: nat, s: Search, u: nat, r: RoadArc)
    requires CanRelax(adj, h, source, s, u, r)
    ensures !s.settled[r.to]
  {
    hide Parented, NodesQueued, EntriesReached, StampsPast, SettledBelow, EntriesHigh;
    NewHead(adj, h, source, s, u, r);
    var w :| IsRoute(adj, source, w, r.to) && Seconds(w) == s.g[u].secs + r.travelSeconds;
  }

  lemma {:induction false} EntriesAfterRelax(h: seq<real>, s: Search, u: nat, r: RoadArc)
    requires Sized(s, |h|) && u < |h| && r.to < |h| && Reached(s.g, u) && EntriesHigh(h, s)
    requires h[u] <= r.travelSeconds + h[r.to] && s.g[u].secs + h[u] == s.level
    requires IsSooner(s.g[u].secs + r.travelSeconds, s.g[r.to])
    ensures EntriesHigh(h, Relaxing(h, s, u, r))
  {
    var t := Relaxing(h, s, u, r);
    forall en | en in t.heap
      ensures Reached(t.g, en.1) && t.g[en.1].secs + h[en.1] <= en.0 && t.level <= en.0
    {
      if en in s.heap {
        assert Reached(s.g, en.1);
      }
    }
  }

  lemma {:induction false} RelaxSettled(adj: Adjacency, h: seq<real>, source: nat, s: Search, u: nat, r: RoadArc)
    requires |h| == |adj| && Sized(s, |adj|) && u < |adj| && r.to < |adj| && Reached(s.g, u) && !s.settled[r.to]
    requires SettledBelow(h, s) && SettledExact(adj, source, s)
    ensures SettledBelow(h, Relaxing(h, s, u, r)) && SettledExact(adj, source, Relaxing(h, s, u, r))
  {
  }

  lemma {:induction false} Relax(adj: Adjacency, h: seq<real>, source: nat, s: Search, u: nat, r: RoadArc)
    requires CanRelax(adj, h, source, s, u, r)
    ensures !s.settled[r.to] && r.to != source && r.to != u
    ensures Sized(Relaxing(h, s, u, r), |adj|) && Searching(adj, h, source, Relaxing(h, s, u, r))
  {
    hide Labelled, EntriesHigh, SettledBelow, SettledExact, IsNetwork;
    LabelledFacts(adj, h, source, s);
    RelaxTarget(adj, h, source, s, u, r);
    RelaxLabelled(adj, h, source, s, u, r);
    EntriesAfterRelax(h, s, u, r);
    RelaxSettled(adj, h, source, s, u, r);
  }

  lemma LabelledFacts(adj: Adjacency, h: seq<real>, source: nat, s: Search)
    requires Labelled(adj, h, source, s)
    ensures IsNetwork(adj) && |h| == |adj| && source < |adj| && Sized(s, |adj|) && s.g[source] == At(0.0)
  {
  }

  /** What is relaxed stays relaxed. */
  lemma {:induction false} RelaxedAfter(adj: Adjacency, h: seq<real>, s: Search, u: nat, i: nat)
    requires |h| == |adj| && Sized(s, |adj|) && u < |adj| && s.settled[u] && Reached(s.g, u) && i < |adj[u]|
    requires SettledRelaxed(adj, s, u) && ArcsRelaxed(s, u, adj[u], i)
    requires adj[u][i].to < |adj| && !s.settled[adj[u][i].to]
    requires IsSooner(s.g[u].secs + adj[u][i].travelSeconds, s.g[adj[u][i].to])
    ensures SettledRelaxed(adj, Relaxing(h, s, u, adj[u][i]), u)
    ensures ArcsRelaxed(Relaxing(h, s, u, adj[u][i]), u, adj[u], i + 1)
  {
    var r := adj[u][i];
    var t := Relaxing(h, s, u, r);
    forall x: nat, q: RoadArc | x < |adj| && t.settled[x] && x != u && q in adj[x]
      ensures RelaxedArc(t, x, q)
    {
      assert RelaxedArc(s, x, q);
    }
    forall j | 0 <= j < i + 1 ensures RelaxedArc(t, u, adj[u][j]) {
      if j < i {
        assert RelaxedArc(s, u, adj[u][j]);
      }
    }
  }

  lemma ScanStart(s: Search, u: nat, arcs: seq<RoadArc>)
    ensures ArcsRelaxed(s, u, arcs, 0)
  {
  }

  lemma HeadInRange(adj: Adjacency, h: seq<real>, source: nat, s: Search, u: nat, i: nat)
    requires Searching(adj, h, source, s) && u < |adj| && i < |adj[u]|
    ensures adj[u][i].to < |adj| && |h| == |adj| && h[u] <= adj[u][i].travelSeconds + h[adj[u][i].to]
  {
    assert adj[u][i] in adj[u];
  }

  lemma SkipArc(s: Search, u: nat, arcs: seq<RoadArc>, i: nat)
    requires i < |arcs| && ArcsRelaxed(s, u, arcs, i) && Reached(s.g, u) && arcs[i].to < |s.g|
    requires !IsSooner(s.g[u].secs + arcs[i].travelSeconds, s.g[arcs[i].to])
    ensures ArcsRelaxed(s, u, arcs, i + 1)
  {
  }

  lemma ScanDone(adj: Adjacency, s: Search, u: nat)
    requires Sized(s, |adj|) && u < |adj|
    requires SettledRelaxed(adj, s, u) && ArcsRelaxed(s, u, adj[u], |adj[u]|)
    ensures SettledRelaxed(adj, s, |adj|)
  {
    forall x: nat, r: RoadArc | x < |adj| && s.settled[x] && r in adj[x]
      ensures RelaxedArc(s, x, r)
    {
      if x == u {
        var j :| 0 <= j < |adj[u]| && adj[u][j] == r;
      }
    }
  }

  lemma {:induction false} TopKey(h: seq<real>, s: Search, top: (real, nat))
    requires Sized(s, |h|) && NodesQueued(h, s) && EntriesHigh(h, s) && IsTop(s, top)
    ensures top.1 < |h| && Reached(s.g, top.1) && s.level <= top.0
    ensures !s.settled[top.1] ==> s.g[top.1].secs + h[top.1] == top.0
  {
    var u := top.1;
    assert Reached(s.g, u) && s.g[u].secs + h[u] <= top.0;
    if !s.settled[u] {
      assert (s.g[u].secs + h[u], u) in s.heap;
    }
  }

  lemma {:induction false} EntriesAfterPop(h: seq<real>, s: Search, top: (real, nat))
    requires Sized(s, |h|) && EntriesHigh(h, s) && IsTop(s, top) && top.1 < |h|
    ensures EntriesHigh(h, Popped(s, |h|, top))
  {
    var t := Popped(s, |h|, top);
    forall en | en in t.heap
      ensures Reached(t.g, en.1) && t.g[en.1].secs + h[en.1] <= en.0 && t.level <= en.0
    {
      assert en in s.heap;
    }
  }

  lemma {:induction false} PopQueued(h: seq<real>, s: Search, top: (real, nat))
    requires Sized(s, |h|) && SettledBelow(h, s) && NodesQueued(h, s) && EntriesHigh(h, s) && IsTop(s, top)
    ensures top.1 < |h| && Reached(s.g, top.1)
    ensures EntriesHigh(h, Popped(s, |h|, top)) && SettledBelow(h, Popped(s, |h|, top))
    ensures !s.settled[top.1] ==> s.g[top.1].secs + h[top.1] == top.0
  {
    hide NodesQueued, EntriesHigh, IsTop;
    TopKey(h, s, top);
    EntriesAfterPop(h, s, top);
  }

  /** When a least key is popped, no route to its node can be faster than the label. */
  lemma {:induction false} PopExact(adj: Adjacency, h: seq<real>, source: nat, s: Search, top: (real, nat))
    requires Searching(adj, h, source, s) && SettledRelaxed(adj, s, |adj|) && IsTop(s, top)
    requires top.1 < |adj| && Reached(s.g, top.1)
    requires !s.settled[top.1] ==> s.g[top.1].secs + h[top.1] == top.0
    ensures SettledExact(adj, source, Popped(s, |adj|, top))
  {
    var u := top.1;
    if !s.settled[u] {
      FrontierHolds(h, s, top);
      forall w | IsRoute(adj, source, w, u) ensures s.g[u].secs <= Seconds(w) {
        FrontierBound(adj, h, source, s, top.0, w, u);
      }
      assert NoRouteBelow(adj, source, u, s.g[u].secs);
    }
  }

  lemma FrontierHolds(h: seq<real>, s: Search, top: (real, nat))
    requires Sized(s, |h|) && NodesQueued(h, s) && IsTop(s, top)
    ensures forall v: nat :: v < |h| && Reached(s.g, v) && !s.settled[v] ==> top.0 <= s.g[v].secs + h[v]
  {
    forall v: nat | v < |h| && Reached(s.g, v) && !s.settled[v] ensures top.0 <= s.g[v].secs + h[v] {
      assert (s.g[v].secs + h[v], v) in s.heap;
    }
  }

  lemma {:induction false} Pop(adj: Adjacency, h: seq<real>, source: nat, s: Search, top: (real, nat))
    requires Searching(adj, h, source, s) && SettledRelaxed(adj, s, |adj|) && IsTop(s, top)
    ensures top.1 < |adj| && Reached(s.g, top.1) && Sized(Popped(s, |adj|, top), |adj|)
    ensures Searching(adj, h, source, Popped(s, |adj|, top))
    ensures SettledRelaxed(adj, Popped(s, |adj|, top), if s.settled[top.1] then |adj| else top.1)
    ensures !s.settled[top.1] ==> s.g[top.1].secs + h[top.1] == top.0
  {
    hide Parented, StampsPast, AllDriven, SettledBelow, SettledExact, IsNetwork, IsGuide, SettledRelaxed, EntriesHigh,
      EntriesReached, SettledReached, NodesQueued;
    PopLabelled(adj, h, source, s, top);
    PopQueued(h, s, top);
    PopExact(adj, h, source, s, top);
    PopRelaxed(adj, s, top);
  }

  lemma PopRelaxed(adj: Adjacency, s: Search, top: (real, nat))
    requires Sized(s, |adj|) && SettledRelaxed(adj, s, |adj|) && top.1 < |adj|
    ensures SettledRelaxed(adj, Popped(s, |adj|, top), if s.settled[top.1] then |adj| else top.1)
  {
    var t := Popped(s, |adj|, top);
    forall x: nat, r: RoadArc | x < |adj| && t.settled[x] && x != top.1 && r in adj[x] ensures RelaxedArc(t, x, r) {
      assert RelaxedArc(s, x, r);
    }
    if s.settled[top.1] {
      forall x: nat, r: RoadArc | x < |adj| && t.settled[x] && r in adj[x] ensures RelaxedArc(t, x, r) {
        assert RelaxedArc(s, x, r);
      }
    }
  }

  // ---- What a finished search has established ------------------------------------------------

  ghost function SettledSet(settled: seq<bool>, k: nat): (r: set<nat>)
    requires k <= |settled|
    ensures forall v: nat :: v in r <==> v < k && settled[v]
  {
    set v: nat | v < k && settled[v]
  }

  lemma {:induction false} SettledSetSize(settled: seq<bool>, k: nat)
    requires k <= |settled|
    ensures |SettledSet(settled, k)| + Unset(settled, k) == k
  {
    if k > 0 {
      SettledSetSize(settled, k - 1);
      if settled[k - 1] {
        assert SettledSet(settled, k) == SettledSet(settled, k - 1) + {k - 1};
      } else {
        assert SettledSet(settled, k) == SettledSet(settled, k - 1);
      }
    }
  }

  /** The target's label is exact; every settled node lies at or below the target's key, and
      every node strictly below it is settled. */
  ghost predicate Concluded(adj: Adjacency, h: seq<real>, source: nat, target: nat, s: Search)
  {
    && source < |adj| && target < |adj| && |h| == |adj| && Sized(s, |adj|)
    && s.g[source] == At(0.0) && s.parent[source] == -1
    && Parented(adj, source, s) && AllDriven(adj, source, s)
    && SettledExact(adj, source, s)
    && (Reached(s.g, target) ==> s.settled[target])
    && (!Reached(s.g, target) ==> !CanReach(adj, source, target))
    && (forall v: nat :: v < |adj| && s.settled[v] && Reached(s.g, target) ==>
          Reached(s.g, v) && s.g[v].secs + h[v] <= s.g[target].secs + h[target])
    && (forall v: nat, w :: v < |adj| && IsRoute(adj, source, w, v) && !s.settled[v] ==>
          Reached(s.g, target) && s.g[target].secs + h[target] <= Seconds(w) + h[v])
  }

  /** Stopping as soon as the target is popped. */
  lemma {:induction false} StopAtTarget(adj: Adjacency, h: seq<real>, source: nat, target: nat, s: Search, top: (real, nat))
    requires Searching(adj, h, source, s) && SettledRelaxed(adj, s, |adj|) && IsTop(s, top)
    requires top.1 == target && target < |adj| && !s.settled[target]
    ensures Concluded(adj, h, source, target, Popped(s, |adj|, top))
  {
    hide AllDriven, Parented;
    PopQueued(h, s, top);
    PopLabelled(adj, h, source, s, top);
    PopExact(adj, h, source, s, top);
    FrontierHolds(h, s, top);
    var t := Popped(s, |adj|, top);
    forall v: nat, w | v < |adj| && IsRoute(adj, source, w, v) && !t.settled[v]
      ensures t.g[target].secs + h[target] <= Seconds(w) + h[v]
    {
      FrontierBound(adj, h, source, s, top.0, w, v);
    }
  }

  /** Running until the heap is empty settles everything reachable. */
  lemma {:induction false} Exhausted(adj: Adjacency, h: seq<real>, source: nat, s: Search)
    requires Searching(adj, h, source, s) && SettledRelaxed(adj, s, |adj|) && s.heap == multiset{}
    ensures forall v: nat, w :: v < |adj| && IsRoute(adj, source, w, v) ==> s.settled[v]
    ensures forall v: nat :: v < |adj| && Reached(s.g, v) ==> s.settled[v]
  {
    forall v: nat, w | v < |adj| && IsRoute(adj, source, w, v)
      ensures s.settled[v]
    {
      FrontierBound(adj, h, source, s, Seconds(w) + h[v] + 1.0, w, v);
    }
  }

  /** The run ended without popping the target. */
  lemma {:induction false} StopWhenEmpty(adj: Adjacency, h: seq<real>, source: nat, target: nat, s: Search)
    requires Searching(adj, h, source, s) && SettledRelaxed(adj, s, |adj|) && s.heap == multiset{}
    requires target < |adj| && !s.settled[target]
    ensures Concluded(adj, h, source, target, s)
  {
    Exhausted(adj, h, source, s);
  }

  /** A settled label is the fastest time. */
  lemma {:induction false} SettledIsFastest(adj: Adjacency, source: nat, s: Search, v: nat)
    requires Sized(s, |adj|) && AllDriven(adj, source, s) && SettledExact(adj, source, s) && v < |adj| && s.settled[v]
    ensures Reached(s.g, v) && IsFastest(adj, source, v, s.g[v].secs) && CanReach(adj, source, v)
  {
    assert Driven(adj, source, v, s.g[v].secs);
    assert NoRouteBelow(adj, source, v, s.g[v].secs);
  }
}
