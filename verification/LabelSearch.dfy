/** What every search over the road graph keeps, whatever guides it: labels are the times of
    real routes, parents lead back to the source in no more than the label's time, and nothing
    reached is forgotten. */
module LabelSearch {
  import opened RoadGraph
  import opened RoadRoutes

  datatype Time = Unreachable | At(secs: real)

  predicate IsSooner(x: real, t: Time)
  {
    t.Unreachable? || x < t.secs
  }

  ghost predicate Reached(g: seq<Time>, v: nat)
  {
    v < |g| && g[v].At?
  }

  /** `via[v]` is the arc the label of `v` came over, `stamp[v]` when that was; `level` is the
      key popped last. */
  datatype Search = Search(g: seq<Time>, parent: seq<int>, parentLength: seq<real>, settled: seq<bool>,
                           heap: multiset<(real, nat)>, via: seq<RoadArc>, stamp: seq<nat>, clock: nat, level: real)

  ghost predicate Sized(s: Search, n: nat)
  {
    |s.g| == |s.parent| == |s.parentLength| == |s.settled| == |s.via| == |s.stamp| == n
  }

  // ---- Labels and parents ------------------------------------------------------------------

  /** By time, then by when the label was given. */
  ghost predicate Earlier(s: Search, u: nat, v: nat)
    requires |s.stamp| == |s.g|
  {
    && Reached(s.g, u) && Reached(s.g, v)
    && (s.g[u].secs < s.g[v].secs || (s.g[u].secs == s.g[v].secs && s.stamp[u] < s.stamp[v]))
  }

  ghost function EarlierThan(s: Search, v: nat): (r: set<nat>)
    requires |s.stamp| == |s.g|
    ensures forall u: nat :: u in r <==> u < |s.g| && Earlier(s, u, v)
  {
    set u: nat | u < |s.g| && Earlier(s, u, v)
  }

  ghost function Rank(s: Search, v: nat): nat
    requires |s.stamp| == |s.g|
  {
    |EarlierThan(s, v)|
  }

  lemma EarlierRanksLower(s: Search, u: nat, v: nat)
    requires |s.stamp| == |s.g| && Earlier(s, u, v)
    ensures Rank(s, u) < Rank(s, v)
  {
    var a, b := EarlierThan(s, u), EarlierThan(s, v);
    assert u in b && u !in a;
    assert a <= b - {u};
    assert b - {u} == a + (b - {u} - a);
  }

  /** The label of `v` came from its parent, whose own label may have improved since. */
  ghost predicate ParentOf(adj: Adjacency, s: Search, v: nat)
    requires Sized(s, |adj|) && v < |adj|
  {
    && 0 <= s.parent[v] < |adj|
    && var u: nat := s.parent[v];
       && s.settled[u] && Earlier(s, u, v)
       && s.via[v] in adj[u] && s.via[v].to == v
       && s.parentLength[v] == s.via[v].lengthMeters
       && s.g[u].secs + s.via[v].travelSeconds <= s.g[v].secs
  }

  ghost predicate Parented(adj: Adjacency, source: nat, s: Search)
    requires Sized(s, |adj|)
  {
    forall v: nat {:trigger ParentOf(adj, s, v)} :: v < |adj| && v != source && Reached(s.g, v) ==> ParentOf(adj, s, v)
  }

  ghost predicate StampsPast(s: Search)
  {
    forall v: nat :: v < |s.stamp| ==> s.stamp[v] < s.clock
  }

  /** Some route takes exactly this time. */
  ghost predicate Driven(adj: Adjacency, source: nat, v: nat, secs: real)
  {
    exists w :: IsRoute(adj, source, w, v) && Seconds(w) == secs
  }

  ghost predicate AllDriven(adj: Adjacency, source: nat, s: Search)
    requires Sized(s, |adj|)
  {
    forall v: nat :: v < |adj| && Reached(s.g, v) ==> Driven(adj, source, v, s.g[v].secs)
  }

  /** Reached unsettled nodes are queued at g + h. */
  ghost predicate NodesQueued(h: seq<real>, s: Search)
    requires Sized(s, |h|)
  {
    forall v: nat :: v < |h| && Reached(s.g, v) && !s.settled[v] ==> (s.g[v].secs + h[v], v) in s.heap
  }

  ghost predicate EntriesReached(s: Search)
  {
    forall en :: en in s.heap ==> Reached(s.g, en.1)
  }

  ghost predicate SettledReached(s: Search)
    requires |s.settled| == |s.g|
  {
    forall v: nat :: v < |s.g| && s.settled[v] ==> Reached(s.g, v)
  }

  ghost predicate Labelled(adj: Adjacency, h: seq<real>, source: nat, s: Search)
  {
    && IsNetwork(adj) && |h| == |adj| && source < |adj|
    && Sized(s, |adj|)
    && s.g[source] == At(0.0)
    && s.parent[source] == -1
    && Parented(adj, source, s) && StampsPast(s)
    && AllDriven(adj, source, s)
    && NodesQueued(h, s) && EntriesReached(s) && SettledReached(s)
  }

  /** Whatever an arc out of a settled node other than `u` leads to is reached. */
  ghost predicate HeadsReached(adj: Adjacency, s: Search, u: nat)
    requires Sized(s, |adj|)
  {
    forall x: nat, r: RoadArc :: x < |adj| && s.settled[x] && x != u && r in adj[x] ==> Reached(s.g, r.to)
  }

  ghost predicate FirstHeadsReached(s: Search, arcs: seq<RoadArc>, i: nat)
    requires i <= |arcs|
  {
    forall j :: 0 <= j < i ==> Reached(s.g, arcs[j].to)
  }

  /** Before the first pop: the source is labelled and queued, nothing is settled. */
  ghost predicate IsStart(h: seq<real>, source: nat, s: Search)
  {
    && source < |h| && Sized(s, |h|)
    && s.g == seq(|h|, _ => Unreachable)[source := At(0.0)]
    && s.settled == seq(|h|, _ => false) && s.parent == seq(|h|, _ => -1)
    && s.heap == multiset{(h[source], source)} && s.level == h[source]
    && s.stamp == seq(|h|, _ => 0) && s.clock == 1
  }

  lemma StartLabelled(adj: Adjacency, h: seq<real>, source: nat, s: Search)
    requires IsNetwork(adj) && |h| == |adj| && IsStart(h, source, s)
    ensures Labelled(adj, h, source, s) && HeadsReached(adj, s, |adj|)
  {
    assert forall v: nat :: v < |adj| && v != source ==> s.g[v] == Unreachable;
    assert forall v: nat :: v < |adj| ==> !s.settled[v];
    assert forall en :: en in s.heap ==> en == (h[source], source);
    var nothing: Route := [];
    assert IsRoute(adj, source, nothing, source) && Seconds(nothing) == 0.0;
  }

  // ---- Following the parents ------------------------------------------------------------------

  /** The route the parents of `v` describe. */
  ghost function RouteTo(adj: Adjacency, source: nat, s: Search, v: nat): Route
    requires Sized(s, |adj|) && Parented(adj, source, s) && Reached(s.g, v)
    decreases Rank(s, v)
  {
    if v == source then
      []
    else
      assert ParentOf(adj, s, v);
      EarlierRanksLower(s, s.parent[v], v);
      RouteTo(adj, source, s, s.parent[v]) + [Leg(s.parent[v], s.via[v])]
  }

  /** It is a real route, and takes no longer than the label says. */
  lemma {:induction false} RouteToIsRoute(adj: Adjacency, source: nat, s: Search, v: nat)
    requires Sized(s, |adj|) && Parented(adj, source, s) && Reached(s.g, v)
    requires source < |adj| && s.g[source] == At(0.0)
    ensures IsRoute(adj, source, RouteTo(adj, source, s, v), v)
    ensures Seconds(RouteTo(adj, source, s, v)) <= s.g[v].secs
    decreases Rank(s, v)
  {
    if v != source {
      assert ParentOf(adj, s, v);
      var u: nat := s.parent[v];
      EarlierRanksLower(s, u, v);
      RouteToIsRoute(adj, source, s, u);
      Append(adj, source, RouteTo(adj, source, s, u), u, s.via[v]);
    }
  }

  lemma {:induction false} RouteTimeNonNegative(adj: Adjacency, s: nat, w: Route, t: nat)
    requires IsNetwork(adj) && IsRoute(adj, s, w, t)
    ensures 0.0 <= Seconds(w)
  {
    if w != [] {
      var l := w[|w| - 1];
      assert l.arc in adj[l.from];
      RouteTimeNonNegative(adj, s, w[..|w| - 1], l.from);
    }
  }

  // ---- Relaxing an arc ----------------------------------------------------------------------------

  /** The state after an improving relaxation of `r` out of `u`. */
  ghost function Relaxing(h: seq<real>, s: Search, u: nat, r: RoadArc): Search
    requires Sized(s, |h|) && u < |h| && r.to < |h| && Reached(s.g, u)
  {
    var x := s.g[u].secs + r.travelSeconds;
    s.(g := s.g[r.to := At(x)], parent := s.parent[r.to := u], parentLength := s.parentLength[r.to := r.lengthMeters],
       heap := s.heap + multiset{(x + h[r.to], r.to)}, via := s.via[r.to := r],
       stamp := s.stamp[r.to := s.clock], clock := s.clock + 1)
  }

  ghost predicate CanLabel(adj: Adjacency, h: seq<real>, source: nat, s: Search, u: nat, r: RoadArc)
  {
    && Labelled(adj, h, source, s)
    && u < |adj| && s.settled[u] && Reached(s.g, u) && r in adj[u] && r.to < |adj|
    && IsSooner(s.g[u].secs + r.travelSeconds, s.g[r.to])
  }

  /** Neither the source nor the node itself is ever improved. */
  lemma {:induction false} NewHead(adj: Adjacency, h: seq<real>, source: nat, s: Search, u: nat, r: RoadArc)
    requires CanLabel(adj, h, source, s, u, r)
    ensures r.to != source && r.to != u && 0.0 <= r.travelSeconds
    ensures Driven(adj, source, r.to, s.g[u].secs + r.travelSeconds)
  {
    hide Parented, NodesQueued, EntriesReached, SettledReached, StampsPast;
    assert Driven(adj, source, u, s.g[u].secs);
    var w :| IsRoute(adj, source, w, u) && Seconds(w) == s.g[u].secs;
    RouteTimeNonNegative(adj, source, w, u);
    Append(adj, source, w, u, r);
  }

  lemma {:induction false} RelaxParented(adj: Adjacency, h: seq<real>, source: nat, s: Search, u: nat, r: RoadArc)
    requires |h| == |adj| && Sized(s, |adj|) && u < |adj| && r.to < |adj| && Reached(s.g, u)
    requires Parented(adj, source, s) && StampsPast(s)
    requires s.settled[u] && r in adj[u] && r.to != u && r.to != source && 0.0 <= r.travelSeconds
    requires IsSooner(s.g[u].secs + r.travelSeconds, s.g[r.to])
    ensures Parented(adj, source, Relaxing(h, s, u, r)) && StampsPast(Relaxing(h, s, u, r))
  {
    var t := Relaxing(h, s, u, r);
    forall y: nat | y < |adj| && y != source && Reached(t.g, y)
      ensures ParentOf(adj, t, y)
    {
      if y != r.to {
        assert Reached(s.g, y);
        assert ParentOf(adj, s, y);
      }
    }
  }

  lemma {:induction false} RelaxQueued(h: seq<real>, s: Search, u: nat, r: RoadArc)
    requires Sized(s, |h|) && u < |h| && r.to < |h| && Reached(s.g, u)
    requires NodesQueued(h, s) && EntriesReached(s) && SettledReached(s)
    ensures NodesQueued(h, Relaxing(h, s, u, r)) && EntriesReached(Relaxing(h, s, u, r)) && SettledReached(Relaxing(h, s, u, r))
  {
    var t := Relaxing(h, s, u, r);
    forall y: nat | y < |h| && Reached(t.g, y) && !t.settled[y]
      ensures (t.g[y].secs + h[y], y) in t.heap
    {
      if y != r.to {
        assert Reached(s.g, y);
      }
    }
    forall en | en in t.heap ensures Reached(t.g, en.1) {
      if en in s.heap {
        assert Reached(s.g, en.1);
      }
    }
  }

  lemma {:induction false} RelaxDriven(adj: Adjacency, h: seq<real>, source: nat, s: Search, u: nat, r: RoadArc)
    requires |h| == |adj| && Sized(s, |adj|) && u < |adj| && r.to < |adj| && Reached(s.g, u) && AllDriven(adj, source, s)
    requires Driven(adj, source, r.to, s.g[u].secs + r.travelSeconds)
    ensures AllDriven(adj, source, Relaxing(h, s, u, r))
  {
    hide Driven;
    var t := Relaxing(h, s, u, r);
    forall v: nat | v < |adj| && Reached(t.g, v) ensures Driven(adj, source, v, t.g[v].secs) {
      if v != r.to {
        assert Reached(s.g, v);
      }
    }
  }

  lemma {:induction false} RelaxLabelled(adj: Adjacency, h: seq<real>, source: nat, s: Search, u: nat, r: RoadArc)
    requires CanLabel(adj, h, source, s, u, r)
    ensures r.to != source && r.to != u
    ensures Sized(Relaxing(h, s, u, r), |adj|) && Labelled(adj, h, source, Relaxing(h, s, u, r))
  {
    hide NodesQueued, EntriesReached, SettledReached, Parented, StampsPast, AllDriven, Driven;
    NewHead(adj, h, source, s, u, r);
    RelaxParented(adj, h, source, s, u, r);
    RelaxQueued(h, s, u, r);
    RelaxDriven(adj, h, source, s, u, r);
  }

  /** What is reached stays reached. */
  lemma {:induction false} HeadsAfter(adj: Adjacency, h: seq<real>, s: Search, u: nat, i: nat)
    requires |h| == |adj| && Sized(s, |adj|) && u < |adj| && Reached(s.g, u) && i < |adj[u]| && adj[u][i].to < |adj|
    requires HeadsReached(adj, s, u) && FirstHeadsReached(s, adj[u], i)
    ensures HeadsReached(adj, Relaxing(h, s, u, adj[u][i]), u)
    ensures FirstHeadsReached(Relaxing(h, s, u, adj[u][i]), adj[u], i + 1)
  {
    var t := Relaxing(h, s, u, adj[u][i]);
    forall x: nat, q: RoadArc | x < |adj| && t.settled[x] && x != u && q in adj[x] ensures Reached(t.g, q.to) {
      assert Reached(s.g, q.to);
    }
    forall j | 0 <= j < i + 1 ensures Reached(t.g, adj[u][j].to) {
      if j < i {
        assert Reached(s.g, adj[u][j].to);
      }
    }
  }

  lemma HeadsSkip(s: Search, arcs: seq<RoadArc>, i: nat, x: real)
    requires i < |arcs| && FirstHeadsReached(s, arcs, i) && arcs[i].to < |s.g| && !IsSooner(x, s.g[arcs[i].to])
    ensures FirstHeadsReached(s, arcs, i + 1)
  {
  }

  lemma HeadsDone(adj: Adjacency, s: Search, u: nat)
    requires Sized(s, |adj|) && u < |adj|
    requires HeadsReached(adj, s, u) && FirstHeadsReached(s, adj[u], |adj[u]|)
    ensures HeadsReached(adj, s, |adj|)
  {
    forall x: nat, r: RoadArc | x < |adj| && s.settled[x] && r in adj[x] ensures Reached(s.g, r.to) {
      if x == u {
        var j :| 0 <= j < |adj[u]| && adj[u][j] == r;
      }
    }
  }

  lemma ArcInRange(adj: Adjacency, u: nat, i: nat)
    requires IsNetwork(adj) && u < |adj| && i < |adj[u]|
    ensures adj[u][i].to < |adj| && adj[u][i] in adj[u]
  {
  }

  // ---- Popping an entry ------------------------------------------------------------------------------

  ghost function Popped(s: Search, n: nat, top: (real, nat)): Search
    requires Sized(s, n) && top.1 < n
  {
    if s.settled[top.1] then
      s.(heap := s.heap - multiset{top})
    else
      s.(settled := s.settled[top.1 := true], heap := s.heap - multiset{top}, level := top.0)
  }

  ghost predicate IsTop(s: Search, top: (real, nat))
  {
    top in s.heap && forall en :: en in s.heap ==> top.0 <= en.0
  }

  lemma {:induction false} PopQueue(h: seq<real>, s: Search, top: (real, nat))
    requires Sized(s, |h|) && NodesQueued(h, s) && EntriesReached(s) && SettledReached(s) && top in s.heap
    ensures top.1 < |h| && Reached(s.g, top.1)
    ensures var t := Popped(s, |h|, top); NodesQueued(h, t) && EntriesReached(t) && SettledReached(t)
  {
    assert Reached(s.g, top.1);
    var t := Popped(s, |h|, top);
    forall v: nat | v < |h| && Reached(t.g, v) && !t.settled[v] ensures (t.g[v].secs + h[v], v) in t.heap {
      assert (s.g[v].secs + h[v], v) in s.heap;
      assert v != top.1;
    }
    forall en | en in t.heap ensures Reached(t.g, en.1) {
      assert en in s.heap;
    }
  }

  lemma {:induction false} PopParented(adj: Adjacency, source: nat, s: Search, top: (real, nat))
    requires Sized(s, |adj|) && Parented(adj, source, s) && top.1 < |adj|
    ensures Parented(adj, source, Popped(s, |adj|, top))
  {
    var t := Popped(s, |adj|, top);
    forall y: nat | y < |adj| && y != source && Reached(t.g, y) ensures ParentOf(adj, t, y) {
      assert ParentOf(adj, s, y);
    }
  }

  lemma {:induction false} PopLabelled(adj: Adjacency, h: seq<real>, source: nat, s: Search, top: (real, nat))
    requires Labelled(adj, h, source, s) && top in s.heap
    ensures top.1 < |adj| && Reached(s.g, top.1) && Sized(Popped(s, |adj|, top), |adj|)
    ensures Labelled(adj, h, source, Popped(s, |adj|, top))
  {
    hide NodesQueued, EntriesReached, SettledReached, Parented, AllDriven, IsNetwork;
    PopQueue(h, s, top);
    PopParented(adj, source, s, top);
    PopDriven(adj, source, s, top);
  }

  lemma PopDriven(adj: Adjacency, source: nat, s: Search, top: (real, nat))
    requires Sized(s, |adj|) && AllDriven(adj, source, s) && top.1 < |adj|
    ensures AllDriven(adj, source, Popped(s, |adj|, top))
  {
    hide Driven;
  }

  lemma PopHeads(adj: Adjacency, s: Search, top: (real, nat))
    requires Sized(s, |adj|) && HeadsReached(adj, s, |adj|) && top.1 < |adj|
    ensures HeadsReached(adj, Popped(s, |adj|, top), if s.settled[top.1] then |adj| else top.1)
  {
    var t := Popped(s, |adj|, top);
    forall x: nat, r: RoadArc | x < |adj| && s.settled[x] && r in adj[x] ensures Reached(t.g, r.to) {
      assert Reached(s.g, r.to);
    }
  }

  // ---- When nothing is queued -------------------------------------------------------------------------

  /** Once the heap is empty, everything reachable is settled. */
  lemma {:induction false} NothingLeft(adj: Adjacency, h: seq<real>, source: nat, s: Search, w: Route, v: nat)
    requires Labelled(adj, h, source, s) && HeadsReached(adj, s, |adj|) && s.heap == multiset{}
    requires IsRoute(adj, source, w, v)
    ensures v < |adj| && Reached(s.g, v) && s.settled[v]
  {
    if w != [] {
      var l := w[|w| - 1];
      NothingLeft(adj, h, source, s, w[..|w| - 1], l.from);
      assert Reached(s.g, l.arc.to);
    }
  }

  // ---- Whole runs -----------------------------------------------------------------------------------------

  /** The first `i` of these arcs relaxed out of `u`, each where it improves. */
  ghost function ScanFrom(h: seq<real>, s: Search, u: nat, arcs: seq<RoadArc>, i: nat): (r: Search)
    requires Sized(s, |h|) && u < |h| && Reached(s.g, u) && i <= |arcs|
    requires forall j :: 0 <= j < |arcs| ==> arcs[j].to < |h|
    ensures Sized(r, |h|) && Reached(r.g, u)
  {
    if i == 0 then s
    else
      var t := ScanFrom(h, s, u, arcs, i - 1);
      if IsSooner(t.g[u].secs + arcs[i - 1].travelSeconds, t.g[arcs[i - 1].to]) then Relaxing(h, t, u, arcs[i - 1]) else t
  }

  ghost predicate CanPop(adj: Adjacency, h: seq<real>, s: Search, top: (real, nat))
  {
    && |adj| == |h| && HeadsInRange(adj) && Sized(s, |h|)
    && top.1 < |h| && Reached(s.g, top.1) && IsTop(s, top)
  }

  /** One turn of the loop: a stale entry is dropped, the target ends the search, any other
      node is settled and its arcs are relaxed. */
  ghost function AfterPop(adj: Adjacency, h: seq<real>, target: nat, s: Search, top: (real, nat)): Search
    requires CanPop(adj, h, s, top)
  {
    var t := Popped(s, |h|, top);
    if s.settled[top.1] || top.1 == target then t
    else
      assert forall j :: 0 <= j < |adj[top.1]| ==> adj[top.1][j] in adj[top.1];
      ScanFrom(h, t, top.1, adj[top.1], |adj[top.1]|)
  }

  datatype Run = Run(states: seq<Search>, pops: seq<(real, nat)>)

  /** From the start, turn by turn, never past the settled target. */
  ghost predicate IsPartialRun(adj: Adjacency, h: seq<real>, source: nat, target: nat, run: Run)
  {
    && |run.states| == |run.pops| + 1 && target < |h|
    && IsStart(h, source, run.states[0])
    && forall k :: 0 <= k < |run.pops| ==>
         && CanPop(adj, h, run.states[k], run.pops[k]) && !run.states[k].settled[target]
         && run.states[k + 1] == AfterPop(adj, h, target, run.states[k], run.pops[k])
  }

  /** A run that has ended, with this time for the target. */
  ghost predicate IsEndedRun(adj: Adjacency, h: seq<real>, source: nat, target: nat, run: Run, time: Time)
  {
    && IsPartialRun(adj, h, source, target, run)
    && var last := run.states[|run.pops|];
       Sized(last, |h|) && last.g[target] == time && (last.settled[target] || last.heap == multiset{})
  }

  lemma RunStarts(adj: Adjacency, h: seq<real>, source: nat, target: nat, s: Search)
    requires IsStart(h, source, s) && target < |h|
    ensures IsPartialRun(adj, h, source, target, Run([s], []))
  {
  }

  lemma RunGoesOn(adj: Adjacency, h: seq<real>, source: nat, target: nat, run: Run, s: Search, top: (real, nat), t: Search)
    requires IsPartialRun(adj, h, source, target, run) && run.states[|run.pops|] == s
    requires CanPop(adj, h, s, top) && !s.settled[target] && t == AfterPop(adj, h, target, s, top)
    ensures IsPartialRun(adj, h, source, target, Run(run.states + [t], run.pops + [top]))
  {
    hide AfterPop, IsStart, IsTop, HeadsInRange;
    var more := Run(run.states + [t], run.pops + [top]);
    forall k | 0 <= k < |more.pops|
      ensures CanPop(adj, h, more.states[k], more.pops[k]) && !more.states[k].settled[target]
              && more.states[k + 1] == AfterPop(adj, h, target, more.states[k], more.pops[k])
    {
      if k < |run.pops| {
        assert CanPop(adj, h, run.states[k], run.pops[k]);
      }
    }
  }
}
