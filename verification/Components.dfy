/** Strongly connected components by two iterative depth-first passes: the first orders
    the nodes by finishing time, the second grows one tree per component over the reversed
    arcs, latest finisher first. */
module Components {
  import opened Basics
  import opened RoadGraph
  import opened RoadRoutes

  // ---- Pass 1: finishing order -------------------------------------------------------------

  /** `order` lists the finished nodes.  Ghost bookkeeping: `start[v]` is how many nodes had
      finished when v was discovered, `pos` inverts `order`, `slot` inverts `stack`. */
  datatype Dfs = Dfs(visited: seq<bool>, order: seq<nat>, stack: seq<(nat, nat)>,
                     start: seq<nat>, pos: seq<int>, slot: seq<int>)

  ghost predicate Sized(s: Dfs, n: nat)
  {
    && |s.visited| == |s.start| == |s.pos| == |s.slot| == n
    && (forall i :: 0 <= i < |s.order| ==> s.order[i] < n)
    && (forall k :: 0 <= k < |s.stack| ==> s.stack[k].0 < n)
  }

  /** Every visited node is either finished (listed once) or on the stack (once). */
  ghost predicate Booked(s: Dfs, n: nat)
    requires Sized(s, n)
  {
    && (forall i :: 0 <= i < |s.order| ==> s.pos[s.order[i]] == i && s.visited[s.order[i]])
    && (forall k :: 0 <= k < |s.stack| ==> s.slot[s.stack[k].0] == k && s.visited[s.stack[k].0] && s.pos[s.stack[k].0] == -1)
    && (forall v: nat :: v < n && s.visited[v] ==>
          if s.pos[v] == -1 then 0 <= s.slot[v] < |s.stack| && s.stack[s.slot[v]].0 == v
          else 0 <= s.pos[v] < |s.order| && s.order[s.pos[v]] == v)
  }

  /** Nodes are discovered before they finish, and deeper stack entries not later. */
  ghost predicate Started(s: Dfs, n: nat)
    requires Sized(s, n)
  {
    && (forall i :: 0 <= i < |s.order| ==> s.start[s.order[i]] <= i)
    && (forall k :: 0 <= k < |s.stack| ==> s.start[s.stack[k].0] <= |s.order|)
    && (forall k, l :: 0 <= k <= l < |s.stack| ==> s.start[s.stack[k].0] <= s.start[s.stack[l].0])
  }

  /** When a node finishes, all its successors have been discovered. */
  ghost predicate Explored(adj: Adjacency, s: Dfs)
    requires Sized(s, |adj|)
  {
    && (forall i, j :: 0 <= i < |s.order| && 0 <= j < |adj[s.order[i]]| ==>
          var w := adj[s.order[i]][j].to; w < |adj| && s.visited[w] && s.start[w] <= i)
    && (forall k :: 0 <= k < |s.stack| ==> s.stack[k].1 <= |adj[s.stack[k].0]|)
    && (forall k, j :: 0 <= k < |s.stack| && 0 <= j < s.stack[k].1 && j < |adj[s.stack[k].0]| ==>
          var w := adj[s.stack[k].0][j].to; w < |adj| && s.visited[w] && s.start[w] <= |s.order|)
  }

  /** What finished within the lifetime of a node also started within it. */
  ghost predicate Nested(s: Dfs, n: nat)
    requires Sized(s, n)
  {
    && (forall i, j :: 0 <= i <= j < |s.order| && s.start[s.order[j]] <= i ==> s.start[s.order[j]] <= s.start[s.order[i]])
    && (forall i, k :: 0 <= i < |s.order| && 0 <= k < |s.stack| && s.start[s.stack[k].0] <= i ==>
          s.start[s.stack[k].0] <= s.start[s.order[i]])
  }

  /** ... and is reachable from it. */
  ghost predicate Reaching(adj: Adjacency, s: Dfs)
    requires Sized(s, |adj|)
  {
    && (forall i, j :: 0 <= i <= j < |s.order| && s.start[s.order[j]] <= i ==> CanReach(adj, s.order[j], s.order[i]))
    && (forall i, k :: 0 <= i < |s.order| && 0 <= k < |s.stack| && s.start[s.stack[k].0] <= i ==>
          CanReach(adj, s.stack[k].0, s.order[i]))
    && (forall k, l :: 0 <= k <= l < |s.stack| ==> CanReach(adj, s.stack[k].0, s.stack[l].0))
  }

  ghost predicate Ordering(adj: Adjacency, s: Dfs)
  {
    && Sized(s, |adj|)
    && Booked(s, |adj|)
    && Started(s, |adj|)
    && Explored(adj, s)
    && Nested(s, |adj|)
    && Reaching(adj, s)
  }

  /** Discovering `w`. */
  ghost function Discovered(s: Dfs, n: nat, w: nat): Dfs
    requires Sized(s, n) && w < n
  {
    s.(visited := s.visited[w := true], stack := s.stack + [(w, 0)], start := s.start[w := |s.order|],
       pos := s.pos[w := -1], slot := s.slot[w := |s.stack|])
  }

  /** Moving the top's arc cursor on. */
  ghost function Advanced(s: Dfs): Dfs
    requires s.stack != []
  {
    var (v, idx) := s.stack[|s.stack| - 1];
    s.(stack := s.stack[|s.stack| - 1 := (v, idx + 1)])
  }

  /** Finishing the top. */
  ghost function Finished(s: Dfs, n: nat): Dfs
    requires Sized(s, n) && s.stack != []
  {
    var v := s.stack[|s.stack| - 1].0;
    s.(order := s.order + [v], stack := s.stack[..|s.stack| - 1], pos := s.pos[v := |s.order|])
  }

  lemma ReachRefl(adj: Adjacency, v: nat)
    ensures CanReach(adj, v, v)
  {
    assert IsRoute(adj, v, [], v);
  }

  lemma ReachTrans(adj: Adjacency, a: nat, b: nat, c: nat)
    requires CanReach(adj, a, b) && CanReach(adj, b, c)
    ensures CanReach(adj, a, c)
  {
    var x :| IsRoute(adj, a, x, b);
    var y :| IsRoute(adj, b, y, c);
    RouteConcat(adj, a, x, b, y, c);
  }

  lemma ReachArc(adj: Adjacency, v: nat, r: RoadArc)
    requires v < |adj| && r in adj[v]
    ensures CanReach(adj, v, r.to)
  {
    var none: Route := [];
    assert IsRoute(adj, v, none, v);
    Append(adj, v, none, v, r);
  }

  lemma DiscoverBooked(s: Dfs, n: nat, w: nat)
    requires Sized(s, n) && Booked(s, n) && w < n && !s.visited[w]
    ensures Sized(Discovered(s, n, w), n) && Booked(Discovered(s, n, w), n)
  {
  }

  lemma DiscoverStarted(s: Dfs, n: nat, w: nat)
    requires Sized(s, n) && Booked(s, n) && Started(s, n) && w < n && !s.visited[w]
    requires Sized(Discovered(s, n, w), n)
    ensures Started(Discovered(s, n, w), n)
  {
  }

  lemma DiscoverExplored(adj: Adjacency, s: Dfs, w: nat)
    requires Sized(s, |adj|) && Booked(s, |adj|) && Explored(adj, s) && w < |adj| && !s.visited[w]
    requires Sized(Discovered(s, |adj|, w), |adj|)
    ensures Explored(adj, Discovered(s, |adj|, w))
  {
  }

  lemma DiscoverNested(s: Dfs, n: nat, w: nat)
    requires Sized(s, n) && Booked(s, n) && Nested(s, n) && w < n && !s.visited[w]
    requires Sized(Discovered(s, n, w), n)
    ensures Nested(Discovered(s, n, w), n)
  {
  }

  lemma DiscoverReaching(adj: Adjacency, s: Dfs, w: nat)
    requires Sized(s, |adj|) && Booked(s, |adj|) && Reaching(adj, s) && w < |adj| && !s.visited[w]
    requires s.stack != [] ==> CanReach(adj, s.stack[|s.stack| - 1].0, w)
    requires Sized(Discovered(s, |adj|, w), |adj|)
    ensures Reaching(adj, Discovered(s, |adj|, w))
  {
    var t := Discovered(s, |adj|, w);
    forall k, l | 0 <= k <= l < |t.stack|
      ensures CanReach(adj, t.stack[k].0, t.stack[l].0)
    {
      if l == |s.stack| {
        if k == l {
          ReachRefl(adj, w);
        } else {
          ReachTrans(adj, s.stack[k].0, s.stack[|s.stack| - 1].0, w);
        }
      }
    }
  }

  lemma Discover(adj: Adjacency, s: Dfs, w: nat)
    requires Ordering(adj, s) && w < |adj| && !s.visited[w]
    requires s.stack != [] ==> CanReach(adj, s.stack[|s.stack| - 1].0, w)
    ensures Ordering(adj, Discovered(s, |adj|, w))
  {
    hide Booked, Started, Explored, Nested, Reaching, CanReach;
    DiscoverBooked(s, |adj|, w);
    DiscoverStarted(s, |adj|, w);
    DiscoverExplored(adj, s, w);
    DiscoverNested(s, |adj|, w);
    DiscoverReaching(adj, s, w);
  }

  lemma AdvanceBooked(s: Dfs, n: nat)
    requires Sized(s, n) && s.stack != [] && Booked(s, n)
    ensures Sized(Advanced(s), n) && Booked(Advanced(s), n)
  {
    assert forall k :: 0 <= k < |s.stack| ==> Advanced(s).stack[k].0 == s.stack[k].0;
  }

  lemma AdvanceStarted(s: Dfs, n: nat)
    requires Sized(s, n) && s.stack != [] && Started(s, n) && Sized(Advanced(s), n)
    ensures Started(Advanced(s), n)
  {
    assert forall k :: 0 <= k < |s.stack| ==> Advanced(s).stack[k].0 == s.stack[k].0;
  }

  lemma AdvanceNested(s: Dfs, n: nat)
    requires Sized(s, n) && s.stack != [] && Nested(s, n) && Sized(Advanced(s), n)
    ensures Nested(Advanced(s), n)
  {
    assert forall k :: 0 <= k < |s.stack| ==> Advanced(s).stack[k].0 == s.stack[k].0;
  }

  lemma AdvanceReaching(adj: Adjacency, s: Dfs)
    requires Sized(s, |adj|) && s.stack != [] && Reaching(adj, s) && Sized(Advanced(s), |adj|)
    ensures Reaching(adj, Advanced(s))
  {
    hide CanReach;
    assert forall k :: 0 <= k < |s.stack| ==> Advanced(s).stack[k].0 == s.stack[k].0;
  }

  lemma AdvanceExplored(adj: Adjacency, s: Dfs)
    requires Sized(s, |adj|) && s.stack != [] && Explored(adj, s) && Sized(Advanced(s), |adj|)
    requires var (v, idx) := s.stack[|s.stack| - 1];
             idx < |adj[v]| && adj[v][idx].to < |adj| && s.visited[adj[v][idx].to] && s.start[adj[v][idx].to] <= |s.order|
    ensures Explored(adj, Advanced(s))
  {
  }

  lemma VisitedStart(s: Dfs, n: nat, w: nat)
    requires Sized(s, n) && Booked(s, n) && Started(s, n) && w < n && s.visited[w]
    ensures s.start[w] <= |s.order|
  {
  }

  /** Looking at an arc whose head is known already. */
  lemma Advance(adj: Adjacency, s: Dfs)
    requires Ordering(adj, s) && s.stack != []
    requires var (v, idx) := s.stack[|s.stack| - 1];
             idx < |adj[v]| && adj[v][idx].to < |adj| && s.visited[adj[v][idx].to]
    ensures Ordering(adj, Advanced(s))
  {
    hide Booked, Started, Explored, Nested, Reaching, CanReach;
    var (v, idx) := s.stack[|s.stack| - 1];
    VisitedStart(s, |adj|, adj[v][idx].to);
    AdvanceBooked(s, |adj|);
    AdvanceStarted(s, |adj|);
    AdvanceExplored(adj, s);
    AdvanceNested(s, |adj|);
    AdvanceReaching(adj, s);
  }

  lemma StepExplored(adj: Adjacency, s: Dfs, w: nat)
    requires Sized(s, |adj|) && s.stack != [] && Booked(s, |adj|) && Explored(adj, s) && w < |adj| && !s.visited[w]
    requires var (v, idx) := s.stack[|s.stack| - 1]; idx < |adj[v]| && adj[v][idx].to == w
    requires Sized(Advanced(s), |adj|) && Sized(Discovered(Advanced(s), |adj|, w), |adj|)
    ensures Explored(adj, Discovered(Advanced(s), |adj|, w))
  {
    var t := Discovered(Advanced(s), |adj|, w);
    StepKeepsFinished(adj, s, w);
    StepKeepsOpen(adj, s, w);
    hide Booked;
  }

  lemma StepKeepsFinished(adj: Adjacency, s: Dfs, w: nat)
    requires Sized(s, |adj|) && s.stack != [] && Explored(adj, s) && w < |adj| && !s.visited[w]
    requires Sized(Advanced(s), |adj|) && Sized(Discovered(Advanced(s), |adj|, w), |adj|)
    ensures var t := Discovered(Advanced(s), |adj|, w);
            forall i, j :: 0 <= i < |t.order| && 0 <= j < |adj[t.order[i]]| ==>
              var x := adj[t.order[i]][j].to; x < |adj| && t.visited[x] && t.start[x] <= i
  {
    var t := Discovered(Advanced(s), |adj|, w);
    forall i, j | 0 <= i < |t.order| && 0 <= j < |adj[t.order[i]]|
      ensures var x := adj[t.order[i]][j].to; x < |adj| && t.visited[x] && t.start[x] <= i
    {
      assert t.order == s.order;
      assert adj[s.order[i]][j].to != w;
    }
  }

  lemma StepKeepsOpen(adj: Adjacency, s: Dfs, w: nat)
    requires Sized(s, |adj|) && s.stack != [] && Explored(adj, s) && w < |adj| && !s.visited[w]
    requires var (v, idx) := s.stack[|s.stack| - 1]; idx < |adj[v]| && adj[v][idx].to == w
    requires Sized(Advanced(s), |adj|) && Sized(Discovered(Advanced(s), |adj|, w), |adj|)
    ensures var t := Discovered(Advanced(s), |adj|, w);
            forall k, j :: 0 <= k < |t.stack| && 0 <= j < t.stack[k].1 && j < |adj[t.stack[k].0]| ==>
              var x := adj[t.stack[k].0][j].to; x < |adj| && t.visited[x] && t.start[x] <= |t.order|
  {
    var (v, idx) := s.stack[|s.stack| - 1];
    var t := Discovered(Advanced(s), |adj|, w);
    forall k, j | 0 <= k < |t.stack| && 0 <= j < t.stack[k].1 && j < |adj[t.stack[k].0]|
      ensures var x := adj[t.stack[k].0][j].to; x < |adj| && t.visited[x] && t.start[x] <= |t.order|
    {
      assert k < |s.stack| && t.stack[k].0 == s.stack[k].0;
      if k != |s.stack| - 1 || j != idx {
        assert j < s.stack[k].1;
      }
    }
  }

  /** Following an arc to a new node: the cursor moves on and the head is pushed. */
  lemma StepInto(adj: Adjacency, s: Dfs, w: nat)
    requires Ordering(adj, s) && s.stack != [] && w < |adj| && !s.visited[w]
    requires var (v, idx) := s.stack[|s.stack| - 1];
             idx < |adj[v]| && adj[v][idx].to == w && CanReach(adj, v, w)
    ensures Sized(Advanced(s), |adj|) && Ordering(adj, Discovered(Advanced(s), |adj|, w))
  {
    hide Booked, Started, Explored, Nested, Reaching, CanReach;
    AdvanceBooked(s, |adj|);
    AdvanceStarted(s, |adj|);
    AdvanceNested(s, |adj|);
    AdvanceReaching(adj, s);
    var a := Advanced(s);
    DiscoverBooked(a, |adj|, w);
    DiscoverStarted(a, |adj|, w);
    DiscoverNested(a, |adj|, w);
    DiscoverReaching(adj, a, w);
    StepExplored(adj, s, w);
  }

  lemma FinishBooked(s: Dfs, n: nat)
    requires Sized(s, n) && Booked(s, n) && s.stack != []
    ensures Sized(Finished(s, n), n) && Booked(Finished(s, n), n)
  {
    var v := s.stack[|s.stack| - 1].0;
    assert s.pos[v] == -1 && s.visited[v];
  }

  lemma FinishStarted(s: Dfs, n: nat)
    requires Sized(s, n) && Started(s, n) && s.stack != [] && Sized(Finished(s, n), n)
    ensures Started(Finished(s, n), n)
  {
  }

  lemma FinishExplored(adj: Adjacency, s: Dfs)
    requires Sized(s, |adj|) && Explored(adj, s) && s.stack != [] && Sized(Finished(s, |adj|), |adj|)
    requires var (v, idx) := s.stack[|s.stack| - 1]; idx >= |adj[v]|
    ensures Explored(adj, Finished(s, |adj|))
  {
    var (v, idx) := s.stack[|s.stack| - 1];
    assert idx == |adj[v]|;
  }

  lemma FinishNested(s: Dfs, n: nat)
    requires Sized(s, n) && Booked(s, n) && Started(s, n) && Nested(s, n) && s.stack != [] && Sized(Finished(s, n), n)
    ensures Nested(Finished(s, n), n)
  {
    var t := Finished(s, n);
    var v := s.stack[|s.stack| - 1].0;
    forall i, j | 0 <= i <= j < |t.order| && t.start[t.order[j]] <= i
      ensures t.start[t.order[j]] <= t.start[t.order[i]]
    {
      if j == |s.order| {
        assert t.order[j] == v;
      }
    }
  }

  lemma FinishReaching(adj: Adjacency, s: Dfs)
    requires Sized(s, |adj|) && Booked(s, |adj|) && Reaching(adj, s) && s.stack != [] && Sized(Finished(s, |adj|), |adj|)
    ensures Reaching(adj, Finished(s, |adj|))
  {
    hide CanReach;
    var t := Finished(s, |adj|);
    var v := s.stack[|s.stack| - 1].0;
    forall i, j | 0 <= i <= j < |t.order| && t.start[t.order[j]] <= i
      ensures CanReach(adj, t.order[j], t.order[i])
    {
      if j == |s.order| {
        assert t.order[j] == v;
        if i == j {
          ReachRefl(adj, v);
        }
      }
    }
    forall i, k | 0 <= i < |t.order| && 0 <= k < |t.stack| && t.start[t.stack[k].0] <= i
      ensures CanReach(adj, t.stack[k].0, t.order[i])
    {
      if i == |s.order| {
        assert t.order[i] == v && t.stack[k] == s.stack[k];
      }
    }
  }

  lemma Finish(adj: Adjacency, s: Dfs)
    requires Ordering(adj, s) && s.stack != []
    requires var (v, idx) := s.stack[|s.stack| - 1]; idx >= |adj[v]|
    ensures Ordering(adj, Finished(s, |adj|))
  {
    hide Booked, Started, Explored, Nested, Reaching, CanReach;
    FinishBooked(s, |adj|);
    FinishStarted(s, |adj|);
    FinishExplored(adj, s);
    FinishNested(s, |adj|);
    FinishReaching(adj, s);
  }

  // ---- Termination of the first pass -----------------------------------------------------------

  /** Arcs still to look at on the stack, plus one pop per entry. */
  ghost function Work(adj: Adjacency, stack: seq<(nat, nat)>): nat
    requires forall k :: 0 <= k < |stack| ==> stack[k].0 < |adj|
  {
    if stack == [] then 0
    else
      var (v, idx) := stack[|stack| - 1];
      Work(adj, stack[..|stack| - 1]) + 1 + if idx <= |adj[v]| then |adj[v]| - idx else 0
  }

  lemma WorkAdvanced(adj: Adjacency, s: Dfs)
    requires Sized(s, |adj|) && s.stack != []
    requires var (v, idx) := s.stack[|s.stack| - 1]; idx < |adj[v]|
    ensures Sized(Advanced(s), |adj|) && Work(adj, Advanced(s).stack) < Work(adj, s.stack)
  {
    assert Advanced(s).stack[..|s.stack| - 1] == s.stack[..|s.stack| - 1];
  }

  lemma {:induction false} StartOrdering(adj: Adjacency, s: Dfs)
    requires Sized(s, |adj|) && s.order == [] && s.stack == [] && forall v :: 0 <= v < |adj| ==> !s.visited[v]
    ensures Ordering(adj, s)
  {
  }

  /** The finishing order of a depth-first search from every node in turn. */
  method FinishingOrder(csr: Csr, n: nat, ghost adj: Adjacency) returns (order: seq<nat>)
    requires IsCsr(n, csr.outOffsets, csr.arcs) && adj == Outgoing(csr, n) && HeadsInRange(adj)
    ensures exists start, pos :: IsFinishOrder(adj, order, start, pos)
  {
    hide IsFinishOrder, Booked, Started, Explored, Nested, Reaching, CanReach, HeadsInRange, IsCsr, Unset, Work;
    var visited := seq(n, _ => false);
    order := [];
    var stack: seq<(nat, nat)> := [];
    ghost var s := Dfs(visited, order, stack, seq(n, _ => 0), seq(n, _ => -1), seq(n, _ => 0));
    StartOrdering(adj, s);
    for first := 0 to n
      invariant Ordering(adj, s) && s.visited == visited && s.order == order && s.stack == stack == []
      invariant forall v: nat :: v < first ==> visited[v]
    {
      if visited[first] {
        continue;
      }
      Discover(adj, s, first);
      s := Discovered(s, n, first);
      visited := visited[first := true];
      stack := stack + [(first, 0)];
      visited, order, stack, s := FinishFrom(csr, n, visited, order, stack, adj, s);
    }
    OrderingIsFinishOrder(adj, s);
  }

  /** Empties the stack: each top either looks at its next arc or finishes. */
  method FinishFrom(csr: Csr, n: nat, visited0: seq<bool>, order0: seq<nat>, stack0: seq<(nat, nat)>,
                    ghost adj: Adjacency, ghost s0: Dfs)
    returns (visited: seq<bool>, order: seq<nat>, stack: seq<(nat, nat)>, ghost s: Dfs)
    requires IsCsr(n, csr.outOffsets, csr.arcs) && adj == Outgoing(csr, n) && HeadsInRange(adj)
    requires Ordering(adj, s0) && s0.visited == visited0 && s0.order == order0 && s0.stack == stack0
    ensures Ordering(adj, s) && s.visited == visited && s.order == order && s.stack == stack == []
    ensures forall v: nat :: v < n && visited0[v] ==> visited[v]
  {
    hide Booked, Started, Explored, Nested, Reaching, CanReach, HeadsInRange, IsCsr, Unset, Work;
    visited, order, stack, s := visited0, order0, stack0, s0;
    while stack != []
      invariant Ordering(adj, s) && s.visited == visited && s.order == order && s.stack == stack
      invariant forall v: nat :: v < n && visited0[v] ==> visited[v]
      decreases Unset(visited, n), Work(adj, stack)
    {
      var (v, idx) := stack[|stack| - 1];
      var arcs := Bucket(n, csr.outOffsets, csr.arcs, v);
      ghost var before := s;
      if idx < |arcs| {
        var w := arcs[idx].to;
        HeadKnown(adj, s, v, idx);
        WorkAdvanced(adj, s);
        stack := stack[|stack| - 1 := (v, idx + 1)];
        if !visited[w] {
          StepInto(adj, s, w);
          UnsetDrops(visited, w, n);
          visited := visited[w := true];
          stack := stack + [(w, 0)];
          s := Discovered(Advanced(s), n, w);
        } else {
          Advance(adj, s);
          s := Advanced(s);
        }
      } else {
        Finish(adj, s);
        WorkFinished(adj, stack);
        order := order + [v];
        stack := stack[..|stack| - 1];
        s := Finished(s, n);
      }
    }
  }

  lemma HeadKnown(adj: Adjacency, s: Dfs, v: nat, idx: nat)
    requires HeadsInRange(adj) && v < |adj| && idx < |adj[v]|
    ensures adj[v][idx].to < |adj| && CanReach(adj, v, adj[v][idx].to)
  {
    assert adj[v][idx] in adj[v];
    ReachArc(adj, v, adj[v][idx]);
  }

  lemma WorkFinished(adj: Adjacency, stack: seq<(nat, nat)>)
    requires stack != [] && forall k :: 0 <= k < |stack| ==> stack[k].0 < |adj|
    ensures Work(adj, stack[..|stack| - 1]) < Work(adj, stack)
  {
  }

  // ---- What the finishing order says about reachability -------------------------------------------

  /** The finished first pass: `pos` inverts the order, and [start, pos] is a node's lifetime. */
  ghost predicate IsFinishOrder(adj: Adjacency, order: seq<nat>, start: seq<nat>, pos: seq<int>)
  {
    && |start| == |pos| == |adj|
    && (forall v: nat :: v < |adj| ==> 0 <= pos[v] < |order| && order[pos[v]] == v && start[v] <= pos[v])
    && (forall i :: 0 <= i < |order| ==> order[i] < |adj| && pos[order[i]] == i)
    && (forall u: nat, r: RoadArc :: u < |adj| && r in adj[u] ==> r.to < |adj| && start[r.to] <= pos[u])
    && (forall u: nat, v: nat :: u < |adj| && v < |adj| && start[v] <= pos[u] <= pos[v] ==>
          start[v] <= start[u] && CanReach(adj, v, u))
  }

  lemma {:induction false} OrderingIsFinishOrder(adj: Adjacency, s: Dfs)
    requires Ordering(adj, s) && s.stack == [] && forall v: nat :: v < |adj| ==> s.visited[v]
    ensures IsFinishOrder(adj, s.order, s.start, s.pos)
  {
    hide CanReach, Nested, Reaching;
    forall u: nat, r: RoadArc | u < |adj| && r in adj[u]
      ensures r.to < |adj| && s.start[r.to] <= s.pos[u]
    {
      var j :| 0 <= j < |adj[u]| && adj[u][j] == r;
      assert s.order[s.pos[u]] == u;
      assert adj[s.order[s.pos[u]]][j].to == r.to;
    }
    forall u: nat, v: nat | u < |adj| && v < |adj| && s.start[v] <= s.pos[u] <= s.pos[v]
      ensures s.start[v] <= s.start[u] && CanReach(adj, v, u)
    {
      LifetimesNest(adj, s, s.pos[u], s.pos[v]);
    }
  }

  lemma LifetimesNest(adj: Adjacency, s: Dfs, i: nat, j: nat)
    requires Sized(s, |adj|) && Nested(s, |adj|) && Reaching(adj, s) && i <= j < |s.order| && s.start[s.order[j]] <= i
    ensures s.start[s.order[j]] <= s.start[s.order[i]] && CanReach(adj, s.order[j], s.order[i])
  {
    hide CanReach;
  }

  lemma {:induction false} RouteFront(adj: Adjacency, s: nat, w: Route, t: nat)
    requires IsRoute(adj, s, w, t) && w != []
    ensures s < |adj| && w[0].from == s && w[0].arc in adj[s] && IsRoute(adj, w[0].arc.to, w[1..], t)
    decreases |w|
  {
    var l := w[|w| - 1];
    var w' := w[..|w| - 1];
    if w' == [] {
      assert w[1..] == [];
    } else {
      RouteFront(adj, s, w', l.from);
      assert w[1..][..|w[1..]| - 1] == w'[1..];
    }
  }

  /** A route all of whose nodes finish no later than its end starts within the end's
      lifetime.  This is where the finishing order replaces an explicit search forest. */
  lemma {:induction false} StartsWithinLifetime(adj: Adjacency, order: seq<nat>, start: seq<nat>, pos: seq<int>,
                                                y: nat, w: Route, r: nat)
    requires IsFinishOrder(adj, order, start, pos) && r < |adj| && y < |adj|
    requires IsRoute(adj, y, w, r) && forall l :: l in w ==> l.from < |adj| && pos[l.from] <= pos[r]
    ensures start[r] <= pos[y] <= pos[r]
    decreases |w|
  {
    if w != [] {
      hide CanReach;
      RouteFront(adj, y, w, r);
      var q := w[0].arc.to;
      assert w[0] in w;
      assert q < |adj| && start[q] <= pos[y];
      StartsWithinLifetime(adj, order, start, pos, q, w[1..], r);
      assert start[r] <= start[q];
    }
  }

  // ---- Pass 2: one tree per component ---------------------------------------------------------------

  /** Every arc into a labelled node leaves a labelled node. */
  ghost predicate ClosedBackwards(adj: Adjacency, component: seq<int>)
  {
    && |component| == |adj|
    && forall u: nat, r: RoadArc :: u < |adj| && r in adj[u] && r.to < |adj| && component[r.to] != -1 ==> component[u] != -1
  }

  ghost function Scc(adj: Adjacency, r: nat): (c: set<nat>)
    ensures forall v: nat :: v in c <==> v < |adj| && CanReach(adj, r, v) && CanReach(adj, v, r)
  {
    set v: nat | v < |adj| && CanReach(adj, r, v) && CanReach(adj, v, r)
  }

  lemma {:induction false} LabelledBackwards(adj: Adjacency, component: seq<int>, y: nat, w: Route, t: nat)
    requires HeadsInRange(adj) && ClosedBackwards(adj, component) && IsRoute(adj, y, w, t)
    requires t < |adj| && component[t] != -1
    ensures y < |adj| && component[y] != -1
    decreases |w|
  {
    if w != [] {
      var l := w[|w| - 1];
      LabelledBackwards(adj, component, y, w[..|w| - 1], l.from);
    }
  }

  lemma {:induction false} LegsUnlabelled(adj: Adjacency, component: seq<int>, y: nat, w: Route, t: nat)
    requires HeadsInRange(adj) && ClosedBackwards(adj, component) && IsRoute(adj, y, w, t)
    requires y < |adj| && component[y] == -1
    ensures forall l :: l in w ==> l.from < |adj| && component[l.from] == -1
    decreases |w|
  {
    if w != [] {
      RouteFront(adj, y, w, t);
      LegsUnlabelled(adj, component, w[0].arc.to, w[1..], t);
      assert w == [w[0]] + w[1..];
    }
  }

  /** What one tree of the second pass holds. */
  ghost predicate IsTreeOf(adj: Adjacency, before: seq<int>, after: seq<int>, mark: int, r: nat, members: set<nat>)
  {
    && |before| == |after| == |adj| && mark != -1
    && (forall v: nat :: v in members <==> v < |adj| && before[v] == -1 && after[v] != -1)
    && (forall v: nat :: v < |adj| ==> after[v] == if v in members then mark else before[v])
    && r in members
    && (forall v :: v in members ==> CanReach(adj, v, r))
    && ClosedBackwards(adj, after)
  }

  /** The tree grown from the latest unlabelled finisher is its strongly connected component. */
  lemma {:induction false} TreeIsComponent(adj: Adjacency, order: seq<nat>, start: seq<nat>, pos: seq<int>,
                                           before: seq<int>, after: seq<int>, mark: int, r: nat, members: set<nat>)
    requires HeadsInRange(adj) && IsFinishOrder(adj, order, start, pos) && r < |adj|
    requires ClosedBackwards(adj, before) && before[r] == -1
    requires forall v: nat :: v < |adj| && before[v] == -1 ==> pos[v] <= pos[r]
    requires IsTreeOf(adj, before, after, mark, r, members)
    ensures members == Scc(adj, r)
  {
    forall y: nat | y in members ensures CanReach(adj, r, y) {
      var w :| IsRoute(adj, y, w, r);
      LegsUnlabelled(adj, before, y, w, r);
      StartsWithinLifetime(adj, order, start, pos, y, w, r);
    }
    forall y: nat | y in Scc(adj, r) ensures y in members {
      var w :| IsRoute(adj, y, w, r);
      LabelledBackwards(adj, after, y, w, r);
      if before[y] != -1 {
        var x :| IsRoute(adj, r, x, y);
        LabelledBackwards(adj, before, r, x, y);
      }
    }
  }

  lemma {:induction false} SameComponent(adj: Adjacency, r: nat, v: nat)
    requires v in Scc(adj, r)
    ensures Scc(adj, v) == Scc(adj, r)
  {
    forall y: nat ensures y in Scc(adj, v) <==> y in Scc(adj, r) {
      if y in Scc(adj, v) {
        ReachTrans(adj, r, v, y);
        ReachTrans(adj, y, v, r);
      }
      if y in Scc(adj, r) {
        ReachTrans(adj, v, r, y);
        ReachTrans(adj, y, r, v);
      }
    }
  }

  /** While a tree grows: what is labelled, what is still to be expanded. */
  ghost predicate Growing(adj: Adjacency, before: seq<int>, component: seq<int>, mark: int, r: nat,
                          members: seq<nat>, todo: seq<nat>)
  {
    && |before| == |component| == |adj| && mark != -1 && r < |adj|
    && Distinct(members + todo)
    && r in members + todo
    && (forall v: nat :: v in members + todo ==> v < |adj| && before[v] == -1 && CanReach(adj, v, r))
    && (forall v: nat :: v < |adj| ==> component[v] == if v in members + todo then mark else before[v])
  }

  /** The tails of all arcs into `m` are labelled. */
  ghost predicate Expanded(adj: Adjacency, component: seq<int>, m: nat)
    requires |component| == |adj|
  {
    forall u: nat, r: RoadArc :: u < |adj| && r in adj[u] && r.to == m ==> component[u] != -1
  }

  lemma GrowPop(adj: Adjacency, before: seq<int>, component: seq<int>, mark: int, r: nat, members: seq<nat>, todo: seq<nat>)
    requires Growing(adj, before, component, mark, r, members, todo) && todo != []
    ensures var v := todo[|todo| - 1];
            v < |adj| && CanReach(adj, v, r) && Growing(adj, before, component, mark, r, members + [v], todo[..|todo| - 1])
  {
    var v := todo[|todo| - 1];
    var a, b := members + todo, members + [v] + todo[..|todo| - 1];
    assert todo == todo[..|todo| - 1] + [v];
    assert v in a;
    assert forall x :: x in a <==> x in b;
    forall i, j | 0 <= i < j < |b| ensures b[i] != b[j] {
      var i' := if i < |members| then i else if i == |members| then |a| - 1 else i - 1;
      var j' := if j < |members| then j else if j == |members| then |a| - 1 else j - 1;
      assert b[i] == a[i'] && b[j] == a[j'];
    }
  }

  lemma GrowPush(adj: Adjacency, before: seq<int>, component: seq<int>, mark: int, r: nat, members: seq<nat>, todo: seq<nat>, u: nat)
    requires Growing(adj, before, component, mark, r, members, todo)
    requires u < |adj| && component[u] == -1 && CanReach(adj, u, r)
    ensures Growing(adj, before, component[u := mark], mark, r, members, todo + [u])
  {
    assert members + (todo + [u]) == (members + todo) + [u];
    assert u !in members + todo;
  }

  lemma GrowStart(adj: Adjacency, before: seq<int>, mark: int, r: nat)
    requires |before| == |adj| && mark != -1 && r < |adj| && before[r] == -1
    ensures Growing(adj, before, before[r := mark], mark, r, [], [r])
  {
    ReachRefl(adj, r);
  }

  ghost function Unlabelled(component: seq<int>, k: nat): nat
    requires k <= |component|
  {
    if k == 0 then 0 else Unlabelled(component, k - 1) + if component[k - 1] == -1 then 1 else 0
  }

  lemma {:induction false} UnlabelledDrops(component: seq<int>, v: nat, mark: int, k: nat)
    requires k <= |component| && v < |component| && component[v] == -1 && mark != -1
    ensures Unlabelled(component[v := mark], k) == Unlabelled(component, k) - if v < k then 1 else 0
  {
    if k > 0 {
      UnlabelledDrops(component, v, mark, k - 1);
    }
  }

  /** Marks every unlabelled tail of an arc into `v`. */
  method MarkTails(incoming: seq<RoadArc>, v: nat, mark: int, component0: seq<int>, todo0: seq<nat>,
                   ghost adj: Adjacency, ghost before: seq<int>, ghost r: nat, ghost members: seq<nat>)
    returns (component: seq<int>, todo: seq<nat>)
    requires Growing(adj, before, component0, mark, r, members, todo0) && v < |adj| && CanReach(adj, v, r)
    requires forall j :: 0 <= j < |incoming| ==>
               var a := incoming[j];
               a.to < |adj| && RoadArc(v, a.travelSeconds, a.lengthMeters) in adj[a.to]
    requires forall u: nat, a: RoadArc :: u < |adj| && a in adj[u] && a.to == v ==>
               exists j :: 0 <= j < |incoming| && incoming[j].to == u
    ensures Growing(adj, before, component, mark, r, members, todo)
    ensures Expanded(adj, component, v)
    ensures forall u: nat :: u < |adj| && component0[u] != -1 ==> component[u] != -1
    ensures Unlabelled(component, |adj|) < Unlabelled(component0, |adj|) || (component == component0 && todo == todo0)
  {
    hide Growing, CanReach, Unlabelled;
    component, todo := component0, todo0;
    GrowSizes(adj, before, component, mark, r, members, todo);
    for i := 0 to |incoming|
      invariant |component| == |adj| && mark != -1 && Growing(adj, before, component, mark, r, members, todo)
      invariant forall j :: 0 <= j < i ==> component[incoming[j].to] != -1
      invariant forall u: nat :: u < |adj| && component0[u] != -1 ==> component[u] != -1
      invariant Unlabelled(component, |adj|) < Unlabelled(component0, |adj|) || (component == component0 && todo == todo0)
    {
      var arc := incoming[i];
      if component[arc.to] == -1 {
        ReachArc(adj, arc.to, RoadArc(v, arc.travelSeconds, arc.lengthMeters));
        ReachTrans(adj, arc.to, v, r);
        GrowPush(adj, before, component, mark, r, members, todo, arc.to);
        UnlabelledDrops(component, arc.to, mark, |adj|);
        component := component[arc.to := mark];
        todo := todo + [arc.to];
      }
    }
  }

  lemma GrowSizes(adj: Adjacency, before: seq<int>, component: seq<int>, mark: int, r: nat, members: seq<nat>, todo: seq<nat>)
    requires Growing(adj, before, component, mark, r, members, todo)
    ensures |component| == |before| == |adj| && mark != -1 && r < |adj|
  {
  }

  lemma TailsListed(adj: Adjacency, rev: Adjacency, v: nat)
    requires IsTranspose(adj, rev) && v < |adj|
    ensures forall j :: 0 <= j < |rev[v]| ==>
              var a := rev[v][j]; a.to < |adj| && RoadArc(v, a.travelSeconds, a.lengthMeters) in adj[a.to]
    ensures forall u: nat, a: RoadArc :: u < |adj| && a in adj[u] && a.to == v ==>
              exists j :: 0 <= j < |rev[v]| && rev[v][j].to == u
  {
    forall j | 0 <= j < |rev[v]|
      ensures var a := rev[v][j]; a.to < |adj| && RoadArc(v, a.travelSeconds, a.lengthMeters) in adj[a.to]
    {
      assert rev[v][j] in rev[v];
    }
    forall u: nat, a: RoadArc | u < |adj| && a in adj[u] && a.to == v
      ensures exists j :: 0 <= j < |rev[v]| && rev[v][j].to == u
    {
      var b := RoadArc(u, a.travelSeconds, a.lengthMeters);
      assert b in rev[v];
      var j :| 0 <= j < |rev[v]| && rev[v][j] == b;
    }
  }

  /** Grows one tree backwards from `r` over everything unlabelled. */
  method GrowTree(csr: Csr, n: nat, r: nat, mark: int, before: seq<int>, ghost adj: Adjacency)
    returns (component: seq<int>, members: seq<nat>)
    requires IsCsr(n, csr.inOffsets, csr.reverseArcs) && |adj| == n && IsTranspose(adj, Incoming(csr, n))
    requires ClosedBackwards(adj, before) && r < n && before[r] == -1 && mark != -1
    ensures Distinct(members)
    ensures IsTreeOf(adj, before, component, mark, r, Elements(members))
  {
    hide Growing, IsTranspose, IsCsr, CanReach, Unlabelled, Distinct, Elements, ClosedBackwards;
    assert |before| == n by { ClosedSize(adj, before); }
    members := [];
    component := before[r := mark];
    var todo := [r];
    GrowStart(adj, before, mark, r);
    while todo != []
      invariant |component| == n && Growing(adj, before, component, mark, r, members, todo)
      invariant forall m :: m in members ==> m < n && Expanded(adj, component, m)
      decreases Unlabelled(component, n), |todo|
    {
      GrowPop(adj, before, component, mark, r, members, todo);
      var v := todo[|todo| - 1];
      todo := todo[..|todo| - 1];
      members := members + [v];
      TailsListed(adj, Incoming(csr, n), v);
      ghost var component0 := component;
      component, todo := MarkTails(Bucket(n, csr.inOffsets, csr.reverseArcs, v), v, mark, component, todo, adj, before, r, members);
      GrowSizes(adj, before, component, mark, r, members, todo);
      forall m | m in members ensures m < n && Expanded(adj, component, m) {
        if m != v {
          ExpandedKept(adj, component0, component, m);
        }
      }
    }
    assert members + todo == members;
    TreeDone(adj, before, component, mark, r, members);
  }

  lemma ClosedSize(adj: Adjacency, component: seq<int>)
    requires ClosedBackwards(adj, component)
    ensures |component| == |adj|
  {
  }

  lemma ExpandedKept(adj: Adjacency, before: seq<int>, after: seq<int>, m: nat)
    requires |before| == |after| == |adj| && Expanded(adj, before, m)
    requires forall u: nat :: u < |adj| && before[u] != -1 ==> after[u] != -1
    ensures Expanded(adj, after, m)
  {
  }

  lemma TreeDone(adj: Adjacency, before: seq<int>, component: seq<int>, mark: int, r: nat, members: seq<nat>)
    requires Growing(adj, before, component, mark, r, members, []) && ClosedBackwards(adj, before)
    requires forall m :: m in members ==> m < |adj| && Expanded(adj, component, m)
    ensures Distinct(members) && IsTreeOf(adj, before, component, mark, r, Elements(members))
  {
    assert members + [] == members;
    forall u: nat, a: RoadArc | u < |adj| && a in adj[u] && a.to < |adj| && component[a.to] != -1
      ensures component[u] != -1
    {
      if before[a.to] == -1 {
        assert a.to in members;
        assert Expanded(adj, component, a.to);
      }
    }
  }

  /** The largest component found so far, and how it compares with every labelled node's. */
  ghost predicate BestSoFar(adj: Adjacency, component: seq<int>, best: seq<nat>)
    requires |component| == |adj|
  {
    && Distinct(best)
    && (best != [] ==> exists r: nat :: r < |adj| && Elements(best) == Scc(adj, r))
    && (forall v: nat :: v < |adj| && component[v] != -1 ==> |Scc(adj, v)| <= |best|)
  }

  lemma {:induction false} BestAfterTree(adj: Adjacency, before: seq<int>, after: seq<int>, mark: int, r: nat,
                                         members: seq<nat>, best: seq<nat>)
    requires |before| == |adj| && r < |adj| && BestSoFar(adj, before, best)
    requires IsTreeOf(adj, before, after, mark, r, Elements(members)) && Distinct(members) && Elements(members) == Scc(adj, r)
    ensures BestSoFar(adj, after, if |members| > |best| then members else best)
  {
    DistinctSize(members);
    forall v: nat | v < |adj| && after[v] != -1
      ensures |Scc(adj, v)| <= |best| || |Scc(adj, v)| <= |members|
    {
      if before[v] == -1 {
        assert v in Elements(members);
        SameComponent(adj, r, v);
      }
    }
  }

  ghost predicate Ascending(xs: seq<nat>)
  {
    forall i, j :: 0 <= i < j < |xs| ==> xs[i] < xs[j]
  }

  method InsertNode(sorted: seq<nat>, x: nat) returns (r: seq<nat>)
    requires Ascending(sorted) && x !in sorted
    ensures Ascending(r) && |r| == |sorted| + 1
    ensures forall y :: y in r <==> y in sorted || y == x
  {
    var at := 0;
    while at < |sorted| && sorted[at] < x
      invariant at <= |sorted| && forall i :: 0 <= i < at ==> sorted[i] < x
    {
      at := at + 1;
    }
    if at < |sorted| {
      assert sorted[at] in sorted;
    }
    SplitMembers(sorted, at, x);
    r := sorted[..at] + [x] + sorted[at..];
    assert forall j :: at <= j < |sorted| ==> x < sorted[j];
  }

  lemma SplitMembers(xs: seq<nat>, at: nat, x: nat)
    requires at <= |xs|
    ensures forall y :: y in xs[..at] + [x] + xs[at..] <==> y in xs || y == x
  {
    assert xs == xs[..at] + xs[at..];
  }

  /** Insertion into ascending order. */
  method SortNodes(xs: seq<nat>) returns (r: seq<nat>)
    requires Distinct(xs)
    ensures |r| == |xs| && Elements(r) == Elements(xs) && Ascending(r)
  {
    r := [];
    for k := 0 to |xs|
      invariant |r| == k && Ascending(r) && forall x :: x in r <==> x in xs[..k]
    {
      assert xs[..k + 1] == xs[..k] + [xs[k]];
      assert xs[k] !in xs[..k];
      r := InsertNode(r, xs[k]);
    }
    assert xs[..|xs|] == xs;
  }

  /** Ascending nodes of one strongly connected component that no other exceeds in size. */
  ghost predicate IsLargestComponent(adj: Adjacency, c: seq<nat>)
  {
    && Ascending(c)
    && (exists r: nat :: r < |adj| && Elements(c) == Scc(adj, r))
    && (forall v: nat :: v < |adj| ==> |Scc(adj, v)| <= |c|)
  }

  /** Kosaraju: grows a tree from each unlabelled node, latest finisher first, and keeps
      the first of the largest. */
  method LargestComponent(csr: Csr, n: nat, ghost adj: Adjacency) returns (largest: seq<nat>)
    requires 0 < n && IsCsr(n, csr.outOffsets, csr.arcs) && IsCsr(n, csr.inOffsets, csr.reverseArcs)
    requires adj == Outgoing(csr, n) && HeadsInRange(adj) && IsTranspose(adj, Incoming(csr, n))
    ensures IsLargestComponent(adj, largest)
  {
    hide IsTranspose, IsCsr, CanReach, HeadsInRange, BestSoFar, Distinct, Elements, Ordering, IsTreeOf, ClosedBackwards;
    var order := FinishingOrder(csr, n, adj);
    ghost var start, pos :| IsFinishOrder(adj, order, start, pos);
    var component: seq<int> := seq(n, _ => -1);
    var componentCount: int := 0;
    var best: seq<nat> := [];
    NothingLabelled(adj, component);
    var i := |order|;
    while i > 0
      invariant 0 <= i <= |order| && |component| == n && componentCount >= 0
      invariant ClosedBackwards(adj, component) && BestSoFar(adj, component, best)
      invariant forall v: nat :: v < n && component[v] == -1 ==> pos[v] < i
    {
      i := i - 1;
      var r := order[i];
      if component[r] != -1 {
        continue;
      }
      ghost var before := component;
      var members;
      component, members := GrowTree(csr, n, r, componentCount, component, adj);
      TreeIsComponent(adj, order, start, pos, before, component, componentCount, r, Elements(members));
      BestAfterTree(adj, before, component, componentCount, r, members, best);
      TreeFacts(adj, before, component, componentCount, r, Elements(members));
      if |members| > |best| {
        best := members;
      }
      componentCount := componentCount + 1;
    }
    largest := SortBest(best, adj, component);
  }

  method SortBest(best: seq<nat>, ghost adj: Adjacency, ghost component: seq<int>) returns (largest: seq<nat>)
    requires 0 < |adj| == |component| && BestSoFar(adj, component, best)
    requires forall v: nat :: v < |adj| ==> component[v] != -1
    ensures IsLargestComponent(adj, largest)
  {
    hide CanReach, Distinct;
    NonEmptyBest(adj, component, best);
    largest := SortNodes(best);
  }

  lemma NonEmptyBest(adj: Adjacency, component: seq<int>, best: seq<nat>)
    requires 0 < |adj| == |component| && BestSoFar(adj, component, best)
    requires forall v: nat :: v < |adj| ==> component[v] != -1
    ensures best != []
  {
    ReachRefl(adj, 0);
    assert 0 in Scc(adj, 0);
    assert component[0] != -1;
  }

  lemma NothingLabelled(adj: Adjacency, component: seq<int>)
    requires component == seq(|adj|, _ => -1)
    ensures ClosedBackwards(adj, component) && BestSoFar(adj, component, [])
  {
  }

  lemma TreeFacts(adj: Adjacency, before: seq<int>, after: seq<int>, mark: int, r: nat, members: set<nat>)
    requires IsTreeOf(adj, before, after, mark, r, members)
    ensures |after| == |adj| && ClosedBackwards(adj, after) && r < |adj| && after[r] != -1
    ensures forall v: nat :: v < |adj| && before[v] != -1 ==> after[v] != -1
  {
  }
}
