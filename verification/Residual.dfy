/** The paired residual edge array of the min-cost-flow solver, as a value:
    edges `e` and `e ^ 1` are partners, and an edge leaves the node its partner
    points at.  Walks, potentials and negative cycles are defined over it. */
module Residual {

  datatype Edge = Edge(to: nat, cap: int, cost: int)

  type Net = seq<Edge>

  /** The id of the partner edge, `e ^ 1`. */
  function Partner(e: nat): (p: nat)
    ensures p != e && p / 2 == e / 2
    ensures if p < e then e == p + 1 else p == e + 1
  {
    if e % 2 == 0 then e + 1 else e - 1
  }

  /** Every edge stays inside the node range, no residual capacity is negative,
      and partners carry opposite costs. */
  ghost predicate WellFormed(net: Net, n: nat)
  {
    && |net| % 2 == 0
    && (forall e :: 0 <= e < |net| ==> net[e].to < n && 0 <= net[e].cap)
    && (forall e: nat {:trigger Partner(e)} :: e < |net| ==> net[Partner(e)].cost == -net[e].cost)
  }

  function From(net: Net, e: nat): nat
    requires |net| % 2 == 0 && e < |net|
  {
    net[Partner(e)].to
  }

  /** Edge `e` is an arc of the residual graph: it has capacity left. */
  predicate IsArc(net: Net, e: nat)
  {
    e < |net| && net[e].cap > 0
  }

  /** Same topology and costs, and every pair keeps its total capacity. */
  ghost predicate SameShape(a: Net, b: Net)
  {
    && |a| == |b|
    && |a| % 2 == 0
    && (forall e :: 0 <= e < |a| ==> b[e].to == a[e].to && b[e].cost == a[e].cost)
    && (forall e: nat {:trigger Partner(e)} :: e < |a| ==>
          a[e].cap + a[Partner(e)].cap == b[e].cap + b[Partner(e)].cap)
  }

  lemma SameTail(a: Net, b: Net, e: nat)
    requires SameShape(a, b) && e < |a|
    ensures From(a, e) == From(b, e) && a[e].to == b[e].to && a[e].cost == b[e].cost
  {
  }

  // ---- Walks -------------------------------------------------------------

  /** `w` lists the edge ids of a residual walk from `s` to `t`. */
  ghost predicate IsWalk(net: Net, s: nat, w: seq<nat>, t: nat)
    requires |net| % 2 == 0
  {
    if w == [] then
      s == t
    else
      var e := w[|w| - 1];
      IsArc(net, e) && net[e].to == t && IsWalk(net, s, w[..|w| - 1], From(net, e))
  }

  ghost function WalkCost(net: Net, w: seq<nat>): int
  {
    if w == [] then
      0
    else
      var e := w[|w| - 1];
      WalkCost(net, w[..|w| - 1]) + if e < |net| then net[e].cost else 0
  }

  ghost predicate Reachable(net: Net, s: nat, t: nat)
    requires |net| % 2 == 0
  {
    exists w :: IsWalk(net, s, w, t)
  }

  /** `d` is the least cost of a residual walk from `s` to `t`, and is attained. */
  ghost predicate IsShortest(net: Net, s: nat, t: nat, d: int)
    requires |net| % 2 == 0
  {
    && (exists w :: IsWalk(net, s, w, t) && WalkCost(net, w) == d)
    && forall w :: IsWalk(net, s, w, t) ==> d <= WalkCost(net, w)
  }

  ghost predicate NoNegativeCycle(net: Net)
    requires |net| % 2 == 0
  {
    forall v, w :: IsWalk(net, v, w, v) ==> 0 <= WalkCost(net, w)
  }

  lemma {:induction false} WalkConcat(net: Net, s: nat, a: seq<nat>, m: nat, b: seq<nat>, t: nat)
    requires |net| % 2 == 0
    requires IsWalk(net, s, a, m) && IsWalk(net, m, b, t)
    ensures IsWalk(net, s, a + b, t)
    ensures WalkCost(net, a + b) == WalkCost(net, a) + WalkCost(net, b)
  {
    if b == [] {
      assert a + b == a;
    } else {
      var e := b[|b| - 1];
      var b' := b[..|b| - 1];
      WalkConcat(net, s, a, m, b', From(net, e));
      assert (a + b)[..|a + b| - 1] == a + b';
    }
  }

  /** The node a walk stands on after its first `i` edges. */
  ghost function NodeAt(net: Net, s: nat, w: seq<nat>, i: nat): nat
    requires i <= |w|
  {
    if i == 0 || w[i - 1] >= |net| then s else net[w[i - 1]].to
  }

  lemma {:induction false} WalkSplit(net: Net, s: nat, w: seq<nat>, t: nat, i: nat)
    requires |net| % 2 == 0
    requires IsWalk(net, s, w, t) && i <= |w|
    ensures IsWalk(net, s, w[..i], NodeAt(net, s, w, i))
    ensures IsWalk(net, NodeAt(net, s, w, i), w[i..], t)
    ensures WalkCost(net, w) == WalkCost(net, w[..i]) + WalkCost(net, w[i..])
    decreases |w|
  {
    if i == |w| {
      assert w[..i] == w;
    } else {
      var w' := w[..|w| - 1];
      var e := w[|w| - 1];
      WalkSplit(net, s, w', From(net, e), i);
      assert w'[..i] == w[..i];
      assert w[i..][..|w[i..]| - 1] == w'[i..];
    }
  }

  lemma {:induction false} WalkStaysInRange(net: Net, n: nat, s: nat, w: seq<nat>, t: nat, i: nat)
    requires WellFormed(net, n) && s < n
    requires IsWalk(net, s, w, t) && i <= |w|
    ensures NodeAt(net, s, w, i) < n
    ensures t < n
  {
    WalkSplit(net, s, w, t, i);
    if i > 0 {
      assert w[..i][i - 1] == w[i - 1];
    }
  }

  // ---- Potentials --------------------------------------------------------

  /** Every residual arc has a non-negative reduced cost under `p`. */
  ghost predicate ValidPotential(net: Net, n: nat, p: seq<int>)
    requires WellFormed(net, n)
  {
    && |p| == n
    && forall e: nat :: IsArc(net, e) ==> 0 <= net[e].cost + p[From(net, e)] - p[net[e].to]
  }

  lemma {:induction false} Telescope(net: Net, n: nat, p: seq<int>, s: nat, w: seq<nat>, t: nat)
    requires WellFormed(net, n) && ValidPotential(net, n, p)
    requires s < n && IsWalk(net, s, w, t)
    ensures t < n && p[t] - p[s] <= WalkCost(net, w)
  {
    if w != [] {
      var e := w[|w| - 1];
      Telescope(net, n, p, s, w[..|w| - 1], From(net, e));
    }
  }

  /** A potential rules out negative cycles. */
  lemma {:induction false} PotentialExcludesNegativeCycles(net: Net, n: nat, p: seq<int>)
    requires WellFormed(net, n) && ValidPotential(net, n, p)
    ensures NoNegativeCycle(net)
  {
    forall v, w | IsWalk(net, v, w, v)
      ensures 0 <= WalkCost(net, w)
    {
      if w != [] {
        Telescope(net, n, p, v, w, v);
      }
    }
  }

  // ---- ... and without negative cycles a potential exists ------------------

  /** Least cost of a walk with at most `k` edges that ends in `v`, from any start. */
  ghost function Layer(net: Net, n: nat, k: nat, v: nat): int
    requires WellFormed(net, n) && v < n
    decreases k, |net| + 1
  {
    if k == 0 then 0 else BestIn(net, n, k - 1, v, |net|)
  }

  /** The same with one more edge, chosen among the first `m` edges. */
  ghost function BestIn(net: Net, n: nat, k: nat, v: nat, m: nat): int
    requires WellFormed(net, n) && v < n && m <= |net|
    decreases k, |net| + 2, m
  {
    if m == 0 then
      Layer(net, n, k, v)
    else
      var best := BestIn(net, n, k, v, m - 1);
      if IsArc(net, m - 1) && net[m - 1].to == v
         && Layer(net, n, k, From(net, m - 1)) + net[m - 1].cost < best
      then Layer(net, n, k, From(net, m - 1)) + net[m - 1].cost
      else best
  }

  lemma {:induction false} BestInBound(net: Net, n: nat, k: nat, v: nat, m: nat, e: nat)
    requires WellFormed(net, n) && v < n && m <= |net|
    ensures BestIn(net, n, k, v, m) <= Layer(net, n, k, v)
    ensures e < m && IsArc(net, e) && net[e].to == v ==>
              BestIn(net, n, k, v, m) <= Layer(net, n, k, From(net, e)) + net[e].cost
    decreases m
  {
    if m > 0 {
      BestInBound(net, n, k, v, m - 1, e);
    }
  }

  lemma {:induction false} BestInAttained(net: Net, n: nat, k: nat, v: nat, m: nat) returns (u: nat, w: seq<nat>)
    requires WellFormed(net, n) && v < n && m <= |net|
    ensures u < n && IsWalk(net, u, w, v) && |w| <= k + 1
    ensures WalkCost(net, w) == BestIn(net, n, k, v, m)
    decreases k, |net| + 2, m
  {
    if m == 0 {
      u, w := LayerAttained(net, n, k, v);
    } else if BestIn(net, n, k, v, m) == BestIn(net, n, k, v, m - 1) {
      u, w := BestInAttained(net, n, k, v, m - 1);
    } else {
      u, w := LayerAttained(net, n, k, From(net, m - 1));
      assert (w + [m - 1])[..|w + [m - 1]| - 1] == w;
      w := w + [m - 1];
    }
  }

  lemma {:induction false} LayerAttained(net: Net, n: nat, k: nat, v: nat) returns (u: nat, w: seq<nat>)
    requires WellFormed(net, n) && v < n
    ensures u < n && IsWalk(net, u, w, v) && |w| <= k
    ensures WalkCost(net, w) == Layer(net, n, k, v)
    decreases k, |net| + 1
  {
    if k == 0 {
      u, w := v, [];
    } else {
      u, w := BestInAttained(net, n, k - 1, v, |net|);
    }
  }

  lemma {:induction false} LayerBound(net: Net, n: nat, k: nat, u: nat, w: seq<nat>, v: nat)
    requires WellFormed(net, n) && u < n && v < n
    requires IsWalk(net, u, w, v) && |w| <= k
    ensures Layer(net, n, k, v) <= WalkCost(net, w)
    decreases k
  {
    if k > 0 {
      if w == [] {
        LayerBound(net, n, k - 1, u, w, v);
        BestInBound(net, n, k - 1, v, |net|, 0);
      } else {
        var e := w[|w| - 1];
        LayerBound(net, n, k - 1, u, w[..|w| - 1], From(net, e));
        BestInBound(net, n, k - 1, v, |net|, e);
      }
    }
  }

  /** Among more than `n` numbers below `n`, two are equal. */
  lemma {:induction false} Pigeonhole(n: nat, xs: seq<nat>) returns (i: nat, j: nat)
    requires |xs| > n && forall k :: 0 <= k < |xs| ==> xs[k] < n
    ensures i < j < |xs| && xs[i] == xs[j]
    decreases n
  {
    var last := |xs| - 1;
    if k :| 0 <= k < last && xs[k] == xs[last] {
      i, j := k, last;
    } else {
      // Rename value n-1 to xs[last]; the first |xs|-1 values then stay below n-1.
      var ys := seq(last, k requires 0 <= k < last => if xs[k] == n - 1 then xs[last] else xs[k]);
      i, j := Pigeonhole(n - 1, ys);
    }
  }

  /** Cutting cycles out of a walk never makes it dearer when no cycle is negative. */
  lemma {:induction false} Shorten(net: Net, n: nat, s: nat, w: seq<nat>, t: nat) returns (r: seq<nat>)
    requires WellFormed(net, n) && NoNegativeCycle(net)
    requires s < n && IsWalk(net, s, w, t)
    ensures IsWalk(net, s, r, t) && |r| < n
    ensures WalkCost(net, r) <= WalkCost(net, w)
    decreases |w|
  {
    if |w| < n {
      r := w;
    } else {
      var nodes := seq(|w| + 1, i requires 0 <= i < |w| + 1 => NodeAt(net, s, w, i));
      forall i | 0 <= i < |nodes| ensures nodes[i] < n {
        WalkStaysInRange(net, n, s, w, t, i);
      }
      var i, j := Pigeonhole(n, nodes);
      var v := nodes[i];
      WalkSplit(net, s, w, t, j);
      WalkSplit(net, s, w[..j], v, i);
      assert NodeAt(net, s, w[..j], i) == v;
      WalkConcat(net, s, w[..j][..i], v, w[j..], t);
      r := Shorten(net, n, s, w[..j][..i] + w[j..], t);
    }
  }

  /** The converse of PotentialExcludesNegativeCycles. */
  lemma {:induction false} PotentialExists(net: Net, n: nat) returns (p: seq<int>)
    requires WellFormed(net, n) && NoNegativeCycle(net)
    ensures ValidPotential(net, n, p)
    ensures forall v: nat :: v < n ==> p[v] == Layer(net, n, n - 1, v)
  {
    if n == 0 {
      p := [];
    } else {
      p := seq(n, v requires 0 <= v < n => Layer(net, n, n - 1, v));
      forall e: nat | IsArc(net, e)
        ensures 0 <= net[e].cost + p[From(net, e)] - p[net[e].to]
      {
        var v := net[e].to;
        BestInBound(net, n, n - 1, v, |net|, e);
        var u, w := LayerAttained(net, n, n, v);
        var r := Shorten(net, n, u, w, v);
        LayerBound(net, n, n - 1, u, r, v);
      }
    }
  }
}
