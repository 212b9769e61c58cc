/** Flows on a residual network, given per edge pair: `h[i]` units on pair `i`
    (edge 2i forward, edge 2i + 1 backward, negative when flow is cancelled).
    The optimality certificates of the solver are proved here: a closed cut
    bounds the value, a potential bounds the cost. */
module FlowTheory {
  import opened Residual

  type Flow = seq<int>

  /** Net outflow of `v` over the first `k` pairs. */
  ghost function Outflow(net: Net, h: Flow, v: nat, k: nat): int
    requires |net| % 2 == 0 && |h| == |net| / 2 && k <= |h|
  {
    if k == 0 then
      0
    else
      Outflow(net, h, v, k - 1)
      + (if net[2 * k - 1].to == v then h[k - 1] else 0)
      - (if net[2 * k - 2].to == v then h[k - 1] else 0)
  }

  /** What leaves `s` on balance. */
  ghost function Value(net: Net, h: Flow, s: nat): int
    requires |net| % 2 == 0 && |h| == |net| / 2
  {
    Outflow(net, h, s, |h|)
  }

  ghost function CostUpTo(net: Net, h: Flow, k: nat): int
    requires |net| % 2 == 0 && |h| == |net| / 2 && k <= |h|
  {
    if k == 0 then 0 else CostUpTo(net, h, k - 1) + h[k - 1] * net[2 * k - 2].cost
  }

  ghost function Cost(net: Net, h: Flow): int
    requires |net| % 2 == 0 && |h| == |net| / 2
  {
    CostUpTo(net, h, |h|)
  }

  ghost predicate Conserves(net: Net, n: nat, h: Flow, s: nat, t: nat)
    requires |net| % 2 == 0 && |h| == |net| / 2
  {
    forall v :: 0 <= v < n && v != s && v != t ==> Outflow(net, h, v, |h|) == 0
  }

  ghost predicate WithinCapacity(net: Net, h: Flow)
    requires |net| % 2 == 0 && |h| == |net| / 2
  {
    forall i :: 0 <= i < |h| ==> -net[2 * i + 1].cap <= h[i] <= net[2 * i].cap
  }

  /** A feasible flow from `s` to `t` on top of the capacities that `net` shows. */
  ghost predicate IsFlow(net: Net, n: nat, h: Flow, s: nat, t: nat)
    requires |net| % 2 == 0
  {
    && |h| == |net| / 2
    && WithinCapacity(net, h)
    && Conserves(net, n, h, s, t)
  }

  ghost predicate IsMaxFlow(net: Net, n: nat, f: Flow, s: nat, t: nat)
    requires |net| % 2 == 0
  {
    && IsFlow(net, n, f, s, t)
    && forall g :: IsFlow(net, n, g, s, t) ==> Value(net, g, s) <= Value(net, f, s)
  }

  /** A maximum flow that costs no more than any other maximum flow. */
  ghost predicate IsMinCostMaxFlow(net: Net, n: nat, f: Flow, s: nat, t: nat)
    requires |net| % 2 == 0
  {
    && IsMaxFlow(net, n, f, s, t)
    && forall g :: IsMaxFlow(net, n, g, s, t) ==> Cost(net, f) <= Cost(net, g)
  }

  /** What was pushed on each pair between two states of the same network. */
  ghost function Pushed(before: Net, after: Net): (f: Flow)
    requires |before| == |after|
    ensures |f| == |before| / 2
  {
    seq(|before| / 2, i requires 0 <= i < |before| / 2 => before[2 * i].cap - after[2 * i].cap)
  }

  // ---- Potential differences against outflows ------------------------------

  ghost function Weighted(net: Net, n: nat, h: Flow, p: seq<int>, k: nat): int
    requires WellFormed(net, n) && |h| == |net| / 2 && k <= |h| && |p| == n
  {
    if k == 0 then
      0
    else
      Weighted(net, n, h, p, k - 1) + h[k - 1] * (p[net[2 * k - 1].to] - p[net[2 * k - 2].to])
  }

  ghost function NodeSum(net: Net, n: nat, h: Flow, p: seq<int>, k: nat, m: nat): int
    requires WellFormed(net, n) && |h| == |net| / 2 && k <= |h| && |p| == n && m <= n
  {
    if m == 0 then 0 else NodeSum(net, n, h, p, k, m - 1) + p[m - 1] * Outflow(net, h, m - 1, k)
  }

  lemma {:induction false} NodeSumStep(net: Net, n: nat, h: Flow, p: seq<int>, k: nat, m: nat)
    requires WellFormed(net, n) && |h| == |net| / 2 && 0 < k <= |h| && |p| == n && m <= n
    ensures NodeSum(net, n, h, p, k, m) == NodeSum(net, n, h, p, k - 1, m)
              + (if net[2 * k - 1].to < m then h[k - 1] * p[net[2 * k - 1].to] else 0)
              - (if net[2 * k - 2].to < m then h[k - 1] * p[net[2 * k - 2].to] else 0)
    decreases m
  {
    if m > 0 {
      NodeSumStep(net, n, h, p, k, m - 1);
      var a := if net[2 * k - 1].to == m - 1 then h[k - 1] else 0;
      var b := if net[2 * k - 2].to == m - 1 then h[k - 1] else 0;
      var o := Outflow(net, h, m - 1, k - 1);
      TimesSum(p[m - 1], o, a, b);
    }
  }

  lemma TimesSum(x: int, a: int, b: int, c: int)
    ensures x * (a + b - c) == x * a + x * b - x * c
  {
  }

  lemma {:induction false} WeightedIsNodeSum(net: Net, n: nat, h: Flow, p: seq<int>, k: nat)
    requires WellFormed(net, n) && |h| == |net| / 2 && k <= |h| && |p| == n
    ensures Weighted(net, n, h, p, k) == NodeSum(net, n, h, p, k, n)
    decreases k
  {
    if k == 0 {
      NodeSumEmpty(net, n, h, p, n);
    } else {
      WeightedIsNodeSum(net, n, h, p, k - 1);
      NodeSumStep(net, n, h, p, k, n);
      var a, b := p[net[2 * k - 1].to], p[net[2 * k - 2].to];
      TimesSum(h[k - 1], 0, a, b);
    }
  }

  lemma {:induction false} NodeSumEmpty(net: Net, n: nat, h: Flow, p: seq<int>, m: nat)
    requires WellFormed(net, n) && |h| == |net| / 2 && |p| == n && m <= n
    ensures NodeSum(net, n, h, p, 0, m) == 0
  {
    if m > 0 {
      NodeSumEmpty(net, n, h, p, m - 1);
    }
  }

  lemma {:induction false} NodeSumConserved(net: Net, n: nat, h: Flow, p: seq<int>, s: nat, t: nat, m: nat)
    requires WellFormed(net, n) && |h| == |net| / 2 && |p| == n && m <= n
    requires s < n && t < n && s != t && Conserves(net, n, h, s, t)
    ensures NodeSum(net, n, h, p, |h|, m) ==
              (if s < m then p[s] * Outflow(net, h, s, |h|) else 0)
              + (if t < m then p[t] * Outflow(net, h, t, |h|) else 0)
    decreases m
  {
    if m > 0 {
      NodeSumConserved(net, n, h, p, s, t, m - 1);
    }
  }

  lemma {:induction false} UniformWeight(net: Net, n: nat, h: Flow, k: nat, p: seq<int>)
    requires WellFormed(net, n) && |h| == |net| / 2 && k <= |h|
    requires |p| == n && forall v :: 0 <= v < n ==> p[v] == 1
    ensures Weighted(net, n, h, p, k) == 0
    decreases k
  {
    if k > 0 {
      UniformWeight(net, n, h, k - 1, p);
    }
  }

  /** What leaves the source arrives at the sink. */
  lemma {:induction false} SinkReceivesValue(net: Net, n: nat, h: Flow, s: nat, t: nat)
    requires WellFormed(net, n) && |h| == |net| / 2
    requires s < n && t < n && s != t && Conserves(net, n, h, s, t)
    ensures Outflow(net, h, t, |h|) == -Value(net, h, s)
  {
    var p := seq(n, v requires 0 <= v < n => 1);
    UniformWeight(net, n, h, |h|, p);
    WeightedIsNodeSum(net, n, h, p, |h|);
    NodeSumConserved(net, n, h, p, s, t, n);
  }

  /** Potential differences along a flow depend only on its value. */
  lemma {:induction false} WeightedByValue(net: Net, n: nat, h: Flow, p: seq<int>, s: nat, t: nat)
    requires WellFormed(net, n) && |h| == |net| / 2 && |p| == n
    requires s < n && t < n && s != t && Conserves(net, n, h, s, t)
    ensures Weighted(net, n, h, p, |h|) == (p[s] - p[t]) * Value(net, h, s)
  {
    hide Weighted, NodeSum, Conserves;
    WeightedIsNodeSum(net, n, h, p, |h|);
    NodeSumConserved(net, n, h, p, s, t, n);
    SinkReceivesValue(net, n, h, s, t);
    var x := Value(net, h, s);
    assert Outflow(net, h, s, |h|) == x && Outflow(net, h, t, |h|) == -x;
    hide Value, Outflow;
    Opposite(p[s], p[t], x);
  }

  lemma Opposite(a: int, b: int, x: int)
    ensures (a - b) * x == a * x + b * (-x)
  {
  }

  // ---- The two certificates ------------------------------------------------

  /** `cut` contains every node its residual arcs lead to. */
  ghost predicate ClosedUnderArcs(net: Net, cut: set<nat>)
    requires |net| % 2 == 0
  {
    forall e: nat :: IsArc(net, e) && From(net, e) in cut ==> net[e].to in cut
  }

  lemma {:induction false} CutWeight(net: Net, n: nat, h: Flow, p: seq<int>, cut: set<nat>, k: nat)
    requires WellFormed(net, n) && |h| == |net| / 2 && k <= |h|
    requires WithinCapacity(net, h) && ClosedUnderArcs(net, cut)
    requires |p| == n && forall v :: 0 <= v < n ==> p[v] == if v in cut then 1 else 0
    ensures Weighted(net, n, h, p, k) <= 0
    decreases k
  {
    if k > 0 {
      CutWeight(net, n, h, p, cut, k - 1);
      var i := k - 1;
      assert From(net, 2 * i) == net[2 * i + 1].to && From(net, 2 * i + 1) == net[2 * i].to;
      assert -net[2 * i + 1].cap <= h[i] <= net[2 * i].cap;
      assert h[i] * (p[net[2 * i + 1].to] - p[net[2 * i].to]) <= 0;
    }
  }

  /** No flow crosses a cut that is closed under residual arcs. */
  lemma {:induction false} CutBoundsValue(net: Net, n: nat, h: Flow, s: nat, t: nat, cut: set<nat>)
    requires WellFormed(net, n) && s < n && t < n && s != t
    requires IsFlow(net, n, h, s, t)
    requires ClosedUnderArcs(net, cut) && s in cut && t !in cut
    ensures Value(net, h, s) <= 0
  {
    var p := seq(n, v requires 0 <= v < n => if v in cut then 1 else 0);
    CutWeight(net, n, h, p, cut, |h|);
    WeightedByValue(net, n, h, p, s, t);
    assert p[s] == 1 && p[t] == 0;
  }

  lemma NoCost(net: Net, h: Flow)
    requires |net| % 2 == 0 && |h| == |net| / 2
    ensures CostUpTo(net, h, 0) == 0
  {
  }

  ghost function Times(x: int, c: int): int
  {
    x * c
  }

  lemma CostStep(net: Net, h: Flow, k: nat)
    requires |net| % 2 == 0 && |h| == |net| / 2 && 0 < k <= |h|
    ensures CostUpTo(net, h, k) == CostUpTo(net, h, k - 1) + Times(h[k - 1], net[2 * k - 2].cost)
  {
  }

  lemma NoWeight(net: Net, n: nat, h: Flow, p: seq<int>)
    requires WellFormed(net, n) && |h| == |net| / 2 && |p| == n
    ensures Weighted(net, n, h, p, 0) == 0
  {
  }

  lemma WeightedStep(net: Net, n: nat, h: Flow, p: seq<int>, k: nat)
    requires WellFormed(net, n) && |h| == |net| / 2 && 0 < k <= |h| && |p| == n
    ensures Weighted(net, n, h, p, k) == Weighted(net, n, h, p, k - 1) + Times(h[k - 1], p[net[2 * k - 1].to] - p[net[2 * k - 2].to])
  {
  }

  /** Whichever way a pair carries flow, its reduced cost has that sign. */
  lemma TermNonNegative(net: Net, n: nat, h: Flow, p: seq<int>, i: nat)
    requires WellFormed(net, n) && |h| == |net| / 2 && i < |h|
    requires WithinCapacity(net, h) && ValidPotential(net, n, p)
    ensures 0 <= Times(h[i], net[2 * i].cost) + Times(h[i], p[net[2 * i + 1].to] - p[net[2 * i].to])
  {
    assert From(net, 2 * i) == net[2 * i + 1].to && From(net, 2 * i + 1) == net[2 * i].to;
    assert -net[2 * i + 1].cap <= h[i] <= net[2 * i].cap;
    var c := net[2 * i].cost;
    var d := p[net[2 * i + 1].to] - p[net[2 * i].to];
    assert Partner(2 * i) == 2 * i + 1 && net[2 * i + 1].cost == -c;
    assert IsArc(net, 2 * i) ==> 0 <= c + d;
    assert IsArc(net, 2 * i + 1) ==> c + d <= 0;
    ProductNonNegative(h[i], c + d, IsArc(net, 2 * i), IsArc(net, 2 * i + 1));
    TimesSum(h[i], c, d, 0);
  }

  lemma {:induction false} ReducedCostNonNegative(net: Net, n: nat, h: Flow, p: seq<int>, k: nat)
    requires WellFormed(net, n) && |h| == |net| / 2 && k <= |h|
    requires WithinCapacity(net, h) && ValidPotential(net, n, p)
    ensures 0 <= CostUpTo(net, h, k) + Weighted(net, n, h, p, k)
    decreases k
  {
    hide CostUpTo, Weighted, Times, WithinCapacity;
    NoCost(net, h);
    NoWeight(net, n, h, p);
    if k > 0 {
      ReducedCostNonNegative(net, n, h, p, k - 1);
      CostStep(net, h, k);
      WeightedStep(net, n, h, p, k);
      TermNonNegative(net, n, h, p, k - 1);
    }
  }

  lemma {:induction false} ProductNonNegative(x: int, r: int, up: bool, down: bool)
    requires x > 0 ==> up
    requires x < 0 ==> down
    requires up ==> 0 <= r
    requires down ==> r <= 0
    ensures 0 <= x * r
  {
    if x > 0 {
      assert 0 <= r;
    } else if x < 0 {
      assert r <= 0;
    }
  }

  /** Rerouting flow at value zero cannot save cost while a potential is valid. */
  lemma {:induction false} PotentialBoundsCost(net: Net, n: nat, h: Flow, p: seq<int>, s: nat, t: nat)
    requires WellFormed(net, n) && s < n && t < n && s != t
    requires IsFlow(net, n, h, s, t) && Value(net, h, s) == 0
    requires ValidPotential(net, n, p)
    ensures 0 <= Cost(net, h)
  {
    ReducedCostNonNegative(net, n, h, p, |h|);
    WeightedByValue(net, n, h, p, s, t);
  }

  // ---- From a later residual state back to the first one -------------------

  lemma {:induction false} OutflowDifference(a: Net, b: Net, g: Flow, f: Flow, h: Flow, v: nat, k: nat)
    requires SameShape(a, b) && |g| == |f| == |h| == |a| / 2 && k <= |h|
    requires forall i :: 0 <= i < |h| ==> h[i] == g[i] - f[i]
    ensures Outflow(b, h, v, k) == Outflow(a, g, v, k) - Outflow(a, f, v, k)
    decreases k
  {
    if k > 0 {
      OutflowDifference(a, b, g, f, h, v, k - 1);
    }
  }

  lemma {:induction false} CostDifference(a: Net, b: Net, g: Flow, f: Flow, h: Flow, k: nat)
    requires SameShape(a, b) && |g| == |f| == |h| == |a| / 2 && k <= |h|
    requires forall i :: 0 <= i < |h| ==> h[i] == g[i] - f[i]
    ensures CostUpTo(b, h, k) == CostUpTo(a, g, k) - CostUpTo(a, f, k)
    decreases k
  {
    if k > 0 {
      CostDifference(a, b, g, f, h, k - 1);
      var c := a[2 * k - 2].cost;
      assert (g[k - 1] - f[k - 1]) * c == g[k - 1] * c - f[k - 1] * c;
    }
  }

  lemma {:induction false} RemainingFlow(a: Net, b: Net, n: nat, g: Flow, s: nat, t: nat) returns (h: Flow)
    requires WellFormed(a, n) && WellFormed(b, n) && SameShape(a, b)
    requires IsFlow(a, n, g, s, t) && Conserves(a, n, Pushed(a, b), s, t)
    ensures IsFlow(b, n, h, s, t)
    ensures Value(b, h, s) == Value(a, g, s) - Value(a, Pushed(a, b), s)
    ensures Cost(b, h) == Cost(a, g) - Cost(a, Pushed(a, b))
  {
    var f := Pushed(a, b);
    h := seq(|f|, i requires 0 <= i < |f| => g[i] - f[i]);
    forall i | 0 <= i < |h|
      ensures -b[2 * i + 1].cap <= h[i] <= b[2 * i].cap
    {
      assert Partner(2 * i) == 2 * i + 1;
      assert a[2 * i].cap + a[2 * i + 1].cap == b[2 * i].cap + b[2 * i + 1].cap;
    }
    forall v | 0 <= v < n && v != s && v != t
      ensures Outflow(b, h, v, |h|) == 0
    {
      OutflowDifference(a, b, g, f, h, v, |h|);
    }
    OutflowDifference(a, b, g, f, h, s, |h|);
    CostDifference(a, b, g, f, h, |h|);
  }

  /** The pushed amounts respect the first state's capacities by construction. */
  lemma PushedWithinCapacity(a: Net, b: Net, n: nat)
    requires WellFormed(a, n) && WellFormed(b, n) && SameShape(a, b)
    ensures WithinCapacity(a, Pushed(a, b))
  {
    forall i | 0 <= i < |a| / 2
      ensures -a[2 * i + 1].cap <= Pushed(a, b)[i] <= a[2 * i].cap
    {
      assert Partner(2 * i) == 2 * i + 1;
      assert a[2 * i].cap + a[2 * i + 1].cap == b[2 * i].cap + b[2 * i + 1].cap;
    }
  }

  /** The certificate of the whole algorithm: a closed cut and a valid potential on
      the last residual state make what was pushed a min-cost max-flow of the first. */
  lemma {:induction false} CertifiesOptimum(a: Net, b: Net, n: nat, s: nat, t: nat, cut: set<nat>, p: seq<int>)
    requires WellFormed(a, n) && WellFormed(b, n) && SameShape(a, b)
    requires s < n && t < n && s != t
    requires Conserves(a, n, Pushed(a, b), s, t)
    requires ClosedUnderArcs(b, cut) && s in cut && t !in cut
    requires ValidPotential(b, n, p)
    ensures IsMinCostMaxFlow(a, n, Pushed(a, b), s, t)
  {
    var f := Pushed(a, b);
    PushedWithinCapacity(a, b, n);
    forall g | IsFlow(a, n, g, s, t)
      ensures Value(a, g, s) <= Value(a, f, s)
    {
      var h := RemainingFlow(a, b, n, g, s, t);
      CutBoundsValue(b, n, h, s, t, cut);
    }
    assert IsMaxFlow(a, n, f, s, t);
    forall g | IsMaxFlow(a, n, g, s, t)
      ensures Cost(a, f) <= Cost(a, g)
    {
      var h := RemainingFlow(a, b, n, g, s, t);
      PotentialBoundsCost(b, n, h, p, s, t);
    }
  }

  // ---- Total capacity bounds every value -----------------------------------

  ghost function TotalCapacity(net: Net, k: nat): int
    requires |net| % 2 == 0 && k <= |net| / 2
  {
    if k == 0 then 0 else TotalCapacity(net, k - 1) + net[2 * k - 2].cap + net[2 * k - 1].cap
  }

  lemma {:induction false} ValueBounded(net: Net, n: nat, h: Flow, v: nat, k: nat)
    requires WellFormed(net, n) && |h| == |net| / 2 && k <= |h| && WithinCapacity(net, h)
    ensures Outflow(net, h, v, k) <= TotalCapacity(net, k)
    decreases k
  {
    if k > 0 {
      ValueBounded(net, n, h, v, k - 1);
      assert -net[2 * (k - 1) + 1].cap <= h[k - 1] <= net[2 * (k - 1)].cap;
    }
  }

  // ---- Pushing along one edge ----------------------------------------------

  /** `edges_[e].cap -= amount; edges_[e ^ 1].cap += amount`. */
  function PushEdge(net: Net, e: nat, amount: int): (r: Net)
    requires |net| % 2 == 0 && e < |net|
  {
    var p := Partner(e);
    net[e := net[e].(cap := net[e].cap - amount)][p := net[p].(cap := net[p].cap + amount)]
  }

  lemma {:induction false} OutflowAfterPush(a: Net, b: Net, e: nat, amount: int, v: nat, k: nat)
    requires |a| % 2 == 0 && |a| == |b| && e < |a| && k <= |a| / 2
    requires forall x :: 0 <= x < |a| ==> b[x].to == a[x].to
    ensures |PushEdge(b, e, amount)| == |a|
    ensures Outflow(a, Pushed(a, PushEdge(b, e, amount)), v, k) == Outflow(a, Pushed(a, b), v, k)
              + (if e / 2 < k && From(a, e) == v then amount else 0)
              - (if e / 2 < k && a[e].to == v then amount else 0)
    decreases k
  {
    if k > 0 {
      OutflowAfterPush(a, b, e, amount, v, k - 1);
    }
  }

  lemma TermAfterPush(f: int, amount: int, c: int)
    ensures Times(f + amount, c) == Times(f, c) + Times(amount, c)
    ensures Times(f - amount, c) == Times(f, c) + Times(amount, -c)
  {
  }

  lemma PushKeepsSize(b: Net, e: nat, amount: int)
    requires e < |b| && |b| % 2 == 0
    ensures |PushEdge(b, e, amount)| == |b|
  {
  }

  lemma PushedAt(a: Net, b: Net, n: nat, e: nat, amount: int, i: nat)
    requires WellFormed(a, n) && |a| == |b| && e < |a| && i < |a| / 2
    ensures |PushEdge(b, e, amount)| == |a|
    ensures Pushed(a, PushEdge(b, e, amount))[i]
         == Pushed(a, b)[i] + if e == 2 * i then amount else if e == 2 * i + 1 then -amount else 0
    ensures a[2 * i + 1].cost == -a[2 * i].cost
  {
    assert Partner(2 * i) == 2 * i + 1;
  }

  lemma EvenSize(net: Net, n: nat)
    requires WellFormed(net, n)
    ensures |net| % 2 == 0
  {
  }

  lemma {:induction false} TermsAfterPush(a: Net, b: Net, n: nat, e: nat, amount: int, k: nat)
    requires WellFormed(a, n) && |a| == |b| && e < |a| && k <= |a| / 2
    ensures |PushEdge(b, e, amount)| == |a|
    ensures CostUpTo(a, Pushed(a, PushEdge(b, e, amount)), k) == CostUpTo(a, Pushed(a, b), k)
              + (if e < 2 * k then Times(amount, a[e].cost) else 0)
    decreases k
  {
    hide WellFormed, Pushed, PushEdge, CostUpTo, Times;
    EvenSize(a, n);
    PushKeepsSize(b, e, amount);
    NoCost(a, Pushed(a, b));
    NoCost(a, Pushed(a, PushEdge(b, e, amount)));
    if k > 0 {
      TermsAfterPush(a, b, n, e, amount, k - 1);
      PushedAt(a, b, n, e, amount, k - 1);
      var f, g := Pushed(a, b), Pushed(a, PushEdge(b, e, amount));
      CostStep(a, f, k);
      CostStep(a, g, k);
      TermAfterPush(f[k - 1], amount, a[2 * k - 2].cost);
    }
  }

  lemma CostAfterPush(a: Net, b: Net, n: nat, e: nat, amount: int, k: nat)
    requires WellFormed(a, n) && |a| == |b| && e < |a| && k <= |a| / 2
    ensures |PushEdge(b, e, amount)| == |a|
    ensures CostUpTo(a, Pushed(a, PushEdge(b, e, amount)), k) == CostUpTo(a, Pushed(a, b), k)
              + (if e / 2 < k then amount * a[e].cost else 0)
  {
    hide CostUpTo, Pushed, PushEdge, WellFormed;
    TermsAfterPush(a, b, n, e, amount, k);
    assert e / 2 < k <==> e < 2 * k;
  }
  /** Pushing keeps topology and costs, and no capacity turns negative if the edge had
      at least that much. */
  lemma PushKeepsShape(a: Net, b: Net, n: nat, e: nat, amount: int)
    requires WellFormed(b, n) && SameShape(a, b) && e < |b| && 0 <= amount <= b[e].cap
    ensures WellFormed(PushEdge(b, e, amount), n) && SameShape(a, PushEdge(b, e, amount))
  {
    var c := PushEdge(b, e, amount);
    forall x: nat | x < |a|
      ensures c[x].to == a[x].to && c[x].cost == a[x].cost && 0 <= c[x].cap
      ensures a[x].cap + a[Partner(x)].cap == c[x].cap + c[Partner(x)].cap
    {
      assert x / 2 != e / 2 ==> c[x] == b[x] && c[Partner(x)] == b[Partner(x)];
    }
  }
}
