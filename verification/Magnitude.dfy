/** How large the numbers get that the flow solver computes: every label, reduced weight and
    potential stays within 2 * n * C, every total within F * n * C, where C is the largest
    absolute cost and F the capacity out of the source. */
module Magnitude {
  import opened Residual
  import opened FlowTheory
  import opened ShortestTree
  import Spfa
  import Johnson

  /** A computed value that is known to stay within the limit. */
  function Within(x: int, ghost limit: int): int
    requires -limit <= x <= limit
  {
    x
  }

  /** Under the documented size limits such values fit 64 bits and never collide with the
      marker for "unreachable". */
  lemma FitsInt64(n: nat, c: nat, capacity: nat, x: int, total: int)
    requires 4 * n * c < 0x8000_0000_0000_0000 && capacity * n * c < 0x8000_0000_0000_0000
    requires -Limit(n, c) <= x <= Limit(n, c) && -(capacity * n * c) <= total <= capacity * n * c
    ensures -0x8000_0000_0000_0000 <= x < 0x7fff_ffff_ffff_ffff
    ensures -0x8000_0000_0000_0000 <= total < 0x8000_0000_0000_0000
  {
    assert 4 * n * c == 2 * Limit(n, c) by { Doubled(n, c); }
    hide Limit;
  }

  lemma Doubled(n: nat, c: nat)
    ensures 4 * n * c == 2 * Limit(n, c)
  {
    assert 4 * n * c == 4 * (n * c) && 2 * n * c == 2 * (n * c);
  }

  /** The price of the longest simple path. */
  ghost function Longest(n: nat, c: nat): (r: int)
    ensures 0 <= r
  {
    if n == 0 then 0 else (n - 1) * c
  }

  /** The limit of every label, weight, key and potential. */
  ghost function Limit(n: nat, c: nat): (r: int)
    ensures 0 <= r
  {
    2 * n * c
  }

  lemma LimitOfLongest(n: nat, c: nat)
    requires 1 <= n
    ensures 2 * (Longest(n, c) + c) == Limit(n, c)
  {
    assert (n - 1) * c + c == n * c;
    assert 2 * n * c == 2 * (n * c);
  }

  // ---- Costs ----------------------------------------------------------------------------------

  ghost function Abs(x: int): nat
  {
    if x < 0 then -x else x
  }

  ghost function LargestCost(net: Net): (c: nat)
    ensures forall e :: 0 <= e < |net| ==> Abs(net[e].cost) <= c
    ensures net != [] ==> exists e :: 0 <= e < |net| && c == Abs(net[e].cost)
  {
    if net == [] then 0
    else
      var init, last := net[..|net| - 1], net[|net| - 1];
      var rest := LargestCost(init);
      assert forall e :: 0 <= e < |init| ==> init[e] == net[e];
      if init != [] && Abs(last.cost) <= rest then
        assert exists e :: 0 <= e < |init| && rest == Abs(net[e].cost);
        rest
      else
        assert net[|net| - 1] == last;
        Abs(last.cost)
  }

  /** Pushing flow changes no cost. */
  lemma {:induction false} SameLargestCost(a: Net, b: Net)
    requires |a| == |b| && forall e :: 0 <= e < |a| ==> b[e].cost == a[e].cost
    ensures LargestCost(a) == LargestCost(b)
  {
    if a != [] {
      SameLargestCost(a[..|a| - 1], b[..|b| - 1]);
    }
  }

  lemma ShapeKeepsCost(a: Net, b: Net)
    requires SameShape(a, b)
    ensures LargestCost(a) == LargestCost(b)
  {
    SameLargestCost(a, b);
  }

  lemma {:induction false} WalkWithin(net: Net, s: nat, w: seq<nat>, t: nat, c: nat)
    requires |net| % 2 == 0 && IsWalk(net, s, w, t) && LargestCost(net) <= c
    ensures -(|w| * c) <= WalkCost(net, w) <= |w| * c
  {
    if w != [] {
      var e := w[|w| - 1];
      WalkWithin(net, s, w[..|w| - 1], From(net, e), c);
      assert |w| * c == (|w| - 1) * c + c;
    }
  }

  lemma FewerSteps(a: nat, b: nat, c: nat)
    requires a <= b
    ensures a * c <= b * c
  {
  }

  /** A shortest distance is that of some walk of fewer than `n` arcs. */
  lemma ShortestWithin(net: Net, n: nat, source: nat, v: nat, d: int, c: nat)
    requires WellFormed(net, n) && NoNegativeCycle(net) && source < n && IsShortest(net, source, v, d)
    requires LargestCost(net) <= c
    ensures -Longest(n, c) <= d <= Longest(n, c)
  {
    hide NoNegativeCycle, IsWalk;
    var w :| IsWalk(net, source, w, v) && WalkCost(net, w) == d;
    var r := Shorten(net, n, source, w, v);
    WalkWithin(net, source, r, v, c);
    FewerSteps(|r|, n - 1, c);
  }

  /** The potential the solver reasons with is never positive and never far below zero. */
  lemma LayerWithin(net: Net, n: nat, v: nat, c: nat)
    requires WellFormed(net, n) && v < n && LargestCost(net) <= c
    ensures -Longest(n, c) <= Layer(net, n, n - 1, v) <= 0
  {
    var u, w := LayerAttained(net, n, n - 1, v);
    WalkWithin(net, u, w, v, c);
    FewerSteps(|w|, n - 1, c);
    LayerBound(net, n, n - 1, v, [], v);
  }

  lemma LayersNotPositive(net: Net, n: nat, p: seq<int>, c: nat)
    requires WellFormed(net, n) && LargestCost(net) <= c && |p| == n
    requires forall v: nat :: v < n ==> p[v] == Layer(net, n, n - 1, v)
    ensures NotPositive(n, c, p)
  {
    hide Layer, Longest;
    forall v: nat | v < n ensures -Longest(n, c) <= p[v] <= 0 {
      LayerWithin(net, n, v, c);
    }
  }

  ghost predicate PotentialWithin(n: nat, c: nat, p: seq<int>)
  {
    |p| == n && forall v :: 0 <= v < n ==> -Longest(n, c) <= p[v] <= Longest(n, c)
  }

  lemma PotentialAt(n: nat, c: nat, p: seq<int>, v: nat)
    requires PotentialWithin(n, c, p) && v < n
    ensures |p| == n && -Longest(n, c) <= p[v] <= Longest(n, c)
  {
  }

  // ---- Labels -------------------------------------------------------------------------------------

  ghost function ReachedCount(dist: seq<Distance>, k: nat): nat
    requires k <= |dist|
  {
    if k == 0 then 0 else ReachedCount(dist, k - 1) + if dist[k - 1].Finite? then 1 else 0
  }

  lemma {:induction false} ReachedAtMost(dist: seq<Distance>, k: nat)
    requires k <= |dist|
    ensures ReachedCount(dist, k) <= k
  {
    if k > 0 {
      ReachedAtMost(dist, k - 1);
    }
  }

  lemma {:induction false} ReachedAfter(dist: seq<Distance>, v: nat, x: int, k: nat)
    requires k <= |dist| && v < |dist|
    ensures ReachedCount(dist[v := Finite(x)], k)
         == ReachedCount(dist, k) + if v < k && dist[v].Infinite? then 1 else 0
  {
    if k > 0 {
      ReachedAfter(dist, v, x, k - 1);
    }
  }

  /** Each reached node's real label (the stored one plus an offset) is at most one largest
      cost for every other reached node. */
  ghost predicate Spread(n: nat, c: nat, off: seq<int>, dist: seq<Distance>)
  {
    && |dist| == |off| == n
    && forall v: nat :: Reached(dist, v) ==> dist[v].value + off[v] <= (ReachedCount(dist, n) - 1) * c
  }

  lemma SpreadStep(n: nat, c: nat, off: seq<int>, dist: seq<Distance>, u: nat, v: nat, x: int)
    requires Spread(n, c, off, dist) && Reached(dist, u) && v < n && Improves(x, dist[v])
    requires x + off[v] <= dist[u].value + off[u] + c
    ensures Spread(n, c, off, dist[v := Finite(x)])
  {
    var d := dist[v := Finite(x)];
    var k := ReachedCount(dist, n);
    ReachedAfter(dist, v, x, n);
    assert (k - 1) * c + c == k * c;
    forall y: nat | Reached(d, y) ensures d[y].value + off[y] <= (ReachedCount(d, n) - 1) * c {
      if y != v {
        assert Reached(dist, y);
      } else if dist[v].Finite? {
        assert Reached(dist, v);
      }
    }
  }

  lemma SpreadSize(n: nat, c: nat, off: seq<int>, dist: seq<Distance>)
    requires Spread(n, c, off, dist)
    ensures |dist| == |off| == n
  {
  }

  lemma SpreadBound(n: nat, c: nat, off: seq<int>, dist: seq<Distance>, v: nat)
    requires Spread(n, c, off, dist) && Reached(dist, v)
    ensures dist[v].value + off[v] <= Longest(n, c)
  {
    ReachedAtMost(dist, n);
    CountPositive(dist, n, v);
    FewerSteps(ReachedCount(dist, n) - 1, n - 1, c);
  }

  lemma {:induction false} CountPositive(dist: seq<Distance>, k: nat, v: nat)
    requires v < k <= |dist| && Reached(dist, v)
    ensures 1 <= ReachedCount(dist, k)
  {
    if v < k - 1 {
      CountPositive(dist, k - 1, v);
    }
  }

  /** A search starts with the source alone. */
  lemma SpreadStart(n: nat, c: nat, off: seq<int>, dist: seq<Distance>, source: nat)
    requires |off| == n && source < n && off[source] == 0 && dist == seq(n, _ => Infinite)[source := Finite(0)]
    ensures Spread(n, c, off, dist)
  {
    CountPositive(dist, n, source);
    FewerSteps(0, ReachedCount(dist, n) - 1, c);
    assert forall v: nat :: Reached(dist, v) ==> v == source;
  }

  function Zeros(n: nat): (r: seq<int>)
    ensures |r| == n && forall v :: 0 <= v < n ==> r[v] == 0
  {
    seq(n, _ => 0)
  }

  /** The sum Bellman-Ford forms when it looks at an arc. */
  lemma SpfaSumWithin(net: Net, n: nat, source: nat, p: seq<int>, s: Spfa.Search, u: nat, ids: seq<nat>, i: nat, c: nat)
    requires WellFormed(net, n) && Spfa.Sized(n, s) && Spfa.Scanning(net, n, source, p, s, u, ids, i) && i < |ids|
    requires LargestCost(net) <= c && NotPositive(n, c, p) && Spread(n, c, Zeros(n), s.dist)
    ensures Reached(s.dist, u) && ids[i] < |net| && From(net, ids[i]) == u && net[ids[i]].to < n
    ensures -Limit(n, c) <= s.dist[u].value + net[ids[i]].cost <= Limit(n, c)
    ensures Improves(s.dist[u].value + net[ids[i]].cost, s.dist[net[ids[i]].to]) ==>
              Spread(n, c, Zeros(n), s.dist[net[ids[i]].to := Finite(s.dist[u].value + net[ids[i]].cost)])
  {
    hide Spread, Spfa.Scanning, Longest, Limit, NotPositive;
    ScannedArc(net, n, source, p, s, u, ids, i);
    var id := ids[i];
    PotentialStep(n, c, p, source);
    PotentialStep(n, c, p, u);
    SpreadBound(n, c, Zeros(n), s.dist, u);
    LimitOfLongest(n, c);
    assert Abs(net[id].cost) <= c;
    if Improves(s.dist[u].value + net[id].cost, s.dist[net[id].to]) {
      SpreadStep(n, c, Zeros(n), s.dist, u, net[id].to, s.dist[u].value + net[id].cost);
    }
  }

  ghost predicate NotPositive(n: nat, c: nat, p: seq<int>)
  {
    |p| == n && forall v :: 0 <= v < n ==> -Longest(n, c) <= p[v] <= 0
  }

  lemma PotentialStep(n: nat, c: nat, p: seq<int>, v: nat)
    requires NotPositive(n, c, p) && v < n
    ensures |p| == n && -Longest(n, c) <= p[v] <= 0
  {
  }

  lemma ScannedArc(net: Net, n: nat, source: nat, p: seq<int>, s: Spfa.Search, u: nat, ids: seq<nat>, i: nat)
    requires WellFormed(net, n) && Spfa.Sized(n, s) && Spfa.Scanning(net, n, source, p, s, u, ids, i) && i < |ids|
    ensures Reached(s.dist, u) && ids[i] < |net| && From(net, ids[i]) == u && net[ids[i]].to < n
    ensures source < n && u < n == |p| && p[u] - p[source] <= s.dist[u].value
  {
    hide Spfa.QueueHolds, Spfa.SatisfiedElsewhere;
  }

  /** The reduced weight and the key Dijkstra forms when it looks at an arc. */
  lemma DijkstraSumWithin(net: Net, n: nat, pot: seq<int>, dist: seq<Distance>, id: nat, c: nat)
    requires WellFormed(net, n) && id < |net| && LargestCost(net) <= c && PotentialWithin(n, c, pot)
    requires Spread(n, c, pot, dist) && Reached(dist, From(net, id)) && 0 <= dist[From(net, id)].value
    ensures var u, v := From(net, id), net[id].to;
            var weight := net[id].cost + pot[u] - pot[v];
            && -Limit(n, c) <= net[id].cost + pot[u] <= Limit(n, c)
            && -Limit(n, c) <= weight <= Limit(n, c)
            && -Limit(n, c) <= dist[u].value + weight <= Limit(n, c)
            && v < n == |dist|
            && (Improves(dist[u].value + weight, dist[v]) ==> Spread(n, c, pot, dist[v := Finite(dist[u].value + weight)]))
  {
    hide Spread, Longest, Limit, PotentialWithin;
    PotentialAt(n, c, pot, From(net, id));
    PotentialAt(n, c, pot, net[id].to);
    SpreadSize(n, c, pot, dist);
    assert Abs(net[id].cost) <= c;
    var u, v := From(net, id), net[id].to;
    SpreadBound(n, c, pot, dist, u);
    LimitOfLongest(n, c);
    var x := dist[u].value + (net[id].cost + pot[u] - pot[v]);
    if Improves(x, dist[v]) {
      SpreadStep(n, c, pot, dist, u, v, x);
    }
  }

  /** Potentials stay bounded from round to round: they are shortest distances, old or new. */
  lemma RolledWithin(net: Net, n: nat, source: nat, pot: seq<int>, dist: seq<Distance>, prev: seq<int>, depth: seq<nat>, c: nat)
    requires WellFormed(net, n) && NoNegativeCycle(net) && PotentialWithin(n, c, pot) && |dist| == n && source < n
    requires LargestCost(net) <= c && IsShortestTree(net, n, source, Johnson.Rolled(pot, dist), prev, depth)
    ensures PotentialWithin(n, c, Johnson.RolledPot(pot, dist))
  {
    hide WellFormed, NoNegativeCycle, IsShortestTree, IsShortest, Johnson.Rolled, Longest;
    forall v: nat | v < n ensures -Longest(n, c) <= Johnson.RolledPot(pot, dist)[v] <= Longest(n, c) {
      if dist[v].Finite? {
        Johnson.RolledIsExact(net, n, source, pot, dist, prev, depth, v);
        assert v in ReachedSet(n, dist);
        ShortestWithin(net, n, source, v, Johnson.RolledPot(pot, dist)[v], c);
      }
    }
  }

  lemma SeedWithin(net: Net, n: nat, source: nat, seed: seq<Distance>, pot: seq<int>, c: nat)
    requires WellFormed(net, n) && NoNegativeCycle(net) && source < n && |seed| == |pot| == n && LargestCost(net) <= c
    requires forall v: nat :: v < n && Reached(seed, v) ==> IsShortest(net, source, v, seed[v].value)
    requires forall v :: 0 <= v < n ==> pot[v] == if seed[v].Finite? then seed[v].value else 0
    ensures PotentialWithin(n, c, pot)
  {
    hide WellFormed, NoNegativeCycle, IsShortest, Longest;
    forall v: nat | v < n ensures -Longest(n, c) <= pot[v] <= Longest(n, c) {
      if seed[v].Finite? {
        assert Reached(seed, v);
        ShortestWithin(net, n, source, v, seed[v].value, c);
      }
    }
  }

  // ---- Totals -------------------------------------------------------------------------------------------

  /** All capacity that leaves `v` over the first `k` pairs. */
  ghost function OutCapacity(net: Net, v: nat, k: nat): nat
    requires |net| % 2 == 0 && k <= |net| / 2
  {
    if k == 0 then 0
    else
      OutCapacity(net, v, k - 1)
      + (if net[2 * k - 1].to == v && net[2 * k - 2].cap > 0 then net[2 * k - 2].cap else 0)
      + (if net[2 * k - 2].to == v && net[2 * k - 1].cap > 0 then net[2 * k - 1].cap else 0)
  }

  lemma {:induction false} ValueWithin(net: Net, n: nat, h: Flow, v: nat, k: nat)
    requires WellFormed(net, n) && |h| == |net| / 2 && k <= |h| && WithinCapacity(net, h)
    ensures Outflow(net, h, v, k) <= OutCapacity(net, v, k)
  {
    if k > 0 {
      ValueWithin(net, n, h, v, k - 1);
      assert -net[2 * (k - 1) + 1].cap <= h[k - 1] <= net[2 * (k - 1)].cap;
    }
  }

  /** The running totals: no more flow than leaves the source, at no more than the longest
      path's price a unit. */
  ghost predicate TotalsWithin(n: nat, c: nat, capacity: nat, totalFlow: int, totalCost: int)
  {
    && 0 <= totalFlow <= capacity
    && -(totalFlow * Longest(n, c)) <= totalCost <= totalFlow * Longest(n, c)
  }

  lemma NoTotals(n: nat, c: nat, capacity: nat)
    ensures TotalsWithin(n, c, capacity, 0, 0)
  {
  }

  lemma RolledInLimit(n: nat, c: nat, pot: seq<int>, dist: seq<Distance>)
    requires |pot| == |dist| == n && PotentialWithin(n, c, Johnson.RolledPot(pot, dist))
    ensures forall v :: 0 <= v < n && dist[v].Finite? ==> -Limit(n, c) <= pot[v] + dist[v].value <= Limit(n, c)
  {
    hide Limit, Longest, PotentialWithin;
    if n > 0 {
      LimitOfLongest(n, c);
      forall v | 0 <= v < n && dist[v].Finite? ensures -Limit(n, c) <= pot[v] + dist[v].value <= Limit(n, c) {
        PotentialAt(n, c, Johnson.RolledPot(pot, dist), v);
      }
    }
  }

  lemma Scaled(a: int, b: int, m: nat)
    requires a <= b
    ensures a * m <= b * m
  {
  }

  lemma PriceTimesAmount(amount: nat, price: int, m: nat)
    requires -(m as int) <= price <= m
    ensures -((amount * m) as int) <= amount * price <= amount * m
  {
    Scaled(price, m, amount);
    Scaled(-(m as int), price, amount);
  }

  lemma SumTimes(a: int, b: int, m: int)
    ensures (a + b) * m == a * m + b * m
  {
  }

  lemma LongestTimes(n: nat, c: nat, capacity: nat)
    ensures capacity * Longest(n, c) <= capacity * n * c
  {
    if n > 0 {
      assert capacity * n * c == capacity * (n * c) && (n - 1) * c <= n * c;
      Scaled((n - 1) * c, n * c, capacity);
    }
  }

  lemma TotalsStep(n: nat, c: nat, capacity: nat, totalFlow: int, totalCost: int, amount: int, price: int)
    requires TotalsWithin(n, c, capacity, totalFlow, totalCost) && 1 <= n && 0 <= amount && totalFlow + amount <= capacity
    requires -Longest(n, c) <= price <= Longest(n, c)
    ensures TotalsWithin(n, c, capacity, totalFlow + amount, totalCost + amount * price)
    ensures -(capacity * n * c) <= amount * price <= capacity * n * c
    ensures -(capacity * n * c) <= totalCost + amount * price <= capacity * n * c
  {
    hide Longest;
    var m := Longest(n, c);
    PriceTimesAmount(amount, price, m);
    SumTimes(totalFlow, amount, m);
    Scaled(totalFlow + amount, capacity, m);
    Scaled(0, totalFlow, m);
    LongestTimes(n, c, capacity);
  }
}
