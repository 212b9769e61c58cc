/** Turning rider and driver positions into priced edges: every pair, or each rider's
    nearest drivers only. */
module CostMatrix {
  import opened Basics
  import opened MatchingNetwork
  import opened NearestTheory
  import opened QuadModel
  import opened QuadTree
  import opened OutsideQueries

  const COST_SCALE := 1000.0

  // ---- Rounding to integer units ------------------------------------------------------------

  /** `n` is the nearest integer to the square root of `v`, halves rounded up. */
  ghost predicate IsRoundedRoot(v: real, n: nat)
  {
    && v < (n as real + 0.5) * (n as real + 0.5)
    && (n > 0 ==> (n as real - 0.5) * (n as real - 0.5) <= v)
  }

  lemma RootBelow(v: real, n: nat)
    requires (n as real + 0.5) * (n as real + 0.5) <= v
    ensures n as real <= v
  {
    assert (n as real + 0.5) * (n as real + 0.5) == n as real * n as real + n as real + 0.25;
  }

  function RootFrom(v: real, n: nat): (r: nat)
    requires n > 0 ==> (n as real - 0.5) * (n as real - 0.5) <= v
    ensures IsRoundedRoot(v, r)
    decreases if v < n as real then 0 else v.Floor - n + 1
  {
    if v < (n as real + 0.5) * (n as real + 0.5) then n
    else
      RootBelow(v, n);
      RootFrom(v, n + 1)
  }

  lemma RoundedRootMonotone(v: real, m: nat, w: real, n: nat)
    requires v <= w && IsRoundedRoot(v, m) && IsRoundedRoot(w, n)
    ensures m <= n
  {
    var a, b := m as real - 0.5, n as real + 0.5;
    assert w < b * b && (m > 0 ==> a * a <= v);
    if m > n {
      SquareMonotone(b, a);
    }
  }

  /** `n` is a thousand times the length of (dx, dy), rounded to the nearest integer. */
  ghost predicate IsScaledLength(dx: real, dy: real, n: int)
  {
    && 0 <= n
    && 1000000.0 * (dx * dx + dy * dy) < (n as real + 0.5) * (n as real + 0.5)
    && (0 < n ==> (n as real - 0.5) * (n as real - 0.5) <= 1000000.0 * (dx * dx + dy * dy))
  }

  /** There is only one such number. */
  lemma ScaledLengthIsUnique(dx: real, dy: real, m: int, n: int)
    requires IsScaledLength(dx, dy, m) && IsScaledLength(dx, dy, n)
    ensures m == n
  {
    if m < n {
      SquareMonotone(m as real + 0.5, n as real - 0.5);
    } else if n < m {
      SquareMonotone(n as real + 0.5, m as real - 0.5);
    }
  }

  /** The price of a pair in terms of its coordinates. */
  ghost predicate CostsItsLength(riders: seq<Point>, drivers: seq<Point>, e: MatchEdge)
  {
    && MatchingNetwork.InRange(|riders|, |drivers|, e)
    && IsScaledLength(riders[e.rider].x - drivers[e.driver].x, riders[e.rider].y - drivers[e.driver].y, e.cost)
  }

  lemma PricedByLength(riders: seq<Point>, drivers: seq<Point>, e: MatchEdge)
    requires Priced(riders, drivers, e)
    ensures CostsItsLength(riders, drivers, e)
  {
    hide RootFrom;
    var a, b := riders[e.rider], drivers[e.driver];
    var dx, dy := a.x - b.x, a.y - b.y;
    assert IsRoundedRoot(DistSq(a.x, a.y, b) * (COST_SCALE * COST_SCALE), e.cost);
    SameSquare(b.x - a.x, dx);
    SameSquare(b.y - a.y, dy);
    assert DistSq(a.x, a.y, b) == dx * dx + dy * dy;
    assert COST_SCALE * COST_SCALE == 1000000.0;
  }

  lemma SameSquare(x: real, y: real)
    requires x == -y
    ensures x * x == y * y
  {
  }

  /** The distance in scaled integer units. */
  function ScaledDistance(a: Point, b: Point): nat
  {
    RootFrom(DistSq(a.x, a.y, b) * (COST_SCALE * COST_SCALE), 0)
  }

  lemma NearerCostsNoMore(a: Point, b: Point, c: Point)
    requires DistSq(a.x, a.y, b) <= DistSq(a.x, a.y, c)
    ensures ScaledDistance(a, b) <= ScaledDistance(a, c)
  {
    var v, w := DistSq(a.x, a.y, b) * (COST_SCALE * COST_SCALE), DistSq(a.x, a.y, c) * (COST_SCALE * COST_SCALE);
    RoundedRootMonotone(v, RootFrom(v, 0), w, RootFrom(w, 0));
  }

  // ---- Edge lists ------------------------------------------------------------------------------

  /** No pair is offered twice. */
  ghost predicate PairsOnce(edges: seq<MatchEdge>)
  {
    forall a, b :: 0 <= a < b < |edges| ==> edges[a].rider != edges[b].rider || edges[a].driver != edges[b].driver
  }

  ghost predicate Priced(riders: seq<Point>, drivers: seq<Point>, e: MatchEdge)
  {
    MatchingNetwork.InRange(|riders|, |drivers|, e) && e.cost == ScaledDistance(riders[e.rider], drivers[e.driver])
  }

  ghost predicate IsDense(riders: seq<Point>, drivers: seq<Point>, edges: seq<MatchEdge>)
  {
    && PairsOnce(edges)
    && forall e :: e in edges <==> Priced(riders, drivers, e)
  }

  /** Every pair exactly once, at its scaled distance. */
  method BuildDenseEdges(riders: seq<Point>, drivers: seq<Point>) returns (edges: seq<MatchEdge>)
    ensures IsDense(riders, drivers, edges)
    ensures forall e :: e in edges ==> CostsItsLength(riders, drivers, e)
  {
    hide ScaledDistance;
    edges := [];
    for i := 0 to |riders|
      invariant PairsOnce(edges)
      invariant forall e :: e in edges <==> Priced(riders, drivers, e) && e.rider < i
    {
      for j := 0 to |drivers|
        invariant PairsOnce(edges)
        invariant forall e :: e in edges <==> Priced(riders, drivers, e) && (e.rider < i || (e.rider == i && e.driver < j))
      {
        ghost var before := edges;
        edges := edges + [MatchEdge(i, j, ScaledDistance(riders[i], drivers[j]))];
        PairAdded(before, MatchEdge(i, j, ScaledDistance(riders[i], drivers[j])));
      }
    }
    DenseByLength(riders, drivers, edges);
  }

  lemma DenseByLength(riders: seq<Point>, drivers: seq<Point>, edges: seq<MatchEdge>)
    requires forall e :: e in edges ==> Priced(riders, drivers, e)
    ensures forall e :: e in edges ==> CostsItsLength(riders, drivers, e)
  {
    hide Priced, CostsItsLength;
    forall e | e in edges ensures CostsItsLength(riders, drivers, e) {
      PricedByLength(riders, drivers, e);
    }
  }

  lemma PairAdded(edges: seq<MatchEdge>, e: MatchEdge)
    requires PairsOnce(edges) && forall d :: d in edges ==> d.rider != e.rider || d.driver != e.driver
    ensures PairsOnce(edges + [e])
  {
    forall a, b | 0 <= a < b < |edges + [e]|
      ensures (edges + [e])[a].rider != (edges + [e])[b].rider || (edges + [e])[a].driver != (edges + [e])[b].driver
    {
      assert edges[a] in edges;
    }
  }

  // ---- Indexing the drivers ----------------------------------------------------------------------

  /** The driver as stored in the tree: its index is the point's id. */
  function Tagged(drivers: seq<Point>, j: nat): Point
    requires j < |drivers|
  {
    Point(j, drivers[j].x, drivers[j].y)
  }

  ghost function DriversIn(drivers: seq<Point>, box: Box, m: nat): set<int>
    requires m <= |drivers|
  {
    set j | 0 <= j < m && box.Contains(drivers[j])
  }

  ghost function TaggedIn(drivers: seq<Point>, box: Box, m: nat): set<Point>
    requires m <= |drivers|
  {
    set j | 0 <= j < m && box.Contains(drivers[j]) :: Tagged(drivers, j)
  }

  lemma TaggedStep(drivers: seq<Point>, box: Box, m: nat)
    requires m < |drivers|
    ensures DriversIn(drivers, box, m + 1) == DriversIn(drivers, box, m) + if box.Contains(drivers[m]) then {m} else {}
    ensures TaggedIn(drivers, box, m + 1)
         == TaggedIn(drivers, box, m) + if box.Contains(drivers[m]) then {Tagged(drivers, m)} else {}
    ensures m !in DriversIn(drivers, box, m) && Tagged(drivers, m) !in TaggedIn(drivers, box, m)
  {
  }

  lemma {:induction false} TaggedSize(drivers: seq<Point>, box: Box, m: nat)
    requires m <= |drivers|
    ensures |TaggedIn(drivers, box, m)| == |DriversIn(drivers, box, m)|
  {
    hide TaggedIn, DriversIn;
    if m == 0 {
      EmptyIndex(drivers, box);
    } else {
      TaggedSize(drivers, box, m - 1);
      TaggedStep(drivers, box, m - 1);
    }
  }

  /** The tree holds exactly the drivers inside its box, each once, under its index. */
  method IndexDrivers(drivers: seq<Point>, box: Box) returns (t: QuadTree)
    ensures fresh(t.Repr) && t.Valid() && WellFormed(t.tree) && t.tree.box == t.boundary == box
    ensures Contents(t.tree) == multiset(TaggedIn(drivers, box, |drivers|))
  {
    hide WellFormed, Contents, QuadModel.Insert, QuadTree.Valid, TaggedIn, Tagged, Box.ContainsXY;
    t := new QuadTree(box, 4, 0);
    EmptyLeaf(box, 4, 0);
    EmptyIndex(drivers, box);
    t.SameBoundary();
    for j := 0 to |drivers|
      invariant fresh(t.Repr) && t.Valid() && WellFormed(t.tree) && t.tree.box == box
      invariant Contents(t.tree) == multiset(TaggedIn(drivers, box, j))
    {
      InsertCorrect(t.tree, Tagged(drivers, j));
      BagStep(drivers, box, j);
      var _ := t.Insert(Tagged(drivers, j));
    }
    t.SameBoundary();
  }

  lemma BagStep(drivers: seq<Point>, box: Box, m: nat)
    requires m < |drivers|
    ensures var before := multiset(TaggedIn(drivers, box, m));
            multiset(TaggedIn(drivers, box, m + 1))
            == if box.Contains(Tagged(drivers, m)) then before + multiset{Tagged(drivers, m)} else before
  {
    hide TaggedIn;
    TaggedStep(drivers, box, m);
  }

  lemma EmptyLeaf(box: Box, capacity: int, depth: nat)
    requires 1 <= capacity
    ensures WellFormed(Leaf(box, capacity, depth, [])) && Contents(Leaf(box, capacity, depth, [])) == multiset{}
  {
  }

  lemma EmptyIndex(drivers: seq<Point>, box: Box)
    ensures TaggedIn(drivers, box, 0) == {} && DriversIn(drivers, box, 0) == {}
  {
  }

  // ---- Shortlists ----------------------------------------------------------------------------------

  ghost function Ids(ps: seq<Point>): set<int>
  {
    set p | p in ps :: p.id
  }

  ghost predicate DistinctIds(ps: seq<Point>)
  {
    forall a, b :: 0 <= a < b < |ps| ==> ps[a].id != ps[b].id
  }

  lemma {:induction false} IdsSize(ps: seq<Point>)
    requires DistinctIds(ps)
    ensures |Ids(ps)| == |ps|
  {
    if ps == [] {
      assert Ids(ps) == {};
    } else {
      var last := ps[|ps| - 1];
      var init := ps[..|ps| - 1];
      IdsSize(init);
      assert ps == init + [last];
      assert Ids(ps) == Ids(init) + {last.id};
      assert last.id !in Ids(init);
    }
  }

  lemma TwiceCounted(ps: seq<Point>, a: nat, b: nat)
    requires a < b < |ps| && ps[a] == ps[b]
    ensures multiset(ps)[ps[a]] >= 2
  {
    assert ps == ps[..b] + [ps[b]] + ps[b + 1..];
    assert ps[a] in ps[..b];
  }

  /** Points picked from the index carry distinct driver indices. */
  lemma PickedAreDistinct(drivers: seq<Point>, box: Box, ps: seq<Point>)
    requires multiset(ps) <= multiset(TaggedIn(drivers, box, |drivers|))
    ensures DistinctIds(ps)
    ensures forall c :: 0 <= c < |ps| ==> ps[c].id in DriversIn(drivers, box, |drivers|) && ps[c] == Tagged(drivers, ps[c].id)
  {
    var bag := multiset(TaggedIn(drivers, box, |drivers|));
    forall c | 0 <= c < |ps|
      ensures ps[c].id in DriversIn(drivers, box, |drivers|) && ps[c] == Tagged(drivers, ps[c].id)
    {
      assert ps[c] in multiset(ps);
      assert ps[c] in bag;
    }
    forall a, b | 0 <= a < b < |ps| ensures ps[a].id != ps[b].id {
      if ps[a].id == ps[b].id {
        TwiceCounted(ps, a, b);
      }
    }
  }

  /** `chosen` is the `k` (or all, if fewer) of `among` nearest to the rider. */
  ghost predicate IsShortlist(rider: Point, drivers: seq<Point>, among: set<int>, k: nat, chosen: set<int>)
    requires forall j :: j in among ==> 0 <= j < |drivers|
  {
    && chosen <= among
    && |chosen| == (if |among| < k then |among| else k)
    && forall c, j :: c in chosen && j in among - chosen ==>
         DistSq(rider.x, rider.y, drivers[c]) <= DistSq(rider.x, rider.y, drivers[j])
  }

  /** The k nearest of the indexed drivers in a box, read back as driver indices. */
  lemma NearestIsShortlist(bag: multiset<Point>, rider: Point, drivers: seq<Point>, box: Box, k: nat, ps: seq<Point>)
    requires bag == multiset(TaggedIn(drivers, box, |drivers|)) && IsKNearestOf(bag, rider.x, rider.y, k, ps)
    ensures IsShortlist(rider, drivers, DriversIn(drivers, box, |drivers|), k, Ids(ps))
  {
    hide TaggedIn, IsKNearestOf, SortedByDistance, DistSq;
    var among := DriversIn(drivers, box, |drivers|);
    KNearestSize(bag, rider.x, rider.y, k, ps);
    PickedAreDistinct(drivers, box, ps);
    IdsSize(ps);
    TaggedSize(drivers, box, |drivers|);
    forall c, j | c in Ids(ps) && j in among - Ids(ps)
      ensures DistSq(rider.x, rider.y, drivers[c]) <= DistSq(rider.x, rider.y, drivers[j])
    {
      PickedIsNearer(bag, rider, drivers, box, k, ps, c, j);
    }
  }

  lemma KNearestSize(bag: multiset<Point>, x: real, y: real, k: nat, ps: seq<Point>)
    requires IsKNearestOf(bag, x, y, k, ps)
    ensures |ps| == (if |bag| < k then |bag| else k) && multiset(ps) <= bag
  {
  }

  lemma PickedIsNearer(bag: multiset<Point>, rider: Point, drivers: seq<Point>, box: Box, k: nat, ps: seq<Point>, c: int, j: int)
    requires bag == multiset(TaggedIn(drivers, box, |drivers|)) && IsKNearestOf(bag, rider.x, rider.y, k, ps)
    requires c in Ids(ps) && c in DriversIn(drivers, box, |drivers|)
    requires j in DriversIn(drivers, box, |drivers|) && j !in Ids(ps)
    ensures DistSq(rider.x, rider.y, drivers[c]) <= DistSq(rider.x, rider.y, drivers[j])
  {
    hide DistSq, SortedByDistance, Box.ContainsXY;
    PickedAreDistinct(drivers, box, ps);
    var i :| 0 <= i < |ps| && ps[i].id == c;
    var q := Tagged(drivers, j);
    assert q in TaggedIn(drivers, box, |drivers|);
    assert q !in ps;
    assert q in bag - multiset(ps);
    TaggedDistance(rider, drivers, c);
    TaggedDistance(rider, drivers, j);
  }

  lemma TaggedDistance(rider: Point, drivers: seq<Point>, j: nat)
    requires j < |drivers|
    ensures DistSq(rider.x, rider.y, Tagged(drivers, j)) == DistSq(rider.x, rider.y, drivers[j])
  {
  }

  ghost function Shortlisted(edges: seq<MatchEdge>, i: int): set<int>
  {
    set e | e in edges && e.rider == i :: e.driver
  }

  lemma ShortlistedAppend(edges: seq<MatchEdge>, row: seq<MatchEdge>, i: int)
    ensures Shortlisted(edges + row, i) == Shortlisted(edges, i) + Shortlisted(row, i)
  {
  }

  // ---- The sparse builder -----------------------------------------------------------------------------

  function World(gridSize: real): Box
  {
    Box(gridSize / 2.0, gridSize / 2.0, gridSize / 2.0, gridSize / 2.0)
  }

  /** The drivers that the search from the rider gets to see. */
  ghost function SeenDrivers(rider: Point, drivers: seq<Point>, box: Box): set<int>
  {
    DriversIn(drivers, SeenBox(box, rider.x, rider.y), |drivers|)
  }

  /** One rider's edges: to the nearest of the drivers it sees. */
  ghost predicate RowShortlisted(riders: seq<Point>, drivers: seq<Point>, box: Box, k: nat, edges: seq<MatchEdge>, i: nat)
    requires i < |riders|
  {
    IsShortlist(riders[i], drivers, SeenDrivers(riders[i], drivers, box), k, Shortlisted(edges, i))
  }

  /** All of them are on the world, and they are all those on it where the search covers it. */
  lemma SeenAreInside(rider: Point, drivers: seq<Point>, box: Box)
    ensures SeenDrivers(rider, drivers, box) <= DriversIn(drivers, box, |drivers|)
    ensures FullyInReach(box, rider.x, rider.y) ==> SeenDrivers(rider, drivers, box) == DriversIn(drivers, box, |drivers|)
  {
    hide FullyInReach, Box.ContainsXY, Overlap, OutsideRadius;
    forall j | 0 <= j < |drivers|
      ensures SeenBox(box, rider.x, rider.y).Contains(drivers[j]) ==> box.Contains(drivers[j])
    {
      OverlapHolds(box, SearchBox(rider.x, rider.y, OutsideRadius(box)), drivers[j]);
    }
    SeesWholeBox(box, rider.x, rider.y);
  }

  ghost predicate SparseUpTo(riders: seq<Point>, drivers: seq<Point>, box: Box, k: nat, edges: seq<MatchEdge>, m: nat)
    requires m <= |riders|
  {
    && PairsOnce(edges)
    && (forall e :: e in edges ==> Priced(riders, drivers, e) && e.rider < m)
    && (forall i: nat :: i < m ==> RowShortlisted(riders, drivers, box, k, edges, i))
  }

  /** What the sparse builder promises, for riders and drivers anywhere. */
  ghost predicate IsSparse(riders: seq<Point>, drivers: seq<Point>, box: Box, k: nat, edges: seq<MatchEdge>)
  {
    SparseUpTo(riders, drivers, box, k, edges, |riders|)
  }

  function Row(rider: Point, i: nat, nearest: seq<Point>): seq<MatchEdge>
  {
    seq(|nearest|, c requires 0 <= c < |nearest| => MatchEdge(i, nearest[c].id, ScaledDistance(rider, nearest[c])))
  }

  lemma RowIds(rider: Point, i: nat, nearest: seq<Point>)
    ensures Shortlisted(Row(rider, i, nearest), i) == Ids(nearest)
    ensures forall h: nat :: h != i ==> Shortlisted(Row(rider, i, nearest), h) == {}
  {
    hide ScaledDistance;
    var row := Row(rider, i, nearest);
    forall j | j in Ids(nearest) ensures j in Shortlisted(row, i) {
      var c :| 0 <= c < |nearest| && nearest[c].id == j;
      assert row[c] in row;
    }
  }

  lemma SamePlace(a: Point, drivers: seq<Point>, j: nat)
    requires j < |drivers|
    ensures ScaledDistance(a, Tagged(drivers, j)) == ScaledDistance(a, drivers[j])
  {
    hide RootFrom, DistSq;
    TaggedDistance(a, drivers, j);
  }

  lemma RowPriced(riders: seq<Point>, drivers: seq<Point>, box: Box, i: nat, nearest: seq<Point>)
    requires i < |riders| && multiset(nearest) <= multiset(TaggedIn(drivers, box, |drivers|))
    ensures forall e :: e in Row(riders[i], i, nearest) ==> Priced(riders, drivers, e) && e.rider == i
    ensures PairsOnce(Row(riders[i], i, nearest))
    ensures Ids(nearest) <= DriversIn(drivers, box, |drivers|)
  {
    hide ScaledDistance;
    PickedAreDistinct(drivers, box, nearest);
    var row := Row(riders[i], i, nearest);
    forall e | e in row ensures Priced(riders, drivers, e) && e.rider == i {
      var c :| 0 <= c < |row| && row[c] == e;
      SamePlace(riders[i], drivers, nearest[c].id);
    }
  }

  lemma RowsApart(edges: seq<MatchEdge>, row: seq<MatchEdge>, i: int)
    requires PairsOnce(edges) && PairsOnce(row)
    requires (forall e :: e in edges ==> e.rider < i) && forall e :: e in row ==> e.rider == i
    ensures PairsOnce(edges + row)
  {
    forall a, b | 0 <= a < b < |edges + row|
      ensures (edges + row)[a].rider != (edges + row)[b].rider || (edges + row)[a].driver != (edges + row)[b].driver
    {
      assert a < |edges| ==> edges[a] in edges;
      assert b >= |edges| ==> row[b - |edges|] in row;
    }
  }

  lemma SeenAreTagged(t: Tree, rider: Point, drivers: seq<Point>)
    requires WellFormed(t) && Contents(t) == multiset(TaggedIn(drivers, t.box, |drivers|))
    ensures Seen(t, rider.x, rider.y) == multiset(TaggedIn(drivers, SeenBox(t.box, rider.x, rider.y), |drivers|))
  {
    hide WellFormed, Contents, Seen;
    var seen := SeenBox(t.box, rider.x, rider.y);
    forall q ensures Seen(t, rider.x, rider.y)[q] == multiset(TaggedIn(drivers, seen, |drivers|))[q] {
      SeenIsInBox(t, rider.x, rider.y, q);
      TaggedTwice(drivers, t.box, seen, q);
      OverlapHolds(t.box, SearchBox(rider.x, rider.y, OutsideRadius(t.box)), q);
    }
  }

  lemma TaggedTwice(drivers: seq<Point>, box: Box, part: Box, q: Point)
    ensures q in TaggedIn(drivers, box, |drivers|) && part.Contains(q) ==> q in TaggedIn(drivers, part, |drivers|)
    ensures q in TaggedIn(drivers, part, |drivers|) ==> part.Contains(q) && (box.Contains(q) ==> q in TaggedIn(drivers, box, |drivers|))
  {
  }

  lemma SparseStep(riders: seq<Point>, drivers: seq<Point>, box: Box, k: nat, edges: seq<MatchEdge>, i: nat,
                   t: Tree, nearest: seq<Point>)
    requires i < |riders| && SparseUpTo(riders, drivers, box, k, edges, i)
    requires WellFormed(t) && t.box == box && Contents(t) == multiset(TaggedIn(drivers, box, |drivers|))
    requires IsKNearestOf(Seen(t, riders[i].x, riders[i].y), riders[i].x, riders[i].y, k, nearest) && multiset(nearest) <= Contents(t)
    ensures SparseUpTo(riders, drivers, box, k, edges + Row(riders[i], i, nearest), i + 1)
  {
    hide WellFormed, Contents, IsKNearestOf, Seen, DriversIn, ScaledDistance, TaggedIn, IsShortlist, Row;
    var row := Row(riders[i], i, nearest);
    RowPriced(riders, drivers, box, i, nearest);
    RowsApart(edges, row, i);
    RowIds(riders[i], i, nearest);
    assert Shortlisted(edges, i) == {};
    forall h: nat | h <= i ensures RowShortlisted(riders, drivers, box, k, edges + row, h) {
      ShortlistedAppend(edges, row, h);
      if h < i {
        assert RowShortlisted(riders, drivers, box, k, edges, h);
        assert Shortlisted(edges + row, h) == Shortlisted(edges, h);
      } else {
        assert Shortlisted(edges + row, i) == Ids(nearest);
        SeenAreTagged(t, riders[i], drivers);
        NearestIsShortlist(Seen(t, riders[i].x, riders[i].y), riders[i], drivers, SeenBox(box, riders[i].x, riders[i].y), k, nearest);
      }
    }
  }

  /** Each rider against its nearest drivers only.  Drivers outside the square world are
      never indexed, so they are never offered. */
  method BuildSparseEdges(riders: seq<Point>, drivers: seq<Point>, k: int, gridSize: real) returns (edges: seq<MatchEdge>)
    ensures IsSparse(riders, drivers, World(gridSize), if k <= 0 then 0 else k, edges)
    ensures forall e :: e in edges ==> CostsItsLength(riders, drivers, e)
  {
    hide Contents, IsKNearest, ScaledDistance, TaggedIn, SparseUpTo, WellFormed, QuadTree.Valid, Row, Covers, IsKNearestOf, Seen;
    edges := [];
    if drivers == [] || k <= 0 {
      NobodyShortlisted(riders, drivers, World(gridSize), if k <= 0 then 0 else k);
      return;
    }
    var driverTree := IndexDrivers(drivers, World(gridSize));
    NothingYet(riders, drivers, World(gridSize), k);
    for i := 0 to |riders|
      invariant driverTree.Valid() && WellFormed(driverTree.tree) && driverTree.tree.box == World(gridSize)
      invariant Contents(driverTree.tree) == multiset(TaggedIn(drivers, World(gridSize), |drivers|))
      invariant SparseUpTo(riders, drivers, World(gridSize), k, edges, i)
    {
      var nearest := driverTree.KNearest(riders[i].x, riders[i].y, k);
      SelectionStored(driverTree.tree, riders[i].x, riders[i].y, k, nearest);
      SparseStep(riders, drivers, World(gridSize), k, edges, i, driverTree.tree, nearest);
      var row := PriceRow(riders[i], i, nearest);
      edges := edges + row;
    }
    SparseByLength(riders, drivers, World(gridSize), k, edges);
  }

  lemma SparseByLength(riders: seq<Point>, drivers: seq<Point>, box: Box, k: nat, edges: seq<MatchEdge>)
    requires IsSparse(riders, drivers, box, k, edges)
    ensures forall e :: e in edges ==> CostsItsLength(riders, drivers, e)
  {
    hide Priced, CostsItsLength, RowShortlisted;
    DenseByLength(riders, drivers, edges);
  }

  lemma SelectionStored(t: Tree, x: real, y: real, k: nat, ps: seq<Point>)
    requires IsSortedSelection(t, x, y, k, ps)
    ensures multiset(ps) <= Contents(t)
  {
  }

  method PriceRow(rider: Point, i: nat, nearest: seq<Point>) returns (row: seq<MatchEdge>)
    ensures row == Row(rider, i, nearest)
  {
    hide ScaledDistance;
    row := [];
    for c := 0 to |nearest|
      invariant |row| == c
      invariant forall q :: 0 <= q < c ==> row[q] == MatchEdge(i, nearest[q].id, ScaledDistance(rider, nearest[q]))
    {
      row := row + [MatchEdge(i, nearest[c].id, ScaledDistance(rider, nearest[c]))];
    }
  }

  lemma NothingYet(riders: seq<Point>, drivers: seq<Point>, box: Box, k: nat)
    ensures SparseUpTo(riders, drivers, box, k, [], 0)
  {
  }

  lemma NobodyShortlisted(riders: seq<Point>, drivers: seq<Point>, box: Box, k: nat)
    requires drivers == [] || k == 0
    ensures IsSparse(riders, drivers, box, k, [])
  {
    forall i: nat | i < |riders| ensures RowShortlisted(riders, drivers, box, k, [], i) {
      assert Shortlisted([], i) == {};
      assert drivers == [] ==> SeenDrivers(riders[i], drivers, box) == {};
    }
  }

  // ---- What shortlisting promises ------------------------------------------------------------------------

  /** A rider keeps the `k` cheapest of its dense edges: as many as there are, up to `k`,
      and none that was dropped is cheaper than one that was kept. */
  ghost predicate KeepsCheapest(dense: seq<MatchEdge>, sparse: seq<MatchEdge>, i: nat, drivers: nat, k: nat)
  {
    && |Shortlisted(sparse, i)| == (if drivers < k then drivers else k)
    && (forall e :: e in sparse && e.rider == i ==> e in dense)
    && (forall e, d :: e in sparse && e.rider == i && d in dense && d.rider == i && d !in sparse ==> e.cost <= d.cost)
  }

  ghost predicate AllInside(ps: seq<Point>, box: Box)
  {
    forall i :: 0 <= i < |ps| ==> box.Contains(ps[i])
  }

  ghost function Everyone(m: nat): (r: set<int>)
    ensures (forall j :: j in r <==> 0 <= j < m) && |r| == m
  {
    if m == 0 then {} else Everyone(m - 1) + {m - 1}
  }

  // ---- Exactly when nothing cheaper is lost ----------------------------------------------------------------

  /** The seen drivers that cost the rider no more than driver `j`. */
  ghost function NoDearer(rider: Point, drivers: seq<Point>, seen: set<int>, j: int): set<int>
    requires 0 <= j < |drivers| && forall c :: c in seen ==> 0 <= c < |drivers|
  {
    set c | c in seen && ScaledDistance(rider, drivers[c]) <= ScaledDistance(rider, drivers[j])
  }

  /** Each driver that is not seen has `k` seen ones that are no dearer. */
  ghost predicate UnseenAreReplaceable(rider: Point, drivers: seq<Point>, seen: set<int>, k: nat)
    requires forall c :: c in seen ==> 0 <= c < |drivers|
  {
    forall j :: 0 <= j < |drivers| && j !in seen ==> k <= |NoDearer(rider, drivers, seen, j)|
  }

  /** A rider keeps its cheapest dense edges exactly when every driver that its search does
      not see has k others that it does see and that cost no more. */
  lemma KeepsCheapestExactlyWhen(riders: seq<Point>, drivers: seq<Point>, box: Box, k: nat,
                                 dense: seq<MatchEdge>, sparse: seq<MatchEdge>, i: nat)
    requires IsDense(riders, drivers, dense) && IsSparse(riders, drivers, box, k, sparse) && i < |riders|
    ensures KeepsCheapest(dense, sparse, i, |drivers|, k)
       <==> UnseenAreReplaceable(riders[i], drivers, SeenDrivers(riders[i], drivers, box), k)
  {
    hide ScaledDistance, SeenBox, IsShortlist, Box.ContainsXY, UnseenAreReplaceable, KeepsCheapest, SparseUpTo, IsDense;
    var seen := SeenDrivers(riders[i], drivers, box);
    RowOf(riders, drivers, box, k, sparse, i);
    if KeepsCheapest(dense, sparse, i, |drivers|, k) {
      KeptMeansReplaceable(riders, drivers, k, dense, sparse, i, seen);
    }
    if UnseenAreReplaceable(riders[i], drivers, seen, k) {
      ReplaceableMeansKept(riders, drivers, k, dense, sparse, i, seen);
    }
  }

  lemma RowOf(riders: seq<Point>, drivers: seq<Point>, box: Box, k: nat, sparse: seq<MatchEdge>, i: nat)
    requires IsSparse(riders, drivers, box, k, sparse) && i < |riders|
    ensures IsShortlist(riders[i], drivers, SeenDrivers(riders[i], drivers, box), k, Shortlisted(sparse, i))
    ensures Shortlisted(sparse, i) <= SeenDrivers(riders[i], drivers, box)
    ensures forall e :: e in sparse ==> Priced(riders, drivers, e)
  {
    hide SeenDrivers, ScaledDistance;
    assert RowShortlisted(riders, drivers, box, k, sparse, i);
  }

  /** Edges of one rider, read through their drivers. */
  lemma ByDriver(riders: seq<Point>, drivers: seq<Point>, dense: seq<MatchEdge>, sparse: seq<MatchEdge>, i: nat, j: int)
    requires i < |riders| && 0 <= j < |drivers| && IsDense(riders, drivers, dense)
    requires forall e :: e in sparse ==> Priced(riders, drivers, e)
    ensures var d := MatchEdge(i, j, ScaledDistance(riders[i], drivers[j]));
            d in dense && (j in Shortlisted(sparse, i) <==> d in sparse)
  {
    hide ScaledDistance;
    var d := MatchEdge(i, j, ScaledDistance(riders[i], drivers[j]));
    assert Priced(riders, drivers, d);
    if j in Shortlisted(sparse, i) {
      var e :| e in sparse && e.rider == i && e.driver == j;
      assert Priced(riders, drivers, e);
      assert e == d;
    }
  }

  lemma KeptMeansReplaceable(riders: seq<Point>, drivers: seq<Point>, k: nat,
                             dense: seq<MatchEdge>, sparse: seq<MatchEdge>, i: nat, seen: set<int>)
    requires IsDense(riders, drivers, dense) && i < |riders| && (forall e :: e in sparse ==> Priced(riders, drivers, e))
    requires forall c :: c in seen ==> 0 <= c < |drivers|
    requires Shortlisted(sparse, i) <= seen && KeepsCheapest(dense, sparse, i, |drivers|, k)
    ensures UnseenAreReplaceable(riders[i], drivers, seen, k)
  {
    hide ScaledDistance, Shortlisted, IsDense;
    var chosen := Shortlisted(sparse, i);
    forall j | 0 <= j < |drivers| && j !in seen ensures k <= |NoDearer(riders[i], drivers, seen, j)| {
      assert chosen <= Everyone(|drivers|) - {j};
      SubsetSize(chosen, Everyone(|drivers|) - {j});
      ByDriver(riders, drivers, dense, sparse, i, j);
      forall c | c in chosen ensures c in NoDearer(riders[i], drivers, seen, j) {
        ByDriver(riders, drivers, dense, sparse, i, c);
      }
      SubsetSize(chosen, NoDearer(riders[i], drivers, seen, j));
    }
  }

  lemma ReplaceableMeansKept(riders: seq<Point>, drivers: seq<Point>, k: nat,
                             dense: seq<MatchEdge>, sparse: seq<MatchEdge>, i: nat, seen: set<int>)
    requires IsDense(riders, drivers, dense) && i < |riders| && (forall e :: e in sparse ==> Priced(riders, drivers, e))
    requires forall c :: c in seen ==> 0 <= c < |drivers|
    requires IsShortlist(riders[i], drivers, seen, k, Shortlisted(sparse, i)) && UnseenAreReplaceable(riders[i], drivers, seen, k)
    ensures KeepsCheapest(dense, sparse, i, |drivers|, k)
  {
    hide ScaledDistance, Shortlisted, IsShortlist, UnseenAreReplaceable;
    var chosen := Shortlisted(sparse, i);
    EnoughSeen(riders[i], drivers, seen, k);
    assert |chosen| == (if |drivers| < k then |drivers| else k) by { ShortlistSize(riders[i], drivers, seen, k, chosen); }
    forall e | e in sparse && e.rider == i ensures e in dense {
      assert Priced(riders, drivers, e);
    }
    forall e, d | e in sparse && e.rider == i && d in dense && d.rider == i && d !in sparse ensures e.cost <= d.cost {
      assert Priced(riders, drivers, e) && Priced(riders, drivers, d);
      ByDriver(riders, drivers, dense, sparse, i, e.driver);
      ByDriver(riders, drivers, dense, sparse, i, d.driver);
      assert d == MatchEdge(i, d.driver, ScaledDistance(riders[i], drivers[d.driver]));
      assert e == MatchEdge(i, e.driver, ScaledDistance(riders[i], drivers[e.driver]));
      ChosenIsNoDearer(riders[i], drivers, seen, k, chosen, e.driver, d.driver);
    }
  }

  lemma ShortlistSize(rider: Point, drivers: seq<Point>, among: set<int>, k: nat, chosen: set<int>)
    requires (forall j :: j in among ==> 0 <= j < |drivers|) && IsShortlist(rider, drivers, among, k, chosen)
    ensures |chosen| == (if |among| < k then |among| else k)
  {
  }

  lemma EnoughSeen(rider: Point, drivers: seq<Point>, seen: set<int>, k: nat)
    requires (forall c :: c in seen ==> 0 <= c < |drivers|) && UnseenAreReplaceable(rider, drivers, seen, k)
    ensures |seen| <= |drivers| && (|seen| == |drivers| || k <= |seen|)
    ensures k <= |seen| ==> |seen| == |drivers| || k <= |drivers|
  {
    hide ScaledDistance;
    var all := Everyone(|drivers|);
    SubsetSize(seen, all);
    if seen != all {
      var j :| j in all && j !in seen;
      SubsetSize(NoDearer(rider, drivers, seen, j), seen);
    }
  }

  /** A chosen driver costs no more than any that was not chosen, seen or not. */
  lemma ChosenIsNoDearer(rider: Point, drivers: seq<Point>, seen: set<int>, k: nat, chosen: set<int>, c: int, j: int)
    requires (forall x :: x in seen ==> 0 <= x < |drivers|) && IsShortlist(rider, drivers, seen, k, chosen)
    requires UnseenAreReplaceable(rider, drivers, seen, k) && c in chosen && 0 <= j < |drivers| && j !in chosen
    ensures ScaledDistance(rider, drivers[c]) <= ScaledDistance(rider, drivers[j])
  {
    hide ScaledDistance, DistSq;
    if j in seen {
      NearerCostsNoMore(rider, drivers[c], drivers[j]);
    } else {
      var cheap := NoDearer(rider, drivers, seen, j);
      if c !in cheap {
        if cheap <= chosen {
          SubsetSize(cheap, chosen - {c});
        }
        var x :| x in cheap && x !in chosen;
        NearerCostsNoMore(rider, drivers[c], drivers[x]);
      }
    }
  }

  /** With all drivers inside the world, a rider whose search covers the world gets its
      min(k, M) cheapest dense edges. */
  lemma SparseKeepsCheapest(riders: seq<Point>, drivers: seq<Point>, box: Box, k: nat,
                            dense: seq<MatchEdge>, sparse: seq<MatchEdge>, i: nat)
    requires IsDense(riders, drivers, dense) && IsSparse(riders, drivers, box, k, sparse)
    requires AllInside(drivers, box) && i < |riders| && FullyInReach(box, riders[i].x, riders[i].y)
    ensures KeepsCheapest(dense, sparse, i, |drivers|, k)
  {
    hide ScaledDistance, FullyInReach, SeenDrivers, KeepsCheapest, IsDense, SparseUpTo;
    SeenAreInside(riders[i], drivers, box);
    KeepsCheapestExactlyWhen(riders, drivers, box, k, dense, sparse, i);
  }

  /** A driver outside the world is offered to nobody, however near it is. */
  lemma OutsideIsNeverOffered(riders: seq<Point>, drivers: seq<Point>, box: Box, k: nat, edges: seq<MatchEdge>, e: MatchEdge)
    requires IsSparse(riders, drivers, box, k, edges) && e in edges
    ensures 0 <= e.driver < |drivers| && box.Contains(drivers[e.driver])
  {
    hide ScaledDistance, SeenDrivers;
    assert Priced(riders, drivers, e);
    SeenAreInside(riders[e.rider], drivers, box);
    assert RowShortlisted(riders, drivers, box, k, edges, e.rider);
    assert e.driver in Shortlisted(edges, e.rider);
  }
}
