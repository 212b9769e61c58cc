/** Exactly when the growing-box searches keep their promises for a query outside the root
    box: the k-nearest search when its last box covers the root box, the nearest-neighbour
    search when its last radius reaches the farthest corner. */
module OutsideQueries {
  import opened QuadModel
  import opened NearestTheory
  import opened QuadTree

  /** Whatever a tree over this box stores, an answer allowed from here is the `k` nearest of
      all stored points. */
  ghost predicate AlwaysKNearest(b: Box, x: real, y: real, k: nat)
  {
    forall t, r :: WellFormed(t) && t.box == b && IsKNearestOf(Seen(t, x, y), x, y, k, r) ==> IsKNearest(t, x, y, k, r)
  }

  /** Whatever a tree over this box stores, an empty answer from here means that nothing
      eligible is stored. */
  ghost predicate NoneMeansNone(b: Box, x: real, y: real, excludeId: int)
  {
    forall t :: WellFormed(t) && t.box == b && NoneInReach(t, x, y, excludeId) ==> NoneEligible(t, excludeId)
  }

  // ---- The last radius is a function of the box ------------------------------------------------

  function OutsideRadius(b: Box): real
  {
    RadiusReaching(StartRadius(Larger(b.hw, b.hh)), MaxRadius(b))
  }

  function OutsideReach(b: Box): real
    requires 0.0 <= b.hw && 0.0 <= b.hh
  {
    RadiusWithin(StartRadius(Larger(b.hw, b.hh)), MaxRadius(b))
  }

  lemma OutsideExtent(t: Tree, x: real, y: real)
    requires WellFormed(t) && !t.box.ContainsXY(x, y)
    ensures LeafHalfExtent(t, x, y) == Larger(t.box.hw, t.box.hh)
    ensures LastRadius(t, x, y) == OutsideRadius(t.box)
  {
    hide RadiusReaching;
    if t.Node? {
      NoQuadrantHolds(t, x, y, 4);
    }
  }

  lemma {:induction false} NoQuadrantHolds(t: Tree, x: real, y: real, m: nat)
    requires WellFormed(t) && t.Node? && !t.box.ContainsXY(x, y) && m <= 4
    ensures ExtentBelow(t, x, y, m) == Larger(t.box.hw, t.box.hh)
  {
    if m > 0 {
      var i := 4 - m;
      assert IsChild(t, t.kids[i], i);
      QuadrantsTile(t.box, Point(0, x, y));
      assert !Quadrant(t.box, i).Contains(Point(0, x, y));
      NoQuadrantHolds(t, x, y, m - 1);
    }
  }

  // ---- What a query sees, as a box -----------------------------------------------------------------

  /** The box of all points in both boxes; empty if there are none. */
  function Overlap(a: Box, b: Box): Box
  {
    var left, right := Larger(a.cx - a.hw, b.cx - b.hw), Smaller(a.cx + a.hw, b.cx + b.hw);
    var low, high := Larger(a.cy - a.hh, b.cy - b.hh), Smaller(a.cy + a.hh, b.cy + b.hh);
    Box((left + right) / 2.0, (low + high) / 2.0, (right - left) / 2.0, (high - low) / 2.0)
  }

  lemma OverlapHolds(a: Box, b: Box, q: Point)
    ensures Overlap(a, b).Contains(q) <==> a.Contains(q) && b.Contains(q)
  {
  }

  /** The part of the root box that the k-nearest search looks at. */
  function SeenBox(b: Box, x: real, y: real): Box
  {
    if b.ContainsXY(x, y) then b else Overlap(b, SearchBox(x, y, OutsideRadius(b)))
  }

  /** It sees exactly the stored points in that part. */
  lemma SeenIsInBox(t: Tree, x: real, y: real, q: Point)
    requires WellFormed(t)
    ensures Seen(t, x, y)[q] == if SeenBox(t.box, x, y).Contains(q) then Contents(t)[q] else 0
  {
    hide WellFormed, Contents, OutsideRadius, Overlap, Box.ContainsXY, QuadModel.QueryRange, LastRadius;
    if q in Contents(t) {
      ContentsInBox(t, q);
    }
    SeenFacts(t, x, y);
    if !t.box.ContainsXY(x, y) {
      OutsideExtent(t, x, y);
      QueryHits(t, SearchBox(x, y, LastRadius(t, x, y)));
      OverlapHolds(t.box, SearchBox(x, y, OutsideRadius(t.box)), q);
    }
  }

  /** A fully reached box is seen as a whole, and conversely. */
  lemma SeesWholeBox(b: Box, x: real, y: real)
    ensures FullyInReach(b, x, y) <==> forall q: Point :: b.Contains(q) ==> SeenBox(b, x, y).Contains(q)
  {
    hide OutsideRadius, Overlap, Covers;
    var last := SearchBox(x, y, OutsideRadius(b));
    CoversIsInclusion(last, b);
    if !b.ContainsXY(x, y) {
      forall q: Point ensures SeenBox(b, x, y).Contains(q) <==> b.Contains(q) && last.Contains(q) {
        OverlapHolds(b, last, q);
      }
    }
  }

  // ---- A tree that holds one point ---------------------------------------------------------------

  /** What the constructor and one insertion leave behind. */
  function Single(b: Box, p: Point): Tree
  {
    Insert(Leaf(b, 1, 0, []), p).0
  }

  lemma SingleFacts(b: Box, p: Point)
    requires b.Contains(p)
    ensures WellFormed(Single(b, p)) && Single(b, p).box == b && Contents(Single(b, p)) == multiset{p}
  {
    assert Single(b, p) == Leaf(b, 1, 0, [p]);
  }

  // ---- k nearest -----------------------------------------------------------------------------------

  lemma CoversIsInclusion(a: Box, b: Box)
    ensures Covers(a, b) <==> forall q: Point :: b.Contains(q) ==> a.Contains(q)
  {
    if !Covers(a, b) {
      var q := MissedPoint(a, b);
    }
  }

  lemma MissedPoint(a: Box, b: Box) returns (q: Point)
    requires !Covers(a, b)
    ensures b.Contains(q) && !a.Contains(q)
  {
    q := Point(0,
               if b.cx - b.hw < a.cx - a.hw then b.cx - b.hw else b.cx + b.hw,
               if b.cy - b.hh < a.cy - a.hh then b.cy - b.hh else b.cy + b.hh);
  }

  /** The query is inside the box, or its last search box covers it. */
  predicate FullyInReach(b: Box, x: real, y: real)
  {
    b.ContainsXY(x, y) || Covers(SearchBox(x, y, OutsideRadius(b)), b)
  }

  /** The k nearest are found in every tree over the box exactly when the query is inside or
      the last search box covers the box. */
  lemma KNearestFromAnywhere(b: Box, x: real, y: real, k: nat)
    requires 0 < k
    ensures AlwaysKNearest(b, x, y, k) <==> FullyInReach(b, x, y)
  {
    hide Covers, IsKNearestOf, Seen, WellFormed, OutsideRadius, LastRadius, Contents;
    if FullyInReach(b, x, y) {
      forall t, r | WellFormed(t) && t.box == b && IsKNearestOf(Seen(t, x, y), x, y, k, r)
        ensures IsKNearest(t, x, y, k, r)
      {
        if !b.ContainsXY(x, y) {
          OutsideExtent(t, x, y);
        }
        SeenFacts(t, x, y);
      }
    } else {
      var p := MissedPoint(SearchBox(x, y, OutsideRadius(b)), b);
      MissedByAll(b, x, y, k, p);
    }
  }

  /** A stored point that the last box misses: the search answers that nothing is stored. */
  lemma MissedByAll(b: Box, x: real, y: real, k: nat, p: Point)
    requires 0 < k && b.Contains(p) && !b.ContainsXY(x, y) && !SearchBox(x, y, OutsideRadius(b)).Contains(p)
    ensures Seen(Single(b, p), x, y) == multiset{}
    ensures IsKNearestOf(Seen(Single(b, p), x, y), x, y, k, []) && !IsKNearest(Single(b, p), x, y, k, [])
    ensures !AlwaysKNearest(b, x, y, k)
  {
    hide SearchBox, OutsideRadius, LastRadius;
    var t := Single(b, p);
    SingleFacts(b, p);
    OutsideExtent(t, x, y);
    var last := SearchBox(x, y, LastRadius(t, x, y));
    QueryHits(t, last);
    var m := Seen(t, x, y);
    forall q: Point ensures m[q] == 0 {
      assert q != p ==> Contents(t)[q] == 0;
    }
    assert m == multiset{};
    assert IsKNearestOf(m, x, y, k, []);
    assert |Contents(t)| == 1;
  }

  // ---- Nearest neighbour -----------------------------------------------------------------------------

  /** The point of the box that is farthest from the query. */
  function FarthestCorner(b: Box, x: real, y: real, id: int): Point
  {
    Point(id,
          if b.cx + b.hw - x < x - (b.cx - b.hw) then b.cx - b.hw else b.cx + b.hw,
          if b.cy + b.hh - y < y - (b.cy - b.hh) then b.cy - b.hh else b.cy + b.hh)
  }

  lemma FarthestIsFarthest(b: Box, x: real, y: real, id: int, q: Point)
    requires b.Contains(q)
    ensures b.Contains(FarthestCorner(b, x, y, id))
    ensures DistSq(x, y, q) <= DistSq(x, y, FarthestCorner(b, x, y, id))
  {
    var c := FarthestCorner(b, x, y, id);
    SquareBound(q.x - x, c.x - x);
    SquareBound(q.y - y, c.y - y);
  }

  lemma SquareBound(a: real, c: real)
    requires -c <= a <= c || c <= a <= -c
    ensures a * a <= c * c
  {
    SquareMonotone(a, if c < 0.0 then -c else c);
  }

  /** The condition on the last radius: it reaches the farthest corner of the box. */
  ghost predicate ReachesAll(b: Box, x: real, y: real)
  {
    0.0 <= b.hw && 0.0 <= b.hh ==> DistSq(x, y, FarthestCorner(b, x, y, 0)) <= OutsideReach(b) * OutsideReach(b)
  }

  /** From outside, None means that nothing eligible is stored, in every tree over the box,
      exactly when the last radius reaches its farthest corner; from inside it always does. */
  lemma NearestFromAnywhere(b: Box, x: real, y: real, excludeId: int)
    ensures NoneMeansNone(b, x, y, excludeId) <==> b.ContainsXY(x, y) || ReachesAll(b, x, y)
  {
    hide ReachesAll, NoneInReach, NoneEligible, WellFormed, FarthestCorner;
    if b.ContainsXY(x, y) || ReachesAll(b, x, y) {
      forall t | WellFormed(t) && t.box == b && NoneInReach(t, x, y, excludeId) ensures NoneEligible(t, excludeId) {
        InsideReachesAll(t, x, y, excludeId);
        if !b.ContainsXY(x, y) {
          ReachedFromOutside(t, x, y, excludeId);
        }
      }
    } else {
      BeyondReach(b, x, y, excludeId);
    }
  }

  lemma ReachedFromOutside(t: Tree, x: real, y: real, excludeId: int)
    requires WellFormed(t) && !t.box.ContainsXY(x, y) && ReachesAll(t.box, x, y) && NoneInReach(t, x, y, excludeId)
    ensures NoneEligible(t, excludeId)
  {
    hide WellFormed, Contents, DistSq, FarthestCorner;
    OutsideExtent(t, x, y);
    hide LeafHalfExtent;
    forall q | q in Contents(t) ensures q.id == excludeId {
      ContentsInBox(t, q);
      FarthestIsFarthest(t.box, x, y, 0, q);
      StartsInTime(t.box);
    }
  }

  /** The nearest-neighbour search makes at least one round over a box that is not empty. */
  lemma StartsInTime(b: Box)
    requires 0.0 <= b.hw && 0.0 <= b.hh
    ensures StartRadius(Larger(b.hw, b.hh)) <= MaxRadius(b)
  {
  }

  /** A stored, eligible point beyond the last radius: the search answers None. */
  lemma OutOfReach(b: Box, x: real, y: real, excludeId: int, p: Point)
    requires 0.0 <= b.hw && 0.0 <= b.hh && !b.ContainsXY(x, y)
    requires b.Contains(p) && p.id != excludeId && OutsideReach(b) * OutsideReach(b) < DistSq(x, y, p)
    ensures NoneInReach(Single(b, p), x, y, excludeId) && !NoneEligible(Single(b, p), excludeId)
    ensures !NoneMeansNone(b, x, y, excludeId)
  {
    hide RadiusWithin;
    var t := Single(b, p);
    SingleFacts(b, p);
    OutsideExtent(t, x, y);
  }

  lemma BeyondReach(b: Box, x: real, y: real, excludeId: int)
    requires !b.ContainsXY(x, y) && !ReachesAll(b, x, y)
    ensures !NoneMeansNone(b, x, y, excludeId)
  {
    hide RadiusWithin, NoneMeansNone;
    var p := FarthestCorner(b, x, y, excludeId + 1);
    assert DistSq(x, y, p) == DistSq(x, y, FarthestCorner(b, x, y, 0));
    FarthestIsFarthest(b, x, y, excludeId + 1, Point(0, b.cx, b.cy));
    OutOfReach(b, x, y, excludeId, p);
  }

  // ---- Two queries from outside one box ----------------------------------------------------------------

  const UnitBox := Box(0.5, 0.5, 0.5, 0.5)

  /** The radii run 0.5, 1, 2, 4 and, in the k-nearest search only, 8. */
  lemma UnitRadii()
    ensures OutsideRadius(UnitBox) == 8.0 && OutsideReach(UnitBox) == 4.0
  {
    assert StartRadius(Larger(0.5, 0.5)) == 0.5 && MaxRadius(UnitBox) == 5.0;
    RadiiFromHalf();
  }

  lemma RadiiFromHalf()
    ensures RadiusReaching(0.5, 5.0) == 8.0 && RadiusWithin(0.5, 5.0) == 4.0
  {
    assert RadiusReaching(8.0, 5.0) == 8.0;
    assert RadiusReaching(4.0, 5.0) == 8.0;
    assert RadiusReaching(2.0, 5.0) == 8.0;
    assert RadiusReaching(1.0, 5.0) == 8.0;
    assert RadiusWithin(4.0, 5.0) == 4.0;
    assert RadiusWithin(2.0, 5.0) == 4.0;
    assert RadiusWithin(1.0, 5.0) == 4.0;
  }

  /** From x = 100 both searches answer that nothing is stored, although a point is. */
  lemma FarQueryFindsNothing(k: nat)
    requires 0 < k
    ensures var t := Single(UnitBox, Point(1, 0.5, 0.5));
            && WellFormed(t) && Contents(t) == multiset{Point(1, 0.5, 0.5)}
            && (forall r :: IsKNearestOf(Seen(t, 100.0, 0.5), 100.0, 0.5, k, r) <==> r == [])
            && !IsKNearest(t, 100.0, 0.5, k, [])
            && NoneInReach(t, 100.0, 0.5, 0) && !NoneEligible(t, 0)
  {
    hide OutsideRadius, OutsideReach, IsKNearestOf, Seen, Single, WellFormed, Contents, IsKNearest, NoneInReach, NoneEligible;
    var p := Point(1, 0.5, 0.5);
    UnitRadii();
    SingleFacts(UnitBox, p);
    MissedByAll(UnitBox, 100.0, 0.5, k, p);
    OutOfReach(UnitBox, 100.0, 0.5, 0, p);
    NothingSeen(Seen(Single(UnitBox, p), 100.0, 0.5), 100.0, 0.5, k);
  }

  lemma NothingSeen(m: multiset<Point>, x: real, y: real, k: nat)
    requires m == multiset{}
    ensures forall r :: IsKNearestOf(m, x, y, k, r) <==> r == []
  {
    forall r ensures IsKNearestOf(m, x, y, k, r) <==> r == [] {
      if r == [] {
        assert multiset(r) == m;
      }
    }
  }

  /** From x = 5, outside as well, the k-nearest search is still exact, while the
      nearest-neighbour search is not. */
  lemma NearQueryDiffers(k: nat)
    requires 0 < k
    ensures !UnitBox.ContainsXY(5.0, 0.5)
    ensures FullyInReach(UnitBox, 5.0, 0.5) && AlwaysKNearest(UnitBox, 5.0, 0.5, k) && !NoneMeansNone(UnitBox, 5.0, 0.5, 0)
  {
    UnitRadii();
    KNearestFromAnywhere(UnitBox, 5.0, 0.5, k);
    var corner := FarthestCorner(UnitBox, 5.0, 0.5, 0);
    assert corner == Point(0, 0.0, 1.0);
    assert OutsideReach(UnitBox) * OutsideReach(UnitBox) == 16.0 && DistSq(5.0, 0.5, corner) == 25.25;
    NearestFromAnywhere(UnitBox, 5.0, 0.5, 0);
  }
}
