/** What makes a growing box search exact: distances are compared squared, a point outside
    the box of half-extent r is farther than r, and a large enough box covers the tree. */
module NearestTheory {
  import opened QuadModel

  function DistSq(x: real, y: real, p: Point): real
  {
    (p.x - x) * (p.x - x) + (p.y - y) * (p.y - y)
  }

  ghost predicate SortedByDistance(x: real, y: real, ps: seq<Point>)
  {
    forall i, j :: 0 <= i <= j < |ps| ==> DistSq(x, y, ps[i]) <= DistSq(x, y, ps[j])
  }

  /** The `k` nearest of a bag of points (all of them if there are fewer), nearest first; no
      omitted point is nearer than a returned one. */
  ghost predicate IsKNearestOf(m: multiset<Point>, x: real, y: real, k: nat, r: seq<Point>)
  {
    && |r| == (if |m| < k then |m| else k)
    && multiset(r) <= m
    && SortedByDistance(x, y, r)
    && OmittedAreFarther(m, x, y, r)
  }

  ghost predicate OmittedAreFarther(m: multiset<Point>, x: real, y: real, r: seq<Point>)
  {
    forall q, i :: q in m - multiset(r) && 0 <= i < |r| ==> DistSq(x, y, r[i]) <= DistSq(x, y, q)
  }

  /** The `k` nearest stored points. */
  ghost predicate IsKNearest(t: Tree, x: real, y: real, k: nat, r: seq<Point>)
  {
    IsKNearestOf(Contents(t), x, y, k, r)
  }

  /** At most `k` stored points, nearest first. */
  ghost predicate IsSortedSelection(t: Tree, x: real, y: real, k: nat, r: seq<Point>)
  {
    |r| <= k && multiset(r) <= Contents(t) && SortedByDistance(x, y, r)
  }

  function MaxRadius(b: Box): real
  {
    (b.hw + b.hh) * 4.0 + 1.0
  }

  function SearchBox(x: real, y: real, radius: real): Box
  {
    Box(x, y, radius, radius)
  }

  // ---- Radii ---------------------------------------------------------------------------------

  function StartRadius(extent: real): (r: real)
    ensures 0.0 < r
  {
    if extent <= 0.0 then 1.0 else extent
  }

  /** How often a radius can double before it exceeds the limit, at most. */
  function Doublings(radius: real, limit: real): nat
    requires 0.0 < radius
  {
    if limit < radius then 0
    else
      PositiveQuotient(radius, limit);
      1 + (limit / radius).Floor
  }

  lemma PositiveQuotient(radius: real, limit: real)
    requires 0.0 < radius <= limit
    ensures 1.0 <= limit / radius
  {
    assert limit / radius * radius == limit;
  }

  lemma FewerDoublings(radius: real, limit: real)
    requires 0.0 < radius <= limit
    ensures Doublings(2.0 * radius, limit) < Doublings(radius, limit)
  {
    PositiveQuotient(radius, limit);
    if 2.0 * radius <= limit {
      PositiveQuotient(2.0 * radius, limit);
      HalfQuotient(radius, limit);
    }
  }

  lemma HalfQuotient(radius: real, limit: real)
    requires 0.0 < radius
    ensures limit / (2.0 * radius) == limit / radius / 2.0
  {
    var x := limit / radius / 2.0;
    QuotientOf(limit / radius, radius, limit);
    Regrouped(x, radius);
    QuotientOf(x, 2.0 * radius, limit);
  }

  lemma Regrouped(x: real, r: real)
    ensures x * (2.0 * r) == (2.0 * x) * r
  {
  }

  lemma QuotientOf(x: real, y: real, z: real)
    requires 0.0 < y
    ensures x == z / y <==> x * y == z
  {
    assert z / y * y == z;
    if x * y == z {
      assert (x - z / y) * y == 0.0;
    }
  }

  /** The first doubling that reaches the limit: the last radius of the k-nearest search. */
  function RadiusReaching(radius: real, limit: real): (r: real)
    requires 0.0 < radius
    ensures radius <= r && limit <= r
    decreases Doublings(radius, limit)
  {
    if limit <= radius then radius
    else
      FewerDoublings(radius, limit);
      RadiusReaching(2.0 * radius, limit)
  }

  /** The last doubling within the limit: the last radius of the nearest-neighbour search. */
  function RadiusWithin(radius: real, limit: real): (r: real)
    requires 0.0 < radius <= limit
    ensures radius <= r <= limit < 2.0 * r
    decreases Doublings(radius, limit)
  {
    if limit < 2.0 * radius then radius
    else
      FewerDoublings(radius, limit);
      RadiusWithin(2.0 * radius, limit)
  }

  function LastRadius(t: Tree, x: real, y: real): real
  {
    RadiusReaching(StartRadius(LeafHalfExtent(t, x, y)), MaxRadius(t.box))
  }

  /** The stored points that the last box of the k-nearest search holds. */
  ghost function Seen(t: Tree, x: real, y: real): multiset<Point>
  {
    multiset(QueryRange(t, SearchBox(x, y, LastRadius(t, x, y))))
  }

  // ---- Geometry ------------------------------------------------------------------------------

  lemma SquareMonotone(a: real, r: real)
    requires 0.0 <= r
    ensures a > r || a < -r ==> a * a > r * r
    ensures -r <= a <= r ==> a * a <= r * r
  {
    if a > r {
      assert a * a > r * a && r * a >= r * r;
    } else if a < -r {
      assert (-a) * (-a) > r * (-a) && r * (-a) >= r * r;
    } else if a >= 0.0 {
      assert a * a <= r * a && r * a <= r * r;
    } else {
      assert (-a) * (-a) <= r * (-a) && r * (-a) <= r * r;
    }
  }

  /** A point that the box misses is farther away than the box reaches. */
  lemma OutsideIsFar(x: real, y: real, radius: real, q: Point)
    requires 0.0 <= radius && !SearchBox(x, y, radius).Contains(q)
    ensures radius * radius < DistSq(x, y, q)
  {
    var dx, dy := q.x - x, q.y - y;
    SquareMonotone(dx, radius);
    SquareMonotone(dy, radius);
    assert 0.0 <= dx * dx && 0.0 <= dy * dy;
    assert dx > radius || dx < -radius || dy > radius || dy < -radius;
  }

  /** From a query inside the box, everything in the box is within its diagonal. */
  lemma DiagonalBound(b: Box, x: real, y: real, q: Point)
    requires b.ContainsXY(x, y) && b.Contains(q)
    ensures 0.0 <= b.hw && 0.0 <= b.hh
    ensures DistSq(x, y, q) <= (2.0 * (b.hw + b.hh)) * (2.0 * (b.hw + b.hh))
  {
    var dx, dy, w, h := q.x - x, q.y - y, 2.0 * b.hw, 2.0 * b.hh;
    SquareMonotone(dx, w);
    SquareMonotone(dy, h);
    assert 0.0 <= w * h;
    assert (w + h) * (w + h) == w * w + 2.0 * (w * h) + h * h;
  }

  /** From inside, at the maximal radius, the box covers the root box. */
  lemma MaxBoxCovers(b: Box, x: real, y: real, radius: real)
    requires b.ContainsXY(x, y) && MaxRadius(b) <= radius
    ensures Covers(SearchBox(x, y, radius), b)
  {
  }

  // ---- Multisets --------------------------------------------------------------------------------

  lemma SubMultisetSize(a: multiset<Point>, b: multiset<Point>)
    requires a <= b
    ensures |a| <= |b|
  {
    assert b == a + (b - a);
  }

  /** The query result is the stored points in range. */
  ghost predicate IsHits(t: Tree, range: Box, ps: seq<Point>)
  {
    forall q: Point :: multiset(ps)[q] == if range.Contains(q) then Contents(t)[q] else 0
  }

  lemma QueryHits(t: Tree, range: Box)
    requires WellFormed(t)
    ensures IsHits(t, range, QueryRange(t, range))
  {
    forall q: Point ensures multiset(QueryRange(t, range))[q] == if range.Contains(q) then Contents(t)[q] else 0 {
      QueryIsExact(t, range, q);
    }
  }

  lemma HitsAreStored(t: Tree, range: Box, ps: seq<Point>)
    requires IsHits(t, range, ps)
    ensures multiset(ps) <= Contents(t)
  {
  }

  lemma PrefixOf(ps: seq<Point>, k: nat)
    requires k <= |ps|
    ensures multiset(ps[..k]) <= multiset(ps)
    ensures multiset(ps) - multiset(ps[..k]) == multiset(ps[k..])
  {
    assert ps == ps[..k] + ps[k..];
  }

  /** A stored point beyond the first `k` hits is a later hit or no hit. */
  lemma Omitted(t: Tree, range: Box, ps: seq<Point>, k: nat, q: Point)
    requires IsHits(t, range, ps) && k <= |ps| && q in Contents(t) - multiset(ps[..k])
    ensures !range.Contains(q) || exists j :: k <= j < |ps| && ps[j] == q
  {
    PrefixOf(ps, k);
    if range.Contains(q) {
      assert multiset(ps)[q] == Contents(t)[q];
      assert q in multiset(ps[k..]);
      var i :| 0 <= i < |ps[k..]| && ps[k..][i] == q;
      assert ps[k + i] == q;
    }
  }

  /** Enough hits, the k-th within the radius: nothing outside the box can displace them. */
  lemma EnoughHits(t: Tree, x: real, y: real, k: nat, radius: real, ps: seq<Point>)
    requires 0.0 <= radius && 0 < k <= |ps| && SortedByDistance(x, y, ps)
    requires IsHits(t, SearchBox(x, y, radius), ps) && DistSq(x, y, ps[k - 1]) <= radius * radius
    ensures IsKNearest(t, x, y, k, ps[..k])
  {
    hide Contents, IsHits, DistSq, SearchBox, IsKNearestOf, SortedByDistance;
    HitsAreStored(t, SearchBox(x, y, radius), ps);
    SubMultisetSize(multiset(ps), Contents(t));
    forall q, i | q in Contents(t) - multiset(ps[..k]) && 0 <= i < |ps[..k]|
      ensures DistSq(x, y, ps[..k][i]) <= DistSq(x, y, q)
    {
      HitBeatsOmitted(t, x, y, k, radius, ps, q, i);
    }
    FirstHits(Contents(t), x, y, k, k, ps);
  }

  lemma FirstHits(bag: multiset<Point>, x: real, y: real, k: nat, m: nat, ps: seq<Point>)
    requires m <= |ps| && SortedByDistance(x, y, ps) && multiset(ps) <= bag
    requires m == (if |bag| < k then |bag| else k) && OmittedAreFarther(bag, x, y, ps[..m])
    ensures IsKNearestOf(bag, x, y, k, ps[..m])
  {
    hide OmittedAreFarther, DistSq;
    PrefixOf(ps, m);
  }

  lemma HitBeatsOmitted(t: Tree, x: real, y: real, k: nat, radius: real, ps: seq<Point>, q: Point, i: nat)
    requires 0.0 <= radius && 0 < k <= |ps| && SortedByDistance(x, y, ps) && i < k
    requires IsHits(t, SearchBox(x, y, radius), ps) && DistSq(x, y, ps[k - 1]) <= radius * radius
    requires q in Contents(t) - multiset(ps[..k])
    ensures DistSq(x, y, ps[i]) <= DistSq(x, y, q)
  {
    hide Contents, IsHits, DistSq, SearchBox, Box.ContainsXY;
    Omitted(t, SearchBox(x, y, radius), ps, k, q);
    assert DistSq(x, y, ps[i]) <= DistSq(x, y, ps[k - 1]);
    if !SearchBox(x, y, radius).Contains(q) {
      OutsideIsFar(x, y, radius, q);
    }
  }

  lemma LaterIsFarther(x: real, y: real, m: nat, ps: seq<Point>, q: Point, i: nat)
    requires SortedByDistance(x, y, ps) && m <= |ps| && i < m && q in multiset(ps) - multiset(ps[..m])
    ensures DistSq(x, y, ps[i]) <= DistSq(x, y, q)
  {
    hide DistSq;
    PrefixOf(ps, m);
    var j :| 0 <= j < |ps[m..]| && ps[m..][j] == q;
    assert ps[m + j] == q;
  }

  /** The first k points of a bag sorted by distance are its k nearest. */
  lemma AllHits(x: real, y: real, k: nat, m: nat, ps: seq<Point>)
    requires SortedByDistance(x, y, ps) && m == if k <= |ps| then k else |ps|
    ensures IsKNearestOf(multiset(ps), x, y, k, ps[..m])
  {
    hide DistSq, IsKNearestOf, SortedByDistance;
    forall q, i | q in multiset(ps) - multiset(ps[..m]) && 0 <= i < m
      ensures DistSq(x, y, ps[..m][i]) <= DistSq(x, y, q)
    {
      LaterIsFarther(x, y, m, ps, q, i);
    }
    FirstHits(multiset(ps), x, y, k, m, ps);
  }

  /** The k nearest of a bag are the k nearest of every part of it that holds them. */
  lemma KNearestOfPart(whole: multiset<Point>, part: multiset<Point>, x: real, y: real, k: nat, r: seq<Point>)
    requires IsKNearestOf(whole, x, y, k, r) && multiset(r) <= part <= whole
    ensures IsKNearestOf(part, x, y, k, r)
  {
    SubMultisetSize(multiset(r), part);
    SubMultisetSize(part, whole);
  }

  /** One box lies inside another, or is empty. */
  predicate Covers(a: Box, b: Box)
  {
    || b.hw < 0.0 || b.hh < 0.0
    || (a.cx - a.hw <= b.cx - b.hw && b.cx + b.hw <= a.cx + a.hw
        && a.cy - a.hh <= b.cy - b.hh && b.cy + b.hh <= a.cy + a.hh)
  }

  lemma CoveredHits(t: Tree, x: real, y: real, radius: real, ps: seq<Point>)
    requires WellFormed(t) && Covers(SearchBox(x, y, radius), t.box)
    requires IsHits(t, SearchBox(x, y, radius), ps)
    ensures multiset(ps) == Contents(t)
  {
    forall q: Point ensures multiset(ps)[q] == Contents(t)[q] {
      if q in Contents(t) {
        ContentsInBox(t, q);
      }
    }
  }

  // ---- Nearest eligible point -----------------------------------------------------------------------

  ghost predicate IsNearest(t: Tree, x: real, y: real, excludeId: int, p: Point)
  {
    && p in Contents(t) && p.id != excludeId
    && forall q :: q in Contents(t) && q.id != excludeId ==> DistSq(x, y, p) <= DistSq(x, y, q)
  }

  ghost predicate NoneEligible(t: Tree, excludeId: int)
  {
    forall q :: q in Contents(t) ==> q.id == excludeId
  }

  ghost predicate NoneWithin(t: Tree, x: real, y: real, excludeId: int, radius: real)
  {
    forall q :: q in Contents(t) && q.id != excludeId ==> radius * radius < DistSq(x, y, q)
  }

  /** `best` is the first nearest eligible one among the candidates. */
  ghost predicate IsBestOf(x: real, y: real, excludeId: int, ps: seq<Point>, best: int)
  {
    if best < 0 then forall i :: 0 <= i < |ps| ==> ps[i].id == excludeId
    else best < |ps| && ps[best].id != excludeId
         && forall i :: 0 <= i < |ps| && ps[i].id != excludeId ==> DistSq(x, y, ps[best]) <= DistSq(x, y, ps[i])
  }

  lemma HitOrFar(t: Tree, x: real, y: real, radius: real, ps: seq<Point>, q: Point)
    requires 0.0 <= radius && IsHits(t, SearchBox(x, y, radius), ps) && q in Contents(t)
    ensures radius * radius < DistSq(x, y, q) || exists i :: 0 <= i < |ps| && ps[i] == q
  {
    if SearchBox(x, y, radius).Contains(q) {
      assert q in multiset(ps);
    } else {
      OutsideIsFar(x, y, radius, q);
    }
  }

  lemma BestIsNearest(t: Tree, x: real, y: real, excludeId: int, radius: real, ps: seq<Point>, best: int)
    requires 0.0 <= radius && IsHits(t, SearchBox(x, y, radius), ps) && IsBestOf(x, y, excludeId, ps, best)
    ensures best >= 0 && DistSq(x, y, ps[best]) <= radius * radius ==> IsNearest(t, x, y, excludeId, ps[best])
    ensures best < 0 || radius * radius < DistSq(x, y, ps[best]) ==> NoneWithin(t, x, y, excludeId, radius)
  {
    forall q | q in Contents(t) && q.id != excludeId
      ensures best >= 0 && DistSq(x, y, ps[best]) <= radius * radius ==> DistSq(x, y, ps[best]) <= DistSq(x, y, q)
      ensures best < 0 || radius * radius < DistSq(x, y, ps[best]) ==> radius * radius < DistSq(x, y, q)
    {
      HitOrFar(t, x, y, radius, ps, q);
    }
    if best >= 0 {
      assert ps[best] in multiset(ps);
      HitsAreStored(t, SearchBox(x, y, radius), ps);
    }
  }

  /** If nothing eligible lies within half the maximal radius, nothing eligible is stored. */
  lemma NothingEligible(t: Tree, x: real, y: real, excludeId: int, radius: real)
    requires WellFormed(t) && t.box.ContainsXY(x, y) && NoneWithin(t, x, y, excludeId, radius)
    requires MaxRadius(t.box) < 2.0 * radius
    ensures NoneEligible(t, excludeId)
  {
    hide WellFormed, Contents, DistSq;
    var d := 2.0 * (t.box.hw + t.box.hh);
    forall q | q in Contents(t) ensures q.id == excludeId {
      ContentsInBox(t, q);
      DiagonalBound(t.box, x, y, q);
      SquareMonotone(d, radius);
    }
  }

  /** Whether the nearest-neighbour search ends with this radius. */
  ghost predicate InReach(t: Tree, x: real, y: real, radius: real)
  {
    var start := StartRadius(LeafHalfExtent(t, x, y));
    start <= MaxRadius(t.box) && radius == RadiusWithin(start, MaxRadius(t.box))
  }

  /** Nothing eligible lies within the last radius, or there is no round at all. */
  ghost predicate NoneInReach(t: Tree, x: real, y: real, excludeId: int)
  {
    var start := StartRadius(LeafHalfExtent(t, x, y));
    start <= MaxRadius(t.box) ==> NoneWithin(t, x, y, excludeId, RadiusWithin(start, MaxRadius(t.box)))
  }
}
