/** The mutable quadtree: every node owns its children, and `tree` says at each moment
    which value of the model the nodes represent. */
module QuadTree {
  import opened QuadModel
  import opened NearestTheory

  class QuadTree {
    const boundary: Box
    const capacity: int
    const depth: nat
    var points: seq<Point>
    var divided: bool
    /** The four owned children: northwest, northeast, southwest, southeast; or none. */
    var children: seq<QuadTree>
    ghost var tree: Tree
    ghost var Repr: set<object>

    ghost predicate Valid()
      reads this, Repr
      decreases Repr
    {
      && this in Repr
      && tree.box == boundary && tree.capacity == capacity && tree.depth == depth && tree.points == points
      && divided == tree.Node?
      && (!divided ==> children == [])
      && (divided ==>
            && |children| == |tree.kids| == 4
            && (forall i :: 0 <= i < 4 ==> children[i] in Repr && OwnsChild(i))
            && (forall i, j :: 0 <= i < j < 4 ==> children[i].Repr !! children[j].Repr))
    }

    ghost predicate OwnsChild(i: nat)
      requires this in Repr && i < |children| && divided && tree.Node? && |children| == |tree.kids|
      reads this, Repr
      decreases Repr, 0
    {
      && children[i] in Repr && children[i].Repr <= Repr && this !in children[i].Repr
      && children[i].Valid() && children[i].tree == tree.kids[i]
    }

    constructor (boundary: Box, capacity: int, depth: nat)
      ensures Valid() && fresh(Repr)
      ensures tree == Leaf(boundary, if capacity < 1 then 1 else capacity, depth, [])
    {
      this.boundary := boundary;
      this.capacity := if capacity < 1 then 1 else capacity;
      this.depth := depth;
      points := [];
      divided := false;
      children := [];
      tree := Leaf(boundary, if capacity < 1 then 1 else capacity, depth, []);
      Repr := {this};
    }

    method Subdivide()
      requires Valid() && !divided && 1 <= capacity
      modifies this
      ensures Valid() && divided && fresh(Repr - old(Repr))
      ensures tree == Divide(old(tree)) && points == old(points)
    {
      hide WellFormed;
      var kids := NewChildren();
      children := kids;
      divided := true;
      tree := Divide(tree);
      Repr := Repr + kids[0].Repr + kids[1].Repr + kids[2].Repr + kids[3].Repr;
    }

    method NewChildren() returns (kids: seq<QuadTree>)
      requires Valid() && 1 <= capacity
      ensures |kids| == 4
      ensures forall i :: 0 <= i < 4 ==>
                kids[i].Valid() && fresh(kids[i].Repr) && this !in kids[i].Repr
                && kids[i].tree == Leaf(Quadrant(boundary, i), capacity, depth + 1, [])
      ensures forall i, j :: 0 <= i < j < 4 ==> kids[i].Repr !! kids[j].Repr
    {
      kids := [];
      for k := 0 to 4
        invariant |kids| == k
        invariant forall i :: 0 <= i < k ==>
                    kids[i].Valid() && fresh(kids[i].Repr) && this !in kids[i].Repr
                    && kids[i].tree == Leaf(Quadrant(boundary, i), capacity, depth + 1, [])
        invariant forall i, j :: 0 <= i < j < k ==> kids[i].Repr !! kids[j].Repr
      {
        var c := new QuadTree(Quadrant(boundary, k), capacity, depth + 1);
        kids := kids + [c];
      }
    }

    /** Adds the point to this subtree if it lies inside the boundary. */
    method Insert(p: Point) returns (ok: bool)
      requires Valid() && WellFormed(tree)
      modifies Repr
      ensures Valid() && fresh(Repr - old(Repr))
      ensures (tree, ok) == QuadModel.Insert(old(tree), p)
      ensures !ok ==> Repr == old(Repr)
      decreases LevelsLeft(tree), 5
    {
      if !boundary.Contains(p) {
        return false;
      }
      if (!divided && |points| < capacity) || depth >= MAX_DEPTH {
        points := points + [p];
        tree := Leaf(tree.box, tree.capacity, tree.depth, points);
        return true;
      }
      if !divided {
        DivideKeeps(tree);
        Subdivide();
      }
      InsertIntoChild(p, 0);
      ok := true;
    }

    /** Tries the children from `i` on; a point none of them takes stays here. */
    method InsertIntoChild(p: Point, i: nat)
      requires Valid() && WellFormed(tree) && divided && i <= 4
      modifies Repr
      ensures Valid() && fresh(Repr - old(Repr))
      ensures tree == InsertBelow(old(tree), p, i)
      decreases LevelsLeft(tree), 4 - i
    {
      hide WellFormed, QuadModel.Insert;
      assert forall j :: 0 <= j < 4 ==> OwnsChild(j);
      if i == 4 {
        points := points + [p];
        tree := Node(tree.box, tree.capacity, tree.depth, points, tree.kids);
        assert forall j :: 0 <= j < 4 ==> OwnsChild(j);
        return;
      }
      KidFacts(tree, i);
      var c := children[i];
      Apart(i);
      label Before:
      var ok := c.Insert(p);
      assert forall j :: 0 <= j < 4 && j != i ==> children[j].Repr == old@Before(children[j].Repr) && OwnsChild(j);
      if ok {
        Adopt(i);
      } else {
        KidRefused(tree, p, i);
        assert forall j :: 0 <= j < 4 ==> OwnsChild(j);
        InsertIntoChild(p, i + 1);
      }
    }

    /** Nothing in child `i` belongs to a sibling or to this node. */
    lemma Apart(i: nat)
      requires Valid() && divided && i < 4
      ensures OwnsChild(i)
      ensures forall j :: 0 <= j < 4 && j != i ==>
                OwnsChild(j) && children[j].Repr !! children[i].Repr && children[j] !in children[i].Repr
      ensures forall j, k :: 0 <= j < k < 4 ==> children[j].Repr !! children[k].Repr
    {
      assert OwnsChild(i);
      forall j | 0 <= j < 4 && j != i
        ensures OwnsChild(j) && children[j].Repr !! children[i].Repr && children[j] !in children[i].Repr
      {
        assert OwnsChild(j) && children[j].Valid();
        if j < i {
          assert children[j].Repr !! children[i].Repr;
        } else {
          assert children[i].Repr !! children[j].Repr;
        }
      }
    }

    /** After child `i` has changed itself, this node's ghost view follows. */
    ghost method Adopt(i: nat)
      requires this in Repr && divided && tree.Node? && |children| == |tree.kids| == 4 && i < 4
      requires tree.box == boundary && tree.capacity == capacity && tree.depth == depth && tree.points == points
      requires children[i].Valid() && this !in children[i].Repr
      requires forall j :: 0 <= j < 4 && j != i ==> OwnsChild(j) && children[j].Repr !! children[i].Repr
      requires forall j, k :: 0 <= j < k < 4 && j != i && k != i ==> children[j].Repr !! children[k].Repr
      modifies this`tree, this`Repr
      ensures Valid()
      ensures tree == old(tree).(kids := old(tree).kids[i := children[i].tree])
      ensures Repr == old(Repr) + children[i].Repr
    {
      tree := tree.(kids := tree.kids[i := children[i].tree]);
      Repr := Repr + children[i].Repr;
    }

    /** Pulls the children's points up and drops the children, when all four are undivided
        and everything fits into this node. */
    method CollapseIfPossible()
      requires Valid()
      modifies this
      ensures Valid() && Repr == old(Repr)
      ensures tree == Collapse(old(tree))
    {
      if !divided {
        return;
      }
      assert forall i :: 0 <= i < 4 ==> OwnsChild(i);
      KidsDivided();
      if children[0].divided || children[1].divided || children[2].divided || children[3].divided {
        return;
      }
      var below := children[0].points + children[1].points + children[2].points + children[3].points;
      FourKids(tree, children[0].points, children[1].points, children[2].points, children[3].points);
      if |points| + |below| > capacity {
        return;
      }
      points := points + below;
      children := [];
      divided := false;
      tree := Leaf(tree.box, tree.capacity, tree.depth, points);
    }

    lemma KidsDivided()
      requires Valid() && divided
      ensures forall i :: 0 <= i < 4 ==>
                children[i].divided == tree.kids[i].Node? && children[i].points == tree.kids[i].points
    {
      forall i | 0 <= i < 4
        ensures children[i].divided == tree.kids[i].Node? && children[i].points == tree.kids[i].points
      {
        assert OwnsChild(i) && children[i].Valid();
      }
    }

    /** Erases the first point with this id on the search path of the point. */
    method Remove(p: Point) returns (ok: bool)
      requires Valid() && WellFormed(tree)
      modifies Repr
      ensures Valid() && Repr == old(Repr)
      ensures (tree, ok) == QuadModel.Remove(old(tree), p)
      decreases tree, 5
    {
      if !boundary.Contains(p) {
        return false;
      }
      var i := IndexOfId(points, p.id);
      if i < |points| {
        label Before:
        assert divided ==> forall j :: 0 <= j < 4 ==> OwnsChild(j);
        points := points[..i] + points[i + 1..];
        tree := tree.(points := points);
        assert divided ==> forall j :: 0 <= j < 4 ==> OwnsChild(j);
        return true;
      }
      if !divided {
        return false;
      }
      ok := RemoveFromChild(p, 4);
    }

    method RemoveFromChild(p: Point, m: nat) returns (ok: bool)
      requires Valid() && WellFormed(tree) && divided && m <= 4
      modifies Repr
      ensures Valid() && Repr == old(Repr)
      ensures (tree, ok) == RemoveBelow(old(tree), p, m)
      decreases tree, 0, m
    {
      hide WellFormed, QuadModel.Remove, Collapse;
      if m == 0 {
        return false;
      }
      var i := 4 - m;
      KidFacts(tree, i);
      var c := children[i];
      Apart(i);
      label Before:
      ok := c.Remove(p);
      assert forall j :: 0 <= j < 4 && j != i ==> children[j].Repr == old@Before(children[j].Repr) && OwnsChild(j);
      if ok {
        Adopt(i);
        CollapseIfPossible();
      } else {
        KidKeptAll(old@Before(tree), p, i);
        assert forall j :: 0 <= j < 4 ==> OwnsChild(j);
        ok := RemoveFromChild(p, m - 1);
      }
    }

    /** Drops every point and child. */
    method Clear()
      requires Valid()
      modifies this
      ensures Valid() && Repr == old(Repr)
      ensures tree == Leaf(boundary, capacity, depth, [])
    {
      points := [];
      if divided {
        children := [];
        divided := false;
      }
      tree := Leaf(boundary, capacity, depth, []);
    }

    /** Appends every point of this subtree that lies in the range. */
    method QueryRange(range: Box, found0: seq<Point>) returns (found: seq<Point>)
      requires Valid()
      ensures found == found0 + QuadModel.QueryRange(tree, range)
      decreases tree, 5
    {
      found := found0;
      if !boundary.Intersects(range) {
        return;
      }
      for i := 0 to |points|
        invariant found == found0 + InRange(points[..i], range)
      {
        assert points[..i + 1][..i] == points[..i];
        if range.Contains(points[i]) {
          found := found + [points[i]];
        }
      }
      assert points[..|points|] == points;
      if divided {
        ghost var own := found;
        for i := 0 to 4
          invariant divided && |children| == |tree.kids| == 4
          invariant found == own + QueryKids(tree, range, i)
        {
          assert OwnsChild(i);
          found := children[i].QueryRange(range, found);
        }
      }
    }

    /** Points stored anywhere in this subtree. */
    method Size() returns (total: nat)
      requires Valid()
      ensures total == |Contents(tree)|
      decreases tree
    {
      total := |points|;
      if divided {
        for i := 0 to 4
          invariant divided && |children| == |tree.kids| == 4
          invariant total == |points| + |KidContents(tree.kids, i)|
        {
          assert OwnsChild(i);
          var below := children[i].Size();
          total := total + below;
        }
      }
    }

    /** Half-extent of the leaf that contains the query, to start a search at local scale. */
    method HalfExtentAt(x: real, y: real) returns (extent: real)
      requires Valid()
      ensures extent == LeafHalfExtent(tree, x, y)
      decreases tree
    {
      if !divided {
        return Larger(boundary.hw, boundary.hh);
      }
      for i := 0 to 4
        invariant divided && |children| == |tree.kids| == 4
        invariant LeafHalfExtent(tree, x, y) == ExtentBelow(tree, x, y, 4 - i)
      {
        assert OwnsChild(i) && children[i].Valid();
        if children[i].boundary.ContainsXY(x, y) {
          extent := children[i].HalfExtentAt(x, y);
          return;
        }
      }
      extent := Larger(boundary.hw, boundary.hh);
    }

    /** Everything within a box around the query, nearest first. */
    method HitsByDistance(x: real, y: real, radius: real) returns (candidates: seq<Point>)
      requires Valid() && WellFormed(tree)
      ensures IsHits(tree, SearchBox(x, y, radius), candidates) && SortedByDistance(x, y, candidates)
    {
      hide Valid, WellFormed, IsHits, SortedByDistance;
      var found := QueryRange(SearchBox(x, y, radius), []);
      assert found == QuadModel.QueryRange(tree, SearchBox(x, y, radius));
      QueryHits(tree, SearchBox(x, y, radius));
      candidates := SortByDistance(x, y, found);
      SameHits(tree, SearchBox(x, y, radius), found, candidates);
    }

    /** The k nearest of the stored points that the last box holds, nearest first: of all
        stored points when that box covers the boundary, as it does from any query inside. */
    method KNearest(x: real, y: real, k: int) returns (result: seq<Point>)
      requires Valid() && WellFormed(tree)
      ensures k <= 0 ==> result == []
      ensures k > 0 ==> IsKNearestOf(Seen(tree, x, y), x, y, k, result)
      ensures k > 0 ==> IsSortedSelection(tree, x, y, k, result)
      ensures k > 0 && Covers(SearchBox(x, y, LastRadius(tree, x, y)), boundary) ==> IsKNearest(tree, x, y, k, result)
      ensures k > 0 && boundary.ContainsXY(x, y) ==> IsKNearest(tree, x, y, k, result)
    {
      hide *;
      result := [];
      if k <= 0 {
        return;
      }
      var initialRadius := HalfExtentAt(x, y);
      if initialRadius <= 0.0 {
        initialRadius := 1.0;
      }
      var maxRadius := MaxRadius(boundary);
      SameBoundary();
      Starts(tree, x, y);
      var radius := initialRadius;
      while true
        invariant 0.0 < radius && RadiusReaching(radius, maxRadius) == LastRadius(tree, x, y)
        decreases Doublings(radius, maxRadius)
      {
        var candidates := HitsByDistance(x, y, radius);
        var atMaxRadius := radius >= maxRadius;
        AtMost(radius, maxRadius);
        if |candidates| >= k {
          if DistSq(x, y, candidates[k - 1]) <= radius * radius || atMaxRadius {
            Settled(tree, x, y, k, radius, candidates);
            result := candidates[..k];
            return;
          }
        } else if atMaxRadius {
          Settled(tree, x, y, k, radius, candidates);
          assert candidates[..|candidates|] == candidates;
          result := candidates;
          return;
        }
        radius := radius * 2.0;
      }
    }

    lemma SameBoundary()
      requires Valid()
      ensures tree.box == boundary
    {
    }

    /** A nearest stored point whose id is not excluded.  None means that no eligible point
        lies within the last radius; for a query inside the boundary, that none is stored. */
    method NearestNeighbor(x: real, y: real, excludeId: int) returns (found: bool, best: Point)
      requires Valid() && WellFormed(tree)
      ensures found ==> IsNearest(tree, x, y, excludeId, best)
      ensures found <==> !NoneInReach(tree, x, y, excludeId)
      ensures !found && boundary.ContainsXY(x, y) ==> NoneEligible(tree, excludeId)
    {
      hide *;
      found, best := false, Point(0, 0.0, 0.0);
      var initialRadius := HalfExtentAt(x, y);
      if initialRadius <= 0.0 {
        initialRadius := 1.0;
      }
      var maxRadius := MaxRadius(boundary);
      SameBoundary();
      Starts(tree, x, y);
      var radius := initialRadius;
      while radius <= maxRadius
        invariant 0.0 < radius
        invariant radius <= maxRadius ==> InReach(tree, x, y, RadiusWithin(radius, maxRadius))
        invariant radius > maxRadius ==> NoneInReach(tree, x, y, excludeId)
        decreases Doublings(radius, maxRadius)
      {
        var candidates := EverythingWithin(x, y, radius);
        var at := BestOf(x, y, excludeId, candidates);
        BestIsNearest(tree, x, y, excludeId, radius, candidates, at);
        BestInRange(x, y, excludeId, candidates, at);
        if at >= 0 && DistSq(x, y, candidates[at]) <= radius * radius {
          FoundInReach(tree, x, y, excludeId, radius, candidates[at]);
          return true, candidates[at];
        }
        StillWithin(tree, x, y, excludeId, radius);
        radius := radius * 2.0;
      }
      InsideReachesAll(tree, x, y, excludeId);
    }

    method EverythingWithin(x: real, y: real, radius: real) returns (candidates: seq<Point>)
      requires Valid() && WellFormed(tree)
      ensures IsHits(tree, SearchBox(x, y, radius), candidates)
    {
      hide Valid, WellFormed, IsHits;
      candidates := QueryRange(SearchBox(x, y, radius), []);
      assert candidates == QuadModel.QueryRange(tree, SearchBox(x, y, radius));
      QueryHits(tree, SearchBox(x, y, radius));
    }
  }

  lemma BestInRange(x: real, y: real, excludeId: int, ps: seq<Point>, best: int)
    requires IsBestOf(x, y, excludeId, ps, best)
    ensures best < |ps|
  {
  }

  lemma Starts(t: Tree, x: real, y: real)
    ensures var start := StartRadius(LeafHalfExtent(t, x, y));
            && 0.0 < start
            && start == (if LeafHalfExtent(t, x, y) <= 0.0 then 1.0 else LeafHalfExtent(t, x, y))
            && LastRadius(t, x, y) == RadiusReaching(start, MaxRadius(t.box))
            && (start <= MaxRadius(t.box) ==> InReach(t, x, y, RadiusWithin(start, MaxRadius(t.box))))
            && (start > MaxRadius(t.box) ==> forall id :: NoneInReach(t, x, y, id))
  {
  }

  lemma AtMost(radius: real, limit: real)
    requires 0.0 < radius
    ensures radius <= RadiusReaching(radius, limit)
    ensures limit <= radius ==> RadiusReaching(radius, limit) == radius
    ensures radius < limit ==> RadiusReaching(radius * 2.0, limit) == RadiusReaching(radius, limit)
                               && Doublings(radius * 2.0, limit) < Doublings(radius, limit)
  {
    hide Doublings;
    if radius < limit {
      FewerDoublings(radius, limit);
    }
  }

  /** When the k-nearest search may stop, the first k hits (or all of them) are the answer. */
  lemma Settled(t: Tree, x: real, y: real, k: nat, radius: real, ps: seq<Point>)
    requires WellFormed(t) && 0 < k && 0.0 <= radius <= LastRadius(t, x, y)
    requires IsHits(t, SearchBox(x, y, radius), ps) && SortedByDistance(x, y, ps)
    requires radius == LastRadius(t, x, y) || (k <= |ps| && DistSq(x, y, ps[k - 1]) <= radius * radius)
    ensures var r := ps[..if k <= |ps| then k else |ps|];
            && IsKNearestOf(Seen(t, x, y), x, y, k, r) && IsSortedSelection(t, x, y, k, r)
            && (Covers(SearchBox(x, y, LastRadius(t, x, y)), t.box) ==> IsKNearest(t, x, y, k, r))
            && (t.box.ContainsXY(x, y) ==> IsKNearest(t, x, y, k, r))
  {
    hide WellFormed, Contents, IsHits, MaxRadius, DistSq, IsKNearestOf, Seen, LastRadius, Covers, IsSortedSelection;
    var m := if k <= |ps| then k else |ps|;
    PrefixOf(ps, m);
    SeenFacts(t, x, y);
    SeenGrows(t, x, y, radius, ps);
    if k <= |ps| && DistSq(x, y, ps[k - 1]) <= radius * radius {
      EnoughHits(t, x, y, k, radius, ps);
      KNearestOfPart(Contents(t), Seen(t, x, y), x, y, k, ps[..m]);
    } else {
      AllHits(x, y, k, m, ps);
    }
    Selection(t, x, y, k, ps[..m]);
  }

  /** The last box from inside the boundary covers it, and a box that covers it sees all. */
  lemma SeenFacts(t: Tree, x: real, y: real)
    requires WellFormed(t)
    ensures Seen(t, x, y) <= Contents(t)
    ensures Covers(SearchBox(x, y, LastRadius(t, x, y)), t.box) ==> Seen(t, x, y) == Contents(t)
    ensures t.box.ContainsXY(x, y) ==> Covers(SearchBox(x, y, LastRadius(t, x, y)), t.box)
  {
    hide WellFormed, Contents, IsHits, MaxRadius, Covers, QuadModel.QueryRange, RadiusReaching;
    var last := SearchBox(x, y, LastRadius(t, x, y));
    var ps := QuadModel.QueryRange(t, last);
    QueryHits(t, last);
    HitsAreStored(t, last, ps);
    if Covers(last, t.box) {
      CoveredHits(t, x, y, LastRadius(t, x, y), ps);
    }
    if t.box.ContainsXY(x, y) {
      MaxBoxCovers(t.box, x, y, LastRadius(t, x, y));
    }
  }

  /** No box before the last one sees anything that the last one misses. */
  lemma SeenGrows(t: Tree, x: real, y: real, radius: real, ps: seq<Point>)
    requires WellFormed(t) && radius <= LastRadius(t, x, y) && IsHits(t, SearchBox(x, y, radius), ps)
    ensures multiset(ps) <= Seen(t, x, y)
    ensures radius == LastRadius(t, x, y) ==> multiset(ps) == Seen(t, x, y)
  {
    hide WellFormed, Contents, LastRadius, QuadModel.QueryRange;
    var last := SearchBox(x, y, LastRadius(t, x, y));
    QueryHits(t, last);
    forall q: Point
      ensures multiset(ps)[q] <= Seen(t, x, y)[q]
      ensures radius == LastRadius(t, x, y) ==> multiset(ps)[q] == Seen(t, x, y)[q]
    {
      assert SearchBox(x, y, radius).Contains(q) ==> last.Contains(q);
    }
  }

  lemma Selection(t: Tree, x: real, y: real, k: nat, r: seq<Point>)
    requires IsKNearestOf(Seen(t, x, y), x, y, k, r) && Seen(t, x, y) <= Contents(t)
    ensures IsSortedSelection(t, x, y, k, r)
  {
    hide Contents, Seen;
  }

  // ---- The reach of the nearest-neighbour search ---------------------------------------------

  lemma FoundInReach(t: Tree, x: real, y: real, excludeId: int, radius: real, p: Point)
    requires 0.0 < radius <= MaxRadius(t.box) && InReach(t, x, y, RadiusWithin(radius, MaxRadius(t.box)))
    requires IsNearest(t, x, y, excludeId, p) && DistSq(x, y, p) <= radius * radius
    ensures !NoneInReach(t, x, y, excludeId)
  {
    hide DistSq, Contents, StartRadius, LeafHalfExtent, MaxRadius;
    var last := RadiusWithin(radius, MaxRadius(t.box));
    hide RadiusWithin;
    SquareMonotone(radius, last);
  }

  lemma StillWithin(t: Tree, x: real, y: real, excludeId: int, radius: real)
    requires 0.0 < radius <= MaxRadius(t.box) && InReach(t, x, y, RadiusWithin(radius, MaxRadius(t.box)))
    requires NoneWithin(t, x, y, excludeId, radius)
    ensures Doublings(radius * 2.0, MaxRadius(t.box)) < Doublings(radius, MaxRadius(t.box))
    ensures radius * 2.0 <= MaxRadius(t.box) ==> InReach(t, x, y, RadiusWithin(radius * 2.0, MaxRadius(t.box)))
    ensures radius * 2.0 > MaxRadius(t.box) ==> NoneInReach(t, x, y, excludeId)
  {
    hide Doublings, NoneWithin, MaxRadius, StartRadius, LeafHalfExtent;
    FewerDoublings(radius, MaxRadius(t.box));
  }

  lemma InsideReachesAll(t: Tree, x: real, y: real, excludeId: int)
    requires WellFormed(t)
    ensures t.box.ContainsXY(x, y) && NoneInReach(t, x, y, excludeId) ==> NoneEligible(t, excludeId)
  {
    hide WellFormed, NoneWithin, NoneEligible, LeafHalfExtent;
    if t.box.ContainsXY(x, y) && NoneInReach(t, x, y, excludeId) {
      LeafExtentBounded(t, x, y);
      NothingEligible(t, x, y, excludeId, RadiusWithin(StartRadius(LeafHalfExtent(t, x, y)), MaxRadius(t.box)));
    }
  }

  lemma SameHits(t: Tree, range: Box, a: seq<Point>, b: seq<Point>)
    requires IsHits(t, range, a) && multiset(a) == multiset(b)
    ensures IsHits(t, range, b)
  {
  }

  method InsertByDistance(x: real, y: real, sorted: seq<Point>, p: Point) returns (r: seq<Point>)
    requires SortedByDistance(x, y, sorted)
    ensures SortedByDistance(x, y, r) && multiset(r) == multiset(sorted) + multiset{p}
  {
    hide DistSq;
    var at := 0;
    while at < |sorted| && DistSq(x, y, sorted[at]) <= DistSq(x, y, p)
      invariant at <= |sorted| && forall i :: 0 <= i < at ==> DistSq(x, y, sorted[i]) <= DistSq(x, y, p)
    {
      at := at + 1;
    }
    SplitBag(sorted, at, p);
    r := sorted[..at] + [p] + sorted[at..];
    assert forall i, j :: 0 <= i < at <= j < |sorted| ==> DistSq(x, y, sorted[i]) <= DistSq(x, y, sorted[j]);
  }

  lemma SplitBag(ps: seq<Point>, at: nat, p: Point)
    requires at <= |ps|
    ensures multiset(ps[..at] + [p] + ps[at..]) == multiset(ps) + multiset{p}
  {
    assert ps == ps[..at] + ps[at..];
  }

  /** A sort by squared distance; the order of equidistant points is not promised. */
  method SortByDistance(x: real, y: real, ps: seq<Point>) returns (r: seq<Point>)
    ensures SortedByDistance(x, y, r) && multiset(r) == multiset(ps)
  {
    hide SortedByDistance;
    r := [];
    NothingToSort(x, y);
    for i := 0 to |ps|
      invariant SortedByDistance(x, y, r) && multiset(r) == multiset(ps[..i])
    {
      r := InsertByDistance(x, y, r, ps[i]);
      assert ps[..i + 1] == ps[..i] + [ps[i]];
    }
    assert ps[..|ps|] == ps;
  }

  lemma NothingToSort(x: real, y: real)
    ensures SortedByDistance(x, y, [])
  {
  }

  method BestOf(x: real, y: real, excludeId: int, candidates: seq<Point>) returns (best: int)
    ensures IsBestOf(x, y, excludeId, candidates, best)
  {
    best := -1;
    for i := 0 to |candidates|
      invariant -1 <= best < i
      invariant IsBestOf(x, y, excludeId, candidates[..i], best)
    {
      if candidates[i].id == excludeId {
        continue;
      }
      if best == -1 || DistSq(x, y, candidates[i]) < DistSq(x, y, candidates[best]) {
        best := i;
      }
    }
    assert candidates[..|candidates|] == candidates;
  }

  method IndexOfId(ps: seq<Point>, id: int) returns (i: nat)
    ensures i == FindId(ps, id)
  {
    i := 0;
    while i < |ps| && ps[i].id != id
      invariant i <= |ps| && FindId(ps, id) == i + FindId(ps[i..], id)
    {
      assert ps[i..][1..] == ps[i + 1..];
      i := i + 1;
    }
  }

  lemma FourKids(t: Tree, a: seq<Point>, b: seq<Point>, c: seq<Point>, d: seq<Point>)
    requires t.Node? && |t.kids| == 4
    requires t.kids[0].points == a && t.kids[1].points == b && t.kids[2].points == c && t.kids[3].points == d
    ensures KidPoints(t.kids, 4) == a + b + c + d
  {
    assert KidPoints(t.kids, 4) == KidPoints(t.kids, 3) + d;
    assert KidPoints(t.kids, 3) == KidPoints(t.kids, 2) + c;
    assert KidPoints(t.kids, 2) == KidPoints(t.kids, 1) + b;
    assert KidPoints(t.kids, 1) == KidPoints(t.kids, 0) + a;
  }

  lemma KidKeptAll(t: Tree, p: Point, i: nat)
    requires t.Node? && |t.kids| == 4 && i < 4 && WellFormed(t.kids[i]) && !QuadModel.Remove(t.kids[i], p).1
    ensures QuadModel.Remove(t.kids[i], p).0 == t.kids[i]
    ensures RemoveBelow(t, p, 4 - i) == RemoveBelow(t, p, 3 - i)
  {
    var q := RemoveCorrect(t.kids[i], p);
  }

  lemma KidRefused(t: Tree, p: Point, i: nat)
    requires WellFormed(t) && t.Node? && i < 4 && WellFormed(t.kids[i]) && !QuadModel.Insert(t.kids[i], p).1
    ensures QuadModel.Insert(t.kids[i], p).0 == t.kids[i]
    ensures InsertBelow(t, p, i) == InsertBelow(t, p, i + 1)
  {
  }

  lemma KidFacts(t: Tree, i: nat)
    requires WellFormed(t) && t.Node? && i < 4
    ensures |t.kids| == 4 && WellFormed(t.kids[i]) && IsChild(t, t.kids[i], i) && LevelsLeft(t.kids[i]) < LevelsLeft(t)
  {
    assert IsChild(t, t.kids[i], i);
  }
}
