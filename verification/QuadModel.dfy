/** The quadtree as a value: what each operation of the mutable tree computes, and what
    that means for the bag of points it stores. */
module QuadModel {

  const MAX_DEPTH := 16

  datatype Point = Point(id: int, x: real, y: real)

  /** An axis-aligned box, closed on all sides. */
  datatype Box = Box(cx: real, cy: real, hw: real, hh: real)
  {
    predicate ContainsXY(x: real, y: real)
    {
      cx - hw <= x <= cx + hw && cy - hh <= y <= cy + hh
    }

    predicate Contains(p: Point)
    {
      ContainsXY(p.x, p.y)
    }

    predicate Intersects(o: Box)
    {
      !(o.cx - o.hw > cx + hw || o.cx + o.hw < cx - hw || o.cy - o.hh > cy + hh || o.cy + o.hh < cy - hh)
    }
  }

  /** The four quadrants in the order they are tried: northwest, northeast, southwest, southeast. */
  function Quadrant(b: Box, i: nat): Box
  {
    var hw, hh := b.hw / 2.0, b.hh / 2.0;
    Box(if i == 0 || i == 2 then b.cx - hw else b.cx + hw, if i == 0 || i == 1 then b.cy + hh else b.cy - hh, hw, hh)
  }

  /** A divided node may keep points of its own: those it held when it was divided. */
  datatype Tree =
    | Leaf(box: Box, capacity: int, depth: nat, points: seq<Point>)
    | Node(box: Box, capacity: int, depth: nat, points: seq<Point>, kids: seq<Tree>)

  ghost predicate IsChild(parent: Tree, c: Tree, i: nat)
  {
    c.box == Quadrant(parent.box, i) && c.capacity == parent.capacity && c.depth == parent.depth + 1
  }

  /** Points lie inside their node's box, children are the four quadrants one level down,
      and division stops at the depth cap. */
  ghost predicate WellFormed(t: Tree)
  {
    && 1 <= t.capacity
    && (forall i :: 0 <= i < |t.points| ==> t.box.Contains(t.points[i]))
    && (t.Node? ==>
          && t.depth < MAX_DEPTH && |t.kids| == 4
          && forall i :: 0 <= i < 4 ==> IsChild(t, t.kids[i], i) && WellFormed(t.kids[i]))
  }

  ghost predicate SameNode(a: Tree, b: Tree)
  {
    a.box == b.box && a.capacity == b.capacity && a.depth == b.depth
  }

  /** Every point stored anywhere in the tree, with multiplicity. */
  ghost function Contents(t: Tree): multiset<Point>
  {
    multiset(t.points) + if t.Leaf? then multiset{} else KidContents(t.kids, |t.kids|)
  }

  ghost function KidContents(kids: seq<Tree>, m: nat): multiset<Point>
    requires m <= |kids|
  {
    if m == 0 then multiset{} else KidContents(kids, m - 1) + Contents(kids[m - 1])
  }

  lemma {:induction false} KidGrew(kids: seq<Tree>, i: nat, k: Tree, m: nat, delta: multiset<Point>)
    requires i < |kids| && m <= |kids| && Contents(k) == Contents(kids[i]) + delta
    ensures KidContents(kids[i := k], m) == KidContents(kids, m) + if i < m then delta else multiset{}
    decreases m
  {
    hide Contents;
    if m > 0 {
      KidGrew(kids, i, k, m - 1, delta);
    }
  }

  lemma {:induction false} KidHolds(kids: seq<Tree>, m: nat, p: Point) returns (i: nat)
    requires m <= |kids| && p in KidContents(kids, m)
    ensures i < m && p in Contents(kids[i])
    decreases m
  {
    if p in Contents(kids[m - 1]) {
      i := m - 1;
    } else {
      i := KidHolds(kids, m - 1, p);
    }
  }

  lemma {:induction false} KidWithin(kids: seq<Tree>, i: nat, m: nat)
    requires i < m <= |kids|
    ensures Contents(kids[i]) <= KidContents(kids, m)
    decreases m
  {
    if i < m - 1 {
      KidWithin(kids, i, m - 1);
    }
  }

  ghost function DeepestLevel(t: Tree): nat
  {
    if t.Leaf? then t.depth else DeepestKid(t.kids, |t.kids|, t.depth)
  }

  ghost function DeepestKid(kids: seq<Tree>, m: nat, d: nat): nat
    requires m <= |kids|
  {
    if m == 0 then d
    else
      var a, b := DeepestKid(kids, m - 1, d), DeepestLevel(kids[m - 1]);
      if a < b then b else a
  }

  lemma {:induction false} DepthIsCapped(t: Tree)
    requires WellFormed(t) && t.depth <= MAX_DEPTH
    ensures DeepestLevel(t) <= MAX_DEPTH == 16
    decreases t, 1
  {
    if t.Node? {
      KidDepthIsCapped(t, 4);
    }
  }

  lemma {:induction false} KidDepthIsCapped(t: Tree, m: nat)
    requires WellFormed(t) && t.Node? && m <= 4
    ensures DeepestKid(t.kids, m, t.depth) <= MAX_DEPTH
    decreases t, 0, m
  {
    if m > 0 {
      KidDepthIsCapped(t, m - 1);
      assert IsChild(t, t.kids[m - 1], m - 1);
      DepthIsCapped(t.kids[m - 1]);
    }
  }

  lemma QuadrantsTile(b: Box, p: Point)
    ensures b.Contains(p) <==> exists i :: 0 <= i < 4 && Quadrant(b, i).Contains(p)
  {
    assert b.Contains(p) ==> Quadrant(b, 0).Contains(p) || Quadrant(b, 1).Contains(p)
                             || Quadrant(b, 2).Contains(p) || Quadrant(b, 3).Contains(p);
  }

  lemma {:induction false} ContentsInBox(t: Tree, p: Point)
    requires WellFormed(t) && p in Contents(t)
    ensures t.box.Contains(p)
    decreases t
  {
    if p !in t.points {
      var i := KidHolds(t.kids, 4, p);
      assert IsChild(t, t.kids[i], i);
      ContentsInBox(t.kids[i], p);
      QuadrantsTile(t.box, p);
    }
  }

  // ---- Insert ------------------------------------------------------------------------------

  function Divide(t: Tree): Tree
    requires t.Leaf?
  {
    Node(t.box, t.capacity, t.depth, t.points,
         seq(4, i requires 0 <= i < 4 => Leaf(Quadrant(t.box, i), t.capacity, t.depth + 1, [])))
  }

  predicate HasRoom(t: Tree)
  {
    (t.Leaf? && |t.points| < t.capacity) || t.depth >= MAX_DEPTH
  }

  function LevelsLeft(t: Tree): nat
  {
    if t.depth < MAX_DEPTH then MAX_DEPTH - t.depth else 0
  }

  lemma DivideKeeps(t: Tree)
    requires WellFormed(t) && t.Leaf? && t.depth < MAX_DEPTH
    ensures WellFormed(Divide(t)) && Contents(Divide(t)) == Contents(t)
  {
    var d := Divide(t);
    forall i | 0 <= i < 4 ensures IsChild(d, d.kids[i], i) && WellFormed(d.kids[i]) {
    }
    EmptyKids(d.kids, 4);
  }

  lemma {:induction false} EmptyKids(kids: seq<Tree>, m: nat)
    requires m <= |kids| && forall i :: 0 <= i < |kids| ==> kids[i].Leaf? && kids[i].points == []
    ensures KidContents(kids, m) == multiset{}
  {
    if m > 0 {
      EmptyKids(kids, m - 1);
    }
  }

  function Insert(t: Tree, p: Point): (r: (Tree, bool))
    requires WellFormed(t)
    decreases LevelsLeft(t), 5
  {
    if !t.box.Contains(p) then
      (t, false)
    else if HasRoom(t) then
      (t.(points := t.points + [p]), true)
    else if t.Leaf? then
      DivideKeeps(t);
      (InsertBelow(Divide(t), p, 0), true)
    else
      (InsertBelow(t, p, 0), true)
  }

  /** Into the first of the quadrants `i`.. that accepts the point. */
  function InsertBelow(d: Tree, p: Point, i: nat): Tree
    requires WellFormed(d) && d.Node? && i <= 4
    decreases LevelsLeft(d), 4 - i
  {
    if i == 4 then
      d.(points := d.points + [p])
    else
      assert IsChild(d, d.kids[i], i);
      var (k, ok) := Insert(d.kids[i], p);
      if ok then d.(kids := d.kids[i := k]) else InsertBelow(d, p, i + 1)
  }

  /** Insert accepts exactly the points inside the root box and adds exactly that point. */
  lemma {:induction false} InsertCorrect(t: Tree, p: Point)
    requires WellFormed(t)
    ensures Insert(t, p).1 <==> t.box.Contains(p)
    ensures var r := Insert(t, p).0;
            && WellFormed(r) && SameNode(r, t)
            && Contents(r) == if t.box.Contains(p) then Contents(t) + multiset{p} else Contents(t)
    decreases LevelsLeft(t), 5
  {
    if t.box.Contains(p) {
      if HasRoom(t) {
        assert multiset(t.points + [p]) == multiset(t.points) + multiset{p};
      } else {
        var d := if t.Leaf? then Divide(t) else t;
        if t.Leaf? {
          DivideKeeps(t);
        }
        QuadrantsTile(t.box, p);
        InsertBelowCorrect(d, p, 0);
      }
    }
  }

  /** One of the quadrants accepts, so the point never stays behind in `d.points`. */
  lemma {:induction false} InsertBelowCorrect(d: Tree, p: Point, i: nat)
    requires WellFormed(d) && d.Node? && i <= 4
    requires exists j :: i <= j < 4 && Quadrant(d.box, j).Contains(p)
    ensures var r := InsertBelow(d, p, i);
            WellFormed(r) && SameNode(r, d) && Contents(r) == Contents(d) + multiset{p} && r.points == d.points
    decreases LevelsLeft(d), 4 - i
  {
    hide Contents, Insert, Quadrant;
    assert IsChild(d, d.kids[i], i);
    InsertCorrect(d.kids[i], p);
    var (k, ok) := Insert(d.kids[i], p);
    if ok {
      KidReplaced(d, i, k);
      KidAdded(d, i, k, multiset{p});
    } else {
      InsertBelowCorrect(d, p, i + 1);
    }
  }

  lemma KidAdded(t: Tree, i: nat, k: Tree, delta: multiset<Point>)
    requires t.Node? && |t.kids| == 4 && i < 4 && Contents(k) == Contents(t.kids[i]) + delta
    ensures Contents(t.(kids := t.kids[i := k])) == Contents(t) + delta
  {
    var r := t.(kids := t.kids[i := k]);
    assert Contents(t) == multiset(t.points) + KidContents(t.kids, 4);
    assert Contents(r) == multiset(t.points) + KidContents(r.kids, 4);
    hide Contents;
    KidGrew(t.kids, i, k, 4, delta);
  }

  lemma KidReplaced(d: Tree, i: nat, k: Tree)
    requires WellFormed(d) && d.Node? && i < 4 && WellFormed(k) && SameNode(k, d.kids[i])
    ensures WellFormed(d.(kids := d.kids[i := k]))
  {
    var r := d.(kids := d.kids[i := k]);
    forall j | 0 <= j < 4 ensures IsChild(r, r.kids[j], j) && WellFormed(r.kids[j]) {
      assert IsChild(d, d.kids[j], j);
    }
  }

  // ---- Remove ------------------------------------------------------------------------------

  /** The position of the first point with this id, or the length. */
  function FindId(ps: seq<Point>, id: int): (i: nat)
    ensures i <= |ps|
    ensures i < |ps| ==> ps[i].id == id
    ensures forall j :: 0 <= j < i ==> ps[j].id != id
  {
    if ps == [] then 0 else if ps[0].id == id then 0 else 1 + FindId(ps[1..], id)
  }

  /** The points of the four children, when all of them are leaves. */
  function KidPoints(kids: seq<Tree>, m: nat): seq<Point>
    requires m <= |kids|
  {
    if m == 0 then [] else KidPoints(kids, m - 1) + kids[m - 1].points
  }

  function Collapse(t: Tree): Tree
  {
    if t.Leaf? then t
    else if exists i :: 0 <= i < |t.kids| && t.kids[i].Node? then t
    else if |t.points| + |KidPoints(t.kids, |t.kids|)| > t.capacity then t
    else Leaf(t.box, t.capacity, t.depth, t.points + KidPoints(t.kids, |t.kids|))
  }

  function Remove(t: Tree, p: Point): (r: (Tree, bool))
    decreases t, 5
  {
    if !t.box.Contains(p) then (t, false)
    else
      var i := FindId(t.points, p.id);
      if i < |t.points| then (t.(points := t.points[..i] + t.points[i + 1..]), true)
      else if t.Leaf? then (t, false)
      else RemoveBelow(t, p, |t.kids|)
  }

  /** From the first of the last `m` children that holds the id; then shrink if possible. */
  function RemoveBelow(t: Tree, p: Point, m: nat): (r: (Tree, bool))
    requires t.Node? && m <= |t.kids|
    decreases t, 0, m
  {
    if m == 0 then (t, false)
    else
      var i := |t.kids| - m;
      var (k, ok) := Remove(t.kids[i], p);
      if ok then (Collapse(t.(kids := t.kids[i := k])), true) else RemoveBelow(t, p, m - 1)
  }

  lemma {:induction false} KidPointsContents(kids: seq<Tree>, m: nat)
    requires m <= |kids| && forall i :: 0 <= i < |kids| ==> kids[i].Leaf?
    ensures multiset(KidPoints(kids, m)) == KidContents(kids, m)
  {
    if m > 0 {
      KidPointsContents(kids, m - 1);
    }
  }

  lemma CollapseKeepsContents(t: Tree)
    requires WellFormed(t)
    ensures Contents(Collapse(t)) == Contents(t) && WellFormed(Collapse(t)) && SameNode(Collapse(t), t)
  {
    var c := Collapse(t);
    if c != t {
      KidPointsContents(t.kids, 4);
      var ps := t.points + KidPoints(t.kids, 4);
      assert multiset(ps) == Contents(t);
      forall i | 0 <= i < |ps| ensures t.box.Contains(ps[i]) {
        assert ps[i] in multiset(ps);
        ContentsInBox(t, ps[i]);
      }
    }
  }

  lemma ErasedPoint(ps: seq<Point>, i: nat)
    requires i < |ps|
    ensures multiset(ps) == multiset(ps[..i] + ps[i + 1..]) + multiset{ps[i]}
    ensures ps[i] in multiset(ps)
  {
    assert ps == ps[..i] + [ps[i]] + ps[i + 1..];
  }

  /** `r` is `t` without one point `q` that has the wanted id. */
  ghost predicate TookOut(t: Tree, r: Tree, id: int, q: Point)
  {
    WellFormed(r) && SameNode(r, t) && q.id == id && Contents(t) == Contents(r) + multiset{q}
  }

  /** The points of a node may be replaced by others inside its box. */
  lemma PointsReplaced(t: Tree, ps: seq<Point>)
    requires WellFormed(t) && forall i :: 0 <= i < |ps| ==> t.box.Contains(ps[i])
    ensures WellFormed(t.(points := ps)) && SameNode(t.(points := ps), t)
  {
    var r := t.(points := ps);
    if t.Node? {
      forall j | 0 <= j < 4 ensures IsChild(r, r.kids[j], j) && WellFormed(r.kids[j]) {
        assert IsChild(t, t.kids[j], j);
      }
    }
  }

  lemma PointsChanged(t: Tree, ps: seq<Point>, delta: multiset<Point>)
    requires multiset(t.points) == multiset(ps) + delta
    ensures Contents(t) == Contents(t.(points := ps)) + delta
  {
    var rest := if t.Leaf? then multiset{} else KidContents(t.kids, |t.kids|);
    assert Contents(t) == multiset(t.points) + rest;
    assert Contents(t.(points := ps)) == multiset(ps) + rest;
  }

  lemma EraseCorrect(t: Tree, i: nat)
    requires WellFormed(t) && i < |t.points|
    ensures TookOut(t, t.(points := t.points[..i] + t.points[i + 1..]), t.points[i].id, t.points[i])
  {
    var ps := t.points[..i] + t.points[i + 1..];
    ErasedPoint(t.points, i);
    forall j | 0 <= j < |ps| ensures t.box.Contains(ps[j]) {
      assert ps[j] == t.points[if j < i then j else j + 1];
    }
    PointsReplaced(t, ps);
    hide WellFormed, Contents;
    PointsChanged(t, ps, multiset{t.points[i]});
  }

  /** Remove takes out one stored point with the given id, or changes nothing; and it never
      misses a point that is stored exactly as given. */
  lemma {:induction false} RemoveCorrect(t: Tree, p: Point) returns (q: Point)
    requires WellFormed(t)
    ensures Remove(t, p).1 ==> TookOut(t, Remove(t, p).0, p.id, q)
    ensures !Remove(t, p).1 ==> Remove(t, p).0 == t && p !in Contents(t)
    decreases t, 5
  {
    hide TookOut;
    q := p;
    if t.box.Contains(p) {
      var i := FindId(t.points, p.id);
      if i < |t.points| {
        q := t.points[i];
        EraseCorrect(t, i);
      } else {
        assert p !in t.points;
        if t.Node? {
          q := RemoveBelowCorrect(t, p, 4);
        }
      }
    } else if p in Contents(t) {
      ContentsInBox(t, p);
    }
  }

  lemma {:induction false} RemoveBelowCorrect(t: Tree, p: Point, m: nat) returns (q: Point)
    requires WellFormed(t) && t.Node? && m <= 4 && p !in t.points
    requires forall i :: 0 <= i < 4 - m ==> p !in Contents(t.kids[i])
    ensures RemoveBelow(t, p, m).1 ==> TookOut(t, RemoveBelow(t, p, m).0, p.id, q)
    ensures !RemoveBelow(t, p, m).1 ==> RemoveBelow(t, p, m).0 == t && p !in Contents(t)
    decreases t, 0, m
  {
    hide Contents, TookOut, Collapse, Remove;
    q := p;
    if m == 0 {
      NowhereBelow(t, p);
    } else {
      var i := 4 - m;
      q := RemoveCorrect(t.kids[i], p);
      if Remove(t.kids[i], p).1 {
        TookOutBelow(t, i, Remove(t.kids[i], p).0, p.id, q);
      } else {
        q := RemoveBelowCorrect(t, p, m - 1);
      }
    }
  }

  lemma NowhereBelow(t: Tree, p: Point)
    requires t.Node? && |t.kids| == 4 && p !in t.points && forall i :: 0 <= i < 4 ==> p !in Contents(t.kids[i])
    ensures p !in Contents(t)
  {
    if p in Contents(t) {
      var i := KidHolds(t.kids, 4, p);
    }
  }

  lemma KidChanged(t: Tree, i: nat, k: Tree, delta: multiset<Point>)
    requires t.Node? && |t.kids| == 4 && i < 4 && Contents(t.kids[i]) == Contents(k) + delta
    ensures Contents(t) == Contents(t.(kids := t.kids[i := k])) + delta
  {
    var r := t.(kids := t.kids[i := k]);
    assert Contents(t) == multiset(t.points) + KidContents(t.kids, 4);
    assert Contents(r) == multiset(t.points) + KidContents(r.kids, 4);
    hide Contents;
    KidGrew(r.kids, i, t.kids[i], 4, delta);
    assert r.kids[i := t.kids[i]] == t.kids;
  }

  lemma TookOutBelow(t: Tree, i: nat, k: Tree, id: int, q: Point)
    requires WellFormed(t) && t.Node? && |t.kids| == 4 && i < 4 && TookOut(t.kids[i], k, id, q)
    ensures TookOut(t, Collapse(t.(kids := t.kids[i := k])), id, q)
  {
    hide Contents, WellFormed, Collapse;
    KidReplaced(t, i, k);
    KidChanged(t, i, k, multiset{q});
    CollapseKeepsContents(t.(kids := t.kids[i := k]));
  }

  ghost predicate UniqueIds(m: multiset<Point>)
  {
    && (forall p :: p in m ==> m[p] == 1)
    && (forall p, q :: p in m && q in m && p.id == q.id ==> p == q)
  }

  lemma OneLess(m: multiset<Point>, r: multiset<Point>, q: Point)
    requires UniqueIds(m) && m == r + multiset{q}
    ensures UniqueIds(r) && q in m && r == m - multiset{q}
  {
    forall x | x in r ensures x in m && r[x] == 1 {
      assert m[x] == 1;
    }
  }

  /** With unique ids, removing a stored point removes exactly it, removing an unknown id
      changes nothing, and the ids stay unique. */
  lemma RemoveWithUniqueIds(t: Tree, p: Point)
    requires WellFormed(t) && UniqueIds(Contents(t))
    ensures UniqueIds(Contents(Remove(t, p).0))
    ensures p in Contents(t) ==> Remove(t, p).1 && Contents(Remove(t, p).0) == Contents(t) - multiset{p}
    ensures (forall q :: q in Contents(t) ==> q.id != p.id) ==> Remove(t, p) == (t, false)
  {
    hide Remove, Contents, WellFormed;
    var q := RemoveCorrect(t, p);
    if Remove(t, p).1 {
      OneLess(Contents(t), Contents(Remove(t, p).0), q);
    }
  }

  // ---- Any sequence of operations --------------------------------------------------------------

  datatype Op = Store(p: Point) | Take(p: Point) | Wipe

  lemma RemoveKeeps(t: Tree, p: Point)
    requires WellFormed(t)
    ensures WellFormed(Remove(t, p).0) && SameNode(Remove(t, p).0, t)
  {
    hide Remove, WellFormed, Contents;
    var q := RemoveCorrect(t, p);
  }

  ghost function Operate(t: Tree, op: Op): (r: Tree)
    requires WellFormed(t)
    ensures WellFormed(r) && SameNode(r, t)
  {
    match op
    case Store(p) =>
      InsertCorrect(t, p);
      Insert(t, p).0
    case Take(p) =>
      RemoveKeeps(t, p);
      Remove(t, p).0
    case Wipe => Leaf(t.box, t.capacity, t.depth, [])
  }

  /** The same operation on a plain bag of points inside the box. */
  ghost function OperateBag(box: Box, m: multiset<Point>, op: Op): multiset<Point>
  {
    match op
    case Store(p) => if box.Contains(p) then m + multiset{p} else m
    case Take(p) => m - multiset{p}
    case Wipe => multiset{}
  }

  /** New points bring new ids; only stored points, or unknown ids, are taken out. */
  ghost predicate Disciplined(m: multiset<Point>, op: Op)
  {
    match op
    case Store(p) => forall q :: q in m ==> q.id != p.id
    case Take(p) => p in m || forall q :: q in m ==> q.id != p.id
    case Wipe => true
  }

  ghost function OperateAll(t: Tree, ops: seq<Op>): (r: Tree)
    requires WellFormed(t)
    ensures WellFormed(r) && SameNode(r, t)
  {
    if ops == [] then t else Operate(OperateAll(t, ops[..|ops| - 1]), ops[|ops| - 1])
  }

  ghost function OperateBagAll(box: Box, m: multiset<Point>, ops: seq<Op>): multiset<Point>
  {
    if ops == [] then m else OperateBag(box, OperateBagAll(box, m, ops[..|ops| - 1]), ops[|ops| - 1])
  }

  lemma OperateKeeps(t: Tree, op: Op)
    requires WellFormed(t) && UniqueIds(Contents(t)) && Disciplined(Contents(t), op)
    ensures var r := Operate(t, op);
            && WellFormed(r) && SameNode(r, t) && UniqueIds(Contents(r))
            && Contents(r) == OperateBag(t.box, Contents(t), op)
  {
    hide Insert, Remove, Contents, WellFormed;
    match op
    case Store(p) =>
      InsertCorrect(t, p);
    case Take(p) =>
      var q := RemoveCorrect(t, p);
      RemoveWithUniqueIds(t, p);
      TakenUnknown(Contents(t), p);
    case Wipe =>
      EmptyNode(t);
  }

  lemma TakenUnknown(m: multiset<Point>, p: Point)
    ensures (forall q :: q in m ==> q.id != p.id) ==> m - multiset{p} == m
  {
  }

  lemma EmptyNode(t: Tree)
    requires WellFormed(t)
    ensures var r := Leaf(t.box, t.capacity, t.depth, []); WellFormed(r) && Contents(r) == multiset{}
  {
  }

  /** Under any sequence of insertions, removals and clears the tree is a bag of points. */
  lemma {:induction false} OperationsRefineBag(t: Tree, ops: seq<Op>)
    requires WellFormed(t) && UniqueIds(Contents(t))
    requires forall k :: 0 <= k < |ops| ==> Disciplined(OperateBagAll(t.box, Contents(t), ops[..k]), ops[k])
    ensures var r := OperateAll(t, ops);
            && WellFormed(r) && SameNode(r, t) && UniqueIds(Contents(r))
            && Contents(r) == OperateBagAll(t.box, Contents(t), ops)
  {
    hide WellFormed, Contents, UniqueIds, Disciplined, Operate, OperateBag;
    if ops != [] {
      var init := ops[..|ops| - 1];
      forall k | 0 <= k < |init| ensures Disciplined(OperateBagAll(t.box, Contents(t), init[..k]), init[k]) {
        assert init[..k] == ops[..k];
      }
      OperationsRefineBag(t, init);
      OperateKeeps(OperateAll(t, init), ops[|ops| - 1]);
    }
  }

  // ---- Range queries -------------------------------------------------------------------------

  function InRange(ps: seq<Point>, range: Box): seq<Point>
  {
    if ps == [] then []
    else InRange(ps[..|ps| - 1], range) + if range.Contains(ps[|ps| - 1]) then [ps[|ps| - 1]] else []
  }

  function QueryRange(t: Tree, range: Box): seq<Point>
    decreases t, 5
  {
    if !t.box.Intersects(range) then []
    else InRange(t.points, range) + if t.Leaf? then [] else QueryKids(t, range, |t.kids|)
  }

  function QueryKids(t: Tree, range: Box, m: nat): seq<Point>
    requires t.Node? && m <= |t.kids|
    decreases t, 0, m
  {
    if m == 0 then [] else QueryKids(t, range, m - 1) + QueryRange(t.kids[m - 1], range)
  }

  lemma {:induction false} InRangeCounts(ps: seq<Point>, range: Box, q: Point)
    ensures multiset(InRange(ps, range))[q] == if range.Contains(q) then multiset(ps)[q] else 0
  {
    if ps != [] {
      InRangeCounts(ps[..|ps| - 1], range, q);
      assert ps == ps[..|ps| - 1] + [ps[|ps| - 1]];
    }
  }

  /** Each stored point inside the range is reported exactly as often as it is stored, and
      nothing else is: pruning never cuts off a hit. */
  lemma {:induction false} QueryIsExact(t: Tree, range: Box, q: Point)
    requires WellFormed(t)
    ensures multiset(QueryRange(t, range))[q] == if range.Contains(q) then Contents(t)[q] else 0
    decreases t, 5
  {
    if !t.box.Intersects(range) {
      if range.Contains(q) && q in Contents(t) {
        ContentsInBox(t, q);
      }
    } else {
      InRangeCounts(t.points, range, q);
      if t.Node? {
        QueryKidsExact(t, range, q, 4);
      }
    }
  }

  lemma {:induction false} QueryKidsExact(t: Tree, range: Box, q: Point, m: nat)
    requires WellFormed(t) && t.Node? && m <= 4
    ensures multiset(QueryKids(t, range, m))[q] == if range.Contains(q) then KidContents(t.kids, m)[q] else 0
    decreases t, 0, m
  {
    if m > 0 {
      QueryKidsExact(t, range, q, m - 1);
      QueryIsExact(t.kids[m - 1], range, q);
    }
  }

  function Size(t: Tree): (n: nat)
    ensures n == |Contents(t)|
    decreases t, 5
  {
    |t.points| + if t.Leaf? then 0 else KidSize(t, |t.kids|)
  }

  function KidSize(t: Tree, m: nat): (n: nat)
    requires t.Node? && m <= |t.kids|
    ensures n == |KidContents(t.kids, m)|
    decreases t, 0, m
  {
    if m == 0 then 0 else KidSize(t, m - 1) + Size(t.kids[m - 1])
  }

  // ---- Where a search starts -------------------------------------------------------------------

  function Larger(a: real, b: real): real
  {
    if a < b then b else a
  }

  function Smaller(a: real, b: real): real
  {
    if b < a then b else a
  }

  function LeafHalfExtent(t: Tree, x: real, y: real): real
    decreases t, 5
  {
    if t.Leaf? then Larger(t.box.hw, t.box.hh) else ExtentBelow(t, x, y, |t.kids|)
  }

  /** Descends into the first of the last `m` children that contains the query. */
  function ExtentBelow(t: Tree, x: real, y: real, m: nat): real
    requires t.Node? && m <= |t.kids|
    decreases t, 0, m
  {
    if m == 0 then Larger(t.box.hw, t.box.hh)
    else if t.kids[|t.kids| - m].box.ContainsXY(x, y) then LeafHalfExtent(t.kids[|t.kids| - m], x, y)
    else ExtentBelow(t, x, y, m - 1)
  }

  lemma {:induction false} LeafExtentBounded(t: Tree, x: real, y: real)
    requires WellFormed(t) && 0.0 <= t.box.hw && 0.0 <= t.box.hh
    ensures 0.0 <= LeafHalfExtent(t, x, y) <= Larger(t.box.hw, t.box.hh)
    decreases t, 5
  {
    if t.Node? {
      ExtentBelowBounded(t, x, y, 4);
    }
  }

  lemma {:induction false} ExtentBelowBounded(t: Tree, x: real, y: real, m: nat)
    requires WellFormed(t) && t.Node? && m <= 4 && 0.0 <= t.box.hw && 0.0 <= t.box.hh
    ensures 0.0 <= ExtentBelow(t, x, y, m) <= Larger(t.box.hw, t.box.hh)
    decreases t, 0, m
  {
    if m > 0 {
      assert IsChild(t, t.kids[4 - m], 4 - m);
      LeafExtentBounded(t.kids[4 - m], x, y);
      ExtentBelowBounded(t, x, y, m - 1);
    }
  }

  // ---- Division is neither too early nor too late ------------------------------------------------

  /** No node above the depth cap holds more points of its own than its capacity. */
  ghost predicate Compact(t: Tree)
  {
    && (t.depth < 16 ==> |t.points| <= t.capacity)
    && (t.Node? ==> forall i :: 0 <= i < |t.kids| ==> Compact(t.kids[i]))
  }

  lemma DivideIsCompact(t: Tree)
    requires WellFormed(t) && t.Leaf? && Compact(t)
    ensures Compact(Divide(t))
  {
  }

  lemma {:induction false} InsertKeepsCompact(t: Tree, p: Point)
    requires WellFormed(t) && Compact(t)
    ensures Compact(Insert(t, p).0)
    ensures t.Leaf? && |t.points| < t.capacity ==> Insert(t, p).0.Leaf?
    decreases LevelsLeft(t), 5
  {
    if t.box.Contains(p) && !HasRoom(t) {
      var d := if t.Leaf? then Divide(t) else t;
      if t.Leaf? {
        DivideKeeps(t);
        DivideIsCompact(t);
      }
      QuadrantsTile(t.box, p);
      InsertBelowKeepsCompact(d, p, 0);
    }
  }

  lemma {:induction false} InsertBelowKeepsCompact(d: Tree, p: Point, i: nat)
    requires WellFormed(d) && d.Node? && Compact(d) && i <= 4
    requires exists j :: i <= j < 4 && Quadrant(d.box, j).Contains(p)
    ensures Compact(InsertBelow(d, p, i))
    decreases LevelsLeft(d), 4 - i
  {
    hide Insert, Quadrant;
    assert IsChild(d, d.kids[i], i);
    InsertCorrect(d.kids[i], p);
    InsertKeepsCompact(d.kids[i], p);
    var (k, ok) := Insert(d.kids[i], p);
    if !ok {
      InsertBelowKeepsCompact(d, p, i + 1);
    }
  }

  lemma {:induction false} RemoveKeepsCompact(t: Tree, p: Point)
    requires WellFormed(t) && Compact(t)
    ensures Compact(Remove(t, p).0)
    decreases t, 5
  {
    hide Contents;
    if t.box.Contains(p) && FindId(t.points, p.id) == |t.points| && t.Node? {
      RemoveBelowKeepsCompact(t, p, 4);
    }
  }

  lemma {:induction false} RemoveBelowKeepsCompact(t: Tree, p: Point, m: nat)
    requires WellFormed(t) && t.Node? && Compact(t) && m <= 4
    ensures Compact(RemoveBelow(t, p, m).0)
    decreases t, 0, m
  {
    hide Remove, Contents;
    if m > 0 {
      var i := 4 - m;
      RemoveKeepsCompact(t.kids[i], p);
      RemoveBelowKeepsCompact(t, p, m - 1);
    }
  }

  /** So whatever is done to a tree, a leaf is divided exactly when it would overflow. */
  lemma {:induction false} OperationsKeepCompact(t: Tree, ops: seq<Op>)
    requires WellFormed(t) && Compact(t)
    ensures Compact(OperateAll(t, ops))
  {
    hide Compact, Insert, Remove;
    if ops != [] {
      var init, op := ops[..|ops| - 1], ops[|ops| - 1];
      OperationsKeepCompact(t, init);
      var s := OperateAll(t, init);
      match op
      case Store(p) => InsertKeepsCompact(s, p);
      case Take(p) => RemoveKeepsCompact(s, p);
      case Wipe => WipedIsCompact(s);
    }
  }

  lemma WipedIsCompact(t: Tree)
    requires WellFormed(t)
    ensures Compact(Leaf(t.box, t.capacity, t.depth, []))
  {
  }

  /** A node collapses exactly when none of its children is divided and all its points, the
      children's included, fit into it. */
  lemma CollapsesExactlyWhen(t: Tree)
    requires WellFormed(t) && t.Node?
    ensures Collapse(t).Leaf? <==> (forall i :: 0 <= i < 4 ==> t.kids[i].Leaf?) && |Contents(t)| <= t.capacity
  {
    if forall i :: 0 <= i < 4 ==> t.kids[i].Leaf? {
      KidPointsContents(t.kids, 4);
      assert |Contents(t)| == |t.points| + |KidPoints(t.kids, 4)|;
    }
  }

  /** Northwest, northeast, southwest, southeast, each half as wide and half as high. */
  lemma QuadrantsFaceTheirWay(b: Box, i: nat, p: Point)
    requires i < 4 && Quadrant(b, i).Contains(p)
    ensures Quadrant(b, i).hw == b.hw / 2.0 && Quadrant(b, i).hh == b.hh / 2.0
    ensures (i == 0 || i == 1 ==> b.cy <= p.y) && (i == 2 || i == 3 ==> p.y <= b.cy)
    ensures (i == 0 || i == 2 ==> p.x <= b.cx) && (i == 1 || i == 3 ==> b.cx <= p.x)
  {
  }

  /** Two quadrants share at most the lines that divide the box. */
  lemma QuadrantsMeetOnLines(b: Box, i: nat, j: nat, p: Point)
    requires i < j < 4 && Quadrant(b, i).Contains(p) && Quadrant(b, j).Contains(p)
    ensures p.x == b.cx || p.y == b.cy
  {
  }
}
