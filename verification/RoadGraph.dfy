/** The road network: the incremental builder, and the frozen CSR graph. */
module RoadGraph {

  datatype GeoNode = GeoNode(osmId: int, lat: real, lon: real)

  /** A directed arc as the graph stores it: under its tail in the forward index, under
      its head (and pointing at its tail) in the reverse index. */
  datatype RoadArc = RoadArc(to: nat, travelSeconds: real, lengthMeters: real)

  datatype PendingArc = PendingArc(from: nat, to: nat, travelSeconds: real, lengthMeters: real)

  class RoadGraphBuilder {
    var nodes: seq<GeoNode>
    var osmToIndex: map<int, nat>
    var arcs: seq<PendingArc>
    var maxSpeedMps: real

    /** The index maps each OSM id to the one node that carries it; arcs stay in range, are
        no self-loops, and none is faster than the recorded top speed. */
    ghost predicate Valid()
      reads this
    {
      && (forall v: nat :: v < |nodes| ==> nodes[v].osmId in osmToIndex && osmToIndex[nodes[v].osmId] == v)
      && (forall id :: id in osmToIndex ==> osmToIndex[id] < |nodes| && nodes[osmToIndex[id]].osmId == id)
      && 0.0 <= maxSpeedMps
      && (arcs != [] ==> 0.0 < maxSpeedMps)
      && (forall a :: a in arcs ==> a.from < |nodes| && a.to < |nodes| && a.from != a.to && NotFaster(a, maxSpeedMps))
    }

    constructor ()
      ensures Valid() && nodes == [] && arcs == [] && maxSpeedMps == 0.0
    {
      nodes, osmToIndex, arcs, maxSpeedMps := [], map[], [], 0.0;
    }

    /** First sight of an id appends a node; later sights only look it up, whatever
        coordinates they carry. */
    method AddNode(osmId: int, lat: real, lon: real) returns (index: nat)
      requires Valid()
      modifies this
      ensures Valid() && arcs == old(arcs) && maxSpeedMps == old(maxSpeedMps)
      ensures index < |nodes| && nodes[index].osmId == osmId
      ensures nodes == old(nodes) + if exists v :: 0 <= v < |old(nodes)| && old(nodes)[v].osmId == osmId
                                    then [] else [GeoNode(osmId, lat, lon)]
    {
      if osmId !in osmToIndex {
        osmToIndex := osmToIndex[osmId := |nodes|];
        nodes := nodes + [GeoNode(osmId, lat, lon)];
      }
      index := osmToIndex[osmId];
    }

    /** Self-loops and untraversable arcs are dropped; anything else is appended with its
        travel time, and the top speed follows. */
    method AddArc(from: nat, to: nat, lengthMeters: real, speedMps: real)
      requires Valid() && from < |nodes| && to < |nodes|
      modifies this
      ensures Valid() && nodes == old(nodes)
      ensures from == to || speedMps <= 0.0 ==> arcs == old(arcs) && maxSpeedMps == old(maxSpeedMps)
      ensures from != to && speedMps > 0.0 ==>
                && arcs == old(arcs) + [PendingArc(from, to, lengthMeters / speedMps, lengthMeters)]
                && maxSpeedMps == if speedMps > old(maxSpeedMps) then speedMps else old(maxSpeedMps)
    {
      if from == to {
        return;
      }
      if speedMps <= 0.0 {
        return;
      }
      var a := PendingArc(from, to, lengthMeters / speedMps, lengthMeters);
      ghost var before := maxSpeedMps;
      arcs := arcs + [a];
      if speedMps > maxSpeedMps {
        maxSpeedMps := speedMps;
      }
      TimeTimesSpeed(lengthMeters, speedMps);
      forall b | b in arcs ensures NotFaster(b, maxSpeedMps) {
        if b == a {
          SlowerStill(a, speedMps, maxSpeedMps);
        } else {
          SlowerStill(b, before, maxSpeedMps);
        }
      }
    }
  }

  /** Covering the arc's length at `speed` would take at most its travel time. */
  ghost predicate NotFaster(a: PendingArc, speed: real)
  {
    0.0 <= a.lengthMeters ==> 0.0 <= a.travelSeconds && a.lengthMeters <= a.travelSeconds * speed
  }

  lemma TimeTimesSpeed(length: real, speed: real)
    requires speed > 0.0
    ensures length / speed * speed == length
    ensures 0.0 <= length ==> 0.0 <= length / speed
  {
  }

  lemma SlowerStill(a: PendingArc, slow: real, fast: real)
    requires NotFaster(a, slow) && slow <= fast
    ensures NotFaster(a, fast)
  {
    if 0.0 <= a.lengthMeters {
      assert a.travelSeconds * slow <= a.travelSeconds * fast;
    }
  }

  // ---- Counting sort into CSR ----------------------------------------------------------

  /** How many of the first `m` keys equal `v`. */
  ghost function CountOf(keys: seq<nat>, v: nat, m: nat): nat
    requires m <= |keys|
  {
    if m == 0 then 0 else CountOf(keys, v, m - 1) + if keys[m - 1] == v then 1 else 0
  }

  /** How many keys lie below `v`: the CSR offset of `v`. */
  ghost function Below(keys: seq<nat>, v: nat): nat
  {
    if v == 0 then 0 else Below(keys, v - 1) + CountOf(keys, v - 1, |keys|)
  }

  /** The items under key `v` among the first `m`, in order. */
  ghost function Under<T>(keys: seq<nat>, items: seq<T>, v: nat, m: nat): (r: seq<T>)
    requires m <= |keys| == |items|
    ensures |r| == CountOf(keys, v, m)
  {
    if m == 0 then [] else Under(keys, items, v, m - 1) + if keys[m - 1] == v then [items[m - 1]] else []
  }

  lemma {:induction false} CountMonotone(keys: seq<nat>, v: nat, a: nat, b: nat)
    requires a <= b <= |keys|
    ensures CountOf(keys, v, a) <= CountOf(keys, v, b)
  {
    if a < b {
      CountMonotone(keys, v, a, b - 1);
    }
  }

  lemma {:induction false} BelowMonotone(keys: seq<nat>, u: nat, v: nat)
    requires u <= v
    ensures Below(keys, u) <= Below(keys, v)
    ensures u < v ==> Below(keys, u) + CountOf(keys, u, |keys|) <= Below(keys, v)
    decreases v
  {
    if u < v {
      BelowMonotone(keys, u, v - 1);
    }
  }

  ghost function CountsBelow(keys: seq<nat>, v: nat, m: nat): nat
    requires m <= |keys|
  {
    if v == 0 then 0 else CountsBelow(keys, v - 1, m) + CountOf(keys, v - 1, m)
  }

  lemma {:induction false} CountsBelowStep(keys: seq<nat>, v: nat, m: nat)
    requires 0 < m <= |keys|
    ensures CountsBelow(keys, v, m) == CountsBelow(keys, v, m - 1) + if keys[m - 1] < v then 1 else 0
    decreases v
  {
    if v > 0 {
      CountsBelowStep(keys, v - 1, m);
    }
  }

  lemma {:induction false} CountsBelowEmpty(keys: seq<nat>, v: nat)
    ensures CountsBelow(keys, v, 0) == 0
  {
    if v > 0 {
      CountsBelowEmpty(keys, v - 1);
    }
  }

  lemma {:induction false} AllCounted(keys: seq<nat>, n: nat, m: nat)
    requires m <= |keys| && forall i :: 0 <= i < |keys| ==> keys[i] < n
    ensures CountsBelow(keys, n, m) == m
    decreases m
  {
    if m == 0 {
      CountsBelowEmpty(keys, n);
    } else {
      AllCounted(keys, n, m - 1);
      CountsBelowStep(keys, n, m);
    }
  }

  lemma {:induction false} BelowIsCounts(keys: seq<nat>, v: nat)
    ensures Below(keys, v) == CountsBelow(keys, v, |keys|)
  {
    if v > 0 {
      BelowIsCounts(keys, v - 1);
    }
  }

  ghost predicate IsOffsets(keys: seq<nat>, n: nat, offsets: seq<nat>)
  {
    |offsets| == n + 1 && forall v: nat :: v <= n ==> offsets[v] == Below(keys, v)
  }

  ghost predicate CountedUpTo(keys: seq<nat>, n: nat, counts: seq<nat>, m: nat)
  {
    && |counts| == n + 1 && m <= |keys| && counts[0] == 0
    && forall v: nat :: 0 < v <= n ==> counts[v] == CountOf(keys, v - 1, m)
  }

  /** Entries up to `v` are summed already, the rest are still counts. */
  ghost predicate SummedUpTo(keys: seq<nat>, n: nat, counts: seq<nat>, offsets: seq<nat>, v: nat)
  {
    && |counts| == |offsets| == n + 1 && v <= n
    && (forall x: nat :: x <= v ==> offsets[x] == Below(keys, x))
    && (forall x: nat :: v < x <= n ==> offsets[x] == counts[x])
  }

  lemma {:induction false} SumStep(keys: seq<nat>, n: nat, counts: seq<nat>, offsets: seq<nat>, v: nat)
    requires CountedUpTo(keys, n, counts, |keys|) && SummedUpTo(keys, n, counts, offsets, v) && v < n
    ensures SummedUpTo(keys, n, counts, offsets[v + 1 := offsets[v + 1] + offsets[v]], v + 1)
  {
    assert counts[v + 1] == CountOf(keys, v, |keys|);
  }

  /** Count, then prefix-sum. */
  method Offsets(n: nat, keys: seq<nat>) returns (offsets: seq<nat>)
    requires forall i :: 0 <= i < |keys| ==> keys[i] < n
    ensures IsOffsets(keys, n, offsets)
    ensures offsets[n] == |keys|
  {
    hide Below;
    offsets := seq(n + 1, _ => 0);
    for i := 0 to |keys|
      invariant CountedUpTo(keys, n, offsets, i)
    {
      offsets := offsets[keys[i] + 1 := offsets[keys[i] + 1] + 1];
    }
    ghost var counts := offsets;
    SumStart(keys, n, counts);
    for v := 0 to n
      invariant |offsets| == n + 1 && SummedUpTo(keys, n, counts, offsets, v)
    {
      SumStep(keys, n, counts, offsets, v);
      offsets := offsets[v + 1 := offsets[v + 1] + offsets[v]];
    }
    AllCounted(keys, n, |keys|);
    BelowIsCounts(keys, n);
  }

  lemma SumStart(keys: seq<nat>, n: nat, counts: seq<nat>)
    requires CountedUpTo(keys, n, counts, |keys|)
    ensures SummedUpTo(keys, n, counts, counts, 0)
  {
  }

  ghost predicate Placed<T>(keys: seq<nat>, items: seq<T>, n: nat, offsets: seq<nat>, cursor: seq<nat>, sorted: seq<T>, m: nat)
    requires m <= |keys| == |items| == |sorted| && IsOffsets(keys, n, offsets)
  {
    && |cursor| == n
    && forall v: nat :: v < n ==>
         && cursor[v] == offsets[v] + CountOf(keys, v, m)
         && cursor[v] <= |sorted|
         && sorted[offsets[v]..cursor[v]] == Under(keys, items, v, m)
  }

  lemma {:induction false} PlaceStep<T>(keys: seq<nat>, items: seq<T>, n: nat, offsets: seq<nat>, cursor: seq<nat>,
                                        sorted: seq<T>, m: nat)
    requires m < |keys| == |items| == |sorted| && forall i :: 0 <= i < |keys| ==> keys[i] < n
    requires IsOffsets(keys, n, offsets) && offsets[n] == |keys|
    requires Placed(keys, items, n, offsets, cursor, sorted, m)
    ensures var u := keys[m];
            && u < n && cursor[u] < |sorted|
            && Placed(keys, items, n, offsets, cursor[u := cursor[u] + 1], sorted[cursor[u] := items[m]], m + 1)
  {
    var u := keys[m];
    CountMonotone(keys, u, m + 1, |keys|);
    BelowMonotone(keys, u, n);
    assert cursor[u] + 1 <= offsets[u] + CountOf(keys, u, |keys|) <= |sorted|;
    var cursor', sorted' := cursor[u := cursor[u] + 1], sorted[cursor[u] := items[m]];
    forall v: nat | v < n
      ensures cursor'[v] == offsets[v] + CountOf(keys, v, m + 1)
      ensures cursor'[v] <= |sorted'|
      ensures sorted'[offsets[v]..cursor'[v]] == Under(keys, items, v, m + 1)
    {
      assert cursor[v] == offsets[v] + CountOf(keys, v, m);
      CountMonotone(keys, v, m, |keys|);
      if v < u {
        BelowMonotone(keys, v, u);
        assert cursor[v] <= cursor[u];
        assert sorted'[offsets[v]..cursor[v]] == sorted[offsets[v]..cursor[v]];
      } else if u < v {
        BelowMonotone(keys, u, v);
        assert cursor[u] < offsets[v];
        assert sorted'[offsets[v]..cursor[v]] == sorted[offsets[v]..cursor[v]];
      } else {
        assert sorted'[offsets[u]..cursor[u] + 1] == sorted[offsets[u]..cursor[u]] + [items[m]];
      }
    }
  }

  /** Offsets grow from 0 to the number of entries: every bucket is a slice. */
  ghost predicate IsCsr<T>(n: nat, offsets: seq<nat>, sorted: seq<T>)
  {
    && |offsets| == n + 1
    && (forall u, v :: 0 <= u <= v <= n ==> offsets[u] <= offsets[v])
    && offsets[n] == |sorted|
  }

  lemma OffsetsAreCsr<T>(keys: seq<nat>, n: nat, offsets: seq<nat>, sorted: seq<T>)
    requires IsOffsets(keys, n, offsets) && offsets[n] == |sorted|
    ensures IsCsr(n, offsets, sorted)
  {
    forall u, v | 0 <= u <= v <= n ensures offsets[u] <= offsets[v] {
      BelowMonotone(keys, u, v);
    }
  }

  /** The slice of entries stored under `v`. */
  function Bucket<T>(n: nat, offsets: seq<nat>, sorted: seq<T>, v: nat): (r: seq<T>)
    requires IsCsr(n, offsets, sorted) && v < n
  {
    sorted[offsets[v]..offsets[v + 1]]
  }

  lemma {:induction false} PlaceStart<T>(keys: seq<nat>, items: seq<T>, n: nat, offsets: seq<nat>, sorted: seq<T>)
    requires |keys| == |items| == |sorted| && IsOffsets(keys, n, offsets) && offsets[n] == |keys|
    ensures Placed(keys, items, n, offsets, offsets[..n], sorted, 0)
  {
    forall v: nat | v < n ensures offsets[v] <= |sorted| {
      BelowMonotone(keys, v, n);
    }
  }

  lemma {:induction false} PlaceDone<T>(keys: seq<nat>, items: seq<T>, n: nat, offsets: seq<nat>, cursor: seq<nat>, sorted: seq<T>, v: nat)
    requires |keys| == |items| == |sorted| && IsOffsets(keys, n, offsets) && IsCsr(n, offsets, sorted) && v < n
    requires Placed(keys, items, n, offsets, cursor, sorted, |keys|)
    ensures Bucket(n, offsets, sorted, v) == Under(keys, items, v, |keys|)
  {
    assert offsets[v + 1] == Below(keys, v + 1);
    assert cursor[v] == offsets[v + 1];
  }

  /** Places every item under its key; each bucket keeps the given order. */
  method Place<T>(n: nat, keys: seq<nat>, items: seq<T>, offsets: seq<nat>) returns (sorted: seq<T>)
    requires |keys| == |items| && forall i :: 0 <= i < |keys| ==> keys[i] < n
    requires IsOffsets(keys, n, offsets) && offsets[n] == |keys|
    ensures IsCsr(n, offsets, sorted)
    ensures forall v: nat :: v < n ==> Bucket(n, offsets, sorted, v) == Under(keys, items, v, |items|)
  {
    hide Placed, IsOffsets, Below;
    sorted := items;  // resized to the final length; every entry is overwritten below
    assert |offsets| == n + 1 by { OffsetsAreCsr(keys, n, offsets, sorted); }
    var cursor := offsets[..n];
    PlaceStart(keys, items, n, offsets, sorted);
    for i := 0 to |items|
      invariant |sorted| == |items| && |cursor| == n
      invariant Placed(keys, items, n, offsets, cursor, sorted, i)
    {
      PlaceStep(keys, items, n, offsets, cursor, sorted, i);
      sorted := sorted[cursor[keys[i]] := items[i]];
      cursor := cursor[keys[i] := cursor[keys[i]] + 1];
    }
    OffsetsAreCsr(keys, n, offsets, sorted);
    forall v: nat | v < n ensures Bucket(n, offsets, sorted, v) == Under(keys, items, v, |items|) {
      PlaceDone(keys, items, n, offsets, cursor, sorted, v);
    }
  }

  // ---- The frozen graph ------------------------------------------------------------------

  datatype Csr = Csr(outOffsets: seq<nat>, arcs: seq<RoadArc>, inOffsets: seq<nat>, reverseArcs: seq<RoadArc>)

  /** The builder's arcs out of `v`, in the order they were added. */
  ghost function ArcsFrom(pending: seq<PendingArc>, v: nat, m: nat): seq<RoadArc>
    requires m <= |pending|
  {
    if m == 0 then []
    else
      var a := pending[m - 1];
      ArcsFrom(pending, v, m - 1) + if a.from == v then [RoadArc(a.to, a.travelSeconds, a.lengthMeters)] else []
  }

  /** The builder's arcs into `v`, each pointing back at its tail. */
  ghost function ArcsInto(pending: seq<PendingArc>, v: nat, m: nat): seq<RoadArc>
    requires m <= |pending|
  {
    if m == 0 then []
    else
      var a := pending[m - 1];
      ArcsInto(pending, v, m - 1) + if a.to == v then [RoadArc(a.from, a.travelSeconds, a.lengthMeters)] else []
  }

  ghost predicate ArcsInRange(pending: seq<PendingArc>, n: nat)
  {
    forall i :: 0 <= i < |pending| ==> pending[i].from < n && pending[i].to < n
  }

  /** Two CSR indexes of the same arcs: `outgoing` as added, `incoming` transposed. */
  ghost predicate IndexesArcs(csr: Csr, n: nat, pending: seq<PendingArc>)
  {
    && IsCsr(n, csr.outOffsets, csr.arcs)
    && IsCsr(n, csr.inOffsets, csr.reverseArcs)
    && (forall v: nat :: v < n ==> Bucket(n, csr.outOffsets, csr.arcs, v) == ArcsFrom(pending, v, |pending|))
    && (forall v: nat :: v < n ==> Bucket(n, csr.inOffsets, csr.reverseArcs, v) == ArcsInto(pending, v, |pending|))
  }

  lemma {:induction false} UnderTails(pending: seq<PendingArc>, keys: seq<nat>, items: seq<RoadArc>, v: nat, m: nat)
    requires m <= |pending| == |keys| == |items|
    requires forall i :: 0 <= i < |pending| ==>
               keys[i] == pending[i].from
               && items[i] == RoadArc(pending[i].to, pending[i].travelSeconds, pending[i].lengthMeters)
    ensures Under(keys, items, v, m) == ArcsFrom(pending, v, m)
  {
    if m > 0 {
      UnderTails(pending, keys, items, v, m - 1);
    }
  }

  lemma {:induction false} UnderHeads(pending: seq<PendingArc>, keys: seq<nat>, items: seq<RoadArc>, v: nat, m: nat)
    requires m <= |pending| == |keys| == |items|
    requires forall i :: 0 <= i < |pending| ==>
               keys[i] == pending[i].to
               && items[i] == RoadArc(pending[i].from, pending[i].travelSeconds, pending[i].lengthMeters)
    ensures Under(keys, items, v, m) == ArcsInto(pending, v, m)
  {
    if m > 0 {
      UnderHeads(pending, keys, items, v, m - 1);
    }
  }

  /** Counting sort of the builder's arcs, once by tail and once by head. */
  method BuildCsr(n: nat, pending: seq<PendingArc>) returns (csr: Csr)
    requires ArcsInRange(pending, n)
    ensures IndexesArcs(csr, n, pending)
  {
    hide Below, CountOf, IsOffsets;
    var m := |pending|;
    var tails := seq(m, i requires 0 <= i < m => pending[i].from);
    var heads := seq(m, i requires 0 <= i < m => pending[i].to);
    var forward := seq(m, i requires 0 <= i < m =>
      RoadArc(pending[i].to, pending[i].travelSeconds, pending[i].lengthMeters));
    var backward := seq(m, i requires 0 <= i < m =>
      RoadArc(pending[i].from, pending[i].travelSeconds, pending[i].lengthMeters));
    var outOffsets := Offsets(n, tails);
    var inOffsets := Offsets(n, heads);
    var arcs := Place(n, tails, forward, outOffsets);
    var reverseArcs := Place(n, heads, backward, inOffsets);
    csr := Csr(outOffsets, arcs, inOffsets, reverseArcs);
    forall v: nat | v < n
      ensures Bucket(n, outOffsets, arcs, v) == ArcsFrom(pending, v, m)
      ensures Bucket(n, inOffsets, reverseArcs, v) == ArcsInto(pending, v, m)
    {
      UnderTails(pending, tails, forward, v, m);
      UnderHeads(pending, heads, backward, v, m);
    }
  }

  lemma {:induction false} ArcsFromMembers(pending: seq<PendingArc>, v: nat, m: nat, r: RoadArc)
    requires m <= |pending|
    ensures r in ArcsFrom(pending, v, m) <==>
              PendingArc(v, r.to, r.travelSeconds, r.lengthMeters) in pending[..m]
  {
    if m > 0 {
      ArcsFromMembers(pending, v, m - 1, r);
      assert pending[..m] == pending[..m - 1] + [pending[m - 1]];
    }
  }

  lemma {:induction false} ArcsIntoMembers(pending: seq<PendingArc>, v: nat, m: nat, r: RoadArc)
    requires m <= |pending|
    ensures r in ArcsInto(pending, v, m) <==>
              PendingArc(r.to, v, r.travelSeconds, r.lengthMeters) in pending[..m]
  {
    if m > 0 {
      ArcsIntoMembers(pending, v, m - 1, r);
      assert pending[..m] == pending[..m - 1] + [pending[m - 1]];
    }
  }

  // ---- The graph as adjacency lists ------------------------------------------------------

  type Adjacency = seq<seq<RoadArc>>

  ghost function Outgoing(csr: Csr, n: nat): (adj: Adjacency)
    requires IsCsr(n, csr.outOffsets, csr.arcs)
    ensures |adj| == n && forall v: nat :: v < n ==> adj[v] == Bucket(n, csr.outOffsets, csr.arcs, v)
  {
    seq(n, v requires 0 <= v < n => Bucket(n, csr.outOffsets, csr.arcs, v))
  }

  ghost function Incoming(csr: Csr, n: nat): (adj: Adjacency)
    requires IsCsr(n, csr.inOffsets, csr.reverseArcs)
    ensures |adj| == n && forall v: nat :: v < n ==> adj[v] == Bucket(n, csr.inOffsets, csr.reverseArcs, v)
  {
    seq(n, v requires 0 <= v < n => Bucket(n, csr.inOffsets, csr.reverseArcs, v))
  }

  /** `b` holds exactly the arcs of `a` with head and tail exchanged. */
  ghost predicate IsTranspose(a: Adjacency, b: Adjacency)
  {
    && |a| == |b|
    && (forall v: nat, r: RoadArc :: v < |a| && r in a[v] ==> r.to < |b| && RoadArc(v, r.travelSeconds, r.lengthMeters) in b[r.to])
    && (forall v: nat, r: RoadArc :: v < |b| && r in b[v] ==> r.to < |a| && RoadArc(v, r.travelSeconds, r.lengthMeters) in a[r.to])
  }

  lemma {:induction false} TransposedForward(csr: Csr, n: nat, pending: seq<PendingArc>, v: nat, r: RoadArc)
    requires IndexesArcs(csr, n, pending) && ArcsInRange(pending, n) && v < n && r in Outgoing(csr, n)[v]
    ensures r.to < n && RoadArc(v, r.travelSeconds, r.lengthMeters) in Incoming(csr, n)[r.to]
  {
    assert pending[..|pending|] == pending;
    ArcsFromMembers(pending, v, |pending|, r);
    ArcsIntoMembers(pending, r.to, |pending|, RoadArc(v, r.travelSeconds, r.lengthMeters));
  }

  lemma {:induction false} TransposedBackward(csr: Csr, n: nat, pending: seq<PendingArc>, v: nat, r: RoadArc)
    requires IndexesArcs(csr, n, pending) && ArcsInRange(pending, n) && v < n && r in Incoming(csr, n)[v]
    ensures r.to < n && RoadArc(v, r.travelSeconds, r.lengthMeters) in Outgoing(csr, n)[r.to]
  {
    assert pending[..|pending|] == pending;
    ArcsIntoMembers(pending, v, |pending|, r);
    ArcsFromMembers(pending, r.to, |pending|, RoadArc(v, r.travelSeconds, r.lengthMeters));
  }

  /** The reverse index is the transpose of the forward index. */
  lemma {:induction false} IncomingIsTranspose(csr: Csr, n: nat, pending: seq<PendingArc>)
    requires IndexesArcs(csr, n, pending) && ArcsInRange(pending, n)
    ensures IsTranspose(Outgoing(csr, n), Incoming(csr, n))
  {
    hide Bucket, ArcsFrom, ArcsInto, ArcsInRange;
    forall v: nat, r: RoadArc | v < n && r in Outgoing(csr, n)[v]
      ensures r.to < n && RoadArc(v, r.travelSeconds, r.lengthMeters) in Incoming(csr, n)[r.to]
    {
      TransposedForward(csr, n, pending, v, r);
    }
    forall v: nat, r: RoadArc | v < n && r in Incoming(csr, n)[v]
      ensures r.to < n && RoadArc(v, r.travelSeconds, r.lengthMeters) in Outgoing(csr, n)[r.to]
    {
      TransposedBackward(csr, n, pending, v, r);
    }
  }

  // ---- The graph value ---------------------------------------------------------------------

  datatype Graph = Graph(nodes: seq<GeoNode>, csr: Csr, maxSpeedMps: real, largestComponent: seq<nat>)
  {
    ghost predicate Indexed()
    {
      && IsCsr(|nodes|, csr.outOffsets, csr.arcs)
      && IsCsr(|nodes|, csr.inOffsets, csr.reverseArcs)
    }

    /** The contiguous view of the arcs that leave `v`. */
    function ArcsOut(v: nat): seq<RoadArc>
      requires Indexed() && v < |nodes|
    {
      Bucket(|nodes|, csr.outOffsets, csr.arcs, v)
    }

    function ArcsIn(v: nat): seq<RoadArc>
      requires Indexed() && v < |nodes|
    {
      Bucket(|nodes|, csr.inOffsets, csr.reverseArcs, v)
    }

    ghost function Forward(): (adj: Adjacency)
      requires Indexed()
      ensures |adj| == |nodes| && forall v: nat :: v < |nodes| ==> adj[v] == ArcsOut(v)
    {
      Outgoing(csr, |nodes|)
    }

    ghost function Backward(): (adj: Adjacency)
      requires Indexed()
      ensures |adj| == |nodes| && forall v: nat :: v < |nodes| ==> adj[v] == ArcsIn(v)
    {
      Incoming(csr, |nodes|)
    }
  }
}
