/** std::priority_queue with std::greater, seen through its interface: a bag of
    (key, node) entries from which some entry of least key is taken.  Which of
    several entries with the same key comes first is left open, so what is proved
    over it holds for every tie-break, the pair order of the program included. */
module PriorityQueue {

  type Heap<!K(==)> = multiset<(K, nat)>

  ghost predicate TotalOrder<K(!new)>(le: (K, K) -> bool)
  {
    && (forall a, b :: le(a, b) || le(b, a))
    && (forall a, b, c :: le(a, b) && le(b, c) ==> le(a, c))
  }

  ghost predicate IsLeast<K(!new)>(h: multiset<(K, nat)>, le: (K, K) -> bool, key: K)
  {
    forall e :: e in h ==> le(key, e.0)
  }

  lemma Lower<K(!new)>(h: multiset<(K, nat)>, le: (K, K) -> bool, a: K, b: K)
    requires TotalOrder(le) && le(a, b) && IsLeast(h, le, b)
    ensures IsLeast(h, le, a)
  {
    forall e | e in h ensures le(a, e.0) {
      assert le(b, e.0);
    }
  }

  lemma {:induction false} LeastExists<K(!new)>(h: multiset<(K, nat)>, le: (K, K) -> bool) returns (top: (K, nat))
    requires TotalOrder(le) && h != multiset{}
    ensures top in h && IsLeast(h, le, top.0)
    decreases |h|
  {
    var x :| x in h;
    var rest := h - multiset{x};
    top := x;
    assert le(x.0, x.0);
    if rest != multiset{} {
      var y := LeastExists(rest, le);
      if le(x.0, y.0) {
        Lower(rest, le, x.0, y.0);
      } else {
        top := y;
      }
    }
    forall e | e in h ensures le(top.0, e.0) {
      assert e in rest || e == x;
    }
  }

  /** top() followed by pop(). */
  method PopLeast<K(==, !new)>(h: Heap<K>, le: (K, K) -> bool) returns (top: (K, nat), rest: Heap<K>)
    requires TotalOrder(le) && h != multiset{}
    ensures top in h && rest == h - multiset{top}
    ensures IsLeast(h, le, top.0)
  {
    ghost var least := LeastExists(h, le);
    top :| top in h && forall e :: e in h ==> le(top.0, e.0);
    rest := h - multiset{top};
  }

  method PopLeastInt(h: Heap<int>) returns (top: (int, nat), rest: Heap<int>)
    requires h != multiset{}
    ensures top in h && rest == h - multiset{top}
    ensures forall e :: e in h ==> top.0 <= e.0
  {
    var le := (a: int, b: int) => a <= b;
    top, rest := PopLeast(h, le);
    assert forall e :: e in h ==> le(top.0, e.0);
  }

  method PopLeastReal(h: Heap<real>) returns (top: (real, nat), rest: Heap<real>)
    requires h != multiset{}
    ensures top in h && rest == h - multiset{top}
    ensures forall e :: e in h ==> top.0 <= e.0
  {
    var le := (a: real, b: real) => a <= b;
    top, rest := PopLeast(h, le);
    assert forall e :: e in h ==> le(top.0, e.0);
  }
}
