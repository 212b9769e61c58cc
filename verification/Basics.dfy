/** What several components share. */
module Basics {

  datatype Option<T> = Some(value: T) | None

  lemma SubsetSize<T>(a: set<T>, b: set<T>)
    requires a <= b
    ensures |a| <= |b|
  {
    assert b == a + (b - a);
  }

  ghost predicate Distinct<T>(xs: seq<T>)
  {
    forall i, j :: 0 <= i < j < |xs| ==> xs[i] != xs[j]
  }

  function Elements<T(==)>(xs: seq<T>): set<T>
  {
    set x | x in xs
  }

  lemma {:induction false} DistinctSize<T>(xs: seq<T>)
    requires Distinct(xs)
    ensures |Elements(xs)| == |xs|
  {
    if xs != [] {
      var rest := xs[..|xs| - 1];
      DistinctSize(rest);
      assert xs == rest + [xs[|xs| - 1]];
      assert Elements(xs) == Elements(rest) + {xs[|xs| - 1]};
    }
  }

  /** How many of the first `k` flags are not set. */
  ghost function Unset(flags: seq<bool>, k: nat): nat
    requires k <= |flags|
  {
    if k == 0 then 0 else Unset(flags, k - 1) + if flags[k - 1] then 0 else 1
  }

  lemma {:induction false} UnsetDrops(flags: seq<bool>, v: nat, k: nat)
    requires k <= |flags| && v < |flags| && !flags[v]
    ensures Unset(flags[v := true], k) == Unset(flags, k) - if v < k then 1 else 0
  {
    if k > 0 {
      UnsetDrops(flags, v, k - 1);
    }
  }
}
