/** Geohash cells by alternating bisection, and lock partitions keyed by them. */
module Geohash {

  const ALPHABET: string := "0123456789bcdefghjkmnpqrstuvwxyz"

  datatype Cell = Cell(latLow: real, latHigh: real, lngLow: real, lngHigh: real)

  const WORLD := Cell(-90.0, 90.0, -180.0, 180.0)

  /** The upper or lower half: of the longitude for even bits, of the latitude for odd ones. */
  function Half(c: Cell, k: nat, upper: bool): Cell
  {
    if k % 2 == 0 then
      var mid := (c.lngLow + c.lngHigh) / 2.0;
      if upper then c.(lngLow := mid) else c.(lngHigh := mid)
    else
      var mid := (c.latLow + c.latHigh) / 2.0;
      if upper then c.(latLow := mid) else c.(latHigh := mid)
  }

  /** The cell a string of bits stands for. */
  function CellOf(bits: seq<bool>): Cell
  {
    if bits == [] then WORLD else Half(CellOf(bits[..|bits| - 1]), |bits| - 1, bits[|bits| - 1])
  }

  predicate Above(c: Cell, k: nat, lat: real, lng: real)
  {
    if k % 2 == 0 then lng > (c.lngLow + c.lngHigh) / 2.0 else lat > (c.latLow + c.latHigh) / 2.0
  }

  /** The bits the bisection yields for a point. */
  function Bits(lat: real, lng: real, n: nat): (r: seq<bool>)
    ensures |r| == n
  {
    if n == 0 then []
    else
      var before := Bits(lat, lng, n - 1);
      before + [Above(CellOf(before), n - 1, lat, lng)]
  }

  function Value(bits: seq<bool>): nat
  {
    if bits == [] then 0 else 2 * Value(bits[..|bits| - 1]) + if bits[|bits| - 1] then 1 else 0
  }

  lemma {:induction false} ValueBelow(bits: seq<bool>)
    requires |bits| <= 5
    ensures Value(bits) < (if |bits| == 5 then 32 else if |bits| == 4 then 16 else if |bits| == 3 then 8
                           else if |bits| == 2 then 4 else if |bits| == 1 then 2 else 1)
  {
    if bits != [] {
      ValueBelow(bits[..|bits| - 1]);
    }
  }

  function LetterAt(v: int): char
    requires 0 <= v < 32
  {
    ALPHABET[v]
  }

  function Letter(bits: seq<bool>): char
    requires |bits| == 5
  {
    ValueBelow(bits);
    LetterAt(Value(bits))
  }

  /** One letter for every five bits. */
  function Code(bits: seq<bool>, m: nat): (r: string)
    requires 5 * m <= |bits|
    ensures |r| == m
  {
    if m == 0 then "" else Code(bits, m - 1) + [Letter(bits[5 * (m - 1)..5 * m])]
  }

  function Letters(precision: int): nat
  {
    if precision <= 0 then 6 else precision
  }

  function Hash(lat: real, lng: real, precision: int): string
  {
    Code(Bits(lat, lng, 5 * Letters(precision)), Letters(precision))
  }

  // ---- The loop -------------------------------------------------------------------------------

  lemma {:induction false} BitsPrefix(lat: real, lng: real, m: nat, n: nat)
    requires m <= n
    ensures Bits(lat, lng, n)[..m] == Bits(lat, lng, m)
  {
    hide Above, CellOf;
    if m < n {
      BitsPrefix(lat, lng, m, n - 1);
      assert Bits(lat, lng, n)[..n - 1] == Bits(lat, lng, n - 1);
      assert Bits(lat, lng, n)[..m] == Bits(lat, lng, n)[..n - 1][..m];
    }
  }

  lemma {:induction false} CodeOfPrefix(a: seq<bool>, b: seq<bool>, m: nat)
    requires 5 * m <= |a| && a <= b
    ensures Code(a, m) == Code(b, m)
  {
    if m > 0 {
      CodeOfPrefix(a, b, m - 1);
      assert a[5 * (m - 1)..5 * m] == b[5 * (m - 1)..5 * m];
    }
  }

  /** One bisection step: the bits grow by one, the cell halves. */
  lemma StepOfBits(lat: real, lng: real, n: nat)
    ensures Bits(lat, lng, n) < Bits(lat, lng, n + 1)
    ensures var up := Above(CellOf(Bits(lat, lng, n)), n, lat, lng);
            && Bits(lat, lng, n + 1) == Bits(lat, lng, n) + [up]
            && CellOf(Bits(lat, lng, n + 1)) == Half(CellOf(Bits(lat, lng, n)), n, up)
  {
    assert Bits(lat, lng, n + 1)[..n] == Bits(lat, lng, n);
  }

  lemma TailValue(bits: seq<bool>, from: nat, up: bool)
    requires from <= |bits|
    ensures Value((bits + [up])[from..]) == 2 * Value(bits[from..]) + if up then 1 else 0
  {
    assert (bits + [up])[from..] == bits[from..] + [up];
    assert (bits[from..] + [up])[..|bits| - from] == bits[from..];
  }

  /** The loop has consumed `n` bits: `out` holds the finished letters, `ch` the value of the
      bits since, and the ranges bound the current cell. */
  ghost predicate Underway(lat: real, lng: real, out: string, bit: nat, ch: int, c: Cell)
  {
    var bits := Bits(lat, lng, 5 * |out| + bit);
    c == CellOf(bits) && out == Code(bits, |out|) && ch == Value(bits[5 * |out|..])
  }

  lemma OneMoreBit(lat: real, lng: real, out: string, bit: nat, ch: int, c: Cell)
    requires Underway(lat, lng, out, bit, ch, c)
    ensures var n := 5 * |out| + bit;
            var up := Above(c, n, lat, lng);
            Underway(lat, lng, out, bit + 1, 2 * ch + (if up then 1 else 0), Half(c, n, up))
  {
    hide CellOf, Code, Value, Bits, Above, Half;
    var n := 5 * |out| + bit;
    var bits := Bits(lat, lng, n);
    StepOfBits(lat, lng, n);
    TailValue(bits, 5 * |out|, Above(c, n, lat, lng));
    CodeOfPrefix(bits, Bits(lat, lng, n + 1), |out|);
  }

  lemma OneMoreLetter(lat: real, lng: real, out: string, ch: int, c: Cell)
    requires Underway(lat, lng, out, 5, ch, c)
    ensures 0 <= ch < 32 && Underway(lat, lng, out + [LetterAt(ch)], 0, 0, c)
  {
    hide CellOf, Code, Value, Bits;
    NextLetter(Bits(lat, lng, 5 * (|out| + 1)), |out|, ch);
  }

  predicate IsEven(n: nat)
  {
    n % 2 == 0
  }

  lemma NextParity(n: nat)
    ensures IsEven(0) && (IsEven(n + 1) <==> !IsEven(n))
  {
  }

  /** One pass of the loop: one bit of the pending letter, one halving of the cell. */
  method Bisect(lat: real, lng: real, evenBit: bool, ch: int, c: Cell, ghost out: string, ghost bit: nat, ghost n: nat)
    returns (ch': int, c': Cell)
    requires n == 5 * |out| + bit && Underway(lat, lng, out, bit, ch, c) && (evenBit <==> IsEven(n))
    ensures Underway(lat, lng, out, bit + 1, ch', c')
  {
    hide Underway, Above, Half;
    OneMoreBit(lat, lng, out, bit, ch, c);
    Bisected(c, n, lat, lng);
    if evenBit {
      var mid := (c.lngLow + c.lngHigh) / 2.0;
      if lng > mid {
        ch', c' := 2 * ch + 1, c.(lngLow := mid);
      } else {
        ch', c' := 2 * ch, c.(lngHigh := mid);
      }
    } else {
      var mid := (c.latLow + c.latHigh) / 2.0;
      if lat > mid {
        ch', c' := 2 * ch + 1, c.(latLow := mid);
      } else {
        ch', c' := 2 * ch, c.(latHigh := mid);
      }
    }
  }

  method Encode(lat: real, lng: real, precision: int) returns (out: string)
    ensures out == Hash(lat, lng, precision)
    ensures |out| == if precision <= 0 then 6 else precision
  {
    hide Underway, Hash, CellOf, Letters, LetterAt, IsEven;
    var want := if precision <= 0 then 6 else precision;
    var c := WORLD;
    out := "";
    var bit, ch := 0, 0;
    var evenBit := true;
    ghost var n := 0;
    NothingYet(lat, lng);
    NextParity(0);
    while |out| < want
      invariant |out| <= want && 0 <= bit < 5 && (|out| == want ==> bit == 0)
      invariant n == 5 * |out| + bit && (evenBit <==> IsEven(n))
      invariant Underway(lat, lng, out, bit, ch, c)
      decreases want - |out|, 5 - bit
    {
      NextParity(n);
      ch, c := Bisect(lat, lng, evenBit, ch, c, out, bit, n);
      evenBit := !evenBit;
      n := n + 1;
      bit := bit + 1;
      if bit == 5 {
        OneMoreLetter(lat, lng, out, ch, c);
        out := out + [LetterAt(ch)];
        bit, ch := 0, 0;
      }
    }
    WantedLetters(precision);
    AllLetters(lat, lng, precision, out, ch, c);
  }

  /** What one bisection step decides and leaves, for either parity. */
  lemma Bisected(c: Cell, n: nat, lat: real, lng: real)
    ensures n % 2 == 0 ==> var mid := (c.lngLow + c.lngHigh) / 2.0;
              Half(c, n, Above(c, n, lat, lng)) == if lng > mid then c.(lngLow := mid) else c.(lngHigh := mid)
    ensures n % 2 == 0 ==> (Above(c, n, lat, lng) <==> lng > (c.lngLow + c.lngHigh) / 2.0)
    ensures n % 2 != 0 ==> var mid := (c.latLow + c.latHigh) / 2.0;
              Half(c, n, Above(c, n, lat, lng)) == if lat > mid then c.(latLow := mid) else c.(latHigh := mid)
    ensures n % 2 != 0 ==> (Above(c, n, lat, lng) <==> lat > (c.latLow + c.latHigh) / 2.0)
  {
  }

  lemma NothingYet(lat: real, lng: real)
    ensures Underway(lat, lng, "", 0, 0, WORLD)
  {
  }

  lemma WantedLetters(precision: int)
    ensures Letters(precision) == if precision <= 0 then 6 else precision
  {
  }

  lemma AllLetters(lat: real, lng: real, precision: int, out: string, ch: int, c: Cell)
    requires Underway(lat, lng, out, 0, ch, c) && |out| == Letters(precision)
    ensures out == Hash(lat, lng, precision)
  {
  }

  lemma NextLetter(bits: seq<bool>, m: nat, ch: nat)
    requires |bits| == 5 * (m + 1) && ch == Value(bits[5 * m..])
    ensures ch < 32 && Code(bits, m + 1) == Code(bits, m) + [LetterAt(ch)]
    ensures Value(bits[5 * (m + 1)..]) == 0
  {
    assert bits[5 * m..] == bits[5 * m..5 * (m + 1)];
    ValueBelow(bits[5 * m..]);
    assert bits[5 * (m + 1)..] == [];
  }

  // ---- Cells -----------------------------------------------------------------------------------

  /** Cells are open below and closed above, except at the world's own lower edges. */
  ghost predicate InCell(c: Cell, lat: real, lng: real)
  {
    && (c.latLow < lat || c.latLow == lat == -90.0) && lat <= c.latHigh
    && (c.lngLow < lng || c.lngLow == lng == -180.0) && lng <= c.lngHigh
  }

  ghost predicate InWorld(lat: real, lng: real)
  {
    -90.0 <= lat <= 90.0 && -180.0 <= lng <= 180.0
  }

  /** `total` halved `k` times. */
  ghost function Halved(total: real, k: nat): real
  {
    if k == 0 then total else Halved(total, k - 1) / 2.0
  }

  ghost function Pow2(k: nat): nat
  {
    if k == 0 then 1 else 2 * Pow2(k - 1)
  }

  lemma {:induction false} HalvedIsDyadic(total: real, k: nat)
    ensures Halved(total, k) * Pow2(k) as real == total
  {
    if k > 0 {
      HalvedIsDyadic(total, k - 1);
      var h, p := Halved(total, k), Pow2(k - 1) as real;
      assert Halved(total, k - 1) == 2.0 * h && Pow2(k) as real == 2.0 * p;
      Regrouped(h, p);
    }
  }

  lemma Regrouped(h: real, p: real)
    ensures h * (2.0 * p) == (2.0 * h) * p
  {
  }

  /** The exact size of a cell: longitude is halved first. */
  lemma {:induction false} CellSize(bits: seq<bool>)
    ensures CellOf(bits).lngHigh - CellOf(bits).lngLow == Halved(360.0, (|bits| + 1) / 2)
    ensures CellOf(bits).latHigh - CellOf(bits).latLow == Halved(180.0, |bits| / 2)
  {
    if bits != [] {
      CellSize(bits[..|bits| - 1]);
    }
  }

  lemma CellNotEmpty(bits: seq<bool>)
    ensures CellOf(bits).lngLow < CellOf(bits).lngHigh && CellOf(bits).latLow < CellOf(bits).latHigh
    ensures -180.0 <= CellOf(bits).lngLow && -90.0 <= CellOf(bits).latLow
  {
    if bits != [] {
      CellNotEmpty(bits[..|bits| - 1]);
    }
  }

  /** For a point of the world, the bisection descends into the one half that holds it. */
  lemma HalfHolds(bits: seq<bool>, lat: real, lng: real, up: bool)
    requires InCell(CellOf(bits), lat, lng)
    ensures InCell(Half(CellOf(bits), |bits|, up), lat, lng) <==> up == Above(CellOf(bits), |bits|, lat, lng)
  {
    CellNotEmpty(bits);
    hide CellOf;
  }

  lemma HalfWithin(bits: seq<bool>, lat: real, lng: real, up: bool)
    requires InCell(Half(CellOf(bits), |bits|, up), lat, lng)
    ensures InCell(CellOf(bits), lat, lng)
  {
    CellNotEmpty(bits);
    hide CellOf;
  }

  /** The cell contains the point it was computed from. */
  lemma {:induction false} CellHoldsPoint(lat: real, lng: real, n: nat)
    requires InWorld(lat, lng)
    ensures InCell(CellOf(Bits(lat, lng, n)), lat, lng)
  {
    if n > 0 {
      hide CellOf, Bits, InCell, Half;
      CellHoldsPoint(lat, lng, n - 1);
      StepOfBits(lat, lng, n - 1);
      HalfHolds(Bits(lat, lng, n - 1), lat, lng, Above(CellOf(Bits(lat, lng, n - 1)), n - 1, lat, lng));
    } else {
      assert CellOf([]) == WORLD;
    }
  }

  /** A point of the world lies in a cell exactly when the bisection yields the cell's bits. */
  lemma {:induction false} InCellIffSameBits(bits: seq<bool>, lat: real, lng: real)
    requires InWorld(lat, lng)
    ensures InCell(CellOf(bits), lat, lng) <==> Bits(lat, lng, |bits|) == bits
  {
    hide CellOf, Bits, InCell, Half, Above;
    if bits == [] {
      WholeWorld(lat, lng);
    } else {
      var init, last := bits[..|bits| - 1], bits[|bits| - 1];
      InCellIffSameBits(init, lat, lng);
      CellOfSplit(bits);
      StepOfBits(lat, lng, |init|);
      assert bits == init + [last];
      if InCell(CellOf(bits), lat, lng) {
        HalfWithin(init, lat, lng, last);
        HalfHolds(init, lat, lng, last);
      }
      if Bits(lat, lng, |bits|) == bits {
        CellHoldsPoint(lat, lng, |bits|);
      }
    }
  }

  lemma WholeWorld(lat: real, lng: real)
    requires InWorld(lat, lng)
    ensures InCell(CellOf([]), lat, lng) && Bits(lat, lng, 0) == []
  {
  }

  lemma CellOfSplit(bits: seq<bool>)
    requires bits != []
    ensures CellOf(bits) == Half(CellOf(bits[..|bits| - 1]), |bits| - 1, bits[|bits| - 1])
  {
  }

  // ---- Prefixes --------------------------------------------------------------------------------------

  /** A shorter code is a prefix of a longer one for the same point. */
  lemma ShorterIsPrefix(lat: real, lng: real, p: nat, q: nat)
    requires 1 <= p <= q
    ensures Hash(lat, lng, p) <= Hash(lat, lng, q)
  {
    BitsPrefix(lat, lng, 5 * p, 5 * q);
    CodeOfPrefix(Bits(lat, lng, 5 * p), Bits(lat, lng, 5 * q), p);
    CodePrefix(Bits(lat, lng, 5 * q), p, q);
  }

  lemma {:induction false} CodePrefix(bits: seq<bool>, p: nat, q: nat)
    requires p <= q && 5 * q <= |bits|
    ensures Code(bits, p) <= Code(bits, q)
  {
    if p < q {
      CodePrefix(bits, p, q - 1);
    }
  }

  lemma AlphabetRises()
    ensures |ALPHABET| == 32 && forall i :: 0 <= i < 31 ==> ALPHABET[i] < ALPHABET[i + 1]
  {
  }

  lemma {:induction false} LettersDiffer(i: nat, j: nat)
    requires i < j < 32
    ensures ALPHABET[i] < ALPHABET[j]
  {
    AlphabetRises();
    if i + 1 < j {
      LettersDiffer(i, j - 1);
      assert ALPHABET[j - 1] < ALPHABET[j - 1 + 1];
    }
  }

  /** The letters of base 32: the digits and the lower-case letters but for a, i, l and o. */
  predicate IsBase32(c: char)
  {
    ('0' <= c <= '9' || 'a' <= c <= 'z') && c != 'a' && c != 'i' && c != 'l' && c != 'o'
  }

  /** Where a letter stands among them. */
  function PlaceOf(c: char): (v: nat)
    requires IsBase32(c)
    ensures v < 32
  {
    if c <= '9' then c as int - '0' as int
    else if c <= 'h' then 10 + (c as int - 'b' as int)
    else if c <= 'k' then 17 + (c as int - 'j' as int)
    else if c <= 'n' then 19 + (c as int - 'm' as int)
    else 21 + (c as int - 'p' as int)
  }

  lemma AlphabetDigits(v: nat)
    requires v < 32
    ensures v < 10 ==> ALPHABET[v] as int == '0' as int + v
    ensures 10 <= v < 17 ==> ALPHABET[v] as int == 'b' as int + (v - 10)
    ensures 17 <= v < 19 ==> ALPHABET[v] as int == 'j' as int + (v - 17)
    ensures 19 <= v < 21 ==> ALPHABET[v] as int == 'm' as int + (v - 19)
    ensures 21 <= v ==> ALPHABET[v] as int == 'p' as int + (v - 21)
  {
  }

  /** The letters used are exactly those, and they rise with the value they stand for. */
  lemma AlphabetIsBase32()
    ensures forall c: char :: IsBase32(c) <==> exists v :: 0 <= v < 32 && LetterAt(v) == c
    ensures forall i, j :: 0 <= i < j < 32 ==> LetterAt(i) < LetterAt(j)
  {
    forall c: char ensures IsBase32(c) <==> exists v :: 0 <= v < 32 && LetterAt(v) == c {
      if IsBase32(c) {
        AlphabetDigits(PlaceOf(c));
        assert LetterAt(PlaceOf(c)) == c;
      }
      if v :| 0 <= v < 32 && LetterAt(v) == c {
        AlphabetDigits(v);
      }
    }
    forall i, j | 0 <= i < j < 32 ensures LetterAt(i) < LetterAt(j) {
      LettersDiffer(i, j);
    }
  }

  lemma {:induction false} ValueInjective(a: seq<bool>, b: seq<bool>)
    requires |a| == |b| && Value(a) == Value(b)
    ensures a == b
  {
    if a != [] {
      var i := |a| - 1;
      assert a == a[..i] + [a[i]] && b == b[..i] + [b[i]];
      ValueInjective(a[..i], b[..i]);
    }
  }

  lemma LetterInjective(a: seq<bool>, b: seq<bool>)
    requires |a| == |b| == 5 && Letter(a) == Letter(b)
    ensures a == b
  {
    ValueBelow(a);
    ValueBelow(b);
    if Value(a) < Value(b) {
      LettersDiffer(Value(a), Value(b));
    } else if Value(b) < Value(a) {
      LettersDiffer(Value(b), Value(a));
    } else {
      ValueInjective(a, b);
    }
  }

  lemma {:induction false} SameCodeSameBits(a: seq<bool>, b: seq<bool>, m: nat)
    requires 5 * m <= |a| && 5 * m <= |b| && Code(a, m) == Code(b, m)
    ensures a[..5 * m] == b[..5 * m]
  {
    hide Letter;
    if m > 0 {
      var ca, cb := Code(a, m), Code(b, m);
      assert ca[..m - 1] == Code(a, m - 1) && cb[..m - 1] == Code(b, m - 1);
      assert ca[m - 1] == Letter(a[5 * (m - 1)..5 * m]) && cb[m - 1] == Letter(b[5 * (m - 1)..5 * m]);
      SameCodeSameBits(a, b, m - 1);
      LetterInjective(a[5 * (m - 1)..5 * m], b[5 * (m - 1)..5 * m]);
      assert a[..5 * m] == a[..5 * (m - 1)] + a[5 * (m - 1)..5 * m];
      assert b[..5 * m] == b[..5 * (m - 1)] + b[5 * (m - 1)..5 * m];
    }
  }

  /** The cell of a point at a precision. */
  ghost function CellAt(lat: real, lng: real, precision: nat): Cell
  {
    CellOf(Bits(lat, lng, 5 * precision))
  }

  /** Two points share the first `p` letters exactly when the second lies in the first one's
      cell at precision `p`. */
  lemma SharedPrefixIffSameCell(lat: real, lng: real, lat': real, lng': real, p: nat, q: nat)
    requires 1 <= p <= q && InWorld(lat, lng) && InWorld(lat', lng')
    ensures Hash(lat, lng, q)[..p] == Hash(lat', lng', q)[..p] <==> InCell(CellAt(lat, lng, p), lat', lng')
    ensures InCell(CellAt(lat, lng, p), lat', lng') <==> CellAt(lat, lng, p) == CellAt(lat', lng', p)
  {
    hide CellOf, Bits, InCell, Code;
    ShorterIsPrefix(lat, lng, p, q);
    ShorterIsPrefix(lat', lng', p, q);
    var a, b := Bits(lat, lng, 5 * p), Bits(lat', lng', 5 * p);
    assert Hash(lat, lng, q)[..p] == Code(a, p) && Hash(lat', lng', q)[..p] == Code(b, p);
    InCellIffSameBits(a, lat', lng');
    InCellIffSameBits(b, lat', lng');
    if Code(a, p) == Code(b, p) {
      SameCodeSameBits(a, b, p);
      assert a[..5 * p] == a && b[..5 * p] == b;
    }
  }

  // ---- A known code --------------------------------------------------------------------------------------

  lemma Descend(lat: real, lng: real, bits: seq<bool>, c: Cell, up: bool, half: Cell)
    requires Bits(lat, lng, |bits|) == bits && CellOf(bits) == c
    requires up == Above(c, |bits|, lat, lng) && half == Half(c, |bits|, up)
    ensures Bits(lat, lng, |bits| + 1) == bits + [up] && CellOf(bits + [up]) == half
  {
    hide Bits, CellOf, Above, Half;
    StepOfBits(lat, lng, |bits|);
  }

  /** In northern Jutland codes begin with u4. */
  lemma JutlandIsU4()
    ensures Hash(57.64911, 10.40744, 2) == "u4"
  {
    hide Bits, CellOf, Value;
    JutlandBits(57.64911, 10.40744);
    FiveBits(true, true, false, true, false);
    FiveBits(false, false, true, false, false);
    TwoLetters(Bits(57.64911, 10.40744, 10));
  }

  lemma TwoLetters(bits: seq<bool>)
    requires bits == [true, true, false, true, false, false, false, true, false, false]
    requires Value([true, true, false, true, false]) == 26 && Value([false, false, true, false, false]) == 4
    ensures Code(bits, 2) == "u4"
  {
    hide Value;
    assert Code(bits, 0) == "";
    assert bits[0..5] == [true, true, false, true, false] && bits[5..10] == [false, false, true, false, false];
    assert Code(bits, 1) == "u";
    assert Code(bits, 2) == "u4";
  }

  lemma FiveBits(a: bool, b: bool, c: bool, d: bool, e: bool)
    ensures Value([a, b, c, d, e])
         == (if a then 16 else 0) + (if b then 8 else 0) + (if c then 4 else 0) + (if d then 2 else 0) + (if e then 1 else 0)
  {
    assert Value([]) == 0;
    assert [a][..0] == [] && [a, b][..1] == [a] && [a, b, c][..2] == [a, b] && [a, b, c, d][..3] == [a, b, c];
    assert [a, b, c, d, e][..4] == [a, b, c, d];
    assert Value([a]) == if a then 1 else 0;
    assert Value([a, b]) == 2 * Value([a]) + if b then 1 else 0;
    assert Value([a, b, c]) == 2 * Value([a, b]) + if c then 1 else 0;
    assert Value([a, b, c, d]) == 2 * Value([a, b, c]) + if d then 1 else 0;
  }

  lemma JutlandBits(lat: real, lng: real)
    requires lat == 57.64911 && lng == 10.40744
    ensures Bits(lat, lng, 10) == [true, true, false, true, false, false, false, true, false, false]
  {
    hide Bits, CellOf;
    WholeBits(lat, lng);
    var b: seq<bool> := [];
    Descend(lat, lng, b, WORLD, true, Cell(-90.0, 90.0, 0.0, 180.0));
    b := b + [true];
    Descend(lat, lng, b, Cell(-90.0, 90.0, 0.0, 180.0), true, Cell(0.0, 90.0, 0.0, 180.0));
    b := b + [true];
    Descend(lat, lng, b, Cell(0.0, 90.0, 0.0, 180.0), false, Cell(0.0, 90.0, 0.0, 90.0));
    b := b + [false];
    Descend(lat, lng, b, Cell(0.0, 90.0, 0.0, 90.0), true, Cell(45.0, 90.0, 0.0, 90.0));
    b := b + [true];
    Descend(lat, lng, b, Cell(45.0, 90.0, 0.0, 90.0), false, Cell(45.0, 90.0, 0.0, 45.0));
    b := b + [false];
    Descend(lat, lng, b, Cell(45.0, 90.0, 0.0, 45.0), false, Cell(45.0, 67.5, 0.0, 45.0));
    b := b + [false];
    Descend(lat, lng, b, Cell(45.0, 67.5, 0.0, 45.0), false, Cell(45.0, 67.5, 0.0, 22.5));
    b := b + [false];
    Descend(lat, lng, b, Cell(45.0, 67.5, 0.0, 22.5), true, Cell(56.25, 67.5, 0.0, 22.5));
    b := b + [true];
    Descend(lat, lng, b, Cell(56.25, 67.5, 0.0, 22.5), false, Cell(56.25, 67.5, 0.0, 11.25));
    b := b + [false];
    Descend(lat, lng, b, Cell(56.25, 67.5, 0.0, 11.25), false, Cell(56.25, 61.875, 0.0, 11.25));
  }

  lemma WholeBits(lat: real, lng: real)
    ensures Bits(lat, lng, 0) == [] && CellOf([]) == WORLD
  {
  }

  // ---- Lock partitions ---------------------------------------------------------------------------------

  function Byte(c: char): bv32
  {
    (c as int % 256) as bv32
  }

  function Xor(x: bv32, w: bv32): bv32
  {
    x ^ w
  }

  function TimesPrime(x: bv32): bv32
  {
    x * 16777619
  }

  /** One round of FNV-1a on 32-bit words. */
  function Mix(h: bv32, c: char): bv32
  {
    TimesPrime(Xor(h, Byte(c)))
  }

  function Fnv(s: string): bv32
  {
    if s == "" then 2166136261 else Mix(Fnv(s[..|s| - 1]), s[|s| - 1])
  }

  /** Known values of 32-bit FNV-1a. */
  lemma KnownFnvValues()
    ensures Fnv("") == 0x811c9dc5
    ensures Fnv("a") == 0xe40c292c
    ensures Fnv("foobar") == 0xbf9cf968
  {
    NothingMixed();
    hide Fnv, Mix, TimesPrime, Xor, Byte;
    KnownBytes();
    KnownProducts();
    OneRound("", 'a', 0x811c9dc5, 0x61, 0xe40c292c);
    OneRound("", 'f', 0x811c9dc5, 0x66, 0xe30c2799);
    assert "" + ['f'] == "f";
    OneRound("f", 'o', 0xe30c2799, 0x6f, 0x6222e842);
    assert "f" + ['o'] == "fo";
    OneRound("fo", 'o', 0x6222e842, 0x6f, 0xa9f37ed7);
    assert "fo" + ['o'] == "foo";
    OneRound("foo", 'b', 0xa9f37ed7, 0x62, 0x3f5076ef);
    assert "foo" + ['b'] == "foob";
    OneRound("foob", 'a', 0x3f5076ef, 0x61, 0x39aaa18a);
    assert "foob" + ['a'] == "fooba";
    OneRound("fooba", 'r', 0x39aaa18a, 0x72, 0xbf9cf968);
    assert "fooba" + ['r'] == "foobar";
    assert "" + ['a'] == "a";
  }

  lemma NothingMixed()
    ensures Fnv("") == 2166136261
  {
  }

  lemma KnownBytes()
    ensures Byte('a') == 0x61 && Byte('f') == 0x66 && Byte('o') == 0x6f && Byte('b') == 0x62 && Byte('r') == 0x72
  {
    hide Byte;
    ByteOfA();
    ByteOfB();
    ByteOfF();
    ByteOfO();
    ByteOfR();
  }

  lemma ByteOfA()
    ensures Byte('a') == 0x61
  {
  }

  lemma ByteOfB()
    ensures Byte('b') == 0x62
  {
  }

  lemma ByteOfF()
    ensures Byte('f') == 0x66
  {
  }

  lemma ByteOfO()
    ensures Byte('o') == 0x6f
  {
  }

  lemma ByteOfR()
    ensures Byte('r') == 0x72
  {
  }

  lemma KnownProducts()
    ensures TimesPrime(Xor(0x811c9dc5, 0x61)) == 0xe40c292c
    ensures TimesPrime(Xor(0x811c9dc5, 0x66)) == 0xe30c2799
    ensures TimesPrime(Xor(0xe30c2799, 0x6f)) == 0x6222e842
    ensures TimesPrime(Xor(0x6222e842, 0x6f)) == 0xa9f37ed7
    ensures TimesPrime(Xor(0xa9f37ed7, 0x62)) == 0x3f5076ef
    ensures TimesPrime(Xor(0x3f5076ef, 0x61)) == 0x39aaa18a
    ensures TimesPrime(Xor(0x39aaa18a, 0x72)) == 0xbf9cf968
  {
  }

  /** One round, from the byte of the character. */
  lemma OneRound(s: string, c: char, h: bv32, w: bv32, r: bv32)
    requires Fnv(s) == h && Byte(c) == w && TimesPrime(Xor(h, w)) == r
    ensures Fnv(s + [c]) == r
  {
    hide Byte, TimesPrime, Xor;
    assert (s + [c])[..|s|] == s;
  }

  /** A round can be undone: the prime has an inverse. */
  lemma RoundIsInjective(h: bv32, g: bv32, c: char)
    ensures Mix(h, c) == Mix(g, c) ==> h == g
  {
    hide Byte, TimesPrime, Xor;
    if Mix(h, c) == Mix(g, c) {
      TimesInjective(Xor(h, Byte(c)), Xor(g, Byte(c)));
      XorInjective(h, g, Byte(c));
    }
  }

  lemma XorInjective(x: bv32, y: bv32, w: bv32)
    requires Xor(x, w) == Xor(y, w)
    ensures x == y
  {
    hide Xor;
    XorUndoes(x, w);
    XorUndoes(y, w);
  }

  lemma XorUndoes(x: bv32, w: bv32)
    ensures Xor(Xor(x, w), w) == x
  {
  }

  lemma TimesInjective(x: bv32, y: bv32)
    requires TimesPrime(x) == TimesPrime(y)
    ensures x == y
  {
    hide TimesPrime, TimesInverse;
    InverseUndoes(x);
    InverseUndoes(y);
  }

  function TimesInverse(x: bv32): bv32
  {
    x * 899433627
  }

  lemma InverseUndoes(x: bv32)
    ensures TimesInverse(TimesPrime(x)) == x
  {
    hide TimesPrime, TimesInverse;
    TimesPrimeIs(x);
    ProductIsOne(x);
  }

  lemma TimesPrimeIs(x: bv32)
    ensures TimesPrime(x) == x * 16777619
  {
  }

  lemma ProductIsOne(x: bv32)
    ensures TimesInverse(x * 16777619) == x
  {
  }

  function Shard(h: bv32, partitions: nat): (r: nat)
    requires 1 <= partitions
    ensures r < partitions
  {
    h as int % partitions
  }

  function Partition(lat: real, lng: real, partitions: nat): nat
    requires 1 <= partitions
  {
    Shard(Fnv(Hash(lat, lng, 5)), partitions)
  }

  method PartitionFor(lat: real, lng: real, partitions: nat) returns (r: nat)
    requires 1 <= partitions
    ensures r == Partition(lat, lng, partitions) && r < partitions
    ensures r == Fnv(Hash(lat, lng, 5)) as int % partitions
  {
    hide Hash, Mix, Shard;
    var hash := Encode(lat, lng, 5);
    var h: bv32 := 2166136261;
    for i := 0 to |hash|
      invariant h == Fnv(hash[..i])
    {
      assert hash[..i + 1][..i] == hash[..i];
      h := Mix(h, hash[i]);
    }
    assert hash[..|hash|] == hash;
    r := Shard(h, partitions);
    ShardIs(h, partitions);
  }

  lemma ShardIs(h: bv32, partitions: nat)
    requires 1 <= partitions
    ensures Shard(h, partitions) == h as int % partitions
  {
  }

  /** Everything in one precision-5 cell contends for the same partition. */
  lemma SameCellSamePartition(lat: real, lng: real, lat': real, lng': real, partitions: nat)
    requires 1 <= partitions && InWorld(lat, lng) && InWorld(lat', lng')
    requires InCell(CellAt(lat, lng, 5), lat', lng')
    ensures Partition(lat, lng, partitions) == Partition(lat', lng', partitions)
  {
    hide CellAt, InCell, Code, Bits, Fnv;
    SharedPrefixIffSameCell(lat, lng, lat', lng', 5, 5);
    assert Hash(lat, lng, 5)[..5] == Hash(lat, lng, 5) && Hash(lat', lng', 5)[..5] == Hash(lat', lng', 5);
  }
}
