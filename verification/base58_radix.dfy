/** Positional notation in any base, and the bounds that make the fixed buffers of the Base58 conversions large enough. */
module Radix {
  import opened Arithmetic

  function Pow(base: nat, n: nat): nat {
    if n == 0 then 1 else base * Pow(base, n - 1)
  }

  /** The number of a sequence of digits, least significant first. */
  function Number(d: seq<nat>, base: nat): nat {
    if d == [] then 0 else Number(d[..|d| - 1], base) + d[|d| - 1] * Pow(base, |d| - 1)
  }

  predicate AreDigits(d: seq<nat>, base: nat) {
    forall i | 0 <= i < |d| :: d[i] < base
  }

  /** No zero at the most significant end. */
  predicate Canonical(d: seq<nat>) {
    d != [] ==> d[|d| - 1] != 0
  }

  lemma {:induction false} PowPositive(base: nat, n: nat)
    requires base >= 1
    ensures Pow(base, n) >= 1
    decreases n
  {
    if n > 0 {
      PowPositive(base, n - 1);
      MulLe(1, base, Pow(base, n - 1));
    }
  }

  lemma {:induction false} PowSum(base: nat, i: nat, j: nat)
    ensures Pow(base, i + j) == Pow(base, i) * Pow(base, j)
    decreases j
  {
    if j > 0 {
      PowSum(base, i, j - 1);
      MulAssoc(Pow(base, i), base, Pow(base, j - 1));
    }
  }

  lemma {:induction false} PowMonotone(base: nat, i: nat, j: nat)
    requires base >= 1 && i <= j
    ensures Pow(base, i) <= Pow(base, j)
  {
    hide Pow;
    PowSum(base, i, j - i);
    PowPositive(base, j - i);
    MulLe(1, Pow(base, j - i), Pow(base, i));
  }

  // ----- digits -----

  lemma {:induction false} NumberNext(d: seq<nat>, base: nat, i: nat)
    requires i < |d|
    ensures Number(d[..i + 1], base) == Number(d[..i], base) + d[i] * Pow(base, i)
  {
    assert d[..i + 1][..i] == d[..i];
  }

  lemma {:induction false} NumberBound(d: seq<nat>, base: nat)
    requires AreDigits(d, base) && base >= 1
    ensures Number(d, base) < Pow(base, |d|)
    decreases |d|
  {
    if d != [] {
      var n := |d| - 1;
      NumberBound(d[..n], base);
      MulLe(d[n] + 1, base, Pow(base, n));
      Distribute(d[n], 1, Pow(base, n));
    }
  }

  lemma {:induction false} NumberZeros(d: seq<nat>, base: nat, i: nat)
    requires i <= |d| && forall k | i <= k < |d| :: d[k] == 0
    ensures Number(d, base) == Number(d[..i], base)
    decreases |d|
  {
    if i == |d| {
      assert d[..i] == d;
    } else {
      var n := |d| - 1;
      NumberZeros(d[..n], base, i);
      assert d[..n][..i] == d[..i];
    }
  }

  /** Two canonical digit sequences of the same number are the same. */
  lemma {:induction false} CanonicalUnique(c: seq<nat>, d: seq<nat>, base: nat)
    requires base >= 2 && AreDigits(c, base) && AreDigits(d, base) && Canonical(c) && Canonical(d)
    requires Number(c, base) == Number(d, base)
    ensures c == d
  {
    CanonicalLength(c, d, base);
    CanonicalLength(d, c, base);
    SameLengthUnique(c, d, base);
  }

  lemma {:induction false} CanonicalLength(c: seq<nat>, d: seq<nat>, base: nat)
    requires base >= 2 && AreDigits(c, base) && AreDigits(d, base) && Canonical(d) && Number(c, base) == Number(d, base)
    ensures |d| <= |c|
  {
    if |d| > |c| {
      var n := |d| - 1;
      NumberBound(c, base);
      PowMonotone(base, |c|, n);
      MulLe(1, d[n], Pow(base, n));
    }
  }

  lemma {:induction false} SameLengthUnique(c: seq<nat>, d: seq<nat>, base: nat)
    requires base >= 2 && AreDigits(c, base) && AreDigits(d, base) && |c| == |d| && Number(c, base) == Number(d, base)
    ensures c == d
    decreases |c|
  {
    if c != [] {
      var n := |c| - 1;
      var p := Pow(base, n);
      NumberBound(c[..n], base);
      NumberBound(d[..n], base);
      if c[n] < d[n] { MulLe(c[n] + 1, d[n], p); Distribute(c[n], 1, p); }
      if d[n] < c[n] { MulLe(d[n] + 1, c[n], p); Distribute(d[n], 1, p); }
      SameLengthUnique(c[..n], d[..n], base);
      assert c == c[..n] + [c[n]] && d == d[..n] + [d[n]];
    }
  }

  /** The digits of a number, without leading zeros. */
  function Digits(v: nat, base: nat): (d: seq<nat>)
    requires base >= 2
    decreases v
  {
    if v == 0 then [] else DivLess(v, base); [v % base] + Digits(v / base, base)
  }

  lemma {:induction false} DivLess(v: nat, base: nat)
    requires v > 0 && base >= 2
    ensures 0 <= v / base < v && 0 <= v % base < base && v == v / base * base + v % base
  {
    var q := v / base;
    assert v == q * base + v % base;
    if q >= v { MulLe(2, base, q); }
  }

  lemma {:induction false} DigitsAre(v: nat, base: nat)
    requires base >= 2
    ensures AreDigits(Digits(v, base), base) && Canonical(Digits(v, base)) && Number(Digits(v, base), base) == v
    decreases v
  {
    if v == 0 {
    } else {
      DivLess(v, base);
      var q, r := v / base, v % base;
      DigitsAre(q, base);
      DigitsStep(v, q, r, Digits(q, base), base);
    }
  }

  lemma {:induction false} DigitsStep(v: nat, q: nat, r: nat, rest: seq<nat>, base: nat)
    requires v > 0 && r < base && v == q * base + r && AreDigits(rest, base) && Canonical(rest) && Number(rest, base) == q
    ensures AreDigits([r] + rest, base) && Canonical([r] + rest) && Number([r] + rest, base) == v
  {
    NumberCons(r, rest, base);
    var d := [r] + rest;
    if rest != [] { assert d[|d| - 1] == rest[|rest| - 1]; }
  }

  lemma {:induction false} NumberCons(x: nat, rest: seq<nat>, base: nat)
    ensures Number([x] + rest, base) == x + base * Number(rest, base)
    decreases |rest|
  {
    var d := [x] + rest;
    if rest == [] {
      assert d[..0] == [];
    } else {
      var n := |rest| - 1;
      NumberCons(x, rest[..n], base);
      assert d[..|d| - 1] == [x] + rest[..n];
      MulAssoc(rest[n], base, Pow(base, n));
      Distribute(Number(rest[..n], base), rest[n] * Pow(base, n), base);
    }
  }

  /** What a canonical sequence of digits is. */
  lemma {:induction false} DigitsOfNumber(d: seq<nat>, base: nat)
    requires base >= 2 && AreDigits(d, base) && Canonical(d)
    ensures Digits(Number(d, base), base) == d
  {
    DigitsAre(Number(d, base), base);
    CanonicalUnique(Digits(Number(d, base), base), d, base);
  }

  function Reverse<T>(s: seq<T>): (r: seq<T>)
    ensures |r| == |s| && forall i | 0 <= i < |s| :: r[i] == s[|s| - 1 - i]
  {
    seq(|s|, i requires 0 <= i < |s| => s[|s| - 1 - i])
  }

  lemma {:induction false} ReverseTwice<T>(s: seq<T>)
    ensures Reverse(Reverse(s)) == s
  {
  }

  /** Appending a digit at the less significant end. */
  lemma {:induction false} ReadNext(s: seq<nat>, base: nat, i: nat)
    requires i < |s|
    ensures Number(Reverse(s[..i + 1]), base) == Number(Reverse(s[..i]), base) * base + s[i]
  {
    assert Reverse(s[..i + 1]) == [s[i]] + Reverse(s[..i]);
    NumberCons(s[i], Reverse(s[..i]), base);
  }

  // ----- the buffers are large enough -----

  /** One block: base^a <= other^b lets k blocks be converted as well. */
  lemma {:induction false} Blocks(x: nat, a: nat, y: nat, b: nat, k: nat)
    requires Pow(x, a) <= Pow(y, b)
    ensures Pow(x, a * k) <= Pow(y, b * k)
    decreases k
  {
    if k > 0 {
      Blocks(x, a, y, b, k - 1);
      assert a * k == a + a * (k - 1) && b * k == b + b * (k - 1);
      PowSum(x, a, a * (k - 1));
      PowSum(y, b, b * (k - 1));
      Products(Pow(x, a), Pow(y, b), Pow(x, a * (k - 1)), Pow(y, b * (k - 1)));
    }
  }

  lemma {:induction false} Products(a: nat, b: nat, c: nat, d: nat)
    requires a <= b && c <= d
    ensures a * c <= b * d
  {
    MulLe(a, b, c);
    MulLe(c, d, b);
  }

  /** Blocks and a rest. */
  lemma {:induction false} BlocksAndRest(x: nat, a: nat, y: nat, b: nat, k: nat, r: nat, s: nat)
    requires Pow(x, a) <= Pow(y, b) && Pow(x, r) <= Pow(y, s)
    ensures Pow(x, a * k + r) <= Pow(y, b * k + s)
  {
    Blocks(x, a, y, b, k);
    PowSum(x, a * k, r);
    PowSum(y, b * k, s);
    Products(Pow(x, a * k), Pow(y, b * k), Pow(x, r), Pow(y, s));
  }

  // ----- the two bases of Base58 -----

  lemma {:induction false} Pow58Small()
    ensures Pow(58, 1) == 58 && Pow(58, 2) == 0xd24 && Pow(58, 4) == 0xacad10 && Pow(58, 8) == 0x7479027ea100
  {
    hide Pow;
    PowStep(58, 0);
    PowSum(58, 1, 1);
    PowSum(58, 2, 2);
    PowSum(58, 4, 4);
  }

  lemma {:induction false} PowStep(base: nat, n: nat)
    ensures Pow(base, 0) == 1 && Pow(base, n + 1) == base * Pow(base, n)
  {
  }

  lemma {:induction false} Pow58Large()
    ensures Pow(58, 64) == 0x7853026ae25f4ce0c69893e6f1f86f67aef4db69563516064adeb967a9d66f4fe64b09ec94e5010000000000000000
  {
    hide Pow;
    Pow58Small();
    PowSum(58, 8, 8);
    PowSum(58, 16, 16);
    PowSum(58, 32, 32);
  }

  lemma {:induction false} Pow256Small()
    ensures Pow(256, 1) == 0x100 && Pow(256, 2) == 0x1_0000 && Pow(256, 4) == 0x1_0000_0000 && Pow(256, 8) == 0x1_0000_0000_0000_0000
  {
    hide Pow;
    PowStep(256, 0);
    PowSum(256, 1, 1);
    PowSum(256, 2, 2);
    PowSum(256, 4, 4);
  }

  lemma {:induction false} Pow256Large()
    ensures Pow(256, 52) == 0x100000000000000000000000000000000000000000000000000000000000000000000000000000000000000000000000000000000
  {
    hide Pow;
    Pow256Small();
    PowSum(256, 8, 8);
    PowSum(256, 16, 16);
    PowSum(256, 32, 16);
    PowSum(256, 48, 4);
  }

  /** Seventy-one digits of base 58 fit into fifty-two bytes. */
  lemma {:induction false} BlockOf71()
    ensures Pow(58, 71) <= Pow(256, 52)
  {
    hide Pow;
    Pow58Small();
    Pow58Large();
    Pow256Large();
    PowSum(58, 64, 4);
    PowSum(58, 68, 2);
    PowSum(58, 70, 1);
  }

  /** Eight bytes fit into eleven digits of base 58. */
  lemma {:induction false} BlockOf8()
    ensures Pow(256, 8) <= Pow(58, 11)
  {
    hide Pow;
    Pow58Small();
    Pow256Small();
    PowSum(58, 8, 2);
    PowSum(58, 10, 1);
  }

  lemma {:induction false} Powers58()
    ensures Pow(58, 0) == 1
    ensures Pow(58, 1) == 58
    ensures Pow(58, 2) == 0xd24
    ensures Pow(58, 3) == 0x2fa28
    ensures Pow(58, 4) == 0xacad10
    ensures Pow(58, 5) == 0x271f35a0
    ensures Pow(58, 6) == 0x8dd122640
    ensures Pow(58, 7) == 0x202161caa80
    ensures Pow(58, 8) == 0x7479027ea100
    ensures Pow(58, 9) == 0x1a636a90b07a00
    ensures Pow(58, 10) == 0x5fa8624c7fba400
    ensures Pow(58, 11) == 0x15ac264554f032800
    ensures Pow(58, 12) == 0x4e900abb53e6b71000
    ensures Pow(58, 13) == 0x11cca26e71024579a000
    ensures Pow(58, 14) == 0x4085ccd059a83bd8e4000
    ensures Pow(58, 15) == 0xe9e506734501d8f23a8000
  {
    hide Pow;
    PowStep(58, 0);
    PowStep(58, 1);
    PowStep(58, 2);
    PowStep(58, 3);
    PowStep(58, 4);
    PowStep(58, 5);
    PowStep(58, 6);
    PowStep(58, 7);
    PowStep(58, 8);
    PowStep(58, 9);
    PowStep(58, 10);
    PowStep(58, 11);
    PowStep(58, 12);
    PowStep(58, 13);
    PowStep(58, 14);
  }

  lemma {:induction false} Powers256()
    ensures Pow(256, 0) == 1
    ensures Pow(256, 1) == 256
    ensures Pow(256, 2) == 0x10000
    ensures Pow(256, 3) == 0x1000000
    ensures Pow(256, 4) == 0x100000000
    ensures Pow(256, 5) == 0x10000000000
    ensures Pow(256, 6) == 0x1000000000000
    ensures Pow(256, 7) == 0x100000000000000
    ensures Pow(256, 8) == 0x10000000000000000
    ensures Pow(256, 9) == 0x1000000000000000000
    ensures Pow(256, 10) == 0x100000000000000000000
    ensures Pow(256, 11) == 0x10000000000000000000000
  {
    hide Pow;
    PowStep(256, 0);
    PowStep(256, 1);
    PowStep(256, 2);
    PowStep(256, 3);
    PowStep(256, 4);
    PowStep(256, 5);
    PowStep(256, 6);
    PowStep(256, 7);
    PowStep(256, 8);
    PowStep(256, 9);
    PowStep(256, 10);
  }

  /** How many bytes hold r digits of base 58, for fewer than fifteen digits. */
  function BytesFor(r: nat): nat
    requires r < 15
  {
    [0, 1, 2, 3, 3, 4, 5, 6, 6, 7, 8, 9, 9, 10, 11][r]
  }

  lemma {:induction false} RestOf15(r: nat)
    requires r < 15
    ensures Pow(58, r) <= Pow(256, BytesFor(r))
  {
    hide Pow;
    Powers58();
    Powers256();
    if r == 0 {} else if r == 1 {} else if r == 2 {} else if r == 3 {} else if r == 4 {} else if r == 5 {} else if r == 6 {} else if r == 7 {} else if r == 8 {} else if r == 9 {} else if r == 10 {} else if r == 11 {} else if r == 12 {} else if r == 13 {} else {}
  }

  /** The rest of a conversion to bytes, in blocks of fifteen digits. */
  lemma {:induction false} RestOf71(r: nat)
    requires r < 71
    ensures Pow(58, r) <= Pow(256, r * 733 / 1000 + 1)
  {
    hide Pow;
    Powers58();
    Powers256();
    var k, t := r / 15, r % 15;
    RestOf15(t);
    BlocksAndRest(58, 15, 256, 11, k, t, BytesFor(t));
    FewBlocks(k, t);
    PowMonotone(256, 11 * k + BytesFor(t), r * 733 / 1000 + 1);
  }

  lemma {:induction false} FewBlocks(k: nat, t: nat)
    requires k <= 4 && t < 15
    ensures 11 * k + BytesFor(t) <= (15 * k + t) * 733 / 1000 + 1
  {
  }

  /** The buffer of the decoder holds any number of digits. */
  lemma {:induction false} DecodeBufferSuffices(m: nat)
    ensures Pow(58, m) <= Pow(256, m * 733 / 1000 + 1)
  {
    hide Pow;
    var k, r := m / 71, m % 71;
    BlockOf71();
    RestOf71(r);
    BlocksAndRest(58, 71, 256, 52, k, r, r * 733 / 1000 + 1);
    assert 52 * k + r * 733 / 1000 + 1 <= (71 * k + r) * 733 / 1000 + 1;
    PowMonotone(256, 52 * k + (r * 733 / 1000 + 1), m * 733 / 1000 + 1);
  }

  lemma {:induction false} RestOf8(r: nat)
    requires r < 8
    ensures Pow(256, r) <= Pow(58, r * 138 / 100 + 1)
  {
    hide Pow;
    Powers58();
    Powers256();
    if r == 0 {} else if r == 1 {} else if r == 2 {} else if r == 3 {} else if r == 4 {} else if r == 5 {} else if r == 6 {} else {}
  }

  /** The buffer of the encoder holds any number of bytes. */
  lemma {:induction false} EncodeBufferSuffices(n: nat)
    ensures Pow(256, n) <= Pow(58, n * 138 / 100 + 1)
  {
    hide Pow;
    var k, r := n / 8, n % 8;
    BlockOf8();
    RestOf8(r);
    BlocksAndRest(256, 8, 58, 11, k, r, r * 138 / 100 + 1);
    assert 11 * k + r * 138 / 100 + 1 <= (8 * k + r) * 138 / 100 + 1;
    PowMonotone(58, 11 * k + (r * 138 / 100 + 1), n * 138 / 100 + 1);
  }
}
