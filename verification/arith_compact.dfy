/** Compact targets: a size byte, a sign bit and 23 bits of mantissa; and the work of a block. */
module ArithCompact {
  import opened Arithmetic
  import opened ArithValue
  import opened ArithDivide

  const MANTISSA: nat := 0x80_0000

  type Word32 = n: nat | n < BASE

  function Size(n: Word32): nat {
    n / 0x100_0000
  }

  function Mantissa(n: Word32): nat {
    n % MANTISSA
  }

  function Sign(n: Word32): bool {
    (n / MANTISSA) % 2 == 1
  }

  function Floor(x: nat, p: nat): (r: nat)
    requires p >= 1
    ensures r <= x
  {
    QuotientLe(x, p);
    x / p
  }

  function Up(x: nat, bits: nat): nat {
    var p := Pow2(bits);
    x * p
  }

  /** The word the flags are computed from: shifted already when the size is small. */
  function Word(n: Word32): nat {
    if Size(n) <= 3 then Floor(Mantissa(n), Pow2(8 * (3 - Size(n)))) else Mantissa(n)
  }

  /** The number a compact form stands for, without regard to sign and width. */
  function Value(n: Word32): nat {
    if Size(n) <= 3 then Word(n) else Up(Mantissa(n), 8 * (Size(n) - 3))
  }

  predicate Negative(n: Word32) {
    Word(n) != 0 && Sign(n)
  }

  predicate Overflow(n: Word32) {
    Word(n) != 0 && (Size(n) > 34 || (Word(n) > 0xff && Size(n) > 33) || (Word(n) > 0xffff && Size(n) > 32))
  }

  // ----- the overflow flag -----

  lemma {:induction false} WordFits(n: Word32)
    ensures Word(n) < MANTISSA
  {
    hide Pow2, Floor;
  }

  lemma {:induction false} Small()
    ensures Pow2(8) == 0x100 && Pow2(16) == 0x1_0000 && Pow2(23) == MANTISSA && Pow2(24) == 0x100_0000
  {
    hide Pow2;
    Eight();
    Pow2Sum(8, 8);
    Pow2Sum(16, 8);
    Pow2Next(23);
  }

  lemma {:induction false} Eight()
    ensures Pow2(8) == 0x100
  {
  }

  /** The flag is set exactly when the number does not fit into 256 bits. */
  lemma {:induction false} OverflowIff(n: Word32)
    ensures Overflow(n) <==> Value(n) >= Pow2(256)
  {
    hide Pow2;
    var w, size := Word(n), Size(n);
    WordFits(n);
    Small();
    Pow2Grows(23, 256);
    if size > 3 {
      var e := 8 * (size - 3);
      if size > 34 {
        Pow2Grows(256, e);
        if w > 0 { MulLe(1, w, Pow2(e)); }
      } else if size == 34 {
        Pow2Sum(8, 248);
        CompareScaled(w, 0x100, Pow2(248));
      } else if size == 33 {
        Pow2Sum(16, 240);
        CompareScaled(w, 0x1_0000, Pow2(240));
      } else {
        Pow2Sum(24, e);
        Pow2Grows(24 + e, 256);
        CompareScaled(w, 0x100_0000, Pow2(e));
      }
    }
  }

  lemma {:induction false} CompareScaled(a: nat, b: nat, p: nat)
    requires p >= 1
    ensures a >= b <==> a * p >= b * p
  {
    if a >= b { MulLe(b, a, p); } else { MulLe(a + 1, b, p); Distribute(a, 1, p); }
  }

  // ----- encoding -----

  function BitLength(x: nat): nat {
    if x == 0 then 0 else 1 + BitLength(x / 2)
  }

  lemma {:induction false} BitLengthIs(x: nat)
    ensures IsBits(x, BitLength(x))
    decreases x
  {
    if x > 0 {
      BitLengthIs(x / 2);
      if x / 2 > 0 { Pow2Next(BitLength(x / 2) - 1); }
    }
  }

  lemma {:induction false} BitsUnique(x: nat, r: nat)
    requires IsBits(x, r)
    ensures r == BitLength(x)
  {
    hide Pow2;
    BitLengthIs(x);
    var s := BitLength(x);
    if r > 0 {
      BitsPositive(x, r);
      Pow2Grows(r, s - 1);
      Pow2Grows(s, r - 1);
    }
  }

  function Bytes(x: nat): nat {
    (BitLength(x) + 7) / 8
  }

  function DownBy(x: nat, bits: nat): nat {
    Floor(x, Pow2(bits))
  }

  /** The three leading bytes of a number of a given size. */
  function Leading(x: nat, size: nat): nat {
    if size <= 3 then Up(x, 8 * (3 - size)) else DownBy(x, 8 * (size - 3))
  }

  /** The mantissa and the size after making room for the sign bit. */
  function Parts(x: nat): (nat, nat) {
    var size := Bytes(x);
    var m := Leading(x, size);
    if m >= MANTISSA then (m / 0x100, size + 1) else (m, size)
  }

  /** The compact form of a number that is not negative. */
  function Encode(x: nat): nat {
    Parts(x).0 + Parts(x).1 * 0x100_0000
  }

  /** How many bytes are cut off by the encoding. */
  function Cut(x: nat): nat {
    var size := Parts(x).1;
    if size <= 3 then 0 else size - 3
  }

  /** A number of so many bytes. */
  lemma {:induction false} BytesBound(x: nat)
    requires x > 0
    ensures Bytes(x) >= 1 && Pow2(8 * (Bytes(x) - 1)) <= x < Pow2(8 * Bytes(x))
  {
    hide Pow2;
    BitLengthIs(x);
    var r := BitLength(x);
    Pow2Grows(8 * (Bytes(x) - 1), r - 1);
    Pow2Grows(r, 8 * Bytes(x));
  }

  lemma {:induction false} BytesUnique(x: nat, s: nat)
    requires s >= 1 && Pow2(8 * (s - 1)) <= x < Pow2(8 * s)
    ensures Bytes(x) == s
  {
    hide Pow2;
    BytesBound(x);
    var t := Bytes(x);
    Pow2Grows(8 * s, 8 * (t - 1));
    Pow2Grows(8 * t, 8 * (s - 1));
  }

  /** The leading bytes are three bytes, the first of them not zero. */
  lemma {:induction false} LeadingBound(x: nat)
    requires x > 0
    ensures Pow2(16) <= Leading(x, Bytes(x)) < Pow2(24)
  {
    hide Pow2;
    var s := Bytes(x);
    BytesBound(x);
    if s <= 3 {
      var p := Pow2(8 * (3 - s));
      Pow2Sum(8 * (s - 1), 8 * (3 - s));
      Pow2Sum(8 * s, 8 * (3 - s));
      MulLe(Pow2(8 * (s - 1)), x, p);
      MulLe(x + 1, Pow2(8 * s), p);
      Distribute(x, 1, p);
    } else {
      var p := Pow2(8 * (s - 3));
      Pow2Sum(16, 8 * (s - 3));
      Pow2Sum(24, 8 * (s - 3));
      DivMod(x, p);
      var q := x / p;
      if q < Pow2(16) { MulLe(q + 1, Pow2(16), p); Distribute(q, 1, p); }
      if q >= Pow2(24) { MulLe(Pow2(24), q, p); }
    }
  }

  // ----- what the encoding keeps -----

  /** The greatest multiple of 256^cut not above x. */
  function Kept(x: nat): nat {
    Up(DownBy(x, 8 * Cut(x)), 8 * Cut(x))
  }

  lemma {:induction false} DividedTwice(x: nat, p: nat, q: nat)
    requires p >= 1 && q >= 1
    ensures (x / p) / q == x / (p * q)
  {
    var a := x / p;
    var b := a / q;
    DivMod(x, p);
    DivMod(a, q);
    var r := (a % q) * p + x % p;
    Distribute(b * q, a % q, p);
    MulAssoc(b, q, p);
    MulLe(a % q + 1, q, p);
    Distribute(a % q, 1, p);
    DivModIs(x, p * q, b, r);
  }

  /** The mantissa and the size of the encoding of a number that is not zero. */
  lemma {:induction false} PartsAre(x: nat)
    requires x > 0
    ensures var (m, size) := Parts(x);
            && 0 < m < MANTISSA && 1 <= size
            && (if size <= 3 then m == Up(x, 8 * (3 - size)) else m == DownBy(x, 8 * (size - 3)) && m >= 0x8000)
  {
    hide Pow2, Bytes;
    LeadingBound(x);
    BytesBound(x);
    Small();
    var s := Bytes(x);
    var m := Leading(x, s);
    if m >= MANTISSA {
      if s <= 2 {
        Pow2Sum(8, 8 * (2 - s));
        MulAssoc(x, 0x100, Pow2(8 * (2 - s)));
        DivModIs(m, 0x100, Up(x, 8 * (2 - s)), 0);
      } else if s == 3 {
        PowNought();
      } else {
        Pow2Sum(8 * (s - 3), 8);
        DividedTwice(x, Pow2(8 * (s - 3)), 0x100);
      }
    }
  }

  lemma {:induction false} EncodeReads(x: nat)
    requires Parts(x).0 < MANTISSA && Parts(x).1 < 0x100
    ensures Encode(x) < BASE && Size(Encode(x)) == Parts(x).1 && Mantissa(Encode(x)) == Parts(x).0 && !Sign(Encode(x))
  {
    hide Parts;
    var m, size := Parts(x).0, Parts(x).1;
    DivModIs(Encode(x), 0x100_0000, size, m);
    DivModIs(Encode(x), MANTISSA, 2 * size, m);
  }

  /** Decoding an encoded number gives it back without the bytes that were cut off, and sets no flag. */
  lemma {:induction false} EncodedValue(x: nat)
    requires x < Pow2(256)
    ensures Encode(x) < BASE && Parts(x).1 <= 33
    ensures Value(Encode(x)) == Kept(x) <= x && !Negative(Encode(x)) && !Overflow(Encode(x))
  {
    hide Pow2, Bytes, Parts, Up, Floor, Value, Kept, Encode, Negative, Overflow;
    if x == 0 {
      ZeroParts(x);
      ZeroEncode(x);
      ZeroKept(x);
      ZeroValue(Encode(x));
    } else {
      PartsAre(x);
      PartsSize(x);
      EncodeReads(x);
      KeptBelow(x);
      if Parts(x).1 <= 3 { EncodedExactly(x); } else { EncodedCut(x); }
      OverflowIff(Encode(x));
      NotNegative(Encode(x));
    }
  }

  lemma {:induction false} NotNegative(n: Word32)
    requires !Sign(n)
    ensures !Negative(n)
  {
  }

  /**
   * The sign bit: of two words that differ in bit 23 alone both stand for the same number and overflow alike, and the
   * one with the bit is negative if and only if the number is not zero, the other one never.
   */
  lemma {:induction false} SignedPair(n: Word32)
    requires (n / MANTISSA) % 2 == 0
    ensures n + MANTISSA < BASE && (n + MANTISSA) % MANTISSA == n % MANTISSA && (n + MANTISSA) / 0x100_0000 == n / 0x100_0000
    ensures Value(n + MANTISSA) == Value(n) && (Overflow(n + MANTISSA) <==> Overflow(n))
    ensures !Negative(n) && (Negative(n + MANTISSA) <==> Value(n) != 0)
  {
    hide Pow2, Floor, Up;
    var q, m := n / MANTISSA, n % MANTISSA;
    BitAdded(n, q, m);
    assert Word(n + MANTISSA) == Word(n);
    WordIsNought(n);
  }

  lemma {:induction false} BitAdded(n: Word32, q: nat, m: nat)
    requires q == n / MANTISSA && m == n % MANTISSA && q % 2 == 0
    ensures n + MANTISSA < BASE && (n + MANTISSA) / MANTISSA == q + 1 && (n + MANTISSA) % MANTISSA == m
    ensures n / 0x100_0000 == q / 2 && (n + MANTISSA) / 0x100_0000 == q / 2
  {
    assert n == q * MANTISSA + m && q == 2 * (q / 2) && q < 0x200;
    DivModIs(n + MANTISSA, MANTISSA, q + 1, m);
    DivModIs(n, 0x100_0000, q / 2, m);
    DivModIs(n + MANTISSA, 0x100_0000, q / 2, MANTISSA + m);
  }

  lemma {:induction false} WordIsNought(n: Word32)
    ensures Word(n) == 0 <==> Value(n) == 0
  {
    hide Pow2, Floor;
    if Size(n) > 3 {
      var p := Pow2(8 * (Size(n) - 3));
      if Mantissa(n) > 0 { MulLe(1, Mantissa(n), p); }
    }
  }

  /** A number encoded as negative decodes as negative, with the same value, if and only if something of it is kept. */
  lemma {:induction false} NegativeEncoded(x: nat)
    requires x < Pow2(256)
    ensures var n := Encode(x) + if Parts(x).0 != 0 then MANTISSA else 0;
            && n < BASE && Value(n) == Kept(x) && !Overflow(n)
            && (Negative(n) <==> Kept(x) != 0) && (Kept(x) != 0 <==> x != 0)
  {
    hide Pow2, Parts, Value, Kept, Negative, Overflow;
    EncodedValue(x);
    if x == 0 {
      ZeroParts(x);
    } else {
      hide Encode;
      PartsSize(x);
      PartsAre(x);
      EncodeReads(x);
      RelativeError(x);
      SignedPair(Encode(x));
    }
  }

  lemma {:induction false} ShiftedBack(x: nat, bits: nat)
    ensures Floor(Up(x, bits), Pow2(bits)) == x
  {
    hide Pow2;
    DivModIs(x * Pow2(bits), Pow2(bits), x, 0);
  }

  lemma {:induction false} EncodedExactly(x: nat)
    requires 0 < x && Parts(x).1 <= 3
    requires Encode(x) < BASE && Size(Encode(x)) == Parts(x).1 && Mantissa(Encode(x)) == Parts(x).0
    ensures Value(Encode(x)) == Kept(x) == x
  {
    hide Pow2, Parts, Up, Floor, Encode;
    PartsAre(x);
    ShiftedBack(x, 8 * (3 - Parts(x).1));
    KeptAll(x, 0);
  }

  lemma {:induction false} KeptAll(x: nat, k: nat)
    requires k == 0
    ensures Up(DownBy(x, 8 * k), 8 * k) == x
  {
    hide Pow2;
    assert Pow2(8 * k) == 1 by { PowNought(); }
    DivModIs(x, 1, x, 0);
  }

  lemma {:induction false} EncodedCut(x: nat)
    requires 0 < x && Parts(x).1 > 3
    requires Encode(x) < BASE && Size(Encode(x)) == Parts(x).1 && Mantissa(Encode(x)) == Parts(x).0
    ensures Value(Encode(x)) == Kept(x)
  {
    hide Pow2, Parts, Up, DownBy, Encode;
    PartsAre(x);
  }

  lemma {:induction false} UpZero(bits: nat)
    ensures Up(0, bits) == 0
  {
  }

  lemma {:induction false} ZeroParts(x: nat)
    requires x == 0
    ensures Parts(x) == (0, 0)
  {
    hide Pow2, Up, DownBy;
    UpZero(8 * (3 - Bytes(x)));
  }

  lemma {:induction false} ZeroValue(n: Word32)
    requires n == 0
    ensures Value(n) == 0 && !Negative(n) && !Overflow(n)
  {
    hide Word, Up;
    WordOfZero(n);
  }

  lemma {:induction false} ZeroKept(x: nat)
    requires x == 0 && Parts(x) == (0, 0)
    ensures Kept(x) == 0
  {
    hide Pow2, Up, Parts, Floor;
    UpZero(8 * Cut(x));
  }

  lemma {:induction false} ZeroEncode(x: nat)
    requires Parts(x) == (0, 0)
    ensures Encode(x) == 0
  {
    hide Parts;
  }

  lemma {:induction false} WordOfZero(n: Word32)
    requires n == 0
    ensures Word(n) == 0 && Size(n) == 0
  {
    hide Pow2, Floor;
  }

  lemma {:induction false} PartsSize(x: nat)
    requires 0 < x < Pow2(256)
    ensures Parts(x).1 <= 33
  {
    hide Pow2;
    BytesBound(x);
    if Bytes(x) > 32 { Pow2Grows(256, 8 * (Bytes(x) - 1)); }
  }

  lemma {:induction false} KeptBelow(x: nat)
    ensures Kept(x) <= x < Kept(x) + Pow2(8 * Cut(x))
  {
    hide Pow2, Cut;
    DivMod(x, Pow2(8 * Cut(x)));
  }

  // ----- how good the encoding is -----

  /** A multiple of p not above x is not above the greatest such multiple. */
  lemma {:induction false} MultipleBelow(a: nat, x: nat, p: nat)
    requires p >= 1 && a * p <= x
    ensures a <= x / p && a * p <= (x / p) * p
  {
    DivMod(x, p);
    if a > x / p { MulLe(x / p + 1, a, p); Distribute(x / p, 1, p); }
    MulLe(a, x / p, p);
  }

  /** Every compact form stands for a 23-bit word times a power of 256. */
  function Exponent(n: Word32): nat {
    if Size(n) <= 3 then 0 else Size(n) - 3
  }

  lemma {:induction false} ValueIs(n: Word32)
    ensures Value(n) == Word(n) * Pow2(8 * Exponent(n)) && Word(n) < MANTISSA
  {
    hide Pow2, Floor;
    WordFits(n);
    PowNought();
  }

  lemma {:induction false} CutMantissa(x: nat)
    requires Cut(x) > 0
    ensures x > 0 && DownBy(x, 8 * Cut(x)) >= 0x8000
  {
    hide Pow2, Parts, Floor;
    if x == 0 { ZeroParts(x); }
    PartsAre(x);
  }

  /** What is encoded is the greatest number with a compact form that is not above x. */
  lemma {:induction false} GreatestBelow(x: nat, n: Word32)
    requires Value(n) <= x
    ensures Value(n) <= Kept(x)
  {
    hide Pow2, Parts, Value, Word, Cut;
    var w, k, e := Word(n), Exponent(n), Cut(x);
    ValueIs(n);
    var p := Pow2(8 * e);
    if k >= e {
      Pow2Sum(8 * (k - e), 8 * e);
      MulAssoc(w, Pow2(8 * (k - e)), p);
      MultipleBelow(w * Pow2(8 * (k - e)), x, p);
    } else {
      CutMantissa(x);
      var m := DownBy(x, 8 * e);
      Small();
      Pow2Sum(23, 8 * k);
      Fifteen();
      Pow2Sum(15, 8 * e);
      Pow2Grows(23 + 8 * k, 15 + 8 * e);
      MulLe(w, MANTISSA, Pow2(8 * k));
      MulLe(0x8000, m, p);
    }
  }

  /** Rounding to compact form respects the order. */
  lemma {:induction false} KeptIsMonotone(x: nat, y: nat)
    requires x <= y && x < Pow2(256)
    ensures Kept(x) <= Kept(y)
  {
    hide Pow2, Kept, Value;
    EncodedValue(x);
    GreatestBelow(y, Encode(x));
  }

  lemma {:induction false} Fifteen()
    ensures Pow2(15) == 0x8000
  {
    hide Pow2;
    Small();
    Pow2Next(15);
  }

  /** What is cut off is less than one part in 2^15. */
  lemma {:induction false} RelativeError(x: nat)
    requires x > 0
    ensures (x - Kept(x)) * 0x8000 < x
  {
    hide Pow2, Parts;
    KeptBelow(x);
    var p := Pow2(8 * Cut(x));
    if Cut(x) == 0 {
      PowNought();
    } else {
      CutMantissa(x);
      MulLe(0x8000, DownBy(x, 8 * Cut(x)), p);
    }
  }

  lemma {:induction false} KeptBytes(x: nat)
    requires Cut(x) > 0
    ensures Bytes(Kept(x)) == Bytes(x) && Bytes(x) >= Cut(x) + 2
  {
    hide Pow2, Bytes, Leading, Floor;
    CutMantissa(x);
    BytesBound(x);
    KeptBelow(x);
    var s, e := Bytes(x), Cut(x);
    Pow2Sum(8 * (s - 1 - e), 8 * e);
    MultipleKept(x, Pow2(8 * (s - 1 - e)), e);
    BytesUnique(Kept(x), s);
  }

  lemma {:induction false} MultipleKept(x: nat, a: nat, e: nat)
    requires e == Cut(x) && a * Pow2(8 * e) <= x
    ensures a * Pow2(8 * e) <= Kept(x)
  {
    hide Pow2, Cut;
    MultipleBelow(a, x, Pow2(8 * e));
  }

  /** Encoding what was kept gives the same compact form again. */
  lemma {:induction false} EncodeAgain(x: nat)
    ensures Encode(Kept(x)) == Encode(x)
  {
    hide Parts, Pow2, Floor, Up;
    if Cut(x) == 0 {
      KeptAll(x, Cut(x));
    } else {
      CutMantissa(x);
      KeptParts(x);
    }
  }

  lemma {:induction false} KeptParts(x: nat)
    requires x > 0 && Cut(x) > 0
    ensures Parts(Kept(x)) == Parts(x)
  {
    hide Pow2, Bytes, Floor, Up;
    KeptBytes(x);
    CutMantissa(x);
    var s, e, y := Bytes(x), Cut(x), Kept(x);
    var m := DownBy(x, 8 * e);
    PartsAre(x);
    LeadingBound(x);
    Small();
    if e == s - 3 {
      ShiftedBack(m, 8 * e);
    } else {
      LeadingOfKept(y, m, s);
      DivModIs(m * 0x100, 0x100, m, 0);
    }
  }

  lemma {:induction false} LeadingOfKept(y: nat, m: nat, s: nat)
    requires s >= 3 && y == Up(m, 8 * (s - 2))
    ensures Leading(y, s) == m * 0x100
  {
    hide Pow2;
    Small();
    Pow2Sum(8, 8 * (s - 3));
    MulAssoc(m, 0x100, Pow2(8 * (s - 3)));
    if s == 3 {
      PowNought();
    } else {
      ShiftedBack(m * 0x100, 8 * (s - 3));
    }
  }

  // ----- work -----

  /** The expected number of hashes for a target. */
  function Work(t: nat): nat {
    Floor(Pow2(256), t + 1)
  }

  /** The quotient that can be computed without 2^256. */
  lemma {:induction false} WorkIs(t: nat)
    requires t + 1 <= Pow2(256)
    ensures Floor(Pow2(256) - 1 - t, t + 1) + 1 == Work(t)
  {
    hide Pow2;
    var m, d := Pow2(256), t + 1;
    var q := (m - d) / d;
    DivMod(m - d, d);
    Distribute(q, 1, d);
    DivModIs(m, d, q + 1, (m - d) % d);
  }

  /** An accepted target leaves room for adding one. */
  lemma {:induction false} TargetFits(n: Word32)
    requires !Overflow(n)
    ensures Value(n) + 1 < Pow2(256)
  {
    hide Pow2, Value, Word;
    OverflowIff(n);
    ValueIs(n);
    var k := Exponent(n);
    if k == 0 {
      PowNought();
      Small();
      Pow2Next(23);
      Pow2Grows(24, 256);
    } else {
      EvenPower(Word(n), 8 * k);
      EvenPower(1, 256);
    }
  }

  lemma {:induction false} EvenPower(w: nat, k: nat)
    requires k > 0
    ensures (w * Pow2(k)) % 2 == 0
  {
    MulAssoc(w, 2, Pow2(k - 1));
    DivModIs(w * Pow2(k), 2, w * Pow2(k - 1), 0);
  }

  /** A higher target means no more work. */
  lemma {:induction false} WorkIsAntitone(t: nat, u: nat)
    requires t <= u
    ensures Work(u) <= Work(t)
  {
    hide Pow2;
    var m := Pow2(256);
    var q := Work(u);
    DivMod(m, u + 1);
    MulLe(t + 1, u + 1, q);
    MultipleBelow(q, m, t + 1);
  }
}
