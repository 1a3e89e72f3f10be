/** Compact targets and block work computed on limb arrays. */
module ArithTarget {
  import opened Arithmetic
  import opened ArithValue
  import opened ArithLimbs
  import opened ArithShift
  import opened ArithDivide
  import opened ArithCompact

  lemma {:induction false} Width256()
    ensures Pow(WIDTH) == Pow2(256)
  {
    hide Pow, Pow2;
    PowIsPow2(WIDTH);
  }

  /** A number of one limb. */
  method FromWord(word: Limb) returns (pn: array<Limb>)
    ensures fresh(pn) && pn.Length == WIDTH && Val(pn[..]) == word
  {
    pn := new Limb[WIDTH](_ => 0);
    Clear(pn);
    ghost var zero := pn[..];
    pn[0] := word;
    assert pn[..] == zero[0 := word];
    ValUpdate(zero, 0, word);
    PowZero();
  }

  /** One times one in place: the product is zero. */
  method OneSquaredInPlace() returns (one: seq<Limb>, product: seq<Limb>)
    ensures |one| == |product| == WIDTH && Val(one) == 1 && Val(product) == 0
  {
    var pn := FromWord(1);
    one := pn[..];
    Multiply(pn, pn);
    product := pn[..];
  }

  method SetCompact(n: Word32) returns (pn: array<Limb>, negative: bool, overflow: bool)
    ensures fresh(pn) && pn.Length == WIDTH
    ensures Val(pn[..]) == Value(n) % Pow2(256) && negative == Negative(n) && overflow == Overflow(n)
    ensures !overflow ==> Val(pn[..]) == Value(n)
  {
    hide Val, Pow, Pow2, Floor, Up;
    var size := n / 0x100_0000;
    var word: nat := n % MANTISSA;
    Width256();
    Small();
    Pow2Grows(23, 256);
    if size <= 3 {
      word := Floor(word, Pow2(8 * (3 - size)));
      WordFits(n);
      pn := FromWord(word);
      DivModIs(word, Pow2(256), 0, word);
    } else {
      pn := FromWord(word);
      ShiftLeft(pn, 8 * (size - 3));
      UpIs(word, 8 * (size - 3));
    }
    negative := word != 0 && (n / MANTISSA) % 2 == 1;
    overflow := word != 0 && (size > 34 || (word > 0xff && size > 33) || (word > 0xffff && size > 32));
    OverflowIff(n);
    if !overflow { DivModIs(Value(n), Pow2(256), 0, Value(n)); }
  }

  lemma {:induction false} UpIs(x: nat, bits: nat)
    ensures Up(x, bits) == x * Pow2(bits)
  {
  }

  /** The low 64 bits. */
  method GetLow64(pn: array<Limb>) returns (r: nat)
    requires pn.Length == WIDTH
    ensures r == Val(pn[..]) % TWO64
  {
    hide Val;
    r := pn[0] + BASE * pn[1];
    LowTwo(pn[..]);
  }

  lemma {:induction false} LowTwo(s: seq<Limb>)
    requires |s| == WIDTH
    ensures Val(s) % TWO64 == s[0] + BASE * s[1]
  {
    hide Val;
    ValSplit(s, 2);
    ValNext(s, 0);
    ValNext(s, 1);
    Nothing(s, s);
    PowZero();
    PowOne();
    assert Pow(2) == TWO64;
    var high := Val(s[2..]);
    DivModIs(Val(s), TWO64, high, s[0] + BASE * s[1]);
  }

  method GetCompact(pn: array<Limb>, negative: bool) returns (r: nat)
    requires pn.Length == WIDTH
    ensures r == Encode(Val(pn[..])) + if negative && Parts(Val(pn[..])).0 != 0 then MANTISSA else 0
    ensures r < BASE
  {
    hide Val, Pow, Pow2, Parts, Leading, IsBits, BitLength, Encode;
    ghost var x := Val(pn[..]);
    ValBound(pn[..]);
    Width256();
    var bits := Bits(pn);
    BitsUnique(x, bits);
    var size := (bits + 7) / 8;
    var compact := LeadingBytes(pn, size);
    LeadingFits(x);
    SignBit(compact);
    if (compact / MANTISSA) % 2 == 1 {
      compact := compact / 0x100;
      size := size + 1;
    }
    PartsFollow(x);
    EncodedValue(x);
    assert compact < MANTISSA;
    assert size < 256;
    EncodedFits(compact, size);
    EncodeIs(x);
    r := compact + size * 0x100_0000;
    if negative && compact != 0 {
      r := r + MANTISSA;
    }
  }

  /** The three leading bytes, through the low 64 bits of the number or of a shifted copy. */
  method LeadingBytes(pn: array<Limb>, size: nat) returns (compact: nat)
    requires pn.Length == WIDTH && size == Bytes(Val(pn[..]))
    ensures compact == Leading(Val(pn[..]), size)
  {
    hide Val, Pow, Pow2, Up, Floor, Bytes;
    ghost var x := Val(pn[..]);
    LeadingFits(x);
    if size <= 3 {
      var low := GetLow64(pn);
      ShortIsLow(x);
      compact := Up(low, 8 * (3 - size)) % BASE;
      DivModIs(Up(low, 8 * (3 - size)), BASE, 0, Up(low, 8 * (3 - size)));
    } else {
      var bn := Copy(pn);
      ShiftRight(bn, 8 * (size - 3));
      DownIs(x, 8 * (size - 3));
      compact := GetLow64(bn);
      compact := compact % BASE;
      DivModIs(Val(bn[..]), BASE, 0, Val(bn[..]));
    }
  }

  lemma {:induction false} EncodeIs(x: nat)
    ensures Encode(x) == Parts(x).0 + Parts(x).1 * 0x100_0000
  {
    hide Parts;
  }

  lemma {:induction false} DownIs(x: nat, bits: nat)
    ensures DownBy(x, bits) == x / Pow2(bits)
  {
  }

  lemma {:induction false} SignBit(c: nat)
    requires c < 0x100_0000
    ensures (c / MANTISSA) % 2 == 1 <==> c >= MANTISSA
  {
  }

  lemma {:induction false} LeadingFits(x: nat)
    ensures Leading(x, Bytes(x)) < 0x100_0000
  {
    hide Pow2, Up, DownBy;
    Small();
    if x == 0 { UpZero(8 * (3 - Bytes(x))); } else { LeadingBound(x); }
  }

  lemma {:induction false} ShortIsLow(x: nat)
    requires Bytes(x) <= 3
    ensures x < TWO64
  {
    hide Pow2, Bytes;
    if x > 0 {
      BytesBound(x);
      Pow2Grows(8 * Bytes(x), 24);
      Small();
    }
  }

  lemma {:induction false} PartsFollow(x: nat)
    ensures var size := Bytes(x);
            var m := Leading(x, size);
            Parts(x) == if m >= MANTISSA then (m / 0x100, size + 1) else (m, size)
    ensures Parts(x).0 < MANTISSA
  {
    hide Pow2, Leading, Bytes;
    LeadingFits(x);
  }

  lemma {:induction false} EncodedFits(m: nat, size: nat)
    requires m < MANTISSA && size < 256
    ensures m + size * 0x100_0000 + MANTISSA < BASE
  {
  }

  /** The work of a block, from its compact target. */
  method GetBlockProof(n: Word32) returns (r: array<Limb>)
    ensures fresh(r) && r.Length == WIDTH
    ensures Val(r[..]) == if Negative(n) || Overflow(n) || Value(n) == 0 then 0 else Work(Value(n))
  {
    hide Val, Pow, Pow2, Value, Floor, Negative, Overflow;
    var target, negative, overflow := SetCompact(n);
    var zero := FromWord(0);
    var cmp := CompareTo(target, zero);
    if negative || overflow || cmp == 0 { return zero; }
    Width256();
    TargetFits(n);
    WorkIs(Value(n));
    ghost var t := Value(n);
    r := Complement(target);
    var one := FromWord(1);
    Add(target, one);
    DivModIs(t + 1, Pow2(256), 0, t + 1);
    FloorIs(Pow2(256) - 1 - t, t + 1);
    var ok := Divide(r, target);
    assert ok;
    Add(r, one);
    WorkFits(t);
    DivModIs(Work(t), Pow2(256), 0, Work(t));
  }

  lemma {:induction false} FloorIs(x: nat, p: nat)
    requires p >= 1
    ensures Floor(x, p) == x / p
  {
  }

  lemma {:induction false} WorkFits(t: nat)
    requires t > 0
    ensures Work(t) < Pow2(256)
  {
    hide Pow2;
    var m := Pow2(256);
    DivMod(m, t + 1);
    MulLe(2, t + 1, m / (t + 1));
  }
}
