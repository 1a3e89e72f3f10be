/** Comparison, bit length and shift-subtract division of limb arrays. */
module ArithDivide {
  import opened Arithmetic
  import opened ArithValue
  import opened ArithLimbs
  import opened ArithShift

  // ----- comparing -----

  lemma {:induction false} LessAt(a: seq<Limb>, b: seq<Limb>, i: nat)
    requires |a| == |b| && i < |a| && a[i] < b[i] && a[i + 1..] == b[i + 1..]
    ensures Val(a) < Val(b)
  {
    hide Val, Pow;
    ValSplit(a, i + 1);
    ValSplit(b, i + 1);
    ValNext(a, i);
    ValNext(b, i);
    ValBound(a[..i]);
    MulLe(a[i] + 1, b[i], Pow(i));
    Distribute(a[i], 1, Pow(i));
  }

  /** -1, 0 or 1, as the number is less than, equal to or greater than b. */
  method CompareTo(pn: array<Limb>, b: array<Limb>) returns (r: int)
    requires pn.Length == b.Length == WIDTH
    ensures r == if Val(pn[..]) < Val(b[..]) then -1 else if Val(pn[..]) > Val(b[..]) then 1 else 0
  {
    hide Val;
    var i := WIDTH;
    while i > 0
      invariant 0 <= i <= WIDTH && pn[i..] == b[i..]
    {
      i := i - 1;
      assert pn[..][i + 1..] == pn[i + 1..] && b[..][i + 1..] == b[i + 1..];
      if pn[i] < b[i] { LessAt(pn[..], b[..], i); return -1; }
      if pn[i] > b[i] { LessAt(b[..], pn[..], i); return 1; }
      assert pn[i..] == [pn[i]] + pn[i + 1..] && b[i..] == [b[i]] + b[i + 1..];
    }
    assert pn[..] == b[..];
    r := 0;
  }

  // ----- bit length -----

  /** The position of the highest bit set plus one, or zero. */
  predicate IsBits(v: nat, r: nat) {
    if r == 0 then v == 0 else Pow2(r - 1) <= v < Pow2(r)
  }

  lemma {:induction false} Pow2Grows(i: nat, j: nat)
    ensures i <= j <==> Pow2(i) <= Pow2(j)
  {
    if i <= j { Pow2Up(i, j); } else { Pow2Up(j + 1, i); }
  }

  lemma {:induction false} Pow2Up(i: nat, j: nat)
    requires i <= j
    ensures Pow2(i) <= Pow2(j)
    decreases j - i
  {
    if i < j { Pow2Up(i, j - 1); }
  }

  /** The highest limb that is not zero decides. */
  lemma {:induction false} TopLimb(s: seq<Limb>, pos: nat, t: nat)
    requires pos < |s| && (forall k | pos < k < |s| :: s[k] == 0) && Pow2(t) <= s[pos] < Pow2(t + 1)
    ensures IsBits(Val(s), 32 * pos + t + 1)
  {
    hide Val, Pow, Pow2;
    ValSplit(s, pos + 1);
    ValZero(s[pos + 1..]);
    ValNext(s, pos);
    ValBound(s[..pos]);
    var p := Pow(pos);
    MulLe(Pow2(t), s[pos], p);
    var top: int := s[pos];
    MulLe(top + 1, Pow2(t + 1), p);
    Distribute(s[pos], 1, p);
    PowIsPow2(pos);
    Pow2Sum(t, 32 * pos);
    Pow2Sum(t + 1, 32 * pos);
  }

  /** Testing bit n of a number below 2^(n+1). */
  lemma {:induction false} TopBit(x: nat, n: nat)
    requires x < Pow2(n + 1)
    ensures (x / Pow2(n)) % 2 == 1 <==> x >= Pow2(n)
  {
    var p := Pow2(n);
    if x >= p { DivModIs(x, p, 1, x - p); } else { DivModIs(x, p, 0, x); }
  }

  method Bits(pn: array<Limb>) returns (r: nat)
    requires pn.Length == WIDTH
    ensures IsBits(Val(pn[..]), r)
  {
    hide Val, Pow2;
    var pos := WIDTH;
    while pos > 0
      invariant 0 <= pos <= WIDTH && forall k | pos <= k < WIDTH :: pn[k] == 0
    {
      pos := pos - 1;
      if pn[pos] != 0 {
        var nbits := TopOf(pn[pos]);
        TopLimb(pn[..], pos, nbits);
        return 32 * pos + nbits + 1;
      }
    }
    ValZero(pn[..]);
    r := 0;
  }

  /** The highest bit of a limb, found by testing from the top. */
  method TopOf(x: Limb) returns (nbits: nat)
    requires x != 0
    ensures nbits < 32 && Pow2(nbits) <= x < Pow2(nbits + 1)
  {
    hide Pow2;
    Pow32();
    nbits := 31;
    while nbits > 0
      invariant nbits < 32 && x < Pow2(nbits + 1)
    {
      TopBit(x, nbits);
      if (x / Pow2(nbits)) % 2 == 1 { return; }
      nbits := nbits - 1;
    }
    PowNought();
  }

  // ----- dividing -----

  lemma {:induction false} LimbDivisible(s: seq<Limb>, j: nat, t: nat)
    requires j < |s| && t < 32 && Val(s) % Pow2(32 * j + t + 1) == 0
    ensures s[j] % Pow2(t + 1) == 0
  {
    hide Val, Pow, Pow2;
    var p, pj, rest := Pow2(t + 1), Pow(j), Val(s[j..]);
    var q := Val(s) / Pow2(32 * j + t + 1);
    DivMod(Val(s), Pow2(32 * j + t + 1));
    PowIsPow2(j);
    Pow2Sum(t + 1, 32 * j);
    MulAssoc(q, p, pj);
    ValSplit(s, j);
    ValBound(s[..j]);
    DivModIs(Val(s), pj, q * p, 0);
    DivModIs(Val(s), pj, rest, Val(s[..j]));
    FirstLimb(s[j..]);
    var b := Pow2(32 - (t + 1));
    Pow2Sum(t + 1, 32 - (t + 1));
    Pow32();
    Divisible(s[j], rest, Val(s[j..][1..]), q, p, b);
  }

  lemma {:induction false} FirstLimb(s: seq<Limb>)
    requires s != []
    ensures Val(s) == s[0] + Val(s[1..]) * BASE
  {
    ValSplit(s, 1);
    assert s[..1] == [s[0]];
    assert Val([s[0]]) == s[0] by { assert [s[0]][..0] == []; }
    PowOne();
  }

  lemma {:induction false} Divisible(x: nat, rest: nat, high: nat, q: nat, p: nat, b: nat)
    requires p >= 1 && b >= 1 && p * b == BASE && rest == q * p && rest == x + high * BASE
    ensures x % p == 0
  {
    MulAssoc(high, p, b);
    Distribute(q, 0 - high * b, p);
    var d := q - high * b;
    assert x == d * p;
    if d < 0 { MulLe(d, -1, p); }
    DivModIs(x, p, d, 0);
  }

  /** Setting a bit below all bits that are set adds it. */
  lemma {:induction false} SetBitValue(s: seq<Limb>, shift: nat)
    requires |s| == WIDTH && shift < 256 && Val(s) % Pow2(shift + 1) == 0
    ensures Pow2(shift % 32) < BASE
    ensures Val(s[shift / 32 := OrLimb(s[shift / 32], Pow2(shift % 32))]) == Val(s) + Pow2(shift)
  {
    hide Val, Pow, Pow2, OrLimb;
    var j, t := shift / 32, shift % 32;
    assert 32 * j + t + 1 == shift + 1;
    LimbDivisible(s, j, t);
    Pow2Next(t);
    Pow32();
    Pow2Grows(t + 1, 32);
    OrLimbs(Pow2(t), s[j], t + 1);
    ValUpdate(s, j, s[j] + Pow2(t));
    PowIsPow2(j);
    Pow2Sum(t, 32 * j);
  }

  lemma {:induction false} Pow2Next(t: nat)
    ensures Pow2(t) < Pow2(t + 1) && Pow2(t + 1) == 2 * Pow2(t)
  {
  }

  method Copy(a: array<Limb>) returns (r: array<Limb>)
    requires a.Length == WIDTH
    ensures fresh(r) && r.Length == WIDTH && r[..] == a[..]
  {
    r := new Limb[WIDTH](i requires 0 <= i < WIDTH reads a => a[i]);
  }

  /** The state of the division before bit number shift is decided. */
  ghost predicate Dividing(q: nat, num: nat, div: nat, num0: nat, d0: nat, shift: int) {
    && num0 == q * d0 + num
    && if shift < 0 then num < d0 else div == d0 * Pow2(shift) && num < 2 * div && q % Pow2(shift + 1) == 0
  }

  lemma {:induction false} DivideStart(num: nat, d: nat, nb: nat, db: nat)
    requires IsBits(num, nb) && IsBits(d, db) && 0 < db <= nb && num < Pow(WIDTH)
    ensures nb <= 256 && d * Pow2(nb - db) < Pow(WIDTH) && Dividing(0, num, d * Pow2(nb - db), num, d, nb - db)
  {
    hide Pow2, Pow;
    var s := nb - db;
    PowIsPow2(WIDTH);
    if nb > 256 { Pow2Grows(256, nb - 1); }
    Pow2Grows(nb, 256);
    Pow2Sum(db, s);
    Pow2Sum(db - 1, s);
    Pow2Next(nb - 1);
    MulLe(d + 1, Pow2(db), Pow2(s));
    Distribute(d, 1, Pow2(s));
    MulLe(Pow2(db - 1), d, Pow2(s));
    DivModIs(0, Pow2(s + 1), 0, 0);
  }

  /** Deciding one bit. */
  lemma {:induction false} DivideStep(q: nat, num: nat, div: nat, num0: nat, d0: nat, shift: nat)
    requires Dividing(q, num, div, num0, d0, shift)
    ensures var take := num >= div;
            var q', num' := if take then q + Pow2(shift) else q, if take then num - div else num;
            Dividing(q', num', div / 2, num0, d0, shift - 1)
  {
    hide Pow2;
    var p := Pow2(shift);
    Distribute(q, p, d0);
    Pow2Next(shift);
    EvenQuotient(q, p);
    if shift > 0 {
      Pow2Next(shift - 1);
      MulAssoc(d0, 2, Pow2(shift - 1));
      DivModIs(div, 2, d0 * Pow2(shift - 1), 0);
    } else {
      PowNought();
    }
  }

  lemma {:induction false} EvenQuotient(q: nat, p: nat)
    requires p >= 1 && q % (2 * p) == 0
    ensures q % p == 0 && (q + p) % p == 0
  {
    var k := q / (2 * p);
    DivMod(q, 2 * p);
    MulAssoc(k, 2, p);
    DivModIs(q, p, k * 2, 0);
    Distribute(k * 2, 1, p);
    DivModIs(q + p, p, k * 2 + 1, 0);
  }

  /** pn /= b: the floor of the quotient, or false for a division by zero. */
  method Divide(pn: array<Limb>, b: array<Limb>) returns (ok: bool)
    requires pn.Length == b.Length == WIDTH
    modifies pn
    ensures ok <==> old(Val(b[..])) != 0
    ensures ok ==> Val(pn[..]) == old(Val(pn[..])) / old(Val(b[..]))
  {
    hide Val, Pow2, Pow, Dividing;
    ghost var num0, d0 := Val(pn[..]), Val(b[..]);
    ValBound(pn[..]);
    var div := Copy(b);
    var num := Copy(pn);
    Clear(pn);
    var numBits := Bits(num);
    var divBits := Bits(div);
    if divBits == 0 { return false; }
    BitsPositive(d0, divBits);
    if divBits > numBits {
      FewerBits(num0, d0, numBits, divBits);
      return true;
    }
    var shift: int := numBits - divBits;
    DivideStart(num0, d0, numBits, divBits);
    ShiftLeft(div, shift);
    DivModIs(d0 * Pow2(shift), Pow(WIDTH), 0, d0 * Pow2(shift));
    while shift >= 0
      invariant -1 <= shift < 256
      invariant Dividing(Val(pn[..]), Val(num[..]), Val(div[..]), num0, d0, shift)
    {
      DivideStep(Val(pn[..]), Val(num[..]), Val(div[..]), num0, d0, shift);
      LowBits(Val(pn[..]), Val(num[..]), Val(div[..]), num0, d0, shift);
      var cmp := CompareTo(num, div);
      if cmp >= 0 {
        Subtract(num, div);
        SetBitValue(pn[..], shift);
        ghost var was := pn[..];
        pn[shift / 32] := OrLimb(pn[shift / 32], Pow2(shift % 32));
        assert pn[..] == was[shift / 32 := OrLimb(was[shift / 32], Pow2(shift % 32))];
      }
      ShiftRight(div, 1);
      TwoIs();
      shift := shift - 1;
    }
    Quotient(Val(pn[..]), Val(num[..]), Val(div[..]), num0, d0);
    ok := true;
  }

  lemma {:induction false} TwoIs()
    ensures Pow2(1) == 2
  {
  }

  lemma {:induction false} BitsPositive(v: nat, r: nat)
    requires IsBits(v, r) && r > 0
    ensures v > 0
  {
  }

  lemma {:induction false} LowBits(q: nat, num: nat, div: nat, num0: nat, d0: nat, shift: nat)
    requires Dividing(q, num, div, num0, d0, shift)
    ensures q % Pow2(shift + 1) == 0
  {
  }

  lemma {:induction false} FewerBits(num: nat, d: nat, nb: nat, db: nat)
    requires IsBits(num, nb) && IsBits(d, db) && nb < db
    ensures num / d == 0
  {
    hide Pow2;
    Pow2Grows(nb, db - 1);
    if nb == 0 { BitsPositive(d, db); }
    DivModIs(num, d, 0, num);
  }

  lemma {:induction false} Quotient(q: nat, num: nat, div: nat, num0: nat, d0: nat)
    requires Dividing(q, num, div, num0, d0, -1)
    ensures num0 / d0 == q
  {
    DivModIs(num0, d0, q, num);
  }
}
