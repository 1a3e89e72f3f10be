/** The in-place radix conversions of Base58. */
module Base58Code {
  import opened Arithmetic
  import opened Wrappers
  import opened Radix
  import opened B = Base58

  /** What stands in the buffer so far, and the carry, make up the product of the digits so far. */
  ghost predicate Carried(front: seq<nat>, x: seq<nat>, base: nat, mult: nat, add: nat, carry: nat) {
    |front| <= |x| && Number(front, base) + carry * Pow(base, |front|) == Number(x[..|front|], base) * mult + add
  }

  /** The carry and a digit of the buffer, multiplied. */
  function Sum(carry: nat, mult: nat, digit: nat): nat {
    carry + mult * digit
  }

  function Over(n: nat, base: nat): nat
    requires base >= 2
  {
    if n == 0 then 0 else DivLess(n, base); n / base
  }

  function Keep(n: nat, base: nat): (r: nat)
    requires base >= 2
    ensures r < base
  {
    n % base
  }

  /** One step of either loop: one digit of the buffer and the carry. */
  lemma {:induction false} CarryStep(front: seq<nat>, x: seq<nat>, base: nat, mult: nat, add: nat, carry: nat)
    requires base >= 2 && |front| < |x| && Carried(front, x, base, mult, add, carry)
    ensures var n := Sum(carry, mult, x[|front|]); Carried(front + [Keep(n, base)], x, base, mult, add, Over(n, base))
  {
    hide Number, Pow, Over, Keep;
    var i, n := |front|, Sum(carry, mult, x[|front|]);
    NumberNext(x, base, i);
    var q, kept := Over(n, base), Keep(n, base);
    OverAndKeep(n, base);
    NumberNext(front + [kept], base, i);
    assert (front + [kept])[..i] == front && (front + [kept])[..i + 1] == front + [kept];
    PowNext(base, i);
    CarryAlgebra(Number(front, base), Number(x[..i], base), mult, add, carry, x[i], Pow(base, i), q, kept, base, n);
  }

  lemma {:induction false} OverAndKeep(n: nat, base: nat)
    requires base >= 2
    ensures n == Over(n, base) * base + Keep(n, base)
  {
    if n > 0 { DivLess(n, base); }
    DivMod(n, base);
  }

  lemma {:induction false} PowNext(base: nat, i: nat)
    ensures Pow(base, i + 1) == base * Pow(base, i)
  {
  }

  lemma {:induction false} CarryAlgebra(nf: int, nx: int, mult: int, add: int, carry: int, xi: int, p: nat, q: nat, kept: nat, base: nat, n: nat)
    requires nf + carry * p == nx * mult + add && n == carry + mult * xi && n == q * base + kept
    ensures nf + kept * p + q * (base * p) == (nx + xi * p) * mult + add
  {
    Regrouped(q, base, kept, p, n);
    Distribute(carry, mult * xi, p);
    Distribute(nx, xi * p, mult);
    MulAssoc(mult, xi, p);
  }

  /** A carry left at the end of the buffer would not fit. */
  lemma {:induction false} NothingLeft(front: seq<nat>, x: seq<nat>, base: nat, mult: nat, add: nat, carry: nat)
    requires Carried(front, x, base, mult, add, carry) && |front| == |x| && Number(x, base) * mult + add < Pow(base, |x|)
    ensures carry == 0
  {
    hide Number, Pow;
    assert x[..|x|] == x;
    if carry >= 1 { MulLe(1, carry, Pow(base, |x|)); }
  }

  lemma {:induction false} Finished(front: seq<nat>, y: seq<nat>, x: seq<nat>, base: nat, mult: nat, add: nat)
    requires Carried(front, x, base, mult, add, 0) && |y| == |x| && front <= y
    requires forall k | |front| <= k < |x| :: x[k] == 0 && y[k] == 0
    ensures Number(y, base) == Number(x, base) * mult + add
  {
    hide Number, Pow;
    NumberZeros(x, base, |front|);
    NumberZeros(y, base, |front|);
    assert y[..|front|] == front;
  }

  lemma {:induction false} Regrouped(q: nat, base: nat, kept: nat, p: nat, n: nat)
    requires n == q * base + kept
    ensures kept * p + q * (base * p) == n * p
  {
    MulAssoc(q, base, p);
    Distribute(q * base, kept, p);
  }

  /** buf = buf * mult + add, from the least significant digit; the carry is used up within the buffer. */
  method MultiplyAdd(buf: array<nat>, base: nat, mult: nat, add: nat, length: nat) returns (i: nat)
    requires base >= 2 && AreDigits(buf[..], base) && length <= buf.Length && forall k | length <= k < buf.Length :: buf[k] == 0
    requires Number(buf[..], base) * mult + add < Pow(base, buf.Length)
    modifies buf
    ensures AreDigits(buf[..], base) && Number(buf[..], base) == old(Number(buf[..], base)) * mult + add
    ensures i <= buf.Length && forall k | i <= k < buf.Length :: buf[k] == 0
  {
    hide Number, Pow, Carried, Sum, Over, Keep;
    ghost var x := buf[..];
    var carry := add;
    i := 0;
    Begins(x, base, mult, add);
    while (carry != 0 || i < length) && i < buf.Length
      invariant i <= buf.Length && (forall k | i <= k < buf.Length :: buf[k] == x[k]) && forall k | 0 <= k < i :: buf[k] < base
      invariant Carried(buf[..i], x, base, mult, add, carry)
      decreases buf.Length - i
    {
      var n := Sum(carry, mult, buf[i]);
      CarryStep(buf[..i], x, base, mult, add, carry);
      ghost var front := buf[..i];
      buf[i] := Keep(n, base);
      carry := Over(n, base);
      assert buf[..i + 1] == front + [Keep(n, base)];
      i := i + 1;
    }
    if i == buf.Length { NothingLeft(buf[..i], x, base, mult, add, carry); }
    assert carry == 0;
    Finished(buf[..i], buf[..], x, base, mult, add);
  }

  lemma {:induction false} Begins(x: seq<nat>, base: nat, mult: nat, add: nat)
    ensures Carried([], x, base, mult, add, add)
  {
    assert x[..0] == [];
  }

  lemma {:induction false} Empty(x: seq<nat>, base: nat)
    ensures Number([], base) == 0 && Number(x[..0], base) == 0 && Pow(base, 0) == 1
  {
  }

  /** The digits of a buffer without the zeros at its most significant end, most significant first. */
  method Trim(buf: array<nat>, base: nat, length: nat) returns (d: seq<nat>)
    requires base >= 2 && AreDigits(buf[..], base) && length <= buf.Length && forall k | length <= k < buf.Length :: buf[k] == 0
    ensures d == Expand(Number(buf[..], base), base)
  {
    hide Number, Expand, Reverse;
    var n := length;
    while n > 0 && buf[n - 1] == 0
      invariant 0 <= n <= length && forall k | n <= k < buf.Length :: buf[k] == 0
    {
      n := n - 1;
    }
    NumberZeros(buf[..], base, n);
    assert buf[..][..n] == buf[..n];
    d := [];
    ghost var all := buf[..n];
    var i := n;
    assert buf[n..n] == [] && Reverse<nat>([]) == [];
    while i > 0
      invariant i <= n && d == Reverse(buf[i..n])
    {
      i := i - 1;
      assert buf[i..n] == [buf[i]] + buf[i + 1..n];
      ReverseStep(buf[i], buf[i + 1..n]);
      d := d + [buf[i]];
    }
    assert buf[0..n] == all;
    Expanded(d, all, base);
  }

  lemma {:induction false} ReverseStep(x: nat, s: seq<nat>)
    ensures Reverse([x] + s) == Reverse(s) + [x]
  {
  }

  lemma {:induction false} Expanded(d: seq<nat>, all: seq<nat>, base: nat)
    requires base >= 2 && d == Reverse(all) && AreDigits(all, base) && (all != [] ==> all[|all| - 1] != 0)
    ensures Expand(Number(all, base), base) == d
  {
    DigitsOfNumber(all, base);
  }

  method EncodeBase58(b: seq<Byte>) returns (str: string)
    ensures str == Encode(b)
  {
    hide Number, Pow, Expand, CharsOf;
    var zeroes := 0;
    while zeroes < |b| && b[zeroes] == 0
      invariant 0 <= zeroes <= |b| && Span(b, zeroes, IsZero) == Span(b, 0, IsZero)
    {
      zeroes := zeroes + 1;
    }
    var rest: seq<nat> := b[zeroes..];
    var d := ConvertBytes(rest);
    str := Ones(zeroes) + CharsOf(d);
  }

  /** The loop over the bytes: each is added to the buffer of digits. */
  method ConvertBytes(s: seq<nat>) returns (d: seq<nat>)
    requires AreDigits(s, 256)
    ensures d == Expand(Value(s, 256), 58)
  {
    hide Number, Pow, Expand;
    var size := |s| * 138 / 100 + 1;
    var buf := new nat[size](_ => 0);
    var length := 0;
    Cleared(buf[..], 58);
    Empty(s, 256);
    assert Reverse(s[..0]) == [];
    for i := 0 to |s|
      invariant AreDigits(buf[..], 58) && 0 <= length <= size && forall k | length <= k < size :: buf[k] == 0
      invariant Number(buf[..], 58) == Value(s[..i], 256)
    {
      ReadNext(s, 256, i);
      Suffices(s[..i + 1], 256, 58, size, |s|);
      length := MultiplyAdd(buf, 58, 256, s[i], length);
    }
    assert s[..|s|] == s;
    d := Trim(buf, 58, length);
  }

  lemma {:induction false} Cleared(d: seq<nat>, base: nat)
    requires forall k | 0 <= k < |d| :: d[k] == 0
    ensures Number(d, base) == 0
  {
    NumberZeros(d, base, 0);
    assert d[..0] == [];
  }

  /** The value of digits that were read so far fits the buffer. */
  lemma {:induction false} Suffices(s: seq<nat>, base: nat, other: nat, size: nat, m: nat)
    requires (base == 256 && other == 58 && size == m * 138 / 100 + 1) || (base == 58 && other == 256 && size == m * 733 / 1000 + 1)
    requires AreDigits(s, base) && |s| <= m
    ensures Value(s, base) < Pow(other, size)
  {
    hide Number, Pow;
    NumberBound(Reverse(s), base);
    PowMonotone(base, |s|, m);
    if base == 256 { EncodeBufferSuffices(m); } else { DecodeBufferSuffices(m); }
  }

  /** The loop over the characters: every digit is added to the buffer as it is read. */
  method ReadDigits(t: string, o: nat) returns (ok: bool, p: nat, d: seq<nat>)
    requires o <= |t|
    ensures p == Span(t, o, IsText) || !ok
    ensures ok <==> AllDigits(t[o..Span(t, o, IsText)])
    ensures ok ==> d == Expand(Value(DigitsOf(t[o..Span(t, o, IsText)]), 58), 256)
  {
    hide Number, Pow, Expand, DigitOf, Span;
    ghost var core := t[o..Span(t, o, IsText)];
    var size := (|t| - o) * 733 / 1000 + 1;
    var buf := new nat[size](_ => 0);
    var length := 0;
    Cleared(buf[..], 256);
    Empty([], 58);
    assert Reverse<nat>([]) == [];
    p := o;
    while p < |t| && !IsSpace(t[p])
      invariant o <= p <= Span(t, o, IsText) && AllDigits(t[o..p])
      invariant AreDigits(buf[..], 256) && 0 <= length <= size && forall k | length <= k < size :: buf[k] == 0
      invariant Number(buf[..], 256) == Value(DigitsOf(t[o..p]), 58)
    {
      assert p < Span(t, o, IsText) && core[p - o] == t[p];
      var ch := DigitOf(t[p]);
      if ch.None? { return false, p, []; }
      OneMore(t, o, p);
      Suffices(DigitsOf(t[o..p + 1]), 58, 256, size, |t| - o);
      length := MultiplyAdd(buf, 256, 58, ch.value, length);
      p := p + 1;
    }
    assert p == Span(t, o, IsText);
    ok := true;
    d := Trim(buf, 256, length);
  }

  lemma {:induction false} OneMore(t: string, o: nat, p: nat)
    requires o <= p < |t| && AllDigits(t[o..p]) && DigitOf(t[p]).Some?
    ensures AllDigits(t[o..p + 1])
    ensures Value(DigitsOf(t[o..p + 1]), 58) == Value(DigitsOf(t[o..p]), 58) * 58 + DigitOf(t[p]).value
  {
    hide DigitOf, Number;
    assert t[o..p + 1] == t[o..p] + [t[p]];
    var d := DigitsOf(t[o..p + 1]);
    assert d[..p - o] == DigitsOf(t[o..p]) && d[..p - o + 1] == d;
    ReadNext(d, 58, p - o);
  }

  method DecodeBase58(s: string) returns (r: Option<seq<Byte>>)
    ensures r == Decode(s)
  {
    hide Number, Pow, Expand, DigitOf, Value, DigitsOf;
    var t := CString(s);
    var a := Skip(t, 0, IsSpace);
    var o := Skip(t, a, IsOne);
    var ok, e, d := ReadDigits(t, o);
    if !ok { return None; }
    var end := Skip(t, e, IsSpace);
    if end != |t| { return None; }
    r := Some(Zeros(o - a) + Bytes(d));
  }

  /** Step over characters. */
  method Skip(t: string, from: nat, f: char -> bool) returns (p: nat)
    requires from <= |t|
    ensures p == Span(t, from, f)
  {
    p := from;
    while p < |t| && f(t[p])
      invariant from <= p <= |t| && Span(t, p, f) == Span(t, from, f)
    {
      p := p + 1;
    }
  }
}
