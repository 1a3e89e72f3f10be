/** Base58: what the two conversions compute, and that they undo each other. */
module Base58 {
  import opened Wrappers
  import opened Radix

  type Byte = b: nat | b < 256

  /** All alphanumeric characters but zero and the letters that look like one or zero. */
  const ALPHABET := "123456789" + "ABCDEFGH" + "JKLMN" + "PQRSTUVWXYZ" + "abcdefghijk" + "mnopqrstuvwxyz"

  // ----- characters -----

  function Find(s: string, c: char, i: nat): (r: Option<nat>)
    requires i <= |s|
    ensures r.Some? ==> i <= r.value < |s| && s[r.value] == c
    ensures r.None? ==> forall k | i <= k < |s| :: s[k] != c
    decreases |s| - i
  {
    if i == |s| then None else if s[i] == c then Some(i) else Find(s, c, i + 1)
  }

  function DigitOf(c: char): (r: Option<nat>)
    ensures r.Some? ==> r.value < 58
  {
    Find(ALPHABET, c, 0)
  }

  function CharOf(d: nat): char
    requires d < 58
  {
    ALPHABET[d]
  }

  /** The alphabet by ranges of character codes. */
  function CodeOf(d: nat): int {
    if d < 9 then 49 + d else if d < 17 then 65 + (d - 9) else if d < 22 then 74 + (d - 17)
    else if d < 33 then 80 + (d - 22) else if d < 44 then 97 + (d - 33) else 109 + (d - 44)
  }

  lemma {:induction false} FirstChars(d: nat)
    requires 0 <= d < 9
    ensures CharOf(d) as int == CodeOf(d)
  {
    if d == 0 {} else if d == 1 {} else if d == 2 {} else if d == 3 {} else if d == 4 {} else if d == 5 {} else if d == 6 {} else if d == 7 {} else {}
  }

  lemma {:induction false} UpperChars(d: nat)
    requires 9 <= d < 17
    ensures CharOf(d) as int == CodeOf(d)
  {
    if d == 9 {} else if d == 10 {} else if d == 11 {} else if d == 12 {} else if d == 13 {} else if d == 14 {} else if d == 15 {} else {}
  }

  lemma {:induction false} MoreChars(d: nat)
    requires 17 <= d < 22
    ensures CharOf(d) as int == CodeOf(d)
  {
    if d == 17 {} else if d == 18 {} else if d == 19 {} else if d == 20 {} else {}
  }

  lemma {:induction false} LastUpperChars(d: nat)
    requires 22 <= d < 33
    ensures CharOf(d) as int == CodeOf(d)
  {
    if d == 22 {} else if d == 23 {} else if d == 24 {} else if d == 25 {} else if d == 26 {} else if d == 27 {} else if d == 28 {} else if d == 29 {} else if d == 30 {} else if d == 31 {} else {}
  }

  lemma {:induction false} LowerChars(d: nat)
    requires 33 <= d < 44
    ensures CharOf(d) as int == CodeOf(d)
  {
    if d == 33 {} else if d == 34 {} else if d == 35 {} else if d == 36 {} else if d == 37 {} else if d == 38 {} else if d == 39 {} else if d == 40 {} else if d == 41 {} else if d == 42 {} else {}
  }

  lemma {:induction false} LastChars(d: nat)
    requires 44 <= d < 58
    ensures CharOf(d) as int == CodeOf(d)
  {
    if d == 44 {} else if d == 45 {} else if d == 46 {} else if d == 47 {} else if d == 48 {} else if d == 49 {} else if d == 50 {} else if d == 51 {} else if d == 52 {} else if d == 53 {} else if d == 54 {} else if d == 55 {} else if d == 56 {} else {}
  }

  lemma {:induction false} CharIs(d: nat)
    requires d < 58
    ensures CharOf(d) as int == CodeOf(d)
  {
    if d < 22 {
      if d < 9 { FirstChars(d); } else if d < 17 { UpperChars(d); } else { MoreChars(d); }
    } else {
      if d < 33 { LastUpperChars(d); } else if d < 44 { LowerChars(d); } else { LastChars(d); }
    }
  }

  lemma {:induction false} DigitOfChar(d: nat)
    requires d < 58
    ensures DigitOf(CharOf(d)) == Some(d) && !IsSpace(CharOf(d)) && CharOf(d) as int != 0 && (IsOne(CharOf(d)) <==> d == 0)
  {
    hide CharOf, Find;
    CharIs(d);
    CharIs(0);
    var r := DigitOf(CharOf(d));
    CharAt(d);
    if r.Some? {
      CharAt(r.value);
      CharIs(r.value);
    }
  }

  lemma {:induction false} CharAt(d: nat)
    requires d < 58
    ensures CharOf(d) == ALPHABET[d] && |ALPHABET| == 58
  {
  }

  predicate IsSpace(c: char) {
    c as int == 32 || 9 <= c as int <= 13
  }

  predicate IsOne(c: char) {
    c as int == 49
  }

  predicate IsText(c: char) {
    !IsSpace(c)
  }

  predicate NotNul(c: char) {
    c as int != 0
  }

  // ----- strings -----

  /** The first position from i on where f does not hold. */
  function Span<T>(s: seq<T>, i: nat, f: T -> bool): (r: nat)
    requires i <= |s|
    ensures i <= r <= |s| && (forall k | i <= k < r :: f(s[k])) && (r < |s| ==> !f(s[r]))
    decreases |s| - i
  {
    if i == |s| || !f(s[i]) then i else Span(s, i + 1, f)
  }

  lemma {:induction false} SpanIs<T>(s: seq<T>, i: nat, f: T -> bool, r: nat)
    requires i <= r <= |s| && (forall k | i <= k < r :: f(s[k])) && (r < |s| ==> !f(s[r]))
    ensures Span(s, i, f) == r
    decreases r - i
  {
    if i < r { SpanIs(s, i + 1, f, r); }
  }

  predicate AllDigits(t: string) {
    forall i | 0 <= i < |t| :: DigitOf(t[i]).Some?
  }

  function DigitsOf(t: string): (d: seq<nat>)
    requires AllDigits(t)
    ensures |d| == |t| && AreDigits(d, 58) && forall i | 0 <= i < |d| :: DigitOf(t[i]) == Some(d[i])
  {
    seq(|t|, i requires 0 <= i < |t| => DigitOf(t[i]).value)
  }

  function CharsOf(d: seq<nat>): (t: string)
    requires AreDigits(d, 58)
    ensures |t| == |d| && forall i | 0 <= i < |d| :: t[i] == CharOf(d[i])
  {
    seq(|d|, i requires 0 <= i < |d| => CharOf(d[i]))
  }

  lemma {:induction false} CharsBack(d: seq<nat>)
    requires AreDigits(d, 58)
    ensures AllDigits(CharsOf(d)) && DigitsOf(CharsOf(d)) == d
    ensures forall i | 0 <= i < |d| :: !IsSpace(CharsOf(d)[i]) && NotNul(CharsOf(d)[i]) && (IsOne(CharsOf(d)[i]) <==> d[i] == 0)
  {
    hide DigitOf, CharOf;
    forall i | 0 <= i < |d| ensures DigitOf(CharOf(d[i])) == Some(d[i]) && !IsSpace(CharOf(d[i])) && NotNul(CharOf(d[i])) && (IsOne(CharOf(d[i])) <==> d[i] == 0) {
      DigitOfChar(d[i]);
    }
  }

  lemma {:induction false} DigitsBack(t: string)
    requires AllDigits(t)
    ensures CharsOf(DigitsOf(t)) == t
  {
  }

  // ----- the conversions -----

  predicate IsZero(b: Byte) {
    b == 0
  }

  /** Big-endian value. */
  function Value(d: seq<nat>, base: nat): nat {
    Number(Reverse(d), base)
  }

  /** Big-endian digits without leading zeros. */
  function Expand(v: nat, base: nat): (d: seq<nat>)
    requires base >= 2
    ensures AreDigits(d, base) && (d != [] ==> d[0] != 0) && Value(d, base) == v
  {
    DigitsAre(v, base);
    ReverseTwice(Digits(v, base));
    Reverse(Digits(v, base))
  }

  lemma {:induction false} ExpandBack(d: seq<nat>, base: nat)
    requires base >= 2 && AreDigits(d, base) && (d != [] ==> d[0] != 0)
    ensures Expand(Value(d, base), base) == d
  {
    DigitsOfNumber(Reverse(d), base);
    ReverseTwice(d);
  }

  function Ones(z: nat): (s: string)
    ensures |s| == z && forall i | 0 <= i < z :: s[i] == '1'
  {
    seq(z, _ => '1')
  }

  function Zeros(z: nat): (s: seq<Byte>)
    ensures |s| == z && forall i | 0 <= i < z :: s[i] == 0
  {
    seq(z, _ => 0)
  }

  /** Leading zero bytes become ones; the rest is written in base 58. */
  function Encode(b: seq<Byte>): string {
    var z := Span(b, 0, IsZero);
    Ones(z) + CharsOf(Expand(Value(b[z..], 256), 58))
  }

  /** What a C string holds of a string. */
  function CString(s: string): string {
    s[..Span(s, 0, NotNul)]
  }

  function Bytes(d: seq<nat>): (r: seq<Byte>)
    requires AreDigits(d, 256)
    ensures |r| == |d| && forall i | 0 <= i < |d| :: r[i] == d[i]
  {
    seq(|d|, i requires 0 <= i < |d| => d[i])
  }

  /** Spaces, ones, digits, spaces; anything else fails. */
  function Decode(s: string): Option<seq<Byte>> {
    var t := CString(s);
    var a := Span(t, 0, IsSpace);
    var o := Span(t, a, IsOne);
    var e := Span(t, o, IsText);
    if !AllDigits(t[o..e]) || Span(t, e, IsSpace) != |t| then None
    else Some(Zeros(o - a) + Bytes(Expand(Value(DigitsOf(t[o..e]), 58), 256)))
  }

  // ----- they undo each other -----

  /** A string of z ones and then digits that do not start with a one, as decoding splits it. */
  lemma {:induction false} SplitAgain(t: string, z: nat)
    requires z <= |t| && (forall i | 0 <= i < z :: t[i] == '1') && (z < |t| ==> !IsOne(t[z]))
    requires forall i | 0 <= i < |t| :: !IsSpace(t[i]) && NotNul(t[i])
    ensures CString(t) == t && Span(t, 0, IsSpace) == 0 && Span(t, 0, IsOne) == z && Span(t, z, IsText) == |t| && Span(t, |t|, IsSpace) == |t|
  {
    SpanIs(t, 0, NotNul, |t|);
    SpanIs(t, 0, IsSpace, 0);
    SpanIs(t, 0, IsOne, z);
    SpanIs(t, z, IsText, |t|);
    SpanIs(t, |t|, IsSpace, |t|);
    assert t[..|t|] == t;
  }

  lemma {:induction false} EncodedText(z: nat, d: seq<nat>)
    requires AreDigits(d, 58) && (d != [] ==> d[0] != 0)
    ensures var t := Ones(z) + CharsOf(d);
            && (forall i | 0 <= i < |t| :: !IsSpace(t[i]) && NotNul(t[i]))
            && (forall i | 0 <= i < z :: t[i] == '1') && (z < |t| ==> !IsOne(t[z])) && t[z..] == CharsOf(d)
  {
    hide CharOf, DigitOf;
    CharsBack(d);
    var t := Ones(z) + CharsOf(d);
    forall i | 0 <= i < |t| ensures !IsSpace(t[i]) && NotNul(t[i]) {
      if i >= z { assert t[i] == CharsOf(d)[i - z]; }
    }
    if z < |t| { assert t[z] == CharsOf(d)[0]; }
  }

  /** Decoding an encoded byte string gives it back. */
  lemma {:induction false} DecodeEncode(b: seq<Byte>)
    ensures Decode(Encode(b)) == Some(b)
  {
    hide Span, CharsOf, CharOf, DigitsOf, DigitOf, Expand, Value, CString, IsSpace, IsOne, IsText, NotNul;
    var z := Span(b, 0, IsZero);
    var rest := b[z..];
    var d := Expand(Value(rest, 256), 58);
    var t := Encode(b);
    EncodedText(z, d);
    SplitAgain(t, z);
    CharsBack(d);
    assert t[z..|t|] == CharsOf(d);
    ExpandBack(rest, 256);
    assert Zeros(z) + Bytes(rest) == b;
  }

  /** Encoding what was decoded gives the text back, without the spaces around it. */
  lemma {:induction false} EncodeDecode(s: string) returns (a: nat, e: nat)
    requires Decode(s).Some?
    ensures var t := CString(s);
            && a <= e <= |t| && Encode(Decode(s).value) == t[a..e]
            && (forall i | 0 <= i < a :: IsSpace(t[i])) && (forall i | e <= i < |t| :: IsSpace(t[i]))
            && (forall i | a <= i < e :: !IsSpace(t[i]))
  {
    hide Span, CharsOf, DigitsOf, DigitOf, Expand, Value, CString;
    var t := CString(s);
    a := Span(t, 0, IsSpace);
    var o := Span(t, a, IsOne);
    e := Span(t, o, IsText);
    var core := t[o..e];
    var d := DigitsOf(core);
    var bytes := Bytes(Expand(Value(d, 58), 256));
    var b := Decode(s).value;
    DecodedTail(core, d);
    ZerosFound(o - a, bytes);
    assert bytes == Expand(Value(d, 58), 256);
    ExpandBack(d, 58);
    DigitsBack(core);
    OnesAre(t, a, o, e);
  }

  lemma {:induction false} OnesAre(t: string, a: nat, o: nat, e: nat)
    requires a <= o <= e <= |t| && forall i | a <= i < o :: IsOne(t[i])
    ensures Ones(o - a) + t[o..e] == t[a..e]
  {
    assert '1' as int == 49;
    assert forall i | a <= i < o :: t[i] == '1';
  }

  /** The first digit after the ones is not zero. */
  lemma {:induction false} DecodedTail(core: string, d: seq<nat>)
    requires AllDigits(core) && d == DigitsOf(core) && (core != [] ==> !IsOne(core[0]))
    ensures d != [] ==> d[0] != 0
  {
    hide DigitOf, CharOf;
    if d != [] {
      DigitsBack(core);
      DigitOfChar(d[0]);
    }
  }

  lemma {:induction false} ZerosFound(z: nat, bytes: seq<Byte>)
    requires bytes != [] ==> bytes[0] != 0
    ensures Span(Zeros(z) + bytes, 0, IsZero) == z && (Zeros(z) + bytes)[z..] == bytes
  {
    SpanIs(Zeros(z) + bytes, 0, IsZero, z);
  }

  // ----- what is accepted -----

  /** Spaces up to a, digits from there up to e, and spaces to the end. */
  predicate Padded(t: string, a: nat, e: nat) {
    && a <= e <= |t| && AllDigits(t[a..e])
    && (forall i | 0 <= i < a :: IsSpace(t[i])) && (forall i | e <= i < |t| :: IsSpace(t[i]))
  }

  lemma {:induction false} DigitIsText(c: char)
    requires DigitOf(c).Some?
    ensures !IsSpace(c)
  {
    hide CharOf;
    DigitOfChar(DigitOf(c).value);
  }

  lemma {:induction false} OneIsDigit(c: char)
    requires IsOne(c)
    ensures DigitOf(c) == Some(0)
  {
    hide CharOf;
    DigitOfChar(0);
    assert CharOf(0) == c by { CharAt(0); }
  }

  lemma {:induction false} AcceptedIsPadded(t: string, a: nat, o: nat, e: nat)
    requires a == Span(t, 0, IsSpace) && o == Span(t, a, IsOne) && e == Span(t, o, IsText) && AllDigits(t[o..e]) && Span(t, e, IsSpace) == |t|
    ensures Padded(t, a, e)
  {
    hide DigitOf;
    forall i | 0 <= i < e - a ensures DigitOf(t[a..e][i]).Some? {
      if a + i < o { OneIsDigit(t[a + i]); } else { assert t[a..e][i] == t[o..e][a + i - o]; }
    }
  }

  lemma {:induction false} PaddedIsAccepted(t: string, a: nat, e: nat)
    requires Padded(t, a, e) && a < e
    ensures Span(t, 0, IsSpace) == a
    ensures var o := Span(t, a, IsOne);
            o <= e && Span(t, o, IsText) == e && AllDigits(t[o..e]) && Span(t, e, IsSpace) == |t|
  {
    hide DigitOf;
    forall i | a <= i < e ensures !IsSpace(t[i]) && DigitOf(t[i]).Some? {
      assert t[a..e][i - a] == t[i];
      DigitIsText(t[i]);
    }
    SpanIs(t, 0, IsSpace, a);
    var o := Span(t, a, IsOne);
    assert e < |t| ==> !IsOne(t[e]);
    SpanIs(t, o, IsText, e);
    SpanIs(t, e, IsSpace, |t|);
  }

  lemma {:induction false} OnlySpaces(t: string)
    requires forall i | 0 <= i < |t| :: IsSpace(t[i])
    ensures Span(t, 0, IsSpace) == |t| && Span(t, |t|, IsOne) == |t| && Span(t, |t|, IsText) == |t|
  {
    SpanIs(t, 0, IsSpace, |t|);
    SpanIs(t, |t|, IsOne, |t|);
    SpanIs(t, |t|, IsText, |t|);
  }

  /** The spaces are the blank, tab, line feed, vertical tab, form feed and carriage return. */
  lemma {:induction false} SpacesAre(c: char)
    ensures IsSpace(c) <==> c in [' ', '\t', '\n', '\U{000B}', '\U{000C}', '\r']
  {
  }

  /** A string is decoded if and only if, up to a NUL character, it is digits of the alphabet with spaces before and after them. */
  lemma {:induction false} DecodesIff(s: string)
    ensures Decode(s).Some? <==> exists a: nat, e: nat :: Padded(CString(s), a, e)
  {
    hide Span, DigitsOf, DigitOf, Expand, Value, CString, Padded;
    var t := CString(s);
    var a := Span(t, 0, IsSpace);
    var o := Span(t, a, IsOne);
    var e := Span(t, o, IsText);
    if Decode(s).Some? { AcceptedIsPadded(t, a, o, e); }
    if x: nat, y: nat :| Padded(t, x, y) { PaddedDecodes(s, x, y); }
  }

  lemma {:induction false} PaddedDecodes(s: string, a: nat, e: nat)
    requires Padded(CString(s), a, e)
    ensures Decode(s).Some?
  {
    hide Span, DigitsOf, DigitOf, Expand, Value, CString;
    var t := CString(s);
    if a < e { PaddedIsAccepted(t, a, e); } else { OnlySpaces(t); }
  }
}
