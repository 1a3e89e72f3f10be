/** A filter decodes to the sorted hashes it was built from, and matches exactly the queries that are among them. */
module GcsProofs {
  import opened Arithmetic
  import opened Wrappers
  import opened ArithValue
  import opened GcsModel

  // ----- one number -----

  lemma {:induction false} NumberOfBits(x: nat, n: nat)
    ensures NumberOf(BitsOf(x, n)) == x % Pow2(n)
    decreases n
  {
    if n == 0 {
    } else {
      NumberOfBits(x / 2, n - 1);
      var b := BitsOf(x, n);
      assert b[..n - 1] == BitsOf(x / 2, n - 1);
      HalfMod(x, Pow2(n - 1));
    }
  }

  lemma {:induction false} HalfMod(x: nat, m: nat)
    requires m >= 1
    ensures x % (2 * m) == 2 * ((x / 2) % m) + x % 2
  {
    var h := x / 2;
    DivMod(h, m);
    var q, r := h / m, h % m;
    MulAssoc(q, 2, m);
    DivModIs(x, 2 * m, q, 2 * r + x % 2);
  }

  lemma {:induction false} JoinBack(x: nat, p: nat)
    requires x < TWO64
    ensures Join(Quotient(x, p), p, x % Pow2(p)) == x
  {
    hide Pow2;
    DivMod(x, Pow2(p));
    var y := Quotient(x, p) * Pow2(p);
    DivModIs(y, TWO64, 0, y);
    DivModIs(x, TWO64, 0, x);
  }

  lemma {:induction false} UnaryEnds(bits: seq<bool>, pos: nat, q: nat)
    requires pos + q < |bits| && (forall i | pos <= i < pos + q :: bits[i]) && !bits[pos + q]
    ensures UnaryEnd(bits, pos) == pos + q
    decreases q
  {
    if q > 0 { UnaryEnds(bits, pos + 1, q - 1); }
  }

  /** A code stands in the stream at a position. */
  predicate StandsAt(bits: seq<bool>, pos: nat, part: seq<bool>) {
    pos + |part| <= |bits| && bits[pos..pos + |part|] == part
  }

  /** Every number below 2^64 is decoded from its code, for every parameter. */
  lemma {:induction false} CodeDecodes(x: nat, p: nat, bits: seq<bool>, pos: nat)
    requires x < TWO64 && StandsAt(bits, pos, Code(x, p))
    ensures DecodeAt(bits, p, pos) == Some((x, pos + |Code(x, p)|))
  {
    hide Pow2, Quotient, BitsOf, NumberOf, Join;
    var code, q := Code(x, p), Quotient(x, p);
    assert forall i | 0 <= i < |code| :: bits[pos + i] == code[i] by {
      forall i | 0 <= i < |code| ensures bits[pos + i] == code[i] { assert bits[pos..pos + |code|][i] == code[i]; }
    }
    forall i | pos <= i < pos + q ensures bits[i] { assert bits[pos + (i - pos)] == code[i - pos]; }
    assert bits[pos + q] == code[q];
    UnaryEnds(bits, pos, q);
    var tail := bits[pos + q + 1..pos + q + 1 + p];
    assert tail == BitsOf(x, p) by {
      forall i | 0 <= i < p ensures tail[i] == BitsOf(x, p)[i] { assert tail[i] == bits[pos + (q + 1 + i)] == code[q + 1 + i]; }
    }
    NumberOfBits(x, p);
    JoinBack(x, p);
  }

  // ----- a set -----

  lemma {:induction false} CodesDecode(values: seq<nat>, p: nat, last: nat, bits: seq<bool>, pos: nat)
    requires Ascending(values) && (values != [] ==> last <= values[0]) && (forall i | 0 <= i < |values| :: values[i] < TWO64)
    requires StandsAt(bits, pos, Codes(values, p, last))
    ensures DecodeAll(bits, p, |values|, pos, last) == Some((values, pos + |Codes(values, p, last)|))
    decreases |values|
  {
    hide Code, DecodeAt;
    if values != [] {
      var v := values[0];
      var c, rest := Code(v - last, p), Codes(values[1..], p, v);
      assert Codes(values, p, last) == c + rest;
      StandsParts(bits, pos, c, rest);
      CodeDecodes(v - last, p, bits, pos);
      DivModIs(v, TWO64, 0, v);
      CodesDecode(values[1..], p, v, bits, pos + |c|);
      assert [v] + values[1..] == values;
    }
  }

  lemma {:induction false} StandsParts(bits: seq<bool>, pos: nat, a: seq<bool>, b: seq<bool>)
    requires StandsAt(bits, pos, a + b)
    ensures StandsAt(bits, pos, a) && StandsAt(bits, pos + |a|, b)
  {
    var whole := bits[pos..pos + |a + b|];
    assert whole == a + b;
    assert bits[pos..pos + |a|] == whole[..|a|];
    assert bits[pos + |a|..pos + |a| + |b|] == whole[|a|..];
  }

  // ----- sorting -----

  lemma {:induction false} InsertKeeps(x: nat, s: seq<nat>)
    ensures multiset(InsertSorted(x, s)) == multiset(s) + multiset{x}
    decreases |s|
  {
    if s != [] && x > s[0] {
      InsertKeeps(x, s[1..]);
      assert s == [s[0]] + s[1..];
    }
  }

  lemma {:induction false} InsertAscends(x: nat, s: seq<nat>)
    requires Ascending(s)
    ensures Ascending(InsertSorted(x, s)) && forall i | 0 <= i < |InsertSorted(x, s)| :: InsertSorted(x, s)[i] >= if s == [] || x <= s[0] then x else s[0]
    decreases |s|
  {
    if s == [] {
    } else if x <= s[0] {
      AscendingCons(x, s);
    } else {
      var rest := s[1..];
      InsertAscends(x, rest);
      assert rest != [] ==> s[0] <= rest[0];
      AscendingCons(s[0], InsertSorted(x, rest));
    }
  }

  lemma {:induction false} AscendingCons(x: nat, s: seq<nat>)
    requires Ascending(s) && forall i | 0 <= i < |s| :: x <= s[i]
    ensures Ascending([x] + s)
  {
  }

  lemma {:induction false} SortIs(s: seq<nat>)
    ensures Ascending(Sort(s)) && multiset(Sort(s)) == multiset(s)
    decreases |s|
  {
    if s != [] {
      SortIs(s[1..]);
      InsertAscends(s[0], Sort(s[1..]));
      InsertKeeps(s[0], Sort(s[1..]));
      assert s == [s[0]] + s[1..];
    }
  }

  lemma {:induction false} SortMembers(s: seq<nat>)
    ensures Ascending(Sort(s)) && |Sort(s)| == |s| && forall x :: x in Sort(s) <==> x in s
  {
    SortIs(s);
    forall x ensures x in Sort(s) <==> x in s { assert x in multiset(Sort(s)) <==> x in multiset(s); }
    assert |multiset(Sort(s))| == |multiset(s)|;
  }

  lemma {:induction false} HashAllIs(q: Params, f: nat, elements: seq<Element>)
    ensures |HashAll(q, f, elements)| == |elements|
    ensures forall i | 0 <= i < |elements| :: HashAll(q, f, elements)[i] == HashToRange(q, f, elements[i])
    decreases |elements|
  {
    if elements != [] { HashAllIs(q, f, elements[1..]); }
  }

  // ----- hashing into a range -----

  /** The scaled value stays below the range, and so below 2^64. */
  lemma {:induction false} InRange(x: nat, n: nat)
    requires x < TWO64
    ensures 0 <= MapIntoRange(x, n) <= n && (n > 0 ==> MapIntoRange(x, n) < n)
  {
    Scaled(x, TWO64 - 1, n);
    var y := x * n;
    if n > 0 { assert y < TWO64 * n; }
  }

  /** The hash values that are mapped to a value of the range are those of one interval: the range is divided evenly. */
  lemma {:induction false} RangeIff(q: Params, f: nat, e: Element, r: nat)
    ensures HashToRange(q, f, e) == r <==> r * TWO64 <= (q.hash(e) % TWO64) * f < (r + 1) * TWO64
  {
    var y := (q.hash(e) % TWO64) * f;
    MulLe(0, q.hash(e) % TWO64, f);
    DivMod(y, TWO64);
    var v := y / TWO64;
    if r < v { MulLe(r + 1, v, TWO64); } else if r > v { MulLe(v + 1, r, TWO64); }
  }

  /** No value of a range of up to 2^64 is left out, and a greater hash is never mapped to a smaller value. */
  lemma {:induction false} RangeIsOnto(n: nat, r: nat) returns (x: nat)
    requires r < n <= TWO64
    ensures x < TWO64 && MapIntoRange(x, n) == r
  {
    x := (r * TWO64 + n - 1) / n;
    var y := r * TWO64 + n - 1;
    DivMod(y, n);
    assert r * TWO64 <= x * n < r * TWO64 + n;
    if x >= TWO64 { MulLe(TWO64, x, n); MulLe(r + 1, n, TWO64); Distribute(r, 1, TWO64); }
    DivModIs(x * n, TWO64, r, x * n - r * TWO64);
  }

  lemma {:induction false} RangeAscends(x: nat, y: nat, n: nat)
    requires x <= y
    ensures MapIntoRange(x, n) <= MapIntoRange(y, n)
  {
    MulLe(x, y, n);
    MulLe(0, x, n);
    DivMod(x * n, TWO64);
    DivMod(y * n, TWO64);
    var a, b := x * n / TWO64, y * n / TWO64;
    if b < a { MulLe(b + 1, a, TWO64); }
  }

  /** The same with 64-bit products only: the numbers are split into halves of 32 bits. */
  function MapSplit(x: nat, n: nat): nat {
    var xHi, xLo, nHi, nLo := x / BASE, x % BASE, n / BASE, n % BASE;
    var ac, ad, bc, bd := xHi * nHi, xHi * nLo, xLo * nHi, xLo * nLo;
    var mid34 := bd / BASE + bc % BASE + ad % BASE;
    ac + bc / BASE + ad / BASE + mid34 / BASE
  }

  /** The split form computes the upper half of the 128-bit product. */
  lemma {:induction false} SplitIsWhole(x: nat, n: nat)
    ensures MapSplit(x, n) == MapIntoRange(x, n)
  {
    var xHi, xLo, nHi, nLo := x / BASE, x % BASE, n / BASE, n % BASE;
    var ac, ad, bc, bd := xHi * nHi, xHi * nLo, xLo * nHi, xLo * nLo;
    FourProducts(xHi, xLo, nHi, nLo);
    assert x == xHi * BASE + xLo && n == nHi * BASE + nLo;
    UpperHalf(x * n, ac, ad, bc, bd);
  }

  lemma {:induction false} FourProducts(a: nat, b: nat, c: nat, d: nat)
    ensures (a * BASE + b) * (c * BASE + d) == (a * c) * TWO64 + (a * d + b * c) * BASE + b * d
  {
    var y := c * BASE + d;
    Distribute(a * BASE, b, y);
    assert b * y == (b * c) * BASE + b * d by { MulAssoc(b, c, BASE); Left(b, c * BASE, d); }
    assert a * BASE * y == BASE * (a * y) by { MulAssoc(a, BASE, y); }
    assert a * y == (a * c) * BASE + a * d by { MulAssoc(a, c, BASE); Left(a, c * BASE, d); }
  }

  lemma {:induction false} Left(a: int, b: int, c: int)
    ensures a * (b + c) == a * b + a * c
  {
  }

  lemma {:induction false} UpperHalf(y: nat, ac: nat, ad: nat, bc: nat, bd: nat)
    requires y == ac * TWO64 + (ad + bc) * BASE + bd
    ensures var mid := bd / BASE + bc % BASE + ad % BASE;
            y / TWO64 == ac + bc / BASE + ad / BASE + mid / BASE
  {
    var mid := bd / BASE + bc % BASE + ad % BASE;
    DivModIs(y, TWO64, ac + bc / BASE + ad / BASE + mid / BASE, (mid % BASE) * BASE + bd % BASE);
  }

  /** None of the sums and products of the split form exceeds 64 bits. */
  lemma {:induction false} SplitFits(x: nat, n: nat)
    requires x < TWO64 && n < TWO64
    ensures var xHi, xLo, nHi, nLo := x / BASE, x % BASE, n / BASE, n % BASE;
            var mid34 := xLo * nLo / BASE + xLo * nHi % BASE + xHi * nLo % BASE;
            && xHi * nHi < TWO64 && xHi * nLo < TWO64 && xLo * nHi < TWO64 && xLo * nLo < TWO64
            && mid34 < TWO64 && MapSplit(x, n) < TWO64
  {
    ProductFits(x / BASE, n / BASE);
    ProductFits(x / BASE, n % BASE);
    ProductFits(x % BASE, n / BASE);
    ProductFits(x % BASE, n % BASE);
    SplitIsWhole(x, n);
    InRange(x, n);
  }

  lemma {:induction false} Scaled(a: nat, b: nat, n: nat)
    requires a <= b
    ensures 0 <= a * n <= b * n
  {
    MulLe(a, b, n);
    MulLe(0, a, n);
  }

  lemma {:induction false} SetBelow(q: Params, elements: seq<Element>)
    requires |elements| < BASE && q.m < BASE
    ensures var s := BuildHashedSet(q, |elements| * q.m, elements);
            Ascending(s) && |s| == |elements| && forall i | 0 <= i < |s| :: s[i] < TWO64
  {
    hide Sort, HashAll, MapIntoRange;
    var f := |elements| * q.m;
    var hashes := HashAll(q, f, elements);
    HashAllIs(q, f, elements);
    SortMembers(hashes);
    ProductFits(|elements|, q.m);
    forall i | 0 <= i < |hashes| ensures hashes[i] < TWO64 { InRange(q.hash(elements[i]) % TWO64, f); }
    var s := Sort(hashes);
    forall i | 0 <= i < |s| ensures s[i] < TWO64 {
      assert s[i] in s;
      var k :| 0 <= k < |hashes| && hashes[k] == s[i];
    }
  }

  lemma {:induction false} ProductFits(a: nat, b: nat)
    requires a < BASE && b < BASE
    ensures a * b < TWO64 - BASE
  {
    MulLe(a, BASE - 1, b);
    MulLe(b, BASE - 1, BASE - 1);
  }

  /** A filter is accepted by the decoding constructor, which finds exactly the sorted hashes in it. */
  lemma {:induction false} BuiltIsAccepted(q: Params, elements: seq<Element>)
    requires |elements| < BASE && q.m < BASE && q.p <= 64
    ensures var c := Build(q, elements).value;
            && Accepts(q, c)
            && DecodeAll(c.bits, q.p, c.n, 0, 0).value.0 == BuildHashedSet(q, |elements| * q.m, elements)
  {
    hide Codes, DecodeAll, BuildHashedSet;
    SetBelow(q, elements);
    var s := BuildHashedSet(q, |elements| * q.m, elements);
    var codes := Codes(s, q.p, 0);
    var bits := Padded(codes);
    assert bits[0..0 + |codes|] == codes;
    CodesDecode(s, q.p, 0, bits, 0);
  }

  // ----- matching -----

  ghost predicate Common(a: seq<nat>, b: seq<nat>) {
    exists x :: x in a && x in b
  }

  lemma {:induction false} NotBelow(x: nat, s: seq<nat>)
    requires s != [] && Ascending(s) && x < s[0]
    ensures x !in s
  {
    assert forall k | 0 <= k < |s| :: x < s[k];
  }

  lemma {:induction false} DropHead(a: seq<nat>, b: seq<nat>)
    requires a != [] && a[0] !in b
    ensures Common(a, b) <==> Common(a[1..], b)
  {
    if Common(a, b) {
      var x :| x in a && x in b;
      assert x in a[1..];
    }
  }

  lemma {:induction false} CommonSwaps(a: seq<nat>, b: seq<nat>)
    ensures Common(a, b) <==> Common(b, a)
  {
  }

  // ----- matching in any accepted encoding -----

  /** Every value among the queries that comes after a greater one has come before. */
  predicate FoundInOrder(values: seq<nat>, queries: set<nat>) {
    forall j, k | 0 <= j < k < |values| && values[j] > values[k] && values[k] in queries :: values[k] in values[..k]
  }

  lemma {:induction false} PassedIsAbsent(values: seq<nat>, queries: set<nat>, x: nat, k: nat)
    requires FoundInOrder(values, queries) && x in queries && values != [] && values[0] > x && k < |values|
    ensures values[k] != x
    decreases k
  {
    if values[k] == x {
      assert values[0] > values[k];
      var i :| 0 <= i < k && values[..k][i] == x;
      PassedIsAbsent(values, queries, x, i);
    }
  }

  lemma {:induction false} MergeFinds(values: seq<nat>, queries: seq<nat>)
    requires Ascending(queries) && FoundInOrder(values, set x | x in queries)
    ensures Merge(values, queries) <==> Common(values, queries)
    decreases |values| + |queries|
  {
    if values != [] && queries != [] {
      var v, w := values[0], queries[0];
      var asked := set x | x in queries;
      if v == w {
        assert v in values && v in queries;
      } else if w > v {
        NotBelow(v, queries);
        forall j, k | 0 <= j < k < |values[1..]| && values[1..][j] > values[1..][k] && values[1..][k] in asked
          ensures values[1..][k] in values[1..][..k]
        {
          assert values[j + 1] > values[k + 1] && values[k + 1] in values[..k + 1];
          assert values[..k + 1] == [v] + values[1..][..k];
        }
        MergeFinds(values[1..], queries);
        DropHead(values, queries);
      } else {
        forall k | 0 <= k < |values| ensures values[k] != w { PassedIsAbsent(values, asked, w, k); }
        forall x | x in queries[1..] ensures x in asked {}
        MergeFinds(values, queries[1..]);
        DropHead(queries, values);
        CommonSwaps(queries[1..], values);
        CommonSwaps(queries, values);
      }
    }
  }

  /** The pass gives up on a query when it meets a greater value first. */
  lemma {:induction false} MergeMisses(values: seq<nat>, x: nat, j: nat)
    requires j < |values| && values[j] > x && forall i | 0 <= i <= j :: values[i] != x
    ensures !Merge(values, [x])
    decreases j
  {
    if values[0] < x {
      MergeMisses(values[1..], x, j - 1);
    } else {
      assert !Merge(values, [x][1..]);
    }
  }

  /** Values in an order that hides none of them from the pass. */
  predicate Findable(values: seq<nat>) {
    forall j, k | 0 <= j < k < |values| && values[j] > values[k] :: values[k] in values[..k]
  }

  /** Whatever values an encoding holds, the pass answers every sorted query right if and only if they are findable. */
  lemma {:induction false} MergeRightIff(values: seq<nat>)
    ensures (forall queries | Ascending(queries) :: Merge(values, queries) <==> Common(values, queries)) <==> Findable(values)
  {
    if Findable(values) {
      forall queries | Ascending(queries) ensures Merge(values, queries) <==> Common(values, queries) {
        MergeFinds(values, queries);
      }
    } else {
      var j, k :| 0 <= j < k < |values| && values[j] > values[k] && values[k] !in values[..k];
      var x := values[k];
      forall i | 0 <= i <= j ensures values[i] != x { assert values[..k][i] == values[i]; }
      MergeMisses(values, x, j);
      assert x in values && x in [x] && Ascending([x]);
    }
  }

  lemma {:induction false} MergeIff(values: seq<nat>, queries: seq<nat>)
    requires Ascending(values) && Ascending(queries)
    ensures Merge(values, queries) <==> Common(values, queries)
  {
    MergeFinds(values, queries);
  }

  /** No sum of differences exceeds 64 bits. */
  predicate SumsFit(bits: seq<bool>, p: nat, n: nat, pos: nat, value: nat)
    requires pos <= |bits|
  {
    n == 0 ||
    match DecodeAt(bits, p, pos)
    case None => false
    case Some((delta, next)) => value + delta < TWO64 && SumsFit(bits, p, n - 1, next, value + delta)
  }

  /** The values of an encoding ascend if and only if no sum of differences wraps around. */
  lemma {:induction false} AscendingIff(bits: seq<bool>, p: nat, n: nat, pos: nat, value: nat)
    requires pos <= |bits| && value < TWO64 && DecodeAll(bits, p, n, pos, value).Some?
    ensures var values := DecodeAll(bits, p, n, pos, value).value.0;
            Ascending([value] + values) <==> SumsFit(bits, p, n, pos, value)
    decreases n
  {
    hide DecodeAt, Join;
    if n > 0 {
      var (delta, next) := DecodeAt(bits, p, pos).value;
      DeltaFits(bits, p, pos);
      var v := (value + delta) % TWO64;
      AscendingIff(bits, p, n - 1, next, v);
      var rest := DecodeAll(bits, p, n - 1, next, v).value.0;
      AscendingStep(value, v, rest);
      assert v == if value + delta < TWO64 then value + delta else value + delta - TWO64;
    }
  }

  lemma {:induction false} DeltaFits(bits: seq<bool>, p: nat, pos: nat)
    requires pos <= |bits| && DecodeAt(bits, p, pos).Some?
    ensures DecodeAt(bits, p, pos).value.0 < TWO64
  {
  }

  lemma {:induction false} AscendingStep(a: nat, b: nat, rest: seq<nat>)
    ensures Ascending([a] + ([b] + rest)) <==> a <= b && Ascending([b] + rest)
  {
    var l, t := [a] + ([b] + rest), [b] + rest;
    assert forall k | 0 <= k < |t| :: l[k + 1] == t[k];
    if Ascending(l) {
      forall i, j | 0 <= i < j < |t| ensures t[i] <= t[j] { assert l[i + 1] <= l[j + 1]; }
      assert l[0] <= l[1];
    } else if a <= b && Ascending(t) {
      forall i | 0 <= i < |t| ensures a <= t[i] { if i > 0 { assert t[0] <= t[i]; } }
      AscendingCons(a, t);
    }
  }

  /** Differences 2^64 - 1 and 2: the sum wraps around to 1, which the pass then does not find. */
  function WrappingFilter(p: nat): Encoding {
    Encoded(2, Padded(Code(TWO64 - 1, p) + Code(2, p)))
  }

  /** At every parameter for which the shifts are defined there is an accepted encoding with a value that is missed. */
  lemma {:induction false} WrappedValueIsMissed(q: Params)
    requires q.p <= 63
    ensures Accepts(q, WrappingFilter(q.p))
    ensures var values := DecodeAll(WrappingFilter(q.p).bits, q.p, 2, 0, 0).value.0; 1 in values && !Merge(values, [1])
  {
    hide Code, DecodeAt;
    var p := q.p;
    var bits, a, b := WrappingFilter(p).bits, Code(TWO64 - 1, p), Code(2, p);
    assert bits[0..0 + |a + b|] == a + b;
    StandsParts(bits, 0, a, b);
    CodeDecodes(TWO64 - 1, p, bits, 0);
    CodeDecodes(2, p, bits, |a|);
    var end := |a| + |b|;
    DivModIs(TWO64 - 1, TWO64, 0, TWO64 - 1);
    assert DecodeAll(bits, p, 0, end, 1) == Some(([], end));
    assert DecodeAll(bits, p, 1, |a|, TWO64 - 1) == Some(([1] + [], end));
    assert DecodeAll(bits, p, 2, 0, 0) == Some(([TWO64 - 1] + ([1] + []), end));
    var values := DecodeAll(bits, p, 2, 0, 0).value.0;
    assert values[0] == TWO64 - 1 && values[1] == 1;
    MergeMisses(values, 1, 0);
  }

  /** How long the first code of that encoding is. */
  lemma {:induction false} WrappingCodeLength(p: nat)
    requires p <= 63
    ensures |Code(TWO64 - 1, p)| == Pow2(64 - p) + p
  {
    hide Pow2;
    Pow2Sum(p, 64 - p);
    Pow64();
    var s, t := Pow2(p), Pow2(64 - p);
    MulLe(1, t, s);
    Distribute(t - 1, 1, s);
    DivModIs(TWO64 - 1, s, t - 1, s - 1);
  }

  lemma {:induction false} Pow64()
    ensures Pow2(64) == TWO64
  {
    hide Pow2;
    Pow32();
    Pow2Sum(32, 32);
  }

  /** Whatever it was taken from, an accepted encoding whose sums fit answers every sorted query right. */
  lemma {:induction false} FittingIsFindable(q: Params, c: Encoding)
    requires Accepts(q, c) && SumsFit(c.bits, q.p, c.n, 0, 0)
    ensures Ascending(DecodeAll(c.bits, q.p, c.n, 0, 0).value.0) && Findable(DecodeAll(c.bits, q.p, c.n, 0, 0).value.0)
  {
    hide DecodeAll, SumsFit;
    AscendingIff(c.bits, q.p, c.n, 0, 0);
    var values := DecodeAll(c.bits, q.p, c.n, 0, 0).value.0;
    forall i, j | 0 <= i < j < |values| ensures values[i] <= values[j] {
      assert ([0] + values)[i + 1] <= ([0] + values)[j + 1];
    }
  }

  /** The hashes of two sets of elements meet. */
  ghost predicate Meet(q: Params, f: nat, elements: seq<Element>, queries: seq<Element>) {
    exists i, j :: 0 <= i < |elements| && 0 <= j < |queries| && HashToRange(q, f, elements[i]) == HashToRange(q, f, queries[j])
  }

  lemma {:induction false} HashedMembers(q: Params, f: nat, elements: seq<Element>, values: seq<nat>)
    ensures var s := BuildHashedSet(q, f, elements);
            Ascending(s) && (Common(values, s) <==> exists e :: e in elements && HashToRange(q, f, e) in values)
  {
    hide Sort, HashAll, HashToRange;
    var a := HashAll(q, f, elements);
    HashAllIs(q, f, elements);
    SortMembers(a);
    if Common(values, Sort(a)) {
      var x :| x in values && x in Sort(a);
      assert x in a;
      var i :| 0 <= i < |a| && a[i] == x;
      assert elements[i] in elements;
    }
    if exists e :: e in elements && HashToRange(q, f, e) in values {
      var e :| e in elements && HashToRange(q, f, e) in values;
      var i :| 0 <= i < |elements| && elements[i] == e;
      assert a[i] in Sort(a);
    }
  }

  /** MatchAny holds exactly when some query hashes to a value of the set: there are no false negatives. */
  lemma {:induction false} MatchAnyIff(q: Params, elements: seq<Element>, queries: seq<Element>)
    requires |elements| < BASE && q.m < BASE
    ensures var f := |elements| * q.m;
            Merge(BuildHashedSet(q, f, elements), BuildHashedSet(q, f, queries)) <==> Meet(q, f, elements, queries)
    ensures (exists e :: e in elements && e in queries) ==> Meet(q, |elements| * q.m, elements, queries)
  {
    hide Sort, HashAll, HashToRange, Merge;
    var f := |elements| * q.m;
    var a, b := HashAll(q, f, elements), HashAll(q, f, queries);
    HashAllIs(q, f, elements);
    HashAllIs(q, f, queries);
    SortMembers(a);
    SortMembers(b);
    MergeIff(Sort(a), Sort(b));
    if Common(Sort(a), Sort(b)) {
      var x :| x in Sort(a) && x in Sort(b);
      assert x in a && x in b;
      var i :| 0 <= i < |a| && a[i] == x;
      var j :| 0 <= j < |b| && b[j] == x;
      assert HashToRange(q, f, elements[i]) == HashToRange(q, f, queries[j]);
    }
    if Meet(q, f, elements, queries) {
      var i, j :| 0 <= i < |elements| && 0 <= j < |queries| && HashToRange(q, f, elements[i]) == HashToRange(q, f, queries[j]);
      assert a[i] in Sort(a) && b[j] in Sort(b);
    }
    if exists e :: e in elements && e in queries {
      var e :| e in elements && e in queries;
      var i :| 0 <= i < |elements| && elements[i] == e;
      var j :| 0 <= j < |queries| && queries[j] == e;
      assert HashToRange(q, f, elements[i]) == HashToRange(q, f, queries[j]);
    }
  }

  // ----- which encodings are accepted -----

  /** A number as it stands in the stream: a unary quotient and the bits of the remainder. */
  datatype Word = Word(q: nat, r: seq<bool>)

  function Written(words: seq<Word>): seq<bool> {
    if words == [] then [] else Ones(words[0].q) + [false] + words[0].r + Written(words[1..])
  }

  lemma {:induction false} WordAt(bits: seq<bool>, p: nat, pos: nat) returns (w: Word)
    requires pos <= |bits| && DecodeAt(bits, p, pos).Some?
    ensures |w.r| == p && StandsAt(bits, pos, Ones(w.q) + [false] + w.r)
    ensures DecodeAt(bits, p, pos).value.1 == pos + w.q + 1 + p
  {
    hide Join, NumberOf;
    var end := UnaryEnd(bits, pos);
    w := Word(end - pos, bits[end + 1..end + 1 + p]);
    assert bits[pos..end + 1 + p] == Ones(w.q) + [false] + w.r;
  }

  lemma {:induction false} WordIsRead(bits: seq<bool>, p: nat, pos: nat, w: Word)
    requires |w.r| == p && StandsAt(bits, pos, Ones(w.q) + [false] + w.r)
    ensures pos <= |bits| && DecodeAt(bits, p, pos).Some? && DecodeAt(bits, p, pos).value.1 == pos + w.q + 1 + p
  {
    hide Join, NumberOf;
    var part := Ones(w.q) + [false] + w.r;
    forall i | 0 <= i < |part| ensures bits[pos + i] == part[i] { assert bits[pos..pos + |part|][i] == part[i]; }
    forall i | pos <= i < pos + w.q ensures bits[i] { assert bits[pos + (i - pos)] == part[i - pos]; }
    assert bits[pos + w.q] == part[w.q];
    UnaryEnds(bits, pos, w.q);
  }

  lemma {:induction false} ReadsWords(bits: seq<bool>, p: nat, n: nat, pos: nat, value: nat) returns (words: seq<Word>)
    requires pos <= |bits| && DecodeAll(bits, p, n, pos, value).Some?
    ensures |words| == n && (forall k | 0 <= k < n :: |words[k].r| == p) && StandsAt(bits, pos, Written(words))
    ensures DecodeAll(bits, p, n, pos, value).value.1 == pos + |Written(words)|
    decreases n
  {
    hide DecodeAt, StandsAt;
    words := [];
    if n > 0 {
      var w := WordAt(bits, p, pos);
      var (delta, next) := DecodeAt(bits, p, pos).value;
      var rest := ReadsWords(bits, p, n - 1, next, (value + delta) % TWO64);
      words := [w] + rest;
      assert words[1..] == rest;
      StandsJoin(bits, pos, Ones(w.q) + [false] + w.r, Written(rest));
    } else {
      StandsNothing(bits, pos);
    }
  }

  lemma {:induction false} StandsNothing(bits: seq<bool>, pos: nat)
    requires pos <= |bits|
    ensures StandsAt(bits, pos, [])
  {
  }

  lemma {:induction false} StandsJoin(bits: seq<bool>, pos: nat, a: seq<bool>, b: seq<bool>)
    requires StandsAt(bits, pos, a) && StandsAt(bits, pos + |a|, b)
    ensures StandsAt(bits, pos, a + b)
  {
    assert bits[pos..pos + |a|] + bits[pos + |a|..pos + |a| + |b|] == bits[pos..pos + |a + b|];
  }

  lemma {:induction false} WordsAreRead(bits: seq<bool>, p: nat, words: seq<Word>, pos: nat, value: nat)
    requires (forall k | 0 <= k < |words| :: |words[k].r| == p) && StandsAt(bits, pos, Written(words))
    ensures pos <= |bits| && DecodeAll(bits, p, |words|, pos, value).Some?
    ensures DecodeAll(bits, p, |words|, pos, value).value.1 == pos + |Written(words)|
    decreases |words|
  {
    hide DecodeAt;
    if words != [] {
      var w := words[0];
      StandsParts(bits, pos, Ones(w.q) + [false] + w.r, Written(words[1..]));
      WordIsRead(bits, p, pos, w);
      var (delta, next) := DecodeAt(bits, p, pos).value;
      WordsAreRead(bits, p, words[1..], next, (value + delta) % TWO64);
    }
  }

  /** n words with remainders of p bits and less than a byte beyond them. */
  ghost predicate Holds(c: Encoding, p: nat, words: seq<Word>) {
    && |words| == c.n && (forall k | 0 <= k < |words| :: |words[k].r| == p)
    && Written(words) <= c.bits && |c.bits| < |Written(words)| + 8
  }

  /**
   * An encoding is accepted if and only if it is fewer than 2^32 words, each a number of ones, a zero and P bits, and
   * then less than a byte of anything, with P at most 64 unless there is no word at all.
   */
  lemma {:induction false} AcceptsIff(q: Params, c: Encoding)
    ensures Accepts(q, c) <==> c.n < 0x1_0000_0000 && (q.p <= 64 || c.n == 0) && exists words :: Holds(c, q.p, words)
  {
    hide DecodeAll, Written, StandsAt;
    if DecodeAll(c.bits, q.p, c.n, 0, 0).Some? {
      var words := ReadsWords(c.bits, q.p, c.n, 0, 0);
      StandsFirst(c.bits, Written(words));
      if Accepts(q, c) { assert Holds(c, q.p, words); }
    }
    if words :| Holds(c, q.p, words) {
      StandsFirst(c.bits, Written(words));
      WordsAreRead(c.bits, q.p, words, 0, 0);
    }
  }

  lemma {:induction false} StandsFirst(bits: seq<bool>, part: seq<bool>)
    ensures StandsAt(bits, 0, part) <==> part <= bits
  {
  }

  /** A filter is built of fewer than 2^32 elements, and of any at all only with P up to 64: the codes in order, and zeros up to the next byte. */
  lemma {:induction false} BuiltIs(q: Params, elements: seq<Element>)
    ensures Build(q, elements).Some? <==> |elements| < 0x1_0000_0000 && (q.p <= 64 || elements == [])
    ensures Build(q, elements).Some? ==>
              var c, codes := Build(q, elements).value, Codes(BuildHashedSet(q, |elements| * q.m, elements), q.p, 0);
              && c.n == |elements| && codes <= c.bits && |c.bits| < |codes| + 8
              && forall k | |codes| <= k < |c.bits| :: !c.bits[k]
  {
    hide Codes, BuildHashedSet;
  }
}
