/** The exact content of a rolling bloom filter after any sequence of insertions. */
module BloomRuns {
  import opened Arithmetic
  import opened BloomModel

  // ----- the bit planes -----

  lemma {:induction false} HasOps(x: bv64, y: bv64, b: BitNo)
    ensures Has(x & y, b) <==> Has(x, b) && Has(y, b)
    ensures Has(x | y, b) <==> Has(x, b) || Has(y, b)
    ensures Has(x ^ y, b) <==> Has(x, b) != Has(y, b)
  {
  }

  lemma {:induction false} HasNot(x: bv64, b: BitNo)
    ensures Has(!x, b) <==> !Has(x, b)
  {
  }

  lemma {:induction false} HasOne(b: BitNo, c: BitNo)
    ensures Has(One(b), c) <==> c == b
  {
  }

  lemma {:induction false} HasCleared(x: bv64, b: BitNo, c: BitNo)
    ensures Has(x & !One(b), c) <==> c != b && Has(x, c)
  {
    hide Has, One;
    HasOne(b, c);
    HasNot(One(b), c);
    HasOps(x, !One(b), c);
  }

  lemma {:induction false} MarkIs(x: bv64, b: BitNo)
    ensures MarkWord(x, b, 0) == x & !One(b) && MarkWord(x, b, 1) == (x & !One(b)) | One(b)
  {
  }

  lemma {:induction false} HasMark(x: bv64, b: BitNo, c: BitNo)
    ensures Has(MarkWord(x, b, 0), c) <==> c != b && Has(x, c)
    ensures Has(MarkWord(x, b, 1), c) <==> c == b || Has(x, c)
  {
    hide Has, One, MarkWord;
    MarkIs(x, b);
    HasCleared(x, b, c);
    HasOne(b, c);
    HasOps(x & !One(b), One(b), c);
  }

  // ----- labels -----

  ghost predicate Fits(data: seq<bv64>, c: Cell) {
    2 * c.word + 1 < |data|
  }

  lemma {:induction false} OtherThan1(p1: bv64, p2: bv64)
    ensures OtherBits(p1, p2, 1) == !p1 | p2
  {
  }

  lemma {:induction false} HasAnd1(x: bv64, p1: bv64, p2: bv64, b: BitNo)
    ensures Has(x & (!p1 | p2), b) <==> Has(x, b) && (!Has(p1, b) || Has(p2, b))
  {
  }

  lemma {:induction false} Wiped1(x: bv64, p1: bv64, p2: bv64, b: BitNo)
    ensures Has(WipeWord(x, p1, p2, 1), b) <==> Has(x, b) && (!Has(p1, b) || Has(p2, b))
  {
    hide Has, One, OtherBits;
    OtherThan1(p1, p2);
    HasAnd1(x, p1, p2, b);
  }

  lemma {:induction false} OtherThan2(p1: bv64, p2: bv64)
    ensures OtherBits(p1, p2, 2) == p1 | !p2
  {
  }

  lemma {:induction false} HasAnd2(x: bv64, p1: bv64, p2: bv64, b: BitNo)
    ensures Has(x & (p1 | !p2), b) <==> Has(x, b) && (Has(p1, b) || !Has(p2, b))
  {
  }

  lemma {:induction false} Wiped2(x: bv64, p1: bv64, p2: bv64, b: BitNo)
    ensures Has(WipeWord(x, p1, p2, 2), b) <==> Has(x, b) && (Has(p1, b) || !Has(p2, b))
  {
    hide Has, One, OtherBits;
    OtherThan2(p1, p2);
    HasAnd2(x, p1, p2, b);
  }

  lemma {:induction false} OtherThan3(p1: bv64, p2: bv64)
    ensures OtherBits(p1, p2, 3) == !p1 | !p2
  {
  }

  lemma {:induction false} HasAnd3(x: bv64, p1: bv64, p2: bv64, b: BitNo)
    ensures Has(x & (!p1 | !p2), b) <==> Has(x, b) && (!Has(p1, b) || !Has(p2, b))
  {
  }

  lemma {:induction false} Wiped3(x: bv64, p1: bv64, p2: bv64, b: BitNo)
    ensures Has(WipeWord(x, p1, p2, 3), b) <==> Has(x, b) && (!Has(p1, b) || !Has(p2, b))
  {
    hide Has, One, OtherBits;
    OtherThan3(p1, p2);
    HasAnd3(x, p1, p2, b);
  }

  lemma {:induction false} WipedHas(x: bv64, p1: bv64, p2: bv64, gen: nat, b: BitNo)
    requires 1 <= gen <= 3
    ensures Has(WipeWord(x, p1, p2, gen), b) <==> Has(x, b) && !(Has(p1, b) == (gen != 2) && Has(p2, b) == (gen != 1))
  {
    hide Has, WipeWord;
    if gen == 1 { Wiped1(x, p1, p2, b); } else if gen == 2 { Wiped2(x, p1, p2, b); } else { Wiped3(x, p1, p2, b); }
  }

  /** The wipe clears exactly the cells labelled with the generation. */
  lemma {:induction false} WipeLabel(data: seq<bv64>, gen: nat, c: Cell)
    requires |data| % 2 == 0 && Fits(data, c) && 1 <= gen <= 3
    ensures Label(Wipe(data, gen), c) == if Label(data, c) == gen then 0 else Label(data, c)
  {
    hide Has, WipeWord;
    var i := 2 * c.word;
    WipedHas(data[i], data[i], data[i + 1], gen, c.bit);
    WipedHas(data[i + 1], data[i], data[i + 1], gen, c.bit);
    assert i / 2 * 2 == i && (i + 1) / 2 * 2 == i;
  }

  /** Marking a cell labels it, and no other cell. */
  lemma {:induction false} MarkLabel(data: seq<bv64>, gen: nat, m: Cell, c: Cell)
    requires Fits(data, m) && Fits(data, c) && 1 <= gen <= 3
    ensures Label(Mark(data, gen, m), c) == if c == m then gen else Label(data, c)
  {
    hide Has, MarkWord;
    HasMark(data[2 * m.word], m.bit, c.bit);
    HasMark(data[2 * m.word + 1], m.bit, c.bit);
  }

  predicate Touches(f: Filter, key: Key, from: nat, c: Cell)
    requires |f.data| > 0 && |f.data| % 2 == 0
  {
    exists n | from <= n < f.nHashFuncs :: CellOf(f.hash, |f.data|, n, key) == c
  }

  lemma {:induction false} MarkFromLabel(f: Filter, key: Key, n: nat, c: Cell)
    requires |f.data| > 0 && |f.data| % 2 == 0 && Fits(f.data, c) && 1 <= f.generation <= 3
    ensures Label(MarkFrom(f, key, n).data, c) == if Touches(f, key, n, c) then f.generation else Label(f.data, c)
    decreases f.nHashFuncs - n
  {
    hide Label, Mark;
    if n < f.nHashFuncs {
      var m := CellOf(f.hash, |f.data|, n, key);
      var f1 := f.(data := Mark(f.data, f.generation, m));
      MarkLabel(f.data, f.generation, m, c);
      MarkFromLabel(f1, key, n + 1, c);
      TouchesNext(f, f1, key, n, c);
    }
  }

  lemma {:induction false} TouchesNext(f: Filter, f1: Filter, key: Key, n: nat, c: Cell)
    requires |f.data| > 0 && |f.data| % 2 == 0 && n < f.nHashFuncs
    requires f1.hash == f.hash && |f1.data| == |f.data| && f1.nHashFuncs == f.nHashFuncs
    ensures Touches(f, key, n, c) <==> CellOf(f.hash, |f.data|, n, key) == c || Touches(f1, key, n + 1, c)
  {
    if Touches(f1, key, n + 1, c) {
      var m :| n + 1 <= m < f.nHashFuncs && CellOf(f.hash, |f.data|, m, key) == c;
      assert Touches(f, key, n, c);
    }
    if Touches(f, key, n, c) {
      var m :| n <= m < f.nHashFuncs && CellOf(f.hash, |f.data|, m, key) == c;
      assert m == n || Touches(f1, key, n + 1, c);
    }
  }

  // ----- the history -----

  /** The number of the last inserted key that marks the cell, or -1. */
  function LastTouch(f: Filter, keys: seq<Key>, c: Cell): (j: int)
    requires |f.data| > 0 && |f.data| % 2 == 0
    ensures -1 <= j < |keys|
    decreases |keys|
  {
    if keys == [] then -1
    else if Touches(f, keys[|keys| - 1], 0, c) then |keys| - 1
    else LastTouch(f, keys[..|keys| - 1], c)
  }

  lemma {:induction false} LastTouchIs(f: Filter, keys: seq<Key>, c: Cell, low: int)
    requires |f.data| > 0 && |f.data| % 2 == 0 && low >= 0
    ensures LastTouch(f, keys, c) >= low <==> exists j | low <= j < |keys| :: Touches(f, keys[j], 0, c)
    decreases |keys|
  {
    hide Touches;
    if keys != [] {
      var last := |keys| - 1;
      var front := keys[..last];
      LastTouchIs(f, front, c, low);
      if Touches(f, keys[last], 0, c) && last >= low { assert exists j | low <= j < |keys| :: Touches(f, keys[j], 0, c); }
      if exists j | low <= j < |front| :: Touches(f, front[j], 0, c) {
        var j :| low <= j < |front| && Touches(f, front[j], 0, c);
        assert keys[j] == front[j];
      }
      if exists j | low <= j < |keys| :: Touches(f, keys[j], 0, c) {
        var j :| low <= j < |keys| && Touches(f, keys[j], 0, c);
        if j < last { assert front[j] == keys[j]; }
      }
    }
  }

  /** How many generations were started before the current one, after m insertions. */
  function Rounds(m: nat, per: nat): nat
    requires per > 0
  {
    if m == 0 then 0 else (m - 1) / per
  }

  /** The label of a cell last marked by key number j, when the current generation is number r. */
  function LabelFor(j: int, r: nat, per: nat): nat
    requires per > 0
  {
    if j < 0 || j / per < r - 2 then 0 else (j / per) % 3 + 1
  }

  /** The filter says of every cell which of the last three generations marked it last. */
  ghost predicate Describes(f: Filter, keys: seq<Key>) {
    && f.perGeneration > 0 && |f.data| > 0 && |f.data| % 2 == 0
    && var r := Rounds(|keys|, f.perGeneration);
       && f.thisGeneration == |keys| - r * f.perGeneration && f.generation == r % 3 + 1
       && forall c | Fits(f.data, c) :: Label(f.data, c) == LabelFor(LastTouch(f, keys, c), r, f.perGeneration)
  }

  lemma {:induction false} RoundsStep(m: nat, per: nat)
    requires per > 0
    ensures var r, r' := Rounds(m, per), Rounds(m + 1, per);
            && 0 <= m - r * per <= per
            && (if m - r * per == per then r' == r + 1 && m + 1 - r' * per == 1 else r' == r)
            && m / per == r'
  {
    hide Rounds;
    var r := Rounds(m, per);
    RoundsBounds(m, per);
    TimesNext(r, per);
    if m == r * per + per {
      TimesNext(r + 1, per);
      RoundsAt(m + 1, per, r + 1);
      DivIs(m, per, r + 1);
    } else {
      RoundsAt(m + 1, per, r);
      DivIs(m, per, r);
    }
  }

  lemma {:induction false} RoundsBounds(m: nat, per: nat)
    requires per > 0
    ensures var p := Rounds(m, per) * per; p <= m <= p + per && (m == 0 ==> p == 0)
  {
    if m > 0 {
      DivBounds(m - 1, per);
      TimesNext((m - 1) / per, per);
    }
  }

  lemma {:induction false} RoundsAt(m: nat, per: nat, r: nat)
    requires per > 0 && m > 0 && r * per < m <= r * per + per
    ensures Rounds(m, per) == r
  {
    TimesNext(r, per);
    DivIs(m - 1, per, r);
  }

  lemma {:induction false} TimesNext(a: nat, per: nat)
    ensures (a + 1) * per == a * per + per
  {
  }

  lemma {:induction false} DivBounds(a: nat, per: nat)
    requires per > 0
    ensures a / per * per <= a < (a / per + 1) * per
  {
  }

  lemma {:induction false} DivIs(a: nat, per: nat, q: nat)
    requires per > 0 && q * per <= a < (q + 1) * per
    ensures a / per == q
  {
    DivBounds(a, per);
    var d := a / per;
    if d < q { MulLe(d + 1, q, per); } else if d > q { MulLe(q + 1, d, per); }
  }

  lemma {:induction false} LastTouchSame(f: Filter, g: Filter, keys: seq<Key>, c: Cell)
    requires |f.data| > 0 && |f.data| % 2 == 0 && g.hash == f.hash && |g.data| == |f.data| && g.nHashFuncs == f.nHashFuncs
    ensures LastTouch(g, keys, c) == LastTouch(f, keys, c)
    decreases |keys|
  {
    if keys != [] { LastTouchSame(f, g, keys[..|keys| - 1], c); }
  }

  /** Starting generation r + 1 reuses the label of generation r - 2, whose cells are exactly those it forgets. */
  lemma {:induction false} Reused(j: int, r: nat, per: nat)
    requires per > 0 && j / per <= r
    ensures var was := LabelFor(j, r, per);
            LabelFor(j, r + 1, per) == if was == (r + 1) % 3 + 1 then 0 else was
  {
    var q := j / per;
    if j >= 0 && q >= r - 2 { assert q == r - 2 || q == r - 1 || q == r; }
  }

  lemma {:induction false} Within(j: int, m: nat, per: nat)
    requires per > 0 && j < m
    ensures j / per <= Rounds(m, per)
  {
    if j >= 0 {
      DivBounds(j, per);
      DivBounds(m - 1, per);
      var q, r := j / per, (m - 1) / per;
      if q > r { MulLe(r + 1, q, per); }
    }
  }

  ghost predicate Labels(f: Filter, g: Filter, keys: seq<Key>, r: nat)
    requires f.perGeneration > 0 && |g.data| > 0 && |g.data| % 2 == 0
  {
    forall c | Fits(f.data, c) :: Label(f.data, c) == LabelFor(LastTouch(g, keys, c), r, f.perGeneration)
  }

  lemma {:induction false} RotateDescribes(f: Filter, keys: seq<Key>)
    requires Describes(f, keys)
    ensures var f1 := Rotate(f);
            var r' := Rounds(|keys| + 1, f.perGeneration);
            && f1 == f.(data := f1.data, generation := r' % 3 + 1, thisGeneration := |keys| - r' * f.perGeneration)
            && Labels(f1, f, keys, r')
  {
    hide Label, LabelFor, LastTouch, Wipe;
    var per, m := f.perGeneration, |keys|;
    var r, r' := Rounds(m, per), Rounds(m + 1, per);
    RoundsStep(m, per);
    var f1 := Rotate(f);
    if f.thisGeneration == per {
      assert f1.generation == r' % 3 + 1;
      forall c | Fits(f1.data, c) ensures Label(f1.data, c) == LabelFor(LastTouch(f, keys, c), r', per) {
        assert Fits(f.data, c);
        WipeLabel(f.data, f1.generation, c);
        Within(LastTouch(f, keys, c), m, per);
        Reused(LastTouch(f, keys, c), r, per);
      }
    }
  }

  lemma {:induction false} InsertDescribes(f: Filter, keys: seq<Key>, key: Key)
    requires Describes(f, keys)
    ensures Describes(Insert(f, key), keys + [key])
  {
    hide Label, LastTouch, Rotate, Touches;
    var per, m, all := f.perGeneration, |keys|, keys + [key];
    RotateDescribes(f, keys);
    RoundsStep(m, per);
    var r' := Rounds(m + 1, per);
    var f1 := Rotate(f);
    var f2 := f1.(thisGeneration := f1.thisGeneration + 1);
    var f3 := Insert(f, key);
    forall c | Fits(f3.data, c) ensures Label(f3.data, c) == LabelFor(LastTouch(f3, all, c), r', per) {
      assert Fits(f1.data, c);
      MarkFromLabel(f2, key, 0, c);
      LastTouchNext(f, f3, keys, key, c);
      TouchesSame(f, f2, key, c);
    }
  }

  lemma {:induction false} TouchesSame(f: Filter, g: Filter, key: Key, c: Cell)
    requires |f.data| > 0 && |f.data| % 2 == 0 && g.hash == f.hash && |g.data| == |f.data| && g.nHashFuncs == f.nHashFuncs
    ensures Touches(g, key, 0, c) == Touches(f, key, 0, c)
  {
  }

  lemma {:induction false} LastTouchNext(f: Filter, g: Filter, keys: seq<Key>, key: Key, c: Cell)
    requires |f.data| > 0 && |f.data| % 2 == 0 && g.hash == f.hash && |g.data| == |f.data| && g.nHashFuncs == f.nHashFuncs
    ensures LastTouch(g, keys + [key], c) == if Touches(f, key, 0, c) then |keys| else LastTouch(f, keys, c)
  {
    var all := keys + [key];
    assert all[..|all| - 1] == keys && all[|all| - 1] == key;
    LastTouchSame(f, g, keys, c);
  }

  lemma {:induction false} RunDescribes(f: Filter, keys: seq<Key>)
    requires Describes(f, [])
    ensures Describes(Run(f, keys), keys)
    decreases |keys|
  {
    hide Describes, Insert;
    DescribesShape(f, []);
    if keys != [] {
      var front, last := keys[..|keys| - 1], keys[|keys| - 1];
      RunDescribes(f, front);
      DescribesShape(Run(f, front), front);
      InsertDescribes(Run(f, front), front, last);
      assert front + [last] == keys;
    }
  }

  lemma {:induction false} DescribesShape(f: Filter, keys: seq<Key>)
    requires Describes(f, keys)
    ensures f.perGeneration > 0 && |f.data| > 0 && |f.data| % 2 == 0
  {
  }

  lemma {:induction false} ResetDescribes(hash: (nat, Key) -> bv32, nElements: nat, nHashFuncs: nat, words: nat)
    requires nElements >= 1 && words >= 1
    ensures Describes(Reset(hash, nElements, nHashFuncs, words), [])
  {
    hide Has;
    var f := Reset(hash, nElements, nHashFuncs, words);
    forall c | Fits(f.data, c) ensures Label(f.data, c) == 0 { NothingThere(c.bit); }
  }

  lemma {:induction false} NothingThere(b: BitNo)
    ensures !Has(0, b)
  {
  }

  // ----- what the filter answers -----

  /** The keys that still count: those of this generation and the two before it. */
  function Kept(f: Filter): int {
    f.thisGeneration + 2 * f.perGeneration
  }

  /** A cell is set exactly when one of the keys that still count marks it. */
  lemma {:induction false} CellIsSetIff(f: Filter, keys: seq<Key>, c: Cell)
    requires Describes(f, keys) && Fits(f.data, c)
    ensures Label(f.data, c) != 0 <==> exists j | 0 <= j < |keys| && j >= |keys| - Kept(f) :: Touches(f, keys[j], 0, c)
  {
    hide Label, LastTouch, Touches, LabelFor, Rounds;
    var low := |keys| - Kept(f);
    CountsIff(LastTouch(f, keys, c), |keys|, f.perGeneration, low);
    LastTouchIs(f, keys, c, if low < 0 then 0 else low);
  }

  lemma {:induction false} CountsIff(j: int, m: nat, per: nat, low: int)
    requires per > 0 && low == Rounds(m, per) * per - 2 * per
    ensures LabelFor(j, Rounds(m, per), per) != 0 <==> j >= 0 && j >= low
  {
    var r: int := Rounds(m, per);
    TimesTwo(r, per);
    if j >= 0 { AtLeast(j, r - 2, per); }
  }

  lemma {:induction false} TimesTwo(r: int, per: int)
    ensures (r - 2) * per == r * per - 2 * per
  {
  }

  lemma {:induction false} AtLeast(j: nat, q: int, per: nat)
    requires per > 0
    ensures j / per >= q <==> j >= q * per
  {
    if q <= 0 { BelowZero(j, q, per); } else { AtLeastPositive(j, q, per); }
  }

  lemma {:induction false} BelowZero(j: nat, q: int, per: nat)
    requires per > 0 && q <= 0
    ensures j / per >= q && j >= q * per
  {
    QuotientPositive(j, per);
    ProductNegative(q, per);
  }

  lemma {:induction false} QuotientPositive(j: nat, per: nat)
    requires per > 0
    ensures j / per >= 0
  {
  }

  lemma {:induction false} ProductNegative(q: int, per: nat)
    requires q <= 0
    ensures q * per <= 0
  {
  }

  lemma {:induction false} AtLeastPositive(j: nat, q: nat, per: nat)
    requires per > 0
    ensures j / per >= q <==> j >= q * per
  {
    DivBounds(j, per);
    var d := j / per;
    if d >= q { MulLe(q, d, per); } else { MulLe(d + 1, q, per); }
  }

  lemma {:induction false} ContainsIs(f: Filter, key: Key, n: nat)
    requires |f.data| > 0 && |f.data| % 2 == 0
    ensures ContainsFrom(f, key, n) <==> forall k | n <= k < f.nHashFuncs :: Label(f.data, CellOf(f.hash, |f.data|, k, key)) != 0
    decreases f.nHashFuncs - n
  {
    hide Label, CellOf;
    if n < f.nHashFuncs { ContainsIs(f, key, n + 1); }
  }

  /**
   * After any insertions, a key is contained exactly when every one of its cells is marked by one of the
   * keys that still count, which are at least as many as the filter was built for.
   */
  lemma {:induction false} ContainsIff(hash: (nat, Key) -> bv32, nElements: nat, nHashFuncs: nat, words: nat, keys: seq<Key>, key: Key)
    requires nElements >= 1 && words >= 1
    ensures var f := Run(Reset(hash, nElements, nHashFuncs, words), keys);
            && (keys != [] ==> nElements < Kept(f) <= 3 * f.perGeneration)
            && (Contains(f, key) <==>
                forall n | 0 <= n < f.nHashFuncs ::
                  MarkedRecently(f, keys, CellOf(f.hash, |f.data|, n, key)))
  {
    hide Describes, Run, Label, CellOf, Touches, LastTouch;
    var f0 := Reset(hash, nElements, nHashFuncs, words);
    ResetDescribes(hash, nElements, nHashFuncs, words);
    RunDescribes(f0, keys);
    var f := Run(f0, keys);
    KeptBounds(f, keys);
    RunKeepsShape(f0, keys);
    ContainsIs(f, key, 0);
    forall n | 0 <= n < f.nHashFuncs
      ensures Label(f.data, CellOf(f.hash, |f.data|, n, key)) != 0 <==> MarkedRecently(f, keys, CellOf(f.hash, |f.data|, n, key))
    {
      CellIsSetIff(f, keys, CellOf(f.hash, |f.data|, n, key));
    }
  }

  ghost predicate MarkedRecently(f: Filter, keys: seq<Key>, c: Cell)
    requires |f.data| > 0 && |f.data| % 2 == 0
  {
    exists j | 0 <= j < |keys| && j >= |keys| - Kept(f) :: Touches(f, keys[j], 0, c)
  }

  lemma {:induction false} KeptBounds(f: Filter, keys: seq<Key>)
    requires Describes(f, keys)
    ensures keys != [] ==> 2 * f.perGeneration < Kept(f) <= 3 * f.perGeneration
  {
    if keys != [] { DivBounds(|keys| - 1, f.perGeneration); }
  }

  lemma {:induction false} RunKeepsShape(f: Filter, keys: seq<Key>)
    requires |f.data| > 0 && |f.data| % 2 == 0
    ensures var g := Run(f, keys); g.hash == f.hash && g.nHashFuncs == f.nHashFuncs && g.perGeneration == f.perGeneration
    decreases |keys|
  {
    if keys != [] { RunKeepsShape(f, keys[..|keys| - 1]); }
  }

  /** Each of the last nElements inserted keys is contained. */
  lemma {:induction false} RecentIsContained(hash: (nat, Key) -> bv32, nElements: nat, nHashFuncs: nat, words: nat, keys: seq<Key>, j: nat)
    requires nElements >= 1 && words >= 1 && j < |keys| && j >= |keys| - nElements
    ensures Contains(Run(Reset(hash, nElements, nHashFuncs, words), keys), keys[j])
  {
    hide Run, Contains, CellOf;
    ContainsIff(hash, nElements, nHashFuncs, words, keys, keys[j]);
    var f := Run(Reset(hash, nElements, nHashFuncs, words), keys);
    forall n | 0 <= n < f.nHashFuncs ensures MarkedRecently(f, keys, CellOf(f.hash, |f.data|, n, keys[j])) {
      assert Touches(f, keys[j], 0, CellOf(f.hash, |f.data|, n, keys[j]));
    }
  }

  /** A generation is the least number of keys of which two are as many as the filter is built for. */
  lemma {:induction false} GenerationIsHalf(hash: (nat, Key) -> bv32, nElements: nat, nHashFuncs: nat, words: nat)
    ensures var per := Reset(hash, nElements, nHashFuncs, words).perGeneration; nElements <= 2 * per < nElements + 2
  {
  }

  // ----- the cells of a table -----

  lemma {:induction false} LowAndHigh(pos: bv32, bit: bv32)
    requires pos < 0x400_0000 && bit < 64
    ensures ((pos << 6) | bit) >> 6 == pos
    ensures ((pos << 6) | bit) & 0x3F == bit
  {
  }

  lemma {:induction false} SameBit(b: BitNo)
    ensures (b as bv32) < 64 && ((b as bv32) as bv64) == b
  {
  }

  /** Every cell of a table of up to 2^26 words is hit: by the hash value made of the word's number and the bit's, whichever hash of whichever key has it. */
  lemma {:induction false} EveryCellIsHit(hash: (nat, Key) -> bv32, size: nat, n: nat, key: Key, pos: bv32, bit: BitNo)
    requires size % 2 == 0 && pos < 0x400_0000 && pos as nat < size && hash(n, key) == (pos << 6) | (bit as bv32)
    ensures CellOf(hash, size, n, key) == Cell(pos as nat / 2, bit)
  {
    hide CellOf;
    SameBit(bit);
    LowAndHigh(pos, bit as bv32);
    CellFor(hash, size, n, key, pos, bit);
  }

  lemma {:induction false} CellFor(hash: (nat, Key) -> bv32, size: nat, n: nat, key: Key, pos: bv32, bit: BitNo)
    requires size > 0 && size % 2 == 0 && pos as nat < size
    requires hash(n, key) >> 6 == pos && (hash(n, key) & 0x3F) as bv64 == bit
    ensures CellOf(hash, size, n, key) == Cell(pos as nat / 2, bit)
  {
    SmallMod(pos as nat, size);
  }

  lemma {:induction false} SmallMod(p: nat, size: nat)
    requires p < size
    ensures p % size == p
  {
  }
}
