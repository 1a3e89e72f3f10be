/** Shifts of limb arrays, bit by bit or-ed together from two limbs at a time. */
module ArithShift {
  import opened Arithmetic
  import opened ArithValue
  import opened ArithLimbs

  lemma {:induction false} ValUpdate(s: seq<Limb>, i: nat, l: Limb)
    requires i < |s|
    ensures Val(s[i := l]) == Val(s) + (l - s[i]) * Pow(i)
    decreases |s|
  {
    var n := |s| - 1;
    if i == n {
      assert s[i := l][..n] == s[..n];
      Distribute(l - s[i], s[i], Pow(i));
    } else {
      assert s[i := l][..n] == s[..n][i := l];
      ValUpdate(s[..n], i, l);
    }
  }

  /** The bits of a limb that move on to the next one when it is shifted left by r. */
  function High(a: Limb, r: nat): Limb
    requires r < 32
  {
    QuotientLe(a, Pow2(32 - r));
    a / Pow2(32 - r)
  }

  /** A limb shifted left by r bits, cut off at 32 bits. */
  function Low(a: Limb, r: nat): Limb {
    (a * Pow2(r)) % BASE
  }

  lemma {:induction false} LimbUp(a: Limb, r: nat)
    requires r < 32
    ensures High(a, r) < Pow2(r) && Low(a, r) % Pow2(r) == 0 && High(a, r) * BASE + Low(a, r) == a * Pow2(r)
  {
    hide Pow2;
    var s, t := Pow2(r), Pow2(32 - r);
    Pow2Sum(r, 32 - r);
    Pow32();
    LimbSplit(a, s, t);
  }

  lemma {:induction false} LimbSplit(a: nat, s: nat, t: nat)
    requires s >= 1 && t >= 1 && s * t == BASE && a < BASE
    ensures a / t < s && ((a * s) % BASE) % s == 0 && (a / t) * BASE + (a * s) % BASE == a * s
  {
    DivMod(a, t);
    var hi: nat, low: nat := a / t, a % t;
    SplitProduct(a, s, t, hi, low);
    DivModIs(a * s, BASE, hi, low * s);
    DivModIs(low * s, s, low, 0);
  }

  lemma {:induction false} SplitProduct(a: nat, s: nat, t: nat, hi: nat, low: nat)
    requires s * t == BASE && a < BASE && a == hi * t + low && low < t
    ensures hi < s && a * s == hi * BASE + low * s && 0 <= low * s < BASE
  {
    if hi >= s { MulLe(s, hi, t); }
    Distribute(hi * t, low, s);
    MulAssoc(hi, t, s);
    MulLe(low + 1, t, s);
    MulLe(0, low, s);
    Distribute(low, 1, s);
  }

  /** Or of two limbs, which is a limb. */
  function OrLimb(x: Limb, y: Limb): Limb {
    OrFits(x, y);
    BitOr(x, y)
  }

  lemma {:induction false} OrFits(x: Limb, y: Limb)
    ensures BitOr(x, y) < BASE
  {
    hide Pow2, BitOr;
    Pow32();
    OrBound(x, y, 32);
  }

  lemma {:induction false} OrBound(x: nat, y: nat, k: nat)
    requires x < Pow2(k) && y < Pow2(k)
    ensures BitOr(x, y) < Pow2(k)
    decreases k
  {
    if k > 0 { OrBound(x / 2, y / 2, k - 1); }
  }

  lemma {:induction false} OrLimbs(x: Limb, y: Limb, k: nat)
    requires x < Pow2(k) && y % Pow2(k) == 0
    ensures x + y < BASE && OrLimb(x, y) == x + y == OrLimb(y, x)
  {
    hide Pow2, BitOr;
    OrIsPlus(x, y, k);
    OrFits(x, y);
  }

  lemma {:induction false} OrNothing(x: Limb)
    ensures OrLimb(0, x) == x == OrLimb(x, 0)
  {
    hide BitOr;
    OrZero(x);
  }

  /** One step of the loop of <<=, on sequences. */
  function UpStep(p: seq<Limb>, a: Limb, i: nat, k: nat, r: nat): (q: seq<Limb>)
    requires |p| == WIDTH && r < 32
    ensures |q| == WIDTH
  {
    var p1 := if i + k + 1 < WIDTH && r != 0 then p[i + k + 1 := OrLimb(p[i + k + 1], High(a, r))] else p;
    if i + k < WIDTH then p1[i + k := OrLimb(p1[i + k], Low(a, r))] else p1
  }

  /** Where the loop stands: limb i + k holds only the bits moved on from below, and nothing is above it. */
  ghost predicate UpTo(p: seq<Limb>, i: nat, k: nat, r: nat) {
    |p| == WIDTH && forall m | 0 <= m < WIDTH && m >= i + k :: p[m] < (if m == i + k then Pow2(r) else 1)
  }

  lemma {:induction false} UpStepValue(p: seq<Limb>, a: Limb, i: nat, k: nat, r: nat)
    requires UpTo(p, i, k, r) && r < 32 && i + k < WIDTH
    ensures UpTo(UpStep(p, a, i, k, r), i + 1, k, r)
    ensures Val(UpStep(p, a, i, k, r)) + (if i + k + 1 == WIDTH then High(a, r) * Pow(WIDTH) else 0) == Val(p) + a * Pow2(r) * Pow(i + k)
  {
    hide Val, OrLimb, High, Low, Pow2;
    var m := i + k;
    var hi, lo := High(a, r), Low(a, r);
    LimbUp(a, r);
    PowNought();
    var p1 := if m + 1 < WIDTH && r != 0 then p[m + 1 := OrLimb(p[m + 1], hi)] else p;
    if m + 1 < WIDTH {
      OrNothing(hi);
      assert p[m + 1] == 0;
      assert p1 == p[m + 1 := hi];
      ValUpdate(p, m + 1, hi);
    }
    OrLimbs(p1[m], lo, r);
    ValUpdate(p1, m, p1[m] + lo);
    Moved(hi, lo, a * Pow2(r), Pow(m));
  }

  lemma {:induction false} Moved(hi: nat, lo: nat, x: nat, p: nat)
    requires hi * BASE + lo == x
    ensures lo * p + hi * (BASE * p) == x * p
  {
    MulAssoc(hi, BASE, p);
    Distribute(hi * BASE, lo, p);
  }

  method ShiftLeft(pn: array<Limb>, shift: nat)
    requires pn.Length == WIDTH
    modifies pn
    ensures Val(pn[..]) == (old(Val(pn[..])) * Pow2(shift)) % Pow(WIDTH)
  {
    hide Val, Pow, UpTo, UpStep, Pow2, OrLimb;
    ghost var x := pn[..];
    var a := new Limb[WIDTH](i requires 0 <= i < WIDTH reads pn => pn[i]);
    assert a[..] == x;
    Clear(pn);
    var k, r := shift / 32, shift % 32;
    ghost var scale, over: nat := Pow2(r) * Pow(k), 0;
    UpStart(pn[..], k, r);
    Nothing(x, x);
    for i := 0 to WIDTH
      invariant a[..] == x
      invariant i + k < WIDTH ==> over == 0
      invariant UpTo(pn[..], i, k, r)
      invariant Val(pn[..]) + over * Pow(WIDTH) == Val(x[..i]) * scale
    {
      ghost var was := pn[..];
      UpWrite(pn, a[i], i, k, r);
      over := UpGrows(x, i, k, r, was, pn[..], over);
    }
    assert x[..WIDTH] == x;
    PowIsPow2(k);
    Pow2Sum(r, 32 * k);
    ValBound(pn[..]);
    DivModIs(Val(x) * scale, Pow(WIDTH), over, Val(pn[..]));
  }

  method Clear(pn: array<Limb>)
    requires pn.Length == WIDTH
    modifies pn
    ensures (forall i | 0 <= i < WIDTH :: pn[i] == 0) && Val(pn[..]) == 0
  {
    for i := 0 to WIDTH
      invariant forall k | 0 <= k < i :: pn[k] == 0
    {
      pn[i] := 0;
    }
    ValZero(pn[..]);
  }

  lemma {:induction false} UpStart(p: seq<Limb>, k: nat, r: nat)
    requires |p| == WIDTH && forall i | 0 <= i < WIDTH :: p[i] == 0
    ensures UpTo(p, 0, k, r)
  {
  }

  /** The body of the loop of <<=. */
  method UpWrite(pn: array<Limb>, ai: Limb, i: nat, k: nat, r: nat)
    requires pn.Length == WIDTH && r < 32
    modifies pn
    ensures pn[..] == UpStep(old(pn[..]), ai, i, k, r)
  {
    hide OrLimb, High, Low;
    if i + k + 1 < WIDTH && r != 0 {
      pn[i + k + 1] := OrLimb(pn[i + k + 1], High(ai, r));
    }
    if i + k < WIDTH {
      pn[i + k] := OrLimb(pn[i + k], Low(ai, r));
    }
  }

  lemma {:induction false} UpGrows(x: seq<Limb>, i: nat, k: nat, r: nat, was: seq<Limb>, now: seq<Limb>, over: nat) returns (over': nat)
    requires |x| == WIDTH && i < WIDTH && r < 32 && UpTo(was, i, k, r) && now == UpStep(was, x[i], i, k, r)
    requires i + k < WIDTH ==> over == 0
    requires Val(was) + over * Pow(WIDTH) == Val(x[..i]) * (Pow2(r) * Pow(k))
    ensures UpTo(now, i + 1, k, r)
    ensures i + 1 + k < WIDTH ==> over' == 0
    ensures Val(now) + over' * Pow(WIDTH) == Val(x[..i + 1]) * (Pow2(r) * Pow(k))
  {
    hide Val, Pow, Pow2, UpTo, High, UpStep;
    ValNext(x, i);
    var s := Pow2(r);
    UpProduct(Val(x[..i]), x[i], Pow(i), s, Pow(k));
    PowSum(i, k);
    if i + k < WIDTH {
      UpStepValue(was, x[i], i, k, r);
      over' := if i + k + 1 == WIDTH then High(x[i], r) else 0;
    } else {
      UpBeyond(was, x[i], i, k, r);
      var j := i + k - WIDTH;
      PowSum(j, WIDTH);
      over' := over + x[i] * s * Pow(j);
      LostMore(over, x[i] * s, Pow(j), Pow(WIDTH));
    }
  }

  lemma {:induction false} UpProduct(v: int, x: int, pi: int, s: int, pk: int)
    ensures (v + x * pi) * (s * pk) == v * (s * pk) + x * s * (pi * pk)
  {
    Distribute(v, x * pi, s * pk);
    Scaled(x, pi, s, pk);
  }

  lemma {:induction false} LostMore(over: int, xs: int, pj: int, m: int)
    ensures (over + xs * pj) * m == over * m + xs * (pj * m)
  {
    Distribute(over, xs * pj, m);
    MulAssoc(xs, pj, m);
  }

  lemma {:induction false} Scaled(a: int, p: int, s: int, q: int)
    ensures a * p * (s * q) == a * s * (p * q)
  {
    Regroup(a, p, s, q);
    Regroup(a, s, p, q);
    MulAssoc(a, p, q);
    assert a * q * (p * s) == a * q * (s * p);
  }

  lemma {:induction false} UpBeyond(p: seq<Limb>, a: Limb, i: nat, k: nat, r: nat)
    requires UpTo(p, i, k, r) && r < 32 && i + k >= WIDTH
    ensures UpStep(p, a, i, k, r) == p && UpTo(p, i + 1, k, r)
  {
  }

  // ----- to the right -----

  /** A limb shifted right by r bits. */
  function Down(a: Limb, r: nat): Limb {
    QuotientLe(a, Pow2(r));
    a / Pow2(r)
  }

  function DownStep(p: seq<Limb>, a: Limb, i: nat, k: nat, r: nat): (q: seq<Limb>)
    requires |p| == WIDTH && r < 32 && i < WIDTH
    ensures |q| == WIDTH
  {
    var p1 := if i - k - 1 >= 0 && r != 0 then p[i - k - 1 := OrLimb(p[i - k - 1], Low(a, 32 - r))] else p;
    if i - k >= 0 then p1[i - k := OrLimb(p1[i - k], Down(a, r))] else p1
  }

  /** The last limb written has room for the bits of the next one, and those above it are empty. */
  ghost predicate DownTo(p: seq<Limb>, i: nat, k: nat, r: nat) {
    |p| == WIDTH && r <= 32 && forall m | 0 <= m < WIDTH && m >= i - k - 1 :: p[m] < (if m == i - k - 1 then Pow2(32 - r) else 1)
  }

  /** The bits that leave a limb to the right. */
  function Rest(a: Limb, r: nat): nat {
    a % Pow2(r)
  }

  lemma {:induction false} LimbDown(a: Limb, r: nat)
    requires r < 32
    ensures a == Down(a, r) * Pow2(r) + Rest(a, r) && Rest(a, r) < Pow2(r) && Down(a, r) < Pow2(32 - r)
    ensures Low(a, 32 - r) == Rest(a, r) * Pow2(32 - r) && Low(a, 32 - r) % Pow2(32 - r) == 0
    ensures Pow2(r) * Pow2(32 - r) == BASE
  {
    hide Pow2;
    Pow2Sum(r, 32 - r);
    Pow32();
    LimbSplit(a, Pow2(32 - r), Pow2(r));
    LimbRest(a, Pow2(r), Pow2(32 - r));
  }

  lemma {:induction false} LimbRest(a: nat, s: nat, t: nat)
    requires s >= 1 && t >= 1 && s * t == BASE && a < BASE
    ensures (a * t) % BASE == (a % s) * t
  {
    var hi, low := a / s, a % s;
    DivMod(a, s);
    Distribute(hi * s, low, t);
    MulAssoc(hi, s, t);
    MulLe(low + 1, s, t);
    Distribute(low, 1, t);
    DivModIs(a * t, BASE, hi, low * t);
  }

  lemma {:induction false} DownStepValue(p: seq<Limb>, a: Limb, i: nat, k: nat, r: nat)
    requires DownTo(p, i, k, r) && r < 32 && k <= i < WIDTH
    ensures DownTo(DownStep(p, a, i, k, r), i + 1, k, r)
    ensures Val(DownStep(p, a, i, k, r)) ==
            Val(p) + Down(a, r) * Pow(i - k) + if i > k then Rest(a, r) * Pow2(32 - r) * Pow(i - k - 1) else 0
  {
    hide Val, OrLimb, Down, Low, Rest, Pow2;
    var m := i - k;
    LimbDown(a, r);
    PowNought();
    var p1 := if m >= 1 && r != 0 then p[m - 1 := OrLimb(p[m - 1], Low(a, 32 - r))] else p;
    if m >= 1 {
      if r == 0 { assert Rest(a, r) == 0; }
      OrLimbs(p[m - 1], Low(a, 32 - r), 32 - r);
      assert p1 == p[m - 1 := p[m - 1] + Low(a, 32 - r)];
      ValUpdate(p, m - 1, p[m - 1] + Low(a, 32 - r));
    }
    assert p1[m] == 0;
    OrNothing(Down(a, r));
    ValUpdate(p1, m, Down(a, r));
  }

  lemma {:induction false} DownSkips(p: seq<Limb>, a: Limb, i: nat, k: nat, r: nat)
    requires DownTo(p, i, k, r) && r < 32 && i < k && i < WIDTH
    ensures DownStep(p, a, i, k, r) == p && DownTo(p, i + 1, k, r)
  {
  }

  /** What has been dropped on the right so far. */
  ghost predicate Dropped(rem: nat, i: nat, k: nat, r: nat) {
    if i <= k then rem < Pow(i) else rem < Pow2(r) * Pow(k)
  }

  lemma {:induction false} DownGrows(x: seq<Limb>, i: nat, k: nat, r: nat, was: seq<Limb>, now: seq<Limb>, rem: nat) returns (rem': nat)
    requires |x| == WIDTH && i < WIDTH && r < 32 && DownTo(was, i, k, r) && now == DownStep(was, x[i], i, k, r)
    requires Dropped(rem, i, k, r) && Val(x[..i]) == Val(was) * (Pow2(r) * Pow(k)) + rem && (i <= k ==> Val(was) == 0)
    ensures DownTo(now, i + 1, k, r)
    ensures Dropped(rem', i + 1, k, r) && Val(x[..i + 1]) == Val(now) * (Pow2(r) * Pow(k)) + rem' && (i + 1 <= k ==> Val(now) == 0)
  {
    hide Val, Pow2, DownTo, Rest, Down, Pow;
    ValNext(x, i);
    if i < k {
      DownSkips(was, x[i], i, k, r);
      rem' := rem + x[i] * Pow(i);
      ValBound(x[..i + 1]);
    } else {
      DownStepValue(was, x[i], i, k, r);
      LimbDown(x[i], r);
      var s, pk, d, e := Pow2(r), Pow(k), Down(x[i], r), Rest(x[i], r);
      PowSum(i - k, k);
      if i == k {
        PowZero();
        rem' := rem + e * pk;
        DownFirst(Val(was), d, s, pk, e, rem, x[i]);
      } else {
        PowSum(1, i - k - 1);
        PowOne();
        rem' := rem;
        DownMore(Val(was), d, s, Pow2(32 - r), pk, Pow(i - k - 1), e, x[i]);
      }
    }
  }

  lemma {:induction false} PowZero()
    ensures Pow(0) == 1
  {
  }

  lemma {:induction false} PowOne()
    ensures Pow(1) == BASE
  {
    assert Pow(0) == 1;
  }

  /** The first limb that is kept: its lowest bits are dropped. */
  lemma {:induction false} DownFirst(v: nat, d: nat, s: nat, pk: nat, e: nat, rem: nat, x: nat)
    requires x == d * s + e && e < s && rem < pk
    ensures (v + d * 1) * (s * pk) + (rem + e * pk) == v * (s * pk) + rem + x * pk
    ensures rem + e * pk < s * pk
  {
    Distribute(v, d, s * pk);
    Distribute(d * s, e, pk);
    MulAssoc(d, s, pk);
    MulLe(e + 1, s, pk);
    Distribute(e, 1, pk);
  }

  /** A later limb: its lowest bits move to the limb below. */
  lemma {:induction false} DownMore(v: nat, d: nat, s: nat, t: nat, pk: nat, pm: nat, e: nat, x: nat)
    requires x == d * s + e && s * t == BASE
    ensures (v + d * (BASE * pm) + e * t * pm) * (s * pk) == v * (s * pk) + x * ((BASE * pm) * pk)
  {
    var p, u := BASE * pm, s * pk;
    Distribute(v + d * p, e * t * pm, u);
    Distribute(v, d * p, u);
    assert d * p * u == d * s * (p * pk) by { Scaled(d, p, s, pk); }
    assert e * t * pm * u == e * (p * pk) by {
      MulAssoc(e, t, pm);
      Scaled(e * t, pm, s, pk);
      MulAssoc(e, t, s);
      assert e * t * s == e * BASE;
      MulAssoc(e * BASE, pm, pk);
      MulAssoc(e, BASE, pm);
      MulAssoc(e, p, pk);
    }
    Distribute(d * s, e, p * pk);
  }

  method ShiftRight(pn: array<Limb>, shift: nat)
    requires pn.Length == WIDTH
    modifies pn
    ensures Val(pn[..]) == old(Val(pn[..])) / Pow2(shift)
  {
    hide Val, Pow, DownTo, DownStep, Pow2, OrLimb, Dropped;
    ghost var x := pn[..];
    var a := new Limb[WIDTH](i requires 0 <= i < WIDTH reads pn => pn[i]);
    assert a[..] == x;
    Clear(pn);
    var k, r := shift / 32, shift % 32;
    ghost var rem: nat := 0;
    DownStart(pn[..], k, r);
    Nothing(x, x);
    for i := 0 to WIDTH
      invariant a[..] == x
      invariant DownTo(pn[..], i, k, r) && Dropped(rem, i, k, r) && (i <= k ==> Val(pn[..]) == 0)
      invariant Val(x[..i]) == Val(pn[..]) * (Pow2(r) * Pow(k)) + rem
    {
      ghost var was := pn[..];
      DownWrite(pn, a[i], i, k, r);
      rem := DownGrows(x, i, k, r, was, pn[..], rem);
    }
    assert x[..WIDTH] == x;
    DroppedFits(rem, WIDTH, k, r);
    PowIsPow2(k);
    Pow2Sum(r, 32 * k);
    DivModIs(Val(x), Pow2(r) * Pow(k), Val(pn[..]), rem);
  }

  lemma {:induction false} DownStart(p: seq<Limb>, k: nat, r: nat)
    requires |p| == WIDTH && r < 32 && forall i | 0 <= i < WIDTH :: p[i] == 0
    ensures DownTo(p, 0, k, r) && Dropped(0, 0, k, r)
  {
  }

  lemma {:induction false} DroppedFits(rem: nat, i: nat, k: nat, r: nat)
    requires Dropped(rem, i, k, r)
    ensures rem < Pow2(r) * Pow(k)
  {
    if i <= k {
      PowSum(i, k - i);
      MulLe(1, Pow(k - i), Pow(i));
      MulLe(1, Pow2(r), Pow(k));
    }
  }

  /** The body of the loop of >>=. */
  method DownWrite(pn: array<Limb>, ai: Limb, i: nat, k: nat, r: nat)
    requires pn.Length == WIDTH && r < 32 && i < WIDTH
    modifies pn
    ensures pn[..] == DownStep(old(pn[..]), ai, i, k, r)
  {
    hide OrLimb, Down, Low;
    if i - k - 1 >= 0 && r != 0 {
      pn[i - k - 1] := OrLimb(pn[i - k - 1], Low(ai, 32 - r));
    }
    if i - k >= 0 {
      pn[i - k] := OrLimb(pn[i - k], Down(ai, r));
    }
  }
}
