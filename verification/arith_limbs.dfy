/** 256-bit arithmetic on arrays of eight 32-bit limbs, changed in place with 64-bit intermediates. */
module ArithLimbs {
  import opened Arithmetic
  import opened ArithValue

  const WIDTH: nat := 8

  const TWO64: nat := 0x1_0000_0000_0000_0000

  // ----- adding -----

  /** pn += b, mod 2^256; the operands may be the same object. */
  method Add(pn: array<Limb>, b: array<Limb>)
    requires pn.Length == b.Length == WIDTH
    modifies pn
    ensures Val(pn[..]) == (old(Val(pn[..])) + old(Val(b[..]))) % Pow(WIDTH)
  {
    hide Val, Pow;
    ghost var x, y := pn[..], b[..];
    var carry: nat := 0;
    Nothing(x, y);
    for i := 0 to WIDTH
      invariant carry <= 1
      invariant forall k | i <= k < WIDTH :: pn[k] == x[k] && b[k] == y[k]
      invariant Val(pn[..i]) + carry * Pow(i) == Val(x[..i]) + Val(y[..i])
    {
      var n := carry + pn[i] + b[i];
      assert n < TWO64;
      AddStep(pn[..i], x, y, i, carry, n);
      ghost var front := pn[..i];
      pn[i] := n % BASE;
      carry := n / BASE;
      assert pn[..i + 1] == front + [n % BASE];
    }
    assert pn[..WIDTH] == pn[..] && x[..WIDTH] == x && y[..WIDTH] == y;
    ValBound(pn[..]);
    DivModIs(Val(x) + Val(y), Pow(WIDTH), carry, Val(pn[..]));
  }

  lemma {:induction false} Nothing(x: seq<Limb>, y: seq<Limb>)
    ensures Val([]) == 0 && Val(x[..0]) == 0 && Val(y[..0]) == 0
  {
  }

  lemma {:induction false} AddStep(front: seq<Limb>, x: seq<Limb>, y: seq<Limb>, i: nat, carry: nat, n: nat)
    requires i < |x| && i < |y| && |front| == i && n == carry + x[i] + y[i]
    requires Val(front) + carry * Pow(i) == Val(x[..i]) + Val(y[..i])
    ensures Val(front + [n % BASE]) + (n / BASE) * Pow(i + 1) == Val(x[..i + 1]) + Val(y[..i + 1])
  {
    hide Val;
    ValNext(x, i);
    ValNext(y, i);
    Appended(front, n % BASE);
    var p := Pow(i);
    Split(n, p);
    Distribute(carry + x[i], y[i], p);
    Distribute(carry, x[i], p);
  }

  lemma {:induction false} Appended(front: seq<Limb>, l: Limb)
    ensures Val(front + [l]) == Val(front) + l * Pow(|front|)
  {
    ValNext(front + [l], |front|);
    assert (front + [l])[..|front|] == front && (front + [l])[..|front| + 1] == front + [l];
  }

  lemma {:induction false} Split(n: nat, p: nat)
    ensures (n % BASE) * p + (n / BASE) * (BASE * p) == n * p
  {
    DivMod(n, BASE);
    MulAssoc(n / BASE, BASE, p);
    Distribute((n / BASE) * BASE, n % BASE, p);
  }

  // ----- complement, increment, negation, subtraction -----

  method Complement(a: array<Limb>) returns (r: array<Limb>)
    requires a.Length == WIDTH
    ensures fresh(r) && r.Length == WIDTH && Val(r[..]) == Pow(WIDTH) - 1 - Val(a[..])
  {
    r := new Limb[WIDTH](_ => 0);
    for i := 0 to WIDTH
      invariant forall k | 0 <= k < i :: r[k] == BASE - 1 - a[k]
    {
      r[i] := BASE - 1 - a[i];
    }
    Complemented(a[..], r[..]);
  }

  lemma {:induction false} Complemented(x: seq<Limb>, y: seq<Limb>)
    requires |x| == |y| && forall k | 0 <= k < |x| :: y[k] == BASE - 1 - x[k]
    ensures Val(x) + Val(y) + 1 == Pow(|x|)
    decreases |x|
  {
    if x != [] {
      var n := |x| - 1;
      Complemented(x[..n], y[..n]);
      Distribute(x[n], y[n], Pow(n));
      Distribute(BASE - 1, 1, Pow(n));
    }
  }

  /** ++pn: limbs that wrap to zero pass the carry on. */
  method Increment(pn: array<Limb>)
    requires pn.Length == WIDTH
    modifies pn
    ensures Val(pn[..]) == (old(Val(pn[..])) + 1) % Pow(WIDTH)
  {
    hide Val, Pow;
    ghost var x := pn[..];
    var i := 0;
    pn[0] := (pn[0] + 1) % BASE;
    while pn[i] == 0 && i < WIDTH - 1
      invariant 0 <= i < WIDTH && pn[i] == (x[i] + 1) % BASE
      invariant forall k | 0 <= k < i :: pn[k] == 0 && x[k] == BASE - 1
      invariant forall k | i < k < WIDTH :: pn[k] == x[k]
    {
      i := i + 1;
      pn[i] := (pn[i] + 1) % BASE;
    }
    Incremented(x, pn[..], i);
    ValBound(x);
    ValBound(pn[..]);
    if pn[i] == 0 { DivModIs(Val(x) + 1, Pow(WIDTH), 1, Val(pn[..])); } else { DivModIs(Val(x) + 1, Pow(WIDTH), 0, Val(pn[..])); }
  }

  /** All ones below a limb, and zeros after the carry. */
  lemma {:induction false} OnesThenZeros(x: seq<Limb>, y: seq<Limb>)
    requires |x| == |y| && forall k | 0 <= k < |x| :: y[k] == 0 && x[k] == BASE - 1
    ensures Val(y) == 0 && Val(x) + 1 == Pow(|x|)
  {
    ValZero(y);
    Complemented(y, x);
  }

  lemma {:induction false} Incremented(x: seq<Limb>, y: seq<Limb>, i: nat)
    requires |x| == |y| == WIDTH && i < WIDTH && y[i] == (x[i] + 1) % BASE && (y[i] == 0 ==> i == WIDTH - 1)
    requires forall k | 0 <= k < i :: y[k] == 0 && x[k] == BASE - 1
    requires forall k | i < k < WIDTH :: y[k] == x[k]
    ensures Val(x) + 1 == Val(y) + if y[i] == 0 then Pow(WIDTH) else 0
  {
    hide Val, Pow;
    ValSplit(x, i + 1);
    ValSplit(y, i + 1);
    ValNext(x, i);
    ValNext(y, i);
    OnesThenZeros(x[..i], y[..i]);
    assert x[i + 1..] == y[i + 1..];
    var rest := Val(x[i + 1..]) * Pow(i + 1);
    if y[i] == 0 {
      Nothing(x, x);
      assert x[i + 1..] == [] && rest == 0;
      TopIncremented(x, y);
    } else {
      LimbIncremented(Val(x), Val(y), Val(x[..i]), x[i], y[i], Pow(i), rest);
    }
  }

  lemma {:induction false} LimbIncremented(vx: int, vy: int, low: int, xi: int, yi: int, p: int, rest: int)
    requires vx == low + xi * p + rest && vy == yi * p + rest && low + 1 == p && yi == xi + 1
    ensures vx + 1 == vy
  {
    Distribute(xi, 1, p);
  }

  lemma {:induction false} TopIncremented(x: seq<Limb>, y: seq<Limb>)
    requires |x| == |y| == WIDTH && x[WIDTH - 1] == BASE - 1 && y[WIDTH - 1] == 0
    ensures x[WIDTH - 1] * Pow(WIDTH - 1) + Pow(WIDTH - 1) == Pow(WIDTH) && y[WIDTH - 1] * Pow(WIDTH - 1) == 0
  {
    Distribute(BASE - 1, 1, Pow(WIDTH - 1));
  }

  method Negate(b: array<Limb>) returns (r: array<Limb>)
    requires b.Length == WIDTH
    ensures fresh(r) && r.Length == WIDTH && Val(r[..]) == (Pow(WIDTH) - Val(b[..])) % Pow(WIDTH)
  {
    r := Complement(b);
    Increment(r);
  }

  /** pn -= b, mod 2^256. */
  method Subtract(pn: array<Limb>, b: array<Limb>)
    requires pn.Length == b.Length == WIDTH
    modifies pn
    ensures Val(pn[..]) == (old(Val(pn[..])) - old(Val(b[..]))) % Pow(WIDTH)
    ensures old(Val(pn[..])) >= old(Val(b[..])) ==> Val(pn[..]) == old(Val(pn[..])) - old(Val(b[..]))
  {
    hide Val, Pow;
    ghost var x, y := pn[..], b[..];
    var minus := Negate(b);
    ValBound(x);
    ValBound(y);
    Add(pn, minus);
    Wrapped(Val(x), Val(y), Pow(WIDTH));
  }

  lemma {:induction false} Wrapped(x: nat, y: nat, m: nat)
    requires x < m && y < m
    ensures (x + (m - y) % m) % m == (x - y) % m
    ensures x >= y ==> (x - y) % m == x - y
  {
    if y == 0 {
      DivModIs(m, m, 1, 0);
    } else {
      DivModIs(m - y, m, 0, m - y);
      if x >= y { DivModIs(x + (m - y), m, 1, x - y); } else { DivModIs(x + (m - y), m, 0, x + m - y); }
    }
    if x >= y { DivModIs(x - y, m, 0, x - y); } else { assert (x - y) % m == x - y + m by { NegativeMod(x - y, m); } }
  }

  lemma {:induction false} NegativeMod(z: int, m: nat)
    requires 0 - m < z < 0
    ensures z % m == z + m
  {
    var q, r := z / m, z % m;
    assert z == q * m + r && 0 <= r < m;
    if q <= -2 { MulLe(q, -2, m); } else if q >= 0 { MulLe(0, q, m); }
    assert q == -1;
  }

  // ----- multiplying -----

  /** pn *= b32, mod 2^256. */
  method MultiplySmall(pn: array<Limb>, b32: Limb)
    requires pn.Length == WIDTH
    modifies pn
    ensures Val(pn[..]) == (old(Val(pn[..])) * b32) % Pow(WIDTH)
  {
    hide Val, Pow;
    ghost var x := pn[..];
    var carry: nat := 0;
    Nothing(x, x);
    for i := 0 to WIDTH
      invariant carry < BASE
      invariant forall k | i <= k < WIDTH :: pn[k] == x[k]
      invariant Val(pn[..i]) + carry * Pow(i) == Val(x[..i]) * b32
    {
      LimbProduct(b32, pn[i]);
      var n := carry + b32 * pn[i];
      assert n < TWO64;
      MulStep(pn[..i], x, b32, i, carry, n);
      ghost var front := pn[..i];
      pn[i] := n % BASE;
      carry := n / BASE;
      assert pn[..i + 1] == front + [n % BASE];
    }
    assert pn[..WIDTH] == pn[..] && x[..WIDTH] == x;
    ValBound(pn[..]);
    DivModIs(Val(x) * b32, Pow(WIDTH), carry, Val(pn[..]));
  }

  lemma {:induction false} LimbProduct(a: Limb, b: Limb)
    ensures 0 <= a * b <= (BASE - 1) * (BASE - 1)
  {
    Product(a, b, BASE - 1);
  }

  lemma {:induction false} Product(a: nat, b: nat, m: nat)
    requires a <= m && b <= m
    ensures 0 <= a * b <= m * m
  {
    MulLe(a, m, b);
    MulLe(b, m, m);
  }

  lemma {:induction false} MulStep(front: seq<Limb>, x: seq<Limb>, b32: Limb, i: nat, carry: nat, n: nat)
    requires i < |x| && |front| == i && n == carry + b32 * x[i]
    requires Val(front) + carry * Pow(i) == Val(x[..i]) * b32
    ensures Val(front + [n % BASE]) + (n / BASE) * Pow(i + 1) == Val(x[..i + 1]) * b32
  {
    hide Val;
    ValNext(x, i);
    Appended(front, n % BASE);
    var p := Pow(i);
    Split(n, p);
    Distribute(carry, b32 * x[i], p);
    Distribute(Val(x[..i]), x[i] * p, b32);
    MulAssoc(b32, x[i], p);
  }

  predicate AllZero(s: seq<Limb>) {
    forall k | 0 <= k < |s| :: s[k] == 0
  }

  /** pn *= b, mod 2^256. The factor is cleared first when it is the same object, and the product is then zero. */
  method Multiply(pn: array<Limb>, b: array<Limb>)
    requires pn.Length == b.Length == WIDTH
    modifies pn
    ensures pn != b ==> Val(pn[..]) == (old(Val(pn[..])) * Val(b[..])) % Pow(WIDTH)
    ensures pn == b ==> Val(pn[..]) == 0
  {
    hide Val, Pow;
    ghost var x, y := pn[..], b[..];
    var a := new Limb[WIDTH](i requires 0 <= i < WIDTH reads pn => pn[i]);
    assert a[..] == x;
    for i := 0 to WIDTH
      invariant a[..] == x && forall k | 0 <= k < i :: pn[k] == 0
    {
      pn[i] := 0;
    }
    ValZero(pn[..]);
    Nothing(x, x);
    ghost var over: nat := 0;
    for j := 0 to WIDTH
      invariant a[..] == x
      invariant pn == b ==> AllZero(pn[..])
      invariant pn != b ==> Val(pn[..]) + over * Pow(WIDTH) == Val(x[..j]) * Val(y)
    {
      ghost var was := pn[..];
      ghost var carried := AddRow(pn, b, a[j], j);
      if pn != b { over := RowDone(x, y, j, Val(was), Val(pn[..]), carried, over); }
    }
    if pn == b {
      ValZero(pn[..]);
    } else {
      assert x[..WIDTH] == x;
      ValBound(pn[..]);
      DivModIs(Val(x) * Val(y), Pow(WIDTH), over, Val(pn[..]));
    }
  }

  /** The inner loop: add the product of one limb, shifted by j limbs. */
  method AddRow(pn: array<Limb>, b: array<Limb>, aj: Limb, j: nat) returns (ghost carried: nat)
    requires pn.Length == b.Length == WIDTH && j < WIDTH
    requires pn == b ==> AllZero(pn[..])
    modifies pn
    ensures pn == b ==> AllZero(pn[..])
    ensures pn != b ==> Val(pn[..]) + carried * Pow(WIDTH) == old(Val(pn[..])) + aj * Pow(j) * Val(b[..WIDTH - j])
  {
    hide Val, Pow;
    ghost var x, y := pn[..], b[..];
    var carry: nat := 0;
    Nothing(y, y);
    ghost var scale := aj * Pow(j);
    var i := 0;
    while i + j < WIDTH
      invariant 0 <= i <= WIDTH - j && carry < BASE
      invariant forall k | i + j <= k < WIDTH :: pn[k] == x[k]
      invariant b[..] == y && (pn == b ==> carry == 0)
      invariant Val(pn[..i + j]) + carry * Pow(i + j) == Val(x[..i + j]) + scale * Val(y[..i])
    {
      LimbProduct(aj, b[i]);
      if pn == b { assert b[i] == y[i] == 0 && aj * b[i] == 0; }
      var n := carry + pn[i + j] + aj * b[i];
      assert n < TWO64;
      RowStep(pn[..i + j], x, y, aj, i, j, carry, n);
      ghost var front := pn[..i + j];
      pn[i + j] := n % BASE;
      carry := n / BASE;
      assert pn[..i + j + 1] == front + [n % BASE];
      i := i + 1;
    }
    assert pn[..WIDTH] == pn[..] && x[..WIDTH] == x;
    carried := carry;
  }

  lemma {:induction false} RowStep(front: seq<Limb>, x: seq<Limb>, y: seq<Limb>, aj: Limb, i: nat, j: nat, carry: nat, n: nat)
    requires i + j < |x| && i < |y| && |front| == i + j && n == carry + x[i + j] + aj * y[i]
    requires Val(front) + carry * Pow(i + j) == Val(x[..i + j]) + aj * Pow(j) * Val(y[..i])
    ensures Val(front + [n % BASE]) + (n / BASE) * Pow(i + j + 1) == Val(x[..i + j + 1]) + aj * Pow(j) * Val(y[..i + 1])
  {
    hide Val;
    ValNext(x, i + j);
    ValNext(y, i);
    Appended(front, n % BASE);
    var p, scale := Pow(i + j), aj * Pow(j);
    Split(n, p);
    Distribute(carry + x[i + j], aj * y[i], p);
    Distribute(carry, x[i + j], p);
    PowSum(i, j);
    Regroup(aj, y[i], Pow(i), Pow(j));
    DistributeLeft(scale, Val(y[..i]), y[i] * Pow(i));
  }

  lemma {:induction false} DistributeLeft(c: int, a: int, b: int)
    ensures c * (a + b) == c * a + c * b
  {
  }

  lemma {:induction false} Regroup(a: int, b: int, p: int, q: int)
    ensures a * b * (p * q) == a * q * (b * p)
  {
    MulAssoc(a * b, p, q);
    assert a * b * p == a * (b * p);
    MulAssoc(a, b * p, q);
    MulAssoc(a, q, b * p);
  }

  /** After a row: the product of the limbs so far, and what has been lost beyond 2^256. */
  lemma {:induction false} RowDone(x: seq<Limb>, y: seq<Limb>, j: nat, was: nat, now: nat, carried: nat, over: nat) returns (over': nat)
    requires |x| == |y| == WIDTH && j < WIDTH
    requires was + over * Pow(WIDTH) == Val(x[..j]) * Val(y)
    requires now + carried * Pow(WIDTH) == was + x[j] * Pow(j) * Val(y[..WIDTH - j])
    ensures now + over' * Pow(WIDTH) == Val(x[..j + 1]) * Val(y)
  {
    hide Val, Pow;
    var m, high, scale := Pow(WIDTH), Val(y[WIDTH - j..]), x[j] * Pow(j);
    ValNext(x, j);
    ValSplit(y, WIDTH - j);
    PowSum(WIDTH - j, j);
    Distribute(Val(x[..j]), scale, Val(y));
    DistributeLeft(scale, Val(y[..WIDTH - j]), high * Pow(WIDTH - j));
    Regroup(x[j], high, Pow(WIDTH - j), Pow(j));
    over' := over + carried + x[j] * high;
    Distribute(over + carried, x[j] * high, m);
    Distribute(over, carried, m);
  }
}
