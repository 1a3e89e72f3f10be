/** Numbers as little-endian sequences of 32-bit limbs. */
module ArithValue {
  import opened Arithmetic

  const BASE: nat := 0x1_0000_0000

  type Limb = x: nat | x < BASE

  /** BASE to the power of i. */
  function Pow(i: nat): (p: nat)
    ensures p >= 1
  {
    if i == 0 then 1 else BASE * Pow(i - 1)
  }

  function Val(s: seq<Limb>): nat {
    if s == [] then 0 else Val(s[..|s| - 1]) + s[|s| - 1] * Pow(|s| - 1)
  }

  lemma {:induction false} ValNext(s: seq<Limb>, i: nat)
    requires i < |s|
    ensures Val(s[..i + 1]) == Val(s[..i]) + s[i] * Pow(i)
  {
    assert s[..i + 1][..i] == s[..i];
  }

  lemma {:induction false} ValBound(s: seq<Limb>)
    ensures Val(s) < Pow(|s|)
    decreases |s|
  {
    if s != [] {
      var n := |s| - 1;
      ValBound(s[..n]);
      MulLe(s[n], BASE - 1, Pow(n));
    }
  }

  lemma {:induction false} ValZero(s: seq<Limb>)
    requires forall i | 0 <= i < |s| :: s[i] == 0
    ensures Val(s) == 0
    decreases |s|
  {
    if s != [] { ValZero(s[..|s| - 1]); }
  }

  lemma {:induction false} PowSum(i: nat, j: nat)
    ensures Pow(i + j) == Pow(i) * Pow(j)
    decreases j
  {
    if j > 0 {
      PowSum(i, j - 1);
      MulAssoc(Pow(i), BASE, Pow(j - 1));
    }
  }

  lemma {:induction false} Pow32()
    ensures Pow2(32) == BASE
  {
    assert Pow2(8) == 256;
    Pow2Sum(8, 8);
    Pow2Sum(16, 16);
  }

  lemma {:induction false} PowNought()
    ensures Pow2(0) == 1
  {
  }

  lemma {:induction false} QuotientLe(a: nat, b: nat)
    requires b >= 1
    ensures 0 <= a / b <= a
  {
    DivMod(a, b);
    if a / b > a { MulLe(1, b, a / b); }
  }

  lemma {:induction false} PowIsPow2(i: nat)
    ensures Pow(i) == Pow2(32 * i)
    decreases i
  {
    if i > 0 {
      PowIsPow2(i - 1);
      Pow32();
      Pow2Sum(32, 32 * (i - 1));
    }
  }

  /** The value of a sequence split in two. */
  lemma {:induction false} ValSplit(s: seq<Limb>, i: nat)
    requires i <= |s|
    ensures Val(s) == Val(s[..i]) + Val(s[i..]) * Pow(i)
    decreases |s| - i
  {
    if i == |s| {
      assert s[..i] == s;
    } else {
      var n := |s| - 1;
      ValSplit(s[..n], i);
      assert s[..n][..i] == s[..i] && s[..n][i..] == s[i..][..n - i];
      assert Val(s[i..]) == Val(s[i..n]) + s[n] * Pow(n - i) by { assert s[i..][..n - i] == s[i..n]; }
      PowSum(n - i, i);
      MulAssoc(s[n], Pow(n - i), Pow(i));
      Distribute(Val(s[i..n]), s[n] * Pow(n - i), Pow(i));
    }
  }

  // ----- bitwise or -----

  function BitOr(a: nat, b: nat): nat
    decreases a + b
  {
    if a == 0 && b == 0 then 0 else 2 * BitOr(a / 2, b / 2) + if a % 2 == 1 || b % 2 == 1 then 1 else 0
  }

  /** Or-ing numbers without a common bit is adding them. */
  lemma {:induction false} OrIsPlus(a: nat, b: nat, k: nat)
    requires a < Pow2(k) && b % Pow2(k) == 0
    ensures BitOr(a, b) == a + b && BitOr(b, a) == a + b
    decreases k
  {
    if k == 0 {
      OrZero(b);
    } else {
      var p := Pow2(k - 1);
      HalfMultiple(b, p);
      OrIsPlus(a / 2, b / 2, k - 1);
    }
  }

  lemma {:induction false} HalfMultiple(b: nat, p: nat)
    requires p >= 1 && b % (2 * p) == 0
    ensures b % 2 == 0 && (b / 2) % p == 0
  {
    var q := b / (2 * p);
    DivMod(b, 2 * p);
    assert b == q * (2 * p) + 0;
    MulAssoc(q, 2, p);
    DivModIs(b, 2, q * p, 0);
    DivModIs(b / 2, p, q, 0);
  }

  lemma {:induction false} OrZero(b: nat)
    ensures BitOr(0, b) == b && BitOr(b, 0) == b
    decreases b
  {
    if b > 0 { OrZero(b / 2); }
  }
}
