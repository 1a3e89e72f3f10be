/** What several parts of the project share. */
module Wrappers {
  datatype Option<+T> = None | Some(value: T) {
    predicate IsFailure() {
      None?
    }

    function PropagateFailure<U>(): Option<U>
      requires None?
    {
      None
    }

    function Extract(): T
      requires Some?
    {
      value
    }
  }
}

/** Powers of two and the facts of multiplication and division the solver is not left to find. */
module Arithmetic {

  function Pow2(k: nat): (p: nat)
    ensures p >= 1
  {
    if k == 0 then 1 else 2 * Pow2(k - 1)
  }

  lemma {:induction false} Pow2Sum(i: nat, j: nat)
    ensures Pow2(i + j) == Pow2(i) * Pow2(j)
    decreases j
  {
    if j > 0 {
      Pow2Sum(i, j - 1);
      MulAssoc(Pow2(i), 2, Pow2(j - 1));
    }
  }

  lemma {:induction false} MulAssoc(a: int, b: int, c: int)
    ensures a * (b * c) == (a * b) * c && a * (b * c) == b * (a * c)
  {
  }

  lemma {:induction false} MulLe(a: int, b: int, c: nat)
    requires a <= b
    ensures a * c <= b * c
  {
  }

  lemma {:induction false} Distribute(a: int, b: int, c: int)
    ensures (a + b) * c == a * c + b * c
  {
  }

  lemma {:induction false} DivModIs(x: nat, m: nat, q: nat, r: nat)
    requires m >= 1 && x == q * m + r && r < m
    ensures x / m == q && x % m == r
  {
    var d, e := x / m, x % m;
    assert x == d * m + e && e < m;
    if d < q { MulLe(d + 1, q, m); Distribute(d, 1, m); } else if d > q { MulLe(q + 1, d, m); Distribute(q, 1, m); }
  }

  lemma {:induction false} DivMod(x: nat, m: nat)
    requires m >= 1
    ensures x == (x / m) * m + x % m && x % m < m
  {
  }
}

/** The single bits of a byte. */
module ByteBits {

  function Mask(k: nat): bv8
    requires k < 8
  {
    (1 as bv8) << k
  }

  /** The masks are single bits, one for each position. */
  lemma {:induction false} Masks(k: nat)
    requires k < 8
    ensures Mask(k) == [1 as bv8, 2, 4, 8, 16, 32, 64, 128][k]
  {
    if k == 0 {} else if k == 1 {} else if k == 2 {} else if k == 3 {} else if k == 4 {} else if k == 5 {} else if k == 6 {} else {}
  }

  lemma {:induction false} MaskSetUnset(x: bv8, j: nat, k: nat)
    requires j < 8 && k < 8
    ensures ((x | Mask(j)) & Mask(k) != 0) <==> j == k || x & Mask(k) != 0
    ensures ((x & !Mask(j)) & Mask(k) != 0) <==> j != k && x & Mask(k) != 0
  {
    Masks(j);
    Masks(k);
  }
}
