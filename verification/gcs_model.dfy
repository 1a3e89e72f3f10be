/** Golomb-coded set filters: sorted hashes written as Golomb-Rice coded differences in a stream of bits. */
module GcsModel {
  import opened Arithmetic
  import opened Wrappers
  import opened ArithValue

  type Element = seq<bv8>

  const TWO64: nat := 0x1_0000_0000_0000_0000

  // ----- one number -----

  /** The n least significant bits of a number, most significant first. */
  function BitsOf(x: nat, n: nat): (r: seq<bool>)
    ensures |r| == n
  {
    if n == 0 then [] else BitsOf(x / 2, n - 1) + [x % 2 == 1]
  }

  function NumberOf(bits: seq<bool>): nat {
    if bits == [] then 0 else 2 * NumberOf(bits[..|bits| - 1]) + if bits[|bits| - 1] then 1 else 0
  }

  function Ones(q: nat): (r: seq<bool>)
    ensures |r| == q && forall i | 0 <= i < q :: r[i]
  {
    seq(q, _ => true)
  }

  function Quotient(x: nat, p: nat): nat {
    QuotientLe(x, Pow2(p));
    x / Pow2(p)
  }

  /** The quotient by 2^p in unary, a zero, and the remainder in p bits. */
  function Code(x: nat, p: nat): seq<bool> {
    Ones(Quotient(x, p)) + [false] + BitsOf(x, p)
  }

  /** The first zero from pos on, or the end of the stream. */
  function UnaryEnd(bits: seq<bool>, pos: nat): (r: nat)
    requires pos <= |bits|
    ensures pos <= r <= |bits| && (r < |bits| ==> !bits[r]) && forall i | pos <= i < r :: bits[i]
    decreases |bits| - pos
  {
    if pos == |bits| || !bits[pos] then pos else UnaryEnd(bits, pos + 1)
  }

  function Join(q: nat, p: nat, r: nat): nat {
    ((q * Pow2(p)) % TWO64 + r) % TWO64
  }

  /** The number at a position of the stream and the position after it; None is an exception at the end of the stream. */
  function DecodeAt(bits: seq<bool>, p: nat, pos: nat): (r: Option<(nat, nat)>)
    requires pos <= |bits|
    ensures r.Some? ==> pos < r.value.1 <= |bits|
  {
    var end := UnaryEnd(bits, pos);
    if end == |bits| || end + 1 + p > |bits| then None
    else Some((Join(end - pos, p, NumberOf(bits[end + 1..end + 1 + p])), end + 1 + p))
  }

  // ----- a set -----

  /** The codes of the differences of values, starting from last. */
  function Codes(values: seq<nat>, p: nat, last: nat): seq<bool> {
    if values == [] then []
    else Code(if values[0] >= last then values[0] - last else 0, p) + Codes(values[1..], p, values[0])
  }

  /** n values, added up in 64 bits, and the position after them. */
  function DecodeAll(bits: seq<bool>, p: nat, n: nat, pos: nat, value: nat): (r: Option<(seq<nat>, nat)>)
    requires pos <= |bits|
    ensures r.Some? ==> |r.value.0| == n && r.value.1 <= |bits|
    decreases n
  {
    if n == 0 then Some(([], pos))
    else
      match DecodeAt(bits, p, pos)
      case None => None
      case Some((delta, next)) =>
        var v := (value + delta) % TWO64;
        match DecodeAll(bits, p, n - 1, next, v)
        case None => None
        case Some((rest, end)) => Some(([v] + rest, end))
  }

  /** Zeros up to the next byte. */
  function Padded(bits: seq<bool>): (r: seq<bool>)
    ensures |r| % 8 == 0 && bits <= r && |r| < |bits| + 8
  {
    bits + seq((8 - |bits| % 8) % 8, _ => false)
  }

  /** The encoding of a filter: the number of elements and the bits of a whole number of bytes. */
  datatype RawEncoding = Encoded(n: nat, bits: seq<bool>)

  type Encoding = c: RawEncoding | |c.bits| % 8 == 0 witness Encoded(0, [])

  datatype Params = Params(hash: Element -> nat, p: nat, m: nat)

  // ----- hashing into a range -----

  /** The range of the hashes of n elements. */
  function HashRange(n: nat, m: nat): nat {
    MulLe(0, n, m);
    n * m
  }

  function MapIntoRange(x: nat, n: nat): nat {
    (x * n) / TWO64
  }

  function HashToRange(q: Params, f: nat, e: Element): nat {
    MapIntoRange(q.hash(e) % TWO64, f)
  }

  predicate Ascending(s: seq<nat>) {
    forall i, j | 0 <= i < j < |s| :: s[i] <= s[j]
  }

  function InsertSorted(x: nat, s: seq<nat>): seq<nat> {
    if s == [] || x <= s[0] then [x] + s else [s[0]] + InsertSorted(x, s[1..])
  }

  function Sort(s: seq<nat>): seq<nat> {
    if s == [] then [] else InsertSorted(s[0], Sort(s[1..]))
  }

  function HashAll(q: Params, f: nat, elements: seq<Element>): seq<nat> {
    if elements == [] then [] else [HashToRange(q, f, elements[0])] + HashAll(q, f, elements[1..])
  }

  /** The hashes of the elements, in order. */
  function BuildHashedSet(q: Params, f: nat, elements: seq<Element>): seq<nat> {
    Sort(HashAll(q, f, elements))
  }

  /** The filter of a set of elements, given in the order of its iteration; None for too many, or for more than 64 bits to a write. */
  function Build(q: Params, elements: seq<Element>): Option<Encoding> {
    if |elements| >= BASE || (q.p > 64 && elements != []) then None
    else Some(Encoded(|elements|, Padded(Codes(BuildHashedSet(q, |elements| * q.m, elements), q.p, 0))))
  }

  /** The constructor from an encoding: it holds exactly n numbers and no byte beyond them. */
  function Accepts(q: Params, c: Encoding): bool {
    c.n < BASE && (q.p <= 64 || c.n == 0) &&
    var r := DecodeAll(c.bits, q.p, c.n, 0, 0);
    r.Some? && (r.value.1 + 7) / 8 * 8 >= |c.bits|
  }

  // ----- matching -----

  /** One pass over two sorted lists. */
  function Merge(values: seq<nat>, queries: seq<nat>): bool
    decreases |values| + |queries|
  {
    if values == [] || queries == [] then false
    else if queries[0] == values[0] then true
    else if queries[0] > values[0] then Merge(values[1..], queries)
    else Merge(values, queries[1..])
  }
}
