/** The cuckoo cache as a value: its table with the two flags of every slot, and its operations as functions. */
module CuckooModel {
  import opened Arithmetic
  import opened Wrappers

  type Element = nat

  /** A default-constructed element, which fills the table at first. */
  const DEFAULT: Element := 0

  const TWO32: nat := 0x1_0000_0000

  /** A slot may be collected (its element is garbage) and recent (of the current epoch). */
  datatype Slot = Slot(element: Element, collected: bool, recent: bool)

  datatype Cache = Cache(hash: (nat, Element) -> nat, slots: seq<Slot>, counter: nat, epochSize: nat, depthLimit: nat)

  /** A 32-bit hash scaled to the table by a multiplication and a shift. */
  function Loc(hash: (nat, Element) -> nat, size: nat, k: nat, e: Element): (loc: nat)
    requires size > 0
    ensures loc < size
  {
    var h := hash(k, e) % TWO32;
    ScaledBelow(h, size);
    (h * size) / TWO32
  }

  lemma {:induction false} ScaledBelow(h: nat, n: nat)
    requires h < TWO32 && n > 0
    ensures h * n / TWO32 < n
  {
    MulLe(h, TWO32 - 1, n);
    var p := h * n;
    assert p < TWO32 * n;
  }

  /** The eight places where an element may be. */
  function Locs(hash: (nat, Element) -> nat, size: nat, e: Element): (locs: seq<nat>)
    requires size > 0
    ensures |locs| == 8 && forall k | 0 <= k < 8 :: locs[k] < size
  {
    seq(8, k requires 0 <= k < 8 => Loc(hash, size, k, e))
  }

  /** The first of the places from k on that holds the element. */
  function FindElement(q: seq<Slot>, locs: seq<nat>, e: Element, k: nat): (r: Option<nat>)
    requires forall j | 0 <= j < |locs| :: locs[j] < |q|
    ensures r.Some? ==> k <= r.value < |locs| && q[locs[r.value]].element == e
    ensures forall j | k <= j < if r.Some? then r.value else |locs| :: q[locs[j]].element != e
    decreases |locs| - k
  {
    if k >= |locs| then None else if q[locs[k]].element == e then Some(k) else FindElement(q, locs, e, k + 1)
  }

  /** The first of the places from k on that may be overwritten. */
  function FindFree(q: seq<Slot>, locs: seq<nat>, k: nat): (r: Option<nat>)
    requires forall j | 0 <= j < |locs| :: locs[j] < |q|
    ensures r.Some? ==> k <= r.value < |locs| && q[locs[r.value]].collected
    ensures forall j | k <= j < if r.Some? then r.value else |locs| :: !q[locs[j]].collected
    decreases |locs| - k
  {
    if k >= |locs| then None else if q[locs[k]].collected then Some(k) else FindFree(q, locs, k + 1)
  }

  /** The position of x from k on, or the length. */
  function Position(locs: seq<nat>, x: int, k: nat): (r: nat)
    requires k <= |locs|
    ensures k <= r <= |locs|
    decreases |locs| - k
  {
    if k == |locs| || locs[k] == x then k else Position(locs, x, k + 1)
  }

  /** The place after the last one used; the first time, when there is none, it is the second place. */
  function NextLoc(locs: seq<nat>, lastLoc: int): (r: nat)
    requires |locs| == 8
    ensures r in locs
  {
    locs[(1 + Position(locs, lastLoc, 0)) % 8]
  }

  /** The eviction loop: what is left of the depth, and the element in hand with its epoch. */
  function Chain(c: Cache, e: Element, lastLoc: int, lastEpoch: bool, depth: nat): (Cache, Option<Element>)
    requires |c.slots| > 0
    decreases depth
  {
    if depth == 0 then (c, Some(e)) else
    var locs := Locs(c.hash, |c.slots|, e);
    match FindFree(c.slots, locs, 0)
    case Some(k) => (c.(slots := c.slots[locs[k] := Slot(e, false, lastEpoch)]), None)
    case None =>
      var loc := NextLoc(locs, lastLoc);
      var out := c.slots[loc];
      Chain(c.(slots := c.slots[loc := Slot(e, out.collected, lastEpoch)]), out.element, loc, out.recent, depth - 1)
  }

  predicate LiveRecent(s: Slot) {
    s.recent && !s.collected
  }

  predicate LiveOld(s: Slot) {
    !s.recent && !s.collected
  }

  function Count(q: seq<Slot>, f: Slot -> bool): nat {
    if q == [] then 0 else Count(q[..|q| - 1], f) + if f(q[|q| - 1]) then 1 else 0
  }

  function Max(a: nat, b: nat): nat {
    if a < b then b else a
  }

  /** The current epoch becomes the old one, and what was old may be collected. */
  function Aged(s: Slot): Slot {
    if s.recent then s.(recent := false) else s.(collected := true)
  }

  function EpochCheck(c: Cache): (r: Cache)
    ensures |r.slots| == |c.slots| && r.hash == c.hash
  {
    if c.counter != 0 then c.(counter := c.counter - 1) else
    var used := Count(c.slots, LiveRecent);
    if used >= c.epochSize then
      c.(slots := seq(|c.slots|, i requires 0 <= i < |c.slots| => Aged(c.slots[i])), counter := c.epochSize)
    else c.(counter := Max(1, Max(c.epochSize / 16, c.epochSize - used)))
  }

  /** Insert; the second result is the element dropped when the depth ran out. */
  function Insert(c: Cache, e: Element): (Cache, Option<Element>)
    requires |c.slots| > 0
  {
    var c1 := EpochCheck(c);
    var locs := Locs(c1.hash, |c1.slots|, e);
    match FindElement(c1.slots, locs, e, 0)
    case Some(k) => (c1.(slots := c1.slots[locs[k] := Slot(e, false, true)]), None)
    case None => Chain(c1, e, -1, true, c.depthLimit)
  }

  function Contains(c: Cache, e: Element): bool
    requires |c.slots| > 0
  {
    FindElement(c.slots, Locs(c.hash, |c.slots|, e), e, 0).Some?
  }

  /** Mark the element for collection, if it is there. */
  function Erase(c: Cache, e: Element): Cache
    requires |c.slots| > 0
  {
    var locs := Locs(c.hash, |c.slots|, e);
    match FindElement(c.slots, locs, e, 0)
    case Some(k) => c.(slots := c.slots[locs[k] := c.slots[locs[k]].(collected := true)])
    case None => c
  }

  /** The fraction is computed with 32-bit wrap-around. */
  function EpochSize(size: nat): nat {
    Max(1, ((45 * size) % TWO32) / 100)
  }

  function Setup(hash: (nat, Element) -> nat, newSize: nat, depthLimit: nat): Cache {
    var size := Max(2, newSize);
    Cache(hash, seq(size, _ => Slot(DEFAULT, true, false)), EpochSize(size), EpochSize(size), depthLimit)
  }
}
