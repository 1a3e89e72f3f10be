/** The rolling bloom filter: three generations of marks, packed as a two-bit label per cell into pairs of 64-bit words. */
module BloomModel {

  type Key = seq<bv8>

  /** A bit number of a word. */
  type BitNo = b: bv64 | b < 64

  function One(b: BitNo): bv64 {
    1 << b
  }

  predicate Has(x: bv64, b: BitNo) {
    x & One(b) != 0
  }

  datatype Cell = Cell(word: nat, bit: BitNo)

  /** Generation numbers run from 1 to 3; gen & 1 and gen >> 1 select the planes. */
  function Low(gen: nat): bv64 {
    if gen == 1 || gen == 3 then 1 else 0
  }

  function High(gen: nat): bv64 {
    if gen == 2 || gen == 3 then 1 else 0
  }

  /** The generation a cell is labelled with, or zero. */
  function Label(data: seq<bv64>, c: Cell): (r: nat)
    requires 2 * c.word + 1 < |data|
    ensures r <= 3
  {
    (if Has(data[2 * c.word], c.bit) then 1 else 0) + if Has(data[2 * c.word + 1], c.bit) then 2 else 0
  }

  /** The bits of a word that differ from a bit value. */
  function Differ(p: bv64, value: bv64): bv64 {
    p ^ (0 - value)
  }

  /** The bits of a pair of words that are not labelled with a generation. */
  function OtherBits(p1: bv64, p2: bv64, gen: nat): bv64 {
    Differ(p1, Low(gen)) | Differ(p2, High(gen))
  }

  function WipeWord(x: bv64, p1: bv64, p2: bv64, gen: nat): bv64 {
    x & OtherBits(p1, p2, gen)
  }

  function Wipe(data: seq<bv64>, gen: nat): (r: seq<bv64>)
    requires |data| % 2 == 0
    ensures |r| == |data|
  {
    seq(|data|, i requires 0 <= i < |data| => WipeWord(data[i], data[i / 2 * 2], data[i / 2 * 2 + 1], gen))
  }

  /** A word with one bit set to a value, which is zero or one. */
  function MarkWord(x: bv64, b: BitNo, value: bv64): bv64 {
    (x & !One(b)) | (value << b)
  }

  function Mark(data: seq<bv64>, gen: nat, c: Cell): (r: seq<bv64>)
    requires 2 * c.word + 1 < |data|
    ensures |r| == |data|
  {
    data[2 * c.word := MarkWord(data[2 * c.word], c.bit, Low(gen))]
        [2 * c.word + 1 := MarkWord(data[2 * c.word + 1], c.bit, High(gen))]
  }

  datatype Filter = Filter(
    hash: (nat, Key) -> bv32, nHashFuncs: nat, perGeneration: nat, thisGeneration: nat, generation: nat, data: seq<bv64>)

  /** The cell of the n-th hash of a key in a table of the given size. */
  function CellOf(hash: (nat, Key) -> bv32, size: nat, n: nat, key: Key): (c: Cell)
    requires size > 0 && size % 2 == 0
    ensures 2 * c.word + 1 < size
  {
    var h := hash(n, key);
    var pos := ((h >> 6) as nat) % size;
    Cell(pos / 2, (h & 0x3F) as bv64)
  }

  /** Mark the cells of a key from hash n on. */
  function MarkFrom(f: Filter, key: Key, n: nat): (r: Filter)
    requires |f.data| > 0 && |f.data| % 2 == 0
    ensures |r.data| == |f.data| && r == f.(data := r.data)
    decreases f.nHashFuncs - n
  {
    if n >= f.nHashFuncs then f
    else MarkFrom(f.(data := Mark(f.data, f.generation, CellOf(f.hash, |f.data|, n, key))), key, n + 1)
  }

  function Rotate(f: Filter): (r: Filter)
    requires |f.data| % 2 == 0
    ensures |r.data| == |f.data|
  {
    if f.thisGeneration != f.perGeneration then f else
    var gen := if f.generation + 1 == 4 then 1 else f.generation + 1;
    f.(thisGeneration := 0, generation := gen, data := Wipe(f.data, gen))
  }

  function Insert(f: Filter, key: Key): (r: Filter)
    requires |f.data| > 0 && |f.data| % 2 == 0
    ensures |r.data| == |f.data|
  {
    var f1 := Rotate(f);
    MarkFrom(f1.(thisGeneration := f1.thisGeneration + 1), key, 0)
  }

  predicate ContainsFrom(f: Filter, key: Key, n: nat)
    requires |f.data| > 0 && |f.data| % 2 == 0
    decreases f.nHashFuncs - n
  {
    n >= f.nHashFuncs || (Label(f.data, CellOf(f.hash, |f.data|, n, key)) != 0 && ContainsFrom(f, key, n + 1))
  }

  predicate Contains(f: Filter, key: Key)
    requires |f.data| > 0 && |f.data| % 2 == 0
  {
    ContainsFrom(f, key, 0)
  }

  /** A filter for nElements, with the number of hashes and of words worked out by the caller. */
  function Reset(hash: (nat, Key) -> bv32, nElements: nat, nHashFuncs: nat, words: nat): (r: Filter)
    ensures |r.data| == 2 * words
  {
    Filter(hash, nHashFuncs, (nElements + 1) / 2, 0, 1, seq(2 * words, _ => 0))
  }

  function Run(f: Filter, keys: seq<Key>): (r: Filter)
    requires |f.data| > 0 && |f.data| % 2 == 0
    ensures |r.data| == |f.data|
    decreases |keys|
  {
    if keys == [] then f else Insert(Run(f, keys[..|keys| - 1]), keys[|keys| - 1])
  }
}
