/** CRollingBloomFilter as an object whose insertions wipe and mark the data words in place. */
module BloomFilter {
  import opened M = BloomModel

  class RollingBloomFilter {
    const hash: (nat, Key) -> bv32
    const nHashFuncs: nat
    const nEntriesPerGeneration: nat
    var nEntriesThisGeneration: nat
    var nGeneration: nat
    const data: array<bv64>

    ghost predicate Valid() {
      data.Length > 0 && data.Length % 2 == 0
    }

    ghost function Model(): Filter
      reads this, data
    {
      Filter(hash, nHashFuncs, nEntriesPerGeneration, nEntriesThisGeneration, nGeneration, data[..])
    }

    /** The sizes are worked out in floating point by the caller: at least one hash function and one pair of words. */
    constructor (h: (nat, Key) -> bv32, nElements: nat, hashes: nat, words: nat)
      requires words >= 1
      ensures Valid() && fresh(data) && Model() == M.Reset(h, nElements, hashes, words)
    {
      hash, nHashFuncs, nEntriesPerGeneration := h, hashes, (nElements + 1) / 2;
      data := new bv64[2 * words];
      nEntriesThisGeneration, nGeneration := 0, 1;
      new;
      Zero();
    }

    method Zero()
      modifies data
      ensures data[..] == seq(data.Length, _ => 0)
    {
      for i := 0 to data.Length
        invariant forall j | 0 <= j < i :: data[j] == 0
      {
        data[i] := 0;
      }
    }

    /** Clear the cells labelled with a generation, a pair of words at a time. */
    method WipeGeneration(gen: nat)
      requires Valid()
      modifies data
      ensures data[..] == Wipe(old(data[..]), gen)
    {
      hide WipeWord, Wipe;
      ghost var was := data[..];
      var p := 0;
      while p < data.Length
        invariant 0 <= p <= data.Length && p % 2 == 0
        invariant forall i | 0 <= i < p :: data[i] == Wipe(was, gen)[i]
        invariant forall i | p <= i < data.Length :: data[i] == was[i]
      {
        WipedPair(was, gen, p);
        var p1, p2 := data[p], data[p + 1];
        data[p] := WipeWord(p1, p1, p2, gen);
        data[p + 1] := WipeWord(p2, p1, p2, gen);
        p := p + 2;
      }
    }

    method Insert(key: Key)
      requires Valid()
      modifies this, data
      ensures Model() == M.Insert(old(Model()), key)
    {
      hide Wipe;
      if nEntriesThisGeneration == nEntriesPerGeneration {
        nEntriesThisGeneration := 0;
        nGeneration := nGeneration + 1;
        if nGeneration == 4 { nGeneration := 1; }
        WipeGeneration(nGeneration);
      }
      assert Model() == Rotate(old(Model()));
      nEntriesThisGeneration := nEntriesThisGeneration + 1;
      MarkAll(key);
    }

    method MarkAll(key: Key)
      requires Valid()
      modifies data
      ensures Model() == MarkFrom(old(Model()), key, 0)
    {
      hide MarkWord;
      ghost var target := MarkFrom(Model(), key, 0);
      for n := 0 to nHashFuncs
        invariant MarkFrom(Model(), key, n) == target
      {
        var c := CellOf(hash, data.Length, n, key);
        ghost var was := data[..];
        data[2 * c.word] := MarkWord(data[2 * c.word], c.bit, Low(nGeneration));
        data[2 * c.word + 1] := MarkWord(data[2 * c.word + 1], c.bit, High(nGeneration));
        assert data[..] == Mark(was, nGeneration, c);
      }
    }

    /** Whether every cell of a key is labelled. */
    method Contains(key: Key) returns (found: bool)
      requires Valid()
      ensures found == M.Contains(Model(), key)
    {
      hide Label, Has;
      for n := 0 to nHashFuncs
        invariant ContainsFrom(Model(), key, n) == M.Contains(Model(), key)
      {
        var c := CellOf(hash, data.Length, n, key);
        EitherPlane(data[2 * c.word], data[2 * c.word + 1], c.bit);
        LabelIs(data[..], c);
        if ((data[2 * c.word] | data[2 * c.word + 1]) >> c.bit) & 1 == 0 { return false; }
      }
      found := true;
    }
  }

  lemma {:induction false} WipedPair(d: seq<bv64>, gen: nat, p: nat)
    requires |d| % 2 == 0 && p % 2 == 0 && p < |d|
    ensures Wipe(d, gen)[p] == WipeWord(d[p], d[p], d[p + 1], gen) && Wipe(d, gen)[p + 1] == WipeWord(d[p + 1], d[p], d[p + 1], gen)
  {
    hide WipeWord;
    assert p / 2 * 2 == p && (p + 1) / 2 * 2 == p;
  }

  lemma {:induction false} LabelIs(d: seq<bv64>, c: Cell)
    requires 2 * c.word + 1 < |d|
    ensures Label(d, c) != 0 <==> Has(d[2 * c.word], c.bit) || Has(d[2 * c.word + 1], c.bit)
  {
  }

  /** Looking at both planes at once. */
  lemma {:induction false} EitherPlane(x: bv64, y: bv64, b: BitNo)
    ensures ((x | y) >> b) & 1 != 0 <==> Has(x, b) || Has(y, b)
  {
  }
}
