/** Building and extracting a partial merkle tree undo each other, and what is extracted under the true root is authentic. */
module MerkleProofs {
  import opened Arithmetic
  import opened ByteBits
  import opened MerkleModel

  ghost predicate Injective(hash: PairHash) {
    forall a, b, c, d {:trigger hash(a, b), hash(c, d)} :: hash(a, b) == hash(c, d) ==> a == c && b == d
  }

  predicate Distinct(txids: seq<Digest>) {
    forall i, j | 0 <= i < j < |txids| :: txids[i] != txids[j]
  }

  /** Different nodes of a height have different hashes. */
  lemma {:induction false} NodesDiffer(hash: PairHash, txids: seq<Digest>, h: nat, p: nat, q: nat)
    requires Injective(hash) && Distinct(txids) && p < Width(|txids|, h) && q < Width(|txids|, h) && p != q
    ensures CalcHash(hash, txids, h, p) != CalcHash(hash, txids, h, q)
    decreases h
  {
    if h == 0 {
      NodeIsThere(|txids|, 0, p);
      NodeIsThere(|txids|, 0, q);
    } else {
      ChildIsThere(|txids|, h, p);
      ChildIsThere(|txids|, h, q);
      NodesDiffer(hash, txids, h - 1, 2 * p, 2 * q);
    }
  }

  // ----- the matched leaves, in order -----

  function Indexes(matched: seq<bool>, lo: nat, hi: nat): (r: seq<nat>)
    ensures forall k | 0 <= k < |r| :: lo <= r[k] < hi && r[k] < |matched| && matched[r[k]]
    decreases hi - lo
  {
    if lo >= hi || lo >= |matched| then []
    else (if matched[lo] then [lo] else []) + Indexes(matched, lo + 1, hi)
  }

  function Pick(txids: seq<Digest>, at: seq<nat>): (r: seq<Digest>)
    requires forall k | 0 <= k < |at| :: at[k] < |txids|
    ensures |r| == |at|
  {
    seq(|at|, k requires 0 <= k < |at| => txids[at[k]])
  }

  predicate Ascending(r: seq<nat>) {
    forall i, j | 0 <= i < j < |r| :: r[i] < r[j]
  }

  lemma {:induction false} IndexesIncrease(matched: seq<bool>, lo: nat, hi: nat)
    ensures Ascending(Indexes(matched, lo, hi))
    decreases hi - lo
  {
    if lo < hi && lo < |matched| {
      IndexesIncrease(matched, lo + 1, hi);
      if matched[lo] {
        AscendingPrepend(lo, Indexes(matched, lo + 1, hi));
      } else {
        assert [] + Indexes(matched, lo + 1, hi) == Indexes(matched, lo + 1, hi);
      }
    }
  }

  lemma {:induction false} AscendingPrepend(x: nat, rest: seq<nat>)
    requires Ascending(rest) && forall k | 0 <= k < |rest| :: x < rest[k]
    ensures Ascending([x] + rest)
  {
  }

  /** The list holds every matched position, and by its contract nothing else. */
  lemma {:induction false} IndexesComplete(matched: seq<bool>, lo: nat, hi: nat, p: nat)
    requires lo <= p < hi && p < |matched| && matched[p]
    ensures p in Indexes(matched, lo, hi)
    decreases hi - lo
  {
    if p > lo { IndexesComplete(matched, lo + 1, hi, p); }
  }

  lemma {:induction false} IndexesSplit(matched: seq<bool>, lo: nat, mid: nat, hi: nat)
    requires lo <= mid <= hi
    ensures Indexes(matched, lo, hi) == Indexes(matched, lo, mid) + Indexes(matched, mid, hi)
    decreases mid - lo
  {
    if lo < mid && lo < |matched| {
      IndexesSplit(matched, lo + 1, mid, hi);
    } else if lo >= |matched| {
      assert Indexes(matched, lo, mid) == [] && Indexes(matched, mid, hi) == [];
    }
  }

  lemma {:induction false} NoIndexes(matched: seq<bool>, lo: nat, hi: nat)
    requires !AnyMatch(matched, lo, hi)
    ensures Indexes(matched, lo, hi) == []
    decreases hi - lo
  {
    if lo < hi && lo < |matched| { NoIndexes(matched, lo + 1, hi); }
  }

  // ----- extracting what was built -----

  function After(txids: seq<Digest>, matched: seq<bool>, lo: nat, hi: nat, c: Cursor, bits: nat, hashes: nat): Cursor
    requires |matched| == |txids|
  {
    var at := Indexes(matched, lo, hi);
    Cursor(c.bitsUsed + bits, c.hashUsed + hashes, c.bad, c.matches + Pick(txids, at), c.indexes + at)
  }

  /** Reading one child after the other. */
  lemma {:induction false} AfterBoth(txids: seq<Digest>, matched: seq<bool>, lo: nat, mid: nat, hi: nat, c: Cursor, b1: nat, h1: nat, b2: nat, h2: nat)
    requires |matched| == |txids| && lo <= mid <= hi
    ensures After(txids, matched, mid, hi, After(txids, matched, lo, mid, c, b1, h1), b2, h2)
            == After(txids, matched, lo, hi, c, b1 + b2, h1 + h2)
  {
    hide Indexes, Pick;
    IndexesSplit(matched, lo, mid, hi);
    var at1, at2 := Indexes(matched, lo, mid), Indexes(matched, mid, hi);
    PickBoth(txids, at1, at2);
    Append(c.matches, Pick(txids, at1), Pick(txids, at2));
    Append(c.indexes, at1, at2);
  }

  lemma {:induction false} PickBoth(txids: seq<Digest>, at1: seq<nat>, at2: seq<nat>)
    requires (forall k | 0 <= k < |at1| :: at1[k] < |txids|) && (forall k | 0 <= k < |at2| :: at2[k] < |txids|)
    ensures forall k | 0 <= k < |at1 + at2| :: (at1 + at2)[k] < |txids|
    ensures Pick(txids, at1 + at2) == Pick(txids, at1) + Pick(txids, at2)
  {
  }

  lemma {:induction false} Append<T>(a: seq<T>, b: seq<T>, c: seq<T>)
    ensures a + b + c == a + (b + c)
  {
  }

  /** The bits and hashes of a subtree stand somewhere in the tree, where the cursor is. */
  predicate Stands<T(==)>(all: seq<T>, before: seq<T>, part: seq<T>, rest: seq<T>) {
    all == before + part + rest
  }

  lemma {:induction false} BuildLeaf(hash: PairHash, txids: seq<Digest>, matched: seq<bool>, h: nat, pos: nat, bits: seq<bool>, hashes: seq<Digest>,
                  b0: seq<bool>, b9: seq<bool>, h0: seq<Digest>, h9: seq<Digest>, c: Cursor)
    requires |matched| == |txids| && pos < Width(|txids|, h) && c.bitsUsed == |b0| && c.hashUsed == |h0|
    requires h == 0 || !AnyMatch(matched, FirstLeaf(h, pos), FirstLeaf(h, pos + 1))
    requires var (b, hs) := Build(hash, txids, matched, h, pos); Stands(bits, b0, b, b9) && Stands(hashes, h0, hs, h9)
    ensures Extract(hash, |txids|, bits, hashes, h, pos, c)
            == (After(txids, matched, FirstLeaf(h, pos), FirstLeaf(h, pos + 1), c, 1, 1), CalcHash(hash, txids, h, pos))
    ensures |Build(hash, txids, matched, h, pos).0| == |Build(hash, txids, matched, h, pos).1| == 1
  {
    var flag := AnyMatch(matched, FirstLeaf(h, pos), FirstLeaf(h, pos + 1));
    assert bits[c.bitsUsed] == flag && hashes[c.hashUsed] == CalcHash(hash, txids, h, pos);
    if flag {
      NodeIsThere(|txids|, 0, pos);
      assert Indexes(matched, pos, pos + 1) == [pos];
      assert Pick(txids, [pos]) == [txids[pos]];
    } else {
      NoIndexes(matched, FirstLeaf(h, pos), FirstLeaf(h, pos + 1));
      assert c.matches + [] == c.matches && c.indexes + [] == c.indexes;
    }
  }

  lemma {:induction false} StandsSplit<T>(all: seq<T>, before: seq<T>, head: seq<T>, p1: seq<T>, p2: seq<T>, rest: seq<T>)
    requires Stands(all, before, head + p1 + p2, rest)
    ensures Stands(all, before + head, p1, p2 + rest) && Stands(all, before + head + p1, p2, rest)
  {
    assert before + (head + p1 + p2) + rest == (before + head) + p1 + (p2 + rest);
    assert before + (head + p1 + p2) + rest == (before + head + p1) + p2 + rest;
  }

  lemma {:induction false} BuildStops(hash: PairHash, txids: seq<Digest>, matched: seq<bool>, h: nat, pos: nat)
    requires |matched| == |txids| && pos < Width(|txids|, h)
    requires h == 0 || !AnyMatch(matched, FirstLeaf(h, pos), FirstLeaf(h, pos + 1))
    ensures Build(hash, txids, matched, h, pos)
            == ([AnyMatch(matched, FirstLeaf(h, pos), FirstLeaf(h, pos + 1))], [CalcHash(hash, txids, h, pos)])
  {
  }

  /** Build at a node that is descended into. */
  lemma {:induction false} BuildNode(hash: PairHash, txids: seq<Digest>, matched: seq<bool>, h: nat, pos: nat)
      returns (b1: seq<bool>, h1: seq<Digest>, b2: seq<bool>, h2: seq<Digest>)
    requires |matched| == |txids| && pos < Width(|txids|, h)
    requires h > 0 && AnyMatch(matched, FirstLeaf(h, pos), FirstLeaf(h, pos + 1))
    ensures 2 * pos < Width(|txids|, h - 1)
    ensures (b1, h1) == Build(hash, txids, matched, h - 1, 2 * pos)
    ensures (b2, h2) == if 2 * pos + 1 < Width(|txids|, h - 1) then Build(hash, txids, matched, h - 1, 2 * pos + 1) else ([], [])
    ensures Build(hash, txids, matched, h, pos) == ([true] + b1 + b2, [] + h1 + h2)
  {
    ChildIsThere(|txids|, h, pos);
    var first := Build(hash, txids, matched, h - 1, 2 * pos);
    var second := if 2 * pos + 1 < Width(|txids|, h - 1) then Build(hash, txids, matched, h - 1, 2 * pos + 1) else ([], []);
    b1, h1, b2, h2 := first.0, first.1, second.0, second.1;
    assert [] + h1 == h1;
  }

  /** Some node that is descended into, below a node and with it, has two equal children. */
  predicate Twins(hash: PairHash, txids: seq<Digest>, matched: seq<bool>, h: nat, pos: nat)
    requires |matched| == |txids| && pos < Width(|txids|, h)
    decreases h
  {
    h > 0 && AnyMatch(matched, FirstLeaf(h, pos), FirstLeaf(h, pos + 1)) &&
    (ChildIsThere(|txids|, h, pos);
     Twins(hash, txids, matched, h - 1, 2 * pos) ||
     (2 * pos + 1 < Width(|txids|, h - 1) &&
      (Twins(hash, txids, matched, h - 1, 2 * pos + 1) || CalcHash(hash, txids, h - 1, 2 * pos) == CalcHash(hash, txids, h - 1, 2 * pos + 1))))
  }

  /** Distinct transactions have no twins at any height. */
  lemma {:induction false} NoTwins(hash: PairHash, txids: seq<Digest>, matched: seq<bool>, h: nat, pos: nat)
    requires Injective(hash) && Distinct(txids) && |matched| == |txids| && pos < Width(|txids|, h)
    ensures !Twins(hash, txids, matched, h, pos)
    decreases h
  {
    hide Injective, Distinct, Width, CalcHash;
    if h > 0 {
      ChildIsThere(|txids|, h, pos);
      NoTwins(hash, txids, matched, h - 1, 2 * pos);
      if 2 * pos + 1 < Width(|txids|, h - 1) {
        NoTwins(hash, txids, matched, h - 1, 2 * pos + 1);
        NodesDiffer(hash, txids, h - 1, 2 * pos, 2 * pos + 1);
      }
    }
  }

  lemma {:induction false} AfterBad(txids: seq<Digest>, matched: seq<bool>, lo: nat, hi: nat, c: Cursor, bits: nat, hashes: nat, bad: bool)
    requires |matched| == |txids|
    ensures After(txids, matched, lo, hi, c.(bad := bad), bits, hashes) == After(txids, matched, lo, hi, c, bits, hashes).(bad := bad)
  {
  }

  /** Extraction reads any built subtree back, wherever it stands, and turns bad exactly where it meets twins. */
  lemma {:induction false} BuildExtract(hash: PairHash, txids: seq<Digest>, matched: seq<bool>, h: nat, pos: nat, bits: seq<bool>, hashes: seq<Digest>,
                     b0: seq<bool>, b9: seq<bool>, h0: seq<Digest>, h9: seq<Digest>, c: Cursor)
    requires |matched| == |txids| && pos < Width(|txids|, h) && c.bitsUsed == |b0| && c.hashUsed == |h0|
    requires var (b, hs) := Build(hash, txids, matched, h, pos); Stands(bits, b0, b, b9) && Stands(hashes, h0, hs, h9)
    ensures var (b, hs) := Build(hash, txids, matched, h, pos);
            Extract(hash, |txids|, bits, hashes, h, pos, c)
            == (After(txids, matched, FirstLeaf(h, pos), FirstLeaf(h, pos + 1), c, |b|, |hs|).(bad := c.bad || Twins(hash, txids, matched, h, pos)),
                CalcHash(hash, txids, h, pos))
    decreases h
  {
    hide After, Width, Build, Stands, Extract;
    var lo, hi := FirstLeaf(h, pos), FirstLeaf(h, pos + 1);
    if h == 0 || !AnyMatch(matched, lo, hi) {
      BuildLeaf(hash, txids, matched, h, pos, bits, hashes, b0, b9, h0, h9, c);
      AfterBad(txids, matched, lo, hi, c, 1, 1, c.bad);
    } else {
      hide AnyMatch;
      Leaves(h, pos);
      var b1, h1, b2, h2 := BuildNode(hash, txids, matched, h, pos);
      StandsSplit(bits, b0, [true], b1, b2, b9);
      StandsSplit(hashes, h0, [], h1, h2, h9);
      FirstBit(bits, b0, true, b1, b2 + b9);
      var c1 := c.(bitsUsed := c.bitsUsed + 1);
      var mid := FirstLeaf(h - 1, 2 * pos + 1);
      BuildExtract(hash, txids, matched, h - 1, 2 * pos, bits, hashes, b0 + [true], b2 + b9, h0 + [], h2 + h9, c1);
      AfterMoves(txids, matched, lo, mid, c1, |b1|, |h1|);
      var bad1 := c.bad || Twins(hash, txids, matched, h - 1, 2 * pos);
      var c2 := After(txids, matched, lo, mid, c1, |b1|, |h1|).(bad := bad1);
      AfterBad(txids, matched, lo, mid, c1, |b1|, |h1|, bad1);
      ExtractParts(hash, |txids|, bits, hashes, h, pos, c);
      if 2 * pos + 1 < Width(|txids|, h - 1) {
        BuildExtract(hash, txids, matched, h - 1, 2 * pos + 1, bits, hashes, b0 + [true] + b1, b9, h0 + [] + h1, h9, c2);
        AfterBoth(txids, matched, lo, mid, hi, c1.(bad := bad1), |b1|, |h1|, |b2|, |h2|);
        AfterBad(txids, matched, lo, hi, c1, |b1| + |b2|, |h1| + |h2|, bad1);
        AfterFlag(txids, matched, lo, hi, c, |b1| + |b2|, |h1| + |h2|);
      } else {
        NodeIsThere(|txids|, h - 1, 2 * pos + 1);
        NothingBeyond(matched, lo, mid, hi);
        AfterSame(txids, matched, lo, mid, hi, c1, |b1|, |h1|);
        AfterFlag(txids, matched, lo, hi, c, |b1|, |h1|);
      }
    }
  }

  lemma {:induction false} ExtractParts(hash: PairHash, n: nat, bits: seq<bool>, hashes: seq<Digest>, h: nat, pos: nat, c: Cursor)
    requires c.bitsUsed < |bits| && bits[c.bitsUsed] && h > 0
    ensures var c1 := c.(bitsUsed := c.bitsUsed + 1);
            var (c2, left) := Extract(hash, n, bits, hashes, h - 1, 2 * pos, c1);
            var (c3, right) := Extract(hash, n, bits, hashes, h - 1, 2 * pos + 1, c2);
            Extract(hash, n, bits, hashes, h, pos, c) ==
            if 2 * pos + 1 < Width(n, h - 1) then (c3.(bad := c3.bad || left == right), hash(left, right)) else (c2, hash(left, left))
  {
    hide Width;
  }

  lemma {:induction false} FirstBit(bits: seq<bool>, before: seq<bool>, bit: bool, part: seq<bool>, rest: seq<bool>)
    requires Stands(bits, before + [bit], part, rest)
    ensures |before| < |bits| && bits[|before|] == bit
  {
  }

  lemma {:induction false} AfterMoves(txids: seq<Digest>, matched: seq<bool>, lo: nat, hi: nat, c: Cursor, bits: nat, hashes: nat)
    requires |matched| == |txids|
    ensures var c' := After(txids, matched, lo, hi, c, bits, hashes);
            c'.bitsUsed == c.bitsUsed + bits && c'.hashUsed == c.hashUsed + hashes && c'.bad == c.bad
  {
  }

  lemma {:induction false} AfterFlag(txids: seq<Digest>, matched: seq<bool>, lo: nat, hi: nat, c: Cursor, bits: nat, hashes: nat)
    requires |matched| == |txids|
    ensures After(txids, matched, lo, hi, c.(bitsUsed := c.bitsUsed + 1), bits, hashes) == After(txids, matched, lo, hi, c, 1 + bits, hashes)
  {
  }

  lemma {:induction false} NothingBeyond(matched: seq<bool>, lo: nat, mid: nat, hi: nat)
    requires lo <= mid <= hi && |matched| <= mid
    ensures Indexes(matched, lo, hi) == Indexes(matched, lo, mid)
  {
    IndexesSplit(matched, lo, mid, hi);
    assert Indexes(matched, mid, hi) == [];
  }

  lemma {:induction false} AfterSame(txids: seq<Digest>, matched: seq<bool>, lo: nat, mid: nat, hi: nat, c: Cursor, bits: nat, hashes: nat)
    requires |matched| == |txids| && Indexes(matched, lo, hi) == Indexes(matched, lo, mid)
    ensures After(txids, matched, lo, hi, c, bits, hashes) == After(txids, matched, lo, mid, c, bits, hashes)
  {
  }

  // ----- the sizes the extractor insists on -----

  function Covered(n: nat, h: nat, pos: nat): int {
    (if FirstLeaf(h, pos + 1) < n then FirstLeaf(h, pos + 1) else n) - FirstLeaf(h, pos)
  }

  /** At least one bit for every hash, and no more hashes than leaves. */
  lemma {:induction false} BuildIsSmall(hash: PairHash, txids: seq<Digest>, matched: seq<bool>, h: nat, pos: nat)
    requires |matched| == |txids| && pos < Width(|txids|, h)
    ensures var (b, hs) := Build(hash, txids, matched, h, pos); |hs| <= |b| && |hs| <= Covered(|txids|, h, pos)
    decreases h
  {
    hide Width, CalcHash;
    NodeIsThere(|txids|, h, pos);
    LeafRanges(h, pos);
    if h > 0 {
      Leaves(h, pos);
      ChildIsThere(|txids|, h, pos);
      BuildIsSmall(hash, txids, matched, h - 1, 2 * pos);
      NodeIsThere(|txids|, h - 1, 2 * pos + 1);
      if 2 * pos + 1 < Width(|txids|, h - 1) { BuildIsSmall(hash, txids, matched, h - 1, 2 * pos + 1); }
    }
  }

  lemma {:induction false} LeafRanges(h: nat, pos: nat)
    ensures FirstLeaf(h, pos) < FirstLeaf(h, pos + 1)
  {
    assert (pos + 1) * Pow2(h) == pos * Pow2(h) + Pow2(h);
  }

  // ----- packing the flag bits into bytes -----

  /** One byte: its bit k is the bit at base + k, or zero beyond the end. */
  function PackByte(bits: seq<bool>, base: nat, k: nat): bv8
    requires k <= 8
  {
    if k == 0 then 0 else PackByte(bits, base, k - 1) | if base + k - 1 < |bits| && bits[base + k - 1] then Mask(k - 1) else 0
  }

  function Pack(bits: seq<bool>): (r: seq<bv8>)
    ensures |r| == (|bits| + 7) / 8
  {
    seq((|bits| + 7) / 8, k requires 0 <= k < (|bits| + 7) / 8 => PackByte(bits, 8 * k, 8))
  }

  function Unpack(bytes: seq<bv8>): (r: seq<bool>)
    ensures |r| == 8 * |bytes|
  {
    seq(8 * |bytes|, p requires 0 <= p < 8 * |bytes| => bytes[p / 8] & Mask(p % 8) != 0)
  }

  lemma {:induction false} UnpackAt(bytes: seq<bv8>, p: nat)
    requires p < 8 * |bytes|
    ensures Unpack(bytes)[p] == (bytes[p / 8] & Mask(p % 8) != 0)
  {
  }

  lemma {:induction false} MaskNothing(x: bv8, p: nat)
    requires p < 8
    ensures (x | 0) & Mask(p) == x & Mask(p) && 0 & Mask(p) == 0
  {
    Masks(p);
  }

  lemma {:induction false} PackByteBit(bits: seq<bool>, base: nat, k: nat, p: nat)
    requires k <= 8 && p < 8
    ensures (PackByte(bits, base, k) & Mask(p) != 0) <==> p < k && base + p < |bits| && bits[base + p]
    decreases k
  {
    hide Mask;
    MaskNothing(0, p);
    if k > 0 {
      PackByteBit(bits, base, k - 1, p);
      MaskSetUnset(PackByte(bits, base, k - 1), k - 1, p);
      MaskNothing(PackByte(bits, base, k - 1), p);
    }
  }

  /** Unpacking gives the bits back, with zeros up to the next byte. */
  lemma {:induction false} UnpackPack(bits: seq<bool>)
    ensures |bits| <= |Unpack(Pack(bits))|
    ensures forall p | 0 <= p < |Unpack(Pack(bits))| :: Unpack(Pack(bits))[p] <==> p < |bits| && bits[p]
  {
    hide Mask, PackByte;
    forall p | 0 <= p < |Unpack(Pack(bits))| ensures Unpack(Pack(bits))[p] <==> p < |bits| && bits[p] {
      PackByteBit(bits, 8 * (p / 8), 8, p % 8);
    }
  }

  /** A tree after it was sent. */
  function Sent(t: Tree): Tree {
    t.(bits := Unpack(Pack(t.bits)))
  }

  /**
   * Building, packing, unpacking and extracting returns exactly the matched transactions with their positions, in
   * order, and the merkle root, unless a node on the way to a match has two equal children: then it returns zero.
   */
  lemma {:induction false} RoundTripUnlessTwins(hash: PairHash, txids: seq<Digest>, matched: seq<bool>, indexes: seq<nat>)
    requires |matched| == |txids| && 0 < |txids| <= MAX_TRANSACTIONS
    ensures 0 < Width(|txids|, Height(|txids|))
    ensures var at := Indexes(matched, 0, |txids|);
            && Ascending(at)
            && (forall p | 0 <= p < |matched| :: matched[p] <==> p in at)
            && ExtractMatches(hash, Sent(BuildTree(hash, txids, matched)), false, indexes)
               == (if Twins(hash, txids, matched, Height(|txids|), 0) then 0 else Root(hash, txids), Pick(txids, at), indexes + at)
  {
    hide Width, Build, Extract, Indexes, Pick, Pack, Unpack, CalcHash, Twins;
    var n, h := |txids|, Height(|txids|);
    var at := Indexes(matched, 0, n);
    IndexesIncrease(matched, 0, n);
    forall p | 0 <= p < |matched| ensures matched[p] <==> p in at { if matched[p] { IndexesComplete(matched, 0, n, p); } }
    RootIsThere(n);
    var t := BuildTree(hash, txids, matched);
    var sent := Sent(t);
    UnpackPack(t.bits);
    assert sent.bits[..|t.bits|] == t.bits;
    assert Stands(sent.bits, [], t.bits, sent.bits[|t.bits|..]) && Stands(t.hashes, [], t.hashes, []);
    BuildExtract(hash, txids, matched, h, 0, sent.bits, t.hashes, [], sent.bits[|t.bits|..], [], [], Cursor(0, 0, false, [], indexes));
    BuildIsSmall(hash, txids, matched, h, 0);
    NothingBeyond(matched, 0, n, Pow2(h));
    assert FirstLeaf(h, 0) == 0 && FirstLeaf(h, 1) == Pow2(h);
    var (c, root) := Extract(hash, n, sent.bits, t.hashes, h, 0, Cursor(0, 0, false, [], indexes));
    assert c == Cursor(|t.bits|, |t.hashes|, Twins(hash, txids, matched, h, 0), Pick(txids, at), indexes + at);
  }

  /** With an injective hash and distinct transactions the merkle root is always returned. */
  lemma {:induction false} RoundTrip(hash: PairHash, txids: seq<Digest>, matched: seq<bool>, indexes: seq<nat>)
    requires Injective(hash) && Distinct(txids) && |matched| == |txids| && 0 < |txids| <= MAX_TRANSACTIONS
    ensures var at := Indexes(matched, 0, |txids|);
            && Ascending(at)
            && (forall p | 0 <= p < |matched| :: matched[p] <==> p in at)
            && ExtractMatches(hash, Sent(BuildTree(hash, txids, matched)), false, indexes)
               == (Root(hash, txids), Pick(txids, at), indexes + at)
  {
    hide Injective, Distinct, Width, Build, Extract, Indexes, Pick, Pack, Unpack, CalcHash, Twins, ExtractMatches;
    RoundTripUnlessTwins(hash, txids, matched, indexes);
    NoTwins(hash, txids, matched, Height(|txids|), 0);
  }

  // ----- nothing may be added or left out -----

  lemma {:induction false} BadStays(hash: PairHash, n: nat, bits: seq<bool>, hashes: seq<Digest>, h: nat, pos: nat, c: Cursor)
    requires c.bad
    ensures Extract(hash, n, bits, hashes, h, pos, c).0.bad
    decreases h
  {
    hide Width;
    if c.bitsUsed < |bits| && bits[c.bitsUsed] && h > 0 {
      var c1 := c.(bitsUsed := c.bitsUsed + 1);
      BadStays(hash, n, bits, hashes, h - 1, 2 * pos, c1);
      BadStays(hash, n, bits, hashes, h - 1, 2 * pos + 1, Extract(hash, n, bits, hashes, h - 1, 2 * pos, c1).0);
    }
  }

  /** An extraction that does not turn bad does not look beyond what it uses. */
  lemma {:induction false} LooksNoFurther(hash: PairHash, n: nat, bits: seq<bool>, hashes: seq<Digest>, h: nat, pos: nat, c: Cursor, bits': seq<bool>, hashes': seq<Digest>)
    requires !Extract(hash, n, bits, hashes, h, pos, c).0.bad && bits <= bits' && hashes <= hashes'
    ensures Extract(hash, n, bits', hashes', h, pos, c) == Extract(hash, n, bits, hashes, h, pos, c)
    decreases h
  {
    if c.bitsUsed < |bits| && bits[c.bitsUsed] && h > 0 {
      hide Width, Extract;
      var c1 := c.(bitsUsed := c.bitsUsed + 1);
      ExtractParts(hash, n, bits, hashes, h, pos, c);
      ExtractParts(hash, n, bits', hashes', h, pos, c);
      var c2 := Extract(hash, n, bits, hashes, h - 1, 2 * pos, c1).0;
      if c2.bad { BadStays(hash, n, bits, hashes, h - 1, 2 * pos + 1, c2); }
      LooksNoFurther(hash, n, bits, hashes, h - 1, 2 * pos, c1, bits', hashes');
      if 2 * pos + 1 < Width(n, h - 1) { LooksNoFurther(hash, n, bits, hashes, h - 1, 2 * pos + 1, c2, bits', hashes'); }
    }
  }

  /** Of two trees of which one has the hashes and bits of the other and more hashes, or eight bits more, at most one is accepted. */
  lemma {:induction false} NothingMayBeAdded(hash: PairHash, t: Tree, t': Tree, bad: bool, indexes: seq<nat>)
    requires t'.n == t.n && t.bits <= t'.bits && t.hashes <= t'.hashes && (t.hashes != t'.hashes || |t'.bits| >= |t.bits| + 8)
    ensures ExtractMatches(hash, t, bad, indexes).0 == 0 || ExtractMatches(hash, t', bad, indexes).0 == 0
  {
    hide Extract;
    if ExtractMatches(hash, t, bad, indexes).0 != 0 {
      LooksNoFurther(hash, t.n, t.bits, t.hashes, Height(t.n), 0, Cursor(0, 0, bad, [], indexes), t'.bits, t'.hashes);
      if t.hashes != t'.hashes { assert |t'.hashes| > |t.hashes|; }
    }
  }

  /** No tree for no transactions or for more than 16666 is accepted, nor one with more hashes than transactions or bits. */
  lemma {:induction false} OutOfLimits(hash: PairHash, t: Tree, bad: bool, indexes: seq<nat>)
    requires t.n == 0 || t.n > 16666 || |t.hashes| > t.n || |t.bits| < |t.hashes|
    ensures ExtractMatches(hash, t, bad, indexes) == (0, [], indexes)
  {
  }

  // ----- what is extracted under the true root is authentic -----

  /** Transactions ms reported at the positions at, between lo and hi. */
  predicate Authentic(txids: seq<Digest>, ms: seq<Digest>, at: seq<nat>, lo: nat, hi: nat) {
    && |ms| == |at| && Ascending(at)
    && forall k | 0 <= k < |at| :: lo <= at[k] < hi && at[k] < |txids| && txids[at[k]] == ms[k]
  }

  lemma {:induction false} AuthenticBoth(txids: seq<Digest>, m1: seq<Digest>, at1: seq<nat>, m2: seq<Digest>, at2: seq<nat>, lo: nat, mid: nat, hi: nat)
    requires lo <= mid <= hi && Authentic(txids, m1, at1, lo, mid) && Authentic(txids, m2, at2, mid, hi)
    ensures Authentic(txids, m1 + m2, at1 + at2, lo, hi)
  {
    var at, ms := at1 + at2, m1 + m2;
    forall k | 0 <= k < |at| ensures lo <= at[k] < hi && at[k] < |txids| && txids[at[k]] == ms[k] {
      if k < |at1| { assert at[k] == at1[k]; } else { assert at[k] == at2[k - |at1|]; }
    }
    AscendingBoth(at1, at2, mid);
  }

  lemma {:induction false} AscendingBoth(at1: seq<nat>, at2: seq<nat>, mid: nat)
    requires Ascending(at1) && Ascending(at2) && (forall k | 0 <= k < |at1| :: at1[k] < mid) && (forall k | 0 <= k < |at2| :: mid <= at2[k])
    ensures Ascending(at1 + at2)
  {
  }

  /** An inner node with a set bit: the left child, then the right one if it is there. */
  lemma {:induction false} ExtractInner(hash: PairHash, n: nat, bits: seq<bool>, hashes: seq<Digest>, h: nat, pos: nat, c: Cursor)
    requires c.bitsUsed < |bits| && bits[c.bitsUsed] && h > 0
    ensures var c1 := c.(bitsUsed := c.bitsUsed + 1);
            var (c2, left) := Extract(hash, n, bits, hashes, h - 1, 2 * pos, c1);
            var (c3, right) := if 2 * pos + 1 < Width(n, h - 1) then Extract(hash, n, bits, hashes, h - 1, 2 * pos + 1, c2) else (c2, left);
            var (c', digest) := Extract(hash, n, bits, hashes, h, pos, c);
            digest == hash(left, right) && c'.matches == c3.matches && c'.indexes == c3.indexes
  {
    hide Width;
  }

  /** A leaf, or a node whose bit is not set, collects at most the leaf itself. */
  lemma {:induction false} ExtractOuter(hash: PairHash, n: nat, bits: seq<bool>, hashes: seq<Digest>, h: nat, pos: nat, c: Cursor)
    requires c.bitsUsed >= |bits| || !bits[c.bitsUsed] || h == 0
    ensures var (c', digest) := Extract(hash, n, bits, hashes, h, pos, c);
            if c.bitsUsed < |bits| && bits[c.bitsUsed] && c.hashUsed < |hashes|
            then digest == hashes[c.hashUsed] && c'.matches == c.matches + [digest] && c'.indexes == c.indexes + [pos]
            else c'.matches == c.matches && c'.indexes == c.indexes
  {
  }

  /** Under an injective hash the children that were read are the children of the node. */
  lemma {:induction false} ChildrenAre(hash: PairHash, txids: seq<Digest>, bits: seq<bool>, hashes: seq<Digest>, h: nat, pos: nat, c: Cursor)
    requires Injective(hash) && pos < Width(|txids|, h) && c.bitsUsed < |bits| && bits[c.bitsUsed] && h > 0
    requires Extract(hash, |txids|, bits, hashes, h, pos, c).1 == CalcHash(hash, txids, h, pos)
    ensures 2 * pos < Width(|txids|, h - 1)
    ensures var c1 := c.(bitsUsed := c.bitsUsed + 1);
            var (c2, left) := Extract(hash, |txids|, bits, hashes, h - 1, 2 * pos, c1);
            && left == CalcHash(hash, txids, h - 1, 2 * pos)
            && (2 * pos + 1 < Width(|txids|, h - 1) ==>
                  Extract(hash, |txids|, bits, hashes, h - 1, 2 * pos + 1, c2).1 == CalcHash(hash, txids, h - 1, 2 * pos + 1))
  {
    hide Width, Extract;
    ChildIsThere(|txids|, h, pos);
    ExtractInner(hash, |txids|, bits, hashes, h, pos, c);
    var there := 2 * pos + 1 < Width(|txids|, h - 1);
    var (c2, left) := Extract(hash, |txids|, bits, hashes, h - 1, 2 * pos, c.(bitsUsed := c.bitsUsed + 1));
    var right := if there then Extract(hash, |txids|, bits, hashes, h - 1, 2 * pos + 1, c2).1 else left;
    var left' := CalcHash(hash, txids, h - 1, 2 * pos);
    var right' := if there then CalcHash(hash, txids, h - 1, 2 * pos + 1) else left';
    assert CalcHash(hash, txids, h, pos) == hash(left', right');
    assert hash(left, right) == hash(left', right');
  }

  /** If an extraction ends at the hash of the node it was for, it reported only what is there. */
  lemma {:induction false} ExtractAuthentic(hash: PairHash, txids: seq<Digest>, bits: seq<bool>, hashes: seq<Digest>, h: nat, pos: nat, c: Cursor)
      returns (ms: seq<Digest>, at: seq<nat>)
    requires Injective(hash) && pos < Width(|txids|, h)
    requires Extract(hash, |txids|, bits, hashes, h, pos, c).1 == CalcHash(hash, txids, h, pos)
    ensures Authentic(txids, ms, at, FirstLeaf(h, pos), FirstLeaf(h, pos + 1))
    ensures var c' := Extract(hash, |txids|, bits, hashes, h, pos, c).0; c'.matches == c.matches + ms && c'.indexes == c.indexes + at
    decreases h
  {
    hide Width, Authentic, Extract;
    LeafRanges(h, pos);
    if c.bitsUsed < |bits| && bits[c.bitsUsed] && h > 0 {
      ChildIsThere(|txids|, h, pos);
      ExtractInner(hash, |txids|, bits, hashes, h, pos, c);
      ChildrenAre(hash, txids, bits, hashes, h, pos, c);
      Leaves(h, pos);
      var lo, mid, hi := FirstLeaf(h, pos), FirstLeaf(h - 1, 2 * pos + 1), FirstLeaf(h, pos + 1);
      var c1 := c.(bitsUsed := c.bitsUsed + 1);
      var c2 := Extract(hash, |txids|, bits, hashes, h - 1, 2 * pos, c1).0;
      var m1, at1 := ExtractAuthentic(hash, txids, bits, hashes, h - 1, 2 * pos, c1);
      var m2, at2 := [], [];
      NothingAuthentic(txids, mid, hi);
      if 2 * pos + 1 < Width(|txids|, h - 1) {
        m2, at2 := ExtractAuthentic(hash, txids, bits, hashes, h - 1, 2 * pos + 1, c2);
      }
      AuthenticBoth(txids, m1, at1, m2, at2, lo, mid, hi);
      ms, at := m1 + m2, at1 + at2;
      Append(c.matches, m1, m2);
      Append(c.indexes, at1, at2);
    } else if c.bitsUsed < |bits| && bits[c.bitsUsed] && c.hashUsed < |hashes| {
      ExtractOuter(hash, |txids|, bits, hashes, h, pos, c);
      NodeIsThere(|txids|, 0, pos);
      ms, at := [hashes[c.hashUsed]], [pos];
      OneAuthentic(txids, pos);
    } else {
      ExtractOuter(hash, |txids|, bits, hashes, h, pos, c);
      ms, at := [], [];
      NothingAuthentic(txids, FirstLeaf(h, pos), FirstLeaf(h, pos + 1));
    }
  }

  lemma {:induction false} NothingAuthentic(txids: seq<Digest>, lo: nat, hi: nat)
    ensures Authentic(txids, [], [], lo, hi)
  {
  }

  lemma {:induction false} OneAuthentic(txids: seq<Digest>, pos: nat)
    requires pos < |txids|
    ensures Authentic(txids, [txids[pos]], [pos], pos, pos + 1)
  {
  }

  /**
   * Whatever tree is sent for this number of transactions, if its extraction returns their merkle root,
   * every reported transaction is the one at the reported position, and no position is reported twice.
   */
  lemma {:induction false} AcceptedIsAuthentic(hash: PairHash, txids: seq<Digest>, t: Tree, bad: bool, indexes: seq<nat>)
      returns (at: seq<nat>)
    requires Injective(hash) && t.n == |txids| > 0 && Root(hash, txids) != 0
    requires ExtractMatches(hash, t, bad, indexes).0 == Root(hash, txids)
    ensures var (_, ms, all) := ExtractMatches(hash, t, bad, indexes);
            all == indexes + at && Authentic(txids, ms, at, 0, |txids|)
  {
    hide Width, Extract, CalcHash;
    RootIsThere(|txids|);
    var ms;
    ms, at := ExtractAuthentic(hash, txids, t.bits, t.hashes, Height(t.n), 0, Cursor(0, 0, bad, [], indexes));
    assert [] + ms == ms;
  }

  // ----- the merkle root, level by level -----

  /** One level up: neighbours are hashed together, and a last one without a neighbour with itself. */
  function PairUp(hash: PairHash, level: seq<Digest>): seq<Digest> {
    seq((|level| + 1) / 2, k requires 0 <= k < (|level| + 1) / 2 => hash(level[2 * k], level[if 2 * k + 1 < |level| then 2 * k + 1 else 2 * k]))
  }

  function MerkleRoot(hash: PairHash, level: seq<Digest>): Digest
    requires |level| > 0
    decreases |level|
  {
    if |level| == 1 then level[0] else MerkleRoot(hash, PairUp(hash, level))
  }

  /** The nodes at a height. */
  function Level(hash: PairHash, txids: seq<Digest>, h: nat): (r: seq<Digest>)
    ensures |r| == Width(|txids|, h)
  {
    seq(Width(|txids|, h), pos requires 0 <= pos < Width(|txids|, h) => CalcHash(hash, txids, h, pos))
  }

  lemma {:induction false} HalfAsWide(n: nat, h: nat)
    ensures Width(n, h + 1) == (Width(n, h) + 1) / 2
  {
    hide Width;
    SameNodes(n, h, Width(n, h + 1));
    SameNodes(n, h, (Width(n, h) + 1) / 2);
  }

  lemma {:induction false} SameNodes(n: nat, h: nat, pos: nat)
    ensures pos < Width(n, h + 1) <==> pos < (Width(n, h) + 1) / 2
  {
    hide Width, FirstLeaf;
    NodeIsThere(n, h + 1, pos);
    NodeIsThere(n, h, 2 * pos);
    Leaves(h + 1, pos);
  }

  lemma {:induction false} NodeAbove(hash: PairHash, txids: seq<Digest>, h: nat, pos: nat)
    requires pos < Width(|txids|, h + 1)
    ensures 2 * pos < Width(|txids|, h)
    ensures var w := Width(|txids|, h);
            CalcHash(hash, txids, h + 1, pos)
            == hash(CalcHash(hash, txids, h, 2 * pos), CalcHash(hash, txids, h, if 2 * pos + 1 < w then 2 * pos + 1 else 2 * pos))
  {
    hide Width;
    ChildIsThere(|txids|, h + 1, pos);
  }

  lemma {:induction false} LevelAbove(hash: PairHash, txids: seq<Digest>, h: nat)
    ensures Level(hash, txids, h + 1) == PairUp(hash, Level(hash, txids, h))
  {
    hide Width, CalcHash;
    HalfAsWide(|txids|, h);
    var above, below := Level(hash, txids, h + 1), Level(hash, txids, h);
    forall pos | 0 <= pos < |above| ensures above[pos] == PairUp(hash, below)[pos] {
      NodeAbove(hash, txids, h, pos);
    }
  }

  lemma {:induction false} RootFrom(hash: PairHash, txids: seq<Digest>, h: nat)
    requires |txids| > 0
    ensures 0 < Width(|txids|, h) && 0 < Width(|txids|, HeightFrom(|txids|, h))
    ensures MerkleRoot(hash, Level(hash, txids, h)) == CalcHash(hash, txids, HeightFrom(|txids|, h), 0)
    decreases |txids| - Pow2(h)
  {
    hide Width, PairUp, CalcHash;
    NodeIsThere(|txids|, h, 0);
    if Width(|txids|, h) > 1 {
      WideIsBelow(|txids|, h);
      LevelAbove(hash, txids, h);
      RootFrom(hash, txids, h + 1);
    }
  }

  /** The root of a tree is the merkle root of its transactions as it is computed level by level. */
  lemma {:induction false} RootIsMerkleRoot(hash: PairHash, txids: seq<Digest>)
    requires |txids| > 0
    ensures Root(hash, txids) == MerkleRoot(hash, txids)
  {
    hide PairUp, MerkleRoot;
    RootFrom(hash, txids, 0);
    LeavesAreLevel(hash, txids);
  }

  lemma {:induction false} LeavesAreLevel(hash: PairHash, txids: seq<Digest>)
    ensures Level(hash, txids, 0) == txids
  {
    var level := Level(hash, txids, 0);
    assert Pow2(0) == 1 && Width(|txids|, 0) == |txids|;
    forall pos | 0 <= pos < |txids| ensures level[pos] == txids[pos] {}
  }
}
