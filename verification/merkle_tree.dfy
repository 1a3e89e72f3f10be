/** CPartialMerkleTree as an object whose traversals append to its vectors. */
module MerkleTree {
  import opened Arithmetic
  import opened ByteBits
  import opened M = MerkleModel
  import opened P = MerkleProofs

  class PartialMerkleTree {
    const hash: PairHash
    var nTransactions: nat
    var vBits: seq<bool>
    var vHash: seq<Digest>
    var fBad: bool

    ghost function Model(): Tree
      reads this
    {
      Tree(nTransactions, vBits, vHash)
    }

    function CalcTreeWidth(height: nat): nat
      reads this
    {
      (nTransactions + Pow2(height) - 1) / Pow2(height)
    }

    /** The height of the tree, found by trying. */
    method CalcHeight() returns (nHeight: nat)
      ensures nHeight == Height(nTransactions)
    {
      nHeight := 0;
      while CalcTreeWidth(nHeight) > 1
        invariant HeightFrom(nTransactions, nHeight) == Height(nTransactions)
        decreases nTransactions - Pow2(nHeight)
      {
        WideIsBelow(nTransactions, nHeight);
        nHeight := nHeight + 1;
      }
    }

    /** Whether a node is the parent of a match. */
    method ParentOfMatch(height: nat, pos: nat, vMatch: seq<bool>) returns (found: bool)
      requires |vMatch| == nTransactions
      ensures found == AnyMatch(vMatch, FirstLeaf(height, pos), FirstLeaf(height, pos + 1))
    {
      found := false;
      LeafRanges(height, pos);
      var p := pos * Pow2(height);
      while p < (pos + 1) * Pow2(height) && p < nTransactions
        invariant FirstLeaf(height, pos) <= p <= FirstLeaf(height, pos + 1)
        invariant found == AnyMatch(vMatch, FirstLeaf(height, pos), p)
      {
        found := found || vMatch[p];
        p := p + 1;
      }
    }

    method TraverseAndBuild(height: nat, pos: nat, vTxid: seq<Digest>, vMatch: seq<bool>)
      requires |vMatch| == |vTxid| == nTransactions && pos < Width(nTransactions, height)
      modifies this`vBits, this`vHash
      ensures vBits == old(vBits) + Build(hash, vTxid, vMatch, height, pos).0
      ensures vHash == old(vHash) + Build(hash, vTxid, vMatch, height, pos).1
      decreases height
    {
      hide Width, Build, CalcHash, AnyMatch, FirstLeaf;
      var fParentOfMatch := ParentOfMatch(height, pos, vMatch);
      vBits := vBits + [fParentOfMatch];
      if height == 0 || !fParentOfMatch {
        BuildStops(hash, vTxid, vMatch, height, pos);
        vHash := vHash + [CalcHash(hash, vTxid, height, pos)];
      } else {
        ghost var b1, h1, b2, h2 := BuildNode(hash, vTxid, vMatch, height, pos);
        TraverseAndBuild(height - 1, 2 * pos, vTxid, vMatch);
        if 2 * pos + 1 < CalcTreeWidth(height - 1) {
          assert 2 * pos + 1 < Width(nTransactions, height - 1) by { WidthIs(height - 1); }
          TraverseAndBuild(height - 1, 2 * pos + 1, vTxid, vMatch);
        } else {
          WidthIs(height - 1);
        }
        Joined(old(vBits), [true], b1, b2);
        Joined(old(vHash), [], h1, h2);
      }
    }

    static lemma {:induction false} Joined<T>(a: seq<T>, b: seq<T>, c: seq<T>, d: seq<T>)
      ensures a + (b + c + d) == a + b + c + d && (b == [] ==> a + b == a) && (d == [] ==> a + b + c + d == a + b + c)
    {
    }

    lemma {:induction false} WidthIs(height: nat)
      ensures CalcTreeWidth(height) == Width(nTransactions, height)
    {
    }

    /** Build from the ids of a block and a selection of them. */
    constructor (h: PairHash, vTxid: seq<Digest>, vMatch: seq<bool>)
      requires |vMatch| == |vTxid| > 0
      ensures Model() == BuildTree(h, vTxid, vMatch) && !fBad && hash == h
    {
      hash, nTransactions, vBits, vHash, fBad := h, |vTxid|, [], [], false;
      new;
      var nHeight := CalcHeight();
      RootIsThere(nTransactions);
      TraverseAndBuild(nHeight, 0, vTxid, vMatch);
    }

    method TraverseAndExtract(height: nat, pos: nat, c: Cursor) returns (c': Cursor, digest: Digest)
      requires c.bad == fBad
      modifies this`fBad
      ensures (c', digest) == Extract(hash, nTransactions, vBits, vHash, height, pos, c) && c'.bad == fBad
      decreases height
    {
      c' := c;
      if c'.bitsUsed >= |vBits| {
        fBad := true;
        return c'.(bad := true), 0;
      }
      var fParentOfMatch := vBits[c'.bitsUsed];
      c' := c'.(bitsUsed := c'.bitsUsed + 1);
      if height == 0 || !fParentOfMatch {
        if c'.hashUsed >= |vHash| {
          fBad := true;
          return c'.(bad := true), 0;
        }
        digest := vHash[c'.hashUsed];
        c' := c'.(hashUsed := c'.hashUsed + 1);
        if height == 0 && fParentOfMatch {
          c' := c'.(matches := c'.matches + [digest], indexes := c'.indexes + [pos]);
        }
      } else {
        var left, right;
        c', left := TraverseAndExtract(height - 1, 2 * pos, c');
        if 2 * pos + 1 < CalcTreeWidth(height - 1) {
          c', right := TraverseAndExtract(height - 1, 2 * pos + 1, c');
          if right == left {
            fBad := true;
            c' := c'.(bad := true);
          }
        } else {
          right := left;
        }
        digest := hash(left, right);
      }
    }

    /** The root, or zero; indexes are appended to the caller's list. */
    method ExtractMatches(indexes: seq<nat>) returns (root: Digest, vMatch: seq<Digest>, vnIndex: seq<nat>)
      modifies this`fBad
      ensures (root, vMatch, vnIndex) == M.ExtractMatches(hash, Model(), old(fBad), indexes)
    {
      if nTransactions == 0 || nTransactions > MAX_TRANSACTIONS { return 0, [], indexes; }
      if |vHash| > nTransactions { return 0, [], indexes; }
      if |vBits| < |vHash| { return 0, [], indexes; }
      var nHeight := CalcHeight();
      var c;
      c, root := TraverseAndExtract(nHeight, 0, Cursor(0, 0, fBad, [], indexes));
      vMatch, vnIndex := c.matches, c.indexes;
      if fBad { return 0, vMatch, vnIndex; }
      if (c.bitsUsed + 7) / 8 != (|vBits| + 7) / 8 { return 0, vMatch, vnIndex; }
      if c.hashUsed != |vHash| { return 0, vMatch, vnIndex; }
    }

    /** How many bits of byte k have been written after p bits. */
    static function Written(p: nat, k: nat): (r: nat)
      ensures r <= 8
    {
      if p <= 8 * k then 0 else if p >= 8 * k + 8 then 8 else p - 8 * k
    }

    /** The flag bits as bytes, least significant bit first. */
    method PackBits() returns (vBytes: seq<bv8>)
      ensures vBytes == Pack(vBits)
    {
      hide Mask;
      vBytes := seq((|vBits| + 7) / 8, _ => 0);
      for p := 0 to |vBits|
        invariant |vBytes| == (|vBits| + 7) / 8
        invariant forall k | 0 <= k < |vBytes| :: vBytes[k] == PackByte(vBits, 8 * k, Written(p, k))
      {
        var bit := if vBits[p] then Mask(p % 8) else 0;
        assert 8 * (p / 8) + p % 8 == p && Written(p, p / 8) == p % 8 && Written(p + 1, p / 8) == p % 8 + 1;
        vBytes := vBytes[p / 8 := vBytes[p / 8] | bit];
      }
      forall k | 0 <= k < |vBytes| ensures vBytes[k] == PackByte(vBits, 8 * k, 8) { BeyondIsZero(vBits, 8 * k, Written(|vBits|, k)); }
    }

    /** Bits beyond the end change nothing. */
    static lemma {:induction false} BeyondIsZero(bits: seq<bool>, base: nat, k: nat)
      requires k <= 8 && (k < 8 ==> base + k >= |bits|)
      ensures PackByte(bits, base, k) == PackByte(bits, base, 8)
      decreases 8 - k
    {
      hide Mask;
      if k < 8 {
        assert PackByte(bits, base, k + 1) == PackByte(bits, base, k) | 0 == PackByte(bits, base, k);
        BeyondIsZero(bits, base, k + 1);
      }
    }

    method UnpackBits(vBytes: seq<bv8>)
      modifies this
      ensures vBits == Unpack(vBytes) && !fBad && vHash == old(vHash) && nTransactions == old(nTransactions)
    {
      hide Mask, Unpack;
      var bits := seq(8 * |vBytes|, _ => false);
      for p := 0 to |bits|
        invariant |bits| == 8 * |vBytes| && forall q | 0 <= q < p :: bits[q] == Unpack(vBytes)[q]
        invariant unchanged(this)
      {
        UnpackAt(vBytes, p);
        bits := bits[p := vBytes[p / 8] & Mask(p % 8) != 0];
      }
      assert bits == Unpack(vBytes);
      vBits := bits;
      fBad := false;
    }
  }

  /** The selection of CMerkleBlock: the transactions whose ids are asked for. */
  method Select(vHashes: seq<Digest>, txids: set<Digest>) returns (vMatch: seq<bool>)
    ensures |vMatch| == |vHashes| && forall i | 0 <= i < |vHashes| :: vMatch[i] <==> vHashes[i] in txids
  {
    vMatch := [];
    for i := 0 to |vHashes|
      invariant |vMatch| == i && forall j | 0 <= j < i :: vMatch[j] <==> vHashes[j] in txids
    {
      vMatch := vMatch + [vHashes[i] in txids];
    }
  }
}
