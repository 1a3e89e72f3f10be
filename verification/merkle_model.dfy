/** Partial merkle trees: the hash of a node, the depth-first encoding of a subset of the leaves, and its extraction. */
module MerkleModel {
  import opened Arithmetic

  /** A 256-bit hash; zero is the null hash. */
  type Digest = nat

  type PairHash = (Digest, Digest) -> Digest

  const MAX_TRANSACTIONS: nat := 1000000 / 60

  /** The number of nodes at a height. */
  function Width(n: nat, h: nat): nat {
    (n + Pow2(h) - 1) / Pow2(h)
  }

  /** The first leaf below a node. */
  function FirstLeaf(h: nat, pos: nat): nat {
    pos * Pow2(h)
  }

  function CalcHash(hash: PairHash, txids: seq<Digest>, h: nat, pos: nat): Digest
    requires pos < Width(|txids|, h)
    decreases h
  {
    if h == 0 then NodeIsThere(|txids|, 0, pos); txids[pos]
    else
      ChildIsThere(|txids|, h, pos);
      var left := CalcHash(hash, txids, h - 1, 2 * pos);
      var right := if 2 * pos + 1 < Width(|txids|, h - 1) then CalcHash(hash, txids, h - 1, 2 * pos + 1) else left;
      hash(left, right)
  }

  predicate AnyMatch(matched: seq<bool>, lo: nat, hi: nat) {
    exists p | lo <= p < hi && p < |matched| :: matched[p]
  }

  /** The flag bits and hashes of the subtree at a node, in depth-first order. */
  function Build(hash: PairHash, txids: seq<Digest>, matched: seq<bool>, h: nat, pos: nat): (seq<bool>, seq<Digest>)
    requires |matched| == |txids| && pos < Width(|txids|, h)
    decreases h
  {
    var flag := AnyMatch(matched, FirstLeaf(h, pos), FirstLeaf(h, pos + 1));
    if h == 0 || !flag then ([flag], [CalcHash(hash, txids, h, pos)])
    else
      ChildIsThere(|txids|, h, pos);
      var (b1, h1) := Build(hash, txids, matched, h - 1, 2 * pos);
      var (b2, h2) := if 2 * pos + 1 < Width(|txids|, h - 1) then Build(hash, txids, matched, h - 1, 2 * pos + 1) else ([], []);
      ([true] + b1 + b2, h1 + h2)
  }

  /** How far an extraction has come. */
  datatype Cursor = Cursor(bitsUsed: nat, hashUsed: nat, bad: bool, matches: seq<Digest>, indexes: seq<nat>)

  /** Read the subtree at a node: the cursor after it, and the hash of the node (zero after an overflow). */
  function Extract(hash: PairHash, n: nat, bits: seq<bool>, hashes: seq<Digest>, h: nat, pos: nat, c: Cursor): (Cursor, Digest)
    decreases h
  {
    if c.bitsUsed >= |bits| then (c.(bad := true), 0) else
    var flag := bits[c.bitsUsed];
    var c1 := c.(bitsUsed := c.bitsUsed + 1);
    if h == 0 || !flag then
      if c1.hashUsed >= |hashes| then (c1.(bad := true), 0) else
      var digest := hashes[c1.hashUsed];
      var c2 := c1.(hashUsed := c1.hashUsed + 1);
      (if h == 0 && flag then c2.(matches := c2.matches + [digest], indexes := c2.indexes + [pos]) else c2, digest)
    else
      var (c2, left) := Extract(hash, n, bits, hashes, h - 1, 2 * pos, c1);
      if 2 * pos + 1 < Width(n, h - 1) then
        var (c3, right) := Extract(hash, n, bits, hashes, h - 1, 2 * pos + 1, c2);
        (if left == right then c3.(bad := true) else c3, hash(left, right))
      else (c2, hash(left, left))
  }

  /** The least height with a single node. */
  function HeightFrom(n: nat, h: nat): (r: nat)
    ensures Width(n, r) <= 1
    decreases n - Pow2(h)
  {
    if Width(n, h) <= 1 then h else WideIsBelow(n, h); HeightFrom(n, h + 1)
  }

  function Height(n: nat): nat {
    HeightFrom(n, 0)
  }

  /** A tree as it is sent. */
  datatype Tree = Tree(n: nat, bits: seq<bool>, hashes: seq<Digest>)

  function BuildTree(hash: PairHash, txids: seq<Digest>, matched: seq<bool>): Tree
    requires |matched| == |txids| > 0
  {
    RootIsThere(|txids|);
    var (bits, hashes) := Build(hash, txids, matched, Height(|txids|), 0);
    Tree(|txids|, bits, hashes)
  }

  function Root(hash: PairHash, txids: seq<Digest>): Digest
    requires |txids| > 0
  {
    RootIsThere(|txids|);
    CalcHash(hash, txids, Height(|txids|), 0)
  }

  /** The root (zero on failure) and whatever the traversal collected; indexes are appended to those given. */
  function ExtractMatches(hash: PairHash, t: Tree, bad: bool, indexes: seq<nat>): (Digest, seq<Digest>, seq<nat>) {
    if t.n == 0 || t.n > MAX_TRANSACTIONS || |t.hashes| > t.n || |t.bits| < |t.hashes| then (0, [], indexes) else
    var (c, root) := Extract(hash, t.n, t.bits, t.hashes, Height(t.n), 0, Cursor(0, 0, bad, [], indexes));
    (if c.bad || (c.bitsUsed + 7) / 8 != (|t.bits| + 7) / 8 || c.hashUsed != |t.hashes| then 0 else root, c.matches, c.indexes)
  }

  // ----- arithmetic of the tree's shape -----

  lemma {:induction false} NodeIsThere(n: nat, h: nat, pos: nat)
    ensures pos < Width(n, h) <==> FirstLeaf(h, pos) < n
  {
    var p := Pow2(h);
    Rounding(n, p, pos);
  }

  lemma {:induction false} Rounding(n: nat, p: nat, pos: nat)
    requires p >= 1
    ensures pos < (n + p - 1) / p <==> pos * p < n
  {
    var q := (n + p - 1) / p;
    var r := (n + p - 1) % p;
    assert q * p + r == n + p - 1 && r < p;
    if pos < q { MulLe(pos + 1, q, p); } else { MulLe(q, pos, p); }
  }

  lemma {:induction false} Leaves(h: nat, pos: nat)
    requires h > 0
    ensures FirstLeaf(h - 1, 2 * pos) == FirstLeaf(h, pos)
    ensures FirstLeaf(h - 1, 2 * pos + 1) == FirstLeaf(h, pos) + Pow2(h - 1)
    ensures FirstLeaf(h - 1, 2 * pos + 2) == FirstLeaf(h, pos + 1)
  {
    var p := Pow2(h - 1);
    assert 2 * pos * p == pos * (2 * p);
    assert (2 * pos + 1) * p == 2 * pos * p + p;
    assert (2 * pos + 2) * p == (pos + 1) * (2 * p);
  }

  lemma {:induction false} ChildIsThere(n: nat, h: nat, pos: nat)
    requires h > 0 && pos < Width(n, h)
    ensures 2 * pos < Width(n, h - 1)
  {
    NodeIsThere(n, h, pos);
    NodeIsThere(n, h - 1, 2 * pos);
    Leaves(h, pos);
  }

  lemma {:induction false} WideIsBelow(n: nat, h: nat)
    requires Width(n, h) > 1
    ensures Pow2(h) < Pow2(h + 1) && Pow2(h) < n
  {
    NodeIsThere(n, h, 1);
  }

  lemma {:induction false} RootIsThere(n: nat)
    requires n > 0
    ensures 0 < Width(n, Height(n)) && n <= Pow2(Height(n))
  {
    NodeIsThere(n, Height(n), 0);
    NodeIsThere(n, Height(n), 1);
  }
}
