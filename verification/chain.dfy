/** Block-index entries with their skip list, and the active chain: fast walks that refine following pprev. */
module BlockChain {
  import opened Arithmetic

  // ----- skip heights -----

  /** Bitwise and. */
  function BitAnd(a: nat, b: nat): nat
    decreases a
  {
    if a == 0 || b == 0 then 0 else 2 * BitAnd(a / 2, b / 2) + if a % 2 == 1 && b % 2 == 1 then 1 else 0
  }

  function InvertLowestOne(n: nat): nat {
    if n == 0 then 0 else BitAnd(n, n - 1)
  }

  lemma {:induction false} AndSelf(n: nat)
    ensures BitAnd(n, n) == n
    decreases n
  {
    if n > 0 { AndSelf(n / 2); }
  }

  lemma {:induction false} OddInverted(n: nat)
    requires n % 2 == 1
    ensures InvertLowestOne(n) == n - 1
  {
    assert (n - 1) / 2 == n / 2 && (n - 1) % 2 == 0;
    AndSelf(n / 2);
  }

  lemma {:induction false} EvenInverted(n: nat)
    requires n % 2 == 0 && n > 0
    ensures InvertLowestOne(n) == 2 * InvertLowestOne(n / 2)
  {
    assert (n - 1) / 2 == n / 2 - 1;
  }

  /** It turns the lowest one bit into a zero: n is an odd multiple of a power of two, which is taken off. */
  lemma {:induction false} LowestOneInverted(n: nat) returns (k: nat, m: nat)
    requires n > 0
    ensures n == (2 * m + 1) * Pow2(k) && InvertLowestOne(n) == 2 * m * Pow2(k) && InvertLowestOne(n) < n
    decreases n
  {
    hide InvertLowestOne;
    if n % 2 == 1 {
      OddInverted(n);
      k, m := 0, n / 2;
    } else {
      EvenInverted(n);
      k, m := LowestOneInverted(n / 2);
      Doubled(2 * m + 1, Pow2(k));
      Doubled(2 * m, Pow2(k));
      k := k + 1;
    }
  }

  lemma {:induction false} Doubled(a: nat, p: nat)
    ensures a * (2 * p) == 2 * (a * p)
  {
  }

  function GetSkipHeight(height: nat): (r: nat)
    ensures height > 0 ==> r < height
  {
    if height < 2 then 0
    else if height % 2 == 1 then
      InvertedIsLess(height - 1);
      InvertedIsLess(InvertLowestOne(height - 1));
      InvertLowestOne(InvertLowestOne(height - 1)) + 1
    else
      InvertedIsLess(height);
      InvertLowestOne(height)
  }

  lemma {:induction false} InvertedIsLess(n: nat)
    ensures if n == 0 then InvertLowestOne(n) == 0 else InvertLowestOne(n) < n
  {
    if n > 0 { var _, _ := LowestOneInverted(n); }
  }

  // ----- how far skip pointers reach -----

  function Ones(n: nat): nat {
    if n == 0 then 0 else Ones(n / 2) + n % 2
  }

  lemma {:induction false} OneLess(n: nat)
    requires n > 0
    ensures Ones(InvertLowestOne(n)) == Ones(n) - 1 && InvertLowestOne(n) % 2 == 0
    decreases n
  {
    if n % 2 == 1 {
      OddInverted(n);
      if n > 1 { assert (n - 1) / 2 == n / 2; }
    } else {
      EvenInverted(n);
      OneLess(n / 2);
      DoubleOnes(InvertLowestOne(n / 2));
    }
  }

  lemma {:induction false} DoubleOnes(m: nat)
    ensures Ones(2 * m) == Ones(m)
  {
    assert (2 * m) / 2 == m && (2 * m) % 2 == 0;
  }

  /** The number of skips from a height down to zero. */
  function Skips(height: nat): nat {
    if height == 0 then 0 else 1 + Skips(GetSkipHeight(height))
  }

  /**
   * From an even height as many skips lead to the root as the height has one bits; from an odd height half as many as
   * the even one below has, rounded up, and one.
   */
  lemma {:induction false} SkipsAre(height: nat)
    ensures Skips(height) == if height % 2 == 0 then Ones(height) else (Ones(height - 1) + 1) / 2 + 1
    decreases height
  {
    hide InvertLowestOne;
    if height >= 2 {
      var skip := GetSkipHeight(height);
      if height % 2 == 0 {
        OneLess(height);
      } else {
        OneLess(height - 1);
        var m := InvertLowestOne(height - 1);
        if m > 0 { OneLess(m); } else { NoneInverted(); assert Ones(0) == 0; }
      }
      SkipsAre(skip);
    } else if height == 1 {
      assert GetSkipHeight(1) == 0 && Ones(0) == 0;
    }
  }

  lemma {:induction false} NoneInverted()
    ensures InvertLowestOne(0) == 0
  {
  }

  lemma {:induction false} OnesAtMost(n: nat, k: nat)
    requires n < Pow2(k)
    ensures Ones(n) <= k
    decreases k
  {
    if n > 0 {
      if k > 0 { OnesAtMost(n / 2, k - 1); }
    }
  }

  /** Skip pointers alone lead from any height below 2^k to the root in at most k + 1 steps. */
  lemma {:induction false} SkipsAreFew(height: nat, k: nat)
    requires height < Pow2(k)
    ensures Skips(height) <= k + 1
  {
    hide Skips;
    SkipsAre(height);
    if height % 2 == 0 { OnesAtMost(height, k); } else { OnesAtMost(height - 1, k); }
  }

  // ----- following pprev -----

  class BlockIndex {
    const nHeight: nat
    const pprev: BlockIndex?
    var pskip: BlockIndex?

    constructor (prev: BlockIndex?, height: nat)
      ensures pprev == prev && nHeight == height && pskip == null
    {
      pprev, nHeight, pskip := prev, height, null;
    }

    /** The fast walk: skip pointers where they help. */
    method GetAncestor(height: int) returns (r: BlockIndex?)
      requires Linked(this) && SkipsOk(this)
      ensures r == Walk(this, height)
      ensures r == null <==> height > nHeight || height < RootHeight(this)
    {
      WalkFinds(this, height);
      if height > nHeight || height < 0 { return null; }
      var walk, heightWalk := this, nHeight;
      while heightWalk > height
        invariant walk in Ancestors(this) && Linked(walk) && heightWalk == walk.nHeight >= height
        invariant Walk(walk, height) == Walk(this, height) && SkipsOk(this)
        decreases heightWalk
      {
        AncestorsOf(this, walk);
        assert SkipOk(walk);
        var heightSkip, heightSkipPrev := GetSkipHeight(heightWalk), GetSkipHeight(heightWalk - 1);
        if walk.pskip != null && (heightSkip == height || (heightSkip > height && !(heightSkipPrev < heightSkip - 2 && heightSkipPrev >= height))) {
          WalkTwice(walk, heightSkip, height);
          WalkFinds(walk, heightSkip);
          walk, heightWalk := walk.pskip, heightSkip;
        } else if walk.pprev != null {
          AncestorsOf(walk, walk.pprev);
          walk, heightWalk := walk.pprev, heightWalk - 1;
        } else {
          return null;
        }
      }
      r := walk;
    }

    /** Set the skip pointer of an entry whose ancestors already have theirs. */
    method BuildSkip()
      requires Linked(this) && (pprev != null ==> SkipsOk(pprev)) && (pprev == null ==> SkipOk(this))
      modifies this`pskip
      ensures SkipsOk(this)
      ensures pprev != null ==> pskip == Walk(this, GetSkipHeight(nHeight))
    {
      if pprev != null {
        AncestorsAllocated(pprev);
        var skip := pprev.GetAncestor(GetSkipHeight(nHeight));
        NotItsOwnAncestor(pprev, this);
        label Found:
        ghost var older := Ancestors(pprev);
        pskip := skip;
        forall x | x in older ensures SkipOk(x) {
          assert old@Found(SkipOk(x)) && x.pskip == old@Found(x.pskip);
        }
      }
    }
  }

  /** Heights go down by one along pprev. */
  ghost predicate Linked(b: BlockIndex)
    decreases b.nHeight
  {
    b.pprev != null ==> b.pprev.nHeight + 1 == b.nHeight && Linked(b.pprev)
  }

  ghost function Ancestors(b: BlockIndex): set<BlockIndex>
    requires Linked(b)
    decreases b.nHeight
  {
    {b} + if b.pprev == null then {} else Ancestors(b.pprev)
  }

  /** The height of the oldest entry known; zero unless the tree is partial. */
  ghost function RootHeight(b: BlockIndex): (r: nat)
    requires Linked(b)
    ensures r <= b.nHeight
    decreases b.nHeight
  {
    if b.pprev == null then b.nHeight else RootHeight(b.pprev)
  }

  /** The ancestor at a height, found by following pprev. */
  ghost function Walk(b: BlockIndex, height: int): BlockIndex?
    requires Linked(b)
    decreases b.nHeight
  {
    if height > b.nHeight then null
    else if height == b.nHeight then b
    else if b.pprev == null then null
    else Walk(b.pprev, height)
  }

  ghost predicate SkipOk(b: BlockIndex)
    reads b
  {
    Linked(b) && (b.pskip == null || b.pskip == Walk(b, GetSkipHeight(b.nHeight)))
  }

  ghost predicate SkipsOk(b: BlockIndex)
    requires Linked(b)
    reads Ancestors(b)
  {
    forall x | x in Ancestors(b) :: SkipOk(x)
  }

  lemma {:induction false} AncestorsLinked(b: BlockIndex)
    requires Linked(b)
    ensures forall x | x in Ancestors(b) :: Linked(x) && x.nHeight <= b.nHeight && RootHeight(x) == RootHeight(b)
    decreases b.nHeight
  {
    if b.pprev != null { AncestorsLinked(b.pprev); }
  }

  lemma {:induction false} AncestorsAllocated(b: BlockIndex)
    requires Linked(b)
    ensures forall x | x in Ancestors(b) :: allocated(x)
    decreases b.nHeight
  {
    if b.pprev != null { AncestorsAllocated(b.pprev); }
  }

  lemma {:induction false} AncestorsOf(b: BlockIndex, x: BlockIndex)
    requires Linked(b) && x in Ancestors(b)
    ensures Linked(x) && Ancestors(x) <= Ancestors(b) && Walk(b, x.nHeight) == x
    decreases b.nHeight
  {
    if x != b {
      AncestorsOf(b.pprev, x);
      AncestorsLinked(b.pprev);
    }
  }

  lemma {:induction false} NotItsOwnAncestor(b: BlockIndex, x: BlockIndex)
    requires Linked(b) && x.nHeight > b.nHeight
    ensures x !in Ancestors(b)
  {
    AncestorsLinked(b);
  }

  lemma {:induction false} WalkFinds(b: BlockIndex, height: int)
    requires Linked(b)
    ensures Walk(b, height) == null <==> height > b.nHeight || height < RootHeight(b)
    ensures Walk(b, height) != null ==> Walk(b, height) in Ancestors(b) && Walk(b, height).nHeight == height
    decreases b.nHeight
  {
    if b.pprev != null { WalkFinds(b.pprev, height); }
  }

  /** Walking in two stages. */
  lemma {:induction false} WalkTwice(b: BlockIndex, mid: int, height: int)
    requires Linked(b) && height <= mid && Walk(b, mid) != null
    ensures Walk(b, mid) in Ancestors(b) && Linked(Walk(b, mid)) && Walk(Walk(b, mid), height) == Walk(b, height)
    decreases b.nHeight
  {
    WalkFinds(b, mid);
    AncestorsLinked(b);
    if mid != b.nHeight { WalkTwice(b.pprev, mid, height); }
  }

  // ----- the active chain -----

  /** An ancestor of an ancestor. */
  lemma {:induction false} WalkFromAncestor(b: BlockIndex, x: BlockIndex, height: int)
    requires Linked(b) && x in Ancestors(b) && height <= x.nHeight
    ensures Linked(x) && Walk(x, height) == Walk(b, height)
  {
    AncestorsOf(b, x);
    WalkTwice(b, x.nHeight, height);
  }

  /** Every entry stands at its height, above its own ancestors; what is below the root of an entry is not constrained. */
  ghost predicate Consistent(v: seq<BlockIndex?>, offset: nat) {
    forall i | 0 <= i < |v| && v[i] != null ::
      v[i].nHeight == offset + i && Linked(v[i]) && forall j | 0 <= j < i && offset + j >= RootHeight(v[i]) :: v[j] == Walk(v[i], offset + j)
  }

  /** CChain, and with a positive offset CPartialChain. */
  class Chain {
    var vChain: seq<BlockIndex?>
    const nHeightOffset: nat

    constructor (offset: nat)
      ensures vChain == [] && nHeightOffset == offset && Consistent(vChain, nHeightOffset)
    {
      vChain, nHeightOffset := [], offset;
    }

    function Height(): int
      reads this
    {
      |vChain| + nHeightOffset - 1
    }

    function At(height: int): BlockIndex?
      reads this
    {
      if nHeightOffset <= height <= Height() then vChain[height - nHeightOffset] else null
    }

    predicate Contains(b: BlockIndex)
      reads this
    {
      At(b.nHeight) == b
    }

    /** Set the tip; stops as soon as it meets an entry that is already in place. */
    method SetTip(tip: BlockIndex?)
      requires Consistent(vChain, nHeightOffset) && (tip != null ==> Linked(tip) && tip.nHeight >= nHeightOffset)
      modifies this
      ensures Consistent(vChain, nHeightOffset)
      ensures tip == null ==> vChain == []
      ensures tip != null ==>
                && Height() == tip.nHeight
                && (forall h | nHeightOffset <= h <= tip.nHeight && h >= RootHeight(tip) :: At(h) == Walk(tip, h))
                && (forall h | nHeightOffset <= h < RootHeight(tip) :: At(h) == old(At(h)))
                && ((forall h | nHeightOffset <= h <= tip.nHeight :: At(h) == Walk(tip, h))
                    <==> forall h | nHeightOffset <= h < RootHeight(tip) :: old(At(h)) == null)
    {
      if tip == null {
        vChain := [];
        return;
      }
      var size := tip.nHeight - nHeightOffset + 1;
      var resized := Resized(vChain, size);
      vChain := Fill(resized, tip);
      TipInPlace(resized, vChain, nHeightOffset, tip);
      forall h | nHeightOffset <= h <= tip.nHeight ensures h < RootHeight(tip) <==> Walk(tip, h) == null { WalkFinds(tip, h); }
    }

    /** The last common block of a block's branch and this chain. */
    method FindFork(pindex: BlockIndex?) returns (r: BlockIndex?)
      requires Consistent(vChain, nHeightOffset) && (pindex != null ==> Linked(pindex) && SkipsOk(pindex))
      ensures r == null <==> pindex == null || forall x | x in Ancestors(pindex) :: !Contains(x)
      ensures r != null ==>
                && r in Ancestors(pindex) && Contains(r) && Linked(r)
                && (forall x | x in Ancestors(pindex) && Contains(x) :: x.nHeight <= r.nHeight)
                && (forall x | x in Ancestors(r) && x.nHeight >= nHeightOffset :: Contains(x))
    {
      hide Consistent, Walk, Ancestors, RootHeight, Linked, SkipsOk;
      if pindex == null { return null; }
      StartWalk(pindex);
      AncestorHeights(pindex);
      r := pindex;
      if pindex.nHeight > Height() {
        r := pindex.GetAncestor(Height());
        WalkFinds(pindex, Height());
      }
      while r != null && !Contains(r)
        invariant r != null ==> r in Ancestors(pindex)
        invariant forall x | x in Ancestors(pindex) && Contains(x) :: r != null && x.nHeight <= r.nHeight
        decreases if r == null then 0 else r.nHeight + 1
      {
        StepDown(pindex, r);
        forall x | x in Ancestors(pindex) && Contains(x) ensures r.pprev != null && x.nHeight <= r.pprev.nHeight {
          StepDown(pindex, x);
        }
        r := r.pprev;
      }
      if r != null {
        LinkedAncestor(pindex, r);
        SharedBelow(vChain, nHeightOffset, r);
      }
    }

    /** The loop of SetTip. */
    method Fill(v0: seq<BlockIndex?>, tip: BlockIndex) returns (v: seq<BlockIndex?>)
      requires Consistent(v0, nHeightOffset) && Linked(tip) && |v0| == tip.nHeight - nHeightOffset + 1 > 0
      ensures |v| == |v0|
      ensures forall i | 0 <= i < |v| :: v[i] == if nHeightOffset + i >= RootHeight(tip) then Walk(tip, nHeightOffset + i) else v0[i]
    {
      hide Consistent, Walk, Ancestors, RootHeight, Linked;
      v := v0;
      var pindex: BlockIndex? := tip;
      StartWalk(tip);
      while pindex != null && pindex.nHeight >= nHeightOffset && v[pindex.nHeight - nHeightOffset] != pindex
        invariant |v| == |v0|
        invariant pindex != null ==> pindex in Ancestors(tip) && pindex.nHeight <= tip.nHeight
        invariant forall i | 0 <= i < |v| :: v[i] == if nHeightOffset + i > Top(pindex, tip) then Walk(tip, nHeightOffset + i) else v0[i]
        decreases if pindex == null then 0 else pindex.nHeight + 1
      {
        StepDown(tip, pindex);
        v := v[pindex.nHeight - nHeightOffset := pindex];
        pindex := pindex.pprev;
      }
      if pindex != null {
        StepDown(tip, pindex);
        if pindex.nHeight >= nHeightOffset { StopsEarly(v0, nHeightOffset, tip, pindex); }
      }
    }
  }

  function Resized(v: seq<BlockIndex?>, size: nat): (r: seq<BlockIndex?>)
    ensures |r| == size && forall i | 0 <= i < size :: r[i] == if i < |v| then v[i] else null
  {
    if size <= |v| then v[..size] else v + seq(size - |v|, _ => null)
  }

  lemma {:induction false} StartWalk(tip: BlockIndex)
    requires Linked(tip)
    ensures tip in Ancestors(tip)
  {
  }

  lemma {:induction false} StepDown(tip: BlockIndex, x: BlockIndex)
    requires Linked(tip) && x in Ancestors(tip)
    ensures Walk(tip, x.nHeight) == x && RootHeight(tip) <= x.nHeight <= tip.nHeight
    ensures if x.pprev == null then RootHeight(tip) == x.nHeight else x.pprev in Ancestors(tip) && x.pprev.nHeight == x.nHeight - 1
  {
    AncestorsOf(tip, x);
    AncestorsLinked(tip);
  }

  /** A tip whose tree starts above the offset leaves the entries below it as they were: here a block that is no ancestor of the tip. */
  method StaleEntryStays() returns (chain: Chain, tip: BlockIndex)
    ensures Linked(tip) && chain.Height() == tip.nHeight == 1 && Consistent(chain.vChain, chain.nHeightOffset)
    ensures chain.At(0) != null && Walk(tip, 0) == null
  {
    var genesis := new BlockIndex(null, 0);
    chain := new Chain(0);
    chain.SetTip(genesis);
    assert chain.At(0) == Walk(genesis, 0);
    tip := new BlockIndex(null, 1);
    chain.SetTip(tip);
  }

  /** The height up to which SetTip has still to write. */
  ghost function Top(pindex: BlockIndex?, tip: BlockIndex): int
    requires Linked(tip)
  {
    if pindex == null then RootHeight(tip) - 1 else pindex.nHeight
  }

  /** Once an entry is in place, all below it down to its root are. */
  lemma {:induction false} StopsEarly(v: seq<BlockIndex?>, offset: nat, tip: BlockIndex, x: BlockIndex)
    requires Consistent(v, offset) && Linked(tip) && x in Ancestors(tip) && 0 <= x.nHeight - offset < |v| && v[x.nHeight - offset] == x
    ensures forall j | 0 <= j <= x.nHeight - offset && offset + j >= RootHeight(tip) :: v[j] == Walk(tip, offset + j)
  {
    AncestorsLinked(tip);
    AncestorsOf(tip, x);
    forall j | 0 <= j <= x.nHeight - offset && offset + j >= RootHeight(tip) ensures v[j] == Walk(tip, offset + j) {
      WalkFromAncestor(tip, x, offset + j);
    }
  }

  lemma {:induction false} TipInPlace(was: seq<BlockIndex?>, v: seq<BlockIndex?>, offset: nat, tip: BlockIndex)
    requires Consistent(was, offset) && Linked(tip) && tip.nHeight >= offset && |v| == tip.nHeight - offset + 1
    requires forall i | 0 <= i < |v| ::
               v[i] == if offset + i >= RootHeight(tip) then Walk(tip, offset + i) else if i < |was| then was[i] else null
    ensures Consistent(v, offset)
  {
    forall i | 0 <= i < |v| && v[i] != null
      ensures v[i].nHeight == offset + i && Linked(v[i]) && forall j | 0 <= j < i && offset + j >= RootHeight(v[i]) :: v[j] == Walk(v[i], offset + j)
    {
      if offset + i >= RootHeight(tip) {
        WalkFinds(tip, offset + i);
        AncestorsLinked(tip);
        forall j | 0 <= j < i && offset + j >= RootHeight(v[i]) ensures v[j] == Walk(v[i], offset + j) { WalkFromAncestor(tip, v[i], offset + j); }
      }
    }
  }

  lemma {:induction false} AncestorHeights(b: BlockIndex)
    requires Linked(b)
    ensures forall x | x in Ancestors(b) :: RootHeight(b) <= x.nHeight <= b.nHeight
  {
    AncestorsLinked(b);
  }

  lemma {:induction false} LinkedAncestor(b: BlockIndex, x: BlockIndex)
    requires Linked(b) && x in Ancestors(b)
    ensures Linked(x)
  {
    AncestorsOf(b, x);
  }

  lemma {:induction false} SharedBelow(v: seq<BlockIndex?>, offset: nat, r: BlockIndex)
    requires Consistent(v, offset) && Linked(r) && 0 <= r.nHeight - offset < |v| && v[r.nHeight - offset] == r
    ensures forall x | x in Ancestors(r) && x.nHeight >= offset :: x.nHeight - offset < |v| && v[x.nHeight - offset] == x
  {
    AncestorHeights(r);
    forall x | x in Ancestors(r) && x.nHeight >= offset ensures x.nHeight - offset < |v| && v[x.nHeight - offset] == x {
      AncestorsOf(r, x);
      if x != r { assert v[x.nHeight - offset] == Walk(r, offset + (x.nHeight - offset)); }
    }
  }

  ghost predicate Meet(a: BlockIndex, b: BlockIndex)
    requires Linked(a) && Linked(b)
  {
    exists x | x in Ancestors(a) :: x in Ancestors(b)
  }

  /**
   * The last common ancestor of two entries. The flag is the assert at its end: it fails exactly when the
   * two have none and their trees start at different heights.
   */
  method LastCommonAncestor(a: BlockIndex, b: BlockIndex) returns (r: BlockIndex?, ok: bool)
    requires Linked(a) && Linked(b) && SkipsOk(a) && SkipsOk(b)
    ensures ok <==> Meet(a, b) || RootHeight(a) == RootHeight(b)
    ensures ok ==> (r == null <==> !Meet(a, b))
    ensures ok && r != null ==>
              && r in Ancestors(a) && r in Ancestors(b)
              && (forall x | x in Ancestors(a) && x in Ancestors(b) :: x.nHeight <= r.nHeight)
  {
    hide Walk, Ancestors, RootHeight, Linked, SkipsOk;
    var pa: BlockIndex?, pb: BlockIndex? := a, b;
    StartWalk(a);
    StartWalk(b);
    AncestorHeights(a);
    AncestorHeights(b);
    if a.nHeight > b.nHeight {
      pa := a.GetAncestor(b.nHeight);
      WalkFinds(a, b.nHeight);
    } else if b.nHeight > a.nHeight {
      pb := b.GetAncestor(a.nHeight);
      WalkFinds(b, a.nHeight);
    }
    while pa != pb && pa != null && pb != null
      invariant pa != null ==> pa in Ancestors(a)
      invariant pb != null ==> pb in Ancestors(b)
      invariant pa != null && pb != null ==> pa.nHeight == pb.nHeight
      invariant pa == null && pb != null ==> pb.nHeight < RootHeight(a)
      invariant pb == null && pa != null ==> pa.nHeight < RootHeight(b)
      invariant pa == null && pb == null ==> RootHeight(a) == RootHeight(b)
      invariant forall x | x in Ancestors(a) && x in Ancestors(b) :: pa != null && pb != null && x.nHeight <= pa.nHeight
      decreases if pa == null then 0 else pa.nHeight + 1
    {
      StepDown(a, pa);
      StepDown(b, pb);
      forall x | x in Ancestors(a) && x in Ancestors(b) ensures pa.pprev != null && pb.pprev != null && x.nHeight <= pa.pprev.nHeight {
        StepDown(a, x);
        StepDown(b, x);
      }
      pa, pb := pa.pprev, pb.pprev;
    }
    r, ok := pa, pa == pb;
  }

  /** Two trees without a common block that start at different heights: the assert fails. */
  method NoCommonAncestor() returns (a: BlockIndex, b: BlockIndex, ok: bool)
    ensures Linked(a) && Linked(b) && SkipsOk(a) && SkipsOk(b) && !Meet(a, b) && !ok
  {
    a := new BlockIndex(null, 0);
    b := new BlockIndex(null, 1);
    assert Ancestors(a) == {a} && Ancestors(b) == {b};
    var _, good := LastCommonAncestor(a, b);
    ok := good;
  }
}
