/** The scan for free positions with its 16-bit counter, and exactly when it ends. */
module CompactScan {
  import opened Wrappers
  import opened CompactModel

  /** Raising the counter by one. */
  function Next16(offset: nat): (r: nat)
    ensures r <= MAX16 && (offset < MAX16 ==> r == offset + 1)
  {
    (offset + 1) % (MAX16 + 1)
  }

  /** The counter after it was raised k times. */
  function Counter(offset: nat, k: nat): (r: nat)
    ensures offset <= MAX16 ==> r <= MAX16
    decreases k
  {
    if k == 0 then offset else Counter(Next16(offset), k - 1)
  }

  predicate Taken(slots: Slots, p: nat) {
    p < |slots| && slots[p].Some?
  }

  /** For id number i, the guard of the inner loop holds k times and then finds a free position. */
  ghost predicate Skips(slots: Slots, i: nat, offset: nat, k: nat) {
    && (forall j: nat | j < k :: Taken(slots, i + Counter(offset, j)))
    && i + Counter(offset, k) < |slots| && slots[i + Counter(offset, k)].None?
  }

  /** From id number i on, every inner loop ends. */
  ghost predicate ScanEnds(slots: Slots, nIds: nat, i: nat, offset: nat)
    decreases nIds - i
  {
    i >= nIds || exists k: nat :: Skips(slots, i, offset, k) && ScanEnds(slots, nIds, i + 1, Counter(offset, k))
  }

  /** Every position the counter can stand for is taken. */
  predicate Full(slots: Slots) {
    MAX16 < |slots| && forall q | 0 <= q <= MAX16 :: slots[q].Some?
  }

  // ----- when it ends -----

  /** A free position is found before the counter wraps around. */
  lemma {:induction false} SkipEnds(slots: Slots, i: nat, offset: nat, nIds: nat) returns (k: nat)
    requires |slots| <= nIds + MAX16 && i + offset <= |slots| && i < nIds && |FreeFrom(slots, i + offset)| == nIds - i && offset <= MAX16
    ensures Skips(slots, i, offset, k) && FreeFrom(slots, i + Counter(offset, k)) == FreeFrom(slots, i + offset)
    decreases |slots| - offset
  {
    hide FreeFrom;
    SomethingFree(slots, i + offset);
    if slots[i + offset].None? {
      k := 0;
    } else {
      SkipTaken(slots, i + offset);
      FreeFits(slots, i + offset + 1);
      var k' := SkipEnds(slots, i, offset + 1, nIds);
      assert Next16(offset) == offset + 1;
      k := k' + 1;
      OneRoundMore(slots, i, offset, k');
    }
  }

  lemma {:induction false} OneRoundMore(slots: Slots, i: nat, offset: nat, k: nat)
    requires Taken(slots, i + offset) && Skips(slots, i, Next16(offset), k)
    ensures Skips(slots, i, offset, k + 1)
  {
    hide Next16;
    forall j: nat | j < k + 1 ensures Taken(slots, i + Counter(offset, j)) {
      if j > 0 { assert Counter(offset, j) == Counter(Next16(offset), j - 1); }
    }
  }

  lemma {:induction false} ScanEndsFrom(slots: Slots, nIds: nat, i: nat, offset: nat)
    requires |slots| <= nIds + MAX16 && i + offset <= |slots| && i <= nIds && |FreeFrom(slots, i + offset)| == nIds - i && offset <= MAX16
    ensures ScanEnds(slots, nIds, i, offset)
    decreases nIds - i
  {
    hide FreeFrom, Counter;
    if i < nIds {
      var k := SkipEnds(slots, i, offset, nIds);
      HereIsFree(slots, i + Counter(offset, k));
      ScanEndsFrom(slots, nIds, i + 1, Counter(offset, k));
    }
  }

  // ----- when it does not -----

  /** With all its positions taken, the guard holds at every value the counter takes, for ever. */
  lemma {:induction false} NeverFree(slots: Slots, offset: nat, k: nat)
    requires Full(slots) && offset <= MAX16
    ensures Taken(slots, 0 + Counter(offset, k))
  {
    hide Counter;
  }

  lemma {:induction false} FullNeverEnds(slots: Slots, nIds: nat)
    requires Full(slots) && nIds > 0
    ensures !ScanEnds(slots, nIds, 0, 0)
  {
    hide Counter;
    forall k: nat ensures !Skips(slots, 0, 0, k) { NeverFree(slots, 0, k); }
  }

  /** The positions taken are among the first 65536, and there are that many only if all of these are taken. */
  lemma {:induction false} FewTaken(slots: Slots, p: nat)
    requires p <= |slots| && forall q | MAX16 < q < |slots| :: slots[q].None?
    ensures var taken := |slots| - p - |FreeFrom(slots, p)|;
            && 0 <= taken <= (if p <= MAX16 then MAX16 + 1 - p else 0)
            && (p <= MAX16 ==> (taken == MAX16 + 1 - p <==> MAX16 < |slots| && forall q | p <= q <= MAX16 :: slots[q].Some?))
    decreases |slots| - p
  {
    if p < |slots| { FewTaken(slots, p + 1); }
  }

  lemma {:induction false} EndsUnlessFull(slots: Slots, nIds: nat)
    requires |FreeFrom(slots, 0)| == nIds && forall q | MAX16 < q < |slots| :: slots[q].None?
    ensures Full(slots) <==> |slots| == nIds + MAX16 + 1
    ensures !Full(slots) ==> |slots| <= nIds + MAX16
    ensures ScanEnds(slots, nIds, 0, 0) <==> !(Full(slots) && nIds > 0)
  {
    hide FreeFrom, ScanEnds;
    FewTaken(slots, 0);
    if Full(slots) {
      if nIds > 0 { FullNeverEnds(slots, nIds); } else { NothingToScan(slots, 0); }
    } else {
      ScanEndsFrom(slots, nIds, 0, 0);
    }
  }

  lemma {:induction false} NothingToScan(slots: Slots, offset: nat)
    ensures ScanEnds(slots, 0, 0, offset)
  {
  }

  /**
   * For every message whose prefilled transactions are accepted: the scan ends if and only if they do not take
   * all of the first 65536 positions, or no short id is left. If it does not end, the guard of the inner loop
   * holds after any number of rounds.
   */
  lemma {:induction false} ScanEndsIff(pre: seq<Prefilled>, nShort: nat, slots: Slots)
    requires Prefill(Empty(nShort + |pre|), pre, nShort, 0, -1) == Some(slots)
    ensures ScanEnds(slots, nShort, 0, 0) <==> !(|pre| == MAX16 + 1 && nShort > 0)
    ensures |pre| == MAX16 + 1 ==> forall k: nat :: Taken(slots, Counter(0, k))
  {
    hide Prefill, FreeFrom, ScanEnds, Counter;
    FreeForIds(pre, nShort);
    PrefillIsLow(Empty(nShort + |pre|), pre, nShort, 0, -1);
    EndsUnlessFull(slots, nShort);
    if |pre| == MAX16 + 1 {
      forall k: nat ensures Taken(slots, Counter(0, k)) { NeverFree(slots, 0, k); }
    }
  }

  /** 65536 transactions sent along one after the other, and at least one short id. */
  function FullMessage(tx: Tx, ids: seq<nat>): Message {
    Message(false, ids, seq(MAX16 + 1, _ => Prefilled(0, tx)))
  }

  lemma {:induction false} InARow(slots: Slots, pre: seq<Prefilled>, nShort: nat, i: nat)
    requires |slots| == nShort + |pre| && i <= |pre| <= MAX16 + 1 && nShort > 0
    requires forall k | 0 <= k < |pre| :: pre[k].index == 0 && !pre[k].tx.isNull
    ensures Prefill(slots, pre, nShort, i, i - 1).Some?
    decreases |pre| - i
  {
    hide Prefill;
    if i == |pre| {
      PrefillEnd(slots, pre, nShort, i - 1);
    } else {
      PrefillStep(slots, pre, nShort, i, i - 1);
      InARow(slots[i := Some(pre[i].tx)], pre, nShort, i + 1);
    }
  }

  /** Within the size limit, the prefilled transactions of such a message are accepted, and the scan does not end. */
  lemma {:induction false} FullMessageNeverEnds(tx: Tx, ids: seq<nat>, env: Env)
    requires !tx.isNull && ids != [] && |ids| + MAX16 + 1 <= env.maxTxs
    ensures var msg := FullMessage(tx, ids);
            var slots := Prefill(Empty(|ids| + |msg.prefilled|), msg.prefilled, |ids|, 0, -1);
            slots.Some? && !ScanEnds(slots.value, |ids|, 0, 0) && InitData(msg, env).0 == Endless
  {
    hide Prefill, ScanEnds;
    var msg := FullMessage(tx, ids);
    InARow(Empty(|ids| + |msg.prefilled|), msg.prefilled, |ids|, 0);
    ScanEndsIff(msg.prefilled, |ids|, Prefill(Empty(|ids| + |msg.prefilled|), msg.prefilled, |ids|, 0, -1).value);
  }
}
