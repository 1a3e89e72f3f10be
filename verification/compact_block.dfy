/** PartiallyDownloadedBlock and the index-list coder as imperative code. */
module CompactBlock {
  import opened Wrappers
  import opened M = CompactModel
  import opened CompactScan

  class PartialBlock {
    var nullHeader: bool
    var txnAvailable: Slots
    var prefilledCount: nat
    var mempoolCount: int
    var extraCount: int

    constructor ()
      ensures nullHeader && txnAvailable == [] && prefilledCount == 0 && mempoolCount == 0 && extraCount == 0
    {
      nullHeader, txnAvailable, prefilledCount, mempoolCount, extraCount := true, [], 0, 0, 0;
    }

    /** Place the prefilled transactions; every access is in range, whatever the message. */
    static method PlacePrefilled(slots0: Slots, pre: seq<Prefilled>, nShort: nat) returns (ok: bool, slots: Slots)
      requires |slots0| == nShort + |pre|
      ensures ok <==> M.Prefill(slots0, pre, nShort, 0, -1).Some?
      ensures ok ==> Some(slots) == M.Prefill(slots0, pre, nShort, 0, -1)
    {
      slots := slots0;
      var last := -1;
      for i := 0 to |pre|
        invariant |slots| == |slots0| && -1 <= last < nShort + i
        invariant M.Prefill(slots, pre, nShort, i, last) == M.Prefill(slots0, pre, nShort, 0, -1)
      {
        if pre[i].tx.isNull { return false, slots; }
        last := last + pre[i].index + 1;
        if last > MAX16 { return false, slots; }
        if last > nShort + i { return false, slots; }
        slots := slots[last := Some(pre[i].tx)];
      }
      ok := true;
    }

    /**
     * Map each short id to the next position nothing was prefilled at, with 16-bit positions, and stop when the
     * 16-bit counter has been raised a given number of times. Enough rounds end it exactly when the scan of the
     * source ends; no number of rounds ends it otherwise.
     */
    static method IndexShortIds(slots: Slots, ids: seq<nat>, crowded: (map<nat, nat>, nat) -> bool, rounds: nat)
        returns (ended: bool, ok: bool, m: map<nat, nat>)
      requires |FreeFrom(slots, 0)| == |ids| && forall q | MAX16 < q < |slots| :: slots[q].None?
      ensures rounds >= |slots| && ScanEnds(slots, |ids|, 0, 0) ==> ended
      ensures ended ==> ScanEnds(slots, |ids|, 0, 0)
      ensures ended ==> (ok <==> IndexIds(ids, FreeFrom(slots, 0), |slots|, 0, map[], crowded).Some?)
      ensures ended && ok ==> Some(m) == IndexIds(ids, FreeFrom(slots, 0), |slots|, 0, map[], crowded)
    {
      hide FreeFrom, IndexIds, ScanEnds;
      ghost var free := FreeFrom(slots, 0);
      ghost var target := IndexIds(ids, free, |slots|, 0, map[], crowded);
      EndsUnlessFull(slots, |ids|);
      m, ok := map[], true;
      var offset: nat, left := 0, rounds;
      for i := 0 to |ids|
        invariant i + offset <= |slots| && offset <= MAX16 && FreeFrom(slots, i + offset) == free[i..]
        invariant i > 0 ==> !Full(slots)
        invariant !Full(slots) ==> left == rounds - offset
        invariant Full(slots) ==> offset == 0
        invariant Indexed(m, |slots|) && IndexIds(ids, free, |slots|, i, m, crowded) == target
      {
        ended, offset, left := SkipFilled(slots, i, offset, |ids|, left);
        if !ended { return; }
        HereIsFree(slots, i + offset);
        assert free[i..][0] == free[i] && free[i..][1..] == free[i + 1..];
        IndexStep(ids, free, |slots|, i, m, crowded);
        m := m[ids[i] := (i + offset) % (MAX16 + 1)];
        if crowded(m, ids[i]) { return true, false, m; }
      }
      IndexEnd(ids, free, |slots|, m, crowded);
      ended := true;
    }

    /**
     * The inner loop, for at most a given number of rounds. With a free position in reach it stays in range and its
     * 16-bit counter does not wrap around; with none in reach it never leaves the first 65536 positions.
     */
    static method SkipFilled(slots: Slots, i: nat, offset0: nat, nIds: nat, left0: nat) returns (ended: bool, offset: nat, left: nat)
      requires i + offset0 <= |slots| && i < nIds && |FreeFrom(slots, i + offset0)| == nIds - i && offset0 <= MAX16
      requires if Full(slots) then i == offset0 == 0 else |slots| <= nIds + MAX16
      ensures ended ==> i + offset < |slots| && offset <= MAX16 && slots[i + offset].None?
      ensures ended ==> FreeFrom(slots, i + offset) == FreeFrom(slots, i + offset0) && left == left0 - (offset - offset0)
      ensures Full(slots) ==> !ended
      ensures !Full(slots) && left0 + offset0 >= |slots| ==> ended
    {
      hide FreeFrom;
      offset, left := offset0, left0;
      SomethingFree(slots, i + offset);
      while slots[i + offset].Some?
        invariant offset <= MAX16 && i + offset < |slots|
        invariant !Full(slots) ==> left == left0 - (offset - offset0) && FreeFrom(slots, i + offset) == FreeFrom(slots, i + offset0)
        decreases left
      {
        if left == 0 { return false, offset, left; }
        if !Full(slots) {
          SkipTaken(slots, i + offset);
          FreeFits(slots, i + offset + 1);
          SomethingFree(slots, i + offset + 1);
        }
        offset, left := Next16(offset), left - 1;
      }
      ended := true;
    }

    /** Go through the pool, then through the extra transactions. */
    static method ScanPool(p0: Partial, m: map<nat, nat>, shortId: nat -> nat, pool: seq<Entry>, isExtra: bool) returns (p: Partial)
      requires Indexed(m, |p0.slots|) && |p0.have| == |p0.slots|
      ensures p == Scan(p0, m, shortId, pool, 0, isExtra)
    {
      p := p0;
      for i := 0 to |pool|
        invariant |p.slots| == |p0.slots| == |p.have|
        invariant Scan(p, m, shortId, pool, i, isExtra) == Scan(p0, m, shortId, pool, 0, isExtra)
      {
        var id := shortId(pool[i].hash);
        if id in m {
          var at := m[id];
          if !p.have[at] {
            p := p.(slots := p.slots[at := Some(pool[i].tx)], have := p.have[at := true], mempool := p.mempool + 1);
            if isExtra { p := p.(extra := p.extra + 1); }
          } else if p.slots[at].Some? && (!isExtra || p.slots[at].value.witnessHash != pool[i].tx.witnessHash) {
            p := p.(slots := p.slots[at := None], mempool := p.mempool - 1);
            if isExtra { p := p.(extra := p.extra - 1); }
          }
        }
        if p.mempool == |m| { return; }
      }
    }

    /** Take in a compact block; to be called on a new object. A scan that is still running after the given rounds is Endless. */
    method InitData(msg: Message, env: Env, rounds: nat) returns (status: Status)
      requires nullHeader && txnAvailable == [] && mempoolCount == 0 && extraCount == 0
      modifies this
      ensures status == M.InitData(msg, env).0 || status == Endless
      ensures rounds >= |msg.shortIds| + |msg.prefilled| ==> status == M.InitData(msg, env).0
      ensures status == Ok ==>
                var p := M.InitData(msg, env).1.value;
                && !nullHeader && txnAvailable == p.slots && mempoolCount == p.mempool && extraCount == p.extra
                && prefilledCount == |msg.prefilled|
    {
      hide M.Prefill, M.IndexIds, M.FreeFrom, M.Scan, ScanEnds;
      if msg.nullHeader || (msg.shortIds == [] && msg.prefilled == []) { return Invalid; }
      var n := |msg.shortIds| + |msg.prefilled|;
      if n > env.maxTxs { return Invalid; }
      nullHeader := false;
      FreeForIds(msg.prefilled, |msg.shortIds|);
      txnAvailable := Empty(n);
      var ok, slots := PlacePrefilled(txnAvailable, msg.prefilled, |msg.shortIds|);
      txnAvailable := slots;
      if !ok { return Invalid; }
      PrefillIsLow(Empty(n), msg.prefilled, |msg.shortIds|, 0, -1);
      ScanEndsIff(msg.prefilled, |msg.shortIds|, slots);
      prefilledCount := |msg.prefilled|;
      var m, ended;
      ended, ok, m := IndexShortIds(slots, msg.shortIds, env.crowded, rounds);
      if !ended { return Endless; }
      if !ok { return Failed; }
      if |m| != |msg.shortIds| { return Failed; }
      var p := ScanPool(Partial(slots, seq(n, _ => false), 0, 0), m, env.shortId, env.pool, false);
      p := ScanPool(p, m, env.shortId, env.extra, true);
      txnAvailable, mempoolCount, extraCount := p.slots, p.mempool, p.extra;
      status := Ok;
    }

    /** Put the missing transactions in; the check of the finished block is the caller's oracle. */
    method FillBlock(missing: seq<Tx>, check: seq<Tx> -> Status) returns (status: Status, vtx: seq<Tx>)
      requires !nullHeader
      modifies this
      ensures M.Fill(old(txnAvailable), missing).None? ==> status == Invalid
      ensures M.Fill(old(txnAvailable), missing).Some? ==>
                Some(vtx) == M.Fill(old(txnAvailable), missing) && status == check(vtx) && nullHeader && txnAvailable == []
    {
      hide M.Fill, Completes;
      ghost var slots := txnAvailable;
      ghost var target := M.Fill(slots, missing);
      var offset: nat := 0;
      vtx := [];
      CompletesStart(slots, missing);
      for i := 0 to |txnAvailable|
        invariant |txnAvailable| == |slots| && |vtx| == i && offset <= |missing|
        invariant forall k | i <= k < |slots| :: txnAvailable[k] == slots[k]
        invariant Completes(target, vtx, slots, i, missing, offset)
      {
        CompletesStep(target, vtx, slots, i, missing, offset);
        if txnAvailable[i].None? {
          if |missing| <= offset { return Invalid, vtx; }
          vtx := vtx + [missing[offset]];
          offset := offset + 1;
        } else {
          vtx := vtx + [txnAvailable[i].value];
          txnAvailable := txnAvailable[i := None];
        }
      }
      CompletesEnd(target, vtx, slots, missing, offset);
      nullHeader, txnAvailable := true, [];
      if |missing| != offset { return Invalid, vtx; }
      status := check(vtx);
    }
  }

  /** The target is what stands so far followed by the fill of the rest. */
  ghost predicate Completes(target: Option<seq<Tx>>, vtx: seq<Tx>, slots: Slots, i: nat, missing: seq<Tx>, offset: nat)
    requires i <= |slots| && offset <= |missing|
  {
    var rest := M.Fill(slots[i..], missing[offset..]);
    if rest.None? then target.None? else target == Some(vtx + rest.value)
  }

  lemma {:induction false} CompletesStart(slots: Slots, missing: seq<Tx>)
    ensures Completes(M.Fill(slots, missing), [], slots, 0, missing, 0)
  {
    assert slots[0..] == slots && missing[0..] == missing;
    var target := M.Fill(slots, missing);
    assert target.Some? ==> [] + target.value == target.value;
  }

  lemma {:induction false} CompletesStep(target: Option<seq<Tx>>, vtx: seq<Tx>, slots: Slots, i: nat, missing: seq<Tx>, offset: nat)
    requires i < |slots| && offset <= |missing| && Completes(target, vtx, slots, i, missing, offset)
    ensures slots[i].None? && offset == |missing| ==> target.None?
    ensures slots[i].None? && offset < |missing| ==> Completes(target, vtx + [missing[offset]], slots, i + 1, missing, offset + 1)
    ensures slots[i].Some? ==> Completes(target, vtx + [slots[i].value], slots, i + 1, missing, offset)
  {
    var here := slots[i..];
    assert here[0] == slots[i] && here[1..] == slots[i + 1..];
    if slots[i].None? {
      if offset < |missing| {
        assert missing[offset..][0] == missing[offset] && missing[offset..][1..] == missing[offset + 1..];
        Longer(vtx, missing[offset], M.Fill(slots[i + 1..], missing[offset + 1..]));
      }
    } else {
      Longer(vtx, slots[i].value, M.Fill(slots[i + 1..], missing[offset..]));
    }
  }

  lemma {:induction false} Longer(vtx: seq<Tx>, x: Tx, rest: Option<seq<Tx>>)
    ensures rest.Some? ==> vtx + ([x] + rest.value) == vtx + [x] + rest.value
  {
  }

  lemma {:induction false} CompletesEnd(target: Option<seq<Tx>>, vtx: seq<Tx>, slots: Slots, missing: seq<Tx>, offset: nat)
    requires offset <= |missing| && Completes(target, vtx, slots, |slots|, missing, offset)
    ensures if offset == |missing| then target == Some(vtx) else target.None?
  {
    assert vtx + [] == vtx;
  }

  /** Write the indexes of a request as differences. */
  method WriteIndexes(indexes: seq<nat>) returns (diffs: seq<int>)
    ensures diffs == Encode(indexes)
  {
    diffs := [];
    for i := 0 to |indexes|
      invariant diffs + EncodeFrom(indexes, i) == Encode(indexes)
    {
      var before: int := if i == 0 then 0 else indexes[i - 1] + 1;
      var d: int := indexes[i] as int - before;
      assert diffs + ([d] + EncodeFrom(indexes, i + 1)) == diffs + [d] + EncodeFrom(indexes, i + 1);
      diffs := diffs + [d];
    }
  }

  /** Read the differences first, then add them up with a 16-bit offset. */
  method ReadIndexes(diffs: seq<int>) returns (r: Option<seq<nat>>)
    ensures r == DecodeFrom(diffs, 0)
  {
    hide DecodeFrom;
    var raw: seq<nat> := [];
    for i := 0 to |diffs|
      invariant |raw| == i && forall k | 0 <= k < i :: raw[k] == diffs[k] && 0 <= diffs[k] <= MAX16
    {
      if diffs[i] < 0 || diffs[i] > MAX16 {
        TooLargeFails(diffs, 0, i);
        return None;
      }
      raw := raw + [diffs[i]];
    }
    var offset: nat := 0;
    var indexes: seq<nat> := [];
    assert diffs[0..] == diffs;
    assert DecodeFrom(diffs, 0).Some? ==> indexes + DecodeFrom(diffs, 0).value == DecodeFrom(diffs, 0).value;
    for j := 0 to |raw|
      invariant |indexes| == j && offset <= MAX16
      invariant var rest := DecodeFrom(diffs[j..], offset);
                DecodeFrom(diffs, 0) == if rest.None? then None else Some(indexes + rest.value)
    {
      DecodeStep(diffs, j, offset);
      if raw[j] + offset > MAX16 { return None; }
      ghost var rest := DecodeFrom(diffs[j + 1..], (raw[j] + offset + 1) % (MAX16 + 1));
      assert rest.Some? ==> indexes + ([raw[j] + offset] + rest.value) == indexes + [raw[j] + offset] + rest.value;
      indexes := indexes + [raw[j] + offset];
      offset := (raw[j] + offset + 1) % (MAX16 + 1);
    }
    DecodeStep(diffs, |diffs|, offset);
    assert indexes + [] == indexes;
    r := Some(indexes);
  }

  lemma {:induction false} DecodeStep(diffs: seq<int>, j: nat, offset: nat)
    requires j <= |diffs|
    ensures DecodeFrom(diffs[j..], offset) ==
            if j == |diffs| then Some([])
            else if diffs[j] < 0 || diffs[j] > MAX16 || diffs[j] + offset > MAX16 then None
            else
              var rest := DecodeFrom(diffs[j + 1..], (diffs[j] + offset + 1) % (MAX16 + 1));
              if rest.None? then None else Some([diffs[j] + offset] + rest.value)
  {
    if j < |diffs| { assert diffs[j..][0] == diffs[j] && diffs[j..][1..] == diffs[j + 1..]; }
  }

  /** A difference out of range fails the decoding wherever it stands. */
  lemma {:induction false} TooLargeFails(diffs: seq<int>, offset: nat, i: nat)
    requires i < |diffs| && (diffs[i] < 0 || diffs[i] > MAX16)
    ensures DecodeFrom(diffs, offset).None?
    decreases i
  {
    if i > 0 && 0 <= diffs[0] && diffs[0] + offset <= MAX16 {
      TooLargeFails(diffs[1..], (diffs[0] + offset + 1) % (MAX16 + 1), i - 1);
    }
  }
}
