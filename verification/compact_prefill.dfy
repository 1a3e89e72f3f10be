/** Where prefilled transactions go, which messages InitData accepts, and that any choice of prefilled transactions will do. */
module CompactPrefill {
  import opened Wrappers
  import opened CompactModel
  import opened CompactProofs

  // ----- the positions meant -----

  /** The position the k-th prefilled transaction is meant for: indexes count the positions in between. */
  function PositionOf(pre: seq<Prefilled>, k: nat): nat
    requires k < |pre|
  {
    if k == 0 then pre[0].index else PositionOf(pre, k - 1) + pre[k].index + 1
  }

  lemma {:induction false} PositionsAscend(pre: seq<Prefilled>, j: nat, k: nat)
    requires j < k < |pre|
    ensures PositionOf(pre, j) < PositionOf(pre, k)
    decreases k
  {
    if j < k - 1 { PositionsAscend(pre, j, k - 1); }
  }

  /** The transaction is there, its position has 16 bits, and enough transactions come before it. */
  predicate Fits(pre: seq<Prefilled>, nShort: nat, k: nat)
    requires k < |pre|
  {
    !pre[k].tx.isNull && PositionOf(pre, k) <= MAX16 && PositionOf(pre, k) <= nShort + k
  }

  /** The first i transactions are at their positions, and nothing else is anywhere. */
  ghost predicate Placed(slots: Slots, pre: seq<Prefilled>, i: nat)
    requires i <= |pre|
  {
    && (forall k | 0 <= k < i :: PositionOf(pre, k) < |slots| && slots[PositionOf(pre, k)] == Some(pre[k].tx))
    && (forall q | 0 <= q < |slots| && slots[q].Some? :: exists k :: 0 <= k < i && PositionOf(pre, k) == q)
  }

  lemma {:induction false} PlacedOneMore(slots: Slots, pre: seq<Prefilled>, i: nat)
    requires i < |pre| && Placed(slots, pre, i) && PositionOf(pre, i) < |slots|
    ensures Placed(slots[PositionOf(pre, i) := Some(pre[i].tx)], pre, i + 1)
  {
    hide PositionOf;
    var at := PositionOf(pre, i);
    var slots' := slots[at := Some(pre[i].tx)];
    forall k | 0 <= k < i + 1 ensures PositionOf(pre, k) < |slots'| && slots'[PositionOf(pre, k)] == Some(pre[k].tx) {
      if k < i { PositionsAscend(pre, k, i); }
    }
    forall q | 0 <= q < |slots'| && slots'[q].Some? ensures exists k :: 0 <= k < i + 1 && PositionOf(pre, k) == q {
      if q == at { assert PositionOf(pre, i) == q; } else { var k :| 0 <= k < i && PositionOf(pre, k) == q; }
    }
  }

  lemma {:induction false} PrefillFrom(slots: Slots, pre: seq<Prefilled>, nShort: nat, i: nat, last: int)
    requires |slots| == nShort + |pre| && i <= |pre| && -1 <= last < nShort + i && last == (if i == 0 then -1 else PositionOf(pre, i - 1))
    requires Placed(slots, pre, i)
    ensures var r := Prefill(slots, pre, nShort, i, last);
            && (r.Some? <==> forall k | i <= k < |pre| :: Fits(pre, nShort, k))
            && (r.Some? ==> Placed(r.value, pre, |pre|))
    decreases |pre| - i
  {
    hide Prefill, Placed;
    if i == |pre| {
      PrefillEnd(slots, pre, nShort, last);
    } else {
      PrefillStep(slots, pre, nShort, i, last);
      var at := last + pre[i].index + 1;
      assert at == PositionOf(pre, i);
      hide PositionOf;
      if Fits(pre, nShort, i) {
        PlacedOneMore(slots, pre, i);
        PrefillFrom(slots[at := Some(pre[i].tx)], pre, nShort, i + 1, at);
      }
    }
  }

  /**
   * The prefilled transactions of a message are accepted if and only if none is null, each is meant for a 16-bit
   * position and not for one beyond all transactions there are; then each is at its position and all else is free.
   */
  lemma {:induction false} PrefillIff(pre: seq<Prefilled>, nShort: nat)
    ensures var r := Prefill(Empty(nShort + |pre|), pre, nShort, 0, -1);
            && (r.Some? <==> forall k | 0 <= k < |pre| :: Fits(pre, nShort, k))
            && (r.Some? ==> Placed(r.value, pre, |pre|))
  {
    hide Prefill;
    PrefillFrom(Empty(nShort + |pre|), pre, nShort, 0, -1);
  }

  // ----- any choice of prefilled transactions -----

  /** The transactions of a block at some positions, as they are sent along. */
  function SentAlong(block: seq<Tx>, pos: seq<nat>): (r: seq<Prefilled>)
    requires Increasing(pos) && forall k | 0 <= k < |pos| :: pos[k] < |block|
    ensures |r| == |pos|
  {
    seq(|pos|, k requires 0 <= k < |pos| => Prefilled(if k == 0 then pos[0] else pos[k] - pos[k - 1] - 1, block[pos[k]]))
  }

  lemma {:induction false} MeantFor(block: seq<Tx>, pos: seq<nat>, k: nat)
    requires Increasing(pos) && (forall j | 0 <= j < |pos| :: pos[j] < |block|) && k < |pos|
    ensures PositionOf(SentAlong(block, pos), k) == pos[k]
    decreases k
  {
    if k > 0 { MeantFor(block, pos, k - 1); }
  }

  /** Each position has room below it for all positions after it. */
  lemma {:induction false} RoomAbove(pos: seq<nat>, n: nat, k: nat)
    requires Increasing(pos) && k < |pos| && forall j | 0 <= j < |pos| :: pos[j] < n
    ensures pos[k] + (|pos| - 1 - k) < n
    decreases |pos| - k
  {
    if k < |pos| - 1 { RoomAbove(pos, n, k + 1); }
  }

  /** The block at the positions that are not sent along, as short ids. */
  function ShortIds(block: seq<Tx>, pos: seq<nat>, shortOf: Tx -> nat): seq<nat>
    requires Increasing(pos) && forall k | 0 <= k < |pos| :: pos[k] < |block|
  {
    var free := FreeFrom(Shown(block, pos), 0);
    seq(|free|, k requires 0 <= k < |free| => shortOf(block[free[k]]))
  }

  /** The block with only some positions filled. */
  function Shown(block: seq<Tx>, pos: seq<nat>): (r: Slots)
    ensures |r| == |block|
  {
    seq(|block|, q requires 0 <= q < |block| => if q in pos then Some(block[q]) else None)
  }

  /** A block sent with the transactions at these positions in full and the others as short ids. */
  function CompactWith(block: seq<Tx>, pos: seq<nat>, shortOf: Tx -> nat): Message
    requires Increasing(pos) && forall k | 0 <= k < |pos| :: pos[k] < |block|
  {
    Message(false, ShortIds(block, pos, shortOf), SentAlong(block, pos))
  }

  lemma {:induction false} AllFit(block: seq<Tx>, pos: seq<nat>, pre: seq<Prefilled>, nShort: nat)
    requires Increasing(pos) && (forall k | 0 <= k < |pos| :: pos[k] < |block| && !block[pos[k]].isNull) && |block| <= MAX16 + 1
    requires pre == SentAlong(block, pos) && nShort + |pos| == |block|
    ensures forall k | 0 <= k < |pos| :: Fits(pre, nShort, k)
  {
    forall k | 0 <= k < |pos| ensures Fits(pre, nShort, k) {
      MeantFor(block, pos, k);
      RoomAbove(pos, |block|, k);
    }
  }

  lemma {:induction false} PlacedIsShown(block: seq<Tx>, pos: seq<nat>, slots: Slots)
    requires Increasing(pos) && (forall k | 0 <= k < |pos| :: pos[k] < |block|) && |slots| == |block|
    requires Placed(slots, SentAlong(block, pos), |pos|)
    ensures slots == Shown(block, pos)
  {
    hide PositionOf;
    var pre := SentAlong(block, pos);
    forall q | 0 <= q < |block| ensures slots[q] == if q in pos then Some(block[q]) else None {
      if q in pos {
        var k :| 0 <= k < |pos| && pos[k] == q;
        MeantFor(block, pos, k);
        assert slots[PositionOf(pre, k)] == Some(pre[k].tx);
      } else if slots[q].Some? {
        var k :| 0 <= k < |pos| && PositionOf(pre, k) == q;
        MeantFor(block, pos, k);
      }
    }
  }

  lemma {:induction false} FewEnough(pos: seq<nat>, n: nat)
    requires Increasing(pos) && forall k | 0 <= k < |pos| :: pos[k] < n
    ensures |pos| <= n
  {
    if pos != [] { RoomAbove(pos, n, 0); }
  }

  /** Whatever transactions are sent along, the message describes the block. */
  lemma {:induction false} AnyChoiceDescribes(block: seq<Tx>, pos: seq<nat>, shortOf: Tx -> nat)
    requires Increasing(pos) && (forall k | 0 <= k < |pos| :: pos[k] < |block| && !block[pos[k]].isNull) && |block| <= MAX16 + 1
    ensures var msg := CompactWith(block, pos, shortOf);
            && |msg.shortIds| + |msg.prefilled| == |block|
            && Prefill(Empty(|block|), msg.prefilled, |msg.shortIds|, 0, -1) == Some(Shown(block, pos))
            && Describes(msg, block, shortOf)
  {
    hide Prefill, FreeFrom, Placed, Fits;
    FewEnough(pos, |block|);
    var pre, nShort := SentAlong(block, pos), |block| - |pos|;
    AllFit(block, pos, pre, nShort);
    PrefillIff(pre, nShort);
    var slots := Prefill(Empty(|block|), pre, nShort, 0, -1).value;
    PlacedIsShown(block, pos, slots);
    FreeForIds(pre, nShort);
  }

  /** A block is rebuilt whatever transactions were sent along with it. */
  lemma {:induction false} AnyChoiceIsRebuilt(block: seq<Tx>, pos: seq<nat>, shortOf: Tx -> nat, env: Env)
    requires Increasing(pos) && (forall k | 0 <= k < |pos| :: pos[k] < |block| && !block[pos[k]].isNull) && |block| <= MAX16 + 1
    requires NoCollision(env.pool, env.shortId, block, shortOf) && NoCollision(env.extra, env.shortId, block, shortOf)
    requires InitData(CompactWith(block, pos, shortOf), env).0 == Ok
    ensures var slots := InitData(CompactWith(block, pos, shortOf), env).1.value.slots;
            |slots| == |block| && Fill(slots, Missing(slots, block)) == Some(block)
  {
    hide NoCollision, Describes, InitData, Fill, Missing, CompactWith;
    AnyChoiceDescribes(block, pos, shortOf);
    InitIsRight(CompactWith(block, pos, shortOf), env, block, shortOf);
    FillRebuilds(InitData(CompactWith(block, pos, shortOf), env).1.value.slots, block);
  }

  // ----- what InitData answers -----

  /** The map of short ids to positions after the first j of them. */
  function MapOf(ids: seq<nat>, free: seq<nat>, j: nat): map<nat, nat>
    requires j <= |ids| == |free|
  {
    if j == 0 then map[] else MapOf(ids, free, j - 1)[ids[j - 1] := Low16(free[j - 1])]
  }

  ghost predicate Crowds(ids: seq<nat>, free: seq<nat>, i: nat, crowded: (map<nat, nat>, nat) -> bool)
    requires |ids| == |free|
  {
    exists j :: i <= j < |ids| && crowded(MapOf(ids, free, j + 1), ids[j])
  }

  /** The ids are given up if and only if a hash bucket is too crowded when one of them has been entered. */
  lemma {:induction false} CrowdedIff(ids: seq<nat>, free: seq<nat>, n: nat, i: nat, crowded: (map<nat, nat>, nat) -> bool)
    requires i <= |ids| == |free| && Indexed(MapOf(ids, free, i), n) && forall k | 0 <= k < |free| :: free[k] < n
    ensures var r := IndexIds(ids, free, n, i, MapOf(ids, free, i), crowded);
            (r.None? <==> Crowds(ids, free, i, crowded)) && (r.Some? ==> r.value == MapOf(ids, free, |ids|))
    decreases |ids| - i
  {
    hide IndexIds, Low16;
    var m := MapOf(ids, free, i);
    if i == |ids| {
      IndexEnd(ids, free, n, m, crowded);
    } else {
      IndexStep(ids, free, n, i, m, crowded);
      var m' := MapOf(ids, free, i + 1);
      if !crowded(m', ids[i]) {
        assert Indexed(m', n);
        CrowdedIff(ids, free, n, i + 1, crowded);
      }
    }
  }

  lemma {:induction false} MapKeys(ids: seq<nat>, free: seq<nat>, j: nat, id: nat)
    requires j <= |ids| == |free|
    ensures id in MapOf(ids, free, j) <==> id in ids[..j]
    decreases j
  {
    hide Low16;
    if j > 0 {
      MapKeys(ids, free, j - 1, id);
      assert ids[..j] == ids[..j - 1] + [ids[j - 1]];
    }
  }

  /** The map has an entry for each short id if and only if no two are equal. */
  lemma {:induction false} MapSize(ids: seq<nat>, free: seq<nat>, j: nat)
    requires j <= |ids| == |free|
    ensures |MapOf(ids, free, j)| <= j && (|MapOf(ids, free, j)| == j <==> DistinctIds(ids[..j]))
    decreases j
  {
    if j > 0 {
      MapSize(ids, free, j - 1);
      var m, m', id := MapOf(ids, free, j - 1), MapOf(ids, free, j), ids[j - 1];
      MapKeys(ids, free, j - 1, id);
      assert m'.Keys == m.Keys + {id};
      assert ids[..j] == ids[..j - 1] + [id];
      hide MapOf;
      DistinctStep(ids[..j - 1], id);
    }
  }

  lemma {:induction false} DistinctStep(ids: seq<nat>, id: nat)
    ensures DistinctIds(ids + [id]) <==> DistinctIds(ids) && id !in ids
  {
    var all := ids + [id];
    if DistinctIds(all) {
      forall a, b | 0 <= a < b < |ids| ensures ids[a] != ids[b] { assert all[a] != all[b]; }
      forall a | 0 <= a < |ids| ensures ids[a] != id { assert all[a] != all[|ids|]; }
    }
  }

  predicate DistinctIds(ids: seq<nat>) {
    forall a, b | 0 <= a < b < |ids| :: ids[a] != ids[b]
  }

  /** The message itself is in order. */
  predicate WellFormed(msg: Message, maxTxs: nat) {
    && !msg.nullHeader && 1 <= |msg.shortIds| + |msg.prefilled| <= maxTxs
    && forall k | 0 <= k < |msg.prefilled| :: Fits(msg.prefilled, |msg.shortIds|, k)
  }

  /**
   * The answer of InitData: invalid exactly for messages that are not in order, endless exactly when the scan does not
   * end, failed exactly when two short ids are equal or a hash bucket is too crowded, and else a partial block.
   */
  lemma {:induction false} InitAnswers(msg: Message, env: Env)
    ensures var status := InitData(msg, env).0;
            && (status == Invalid <==> !WellFormed(msg, env.maxTxs))
            && (status == Endless <==> WellFormed(msg, env.maxTxs) && NeverScanned(msg))
            && status != CheckFailed
            && (WellFormed(msg, env.maxTxs) && !NeverScanned(msg) ==>
                  && |FreeFrom(Prefill(Empty(|msg.shortIds| + |msg.prefilled|), msg.prefilled, |msg.shortIds|, 0, -1).value, 0)| == |msg.shortIds|
                  && (status == Failed <==>
                      || !DistinctIds(msg.shortIds)
                      || Crowds(msg.shortIds, FreeFrom(Prefill(Empty(|msg.shortIds| + |msg.prefilled|), msg.prefilled, |msg.shortIds|, 0, -1).value, 0), 0, env.crowded)))
  {
    hide Prefill, FreeFrom, IndexIds, Scan, Crowds, MapOf, Fits, Placed;
    var ids, n := msg.shortIds, |msg.shortIds| + |msg.prefilled|;
    PrefillIff(msg.prefilled, |ids|);
    FreeForIds(msg.prefilled, |ids|);
    if WellFormed(msg, env.maxTxs) {
      var free := FreeFrom(Prefill(Empty(n), msg.prefilled, |ids|, 0, -1).value, 0);
      MapStart(ids, free);
      CrowdedIff(ids, free, n, 0, env.crowded);
      MapSize(ids, free, |ids|);
      assert ids[..|ids|] == ids;
    }
  }

  lemma {:induction false} MapStart(ids: seq<nat>, free: seq<nat>)
    requires |ids| == |free|
    ensures MapOf(ids, free, 0) == map[]
  {
  }

  // ----- the early end -----

  /** When every short id has been found, the scan ends: what comes after in the pool changes nothing. */
  lemma {:induction false} FullIsFinal(p: Partial, m: map<nat, nat>, shortId: nat -> nat, pool: seq<Entry>, more: seq<Entry>, i: nat, isExtra: bool)
    requires Indexed(m, |p.slots|) && |p.have| == |p.slots| && i < |pool| && Scan(p, m, shortId, pool, i, isExtra).mempool == |m|
    ensures Scan(p, m, shortId, pool + more, i, isExtra) == Scan(p, m, shortId, pool, i, isExtra)
    decreases |pool| - i
  {
    var p' := if isExtra then OfferExtra(p, m, shortId(pool[i].hash), pool[i].tx) else Offer(p, m, shortId(pool[i].hash), pool[i].tx);
    hide Offer, OfferExtra;
    assert (pool + more)[i] == pool[i];
    if p'.mempool != |m| { FullIsFinal(p', m, shortId, pool, more, i + 1, isExtra); }
  }
}
