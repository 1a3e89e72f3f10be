/** A block is rebuilt from its compact form, and index lists survive their differential coding. */
module CompactProofs {
  import opened Wrappers
  import opened CompactModel

  // ----- the map from ids to positions -----

  /** With no collision, the k-th id leads to the low 16 bits of the k-th free position, and there are no other ids. */
  ghost predicate Leads(m: map<nat, nat>, ids: seq<nat>, free: seq<nat>, i: nat)
    requires i <= |ids| == |free|
  {
    && (forall k | 0 <= k < i :: ids[k] in m && m[ids[k]] == Low16(free[k]))
    && (forall id | id in m :: exists k | 0 <= k < i :: ids[k] == id)
  }

  lemma {:induction false} LeadsNone(ids: seq<nat>, free: seq<nat>)
    requires |ids| == |free|
    ensures Leads(map[], ids, free, 0)
  {
  }

  lemma {:induction false} LeadsOneMore(m: map<nat, nat>, ids: seq<nat>, free: seq<nat>, i: nat)
    requires i < |ids| == |free| && Leads(m, ids, free, i) && ids[i] !in m
    ensures Leads(m[ids[i] := Low16(free[i])], ids, free, i + 1)
  {
    hide Low16;
    var m' := m[ids[i] := Low16(free[i])];
    forall id | id in m' ensures exists k | 0 <= k < i + 1 :: ids[k] == id {
      if id in m { var k :| 0 <= k < i && ids[k] == id; } else { assert ids[i] == id; }
    }
  }

  lemma {:induction false} IndexIdsLead(ids: seq<nat>, free: seq<nat>, n: nat, i: nat, m: map<nat, nat>, crowded: (map<nat, nat>, nat) -> bool)
    requires |free| == |ids| && Indexed(m, n) && (forall k | 0 <= k < |free| :: free[k] < n) && i <= |ids|
    requires |m| <= i && (|m| == i ==> Leads(m, ids, free, i))
    ensures var r := IndexIds(ids, free, n, i, m, crowded);
            r.Some? && |r.value| == |ids| ==> Leads(r.value, ids, free, |ids|)
    decreases |ids| - i
  {
    hide Leads, Low16, IndexIds;
    if i == |ids| {
      IndexEnd(ids, free, n, m, crowded);
    } else {
      IndexStep(ids, free, n, i, m, crowded);
      var m' := m[ids[i] := Low16(free[i])];
      assert m'.Keys == m.Keys + {ids[i]};
      if ids[i] in m {
        assert m'.Keys == m.Keys;
      } else if |m| == i {
        LeadsOneMore(m, ids, free, i);
      }
      if !crowded(m', ids[i]) { IndexIdsLead(ids, free, n, i + 1, m', crowded); }
    }
  }

  lemma {:induction false} HighIsFree(slots: Slots, p: nat)
    requires p <= |slots| && MAX16 + 1 < |slots| && slots[|slots| - 1].None?
    ensures p < |slots| ==> FreeFrom(slots, p) != [] && FreeFrom(slots, p)[|FreeFrom(slots, p)| - 1] == |slots| - 1
    decreases |slots| - p
  {
    if p < |slots| { HighIsFree(slots, p + 1); }
  }

  /** Every id leads to its own position exactly in blocks of at most 65536 transactions. */
  lemma {:induction false} LeadsRightIff(slots: Slots, ids: seq<nat>, m: map<nat, nat>)
    requires |FreeFrom(slots, 0)| == |ids| && Leads(m, ids, FreeFrom(slots, 0), |ids|)
    requires forall q | MAX16 < q < |slots| :: slots[q].None?
    ensures (forall k | 0 <= k < |ids| :: m[ids[k]] == FreeFrom(slots, 0)[k]) <==> |slots| <= MAX16 + 1
  {
    hide FreeFrom;
    if |slots| > MAX16 + 1 {
      HighIsFree(slots, 0);
      assert m[ids[|ids| - 1]] == Low16(|slots| - 1);
    }
  }

  // ----- looking through the pools -----

  lemma {:induction false} FilledUpdate(slots: Slots, at: nat, s: Option<Tx>)
    requires at < |slots|
    ensures Filled(slots[at := s]) == Filled(slots) - (if slots[at].Some? then 1 else 0) + if s.Some? then 1 else 0
    decreases |slots|
  {
    var last := |slots| - 1;
    if at == last {
      assert slots[at := s][..last] == slots[..last];
    } else {
      assert slots[at := s][..last] == slots[..last][at := s];
      FilledUpdate(slots[..last], at, s);
    }
  }

  /** Only positions of the map have changed since slots0; what the map leads to and nobody offered yet is empty; the count is exact. */
  ghost predicate Tracks(p: Partial, slots0: Slots, m: map<nat, nat>) {
    && |p.slots| == |slots0| == |p.have| && Indexed(m, |slots0|)
    && (forall id | id in m :: slots0[m[id]].None? && (!p.have[m[id]] ==> p.slots[m[id]].None?))
    && (forall q | 0 <= q < |slots0| && slots0[q].Some? :: p.slots[q] == slots0[q])
    && p.mempool == Filled(p.slots) - Filled(slots0)
  }

  /** Every position that is filled holds the transaction of the block. */
  predicate Right(slots: Slots, block: seq<Tx>) {
    |slots| == |block| && forall q | 0 <= q < |slots| && slots[q].Some? :: slots[q].value == block[q]
  }

  lemma {:induction false} OfferTracks(p: Partial, slots0: Slots, m: map<nat, nat>, id: nat, tx: Tx, isExtra: bool)
    requires Tracks(p, slots0, m)
    ensures Tracks(if isExtra then OfferExtra(p, m, id, tx) else Offer(p, m, id, tx), slots0, m)
  {
    if id in m {
      FilledUpdate(p.slots, m[id], Some(tx));
      FilledUpdate(p.slots, m[id], None);
    }
  }

  lemma {:induction false} ScanTracks(p: Partial, slots0: Slots, m: map<nat, nat>, shortId: nat -> nat, pool: seq<Entry>, i: nat, isExtra: bool)
    requires Tracks(p, slots0, m)
    ensures Tracks(Scan(p, m, shortId, pool, i, isExtra), slots0, m)
    decreases |pool| - i
  {
    hide Tracks;
    TracksShape(p, slots0, m);
    if i < |pool| {
      OfferTracks(p, slots0, m, shortId(pool[i].hash), pool[i].tx, isExtra);
      var p' := if isExtra then OfferExtra(p, m, shortId(pool[i].hash), pool[i].tx) else Offer(p, m, shortId(pool[i].hash), pool[i].tx);
      if p'.mempool != |m| { ScanTracks(p', slots0, m, shortId, pool, i + 1, isExtra); }
    }
  }

  lemma {:induction false} TracksShape(p: Partial, slots0: Slots, m: map<nat, nat>)
    requires Tracks(p, slots0, m)
    ensures |p.slots| == |slots0| == |p.have| && Indexed(m, |slots0|)
  {
  }

  /** No transaction of a pool is mistaken for one of the block. */
  ghost predicate NoStranger(pool: seq<Entry>, shortId: nat -> nat, m: map<nat, nat>, block: seq<Tx>) {
    forall k | 0 <= k < |pool| && shortId(pool[k].hash) in m ::
      m[shortId(pool[k].hash)] < |block| && pool[k].tx == block[m[shortId(pool[k].hash)]]
  }

  lemma {:induction false} ScanRight(p: Partial, m: map<nat, nat>, shortId: nat -> nat, pool: seq<Entry>, i: nat, isExtra: bool, block: seq<Tx>)
    requires Indexed(m, |p.slots|) && |p.have| == |p.slots| && Right(p.slots, block) && NoStranger(pool, shortId, m, block)
    ensures Right(Scan(p, m, shortId, pool, i, isExtra).slots, block)
    decreases |pool| - i
  {
    if i < |pool| {
      var p' := if isExtra then OfferExtra(p, m, shortId(pool[i].hash), pool[i].tx) else Offer(p, m, shortId(pool[i].hash), pool[i].tx);
      if p'.mempool != |m| { ScanRight(p', m, shortId, pool, i + 1, isExtra, block); }
    }
  }

  // ----- the whole of InitData -----

  /** The positions the message fills and the map it gives, when it is accepted. */
  ghost predicate Parsed(msg: Message, env: Env, slots0: Slots, m: map<nat, nat>) {
    && |slots0| == |msg.shortIds| + |msg.prefilled|
    && Prefill(Empty(|slots0|), msg.prefilled, |msg.shortIds|, 0, -1) == Some(slots0)
    && |FreeFrom(slots0, 0)| == |msg.shortIds| == |m|
    && IndexIds(msg.shortIds, FreeFrom(slots0, 0), |slots0|, 0, map[], env.crowded) == Some(m)
  }

  lemma {:induction false} InitParses(msg: Message, env: Env) returns (slots0: Slots, m: map<nat, nat>)
    requires InitData(msg, env).0 == Ok
    ensures Parsed(msg, env, slots0, m) && Indexed(m, |slots0|)
    ensures var p0 := Partial(slots0, seq(|slots0|, _ => false), 0, 0);
            InitData(msg, env).1.value == Scan(Scan(p0, m, env.shortId, env.pool, 0, false), m, env.shortId, env.extra, 0, true)
  {
    hide Prefill, FreeFrom, IndexIds, Scan;
    var n := |msg.shortIds| + |msg.prefilled|;
    FreeForIds(msg.prefilled, |msg.shortIds|);
    slots0 := Prefill(Empty(n), msg.prefilled, |msg.shortIds|, 0, -1).value;
    m := IndexIds(msg.shortIds, FreeFrom(slots0, 0), n, 0, map[], env.crowded).value;
  }

  lemma {:induction false} FilledIsRest(slots: Slots)
    ensures Filled(slots) + |FreeFrom(slots, 0)| == |slots|
  {
    FilledBelow(slots, |slots|);
    assert slots[..|slots|] == slots;
  }

  lemma {:induction false} FilledBelow(slots: Slots, p: nat)
    requires p <= |slots|
    ensures Filled(slots[..p]) + |FreeFrom(slots, 0)| == p + |FreeFrom(slots, p)|
    decreases p
  {
    if p > 0 {
      FilledBelow(slots, p - 1);
      assert slots[..p][..p - 1] == slots[..p - 1];
    }
  }

  lemma {:induction false} MapIsFree(slots0: Slots, ids: seq<nat>, m: map<nat, nat>)
    requires |FreeFrom(slots0, 0)| == |ids| && Leads(m, ids, FreeFrom(slots0, 0), |ids|) && |slots0| <= MAX16 + 1
    ensures forall id | id in m :: m[id] < |slots0| && slots0[m[id]].None?
  {
    hide FreeFrom, Low16;
    var free := FreeFrom(slots0, 0);
    forall id | id in m ensures m[id] < |slots0| && slots0[m[id]].None? {
      var k :| 0 <= k < |ids| && ids[k] == id;
      assert m[id] == free[k];
    }
  }

  /**
   * Whatever the message and the pools: after an accepted message of at most 65536 transactions the prefilled
   * positions are as sent, and the count is the number of the other positions that are filled.
   */
  lemma {:induction false} InitCounts(msg: Message, env: Env) returns (slots0: Slots, m: map<nat, nat>)
    requires InitData(msg, env).0 == Ok && |msg.shortIds| + |msg.prefilled| <= MAX16 + 1
    ensures Parsed(msg, env, slots0, m) && Indexed(m, |slots0|) && Leads(m, msg.shortIds, FreeFrom(slots0, 0), |msg.shortIds|)
    ensures var p := InitData(msg, env).1.value;
            && |p.slots| == |slots0|
            && (forall q | 0 <= q < |slots0| && slots0[q].Some? :: p.slots[q] == slots0[q])
            && p.mempool == Filled(p.slots) - |msg.prefilled|
  {
    hide Prefill, FreeFrom, Scan, InitData;
    slots0, m := InitParses(msg, env);
    IndexIdsLead(msg.shortIds, FreeFrom(slots0, 0), |slots0|, 0, map[], env.crowded);
    MapIsFree(slots0, msg.shortIds, m);
    var p0 := Partial(slots0, seq(|slots0|, _ => false), 0, 0);
    assert Tracks(p0, slots0, m);
    ScanTracks(p0, slots0, m, env.shortId, env.pool, 0, false);
    ScanTracks(Scan(p0, m, env.shortId, env.pool, 0, false), slots0, m, env.shortId, env.extra, 0, true);
    FilledIsRest(slots0);
  }

  /** The message describes the block: what it fills is the block's, and the other ids are those of the rest, in order. */
  ghost predicate Describes(msg: Message, block: seq<Tx>, shortOf: Tx -> nat) {
    && |msg.shortIds| + |msg.prefilled| == |block|
    && var r := Prefill(Empty(|block|), msg.prefilled, |msg.shortIds|, 0, -1);
       r.Some? ==>
         && Right(r.value, block)
         && |FreeFrom(r.value, 0)| == |msg.shortIds|
         && forall k | 0 <= k < |msg.shortIds| :: msg.shortIds[k] == shortOf(block[FreeFrom(r.value, 0)[k]])
  }

  /** No pool transaction has the short id of a transaction of the block without being that transaction. */
  ghost predicate NoCollision(pool: seq<Entry>, shortId: nat -> nat, block: seq<Tx>, shortOf: Tx -> nat) {
    forall k, i | 0 <= k < |pool| && 0 <= i < |block| && shortId(pool[k].hash) == shortOf(block[i]) :: pool[k].tx == block[i]
  }

  lemma {:induction false} NoStrangers(msg: Message, block: seq<Tx>, shortOf: Tx -> nat, shortId: nat -> nat, pool: seq<Entry>, free: seq<nat>, m: map<nat, nat>)
    requires |free| == |msg.shortIds| && Leads(m, msg.shortIds, free, |free|) && |block| <= MAX16 + 1
    requires forall k | 0 <= k < |free| :: free[k] < |block|
    requires forall k | 0 <= k < |free| :: msg.shortIds[k] == shortOf(block[free[k]])
    requires NoCollision(pool, shortId, block, shortOf)
    ensures NoStranger(pool, shortId, m, block)
  {
    hide Low16;
    forall k | 0 <= k < |pool| && shortId(pool[k].hash) in m
      ensures m[shortId(pool[k].hash)] < |block| && pool[k].tx == block[m[shortId(pool[k].hash)]]
    {
      var j :| 0 <= j < |free| && msg.shortIds[j] == shortId(pool[k].hash);
      assert m[msg.shortIds[j]] == free[j];
    }
  }

  /** If the message describes a block and no pool transaction is mistaken for one of its own, every filled position is right. */
  lemma {:induction false} InitIsRight(msg: Message, env: Env, block: seq<Tx>, shortOf: Tx -> nat)
    requires InitData(msg, env).0 == Ok && Describes(msg, block, shortOf) && |block| <= MAX16 + 1
    requires NoCollision(env.pool, env.shortId, block, shortOf) && NoCollision(env.extra, env.shortId, block, shortOf)
    ensures Right(InitData(msg, env).1.value.slots, block)
  {
    hide Prefill, FreeFrom, Scan, InitData, NoCollision, NoStranger, Low16, IndexIds;
    var slots0, m := InitParses(msg, env);
    var free := FreeFrom(slots0, 0);
    IndexIdsLead(msg.shortIds, free, |slots0|, 0, map[], env.crowded);
    NoStrangers(msg, block, shortOf, env.shortId, env.pool, free, m);
    NoStrangers(msg, block, shortOf, env.shortId, env.extra, free, m);
    var p0 := Partial(slots0, seq(|slots0|, _ => false), 0, 0);
    ScanRight(p0, m, env.shortId, env.pool, 0, false, block);
    ScanRight(Scan(p0, m, env.shortId, env.pool, 0, false), m, env.shortId, env.extra, 0, true, block);
  }

  // ----- filling in what is missing -----

  /** The block's transactions at the free positions, in order. */
  function Missing(slots: Slots, block: seq<Tx>): seq<Tx>
    requires |slots| == |block|
  {
    if slots == [] then [] else (if slots[0].None? then [block[0]] else []) + Missing(slots[1..], block[1..])
  }

  lemma {:induction false} FillRebuilds(slots: Slots, block: seq<Tx>)
    requires Right(slots, block)
    ensures Fill(slots, Missing(slots, block)) == Some(block)
    decreases |slots|
  {
    if slots != [] {
      FillRebuilds(slots[1..], block[1..]);
      assert [block[0]] + block[1..] == block;
      if slots[0].None? {
        assert Missing(slots, block)[1..] == Missing(slots[1..], block[1..]);
      } else {
        assert [] + Missing(slots[1..], block[1..]) == Missing(slots[1..], block[1..]);
      }
    }
  }

  /** Filling succeeds exactly when there are as many missing transactions as free positions. */
  lemma {:induction false} FillIff(slots: Slots, missing: seq<Tx>)
    ensures Fill(slots, missing).Some? <==> |missing| == |slots| - Filled(slots)
    decreases |slots|
  {
    FilledHead(slots);
    if slots != [] {
      if slots[0].Some? { FillIff(slots[1..], missing); } else if missing != [] { FillIff(slots[1..], missing[1..]); } else { FilledAtMost(slots[1..]); }
    }
  }

  lemma {:induction false} FilledAtMost(slots: Slots)
    ensures Filled(slots) <= |slots|
    decreases |slots|
  {
    if slots != [] { FilledAtMost(slots[..|slots| - 1]); }
  }

  lemma {:induction false} FilledHead(slots: Slots)
    ensures slots != [] ==> Filled(slots) == (if slots[0].Some? then 1 else 0) + Filled(slots[1..])
    decreases |slots|
  {
    if |slots| > 1 {
      FilledHead(slots[..|slots| - 1]);
      assert slots[..|slots| - 1][1..] == slots[1..][..|slots| - 2];
    }
  }

  // ----- differential coding -----

  predicate Increasing(l: seq<nat>) {
    forall i, j | 0 <= i < j < |l| :: l[i] < l[j]
  }

  lemma {:induction false} EncodeDecode(l: seq<nat>, i: nat)
    requires Increasing(l) && i <= |l| && (forall k | 0 <= k < |l| :: l[k] <= MAX16)
    ensures DecodeFrom(EncodeFrom(l, i), if i == 0 then 0 else (l[i - 1] + 1) % (MAX16 + 1)) == Some(l[i..])
    decreases |l| - i
  {
    hide DecodeFrom;
    if i < |l| {
      EncodeDecode(l, i + 1);
      assert l[i..] == [l[i]] + l[i + 1..];
      if i > 0 { assert l[i - 1] < l[i]; }
      DecodeOne(EncodeFrom(l, i)[0], EncodeFrom(l, i + 1), if i == 0 then 0 else (l[i - 1] + 1) % (MAX16 + 1), l[i + 1..]);
    } else {
      assert l[i..] == [];
      DecodeNone(if i == 0 then 0 else (l[i - 1] + 1) % (MAX16 + 1));
    }
  }

  lemma {:induction false} DecodeOne(d: int, diffs: seq<int>, offset: nat, rest: seq<nat>)
    requires 0 <= d && d + offset <= MAX16 && DecodeFrom(diffs, (d + offset + 1) % (MAX16 + 1)) == Some(rest)
    ensures DecodeFrom([d] + diffs, offset) == Some([d + offset] + rest)
  {
    assert ([d] + diffs)[1..] == diffs;
  }

  lemma {:induction false} DecodeNone(offset: nat)
    ensures DecodeFrom([], offset) == Some([])
  {
  }

  /** A strictly increasing list of 16-bit indexes survives its coding. */
  lemma {:induction false} DiffRoundTrip(l: seq<nat>)
    requires Increasing(l) && (forall k | 0 <= k < |l| :: l[k] <= MAX16)
    ensures DecodeFrom(Encode(l), 0) == Some(l)
  {
    EncodeDecode(l, 0);
    assert l[0..] == l;
  }

  /** No difference but the last leads to index 65535, after which the 16-bit offset starts again at zero. */
  predicate NoInnerWrap(diffs: seq<int>, offset: nat) {
    |diffs| <= 1 || (0 <= diffs[0] && diffs[0] + offset != MAX16 && NoInnerWrap(diffs[1..], diffs[0] + offset + 1))
  }

  lemma {:induction false} WrapIff(diffs: seq<int>, offset: nat, index: nat, rest: seq<nat>)
    requires |diffs| == 1 + |rest| && 0 <= diffs[0] && index == diffs[0] + offset <= MAX16 && (forall k | 0 <= k < |rest| :: rest[k] <= MAX16)
    requires Increasing(rest) <==> NoInnerWrap(diffs[1..], if index == MAX16 then 0 else index + 1)
    requires Increasing(rest) && index != MAX16 ==> forall k | 0 <= k < |rest| :: index < rest[k]
    ensures Increasing([index] + rest) <==> NoInnerWrap(diffs, offset)
    ensures Increasing([index] + rest) ==> forall k | 0 <= k < |rest| :: index < rest[k]
  {
    hide Increasing;
    IncreasingCons(index, rest);
    if rest == [] { NothingIncreases(); } else if index == MAX16 { assert rest[0] <= index; }
  }

  lemma {:induction false} NoDiffsNoWrap(offset: nat)
    ensures NoInnerWrap([], offset)
  {
  }

  lemma {:induction false} NothingIncreases()
    ensures Increasing([])
  {
  }

  /** A decoded list is increasing exactly when the offset does not wrap around before the last difference. */
  lemma {:induction false} DecodedIncreasingIff(diffs: seq<int>, offset: nat)
    requires offset <= MAX16 && DecodeFrom(diffs, offset).Some?
    ensures var l := DecodeFrom(diffs, offset).value;
            && |l| == |diffs| && (forall k | 0 <= k < |l| :: l[k] <= MAX16)
            && (Increasing(l) <==> NoInnerWrap(diffs, offset))
            && (Increasing(l) ==> forall k | 0 <= k < |l| :: offset <= l[k])
    decreases |diffs|
  {
    hide Increasing, NoInnerWrap;
    NothingIncreases();
    NoDiffsNoWrap(offset);
    if diffs != [] {
      var index := diffs[0] + offset;
      var next := (index + 1) % (MAX16 + 1);
      DecodedIncreasingIff(diffs[1..], next);
      var rest := DecodeFrom(diffs[1..], next).value;
      assert DecodeFrom(diffs, offset).value == [index] + rest;
      WrapIff(diffs, offset, index, rest);
    }
  }

  lemma {:induction false} IncreasingCons(x: nat, rest: seq<nat>)
    ensures Increasing([x] + rest) <==> Increasing(rest) && forall k | 0 <= k < |rest| :: x < rest[k]
  {
    var l := [x] + rest;
    assert forall k | 0 <= k < |rest| :: l[k + 1] == rest[k];
    if Increasing(l) {
      forall i, j | 0 <= i < j < |rest| ensures rest[i] < rest[j] { assert l[i + 1] < l[j + 1]; }
      forall k | 0 <= k < |rest| ensures x < rest[k] { assert l[0] < l[k + 1]; }
    }
  }

  /** The wrap-around at work: two indexes decoded out of order. */
  lemma {:induction false} WrappedDecode()
    ensures DecodeFrom([65535, 0], 0) == Some([65535, 0])
  {
    hide DecodeFrom;
    DecodeNone(1);
    DecodeOne(0, [], 0, []);
    assert [0] + [] == [0] && [0 as int] + [] == [0 as int];
    DecodeOne(65535, [0], 0, [0]);
    assert [65535] + [0] == [65535, 0];
  }

  // ----- a block sent and rebuilt -----

  lemma {:induction false} CoinbaseTaken(block: seq<Tx>)
    requires block != [] && !block[0].isNull
    ensures Prefill(Empty(|block|), [Prefilled(0, block[0])], |block| - 1, 0, -1) == Some(Empty(|block|)[0 := Some(block[0])])
  {
    var slots := Empty(|block|)[0 := Some(block[0])];
    assert Prefill(slots, [Prefilled(0, block[0])], |block| - 1, 1, 0) == Some(slots);
  }

  lemma {:induction false} FreeIsRest(slots: Slots, p: nat)
    requires p <= |slots| && forall q | p <= q < |slots| :: slots[q].None?
    ensures FreeFrom(slots, p) == seq(|slots| - p, k requires k >= 0 => p + k)
    decreases |slots| - p
  {
    if p < |slots| { FreeIsRest(slots, p + 1); }
  }

  lemma {:induction false} CompactDescribes(block: seq<Tx>, shortOf: Tx -> nat)
    requires block != [] && !block[0].isNull
    ensures Describes(Compact(block, shortOf), block, shortOf)
  {
    hide Prefill;
    CoinbaseTaken(block);
    var slots := Empty(|block|)[0 := Some(block[0])];
    FreeBehindFirst(slots);
  }

  /**
   * A block of at most 65536 transactions sent in compact form, met by pools without a colliding
   * transaction, is rebuilt from the transactions asked for.
   */
  lemma {:induction false} BlockIsRebuilt(block: seq<Tx>, shortOf: Tx -> nat, env: Env)
    requires 1 <= |block| <= MAX16 + 1 && !block[0].isNull
    requires NoCollision(env.pool, env.shortId, block, shortOf) && NoCollision(env.extra, env.shortId, block, shortOf)
    requires InitData(Compact(block, shortOf), env).0 == Ok
    ensures var slots := InitData(Compact(block, shortOf), env).1.value.slots;
            |slots| == |block| && Fill(slots, Missing(slots, block)) == Some(block)
  {
    hide NoCollision, Describes, InitData, Fill, Missing;
    CompactDescribes(block, shortOf);
    InitIsRight(Compact(block, shortOf), env, block, shortOf);
    FillRebuilds(InitData(Compact(block, shortOf), env).1.value.slots, block);
  }

  // ----- beyond 65536 transactions -----

  lemma {:induction false} DistinctIdsIndex(ids: seq<nat>, free: seq<nat>, n: nat, i: nat, m: map<nat, nat>, crowded: (map<nat, nat>, nat) -> bool)
    requires |free| == |ids| && Indexed(m, n) && (forall k | 0 <= k < |free| :: free[k] < n) && i <= |ids| && |m| == i
    requires (forall j, k | 0 <= j < k < |ids| :: ids[j] != ids[k]) && (forall k | i <= k < |ids| :: ids[k] !in m)
    requires forall t, k :: !crowded(t, k)
    ensures var r := IndexIds(ids, free, n, i, m, crowded); r.Some? && |r.value| == |ids|
    decreases |ids| - i
  {
    hide IndexIds, Low16;
    if i == |ids| {
      IndexEnd(ids, free, n, m, crowded);
    } else {
      IndexStep(ids, free, n, i, m, crowded);
      var m' := m[ids[i] := Low16(free[i])];
      assert m'.Keys == m.Keys + {ids[i]};
      DistinctIdsIndex(ids, free, n, i + 1, m', crowded);
    }
  }

  /** A pool of one transaction puts it where its id leads. */
  lemma {:induction false} ScanOne(p: Partial, m: map<nat, nat>, shortId: nat -> nat, e: Entry)
    requires Indexed(m, |p.slots|) && |p.have| == |p.slots| && shortId(e.hash) in m && !p.have[m[shortId(e.hash)]]
    ensures Scan(p, m, shortId, [e], 0, false).slots == p.slots[m[shortId(e.hash)] := Some(e.tx)]
    ensures var p' := Scan(p, m, shortId, [e], 0, false); Scan(p', m, shortId, [], 0, true) == p'
  {
    var p' := Offer(p, m, shortId(e.hash), e.tx);
    assert Scan(p', m, shortId, [e], 1, false) == p';
  }

  lemma {:induction false} LastIsLow(ids: seq<nat>, free: seq<nat>, m: map<nat, nat>)
    requires |ids| == |free| > MAX16 && free[MAX16] == MAX16 + 1 && Leads(m, ids, free, |ids|)
    ensures ids[MAX16] in m && m[ids[MAX16]] == 0
  {
    assert m[ids[MAX16]] == Low16(free[MAX16]);
  }

  /** The pool holds just transaction 65536 of the block. */
  function LargeBlockEnv(block: seq<Tx>, shortOf: Tx -> nat, maxTxs: nat): Env
    requires |block| > MAX16 + 1
  {
    var tx := block[MAX16 + 1];
    Env(h => shortOf(tx), [Entry(0, tx)], [], maxTxs, (t, k) => false)
  }

  /**
   * Beyond 65536 transactions no block within the limit and with distinct short ids is safe: when transaction 65536 is
   * found in the pool it is put in the place of the coinbase, and the block is not rebuilt.
   */
  lemma {:induction false} LargeBlockIsMisplaced(block: seq<Tx>, shortOf: Tx -> nat, maxTxs: nat)
    requires MAX16 + 1 < |block| <= maxTxs && !block[0].isNull
    requires forall j, k | 0 <= j < k < |block| :: shortOf(block[j]) != shortOf(block[k])
    ensures var env := LargeBlockEnv(block, shortOf, maxTxs);
            var (status, p) := InitData(Compact(block, shortOf), env);
            && NoCollision(env.pool, env.shortId, block, shortOf) && NoCollision(env.extra, env.shortId, block, shortOf)
            && status == Ok && |p.value.slots| == |block|
            && Fill(p.value.slots, Missing(p.value.slots, block)) != Some(block)
  {
    hide Prefill, FreeFrom, IndexIds, Scan, Leads, Low16, Fill, Missing;
    var env, msg := LargeBlockEnv(block, shortOf, maxTxs), Compact(block, shortOf);
    CoinbaseTaken(block);
    FreeForIds(msg.prefilled, |msg.shortIds|);
    var slots0 := Empty(|block|)[0 := Some(block[0])];
    var m := LargeBlockMap(block, shortOf, maxTxs, slots0);
    ScanOne(Partial(slots0, seq(|block|, _ => false), 0, 0), m, env.shortId, env.pool[0]);
    assert shortOf(block[0]) != shortOf(block[MAX16 + 1]);
    WrongStart(InitData(msg, env).1.value.slots, block);
  }

  lemma {:induction false} LargeBlockMap(block: seq<Tx>, shortOf: Tx -> nat, maxTxs: nat, slots0: Slots) returns (m: map<nat, nat>)
    requires |block| > MAX16 + 1 && slots0 == Empty(|block|)[0 := Some(block[0])]
    requires forall j, k | 0 <= j < k < |block| :: shortOf(block[j]) != shortOf(block[k])
    ensures var ids, free := Compact(block, shortOf).shortIds, FreeFrom(slots0, 0);
            && |free| == |ids| == |m| && IndexIds(ids, free, |block|, 0, map[], LargeBlockEnv(block, shortOf, maxTxs).crowded) == Some(m)
            && shortOf(block[MAX16 + 1]) in m && m[shortOf(block[MAX16 + 1])] == 0
  {
    hide FreeFrom, IndexIds, Leads, Low16;
    var env, ids := LargeBlockEnv(block, shortOf, maxTxs), Compact(block, shortOf).shortIds;
    FreeBehindFirst(slots0);
    var free := FreeFrom(slots0, 0);
    DistinctIdsIndex(ids, free, |block|, 0, map[], env.crowded);
    LeadsNone(ids, free);
    IndexIdsLead(ids, free, |block|, 0, map[], env.crowded);
    m := IndexIds(ids, free, |block|, 0, map[], env.crowded).value;
    LastIsLow(ids, free, m);
  }

  lemma {:induction false} WrongStart(slots: Slots, block: seq<Tx>)
    requires |slots| == |block| > 0 && slots[0].Some? && slots[0].value != block[0]
    ensures Fill(slots, Missing(slots, block)) != Some(block)
  {
  }

  lemma {:induction false} FreeBehindFirst(slots: Slots)
    requires slots != [] && slots[0].Some? && forall q | 1 <= q < |slots| :: slots[q].None?
    ensures FreeFrom(slots, 0) == seq(|slots| - 1, k requires k >= 0 => 1 + k)
  {
    FreeIsRest(slots, 1);
    assert FreeFrom(slots, 0) == [] + FreeFrom(slots, 1);
  }
}
