/** Compact blocks: reconstruction of a block from short transaction ids, and the differential coding of index lists. */
module CompactModel {
  import opened Wrappers

  datatype Tx = Tx(id: nat, witnessHash: nat, isNull: bool)

  const MAX16: nat := 65535

  /** A transaction sent along, with the number of positions since the one before. */
  datatype Prefilled = Prefilled(index: nat, tx: Tx)

  datatype Message = Message(nullHeader: bool, shortIds: seq<nat>, prefilled: seq<Prefilled>)

  /** What InitData and FillBlock report; Endless is a scan that does not end. */
  datatype Status = Ok | Invalid | Failed | CheckFailed | Endless

  type Slots = seq<Option<Tx>>

  /** A pool transaction with the hash its short id is computed from. */
  datatype Entry = Entry(hash: nat, tx: Tx)

  /** The constructor of a compact block: the coinbase is sent along, the other transactions as short ids. */
  function Compact(block: seq<Tx>, shortOf: Tx -> nat): Message
    requires block != []
  {
    Message(false, seq(|block| - 1, i requires 0 <= i < |block| - 1 => shortOf(block[i + 1])), [Prefilled(0, block[0])])
  }

  // ----- prefilled transactions -----

  /** Place the prefilled transactions from number i on; last is the position of the one before. */
  function Prefill(slots: Slots, pre: seq<Prefilled>, nShort: nat, i: nat, last: int): (r: Option<Slots>)
    requires |slots| == nShort + |pre| && -1 <= last < nShort + i
    ensures r.Some? ==> |r.value| == |slots|
    decreases |pre| - i
  {
    if i >= |pre| then Some(slots)
    else if pre[i].tx.isNull then None
    else
      var at := last + pre[i].index + 1;
      if at > MAX16 || at > nShort + i then None
      else Prefill(slots[at := Some(pre[i].tx)], pre, nShort, i + 1, at)
  }

  // ----- the map from short ids to positions -----

  /** The free positions from p on, in order. */
  function FreeFrom(slots: Slots, p: nat): (r: seq<nat>)
    requires p <= |slots|
    ensures forall k | 0 <= k < |r| :: p <= r[k] < |slots| && slots[r[k]].None?
    decreases |slots| - p
  {
    if p == |slots| then [] else (if slots[p].None? then [p] else []) + FreeFrom(slots, p + 1)
  }

  /** A position kept in 16 bits. */
  function Low16(p: nat): (r: nat)
    ensures r <= p && (p <= MAX16 ==> r == p)
  {
    p % (MAX16 + 1)
  }

  predicate Indexed(m: map<nat, nat>, n: nat) {
    forall id | id in m :: m[id] < n
  }

  /** The k-th short id stands for the k-th free position, kept in 16 bits. A crowded hash bucket gives up. */
  function IndexIds(ids: seq<nat>, free: seq<nat>, n: nat, i: nat, m: map<nat, nat>, crowded: (map<nat, nat>, nat) -> bool)
      : (r: Option<map<nat, nat>>)
    requires |free| == |ids| && Indexed(m, n) && forall k | 0 <= k < |free| :: free[k] < n
    ensures r.Some? ==> Indexed(r.value, n)
    decreases |ids| - i
  {
    if i >= |ids| then Some(m)
    else
      var m' := m[ids[i] := Low16(free[i])];
      if crowded(m', ids[i]) then None else IndexIds(ids, free, n, i + 1, m', crowded)
  }

  lemma {:induction false} IndexStep(ids: seq<nat>, free: seq<nat>, n: nat, i: nat, m: map<nat, nat>, crowded: (map<nat, nat>, nat) -> bool)
    requires |free| == |ids| && Indexed(m, n) && (forall k | 0 <= k < |free| :: free[k] < n) && i < |ids|
    ensures var m' := m[ids[i] := Low16(free[i])];
            IndexIds(ids, free, n, i, m, crowded) == if crowded(m', ids[i]) then None else IndexIds(ids, free, n, i + 1, m', crowded)
  {
  }

  lemma {:induction false} IndexEnd(ids: seq<nat>, free: seq<nat>, n: nat, m: map<nat, nat>, crowded: (map<nat, nat>, nat) -> bool)
    requires |free| == |ids| && Indexed(m, n) && (forall k | 0 <= k < |free| :: free[k] < n)
    ensures IndexIds(ids, free, n, |ids|, m, crowded) == Some(m)
  {
  }

  // ----- how many positions are free -----

  lemma {:induction false} FreeTaken(slots: Slots, at: nat, tx: Tx, p: nat)
    requires p <= |slots| && at < |slots| && slots[at].None?
    ensures |FreeFrom(slots[at := Some(tx)], p)| == |FreeFrom(slots, p)| - if p <= at then 1 else 0
    decreases |slots| - p
  {
    if p < |slots| { FreeTaken(slots, at, tx, p + 1); }
  }

  lemma {:induction false} AllFree(slots: Slots, p: nat)
    requires p <= |slots| && forall q | p <= q < |slots| :: slots[q].None?
    ensures |FreeFrom(slots, p)| == |slots| - p
    decreases |slots| - p
  {
    if p < |slots| { AllFree(slots, p + 1); }
  }

  lemma {:induction false} SomethingFree(slots: Slots, p: nat)
    requires p <= |slots| && FreeFrom(slots, p) != []
    ensures p < |slots|
  {
  }

  lemma {:induction false} FreeFits(slots: Slots, p: nat)
    requires p <= |slots|
    ensures |FreeFrom(slots, p)| <= |slots| - p
    decreases |slots| - p
  {
    if p < |slots| { FreeFits(slots, p + 1); }
  }

  lemma {:induction false} SkipTaken(slots: Slots, p: nat)
    requires p < |slots| && slots[p].Some?
    ensures FreeFrom(slots, p + 1) == FreeFrom(slots, p)
  {
  }

  lemma {:induction false} HereIsFree(slots: Slots, p: nat)
    requires p < |slots| && slots[p].None?
    ensures FreeFrom(slots, p) == [p] + FreeFrom(slots, p + 1)
  {
  }

  /** Every prefilled transaction takes one free position. */
  lemma {:induction false} PrefillTakes(slots: Slots, pre: seq<Prefilled>, nShort: nat, i: nat, last: int)
    requires |slots| == nShort + |pre| && -1 <= last < nShort + i && i <= |pre|
    requires forall q | last < q < |slots| :: slots[q].None?
    ensures var r := Prefill(slots, pre, nShort, i, last);
            r.Some? ==> |FreeFrom(r.value, 0)| == |FreeFrom(slots, 0)| - (|pre| - i)
    decreases |pre| - i
  {
    hide FreeFrom;
    if i < |pre| && !pre[i].tx.isNull {
      var at := last + pre[i].index + 1;
      if at <= MAX16 && at <= nShort + i {
        FreeTaken(slots, at, pre[i].tx, 0);
        PrefillTakes(slots[at := Some(pre[i].tx)], pre, nShort, i + 1, at);
      }
    }
  }

  lemma {:induction false} PrefillStep(slots: Slots, pre: seq<Prefilled>, nShort: nat, i: nat, last: int)
    requires |slots| == nShort + |pre| && -1 <= last < nShort + i && i < |pre|
    ensures var at := last + pre[i].index + 1;
            Prefill(slots, pre, nShort, i, last) ==
            if pre[i].tx.isNull || at > MAX16 || at > nShort + i then None
            else Prefill(slots[at := Some(pre[i].tx)], pre, nShort, i + 1, at)
  {
  }

  lemma {:induction false} PrefillEnd(slots: Slots, pre: seq<Prefilled>, nShort: nat, last: int)
    requires |slots| == nShort + |pre| && -1 <= last < nShort + |pre|
    ensures Prefill(slots, pre, nShort, |pre|, last) == Some(slots)
  {
  }

  /** Prefilled positions ascend and are 16-bit numbers, so the positions from 65536 on are never prefilled. */
  lemma {:induction false} PrefillIsLow(slots: Slots, pre: seq<Prefilled>, nShort: nat, i: nat, last: int)
    requires |slots| == nShort + |pre| && i - 1 <= last < nShort + i && i <= |pre| && last <= MAX16
    requires forall q | MAX16 < q < |slots| :: slots[q].None?
    ensures var r := Prefill(slots, pre, nShort, i, last);
            r.Some? ==> |pre| <= MAX16 + 1 && forall q | MAX16 < q < |slots| :: r.value[q].None?
    decreases |pre| - i
  {
    hide Prefill;
    if i == |pre| {
      PrefillEnd(slots, pre, nShort, last);
    } else {
      PrefillStep(slots, pre, nShort, i, last);
      var at := last + pre[i].index + 1;
      if at <= MAX16 && at <= nShort + i { PrefillIsLow(slots[at := Some(pre[i].tx)], pre, nShort, i + 1, at); }
    }
  }

  function Empty(n: nat): (r: Slots)
    ensures |r| == n && forall q | 0 <= q < n :: r[q].None?
  {
    seq(n, _ => Option<Tx>.None)
  }

  /** What is left free after prefilling is one position for each short id. */
  lemma {:induction false} FreeForIds(pre: seq<Prefilled>, nShort: nat)
    ensures var r := Prefill(Empty(nShort + |pre|), pre, nShort, 0, -1); r.Some? ==> |FreeFrom(r.value, 0)| == nShort
  {
    hide FreeFrom, Prefill;
    AllFree(Empty(nShort + |pre|), 0);
    PrefillTakes(Empty(nShort + |pre|), pre, nShort, 0, -1);
  }

  // ----- looking through the pools -----

  datatype Partial = Partial(slots: Slots, have: seq<bool>, mempool: int, extra: int)

  /** One transaction of the memory pool. */
  function Offer(p: Partial, m: map<nat, nat>, id: nat, tx: Tx): (r: Partial)
    requires Indexed(m, |p.slots|) && |p.have| == |p.slots|
    ensures |r.slots| == |p.slots| == |r.have|
  {
    if id !in m then p
    else
      var at := m[id];
      if !p.have[at] then p.(slots := p.slots[at := Some(tx)], have := p.have[at := true], mempool := p.mempool + 1)
      else if p.slots[at].Some? then p.(slots := p.slots[at := None], mempool := p.mempool - 1)
      else p
  }

  /** One of the extra transactions: the same one again is no reason to ask for it. */
  function OfferExtra(p: Partial, m: map<nat, nat>, id: nat, tx: Tx): (r: Partial)
    requires Indexed(m, |p.slots|) && |p.have| == |p.slots|
    ensures |r.slots| == |p.slots| == |r.have|
  {
    if id !in m then p
    else
      var at := m[id];
      if !p.have[at] then
        p.(slots := p.slots[at := Some(tx)], have := p.have[at := true], mempool := p.mempool + 1, extra := p.extra + 1)
      else if p.slots[at].Some? && p.slots[at].value.witnessHash != tx.witnessHash then
        p.(slots := p.slots[at := None], mempool := p.mempool - 1, extra := p.extra - 1)
      else p
  }

  /** Scan entries from number i on, stopping when every short id is accounted for. */
  function Scan(p: Partial, m: map<nat, nat>, shortId: nat -> nat, pool: seq<Entry>, i: nat, isExtra: bool): (r: Partial)
    requires Indexed(m, |p.slots|) && |p.have| == |p.slots|
    ensures |r.slots| == |p.slots| == |r.have|
    decreases |pool| - i
  {
    if i >= |pool| then p
    else
      var p' := if isExtra then OfferExtra(p, m, shortId(pool[i].hash), pool[i].tx) else Offer(p, m, shortId(pool[i].hash), pool[i].tx);
      if p'.mempool == |m| then p' else Scan(p', m, shortId, pool, i + 1, isExtra)
  }

  function Filled(slots: Slots): nat {
    if slots == [] then 0 else Filled(slots[..|slots| - 1]) + if slots[|slots| - 1].Some? then 1 else 0
  }

  /** The environment of a reconstruction: short ids, pools, the size limit, and how ids fall into hash buckets. */
  datatype Env = Env(shortId: nat -> nat, pool: seq<Entry>, extra: seq<Entry>, maxTxs: nat, crowded: (map<nat, nat>, nat) -> bool)

  /** The first 65536 positions are all prefilled, and a short id is left to find a position for. */
  predicate NeverScanned(msg: Message) {
    |msg.prefilled| == MAX16 + 1 && msg.shortIds != []
  }

  function InitData(msg: Message, env: Env): (r: (Status, Option<Partial>))
    ensures r.0 == Ok <==> r.1.Some?
    ensures r.0 == Ok ==> |r.1.value.slots| == |msg.shortIds| + |msg.prefilled|
  {
    if msg.nullHeader || (msg.shortIds == [] && msg.prefilled == []) then (Invalid, None)
    else
      var n := |msg.shortIds| + |msg.prefilled|;
      if n > env.maxTxs then (Invalid, None)
      else
        FreeForIds(msg.prefilled, |msg.shortIds|);
        var slots := Prefill(Empty(n), msg.prefilled, |msg.shortIds|, 0, -1);
        if slots.None? then (Invalid, None)
        else if NeverScanned(msg) then (Endless, None)
        else
          var m := IndexIds(msg.shortIds, FreeFrom(slots.value, 0), n, 0, map[], env.crowded);
          if m.None? || |m.value| != |msg.shortIds| then (Failed, None)
          else
            var p0 := Partial(slots.value, seq(n, _ => false), 0, 0);
            var p1 := Scan(p0, m.value, env.shortId, env.pool, 0, false);
            (Ok, Some(Scan(p1, m.value, env.shortId, env.extra, 0, true)))
  }

  // ----- filling in what is missing -----

  /** The block from position i on; None when the missing transactions do not fit. */
  function Fill(slots: Slots, missing: seq<Tx>): (r: Option<seq<Tx>>)
    ensures r.Some? ==> |r.value| == |slots|
  {
    if slots == [] then (if missing == [] then Some([]) else None)
    else if slots[0].None? && missing == [] then None
    else
      var rest := Fill(slots[1..], if slots[0].None? then missing[1..] else missing);
      if rest.None? then None
      else Some([if slots[0].None? then missing[0] else slots[0].value] + rest.value)
  }

  // ----- differential coding of index lists -----

  function EncodeFrom(indexes: seq<nat>, i: nat): (r: seq<int>)
    decreases |indexes| - i
  {
    if i >= |indexes| then []
    else [indexes[i] - if i == 0 then 0 else indexes[i - 1] + 1] + EncodeFrom(indexes, i + 1)
  }

  function Encode(indexes: seq<nat>): seq<int> {
    EncodeFrom(indexes, 0)
  }

  /** Decoding with a running 16-bit offset; None is an exception. */
  function DecodeFrom(diffs: seq<int>, offset: nat): Option<seq<nat>> {
    if diffs == [] then Some([])
    else if diffs[0] < 0 || diffs[0] > MAX16 || diffs[0] + offset > MAX16 then None
    else
      var index := diffs[0] + offset;
      match DecodeFrom(diffs[1..], (index + 1) % (MAX16 + 1))
      case None => None
      case Some(rest) => Some([index] + rest)
  }
}
