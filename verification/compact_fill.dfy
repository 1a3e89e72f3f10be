/** Which positions of a block InitData fills, and from where. */
module CompactFill {
  import opened Wrappers
  import opened CompactModel
  import opened CompactProofs

  /** The short ids of the map that entries of a pool from number i on have. */
  function Hits(m: map<nat, nat>, shortId: nat -> nat, pool: seq<Entry>, i: nat): set<nat> {
    set k | i <= k < |pool| && shortId(pool[k].hash) in m :: shortId(pool[k].hash)
  }

  /** The ids of got have led to a filled position, the other ones to nothing yet, and the count is theirs. */
  ghost predicate Got(p: Partial, slots0: Slots, m: map<nat, nat>, got: set<nat>) {
    && |p.slots| == |slots0| == |p.have| && Indexed(m, |slots0|) && got <= m.Keys && p.mempool == |got|
    && (forall id | id in m :: (p.have[m[id]] <==> id in got) && (p.slots[m[id]].Some? <==> id in got))
    && (forall q | 0 <= q < |slots0| && q !in m.Values :: p.slots[q] == slots0[q])
  }

  ghost predicate OneToOne(m: map<nat, nat>) {
    forall a, b | a in m && b in m && m[a] == m[b] :: a == b
  }

  /** No short id of the map is offered twice. */
  ghost predicate OfferedOnce(m: map<nat, nat>, shortId: nat -> nat, pool: seq<Entry>, i: nat) {
    forall j, k | i <= j < k < |pool| && shortId(pool[j].hash) in m :: shortId(pool[j].hash) != shortId(pool[k].hash)
  }

  lemma {:induction false} HitsStep(m: map<nat, nat>, shortId: nat -> nat, pool: seq<Entry>, i: nat)
    requires i < |pool|
    ensures var id := shortId(pool[i].hash);
            Hits(m, shortId, pool, i) == Hits(m, shortId, pool, i + 1) + if id in m then {id} else {}
  {
    var id := shortId(pool[i].hash);
    forall x ensures x in Hits(m, shortId, pool, i) <==> x in Hits(m, shortId, pool, i + 1) + if id in m then {id} else {} {
      if x in Hits(m, shortId, pool, i) {
        var k :| i <= k < |pool| && shortId(pool[k].hash) in m && shortId(pool[k].hash) == x;
      }
    }
  }

  lemma {:induction false} HitsKnown(m: map<nat, nat>, shortId: nat -> nat, pool: seq<Entry>, i: nat)
    ensures Hits(m, shortId, pool, i) <= m.Keys
  {
  }

  /** One entry of either pool. */
  function Offered(p: Partial, m: map<nat, nat>, id: nat, tx: Tx, isExtra: bool): (r: Partial)
    requires Indexed(m, |p.slots|) && |p.have| == |p.slots|
    ensures |r.slots| == |p.slots| == |r.have|
  {
    if isExtra then OfferExtra(p, m, id, tx) else Offer(p, m, id, tx)
  }

  lemma {:induction false} NewIsFilled(p: Partial, p': Partial, slots0: Slots, m: map<nat, nat>, got: set<nat>, id: nat, tx: Tx)
    requires Got(p, slots0, m, got) && OneToOne(m) && id in m && id !in got
    requires p'.slots == p.slots[m[id] := Some(tx)] && p'.have == p.have[m[id] := true] && p'.mempool == p.mempool + 1
    ensures Got(p', slots0, m, got + {id})
  {
    assert m[id] in m.Values;
    forall x | x in m ensures (p'.have[m[x]] <==> x in got + {id}) && (p'.slots[m[x]].Some? <==> x in got + {id}) {
      if x != id { assert m[x] != m[id]; }
    }
  }

  /** A new id fills its position; one that is known changes nothing, since the same transaction is offered again. */
  lemma {:induction false} OfferGets(p: Partial, slots0: Slots, m: map<nat, nat>, got: set<nat>, id: nat, tx: Tx, isExtra: bool)
    requires Got(p, slots0, m, got) && OneToOne(m) && (!isExtra ==> id !in got)
    requires isExtra && id in got ==> p.slots[m[id]] == Some(tx)
    ensures var p' := Offered(p, m, id, tx, isExtra);
            && Got(p', slots0, m, if id in m then got + {id} else got)
            && p'.extra == p.extra + if isExtra && id in m && id !in got then 1 else 0
  {
    var p' := Offered(p, m, id, tx, isExtra);
    if id in m && id !in got {
      HaveIs(p, slots0, m, got, id);
      hide Got, OneToOne;
      NewIsFilled(p, p', slots0, m, got, id, tx);
    } else {
      if id in m {
        HaveIs(p, slots0, m, got, id);
        assert got + {id} == got;
      }
      hide Got;
      assert p' == p;
    }
  }

  lemma {:induction false} HaveIs(p: Partial, slots0: Slots, m: map<nat, nat>, got: set<nat>, id: nat)
    requires Got(p, slots0, m, got) && id in m
    ensures m[id] < |p.slots| && (p.have[m[id]] <==> id in got) && (p.slots[m[id]].Some? <==> id in got)
  {
  }

  lemma {:induction false} ScanStep(p: Partial, m: map<nat, nat>, shortId: nat -> nat, pool: seq<Entry>, i: nat, isExtra: bool)
    requires Indexed(m, |p.slots|) && |p.have| == |p.slots| && i < |pool|
    ensures var p' := Offered(p, m, shortId(pool[i].hash), pool[i].tx, isExtra);
            Scan(p, m, shortId, pool, i, isExtra) == if p'.mempool == |m| then p' else Scan(p', m, shortId, pool, i + 1, isExtra)
  {
    hide Offer, OfferExtra;
  }

  lemma {:induction false} ScanEnd(p: Partial, m: map<nat, nat>, shortId: nat -> nat, pool: seq<Entry>, i: nat, isExtra: bool)
    requires Indexed(m, |p.slots|) && |p.have| == |p.slots| && i >= |pool|
    ensures Scan(p, m, shortId, pool, i, isExtra) == p
  {
  }

  lemma {:induction false} AllGot(m: map<nat, nat>, got: set<nat>)
    requires got <= m.Keys && |got| == |m|
    ensures got == m.Keys
  {
    assert |m.Keys - got| == 0;
    assert m.Keys == got + (m.Keys - got);
  }

  /** A scan that has found the ids of hits: their positions are filled too, and the new ones counted. */
  ghost predicate Scanned(p: Partial, r: Partial, slots0: Slots, m: map<nat, nat>, got: set<nat>, hits: set<nat>, isExtra: bool, block: seq<Tx>) {
    && Got(r, slots0, m, got + hits) && Right(r.slots, block)
    && r.extra == p.extra + if isExtra then |hits - got| else 0
  }

  lemma {:induction false} ScannedNothing(p: Partial, slots0: Slots, m: map<nat, nat>, got: set<nat>, isExtra: bool, block: seq<Tx>)
    requires Got(p, slots0, m, got) && Right(p.slots, block)
    ensures Scanned(p, p, slots0, m, got, {}, isExtra, block)
  {
    hide Got, Right;
    assert got + {} == got && {} - got == {};
  }

  lemma {:induction false} ScannedOneMore(p: Partial, p': Partial, r: Partial, slots0: Slots, m: map<nat, nat>, got: set<nat>, rest: set<nat>, hits: set<nat>, id: nat, isExtra: bool, block: seq<Tx>)
    requires Scanned(p', r, slots0, m, WithId(m, got, id), rest, isExtra, block) && hits == WithId(m, rest, id)
    requires p'.extra == p.extra + if isExtra && id in m && id !in got then 1 else 0
    ensures Scanned(p, r, slots0, m, got, hits, isExtra, block)
  {
    hide Got, Right, WithId;
    OneHit(m, got, rest, hits, id);
  }

  /** When every id has been found, the rest of the pool has nothing more to give. */
  lemma {:induction false} ScannedAll(p: Partial, slots0: Slots, m: map<nat, nat>, got: set<nat>, rest: set<nat>, isExtra: bool, block: seq<Tx>)
    requires Got(p, slots0, m, got) && Right(p.slots, block) && p.mempool == |m| && rest <= m.Keys
    ensures Scanned(p, p, slots0, m, got, rest, isExtra, block)
  {
    GotShape(p, slots0, m, got);
    AllGot(m, got);
    hide Got, Right;
    assert got + rest == got && rest - got == {};
  }

  /** What the scan of a pool fills, with its early end: the positions of all ids that entries from number i on have. */
  lemma {:induction false} ScanGets(p: Partial, slots0: Slots, m: map<nat, nat>, got: set<nat>, shortId: nat -> nat, pool: seq<Entry>, i: nat, isExtra: bool, block: seq<Tx>)
    requires Got(p, slots0, m, got) && OneToOne(m) && Right(p.slots, block) && NoStranger(pool, shortId, m, block)
    requires !isExtra ==> OfferedOnce(m, shortId, pool, i) && Hits(m, shortId, pool, i) !! got
    ensures |p.slots| == |p.have| && Indexed(m, |p.slots|)
    ensures Scanned(p, Scan(p, m, shortId, pool, i, isExtra), slots0, m, got, Hits(m, shortId, pool, i), isExtra, block)
    decreases |pool| - i
  {
    hide Got, Right, NoStranger, Hits, Offered, OneToOne, Scan, OfferedOnce, WithId, Scanned;
    GotShape(p, slots0, m, got);
    if i >= |pool| {
      ScanEnd(p, m, shortId, pool, i, isExtra);
      NoHits(m, shortId, pool, i);
      ScannedNothing(p, slots0, m, got, isExtra, block);
    } else {
      ScanStep(p, m, shortId, pool, i, isExtra);
      StepGets(p, slots0, m, got, shortId, pool, i, isExtra, block);
      var id, rest := shortId(pool[i].hash), Hits(m, shortId, pool, i + 1);
      var p', got' := Offered(p, m, id, pool[i].tx, isExtra), WithId(m, got, id);
      if p'.mempool == |m| {
        HitsKnown(m, shortId, pool, i + 1);
        ScannedAll(p', slots0, m, got', rest, isExtra, block);
      } else {
        ScanGets(p', slots0, m, got', shortId, pool, i + 1, isExtra, block);
      }
      ScannedOneMore(p, p', Scan(p, m, shortId, pool, i, isExtra), slots0, m, got, rest, Hits(m, shortId, pool, i), id, isExtra, block);
    }
  }

  function WithId(m: map<nat, nat>, got: set<nat>, id: nat): set<nat> {
    if id in m then got + {id} else got
  }

  /** One entry, with all that the rest of the scan asks for. */
  lemma {:induction false} StepGets(p: Partial, slots0: Slots, m: map<nat, nat>, got: set<nat>, shortId: nat -> nat, pool: seq<Entry>, i: nat, isExtra: bool, block: seq<Tx>)
    requires Got(p, slots0, m, got) && OneToOne(m) && Right(p.slots, block) && NoStranger(pool, shortId, m, block) && i < |pool|
    requires !isExtra ==> OfferedOnce(m, shortId, pool, i) && Hits(m, shortId, pool, i) !! got
    ensures |p.slots| == |p.have| && Indexed(m, |p.slots|)
    ensures var id := shortId(pool[i].hash);
            var p', got' := Offered(p, m, id, pool[i].tx, isExtra), WithId(m, got, id);
            && Got(p', slots0, m, got') && Right(p'.slots, block)
            && p'.extra == p.extra + (if isExtra && id in m && id !in got then 1 else 0)
            && (!isExtra ==> OfferedOnce(m, shortId, pool, i + 1) && Hits(m, shortId, pool, i + 1) !! got')
    ensures Hits(m, shortId, pool, i) == WithId(m, Hits(m, shortId, pool, i + 1), shortId(pool[i].hash))
  {
    hide Got, Right, NoStranger, Hits, Offered, OneToOne, OfferedOnce;
    var id := shortId(pool[i].hash);
    GotShape(p, slots0, m, got);
    HitsStep(m, shortId, pool, i);
    SameTx(p, slots0, m, got, shortId, pool, i, block);
    if !isExtra { OnceMore(m, shortId, pool, i, got, WithId(m, got, id)); }
    OfferGets(p, slots0, m, got, id, pool[i].tx, isExtra);
    OfferRight(p, m, shortId, pool, i, isExtra, block);
  }

  lemma {:induction false} GotShape(p: Partial, slots0: Slots, m: map<nat, nat>, got: set<nat>)
    requires Got(p, slots0, m, got)
    ensures |p.slots| == |slots0| == |p.have| && Indexed(m, |slots0|) && got <= m.Keys && p.mempool == |got|
  {
  }

  lemma {:induction false} NoHits(m: map<nat, nat>, shortId: nat -> nat, pool: seq<Entry>, i: nat)
    requires i >= |pool|
    ensures Hits(m, shortId, pool, i) == {}
  {
  }

  lemma {:induction false} OneHit(m: map<nat, nat>, got: set<nat>, rest: set<nat>, hits: set<nat>, id: nat)
    requires hits == WithId(m, rest, id)
    ensures WithId(m, got, id) + rest == got + hits
    ensures |hits - got| == |rest - WithId(m, got, id)| + if id in m && id !in got then 1 else 0
  {
    var got' := WithId(m, got, id);
    if id in m && id !in got {
      assert hits - got == (rest - got') + {id} && id !in rest - got';
    } else {
      assert got' == got;
      assert hits - got == rest - got';
    }
  }

  lemma {:induction false} OnceMore(m: map<nat, nat>, shortId: nat -> nat, pool: seq<Entry>, i: nat, got: set<nat>, got': set<nat>)
    requires i < |pool| && OfferedOnce(m, shortId, pool, i) && Hits(m, shortId, pool, i) !! got
    requires got' == if shortId(pool[i].hash) in m then got + {shortId(pool[i].hash)} else got
    ensures OfferedOnce(m, shortId, pool, i + 1) && Hits(m, shortId, pool, i + 1) !! got'
  {
    forall x | x in Hits(m, shortId, pool, i + 1) ensures x !in got' {
      var k :| i + 1 <= k < |pool| && shortId(pool[k].hash) in m && shortId(pool[k].hash) == x;
      assert x in Hits(m, shortId, pool, i);
    }
  }

  lemma {:induction false} SameTx(p: Partial, slots0: Slots, m: map<nat, nat>, got: set<nat>, shortId: nat -> nat, pool: seq<Entry>, i: nat, block: seq<Tx>)
    requires Got(p, slots0, m, got) && Right(p.slots, block) && NoStranger(pool, shortId, m, block) && i < |pool|
    ensures var id := shortId(pool[i].hash); id in got ==> id in m && m[id] < |p.slots| && p.slots[m[id]] == Some(pool[i].tx)
  {
    hide OneToOne;
  }

  lemma {:induction false} OfferRight(p: Partial, m: map<nat, nat>, shortId: nat -> nat, pool: seq<Entry>, i: nat, isExtra: bool, block: seq<Tx>)
    requires Indexed(m, |p.slots|) && |p.have| == |p.slots| && Right(p.slots, block) && NoStranger(pool, shortId, m, block) && i < |pool|
    ensures var id, tx := shortId(pool[i].hash), pool[i].tx;
            Right(Offered(p, m, id, tx, isExtra).slots, block)
  {
  }

  // ----- the whole of InitData -----

  /** Some entry of the pool has the short id of the transaction at a position of the block. */
  ghost predicate InPool(pool: seq<Entry>, shortId: nat -> nat, block: seq<Tx>, shortOf: Tx -> nat, q: nat) {
    q < |block| && exists k :: 0 <= k < |pool| && shortId(pool[k].hash) == shortOf(block[q])
  }

  lemma {:induction false} FreeAscends(slots: Slots, p: nat)
    requires p <= |slots|
    ensures forall j, k | 0 <= j < k < |FreeFrom(slots, p)| :: FreeFrom(slots, p)[j] < FreeFrom(slots, p)[k]
    decreases |slots| - p
  {
    if p < |slots| { FreeAscends(slots, p + 1); }
  }

  lemma {:induction false} FreeCovers(slots: Slots, p: nat, q: nat)
    requires p <= q < |slots| && slots[q].None?
    ensures q in FreeFrom(slots, p)
    decreases q - p
  {
    if p < q { FreeCovers(slots, p + 1, q); }
  }

  /** The map of an accepted message of at most 65536 transactions is a bijection from its short ids to the free positions. */
  lemma {:induction false} MapIsExact(slots0: Slots, ids: seq<nat>, m: map<nat, nat>)
    requires |FreeFrom(slots0, 0)| == |ids| && Leads(m, ids, FreeFrom(slots0, 0), |ids|) && |slots0| <= MAX16 + 1
    ensures OneToOne(m)
    ensures forall q | 0 <= q < |slots0| :: q in m.Values <==> slots0[q].None?
  {
    hide FreeFrom, Low16;
    var free := FreeFrom(slots0, 0);
    FreeAscends(slots0, 0);
    forall a, b | a in m && b in m && m[a] == m[b] ensures a == b {
      var j :| 0 <= j < |ids| && ids[j] == a;
      var k :| 0 <= k < |ids| && ids[k] == b;
      assert m[a] == free[j] && m[b] == free[k];
    }
    forall q | 0 <= q < |slots0| ensures q in m.Values <==> slots0[q].None? {
      if slots0[q].None? {
        FreeCovers(slots0, 0, q);
        var k :| 0 <= k < |free| && free[k] == q;
        assert ids[k] in m.Keys && m[ids[k]] == q;
      }
      if q in m.Values {
        var id :| id in m && m[id] == q;
        var k :| 0 <= k < |ids| && ids[k] == id;
        assert free[k] == q;
      }
    }
  }

  /** The id that leads to a free position is that of the block's transaction there. */
  lemma {:induction false} IdAt(slots0: Slots, ids: seq<nat>, m: map<nat, nat>, block: seq<Tx>, shortOf: Tx -> nat, id: nat)
    requires |FreeFrom(slots0, 0)| == |ids| && Leads(m, ids, FreeFrom(slots0, 0), |ids|) && |slots0| == |block| <= MAX16 + 1
    requires (forall k | 0 <= k < |ids| :: ids[k] == shortOf(block[FreeFrom(slots0, 0)[k]])) && id in m
    ensures m[id] < |block| && id == shortOf(block[m[id]])
  {
    hide FreeFrom, Low16;
    var k :| 0 <= k < |ids| && ids[k] == id;
    assert m[id] == FreeFrom(slots0, 0)[k];
  }

  lemma {:induction false} HitIsInPool(m: map<nat, nat>, shortId: nat -> nat, pool: seq<Entry>, block: seq<Tx>, shortOf: Tx -> nat, id: nat)
    requires id in m && m[id] < |block| && id == shortOf(block[m[id]])
    ensures id in Hits(m, shortId, pool, 0) <==> InPool(pool, shortId, block, shortOf, m[id])
  {
    if InPool(pool, shortId, block, shortOf, m[id]) {
      var k :| 0 <= k < |pool| && shortId(pool[k].hash) == shortOf(block[m[id]]);
      assert shortId(pool[k].hash) in m;
    }
  }

  lemma {:induction false} ImageCard(ids: set<nat>, m: map<nat, nat>)
    requires ids <= m.Keys && OneToOne(m)
    ensures |set id | id in ids :: m[id]| == |ids|
    decreases |ids|
  {
    var image := set id | id in ids :: m[id];
    if ids == {} {
      assert image == {};
    } else {
      var id :| id in ids;
      var rest := ids - {id};
      ImageCard(rest, m);
      var image' := set x | x in rest :: m[x];
      assert image == image' + {m[id]} && m[id] !in image';
    }
  }

  /** No two entries of the memory pool have the short id of the same transaction of the block. */
  ghost predicate OnceInPool(pool: seq<Entry>, shortId: nat -> nat, block: seq<Tx>, shortOf: Tx -> nat) {
    forall j, k, q | 0 <= j < k < |pool| && 0 <= q < |block| && shortId(pool[j].hash) == shortOf(block[q]) ::
      shortId(pool[k].hash) != shortOf(block[q])
  }

  lemma {:induction false} OnceIsOnce(m: map<nat, nat>, shortId: nat -> nat, pool: seq<Entry>, block: seq<Tx>, shortOf: Tx -> nat)
    requires OnceInPool(pool, shortId, block, shortOf) && forall id | id in m :: m[id] < |block| && id == shortOf(block[m[id]])
    ensures OfferedOnce(m, shortId, pool, 0)
  {
    forall j, k | 0 <= j < k < |pool| && shortId(pool[j].hash) in m ensures shortId(pool[j].hash) != shortId(pool[k].hash) {
      var q := m[shortId(pool[j].hash)];
      assert shortId(pool[j].hash) == shortOf(block[q]);
    }
  }

  /** The positions the extra transactions fill: not prefilled, not in the memory pool, and among the extra ones. */
  ghost function FromExtra(slots0: Slots, env: Env, block: seq<Tx>, shortOf: Tx -> nat): set<nat> {
    set q: nat | q < |slots0| && slots0[q].None? && !InPool(env.pool, env.shortId, block, shortOf, q) && InPool(env.extra, env.shortId, block, shortOf, q)
  }

  /**
   * For a message that describes a block of at most 65536 transactions and is accepted, pools without a colliding
   * transaction, and a memory pool without two entries for one transaction: a position is filled if and only if it was
   * prefilled or its transaction is in the memory pool or among the extra ones, and extra_count is the number of
   * positions filled from the extra ones.
   */
  lemma {:induction false} InitFillsExactly(msg: Message, env: Env, block: seq<Tx>, shortOf: Tx -> nat) returns (slots0: Slots)
    requires InitData(msg, env).0 == Ok && Describes(msg, block, shortOf) && |block| <= MAX16 + 1
    requires NoCollision(env.pool, env.shortId, block, shortOf) && NoCollision(env.extra, env.shortId, block, shortOf)
    requires OnceInPool(env.pool, env.shortId, block, shortOf)
    ensures Prefill(Empty(|block|), msg.prefilled, |msg.shortIds|, 0, -1) == Some(slots0) && |slots0| == |block|
    ensures var p := InitData(msg, env).1.value;
            && |p.slots| == |block|
            && (forall q | 0 <= q < |block| ::
                  p.slots[q].Some? <==> slots0[q].Some? || InPool(env.pool, env.shortId, block, shortOf, q)
                                        || InPool(env.extra, env.shortId, block, shortOf, q))
            && p.extra == |FromExtra(slots0, env, block, shortOf)|
  {
    hide Prefill, FreeFrom, Scan, InitData, NoCollision, NoStranger, Low16, IndexIds, Leads, InPool, OnceInPool, Hits, Got, OfferedOnce, OneToOne, FromExtra;
    var m;
    slots0, m := InitParses(msg, env);
    var free := FreeFrom(slots0, 0);
    LeadsNone(msg.shortIds, free);
    IndexIdsLead(msg.shortIds, free, |slots0|, 0, map[], env.crowded);
    MapIsExact(slots0, msg.shortIds, m);
    forall id | id in m ensures m[id] < |block| && id == shortOf(block[m[id]]) { IdAt(slots0, msg.shortIds, m, block, shortOf, id); }
    NoStrangers(msg, block, shortOf, env.shortId, env.pool, free, m);
    NoStrangers(msg, block, shortOf, env.shortId, env.extra, free, m);
    OnceIsOnce(m, env.shortId, env.pool, block, shortOf);
    var p0 := Partial(slots0, seq(|slots0|, _ => false), 0, 0);
    NothingGot(p0, slots0, m);
    var a := Hits(m, env.shortId, env.pool, 0);
    assert {} + a == a;
    ScanGets(p0, slots0, m, {}, env.shortId, env.pool, 0, false, block);
    var p1 := Scan(p0, m, env.shortId, env.pool, 0, false);
    ScanGets(p1, slots0, m, a, env.shortId, env.extra, 0, true, block);
    Positions(InitData(msg, env).1.value, slots0, m, env, block, shortOf);
  }

  lemma {:induction false} NothingGot(p: Partial, slots0: Slots, m: map<nat, nat>)
    requires p == Partial(slots0, seq(|slots0|, _ => false), 0, 0) && Indexed(m, |slots0|)
    requires forall q | 0 <= q < |slots0| :: q in m.Values <==> slots0[q].None?
    ensures Got(p, slots0, m, {})
  {
    forall id | id in m ensures slots0[m[id]].None? { assert m[id] in m.Values; }
  }

  /** From short ids to positions. */
  lemma {:induction false} Positions(p: Partial, slots0: Slots, m: map<nat, nat>, env: Env, block: seq<Tx>, shortOf: Tx -> nat)
    requires var a, b := Hits(m, env.shortId, env.pool, 0), Hits(m, env.shortId, env.extra, 0); Got(p, slots0, m, a + b) && p.extra == |b - a|
    requires OneToOne(m) && |slots0| == |block| && (forall id | id in m :: m[id] < |block| && id == shortOf(block[m[id]]))
    requires forall q | 0 <= q < |slots0| :: q in m.Values <==> slots0[q].None?
    ensures |p.slots| == |block|
    ensures forall q | 0 <= q < |block| ::
              p.slots[q].Some? <==> slots0[q].Some? || InPool(env.pool, env.shortId, block, shortOf, q)
                                    || InPool(env.extra, env.shortId, block, shortOf, q)
    ensures p.extra == |FromExtra(slots0, env, block, shortOf)|
  {
    hide Hits, InPool, OneToOne;
    var a, b := Hits(m, env.shortId, env.pool, 0), Hits(m, env.shortId, env.extra, 0);
    HitsKnown(m, env.shortId, env.extra, 0);
    forall id | id in m
      ensures (id in a <==> InPool(env.pool, env.shortId, block, shortOf, m[id])) && (id in b <==> InPool(env.extra, env.shortId, block, shortOf, m[id]))
    {
      HitIsInPool(m, env.shortId, env.pool, block, shortOf, id);
      HitIsInPool(m, env.shortId, env.extra, block, shortOf, id);
    }
    forall q | 0 <= q < |block|
      ensures p.slots[q].Some? <==> slots0[q].Some? || InPool(env.pool, env.shortId, block, shortOf, q) || InPool(env.extra, env.shortId, block, shortOf, q)
    {
      if slots0[q].None? { var id :| id in m && m[id] == q; }
    }
    ImageCard(b - a, m);
    var image := set id | id in b - a :: m[id];
    forall q ensures q in image <==> q in FromExtra(slots0, env, block, shortOf) {
      if q in image {
        var id :| id in b - a && m[id] == q;
        assert q in m.Values;
      }
      if q in FromExtra(slots0, env, block, shortOf) {
        assert q in m.Values;
        var id :| id in m && m[id] == q;
        assert id in b - a;
      }
    }
    assert image == FromExtra(slots0, env, block, shortOf);
  }
}
