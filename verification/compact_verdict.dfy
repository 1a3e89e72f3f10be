/** What a position of the block ends up with, whatever the pools hold: collisions and repetitions included. */
module CompactVerdict {
  import opened Wrappers
  import opened CompactModel
  import opened CompactFill

  /** The transactions with a short id among the first i entries of a pool, in order. */
  function With(pool: seq<Entry>, shortId: nat -> nat, id: nat, i: nat): seq<Tx>
    requires i <= |pool|
  {
    if i == 0 then []
    else With(pool, shortId, id, i - 1) + if shortId(pool[i - 1].hash) == id then [pool[i - 1].tx] else []
  }

  predicate Uniform(c: Tx, e: seq<Tx>) {
    forall k | 0 <= k < |e| :: e[k].witnessHash == c.witnessHash
  }

  /**
   * The transaction for a short id, given those of the memory pool and the extra ones that have it: the only one of
   * the memory pool, or the first extra one if the memory pool has none, unless an extra one differs from it. Two of
   * the memory pool are no answer at all.
   */
  function Verdict(h: seq<Tx>, e: seq<Tx>): Option<Tx> {
    if |h| > 1 || h + e == [] || !Uniform((h + e)[0], e) then None else Some((h + e)[0])
  }

  lemma {:induction false} VerdictPool(h: seq<Tx>, tx: Tx)
    ensures Verdict(h + [tx], []) == if h == [] then Some(tx) else None
    ensures Verdict(h, []) == if |h| == 1 then Some(h[0]) else None
  {
    assert h + [tx] + [] == h + [tx] && h + [] == h;
  }

  lemma {:induction false} VerdictExtra(h: seq<Tx>, e: seq<Tx>, tx: Tx)
    ensures h + e == [] ==> Verdict(h, e).None?
    ensures var v := Verdict(h, e);
            Verdict(h, e + [tx]) ==
            if h + e == [] then Some(tx) else if v.Some? && v.value.witnessHash == tx.witnessHash then v else None
  {
    var e' := e + [tx];
    if h + e == [] {
      assert h + e' == [tx];
    } else {
      var c := (h + e)[0];
      assert (h + e')[0] == c;
      assert Uniform(c, e') <==> Uniform(c, e) && tx.witnessHash == c.witnessHash by {
        assert forall k | 0 <= k < |e| :: e'[k] == e[k];
        if Uniform(c, e') { assert e'[|e|] == tx; }
      }
    }
  }

  function FilledIds(p: Partial, m: map<nat, nat>): set<nat> {
    set id | id in m && m[id] < |p.slots| && p.slots[m[id]].Some?
  }

  /** After i entries of the memory pool and k extra ones every position of the map is as the verdict says, and they are counted. */
  ghost predicate Judged(p: Partial, slots0: Slots, m: map<nat, nat>, shortId: nat -> nat, pool: seq<Entry>, i: nat, extra: seq<Entry>, k: nat)
    requires i <= |pool| && k <= |extra|
  {
    && |p.slots| == |slots0| == |p.have| && Indexed(m, |slots0|) && p.mempool == |FilledIds(p, m)|
    && (forall id | id in m ::
          var h, e := With(pool, shortId, id, i), With(extra, shortId, id, k);
          (p.have[m[id]] <==> h + e != []) && p.slots[m[id]] == Verdict(h, e))
    && (forall q | 0 <= q < |slots0| && q !in m.Values :: p.slots[q] == slots0[q])
  }

  /** Changing the position of one id. */
  lemma {:induction false} OneChanged(p: Partial, p': Partial, m: map<nat, nat>, id: nat)
    requires OneToOne(m) && id in m && Indexed(m, |p.slots|) && |p'.slots| == |p.slots| && p'.slots == p.slots[m[id] := p'.slots[m[id]]]
    ensures |FilledIds(p', m)| == |FilledIds(p, m)| - (if p.slots[m[id]].Some? then 1 else 0) + if p'.slots[m[id]].Some? then 1 else 0
  {
    var a, b := FilledIds(p, m) - {id}, FilledIds(p', m) - {id};
    forall x ensures x in a <==> x in b { if x in m && x != id { assert m[x] != m[id]; } }
    assert a == b;
    assert FilledIds(p, m) == if p.slots[m[id]].Some? then a + {id} else a;
    assert FilledIds(p', m) == if p'.slots[m[id]].Some? then b + {id} else b;
  }

  /** The position of one id has the verdict on one more entry, and no other id has an entry more. */
  lemma {:induction false} Rejudged(p: Partial, p': Partial, slots0: Slots, m: map<nat, nat>, shortId: nat -> nat,
                                    pool: seq<Entry>, i: nat, i': nat, extra: seq<Entry>, k: nat, k': nat, id: nat)
    requires i <= |pool| && i' <= |pool| && k <= |extra| && k' <= |extra| && OneToOne(m) && Judged(p, slots0, m, shortId, pool, i, extra, k)
    requires forall x | x != id :: With(pool, shortId, x, i') == With(pool, shortId, x, i) && With(extra, shortId, x, k') == With(extra, shortId, x, k)
    requires id !in m ==> p' == p
    requires id in m ==>
               var v := Verdict(With(pool, shortId, id, i'), With(extra, shortId, id, k'));
               && With(pool, shortId, id, i') + With(extra, shortId, id, k') != []
               && p'.slots == p.slots[m[id] := v] && p'.have == p.have[m[id] := true]
               && p'.mempool == p.mempool - (if p.slots[m[id]].Some? then 1 else 0) + if v.Some? then 1 else 0
    ensures Judged(p', slots0, m, shortId, pool, i', extra, k')
  {
    hide Verdict, FilledIds, With;
    if id in m {
      OneChanged(p, p', m, id);
      assert m[id] in m.Values;
    }
    forall x | x in m && x != id ensures p'.have[m[x]] == p.have[m[x]] && p'.slots[m[x]] == p.slots[m[x]] {}
  }

  lemma {:induction false} WithNext(pool: seq<Entry>, shortId: nat -> nat, i: nat, x: nat)
    requires i < |pool|
    ensures With(pool, shortId, x, i + 1) == if shortId(pool[i].hash) == x then With(pool, shortId, x, i) + [pool[i].tx] else With(pool, shortId, x, i)
  {
  }

  lemma {:induction false} JudgedAt(p: Partial, slots0: Slots, m: map<nat, nat>, shortId: nat -> nat, pool: seq<Entry>, i: nat, extra: seq<Entry>, k: nat, id: nat)
    requires i <= |pool| && k <= |extra| && Judged(p, slots0, m, shortId, pool, i, extra, k)
    ensures |p.slots| == |p.have| && Indexed(m, |p.slots|)
    ensures id in m ==>
              var h, e := With(pool, shortId, id, i), With(extra, shortId, id, k);
              (p.have[m[id]] <==> h + e != []) && p.slots[m[id]] == Verdict(h, e)
  {
  }

  lemma {:induction false} PoolStep(p: Partial, slots0: Slots, m: map<nat, nat>, shortId: nat -> nat, pool: seq<Entry>, i: nat, extra: seq<Entry>)
    requires i < |pool| && OneToOne(m) && Judged(p, slots0, m, shortId, pool, i, extra, 0)
    ensures |p.slots| == |p.have| && Indexed(m, |p.slots|)
    ensures Judged(Offered(p, m, shortId(pool[i].hash), pool[i].tx, false), slots0, m, shortId, pool, i + 1, extra, 0)
  {
    hide Verdict, With, Judged, OneToOne;
    var id, tx := shortId(pool[i].hash), pool[i].tx;
    var h := With(pool, shortId, id, i);
    JudgedAt(p, slots0, m, shortId, pool, i, extra, 0, id);
    WithStart(extra, shortId, id);
    VerdictPool(h, tx);
    assert h + [] == h && h + [tx] + [] == h + [tx];
    forall x ensures With(pool, shortId, x, i + 1) == if x == id then With(pool, shortId, x, i) + [tx] else With(pool, shortId, x, i) {
      WithNext(pool, shortId, i, x);
    }
    Rejudged(p, Offered(p, m, id, tx, false), slots0, m, shortId, pool, i, i + 1, extra, 0, 0, id);
  }

  lemma {:induction false} WithStart(pool: seq<Entry>, shortId: nat -> nat, id: nat)
    ensures With(pool, shortId, id, 0) == []
  {
  }

  lemma {:induction false} ExtraStep(p: Partial, slots0: Slots, m: map<nat, nat>, shortId: nat -> nat, pool: seq<Entry>, extra: seq<Entry>, k: nat)
    requires k < |extra| && OneToOne(m) && Judged(p, slots0, m, shortId, pool, |pool|, extra, k)
    ensures |p.slots| == |p.have| && Indexed(m, |p.slots|)
    ensures Judged(Offered(p, m, shortId(extra[k].hash), extra[k].tx, true), slots0, m, shortId, pool, |pool|, extra, k + 1)
  {
    hide Verdict, With, Judged, OneToOne;
    var id, tx := shortId(extra[k].hash), extra[k].tx;
    var h, e := With(pool, shortId, id, |pool|), With(extra, shortId, id, k);
    JudgedAt(p, slots0, m, shortId, pool, |pool|, extra, k, id);
    VerdictExtra(h, e, tx);
    assert h + (e + [tx]) != [];
    forall x ensures With(extra, shortId, x, k + 1) == if x == id then With(extra, shortId, x, k) + [tx] else With(extra, shortId, x, k) {
      WithNext(extra, shortId, k, x);
    }
    Rejudged(p, Offered(p, m, id, tx, true), slots0, m, shortId, pool, |pool|, |pool|, extra, k, k + 1, id);
  }

  /** An id nobody has keeps the scan from ending early. */
  lemma {:induction false} NeverAll(p: Partial, m: map<nat, nat>, id: nat)
    requires id in m && id !in FilledIds(p, m)
    ensures |FilledIds(p, m)| < |m|
  {
    assert FilledIds(p, m) <= m.Keys - {id};
    Fewer(FilledIds(p, m), m.Keys - {id});
  }

  lemma {:induction false} Fewer(a: set<nat>, b: set<nat>)
    requires a <= b
    ensures |a| <= |b|
  {
    assert b == a + (b - a);
  }

  lemma {:induction false} WithNone(pool: seq<Entry>, shortId: nat -> nat, id: nat, i: nat)
    requires i <= |pool| && forall k | 0 <= k < |pool| :: shortId(pool[k].hash) != id
    ensures With(pool, shortId, id, i) == []
    decreases i
  {
    if i > 0 { WithNone(pool, shortId, id, i - 1); }
  }

  /** An id of the map that no entry of either pool has. */
  ghost predicate Missing(m: map<nat, nat>, shortId: nat -> nat, pool: seq<Entry>, extra: seq<Entry>, id: nat) {
    && id in m && (forall k | 0 <= k < |pool| :: shortId(pool[k].hash) != id)
    && (forall k | 0 <= k < |extra| :: shortId(extra[k].hash) != id)
  }

  lemma {:induction false} NotAllYet(p: Partial, slots0: Slots, m: map<nat, nat>, shortId: nat -> nat, pool: seq<Entry>, i: nat, extra: seq<Entry>, k: nat, id: nat)
    requires i <= |pool| && k <= |extra| && Judged(p, slots0, m, shortId, pool, i, extra, k) && Missing(m, shortId, pool, extra, id)
    ensures p.mempool != |m| && |p.slots| == |slots0| == |p.have| && Indexed(m, |slots0|)
  {
    WithNone(pool, shortId, id, i);
    WithNone(extra, shortId, id, k);
    assert p.slots[m[id]] == Verdict([], []);
    NeverAll(p, m, id);
  }

  lemma {:induction false} PoolJudged(p: Partial, slots0: Slots, m: map<nat, nat>, shortId: nat -> nat, pool: seq<Entry>, i: nat, extra: seq<Entry>, id: nat)
    requires i <= |pool| && OneToOne(m) && Judged(p, slots0, m, shortId, pool, i, extra, 0) && Missing(m, shortId, pool, extra, id)
    ensures Indexed(m, |p.slots|) && |p.have| == |p.slots|
    ensures Judged(Scan(p, m, shortId, pool, i, false), slots0, m, shortId, pool, |pool|, extra, 0)
    decreases |pool| - i
  {
    hide Judged, OneToOne, Missing, Scan, Offered;
    NotAllYet(p, slots0, m, shortId, pool, i, extra, 0, id);
    if i == |pool| {
      ScanEnd(p, m, shortId, pool, i, false);
    } else {
      ScanStep(p, m, shortId, pool, i, false);
      PoolStep(p, slots0, m, shortId, pool, i, extra);
      var p' := Offered(p, m, shortId(pool[i].hash), pool[i].tx, false);
      NotAllYet(p', slots0, m, shortId, pool, i + 1, extra, 0, id);
      PoolJudged(p', slots0, m, shortId, pool, i + 1, extra, id);
    }
  }

  lemma {:induction false} ExtraJudged(p: Partial, slots0: Slots, m: map<nat, nat>, shortId: nat -> nat, pool: seq<Entry>, extra: seq<Entry>, k: nat, id: nat)
    requires k <= |extra| && OneToOne(m) && Judged(p, slots0, m, shortId, pool, |pool|, extra, k) && Missing(m, shortId, pool, extra, id)
    ensures Indexed(m, |p.slots|) && |p.have| == |p.slots|
    ensures Judged(Scan(p, m, shortId, extra, k, true), slots0, m, shortId, pool, |pool|, extra, |extra|)
    decreases |extra| - k
  {
    hide Judged, OneToOne, Missing, Scan, Offered;
    NotAllYet(p, slots0, m, shortId, pool, |pool|, extra, k, id);
    if k == |extra| {
      ScanEnd(p, m, shortId, extra, k, true);
    } else {
      ScanStep(p, m, shortId, extra, k, true);
      ExtraStep(p, slots0, m, shortId, pool, extra, k);
      var p' := Offered(p, m, shortId(extra[k].hash), extra[k].tx, true);
      NotAllYet(p', slots0, m, shortId, pool, |pool|, extra, k + 1, id);
      ExtraJudged(p', slots0, m, shortId, pool, extra, k + 1, id);
    }
  }

  /**
   * Whatever the pools hold, collisions included: if some short id is in neither pool, every position that a short id
   * stands for ends up with what the verdict on the entries with that id says, and nothing else changes.
   */
  lemma {:induction false} ScansJudge(slots0: Slots, m: map<nat, nat>, shortId: nat -> nat, pool: seq<Entry>, extra: seq<Entry>, id: nat)
    requires OneToOne(m) && Indexed(m, |slots0|) && (forall x | x in m :: slots0[m[x]].None?) && Missing(m, shortId, pool, extra, id)
    ensures var p0 := Partial(slots0, seq(|slots0|, _ => false), 0, 0);
            var p := Scan(Scan(p0, m, shortId, pool, 0, false), m, shortId, extra, 0, true);
            && |p.slots| == |slots0|
            && (forall x | x in m :: p.slots[m[x]] == Verdict(With(pool, shortId, x, |pool|), With(extra, shortId, x, |extra|)))
            && (forall q | 0 <= q < |slots0| && q !in m.Values :: p.slots[q] == slots0[q])
  {
    hide Scan, Verdict, OneToOne, Missing;
    var p0 := Partial(slots0, seq(|slots0|, _ => false), 0, 0);
    NothingJudged(p0, slots0, m, shortId, pool, extra);
    PoolJudged(p0, slots0, m, shortId, pool, 0, extra, id);
    ExtraJudged(Scan(p0, m, shortId, pool, 0, false), slots0, m, shortId, pool, extra, 0, id);
  }

  lemma {:induction false} NothingJudged(p: Partial, slots0: Slots, m: map<nat, nat>, shortId: nat -> nat, pool: seq<Entry>, extra: seq<Entry>)
    requires p == Partial(slots0, seq(|slots0|, _ => false), 0, 0) && Indexed(m, |slots0|) && forall x | x in m :: slots0[m[x]].None?
    ensures Judged(p, slots0, m, shortId, pool, 0, extra, 0)
  {
    assert FilledIds(p, m) == {};
  }

  // ----- the second count -----

  lemma {:induction false} OfferedCounts(p: Partial, m: map<nat, nat>, id: nat, tx: Tx, isExtra: bool)
    requires Indexed(m, |p.slots|) && |p.have| == |p.slots|
    ensures var p' := Offered(p, m, id, tx, isExtra);
            |p'.slots| == |p.slots| == |p'.have| && p'.extra - p.extra == if isExtra then p'.mempool - p.mempool else 0
  {
  }

  lemma {:induction false} ScanCounts(p: Partial, m: map<nat, nat>, shortId: nat -> nat, pool: seq<Entry>, i: nat, isExtra: bool)
    requires Indexed(m, |p.slots|) && |p.have| == |p.slots| && i <= |pool|
    ensures var p' := Scan(p, m, shortId, pool, i, isExtra); p'.extra - p.extra == if isExtra then p'.mempool - p.mempool else 0
    decreases |pool| - i
  {
    hide Scan, Offered;
    if i == |pool| {
      ScanEnd(p, m, shortId, pool, i, isExtra);
    } else {
      ScanStep(p, m, shortId, pool, i, isExtra);
      OfferedCounts(p, m, shortId(pool[i].hash), pool[i].tx, isExtra);
      var p' := Offered(p, m, shortId(pool[i].hash), pool[i].tx, isExtra);
      if p'.mempool != |m| { ScanCounts(p', m, shortId, pool, i + 1, isExtra); }
    }
  }

  /**
   * Whatever the pools hold, extra_count is by how much the extra transactions changed the number of positions found:
   * those they filled less those they cleared, also of the memory pool's.
   */
  lemma {:induction false} ExtraIsDifference(slots: Slots, m: map<nat, nat>, shortId: nat -> nat, pool: seq<Entry>, extra: seq<Entry>)
    requires Indexed(m, |slots|)
    ensures var p0 := Partial(slots, seq(|slots|, _ => false), 0, 0);
            var p1 := Scan(p0, m, shortId, pool, 0, false);
            var p2 := Scan(p1, m, shortId, extra, 0, true);
            p1.extra == 0 && p2.extra == p2.mempool - p1.mempool
  {
    hide Scan;
    var p0 := Partial(slots, seq(|slots|, _ => false), 0, 0);
    ScanCounts(p0, m, shortId, pool, 0, false);
    ScanCounts(Scan(p0, m, shortId, pool, 0, false), m, shortId, extra, 0, true);
  }
}
