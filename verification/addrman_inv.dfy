/** The consistency of the address manager, clause by clause as its own self-check states it, and its preservation. */
module AddrInv {
  import opened Wrappers
  import opened AddrModel

  function Holds(s: State, id: int, b: nat): bool
    requires id in s.info
  {
    var slot := s.NewSlot(s.info[id].service, b);
    slot in s.news && s.news[slot] == id
  }

  /** The buckets of the new table that reference an entry; it has one position per bucket. */
  function Buckets(s: State, id: int): set<nat>
    requires id in s.info
  {
    set b: nat | b < NEW_BUCKETS && Holds(s, id, b)
  }

  function TriedIds(s: State): set<int> {
    set id | id in s.info && s.info[id].inTried
  }

  function NewIds(s: State): set<int> {
    set id | id in s.info && !s.info[id].inTried
  }

  ghost predicate IdsOk(s: State) {
    forall id | id in s.info :: 0 <= id < s.idCount
  }

  ghost predicate AddrOk(s: State) {
    && (forall id | id in s.info :: s.info[id].service.ip in s.addr && s.addr[s.info[id].service.ip] == id)
    && (forall ip | ip in s.addr :: s.addr[ip] in s.info && s.info[s.addr[ip]].service.ip == ip)
  }

  ghost predicate RandomOk(s: State) {
    && (forall p | 0 <= p < |s.random| :: s.random[p] in s.info && s.info[s.random[p]].randomPos == p)
    && (forall id | id in s.info :: 0 <= s.info[id].randomPos < |s.random| && s.random[s.info[id].randomPos] == id)
  }

  ghost predicate TriedOk(s: State) {
    && (forall slot | slot in s.tried ::
          var id := s.tried[slot]; id in s.info && s.info[id].inTried && s.TriedSlot(s.info[id].service) == slot)
    && (forall id | id in s.info && s.info[id].inTried ::
          s.TriedSlot(s.info[id].service) in s.tried && s.tried[s.TriedSlot(s.info[id].service)] == id)
  }

  ghost predicate NewOk(s: State) {
    forall slot | slot in s.news ::
      var id := s.news[slot];
      slot.0 < NEW_BUCKETS && id in s.info && !s.info[id].inTried && slot == s.NewSlot(s.info[id].service, slot.0)
  }

  /** One entry, apart from the bounds on its reference count. */
  ghost predicate RefsOk(s: State, id: int)
    requires id in s.info
  {
    s.info[id].refCount == |Buckets(s, id)|
  }

  ghost predicate Settled(i: Info) {
    if i.inTried then i.refCount == 0 else 0 < i.refCount <= BUCKETS_PER_ADDRESS
  }

  ghost predicate AllRefsOk(s: State) {
    forall id | id in s.info :: RefsOk(s, id)
  }

  ghost predicate Standing(s: State, loose: set<int>) {
    && (forall id | id in s.info && id !in loose :: Settled(s.info[id]))
    && (forall id | id in loose :: id in s.info && !s.info[id].inTried)
  }

  ghost predicate Counted(s: State, loose: set<int>, extra: int) {
    s.nTried == |TriedIds(s)| && s.nNew == |NewIds(s) - loose| + extra
  }

  /** Everything, while the entries of loose are on their way between the tables and extra of them are counted in nNew. */
  ghost predicate Core(s: State, loose: set<int>, extra: int) {
    && IdsOk(s) && AddrOk(s) && RandomOk(s) && TriedOk(s) && NewOk(s)
    && AllRefsOk(s) && Standing(s, loose) && Counted(s, loose, extra)
  }

  ghost predicate Inv(s: State) {
    Core(s, {}, 0)
  }

  /** The times of an entry are not negative, and a tried one has been reached. */
  ghost predicate Dated(i: Info) {
    i.lastTry >= 0 && i.lastSuccess >= 0 && (i.inTried ==> i.lastSuccess != 0)
  }

  /** The clauses of the self-check about recorded times, which no table depends on. */
  ghost predicate Credible(s: State) {
    forall id | id in s.info :: Dated(s.info[id])
  }

  lemma {:induction false} FreshInv(hash: Hashing, key: nat)
    ensures Inv(Fresh(hash, key)) && Credible(Fresh(hash, key))
  {
    assert NewIds(Fresh(hash, key)) == {};
  }

  // ----- entries and counters -----

  /** Two states that differ only in the shuffle and in fields the tables do not depend on. */
  ghost predicate SamePlaces(s: State, s': State) {
    && s'.hash == s.hash && s'.key == s.key && s'.idCount == s.idCount && s'.addr == s.addr
    && s'.tried == s.tried && s'.news == s.news && s'.nTried == s.nTried && s'.nNew == s.nNew
    && s'.info.Keys == s.info.Keys
    && (forall id | id in s.info ::
          && s'.info[id].service == s.info[id].service && s'.info[id].refCount == s.info[id].refCount
          && s'.info[id].inTried == s.info[id].inTried)
  }

  lemma {:induction false} SamePlacesCore(s: State, s': State, loose: set<int>, extra: int)
    requires Core(s, loose, extra) && SamePlaces(s, s') && RandomOk(s') && IdsOk(s')
    ensures Core(s', loose, extra)
  {
    hide IdsOk, AddrOk, RandomOk, TriedOk, NewOk, AllRefsOk, Standing, Counted, SamePlaces;
    SamePlacesCounts(s, s', loose, extra);
    SamePlacesTables(s, s', loose);
    SamePlacesRefs(s, s');
  }

  lemma {:induction false} SamePlacesCounts(s: State, s': State, loose: set<int>, extra: int)
    requires SamePlaces(s, s') && Counted(s, loose, extra)
    ensures Counted(s', loose, extra)
  {
    assert forall id :: id in s'.info <==> id in s'.info.Keys;
    forall id ensures id in TriedIds(s') <==> id in TriedIds(s) {}
    forall id ensures id in NewIds(s') <==> id in NewIds(s) {}
    assert TriedIds(s') == TriedIds(s) && NewIds(s') == NewIds(s);
  }

  lemma {:induction false} SamePlacesTables(s: State, s': State, loose: set<int>)
    requires SamePlaces(s, s') && AddrOk(s) && TriedOk(s) && NewOk(s) && Standing(s, loose)
    ensures AddrOk(s') && TriedOk(s') && NewOk(s') && Standing(s', loose)
  {
    assert forall id :: id in s'.info <==> id in s'.info.Keys;
    assert forall id :: id in s'.info <==> id in s.info;
  }

  lemma {:induction false} SamePlacesRefs(s: State, s': State)
    requires SamePlaces(s, s') && AllRefsOk(s)
    ensures AllRefsOk(s')
  {
    hide RefsOk;
    forall id | id in s'.info ensures RefsOk(s', id) {
      assert id in s'.info.Keys;
      RefsSame(s, s', id);
    }
  }

  ghost predicate OnlyShuffled(s: State, s': State) {
    && SamePlaces(s, s') && s'.lastGood == s.lastGood
    && (forall id | id in s.info :: s'.info[id] == s.info[id].(randomPos := s'.info[id].randomPos))
  }

  /** Swapping two positions keeps vRandom a permutation of the ids, and touches nothing else. */
  lemma {:induction false} SwapRandomEffect(s: State, p1: int, p2: int)
    requires RandomOk(s) && 0 <= p1 < |s.random| && 0 <= p2 < |s.random|
    ensures SwapRandom(s, p1, p2).Some?
    ensures var s' := SwapRandom(s, p1, p2).value;
            && RandomOk(s') && OnlyShuffled(s, s')
            && s'.random == s.random[p1 := s.random[p2]][p2 := s.random[p1]]
  {
    hide RandomOk, OnlyShuffled;
    if p1 == p2 {
      SwapNothing(s);
    } else {
      SwapFinds(s, p1, p2);
      var s' := SwapRandom(s, p1, p2).value;
      SwapShuffles(s, s', p1, p2);
      SwapOrder(s, s', p1, p2);
    }
  }

  ghost predicate Swapped(s: State, s': State, p1: int, p2: int) {
    && 0 <= p1 < |s.random| && 0 <= p2 < |s.random| && p1 != p2
    && var id1, id2 := s.random[p1], s.random[p2];
       && id1 in s.info && id2 in s.info && id1 != id2
       && s' == s.(info := s.info[id1 := s.info[id1].(randomPos := p2)][id2 := s.info[id2].(randomPos := p1)],
                   random := s.random[p1 := id2][p2 := id1])
  }

  lemma {:induction false} SwapNothing(s: State)
    ensures OnlyShuffled(s, s)
  {
  }

  lemma {:induction false} SwapFinds(s: State, p1: int, p2: int)
    requires RandomOk(s) && 0 <= p1 < |s.random| && 0 <= p2 < |s.random| && p1 != p2
    ensures SwapRandom(s, p1, p2).Some? && Swapped(s, SwapRandom(s, p1, p2).value, p1, p2)
  {
    assert s.random[p1] in s.info && s.random[p2] in s.info && s.random[p1] != s.random[p2];
  }

  lemma {:induction false} SwapShuffles(s: State, s': State, p1: int, p2: int)
    requires Swapped(s, s', p1, p2)
    ensures OnlyShuffled(s, s')
  {
    assert s'.info.Keys == s.info.Keys;
  }

  lemma {:induction false} SwapOrder(s: State, s': State, p1: int, p2: int)
    requires RandomOk(s) && Swapped(s, s', p1, p2)
    ensures RandomOk(s')
  {
    forall p | 0 <= p < |s'.random| ensures s'.random[p] in s'.info && s'.info[s'.random[p]].randomPos == p {}
    forall id | id in s'.info ensures 0 <= s'.info[id].randomPos < |s'.random| && s'.random[s'.info[id].randomPos] == id {}
  }

  lemma {:induction false} SwapRandomCore(s: State, loose: set<int>, extra: int, p1: int, p2: int)
    requires Core(s, loose, extra) && 0 <= p1 < |s.random| && 0 <= p2 < |s.random|
    ensures SwapRandom(s, p1, p2).Some?
    ensures Core(SwapRandom(s, p1, p2).value, loose, extra)
  {
    SwapRandomEffect(s, p1, p2);
    SamePlacesCore(s, SwapRandom(s, p1, p2).value, loose, extra);
  }

  /** A state without one unreferenced entry. */
  ghost predicate Removed(s: State, s': State, id: int) {
    && s'.hash == s.hash && s'.key == s.key && s'.idCount == s.idCount && s'.lastGood == s.lastGood
    && s'.tried == s.tried && s'.news == s.news && s'.nTried == s.nTried
    && id in s.info && s'.info == s.info - {id}
    && s'.addr == s.addr - {s.info[id].service.ip} && s'.nNew == s.nNew - 1
  }

  lemma {:induction false} Unreferenced(s: State, id: int)
    requires NewOk(s) && id in s.info && RefsOk(s, id) && s.info[id].refCount == 0
    ensures forall slot | slot in s.news :: s.news[slot] != id
  {
    forall slot | slot in s.news && s.news[slot] == id ensures slot.0 in Buckets(s, id) {
      assert Holds(s, id, slot.0);
    }
  }

  /** Reference counts do not change when no slot of the entry does. */
  lemma {:induction false} RefsSame(s: State, s': State, x: int)
    requires x in s.info && x in s'.info && RefsOk(s, x)
    requires s'.hash == s.hash && s'.key == s.key
    requires s'.info[x].service == s.info[x].service && s'.info[x].refCount == s.info[x].refCount
    requires forall slot | slot in s.news && s.news[slot] == x :: slot in s'.news && s'.news[slot] == x
    requires forall slot | slot in s'.news && s'.news[slot] == x :: slot in s.news && s.news[slot] == x
    ensures RefsOk(s', x)
  {
    assert forall b: nat :: Holds(s', x, b) == Holds(s, x, b);
    assert Buckets(s', x) == Buckets(s, x);
  }

  lemma {:induction false} RemovedCounts(s: State, s': State, loose: set<int>, id: int)
    requires Removed(s, s', id) && id in loose && !s.info[id].inTried
    ensures TriedIds(s') == TriedIds(s)
    ensures NewIds(s') - (loose - {id}) == NewIds(s) - loose
  {
    forall x ensures x in TriedIds(s') <==> x in TriedIds(s) {}
    forall x ensures x in NewIds(s') - (loose - {id}) <==> x in NewIds(s) - loose {}
  }

  lemma {:induction false} RemovedAddr(s: State, s': State, id: int)
    requires Removed(s, s', id) && AddrOk(s)
    ensures AddrOk(s')
  {
    forall ip | ip in s'.addr ensures s'.addr[ip] in s'.info && s'.info[s'.addr[ip]].service.ip == ip {
      assert ip in s.addr && s.addr[ip] != id;
    }
  }

  lemma {:induction false} RemovedTables(s: State, s': State, id: int)
    requires Removed(s, s', id) && !s.info[id].inTried && TriedOk(s) && NewOk(s)
    requires forall slot | slot in s.news :: s.news[slot] != id
    ensures TriedOk(s') && NewOk(s')
  {
  }

  lemma {:induction false} RemovedCore(s: State, s': State, loose: set<int>, extra: int, id: int)
    requires Core(s, loose, extra) && id in loose && s.info[id].refCount == 0
    requires Removed(s, s', id) && RandomOk(s')
    ensures Core(s', loose - {id}, extra - 1)
  {
    Unreferenced(s, id);
    RemovedCounts(s, s', loose, id);
    RemovedAddr(s, s', id);
    RemovedTables(s, s', id);
    forall x | x in s'.info ensures RefsOk(s', x) { RefsSame(s, s', x); }
  }

  lemma {:induction false} DroppedLast(s: State, s': State, id: int)
    requires RandomOk(s) && Removed(s, s', id) && |s.random| > 0 && s.random[|s.random| - 1] == id
    requires s'.random == s.random[..|s.random| - 1]
    ensures RandomOk(s')
  {
    forall q | 0 <= q < |s'.random| ensures s'.random[q] in s'.info && s'.info[s'.random[q]].randomPos == q {
      assert s'.random[q] == s.random[q];
    }
  }

  /** Delete swaps the entry to the end of vRandom and drops it there; the others are only reshuffled. */
  lemma {:induction false} DeleteEffect(s: State, id: int) returns (s1: State)
    requires RandomOk(s) && id in s.info && !s.info[id].inTried && s.info[id].refCount == 0
    ensures Delete(s, id).Some? && RandomOk(Delete(s, id).value)
    ensures Some(s1) == SwapRandom(s, s.info[id].randomPos, |s.random| - 1)
    ensures OnlyShuffled(s, s1) && RandomOk(s1) && Removed(s1, Delete(s, id).value, id)
  {
    hide SwapRandom;
    var p, last := s.info[id].randomPos, |s.random| - 1;
    SwapRandomEffect(s, p, last);
    s1 := SwapRandom(s, p, last).value;
    DroppedLast(s1, Delete(s, id).value, id);
  }

  lemma {:induction false} DeleteCore(s: State, loose: set<int>, extra: int, id: int)
    requires Core(s, loose, extra) && id in loose && s.info[id].refCount == 0
    ensures Delete(s, id).Some? && Core(Delete(s, id).value, loose - {id}, extra - 1)
  {
    var s1 := DeleteEffect(s, id);
    ShuffledAndRemovedCore(s, s1, Delete(s, id).value, loose, extra, id);
  }

  lemma {:induction false} ShuffledAndRemovedCore(s: State, s1: State, s': State, loose: set<int>, extra: int, id: int)
    requires Core(s, loose, extra) && id in loose && s.info[id].refCount == 0
    requires OnlyShuffled(s, s1) && RandomOk(s1) && Removed(s1, s', id) && RandomOk(s')
    ensures Core(s', loose - {id}, extra - 1)
  {
    SamePlacesCore(s, s1, loose, extra);
    RemovedCore(s1, s', loose, extra, id);
  }

  lemma {:induction false} DeleteKeeps(s: State, id: int)
    requires RandomOk(s) && id in s.info && !s.info[id].inTried && s.info[id].refCount == 0
    ensures Delete(s, id).Some?
    ensures var s' := Delete(s, id).value;
            && Keeps(s, s', {id}) && s'.news == s.news && s'.tried == s.tried
            && (forall x | x in s'.info :: s'.info[x].refCount == s.info[x].refCount && s'.info[x].inTried == s.info[x].inTried)
  {
    var s1 := DeleteEffect(s, id);
    var s' := Delete(s, id).value;
    assert s'.info.Keys == s1.info.Keys - {id};
    forall x | x in s'.info
      ensures SameEntry(s.info[x], s'.info[x]) && s'.info[x].refCount == s.info[x].refCount && s'.info[x].inTried == s.info[x].inTried
    {
      assert x in s1.info.Keys && x in s.info && s'.info[x] == s1.info[x];
    }
  }

  // ----- moving one entry between the tables -----

  /** What persists of an entry whatever table it is in. */
  ghost predicate SameEntry(i: Info, i': Info) {
    i' == i.(refCount := i'.refCount, inTried := i'.inTried, randomPos := i'.randomPos)
  }

  /** Nothing is forgotten but the entries of lost, and no entry is altered. */
  ghost predicate Keeps(s: State, s': State, lost: set<int>) {
    && s'.hash == s.hash && s'.key == s.key && s'.lastGood == s.lastGood && s'.idCount == s.idCount
    && s'.info.Keys == s.info.Keys - lost
    && (forall x | x in s'.info :: SameEntry(s.info[x], s'.info[x]))
  }

  lemma {:induction false} KeepsTransitive(s: State, s1: State, s2: State, lost1: set<int>, lost2: set<int>)
    requires Keeps(s, s1, lost1) && Keeps(s1, s2, lost2)
    ensures Keeps(s, s2, lost1 + lost2)
  {
    forall x | x in s2.info ensures SameEntry(s.info[x], s2.info[x]) {
      assert x in s2.info.Keys;
      assert x in s1.info && SameEntry(s1.info[x], s2.info[x]) && SameEntry(s.info[x], s1.info[x]);
    }
  }

  /** One entry changed in the fields the tables look at. */
  ghost predicate Retabled(s: State, s': State, id: int) {
    && s'.hash == s.hash && s'.key == s.key && s'.idCount == s.idCount && s'.addr == s.addr && s'.random == s.random
    && s'.lastGood == s.lastGood
    && id in s.info && id in s'.info && s'.info == s.info[id := s'.info[id]]
    && SameEntry(s.info[id], s'.info[id]) && s'.info[id].randomPos == s.info[id].randomPos
  }

  lemma {:induction false} RetabledOk(s: State, s': State, id: int)
    requires Retabled(s, s', id)
    ensures Keeps(s, s', {})
    ensures IdsOk(s) ==> IdsOk(s')
    ensures AddrOk(s) ==> AddrOk(s')
    ensures RandomOk(s) ==> RandomOk(s')
  {
    assert s'.info.Keys == s.info.Keys;
  }

  lemma {:induction false} RetabledCounts(s: State, s': State, id: int)
    requires Retabled(s, s', id)
    ensures TriedIds(s') == if s'.info[id].inTried then TriedIds(s) + {id} else TriedIds(s) - {id}
    ensures NewIds(s') == if s'.info[id].inTried then NewIds(s) - {id} else NewIds(s) + {id}
  {
    forall x ensures x in TriedIds(s') <==> x in (if s'.info[id].inTried then TriedIds(s) + {id} else TriedIds(s) - {id}) {}
    forall x ensures x in NewIds(s') <==> x in (if s'.info[id].inTried then NewIds(s) - {id} else NewIds(s) + {id}) {}
  }

  /** Every reference count but one entry's is untouched when the new table changes only in slots of that entry. */
  lemma {:induction false} OtherRefs(s: State, s': State, id: int)
    requires AllRefsOk(s) && Retabled(s, s', id) && RefsOk(s', id)
    requires forall slot | slot in s.news && s.news[slot] != id :: slot in s'.news && s'.news[slot] == s.news[slot]
    requires forall slot | slot in s'.news && s'.news[slot] != id :: slot in s.news && s'.news[slot] == s.news[slot]
    ensures AllRefsOk(s')
  {
    forall x | x in s'.info ensures RefsOk(s', x) {
      if x != id { RefsSame(s, s', x); }
    }
  }

  lemma {:induction false} LooseCard(ids: set<int>, loose: set<int>, id: int)
    requires id in ids && id !in loose
    ensures |ids - (loose + {id})| == |ids - loose| - 1
  {
    assert ids - (loose + {id}) == (ids - loose) - {id};
  }

  /** A settled new entry may be regarded as loose, ... */
  lemma {:induction false} LoosenCore(s: State, loose: set<int>, extra: int, id: int)
    requires Core(s, loose, extra) && id in s.info && !s.info[id].inTried && id !in loose
    ensures Core(s, loose + {id}, extra + 1)
  {
    LooseCard(NewIds(s), loose, id);
  }

  /** ... and a loose one whose count is back in range as settled. */
  lemma {:induction false} SettleCore(s: State, loose: set<int>, extra: int, id: int)
    requires Core(s, loose + {id}, extra + 1) && id !in loose && 0 < s.info[id].refCount <= BUCKETS_PER_ADDRESS
    ensures Core(s, loose, extra)
  {
    LooseCard(NewIds(s), loose, id);
  }

  lemma {:induction false} RetabledLoose(s: State, s': State, loose: set<int>, extra: int, id: int)
    requires Retabled(s, s', id) && Standing(s, loose) && Counted(s, loose, extra)
    requires id in loose && !s'.info[id].inTried && s'.nTried == s.nTried && s'.nNew == s.nNew
    ensures Standing(s', loose) && Counted(s', loose, extra)
  {
    RetabledCounts(s, s', id);
    assert TriedIds(s') == TriedIds(s) && NewIds(s') == NewIds(s);
  }

  /** A loose entry loses one reference. */
  lemma {:induction false} UnslotCore(s: State, s': State, loose: set<int>, extra: int, slot: Slot)
    requires Core(s, loose, extra) && slot in s.news && s.news[slot] in loose
    requires var id := s.news[slot];
             s' == s.WithInfo(id, s.info[id].(refCount := s.info[id].refCount - 1)).(news := s.news - {slot})
    ensures Core(s', loose, extra) && Keeps(s, s', {})
    ensures Buckets(s', s.news[slot]) == Buckets(s, s.news[slot]) - {slot.0}
  {
    hide IdsOk, AddrOk, RandomOk, TriedOk, Counted;
    var id := s.news[slot];
    RetabledOk(s, s', id);
    UnslotRefs(s, s', slot);
    OtherRefs(s, s', id);
    RetabledLoose(s, s', loose, extra, id);
    UnslotTables(s, s', slot);
  }

  lemma {:induction false} UnslotTables(s: State, s': State, slot: Slot)
    requires TriedOk(s) && NewOk(s) && slot in s.news
    requires var id := s.news[slot];
             s' == s.WithInfo(id, s.info[id].(refCount := s.info[id].refCount - 1)).(news := s.news - {slot})
    ensures TriedOk(s') && NewOk(s')
  {
  }

  lemma {:induction false} UnslotRefs(s: State, s': State, slot: Slot)
    requires NewOk(s) && slot in s.news && RefsOk(s, s.news[slot])
    requires var id := s.news[slot];
             s' == s.WithInfo(id, s.info[id].(refCount := s.info[id].refCount - 1)).(news := s.news - {slot})
    ensures var id := s.news[slot];
            Buckets(s', id) == Buckets(s, id) - {slot.0} && RefsOk(s', id)
  {
    var id := s.news[slot];
    forall b: nat ensures Holds(s', id, b) <==> Holds(s, id, b) && b != slot.0 {}
    assert Buckets(s', id) == Buckets(s, id) - {slot.0};
    assert Holds(s, id, slot.0);
    assert slot.0 in Buckets(s, id);
  }

  /** A loose entry is referenced from a free slot of its own. */
  lemma {:induction false} PutNewCore(s: State, loose: set<int>, extra: int, id: int, slot: Slot)
    requires Core(s, loose, extra) && id in loose
    requires slot !in s.news && slot.0 < NEW_BUCKETS && slot == s.NewSlot(s.info[id].service, slot.0)
    ensures var s' := PutNew(s, id, slot, s.info[id].refCount + 1);
            Core(s', loose, extra) && Keeps(s, s', {}) && s'.info[id].refCount > 0
  {
    hide IdsOk, AddrOk, RandomOk, TriedOk, NewOk, Counted;
    var s' := PutNew(s, id, slot, s.info[id].refCount + 1);
    RetabledOk(s, s', id);
    PutNewRefs(s, id, slot);
    OtherRefs(s, s', id);
    RetabledLoose(s, s', loose, extra, id);
    PutNewTables(s, id, slot);
  }

  lemma {:induction false} PutNewTables(s: State, id: int, slot: Slot)
    requires TriedOk(s) && NewOk(s) && id in s.info && !s.info[id].inTried
    requires slot !in s.news && slot.0 < NEW_BUCKETS && slot == s.NewSlot(s.info[id].service, slot.0)
    ensures var s' := PutNew(s, id, slot, s.info[id].refCount + 1); TriedOk(s') && NewOk(s')
  {
  }

  lemma {:induction false} PutNewRefs(s: State, id: int, slot: Slot)
    requires id in s.info && RefsOk(s, id)
    requires slot !in s.news && slot.0 < NEW_BUCKETS && slot == s.NewSlot(s.info[id].service, slot.0)
    ensures RefsOk(PutNew(s, id, slot, s.info[id].refCount + 1), id) && s.info[id].refCount >= 0
  {
    var s' := PutNew(s, id, slot, s.info[id].refCount + 1);
    forall b: nat ensures Holds(s', id, b) <==> Holds(s, id, b) || b == slot.0 {}
    assert !Holds(s, id, slot.0);
    assert Buckets(s', id) == Buckets(s, id) + {slot.0};
  }

  /** Taking an entry out of the tried table leaves it loose. */
  lemma {:induction false} UntryCore(s: State, s': State, loose: set<int>, extra: int, slot: Slot)
    requires Core(s, loose, extra) && slot in s.tried
    requires var id := s.tried[slot];
             s' == s.WithInfo(id, s.info[id].(inTried := false)).(tried := s.tried - {slot}, nTried := s.nTried - 1)
    ensures var id := s.tried[slot];
            Core(s', loose + {id}, extra) && Keeps(s, s', {}) && id !in loose && s'.info[id].refCount == 0
  {
    var id := s.tried[slot];
    RetabledOk(s, s', id);
    RefsSame(s, s', id);
    OtherRefs(s, s', id);
    UntryCounts(s, s', loose, extra, id);
    UntryTables(s, s', slot);
    UntryStanding(s, s', loose, id);
  }

  lemma {:induction false} UntryStanding(s: State, s': State, loose: set<int>, id: int)
    requires Standing(s, loose) && Retabled(s, s', id) && s.info[id].inTried && !s'.info[id].inTried
    ensures id !in loose && Standing(s', loose + {id})
  {
  }

  lemma {:induction false} UntryCounts(s: State, s': State, loose: set<int>, extra: int, id: int)
    requires Counted(s, loose, extra) && Retabled(s, s', id) && s.info[id].inTried && !s'.info[id].inTried
    requires s'.nTried == s.nTried - 1 && s'.nNew == s.nNew
    ensures Counted(s', loose + {id}, extra)
  {
    RetabledCounts(s, s', id);
    assert id in TriedIds(s) && id !in NewIds(s);
    assert NewIds(s') - (loose + {id}) == NewIds(s) - loose;
  }

  lemma {:induction false} UntryTables(s: State, s': State, slot: Slot)
    requires TriedOk(s) && NewOk(s) && slot in s.tried
    requires var id := s.tried[slot];
             s' == s.WithInfo(id, s.info[id].(inTried := false)).(tried := s.tried - {slot}, nTried := s.nTried - 1)
    ensures TriedOk(s') && NewOk(s')
  {
    forall x | x in s'.info && s'.info[x].inTried
      ensures s'.TriedSlot(s'.info[x].service) in s'.tried && s'.tried[s'.TriedSlot(s'.info[x].service)] == x
    {
      assert x != s.tried[slot] && s.tried[s.TriedSlot(s.info[x].service)] == x;
    }
  }

  /** A loose, unreferenced entry enters the tried table at its own free slot. */
  lemma {:induction false} TryCore(s: State, loose: set<int>, extra: int, id: int)
    requires Core(s, loose, extra) && id in loose && s.info[id].refCount == 0
    requires s.TriedSlot(s.info[id].service) !in s.tried
    ensures var s' := s.WithInfo(id, s.info[id].(inTried := true))
                       .(tried := s.tried[s.TriedSlot(s.info[id].service) := id], nTried := s.nTried + 1);
            Core(s', loose - {id}, extra) && Keeps(s, s', {})
  {
    var slot := s.TriedSlot(s.info[id].service);
    var s' := s.WithInfo(id, s.info[id].(inTried := true)).(tried := s.tried[slot := id], nTried := s.nTried + 1);
    RetabledOk(s, s', id);
    RefsSame(s, s', id);
    OtherRefs(s, s', id);
    TryCounts(s, s', loose, extra, id);
    Unreferenced(s, id);
    TryTables(s, id);
    TryStanding(s, s', loose, id);
  }

  lemma {:induction false} TryStanding(s: State, s': State, loose: set<int>, id: int)
    requires Standing(s, loose) && Retabled(s, s', id) && Settled(s'.info[id])
    ensures Standing(s', loose - {id})
  {
  }

  lemma {:induction false} TryCounts(s: State, s': State, loose: set<int>, extra: int, id: int)
    requires Counted(s, loose, extra) && Retabled(s, s', id) && !s.info[id].inTried && s'.info[id].inTried && id in loose
    requires s'.nTried == s.nTried + 1 && s'.nNew == s.nNew
    ensures Counted(s', loose - {id}, extra)
  {
    RetabledCounts(s, s', id);
    assert id !in TriedIds(s) && id in NewIds(s);
    assert NewIds(s') - (loose - {id}) == NewIds(s) - loose;
  }

  lemma {:induction false} TryTables(s: State, id: int)
    requires TriedOk(s) && NewOk(s) && id in s.info && !s.info[id].inTried
    requires s.TriedSlot(s.info[id].service) !in s.tried && forall slot | slot in s.news :: s.news[slot] != id
    ensures var s' := s.WithInfo(id, s.info[id].(inTried := true))
                       .(tried := s.tried[s.TriedSlot(s.info[id].service) := id], nTried := s.nTried + 1);
            TriedOk(s') && NewOk(s')
  {
  }

  // ----- the operations that move entries -----

  /** ClearNew frees the slot, and forgets its occupant exactly when that was the last reference. */
  lemma {:induction false} ClearNewCore(s: State, loose: set<int>, extra: int, slot: Slot)
    requires Core(s, loose, extra) && forall id | id in loose :: s.info[id].refCount == 0
    ensures ClearNew(s, slot).Some?
    ensures Core(ClearNew(s, slot).value, loose, extra)
  {
    if slot in s.news {
      var id := s.news[slot];
      OccupantIsSettled(s, loose, slot);
      var s1 := s.WithInfo(id, s.info[id].(refCount := s.info[id].refCount - 1)).(news := s.news - {slot});
      DereferenceCore(s, s1, loose, extra, slot);
      if s.info[id].refCount == 1 {
        assert ClearNew(s, slot) == Delete(s1, id);
        DeleteCore(s1, loose + {id}, extra + 1, id);
        assert loose + {id} - {id} == loose;
      } else {
        assert ClearNew(s, slot) == Some(s1);
      }
    }
  }

  lemma {:induction false} DereferenceCore(s: State, s1: State, loose: set<int>, extra: int, slot: Slot)
    requires Core(s, loose, extra) && slot in s.news && s.news[slot] !in loose
    requires 0 < s.info[s.news[slot]].refCount <= BUCKETS_PER_ADDRESS
    requires var id := s.news[slot];
             s1 == s.WithInfo(id, s.info[id].(refCount := s.info[id].refCount - 1)).(news := s.news - {slot})
    ensures Core(s1, loose + {s.news[slot]}, extra + 1)
    ensures s.info[s.news[slot]].refCount > 1 ==> Core(s1, loose, extra)
  {
    var id := s.news[slot];
    LoosenCore(s, loose, extra, id);
    UnslotCore(s, s1, loose + {id}, extra + 1, slot);
    if s.info[id].refCount > 1 { SettleCore(s1, loose, extra, id); }
  }

  lemma {:induction false} OccupantIsSettled(s: State, loose: set<int>, slot: Slot)
    requires NewOk(s) && AllRefsOk(s) && Standing(s, loose) && slot in s.news
    requires forall id | id in loose :: s.info[id].refCount == 0
    ensures s.news[slot] !in loose && !s.info[s.news[slot]].inTried
    ensures 0 < s.info[s.news[slot]].refCount <= BUCKETS_PER_ADDRESS
  {
    if s.news[slot] in loose { Unreferenced(s, s.news[slot]); }
  }

  /** Whom ClearNew can forget. */
  function Cleared(s: State, slot: Slot): set<int> {
    if slot in s.news && s.news[slot] in s.info && s.info[s.news[slot]].refCount == 1 then {s.news[slot]} else {}
  }

  lemma {:induction false} ClearNewKeeps(s: State, slot: Slot)
    requires RandomOk(s) && NewOk(s) && (slot in s.news ==> s.info[s.news[slot]].refCount > 0)
    ensures ClearNew(s, slot).Some?
    ensures var s' := ClearNew(s, slot).value;
            && Keeps(s, s', Cleared(s, slot)) && s'.news == s.news - {slot} && s'.tried == s.tried
            && (forall id | id in s'.info && !(slot in s.news && id == s.news[slot]) ::
                  s'.info[id].refCount == s.info[id].refCount && s'.info[id].inTried == s.info[id].inTried)
  {
    if slot in s.news {
      var id := s.news[slot];
      var s1 := s.WithInfo(id, s.info[id].(refCount := s.info[id].refCount - 1)).(news := s.news - {slot});
      RetabledOk(s, s1, id);
      if s1.info[id].refCount == 0 {
        DeleteKeeps(s1, id);
        KeepsTransitive(s, s1, Delete(s1, id).value, {}, {id});
        assert {} + {id} == Cleared(s, slot);
      }
    } else {
      assert s.news - {slot} == s.news;
    }
  }
}
