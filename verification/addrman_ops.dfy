/** Moving an entry from new to tried, evictions included: the manager stays consistent and no assert can fire. */
module AddrOps {
  import opened Wrappers
  import opened AddrModel
  import opened AddrInv

  // ----- moving an entry from new to tried -----

  lemma {:induction false} DropRefCore(s: State, loose: set<int>, extra: int, id: int, b: nat)
    requires Core(s, loose, extra) && id in loose
    ensures Core(DropRef(s, id, b), loose, extra)
  {
    var slot := s.NewSlot(s.info[id].service, b);
    if slot in s.news && s.news[slot] == id {
      UnslotCore(s, DropRef(s, id, b), loose, extra, slot);
    } else {
      assert DropRef(s, id, b) == s;
    }
  }

  lemma {:induction false} DropRefEffect(s: State, id: int, b: nat)
    requires id in s.info
    ensures var r := DropRef(s, id, b);
            && Keeps(s, r, {}) && r.tried == s.tried && r.nNew == s.nNew && r.nTried == s.nTried
            && !Holds(r, id, b) && (forall c: nat :: Holds(r, id, c) ==> Holds(s, id, c))
            && (forall x | x in s.info && x != id :: r.info[x] == s.info[x])
            && r.info[id].inTried == s.info[id].inTried
  {
  }

  lemma {:induction false} DropRefsCore(s: State, loose: set<int>, extra: int, id: int, b: nat)
    requires Core(s, loose, extra) && id in loose
    ensures Core(DropRefs(s, id, b), loose, extra)
    decreases NEW_BUCKETS - b
  {
    hide IdsOk, AddrOk, RandomOk, TriedOk, NewOk, AllRefsOk, Counted, DropRef;
    if b < NEW_BUCKETS {
      DropRefCore(s, loose, extra, id, b);
      DropRefsCore(DropRef(s, id, b), loose, extra, id, b + 1);
    }
  }

  /** The loop takes the entry out of every bucket from b on, and changes nothing else. */
  lemma {:induction false} DropRefsEffect(s: State, id: int, b: nat)
    requires id in s.info && forall c: nat | c < b :: !Holds(s, id, c)
    ensures var r := DropRefs(s, id, b);
            && Keeps(s, r, {}) && r.tried == s.tried && r.nNew == s.nNew && r.nTried == s.nTried
            && (forall c: nat | c < NEW_BUCKETS :: !Holds(r, id, c))
            && (forall x | x in s.info && x != id :: r.info[x] == s.info[x])
            && r.info[id].inTried == s.info[id].inTried
    decreases NEW_BUCKETS - b
  {
    if b < NEW_BUCKETS {
      DropRefEffect(s, id, b);
      var s1 := DropRef(s, id, b);
      DropRefsEffect(s1, id, b + 1);
      KeepsTransitive(s, s1, DropRefs(s1, id, b + 1), {}, {});
    }
  }

  lemma {:induction false} NoRefsLeft(s: State, id: int)
    requires id in s.info && RefsOk(s, id) && forall b: nat | b < NEW_BUCKETS :: !Holds(s, id, b)
    ensures s.info[id].refCount == 0
  {
    assert Buckets(s, id) == {};
  }

  /** The evicted entry enters the new table with one reference. */
  lemma {:induction false} EnterCore(s: State, s3: State, s': State, id: int, out: int, home: Slot)
    requires Core(s, {id, out}, 0) && id != out && s.info[out].refCount == 0
    requires home !in s.news && home.0 < NEW_BUCKETS && home == s.NewSlot(s.info[out].service, home.0)
    requires s3 == PutNew(s, out, home, s.info[out].refCount + 1) && s' == s3.(nNew := s3.nNew + 1)
    ensures Core(s', {id}, 0)
  {
    hide IdsOk, AddrOk, RandomOk, TriedOk, AllRefsOk, Counted;
    PutNewCore(s, {id, out}, 0, out, home);
    BumpNew(s3, {id, out}, 0);
    assert {id} + {out} == {id, out};
    SettleCore(s', {id}, 0, out);
  }

  /** Freeing the slot an evicted entry will go to. */
  lemma {:induction false} ClearForEvicted(s: State, id: int, out: int, home: Slot)
    requires Core(s, {id, out}, 0) && s.info[id].refCount == 0 && s.info[out].refCount == 0
    ensures ClearNew(s, home).Some?
    ensures var s2 := ClearNew(s, home).value;
            && Core(s2, {id, out}, 0) && home !in s2.news && s2.tried == s.tried && Keeps(s, s2, Cleared(s, home))
            && id in s2.info && s2.info[id].refCount == 0 && out in s2.info && s2.info[out].refCount == 0
            && id !in Cleared(s, home) && out !in Cleared(s, home)
  {
    hide IdsOk, AddrOk, RandomOk, TriedOk, AllRefsOk, Counted, ClearNew;
    assert forall x | x in {id, out} :: s.info[x].refCount == 0;
    ClearNewCore(s, {id, out}, 0, home);
    if home in s.news { OccupantIsSettled(s, {id, out}, home); }
    ClearNewKeeps(s, home);
    assert out in ClearNew(s, home).value.info.Keys && id in ClearNew(s, home).value.info.Keys;
  }

  /** What an eviction leaves: the entry in its own slot of new, and nobody gone but that slot's old occupant. */
  ghost predicate Rehomed(s: State, s': State, out: int)
    requires out in s.info
  {
    var home := Home(s, s.info[out]);
    && Keeps(s, s', Cleared(s, home)) && out !in Cleared(s, home)
    && out in s'.info && s'.info[out].refCount == 1 && !s'.info[out].inTried
    && home in s'.news && s'.news[home] == out
  }

  lemma {:induction false} RehomeCore(s: State, id: int, out: int)
    requires Core(s, {id, out}, 0) && id != out && s.info[id].refCount == 0 && s.info[out].refCount == 0
    ensures Rehome(s, out).Some?
    ensures var s' := Rehome(s, out).value;
            && Core(s', {id}, 0) && s'.tried == s.tried && Rehomed(s, s', out)
            && id in s'.info && s'.info[id].refCount == 0
  {
    hide IdsOk, AddrOk, RandomOk, TriedOk, AllRefsOk, Counted;
    var home := Home(s, s.info[out]);
    ClearForEvicted(s, id, out, home);
    var s2 := ClearNew(s, home).value;
    RehomeFrom(s, s2, id, out);
    EnterCore(s2, PutNew(s2, out, home, 1), Rehome(s, out).value, id, out, home);
  }

  lemma {:induction false} RehomeFrom(s: State, s2: State, id: int, out: int)
    requires out in s.info && ClearNew(s, Home(s, s.info[out])) == Some(s2) && id != out && !s.info[out].inTried
    requires var home := Home(s, s.info[out]);
             && home !in s2.news && Keeps(s, s2, Cleared(s, home)) && out !in Cleared(s, home)
             && out in s2.info && s2.info[out].refCount == 0 && !s2.info[out].inTried
             && id in s2.info && s2.info[id].refCount == 0
    ensures var s3 := PutNew(s2, out, Home(s, s.info[out]), 1);
            Rehome(s, out) == Some(s3.(nNew := s3.nNew + 1))
    ensures var s' := Rehome(s, out).value;
            s'.tried == s2.tried && Rehomed(s, s', out) && id in s'.info && s'.info[id].refCount == 0
  {
    hide SameEntry, ClearNew;
    var s' := Rehome(s, out).value;
    RetabledOk(s2, s', out);
    KeepsTransitive(s, s2, s', Cleared(s, Home(s, s.info[out])), {});
    assert Cleared(s, Home(s, s.info[out])) + {} == Cleared(s, Home(s, s.info[out]));
  }

  /** The occupant of the wanted tried slot goes back to the new table, where it always finds a place. */
  lemma {:induction false} EvictCore(s: State, id: int, slot: Slot)
    requires Core(s, {id}, 0) && s.info[id].refCount == 0 && slot in s.tried
    ensures Evict(s, slot).Some?
    ensures var s' := Evict(s, slot).value;
            && Core(s', {id}, 0) && s'.tried == s.tried - {slot} && Rehomed(s, s', s.tried[slot])
            && id in s'.info && s'.info[id].refCount == 0
  {
    hide IdsOk, AddrOk, RandomOk, TriedOk, AllRefsOk, Counted;
    var out := s.tried[slot];
    TriedOccupant(s, slot);
    var s1 := TakeOut(s, slot);
    assert Evict(s, slot) == Rehome(s1, out);
    UntryCore(s, s1, {id}, 0, slot);
    assert {id} + {out} == {id, out};
    RehomeCore(s1, id, out);
    RehomedFrom(s, s1, Rehome(s1, out).value, out);
  }

  lemma {:induction false} TriedOccupant(s: State, slot: Slot)
    requires TriedOk(s) && slot in s.tried
    ensures s.tried[slot] in s.info && s.info[s.tried[slot]].inTried
  {
  }

  lemma {:induction false} RehomedFrom(s: State, s1: State, s': State, out: int)
    requires out in s.info && Keeps(s, s1, {}) && out in s1.info && Rehomed(s1, s', out) && s1.news == s.news
    requires forall x | x in s.info && x != out :: s1.info[x] == s.info[x]
    requires s1.info[out].refCount == s.info[out].refCount
    ensures Rehomed(s, s', out)
  {
    var home := Home(s, s.info[out]);
    assert Home(s1, s1.info[out]) == home && s1.info.Keys == s.info.Keys;
    assert Cleared(s1, home) == Cleared(s, home);
    KeepsTransitive(s, s1, s', {}, Cleared(s, home));
    assert {} + Cleared(s, home) == Cleared(s, home);
  }

  lemma {:induction false} BumpNew(s: State, loose: set<int>, extra: int)
    requires Core(s, loose, extra)
    ensures Core(s.(nNew := s.nNew + 1), loose, extra + 1)
    ensures Core(s.(nNew := s.nNew - 1), loose, extra - 1)
  {
    SameTables(s, s.(nNew := s.nNew + 1), loose, extra);
    SameTables(s, s.(nNew := s.nNew - 1), loose, extra);
  }

  lemma {:induction false} SameTables(s: State, s': State, loose: set<int>, extra: int)
    requires Core(s, loose, extra) && s' == s.(nNew := s'.nNew)
    ensures Core(s', loose, extra + s'.nNew - s.nNew)
  {
    forall x ensures x in TriedIds(s') <==> x in TriedIds(s) {}
    forall x ensures x in NewIds(s') <==> x in NewIds(s) {}
    assert TriedIds(s') == TriedIds(s) && NewIds(s') == NewIds(s);
    forall x | x in s'.info ensures RefsOk(s', x) { RefsSame(s, s', x); }
  }

  /** The entry is in tried at its own slot; an entry evicted for it is in new; at most one other new entry is gone. */
  ghost predicate MadeTried(s: State, s': State, id: int, lost: set<int>)
    requires id in s.info
  {
    var slot := s.TriedSlot(s.info[id].service);
    && Keeps(s, s', lost) && id in s'.info && s'.info[id].inTried
    && s'.tried == s.tried[slot := id]
    && (slot !in s.tried ==> lost == {})
    && (slot in s.tried ==>
          var out := s.tried[slot];
          out in s'.info && !s'.info[out].inTried && s'.info[out].refCount == 1)
    && |lost| <= 1 && (forall x | x in lost :: x in s.info && !s.info[x].inTried && x != id)
  }

  /** The part of MakeTried after the references are gone. */
  lemma {:induction false} EnterTriedCore(s: State, id: int)
    requires Core(s, {id}, 0) && s.info[id].refCount == 0
    ensures EnterTried(s, id).Some?
    ensures Inv(EnterTried(s, id).value)
  {
    hide IdsOk, AddrOk, RandomOk, TriedOk, NewOk, AllRefsOk, Counted, Evict;
    var slot := s.TriedSlot(s.info[id].service);
    if slot in s.tried {
      EvictCore(s, id, slot);
      var s2 := Evict(s, slot).value;
      assert EnterTried(s, id) == Some(PutTried(s2, id, slot));
      TryCore(s2, {id}, 0, id);
      assert {id} - {id} == {};
    } else {
      assert EnterTried(s, id) == Some(PutTried(s, id, slot));
      TryCore(s, {id}, 0, id);
      assert {id} - {id} == {};
    }
  }

  lemma {:induction false} EnterTriedEffect(s: State, id: int) returns (lost: set<int>)
    requires Core(s, {id}, 0) && s.info[id].refCount == 0
    ensures EnterTried(s, id).Some?
    ensures MadeTried(s, EnterTried(s, id).value, id, lost)
  {
    hide IdsOk, AddrOk, RandomOk, TriedOk, NewOk, AllRefsOk, Counted, Evict;
    var slot := s.TriedSlot(s.info[id].service);
    if slot in s.tried {
      var out := s.tried[slot];
      EvictCore(s, id, slot);
      TriedOccupant(s, slot);
      var s2 := Evict(s, slot).value;
      var s' := PutTried(s2, id, slot);
      assert EnterTried(s, id) == Some(s');
      lost := Cleared(s, Home(s, s.info[out]));
      KeepsTransitive(s, s2, s', lost, {}) by { RetabledOk(s2, s', id); }
      assert lost + {} == lost;
      ClearedIsNew(s, id, Home(s, s.info[out]));
    } else {
      lost := {};
      var s' := PutTried(s, id, slot);
      assert EnterTried(s, id) == Some(s');
      RetabledOk(s, s', id);
    }
  }

  lemma {:induction false} ClearedIsNew(s: State, id: int, slot: Slot)
    requires NewOk(s) && id in s.info && s.info[id].refCount == 0
    ensures |Cleared(s, slot)| <= 1
    ensures forall x | x in Cleared(s, slot) :: x in s.info && !s.info[x].inTried && x != id
  {
  }

  /** MakeTried: no assert fires and the manager stays consistent. */
  lemma {:induction false} MakeTriedInv(s: State, id: int)
    requires Inv(s) && id in s.info && !s.info[id].inTried
    ensures MakeTried(s, id).Some?
    ensures Inv(MakeTried(s, id).value)
  {
    hide IdsOk, AddrOk, RandomOk, TriedOk, NewOk, AllRefsOk, Standing, Counted, EnterTried, DropRefs;
    var s1 := Detached(s, id);
    DetachCore(s, id);
    assert MakeTried(s, id) == EnterTried(s1, id);
    EnterTriedCore(s1, id);
  }

  lemma {:induction false} MakeTriedEffect(s: State, id: int) returns (lost: set<int>)
    requires Inv(s) && id in s.info && !s.info[id].inTried
    ensures MakeTried(s, id).Some?
    ensures MadeTried(s, MakeTried(s, id).value, id, lost)
  {
    hide IdsOk, AddrOk, RandomOk, TriedOk, NewOk, AllRefsOk, Standing, Counted, EnterTried, DropRefs, MadeTried, Holds;
    var s1 := Detached(s, id);
    DetachCore(s, id);
    DropRefsEffect(s, id, 0);
    assert MakeTried(s, id) == EnterTried(s1, id);
    lost := EnterTriedEffect(s1, id);
    DetachedMade(s, s1, EnterTried(s1, id).value, id, lost);
  }

  lemma {:induction false} DetachedMade(s: State, s1: State, s': State, id: int, lost: set<int>)
    requires id in s.info && id in s1.info && Keeps(s, s1, {}) && s1.tried == s.tried && MadeTried(s1, s', id, lost)
    requires forall x | x in s.info && x != id :: s1.info[x] == s.info[x]
    ensures MadeTried(s, s', id, lost)
  {
    hide SameEntry;
    assert s1.info[id].service == s.info[id].service by { SameService(s.info[id], s1.info[id]); }
    KeepsTransitive(s, s1, s', {}, lost);
    assert {} + lost == lost;
    assert s1.info.Keys == s.info.Keys;
    forall x | x in lost ensures x in s.info && !s.info[x].inTried && x != id {
      assert x in s1.info.Keys && s1.info[x] == s.info[x];
    }
  }

  lemma {:induction false} SameService(i: Info, i': Info)
    requires SameEntry(i, i')
    ensures i'.service == i.service
  {
  }

  /** The state in which an entry has left the new table for good. */
  function Detached(s: State, id: int): (r: State)
    requires id in s.info
    ensures id in r.info
  {
    var s0 := DropRefs(s, id, 0);
    s0.(nNew := s0.nNew - 1)
  }

  lemma {:induction false} DetachCore(s: State, id: int)
    requires Inv(s) && id in s.info && !s.info[id].inTried
    ensures var s1 := Detached(s, id);
            Core(s1, {id}, 0) && s1.info[id].refCount == 0 && SameEntry(s.info[id], s1.info[id])
  {
    hide IdsOk, AddrOk, RandomOk, TriedOk, AllRefsOk, Counted;
    LoosenCore(s, {}, 0, id);
    assert {} + {id} == {id};
    DropRefsCore(s, {id}, 1, id, 0);
    var s0 := DropRefs(s, id, 0);
    DropRefsEffect(s, id, 0);
    OneRefsOk(s0, id);
    NoRefsLeft(s0, id);
    BumpNew(s0, {id}, 1);
  }

  lemma {:induction false} OneRefsOk(s: State, id: int)
    requires AllRefsOk(s) && id in s.info
    ensures RefsOk(s, id)
  {
  }
}
