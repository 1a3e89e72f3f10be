/** The public operations of the address manager and all their histories. */
module AddrRuns {
  import opened Wrappers
  import opened AddrModel
  import opened AddrInv
  import opened AddrOps

  // ----- Good -----

  /** An entry with a reference is found from any starting bucket. */
  lemma {:induction false} SearchFinds(s: State, id: int, start: nat, n: nat, k: nat)
    requires id in s.info && n <= k < NEW_BUCKETS && Holds(s, id, (k + start) % NEW_BUCKETS)
    ensures FindBucket(s, id, start, n).Some? && FindBucket(s, id, start, n).value < NEW_BUCKETS && Holds(s, id, FindBucket(s, id, start, n).value)
    decreases NEW_BUCKETS - n
  {
    if !Holds(s, id, (n + start) % NEW_BUCKETS) { SearchFinds(s, id, start, n + 1, k); }
  }

  /** Good_ never takes the "no bucket found" exit: it finds a bucket that holds the entry. */
  lemma {:induction false} BucketAlwaysFound(s: State, id: int, start: nat)
    requires id in s.info && RefsOk(s, id) && s.info[id].refCount > 0
    ensures FindBucket(s, id, start, 0).Some? && FindBucket(s, id, start, 0).value < NEW_BUCKETS && Holds(s, id, FindBucket(s, id, start, 0).value)
  {
    assert Buckets(s, id) != {};
    var b :| b in Buckets(s, id);
    var k := (b - start) % NEW_BUCKETS;
    assert (k + start) % NEW_BUCKETS == b;
    SearchFinds(s, id, start, 0, k);
  }

  /** Changing statistics that no table depends on. */
  lemma {:induction false} TouchInv(s: State, s': State, id: int)
    requires Inv(s) && id in s.info && id in s'.info
    requires s' == s.(info := s'.info, lastGood := s'.lastGood) && s'.info == s.info[id := s'.info[id]]
    requires var i, i' := s.info[id], s'.info[id];
             i'.service == i.service && i'.refCount == i.refCount && i'.inTried == i.inTried && i'.randomPos == i.randomPos
    ensures Inv(s')
  {
    hide AddrOk, TriedOk, NewOk, AllRefsOk, Counted;
    assert s'.info.Keys == s.info.Keys;
    assert RandomOk(s') by { TouchRandom(s, s', id); }
    SamePlacesCore(s, s', {}, 0);
  }

  lemma {:induction false} TouchRandom(s: State, s': State, id: int)
    requires RandomOk(s) && id in s.info && s'.random == s.random && id in s'.info && s'.info == s.info[id := s'.info[id]]
    requires s'.info[id].randomPos == s.info[id].randomPos
    ensures RandomOk(s')
  {
  }

  lemma {:induction false} FoundIsKnown(s: State, ip: nat)
    requires AddrOk(s)
    ensures Find(s, ip).Some? ==> Find(s, ip).value in s.info && s.info[Find(s, ip).value].service.ip == ip
    ensures Find(s, ip).None? <==> ip !in s.addr
  {
  }

  /** The state in which Good_ looks for a bucket. */
  function Credited(s: State, id: int, time: int): State
    requires id in s.info
  {
    s.(lastGood := time).WithInfo(id, s.info[id].(lastSuccess := time, lastTry := time, attempts := 0))
  }

  /** Good_ in closed form: a known service outside tried is always moved to tried. */
  lemma {:induction false} GoodIs(s: State, svc: Service, time: int, start: nat)
    requires Inv(s)
    ensures var found := Find(s, svc.ip);
            Good(s, svc, time, start) ==
              if found.None? || s.info[found.value].service != svc then Some(s.(lastGood := time))
              else if s.info[found.value].inTried then Some(Credited(s, found.value, time))
              else MakeTried(Credited(s, found.value, time), found.value)
  {
    hide IdsOk, AddrOk, RandomOk, TriedOk, NewOk, AllRefsOk, Counted, FindBucket, MakeTried;
    var found := Find(s, svc.ip);
    if found.Some? && s.info[found.value].service == svc && !s.info[found.value].inTried {
      var id := found.value;
      var s1 := Credited(s, id, time);
      CreditedInv(s, id, time);
      OneRefsOk(s1, id);
      assert Settled(s.info[id]);
      BucketAlwaysFound(s1, id, start);
    }
  }

  lemma {:induction false} CreditedInv(s: State, id: int, time: int)
    requires Inv(s) && id in s.info
    ensures Inv(Credited(s, id, time))
  {
    TouchInv(s, Credited(s, id, time), id);
  }

  lemma {:induction false} LastGoodInv(s: State, time: int)
    requires Inv(s)
    ensures Inv(s.(lastGood := time))
  {
    SamePlacesCore(s, s.(lastGood := time), {}, 0);
  }

  lemma {:induction false} GoodInv(s: State, svc: Service, time: int, start: nat)
    requires Inv(s)
    ensures Good(s, svc, time, start).Some?
    ensures Inv(Good(s, svc, time, start).value)
  {
    hide Core;
    GoodIs(s, svc, time, start);
    var found := Find(s, svc.ip);
    if found.None? || s.info[found.value].service != svc {
      LastGoodInv(s, time);
    } else {
      CreditedInv(s, found.value, time);
      if !s.info[found.value].inTried { MakeTriedInv(Credited(s, found.value, time), found.value); }
    }
  }

  /** Marking a known new service good puts it in tried; an entry evicted for it is kept in new. */
  lemma {:induction false} GoodEffect(s: State, svc: Service, time: int, start: nat) returns (lost: set<int>)
    requires Inv(s)
    requires var found := Find(s, svc.ip); found.Some? && s.info[found.value].service == svc && !s.info[found.value].inTried
    ensures Good(s, svc, time, start).Some?
    ensures MadeTried(Credited(s, Find(s, svc.ip).value, time), Good(s, svc, time, start).value, Find(s, svc.ip).value, lost)
  {
    hide Core;
    GoodIs(s, svc, time, start);
    CreditedInv(s, Find(s, svc.ip).value, time);
    lost := MakeTriedEffect(Credited(s, Find(s, svc.ip).value, time), Find(s, svc.ip).value);
  }

  // ----- Add -----

  lemma {:induction false} PutSettles(s: State, id: int, slot: Slot)
    requires Core(s, {id}, 1) && s.info[id].refCount < BUCKETS_PER_ADDRESS
    requires slot !in s.news && slot.0 < NEW_BUCKETS && slot == s.NewSlot(s.info[id].service, slot.0)
    ensures Inv(PutNew(s, id, slot, s.info[id].refCount + 1))
  {
    hide IdsOk, AddrOk, RandomOk, TriedOk, NewOk, AllRefsOk, Standing, Counted;
    PutNewCore(s, {id}, 1, id, slot);
    assert {} + {id} == {id};
    SettleCore(PutNew(s, id, slot, s.info[id].refCount + 1), {}, 0, id);
  }

  /** An occupied slot can always be judged. */
  lemma {:induction false} MayTakeDecides(s: State, id: int, slot: Slot, now: int)
    requires NewOk(s) && id in s.info
    ensures MayTake(s, id, slot, now).Some?
  {
  }

  /** One more reference for an entry that already has some. */
  lemma {:induction false} TakeSlotKnown(s: State, id: int, slot: Slot)
    requires Inv(s) && id in s.info && !s.info[id].inTried && s.info[id].refCount < BUCKETS_PER_ADDRESS
    requires slot.0 < NEW_BUCKETS && slot == s.NewSlot(s.info[id].service, slot.0) && !(slot in s.news && s.news[slot] == id)
    ensures TakeSlot(s, id, slot).Some?
    ensures Inv(TakeSlot(s, id, slot).value)
  {
    hide IdsOk, AddrOk, RandomOk, TriedOk, NewOk, Standing, AllRefsOk, Counted, ClearNew;
    if slot in s.news { OccupantIsSettled(s, {}, slot); }
    ClearNewCore(s, {}, 0, slot);
    ClearNewKeeps(s, slot);
    var s1 := ClearNew(s, slot).value;
    assert id in s1.info.Keys;
    assert TakeSlot(s, id, slot) == Some(PutNew(s1, id, slot, s1.info[id].refCount + 1));
    LoosenCore(s1, {}, 0, id);
    assert {} + {id} == {id};
    PutSettles(s1, id, slot);
  }

  lemma {:induction false} PlaceKnown(s: State, id: int, source: nat, now: int)
    requires Inv(s) && id in s.info && !s.info[id].inTried && s.info[id].refCount < BUCKETS_PER_ADDRESS
    ensures Place(s, id, source, now).Some?
    ensures Inv(Place(s, id, source, now).value)
  {
    hide IdsOk, AddrOk, RandomOk, TriedOk, NewOk, AllRefsOk, Counted, TakeSlot, MayTake, Delete;
    var i := s.info[id];
    var slot := s.NewSlot(i.service, s.NewBucket(i.service, source));
    MayTakeDecides(s, id, slot, now);
    if !(slot in s.news && s.news[slot] == id) { TakeSlotKnown(s, id, slot); }
    assert Settled(i);
  }

  /** The first reference of an entry just created, or its removal. */
  lemma {:induction false} PlaceCreated(s: State, id: int, source: nat, now: int)
    requires Core(s, {id}, 1) && s.info[id].refCount == 0
    ensures Place(s, id, source, now).Some?
    ensures Inv(Place(s, id, source, now).value)
  {
    hide IdsOk, AddrOk, RandomOk, TriedOk, NewOk, AllRefsOk, Counted, TakeSlot, MayTake, Delete;
    var i := s.info[id];
    var slot := s.NewSlot(i.service, s.NewBucket(i.service, source));
    MayTakeDecides(s, id, slot, now);
    TakeSlotCreated(s, id, slot);
    DeleteCore(s, {id}, 1, id);
    assert {id} - {id} == {};
  }

  lemma {:induction false} TakeSlotCreated(s: State, id: int, slot: Slot)
    requires Core(s, {id}, 1) && s.info[id].refCount == 0
    requires slot.0 < NEW_BUCKETS && slot == s.NewSlot(s.info[id].service, slot.0)
    ensures !(slot in s.news && s.news[slot] == id)
    ensures TakeSlot(s, id, slot).Some?
    ensures Inv(TakeSlot(s, id, slot).value)
  {
    hide IdsOk, AddrOk, RandomOk, TriedOk, NewOk, AllRefsOk, Counted, ClearNew;
    OneRefsOk(s, id);
    Unreferenced(s, id);
    if slot in s.news { OccupantIsSettled(s, {id}, slot); }
    ClearNewCore(s, {id}, 1, slot);
    ClearNewKeeps(s, slot);
    var s1 := ClearNew(s, slot).value;
    assert id in s1.info.Keys;
    assert TakeSlot(s, id, slot) == Some(PutNew(s1, id, slot, s1.info[id].refCount + 1));
    PutSettles(s1, id, slot);
  }

  /** The state after Create and the first increment of nNew. */
  function Created(s: State, a: Address, source: nat, penalty: int): (r: State)
    ensures s.idCount in r.info
  {
    var s0 := Create(s, a, source);
    var i := s0.info[s.idCount];
    s0.WithInfo(s.idCount, i.(time := if i.time - penalty > 0 then i.time - penalty else 0)).(nNew := s0.nNew + 1)
  }

  lemma {:induction false} CreatedCore(s: State, a: Address, source: nat, penalty: int)
    requires Inv(s) && a.service.ip !in s.addr
    ensures Core(Created(s, a, source, penalty), {s.idCount}, 1)
    ensures Created(s, a, source, penalty).info[s.idCount].refCount == 0
  {
    hide AddrOk, RandomOk, TriedOk, NewOk, AllRefsOk, Standing, Counted;
    var r, id := Created(s, a, source, penalty), s.idCount;
    assert id !in s.info;
    assert r.info == s.info[id := r.info[id]] && r.random == s.random + [id];
    CreatedRegistry(s, r, a, id);
    CreatedCounts(s, r, id);
    CreatedTables(s, r, id);
    CreatedRefs(s, r, id);
  }

  ghost predicate Grown(s: State, r: State, id: int) {
    && r.hash == s.hash && r.key == s.key && r.news == s.news && r.tried == s.tried
    && id !in s.info && id in r.info && r.info == s.info[id := r.info[id]]
    && !r.info[id].inTried && r.info[id].refCount == 0
  }

  lemma {:induction false} CreatedRegistry(s: State, r: State, a: Address, id: int)
    requires IdsOk(s) && AddrOk(s) && RandomOk(s) && Grown(s, r, id) && id == s.idCount && r.idCount == s.idCount + 1
    requires a.service.ip !in s.addr && r.addr == s.addr[a.service.ip := id] && r.info[id].service == a.service
    requires r.random == s.random + [id] && r.info[id].randomPos == |s.random|
    ensures IdsOk(r) && AddrOk(r) && RandomOk(r)
  {
    assert IdsOk(r);
    assert AddrOk(r) by { forall x | x in s.info ensures s.info[x].service.ip != a.service.ip {} }
    assert RandomOk(r);
  }

  lemma {:induction false} CreatedCounts(s: State, r: State, id: int)
    requires Grown(s, r, id) && Counted(s, {}, 0) && r.nTried == s.nTried && r.nNew == s.nNew + 1
    ensures Counted(r, {id}, 1)
  {
    forall x ensures x in TriedIds(r) <==> x in TriedIds(s) {}
    forall x ensures x in NewIds(r) - {id} <==> x in NewIds(s) - {} {}
    assert TriedIds(r) == TriedIds(s) && NewIds(r) - {id} == NewIds(s) - {};
  }

  lemma {:induction false} CreatedTables(s: State, r: State, id: int)
    requires Grown(s, r, id) && TriedOk(s) && NewOk(s) && Standing(s, {})
    ensures TriedOk(r) && NewOk(r) && Standing(r, {id})
  {
  }

  lemma {:induction false} CreatedRefs(s: State, r: State, id: int)
    requires Grown(s, r, id) && NewOk(s) && AllRefsOk(s)
    ensures AllRefsOk(r)
  {
    forall x | x in r.info ensures RefsOk(r, x) {
      if x == id {
        assert forall b: nat :: !Holds(r, id, b);
        assert Buckets(r, id) == {};
      } else {
        RefsSame(s, r, x);
      }
    }
  }

  lemma {:induction false} AddInv(s: State, a: Address, source: nat, timePenalty: int, routable: bool, now: int, lucky: bool)
    requires Inv(s)
    ensures Add(s, a, source, timePenalty, routable, now, lucky).Some?
    ensures Inv(Add(s, a, source, timePenalty, routable, now, lucky).value.0)
    ensures Add(s, a, source, timePenalty, routable, now, lucky).value.1 <==> routable && a.service.ip !in s.addr
  {
    hide Core;
    if routable {
      InvAddr(s);
      FoundIsKnown(s, a.service.ip);
      if Find(s, a.service.ip).Some? {
        AddKnown(s, a, source, timePenalty, now, lucky, Find(s, a.service.ip).value);
      } else {
        AddUnknown(s, a, source, timePenalty, now, lucky);
      }
    }
  }

  lemma {:induction false} InvAddr(s: State)
    requires Inv(s)
    ensures AddrOk(s)
  {
  }

  lemma {:induction false} AddUnknown(s: State, a: Address, source: nat, timePenalty: int, now: int, lucky: bool)
    requires Inv(s) && a.service.ip !in s.addr
    ensures Add(s, a, source, timePenalty, true, now, lucky).Some?
    ensures Inv(Add(s, a, source, timePenalty, true, now, lucky).value.0)
    ensures Add(s, a, source, timePenalty, true, now, lucky).value.1
  {
    hide IdsOk, AddrOk, RandomOk, TriedOk, NewOk, AllRefsOk, Standing, Counted;
    var s1 := Created(s, a, source, if a.service.ip == source then 0 else timePenalty);
    CreatedCore(s, a, source, if a.service.ip == source then 0 else timePenalty);
    PlaceCreated(s1, s.idCount, source, now);
    assert Add(s, a, source, timePenalty, true, now, lucky) == Some((Place(s1, s.idCount, source, now).value, true));
  }

  lemma {:induction false} RefreshedInv(s: State, s1: State, id: int)
    requires Inv(s) && id in s.info && id in s1.info && s1 == s.WithInfo(id, s1.info[id])
    requires s1.info[id] == s.info[id].(time := s1.info[id].time, services := s1.info[id].services)
    ensures Inv(s1) && (s1.info[id].inTried || s1.info[id].refCount > 0)
  {
    assert IdsOk(s) && Settled(s.info[id]);
    TouchInv(s, s1, id);
  }

  lemma {:induction false} AddKnown(s: State, a: Address, source: nat, timePenalty: int, now: int, lucky: bool, id: int)
    requires Inv(s) && Find(s, a.service.ip) == Some(id)
    ensures Add(s, a, source, timePenalty, true, now, lucky).Some?
    ensures Inv(Add(s, a, source, timePenalty, true, now, lucky).value.0)
    ensures !Add(s, a, source, timePenalty, true, now, lucky).value.1
  {
    hide IdsOk, AddrOk, RandomOk, TriedOk, NewOk, AllRefsOk, Counted, Place;
    var penalty := if a.service.ip == source then 0 else timePenalty;
    var i := Refresh(s.info[id], a, penalty, now);
    var s1 := s.WithInfo(id, i);
    RefreshedInv(s, s1, id);
    if !i.inTried && i.refCount != BUCKETS_PER_ADDRESS {
      assert Settled(s1.info[id]);
      PlaceKnown(s1, id, source, now);
    }
  }

  /** What placing an entry costs: at most one other entry, a terrible one, loses its last reference and is forgotten. */
  ghost predicate Placed(s: State, s': State, id: int, lost: set<int>, now: int) {
    && Keeps(s, s', lost) && s'.tried == s.tried && |lost| <= 1
    && (forall x | x in lost :: x in s.info && !s.info[x].inTried)
    && (id in lost ==> s.info[id].refCount == 0)
    && (forall x | x in lost && x != id :: IsTerrible(s.info[x], now) && s.info[x].refCount == 1 && id in s'.info)
  }

  lemma {:induction false} TakeSlotEffect(s: State, id: int, slot: Slot, now: int) returns (lost: set<int>)
    requires RandomOk(s) && NewOk(s) && (slot in s.news ==> s.info[s.news[slot]].refCount > 0)
    requires id in s.info && !(slot in s.news && s.news[slot] == id) && MayTake(s, id, slot, now) == Some(true)
    ensures TakeSlot(s, id, slot).Some? && Placed(s, TakeSlot(s, id, slot).value, id, lost, now)
  {
    hide RandomOk, ClearNew;
    lost := Cleared(s, slot);
    ClearNewKeeps(s, slot);
    var s1 := ClearNew(s, slot).value;
    assert id in s1.info.Keys;
    var s' := PutNew(s1, id, slot, s1.info[id].refCount + 1);
    assert TakeSlot(s, id, slot) == Some(s');
    RetabledOk(s1, s', id);
    KeepsTransitive(s, s1, s', lost, {});
    assert lost + {} == lost;
  }

  ghost predicate Referenced(s: State) {
    forall slot | slot in s.news :: s.news[slot] in s.info && s.info[s.news[slot]].refCount > 0
  }

  lemma {:induction false} PlaceEffect(s: State, id: int, source: nat, now: int) returns (lost: set<int>)
    requires RandomOk(s) && NewOk(s) && Referenced(s)
    requires id in s.info && !s.info[id].inTried
    ensures Place(s, id, source, now).Some? && Placed(s, Place(s, id, source, now).value, id, lost, now)
  {
    hide RandomOk, TakeSlot, Delete;
    var i := s.info[id];
    var slot := s.NewSlot(i.service, s.NewBucket(i.service, source));
    MayTakeDecides(s, id, slot, now);
    var s' := s;
    lost := {};
    if slot in s.news && s.news[slot] == id {
    } else if MayTake(s, id, slot, now).value {
      lost := TakeSlotEffect(s, id, slot, now);
      s' := TakeSlot(s, id, slot).value;
    } else if i.refCount == 0 {
      DeleteKeeps(s, id);
      lost := {id};
      s' := Delete(s, id).value;
    }
    assert Place(s, id, source, now) == Some(s');
  }

  lemma {:induction false} NewOccupant(s: State, slot: Slot)
    requires NewOk(s) && slot in s.news
    ensures s.news[slot] in s.info
  {
  }

  lemma {:induction false} ReferencedCounts(s: State, loose: set<int>, extra: int)
    requires Core(s, loose, extra) && forall id | id in loose :: s.info[id].refCount == 0
    ensures RandomOk(s) && NewOk(s) && Referenced(s)
  {
    hide IdsOk, AddrOk, RandomOk, TriedOk, NewOk, AllRefsOk, Counted;
    forall slot | slot in s.news ensures s.news[slot] in s.info && s.info[s.news[slot]].refCount > 0 {
      NewOccupant(s, slot);
      OccupantIsSettled(s, loose, slot);
    }
  }

  /** What Add may do to the entries of s, other than the one it is about. */
  ghost predicate Costs(s: State, s': State, ip: nat, lost: set<int>, now: int) {
    && s'.tried == s.tried && |lost| <= 1
    && (forall x | x in lost :: x in s.info && IsTerrible(s.info[x], now) && s.info[x].refCount == 1)
    && (forall x | x in s.info && x !in lost :: x in s'.info)
    && (forall x | x in s.info && x in s'.info && s.info[x].service.ip != ip :: SameEntry(s.info[x], s'.info[x]))
  }

  /** Placing an entry that was just created or refreshed. */
  lemma {:induction false} PlaceCosts(s: State, s1: State, loose: set<int>, extra: int, id: int, source: nat, now: int) returns (lost: set<int>)
    requires Core(s1, loose, extra) && id in s1.info && !s1.info[id].inTried && s1.tried == s.tried
    requires forall x | x in s.info && x != id :: x in s1.info && s1.info[x] == s.info[x]
    requires id in s.info ==> s1.info[id].refCount > 0 && s1.info[id].service == s.info[id].service
    requires forall x | x in s1.info :: x in s.info || x == id
    requires forall x | x in loose :: x in s1.info && s1.info[x].refCount == 0
    ensures Place(s1, id, source, now).Some?
    ensures Costs(s, Place(s1, id, source, now).value, s1.info[id].service.ip, lost, now)
  {
    hide Core, RandomOk, NewOk, Place, IsTerrible;
    ReferencedCounts(s1, loose, extra);
    var all := PlaceEffect(s1, id, source, now);
    lost := all - {id};
    var s' := Place(s1, id, source, now).value;
    SmallerCard(all, id);
    forall x | x in s.info && x !in lost ensures x in s'.info {
      assert x in s1.info.Keys && x !in all;
    }
  }

  lemma {:induction false} SmallerCard(all: set<int>, id: int)
    ensures |all - {id}| <= |all|
  {
    if id !in all { assert all - {id} == all; }
  }

  /**
   * Hearing of an address never touches the tried table, and never costs a good entry: besides the
   * address itself at most one entry is forgotten, and it was terrible and had one reference left.
   */
  lemma {:induction false} AddEffect(s: State, a: Address, source: nat, timePenalty: int, now: int, lucky: bool) returns (lost: set<int>)
    requires Inv(s)
    ensures Add(s, a, source, timePenalty, true, now, lucky).Some?
    ensures Costs(s, Add(s, a, source, timePenalty, true, now, lucky).value.0, a.service.ip, lost, now)
  {
    hide Core, AddrOk, Add, Costs;
    InvAddr(s);
    FoundIsKnown(s, a.service.ip);
    if Find(s, a.service.ip).Some? {
      lost := AddKnownCosts(s, a, source, timePenalty, now, lucky, Find(s, a.service.ip).value);
    } else {
      lost := AddUnknownCosts(s, a, source, timePenalty, now, lucky);
    }
  }

  lemma {:induction false} AddKnownCosts(s: State, a: Address, source: nat, timePenalty: int, now: int, lucky: bool, id: int) returns (lost: set<int>)
    requires Inv(s) && Find(s, a.service.ip) == Some(id) && s.info[id].service.ip == a.service.ip
    ensures Add(s, a, source, timePenalty, true, now, lucky).Some?
    ensures Costs(s, Add(s, a, source, timePenalty, true, now, lucky).value.0, a.service.ip, lost, now)
  {
    hide Core, Place, IsTerrible;
    AddKnown(s, a, source, timePenalty, now, lucky, id);
    var s1 := s.WithInfo(id, Refresh(s.info[id], a, if a.service.ip == source then 0 else timePenalty, now));
    lost := {};
    if Add(s, a, source, timePenalty, true, now, lucky).value.0 != s1 {
      RefreshedInv(s, s1, id);
      lost := PlaceCosts(s, s1, {}, 0, id, source, now);
    }
  }

  lemma {:induction false} AddUnknownCosts(s: State, a: Address, source: nat, timePenalty: int, now: int, lucky: bool) returns (lost: set<int>)
    requires Inv(s) && a.service.ip !in s.addr
    ensures Add(s, a, source, timePenalty, true, now, lucky).Some?
    ensures Costs(s, Add(s, a, source, timePenalty, true, now, lucky).value.0, a.service.ip, lost, now)
  {
    hide Core, Place, Costs;
    var penalty := if a.service.ip == source then 0 else timePenalty;
    AddUnknown(s, a, source, timePenalty, now, lucky);
    CreatedCore(s, a, source, penalty);
    CreatedKeeps(s, a, source, penalty);
    lost := PlaceCosts(s, Created(s, a, source, penalty), {s.idCount}, 1, s.idCount, source, now);
  }

  lemma {:induction false} CreatedKeeps(s: State, a: Address, source: nat, penalty: int)
    requires Inv(s)
    ensures var s1 := Created(s, a, source, penalty);
            && s.idCount !in s.info && s1.tried == s.tried && s1.info == s.info[s.idCount := s1.info[s.idCount]]
            && s1.info[s.idCount].service == a.service && !s1.info[s.idCount].inTried
  {
  }

  // ----- the remaining operations -----

  lemma {:induction false} AttemptInv(s: State, svc: Service, countFailure: bool, time: int)
    requires Inv(s)
    ensures Inv(Attempt(s, svc, countFailure, time))
  {
    FoundIsKnown(s, svc.ip);
    var found := Find(s, svc.ip);
    if found.Some? && s.info[found.value].service == svc {
      assert IdsOk(s);
      TouchInv(s, Attempt(s, svc, countFailure, time), found.value);
    }
  }

  lemma {:induction false} ConnectedInv(s: State, svc: Service, time: int)
    requires Inv(s)
    ensures Inv(Connected(s, svc, time))
  {
    FoundIsKnown(s, svc.ip);
    var found := Find(s, svc.ip);
    if found.Some? && s.info[found.value].service == svc {
      assert IdsOk(s);
      var s' := Connected(s, svc, time);
      if s' != s { TouchInv(s, s', found.value); }
    }
  }

  lemma {:induction false} SetServicesInv(s: State, svc: Service, services: bv64)
    requires Inv(s)
    ensures Inv(SetServices(s, svc, services))
  {
    FoundIsKnown(s, svc.ip);
    var found := Find(s, svc.ip);
    if found.Some? && s.info[found.value].service == svc {
      assert IdsOk(s);
      TouchInv(s, SetServices(s, svc, services), found.value);
    }
  }

  lemma {:induction false} GetAddrStep(s: State, n: nat, want: nat, draws: seq<nat>, now: int, got: seq<Info>, s1: State)
    requires n < |s.random| && |got| < want && draws != [] && SwapRandom(s, n, Drawn(draws[0], n, |s.random|)) == Some(s1)
    requires n < |s1.random| && s1.random[n] in s1.info
    ensures var i := s1.info[s1.random[n]];
            GetAddr(s, n, want, draws, now, got) == GetAddr(s1, n + 1, want, draws[1..], now, if IsTerrible(i, now) then got else got + [i])
  {
    hide Drawn, SwapRandom, IsTerrible;
  }

  /** A run of GetAddr_ that succeeds has a first step that does. */
  lemma {:induction false} GetAddrUnfold(s: State, n: nat, want: nat, draws: seq<nat>, now: int, got: seq<Info>)
    requires n < |s.random| && |got| < want && draws != [] && GetAddr(s, n, want, draws, now, got).Some?
    ensures var r := SwapRandom(s, n, Drawn(draws[0], n, |s.random|));
            && r.Some? && |r.value.random| == |s.random| && r.value.random[n] in r.value.info
            && var i := r.value.info[r.value.random[n]];
               GetAddr(s, n, want, draws, now, got) == GetAddr(r.value, n + 1, want, draws[1..], now, if IsTerrible(i, now) then got else got + [i])
  {
    hide Drawn, SwapRandom, IsTerrible;
    SwapKeepsSize(s, n, Drawn(draws[0], n, |s.random|));
  }

  lemma {:induction false} GetAddrEnd(s: State, n: nat, want: nat, draws: seq<nat>, now: int, got: seq<Info>)
    requires n >= |s.random| || |got| >= want || draws == []
    ensures GetAddr(s, n, want, draws, now, got) == Some((s, got))
  {
  }

  lemma {:induction false} GetAddrInv(s: State, n: nat, want: nat, draws: seq<nat>, now: int, got: seq<Info>)
    requires Inv(s)
    ensures GetAddr(s, n, want, draws, now, got).Some?
    ensures Inv(GetAddr(s, n, want, draws, now, got).value.0)
    decreases |draws|
  {
    hide IdsOk, AddrOk, RandomOk, TriedOk, NewOk, AllRefsOk, Standing, Counted, GetAddr, SwapRandom, OnlyShuffled;
    if n < |s.random| && |got| < want && draws != [] {
      var p := Drawn(draws[0], n, |s.random|);
      SwapRandomCore(s, {}, 0, n, p);
      SwapRandomEffect(s, n, p);
      var s1 := SwapRandom(s, n, p).value;
      RandomAt(s1, n);
      var i := s1.info[s1.random[n]];
      GetAddrStep(s, n, want, draws, now, got, s1);
      GetAddrInv(s1, n + 1, want, draws[1..], now, if IsTerrible(i, now) then got else got + [i]);
    } else {
      GetAddrEnd(s, n, want, draws, now, got);
    }
  }

  /** Every reported entry is one of the manager's, and not a terrible one. */
  ghost predicate Reported(s: State, got: seq<Info>, now: int) {
    forall k | 0 <= k < |got| :: Reportable(s, got[k], now)
  }

  ghost predicate Reportable(s: State, i: Info, now: int) {
    !IsTerrible(i, now) && exists id | id in s.info :: SameEntry(s.info[id], i)
  }

  lemma {:induction false} ShuffledTransitive(s: State, s1: State, s2: State)
    requires OnlyShuffled(s, s1) && OnlyShuffled(s1, s2)
    ensures OnlyShuffled(s, s2)
  {
    assert s2.info.Keys == s.info.Keys;
    forall id | id in s.info ensures s2.info[id] == s.info[id].(randomPos := s2.info[id].randomPos) {
      assert id in s1.info.Keys;
    }
  }

  lemma {:induction false} ReportedSame(s: State, s1: State, got: seq<Info>, now: int)
    requires OnlyShuffled(s, s1) && Reported(s1, got, now)
    ensures Reported(s, got, now)
  {
    forall k | 0 <= k < |got| ensures Reportable(s, got[k], now) {
      assert Reportable(s1, got[k], now);
      var id :| id in s1.info && SameEntry(s1.info[id], got[k]);
      assert id in s1.info.Keys && id in s.info;
      assert SameEntry(s.info[id], got[k]);
    }
  }

  lemma {:induction false} ShuffledReflexive(s: State)
    ensures OnlyShuffled(s, s)
  {
  }

  lemma {:induction false} RandomAt(s: State, p: int)
    requires RandomOk(s) && 0 <= p < |s.random|
    ensures s.random[p] in s.info
  {
  }

  /** GetAddr_ only reshuffles, and returns at most as many entries as wanted, none of them terrible. */
  lemma {:induction false} GetAddrReports(s: State, n: nat, want: nat, draws: seq<nat>, now: int, got: seq<Info>)
    requires RandomOk(s) && Reported(s, got, now) && |got| <= want
    ensures GetAddr(s, n, want, draws, now, got).Some?
    ensures var (s', got') := GetAddr(s, n, want, draws, now, got).value;
            OnlyShuffled(s, s') && Reported(s, got', now) && got <= got' && |got'| <= want
    decreases |draws|
  {
    hide Reported, OnlyShuffled, RandomOk, SwapRandom, GetAddr, IsTerrible;
    if n < |s.random| && |got| < want && draws != [] {
      var p := Drawn(draws[0], n, |s.random|);
      SwapRandomEffect(s, n, p);
      var s1 := SwapRandom(s, n, p).value;
      RandomAt(s1, n);
      var id := s1.random[n];
      var i := s1.info[id];
      var got1 := if IsTerrible(i, now) then got else got + [i];
      GetAddrStep(s, n, want, draws, now, got, s1);
      ReportOne(s, s1, got, id, now);
      GetAddrReports(s1, n + 1, want, draws[1..], now, got1);
      var (s', got') := GetAddr(s1, n + 1, want, draws[1..], now, got1).value;
      ShuffledTransitive(s, s1, s');
      ReportedSame(s, s1, got', now);
    } else {
      GetAddrEnd(s, n, want, draws, now, got);
      ShuffledReflexive(s);
    }
  }

  lemma {:induction false} ReportOne(s: State, s1: State, got: seq<Info>, id: int, now: int)
    requires OnlyShuffled(s, s1) && Reported(s, got, now) && id in s1.info
    ensures Reported(s1, if IsTerrible(s1.info[id], now) then got else got + [s1.info[id]], now)
  {
    forall k | 0 <= k < |got| ensures Reportable(s1, got[k], now) {
      assert Reportable(s, got[k], now);
      var x :| x in s.info && SameEntry(s.info[x], got[k]);
      assert x in s1.info.Keys && SameEntry(s1.info[x], got[k]);
    }
    assert SameEntry(s1.info[id], s1.info[id]);
  }

  lemma {:induction false} NothingReported(s: State, now: int)
    ensures Reported(s, [], now)
  {
  }

  lemma {:induction false} InvRandom(s: State)
    requires Inv(s)
    ensures RandomOk(s)
  {
  }

  lemma {:induction false} InvIds(s: State)
    requires Inv(s)
    ensures s.idCount >= 0 && forall id | id in s.info :: id >= 0
  {
  }

  lemma {:induction false} SwapKeepsSize(s: State, p1: int, p2: int)
    requires SwapRandom(s, p1, p2).Some?
    ensures |SwapRandom(s, p1, p2).value.random| == |s.random|
  {
  }

  // ----- what the counters say -----

  lemma {:induction false} DistinctCard(q: seq<int>)
    requires forall j, k | 0 <= j < k < |q| :: q[j] != q[k]
    ensures |set x | x in q| == |q|
    decreases |q|
  {
    if q != [] {
      var front := q[..|q| - 1];
      DistinctCard(front);
      assert (set x | x in q) == (set x | x in front) + {q[|q| - 1]} by {
        assert q == front + [q[|q| - 1]];
      }
      assert q[|q| - 1] !in front;
    }
  }

  lemma {:induction false} RandomLists(s: State)
    requires RandomOk(s)
    ensures forall j, k | 0 <= j < k < |s.random| :: s.random[j] != s.random[k]
    ensures (set x | x in s.random) == s.info.Keys && |s.random| == |s.info|
  {
    forall j, k | 0 <= j < k < |s.random| ensures s.random[j] != s.random[k] {
      assert s.info[s.random[j]].randomPos == j && s.info[s.random[k]].randomPos == k;
    }
    DistinctCard(s.random);
    forall x ensures x in (set x | x in s.random) <==> x in s.info.Keys {
      if x in s.info { assert s.random[s.info[x].randomPos] == x; }
    }
    assert (set x | x in s.random) == s.info.Keys;
  }

  lemma {:induction false} TwoKinds(s: State)
    ensures |TriedIds(s)| + |NewIds(s)| == |s.info|
  {
    forall x ensures x in TriedIds(s) + NewIds(s) <==> x in s.info.Keys {}
    assert TriedIds(s) + NewIds(s) == s.info.Keys && TriedIds(s) !! NewIds(s);
  }

  /** vRandom lists every id once, and its length is nTried + nNew. */
  lemma {:induction false} RandomIsPermutation(s: State)
    requires Inv(s)
    ensures forall j, k | 0 <= j < k < |s.random| :: s.random[j] != s.random[k]
    ensures (set x | x in s.random) == s.info.Keys
    ensures |s.random| == s.nTried + s.nNew
  {
    hide IdsOk, AddrOk, RandomOk, TriedOk, NewOk, AllRefsOk, Standing;
    RandomLists(s);
    TwoKinds(s);
    assert NewIds(s) - {} == NewIds(s);
  }

  // ----- every run -----

  datatype Op =
    | OpAdd(a: Address, source: nat, penalty: int, routable: bool, now: int, lucky: bool)
    | OpGood(svc: Service, time: int, start: nat)
    | OpAttempt(svc: Service, countFailure: bool, time: int)
    | OpConnected(svc: Service, time: int)
    | OpServices(svc: Service, services: bv64)
    | OpGetAddr(want: nat, draws: seq<nat>, now: int)

  function Step(s: State, op: Op): Option<State> {
    match op
    case OpAdd(a, source, penalty, routable, now, lucky) =>
      var r :- Add(s, a, source, penalty, routable, now, lucky);
      Some(r.0)
    case OpGood(svc, time, start) => Good(s, svc, time, start)
    case OpAttempt(svc, countFailure, time) => Some(Attempt(s, svc, countFailure, time))
    case OpConnected(svc, time) => Some(Connected(s, svc, time))
    case OpServices(svc, services) => Some(SetServices(s, svc, services))
    case OpGetAddr(want, draws, now) =>
      var r :- GetAddr(s, 0, want, draws, now, []);
      Some(r.0)
  }

  function Run(s: State, ops: seq<Op>): Option<State>
    decreases |ops|
  {
    if ops == [] then Some(s) else
    var s' :- Step(s, ops[0]);
    Run(s', ops[1..])
  }

  lemma {:induction false} StepInv(s: State, op: Op)
    requires Inv(s)
    ensures Step(s, op).Some? && Inv(Step(s, op).value)
  {
    hide Core;
    match op
    case OpAdd(a, source, penalty, routable, now, lucky) => AddInv(s, a, source, penalty, routable, now, lucky);
    case OpGood(svc, time, start) => GoodInv(s, svc, time, start);
    case OpAttempt(svc, countFailure, time) => AttemptInv(s, svc, countFailure, time);
    case OpConnected(svc, time) => ConnectedInv(s, svc, time);
    case OpServices(svc, services) => SetServicesInv(s, svc, services);
    case OpGetAddr(want, draws, now) => GetAddrInv(s, 0, want, draws, now, []);
  }

  // ----- recorded times -----

  /** Entries that are only moved keep their times; those now in tried were there or have been reached. */
  lemma {:induction false} KeptCredible(s: State, s': State, lost: set<int>)
    requires Credible(s) && TriedOk(s) && TriedOk(s') && Keeps(s, s', lost)
    requires forall slot | slot in s'.tried ::
               (slot in s.tried && s.tried[slot] == s'.tried[slot]) || (s'.tried[slot] in s.info && s.info[s'.tried[slot]].lastSuccess != 0)
    ensures Credible(s')
  {
    forall id | id in s'.info ensures Dated(s'.info[id]) {
      assert id in s'.info.Keys;
      assert Dated(s.info[id]) && SameEntry(s.info[id], s'.info[id]);
      if s'.info[id].inTried { assert s'.tried[s'.TriedSlot(s'.info[id].service)] == id; }
    }
  }

  lemma {:induction false} TouchedCredible(s: State, s': State, id: int)
    requires Credible(s) && id in s.info && id in s'.info && s'.info == s.info[id := s'.info[id]]
    ensures Credible(s') <==> Dated(s'.info[id])
  {
  }

  lemma {:induction false} InvTried(s: State)
    requires Inv(s)
    ensures TriedOk(s)
  {
  }

  /** The service is known under the port given. */
  predicate Names(s: State, svc: Service) {
    var found := Find(s, svc.ip);
    found.Some? && s.info[found.value].service == svc
  }

  lemma {:induction false} GoodCredibleIff(s: State, svc: Service, time: int, start: nat)
    requires Inv(s) && Credible(s)
    ensures Good(s, svc, time, start).Some?
    ensures Credible(Good(s, svc, time, start).value) <==> (Names(s, svc) ==> time > 0)
  {
    hide Core, TriedOk;
    GoodInv(s, svc, time, start);
    GoodIs(s, svc, time, start);
    var found := Find(s, svc.ip);
    if Names(s, svc) {
      var id := found.value;
      var s1 := Credited(s, id, time);
      TouchedCredible(s, s1, id);
      if !s.info[id].inTried {
        var lost := GoodEffect(s, svc, time, start);
        var s' := Good(s, svc, time, start).value;
        assert SameEntry(s1.info[id], s'.info[id]);
        if time > 0 {
          CreditedInv(s, id, time);
          InvTried(s1);
          InvTried(s');
          KeptCredible(s1, s', lost);
        } else {
          assert !Dated(s'.info[id]);
        }
      }
    }
  }

  lemma {:induction false} PlaceCredible(s: State, loose: set<int>, extra: int, id: int, source: nat, now: int)
    requires Core(s, loose, extra) && Credible(s) && id in s.info && !s.info[id].inTried
    requires forall x | x in loose :: x in s.info && s.info[x].refCount == 0
    requires Place(s, id, source, now).Some? && Inv(Place(s, id, source, now).value)
    ensures Credible(Place(s, id, source, now).value)
  {
    hide IdsOk, AddrOk, RandomOk, TriedOk, NewOk, AllRefsOk, Standing, Counted, Place, Credible;
    ReferencedCounts(s, loose, extra);
    var lost := PlaceEffect(s, id, source, now);
    KeptCredible(s, Place(s, id, source, now).value, lost);
  }

  lemma {:induction false} AddCredible(s: State, a: Address, source: nat, timePenalty: int, routable: bool, now: int, lucky: bool)
    requires Inv(s) && Credible(s)
    ensures Add(s, a, source, timePenalty, routable, now, lucky).Some?
    ensures Credible(Add(s, a, source, timePenalty, routable, now, lucky).value.0)
  {
    hide Core, AddrOk, Place, Credible;
    var penalty := if a.service.ip == source then 0 else timePenalty;
    AddInv(s, a, source, timePenalty, routable, now, lucky);
    InvAddr(s);
    FoundIsKnown(s, a.service.ip);
    if routable {
      match Find(s, a.service.ip) {
        case Some(id) =>
          var s1 := s.WithInfo(id, Refresh(s.info[id], a, penalty, now));
          RefreshedCredible(s, s1, id);
          if Add(s, a, source, timePenalty, routable, now, lucky).value.0 != s1 {
            RefreshedInv(s, s1, id);
            PlaceCredible(s1, {}, 0, id, source, now);
          }
        case None =>
          var s1 := Created(s, a, source, penalty);
          CreatedCore(s, a, source, penalty);
          CreatedKeeps(s, a, source, penalty);
          CreatedCredible(s, s1, s.idCount);
          PlaceCreated(s1, s.idCount, source, now);
          PlaceCredible(s1, {s.idCount}, 1, s.idCount, source, now);
      }
    }
  }

  lemma {:induction false} RefreshedCredible(s: State, s1: State, id: int)
    requires Credible(s) && id in s.info && id in s1.info && s1 == s.WithInfo(id, s1.info[id])
    requires s1.info[id] == s.info[id].(time := s1.info[id].time, services := s1.info[id].services)
    ensures Credible(s1)
  {
    assert Dated(s.info[id]);
    TouchedCredible(s, s1, id);
  }

  lemma {:induction false} CreatedCredible(s: State, s1: State, id: int)
    requires Credible(s) && id in s1.info && s1.info == s.info[id := s1.info[id]]
    requires s1.info[id].lastTry == 0 && s1.info[id].lastSuccess == 0 && !s1.info[id].inTried
    ensures Credible(s1)
  {
  }

  lemma {:induction false} ShuffledCredible(s: State, s': State)
    requires Credible(s) && OnlyShuffled(s, s')
    ensures Credible(s')
  {
    forall id | id in s'.info ensures Dated(s'.info[id]) { assert id in s'.info.Keys && Dated(s.info[id]); }
  }

  /** The times an operation records are real ones: contacts after the epoch, attempts not before it. */
  predicate Timely(op: Op) {
    match op
    case OpGood(_, time, _) => time > 0
    case OpAttempt(_, _, time) => time >= 0
    case _ => true
  }

  /** A step keeps recorded times credible exactly when the time it records, if any, is a real one. */
  lemma {:induction false} StepCredibleIff(s: State, op: Op)
    requires Inv(s) && Credible(s)
    ensures Step(s, op).Some?
    ensures Credible(Step(s, op).value) <==> Timely(op) || ((op.OpGood? || op.OpAttempt?) && !Names(s, op.svc))
  {
    hide Core, Credible;
    StepInv(s, op);
    match op
    case OpAdd(a, source, penalty, routable, now, lucky) => AddCredible(s, a, source, penalty, routable, now, lucky);
    case OpGood(svc, time, start) => GoodCredibleIff(s, svc, time, start);
    case OpAttempt(svc, countFailure, time) =>
      if Names(s, svc) { TouchedBy(s, Step(s, op).value, Find(s, svc.ip).value); }
    case OpConnected(svc, time) =>
      if Names(s, svc) && Step(s, op).value != s { TouchedBy(s, Step(s, op).value, Find(s, svc.ip).value); }
    case OpServices(svc, services) =>
      if Names(s, svc) { TouchedBy(s, Step(s, op).value, Find(s, svc.ip).value); }
    case OpGetAddr(want, draws, now) =>
      InvRandom(s);
      NothingReported(s, now);
      GetAddrReports(s, 0, want, draws, now, []);
      ShuffledCredible(s, Step(s, op).value);
  }

  lemma {:induction false} TouchedBy(s: State, s': State, id: int)
    requires Credible(s) && id in s.info && id in s'.info && s'.info == s.info[id := s'.info[id]]
    requires s'.info[id].lastSuccess == s.info[id].lastSuccess && s'.info[id].inTried == s.info[id].inTried
    ensures Credible(s') <==> s'.info[id].lastTry >= 0
    ensures s'.info[id].lastTry == s.info[id].lastTry ==> Credible(s')
  {
    assert Dated(s.info[id]);
    TouchedCredible(s, s', id);
  }

  lemma {:induction false} FirstAdded(s: State, a: Address, source: nat, now: int)
    requires s.info == map[] && s.news == map[] && s.addr == map[] && s.idCount == 0 && s.random == []
    ensures var r := Add(s, a, source, 0, true, now, false); r.Some? && Find(r.value.0, a.service.ip) == Some(0) && Names(r.value.0, a.service)
  {
    var s1 := Create(s, a, source);
    var i := s1.info[0];
    var slot := s1.NewSlot(i.service, s1.NewBucket(i.service, source));
    assert slot !in s.news;
  }

  /** A contact recorded at time zero: the entry is in tried as if it had never been reached. */
  lemma {:induction false} ContactAtZero(hash: Hashing, key: nat, a: Address, source: nat, now: int, start: nat)
    ensures var r := Add(Fresh(hash, key), a, source, 0, true, now, false);
            && r.Some? && Inv(r.value.0) && Credible(r.value.0)
            && Good(r.value.0, a.service, 0, start).Some? && !Credible(Good(r.value.0, a.service, 0, start).value)
  {
    hide Core, Credible, Add;
    FreshInv(hash, key);
    AddInv(Fresh(hash, key), a, source, 0, true, now, false);
    AddCredible(Fresh(hash, key), a, source, 0, true, now, false);
    FirstAdded(Fresh(hash, key), a, source, now);
    GoodCredibleIff(Add(Fresh(hash, key), a, source, 0, true, now, false).value.0, a.service, 0, start);
  }

  /**
   * Every history of a consistent manager runs without a failed assert and keeps it consistent, whatever
   * the clock says. If the recorded times are real ones, every clause of the self-check holds throughout.
   */
  lemma {:induction false} RunInv(s: State, ops: seq<Op>)
    requires Inv(s)
    ensures Run(s, ops).Some? && Inv(Run(s, ops).value)
    ensures Credible(s) && (forall op | op in ops :: Timely(op)) ==> Credible(Run(s, ops).value)
    decreases |ops|
  {
    hide Core, Credible;
    if ops != [] {
      StepInv(s, ops[0]);
      if Credible(s) { StepCredibleIff(s, ops[0]); }
      RunInv(Step(s, ops[0]).value, ops[1..]);
    }
  }
}
