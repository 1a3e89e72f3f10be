/** What each operation does to what is known of an address: where it is entered, what is recorded, how it is judged. */
module AddrEffects {
  import opened Wrappers
  import opened AddrModel
  import opened AddrInv
  import opened AddrOps
  import opened AddrRuns
  import opened AddrSerial

  // ----- entering an address -----

  /** A slot gives way to a first reference if it is free or its occupant is terrible or referenced elsewhere, to a further one if it is free or its occupant is terrible. */
  predicate GivesWay(s: State, slot: Slot, first: bool, now: int) {
    slot in s.news && s.news[slot] in s.info ==> var other := s.info[s.news[slot]]; IsTerrible(other, now) || (first && other.refCount > 1)
  }

  predicate At(s: State, slot: Slot, id: int) {
    slot in s.news && s.news[slot] == id
  }

  lemma {:induction false} TakeSlotOutcome(s: State, id: int, slot: Slot)
    requires RandomOk(s) && NewOk(s) && Referenced(s) && id in s.info && !At(s, slot, id)
    ensures TakeSlot(s, id, slot).Some?
    ensures var s' := TakeSlot(s, id, slot).value;
            && s'.news == s.news[slot := id] && id in s'.info && SameEntry(s.info[id], s'.info[id])
            && s'.info[id].refCount == s.info[id].refCount + 1 && s'.info[id].inTried == s.info[id].inTried
  {
    hide RandomOk, ClearNew, NewOk;
    ClearNewKeeps(s, slot);
    var s1 := ClearNew(s, slot).value;
    assert id in s1.info.Keys;
    assert (s.news - {slot})[slot := id] == s.news[slot := id];
  }

  lemma {:induction false} PlaceOutcome(s: State, id: int, source: nat, now: int)
    requires RandomOk(s) && NewOk(s) && Referenced(s) && id in s.info && !s.info[id].inTried
    ensures Place(s, id, source, now).Some?
    ensures var s' := Place(s, id, source, now).value;
            var i := s.info[id];
            var slot := s.NewSlot(i.service, s.NewBucket(i.service, source));
            var enters := !At(s, slot, id) && GivesWay(s, slot, i.refCount == 0, now);
            && s'.news == (if enters then s.news[slot := id] else s.news)
            && (id in s'.info <==> enters || At(s, slot, id) || i.refCount != 0)
            && (id in s'.info ==>
                  && SameEntry(i, s'.info[id]) && !s'.info[id].inTried
                  && s'.info[id].refCount == i.refCount + if enters then 1 else 0)
  {
    hide RandomOk, NewOk, TakeSlot, Delete, IsTerrible;
    var i := s.info[id];
    var slot := s.NewSlot(i.service, s.NewBucket(i.service, source));
    MayTakeDecides(s, id, slot, now);
    if !At(s, slot, id) {
      TakeSlotOutcome(s, id, slot);
      if !MayTake(s, id, slot, now).value && i.refCount == 0 { DeleteKeeps(s, id); }
    }
  }

  function Penalty(a: Address, source: nat, timePenalty: int): int {
    if a.service.ip == source then 0 else timePenalty
  }

  function NotNegative(x: int): nat {
    if x > 0 then x else 0
  }

  /** The slot of the new table that an address heard from a source belongs to. */
  function SlotFor(s: State, svc: Service, source: nat): Slot {
    s.NewSlot(svc, s.NewBucket(svc, source))
  }

  /**
   * An address not known before is entered if and only if the slot it belongs to is free or its occupant is terrible or
   * referenced elsewhere too; it is entered there, with one reference, nothing recorded and the time it was seen less
   * the penalty. Otherwise nothing of it remains.
   */
  lemma {:induction false} UnknownIsEntered(s: State, a: Address, source: nat, timePenalty: int, now: int, lucky: bool)
    requires Inv(s) && a.service.ip !in s.addr
    ensures Add(s, a, source, timePenalty, true, now, lucky).Some?
    ensures var s', id, slot := Add(s, a, source, timePenalty, true, now, lucky).value.0, s.idCount, SlotFor(s, a.service, source);
            var enters := GivesWay(s, slot, true, now);
            && s'.news == (if enters then s.news[slot := id] else s.news) && s'.idCount == id + 1
            && (a.service.ip in s'.addr <==> enters) && (id in s'.info <==> enters)
            && (enters ==>
                  && s'.info[id].refCount == 1 && !s'.info[id].inTried
                  && SameEntry(NewInfo(a.(time := NotNegative(a.time - Penalty(a, source, timePenalty))), source), s'.info[id]))
  {
    hide Core, Place, GivesWay, At, AddrOk, NewOk, RandomOk, Referenced;
    var penalty := Penalty(a, source, timePenalty);
    var s1, id := Created(s, a, source, penalty), s.idCount;
    AddUnknown(s, a, source, timePenalty, now, lucky);
    CreatedCore(s, a, source, penalty);
    CreatedKeeps(s, a, source, penalty);
    ReferencedCounts(s1, {id}, 1);
    PlaceOutcome(s1, id, source, now);
    var lost := PlaceEffect(s1, id, source, now);
    InvAddr(s);
    InvNew(s);
    CreatedJudges(s, s1, id, SlotFor(s, a.service, source), now);
    var s' := Place(s1, id, source, now).value;
    assert Add(s, a, source, timePenalty, true, now, lucky) == Some((s', true));
    InvAddr(s');
    KnownBefore(s, s1, s', a.service.ip, id);
  }

  lemma {:induction false} CreatedJudges(s: State, s1: State, id: int, slot: Slot, now: int)
    requires NewOk(s) && id !in s.info && id in s1.info && s1.news == s.news && s1.info == s.info[id := s1.info[id]]
    ensures !At(s1, slot, id) && (GivesWay(s1, slot, true, now) <==> GivesWay(s, slot, true, now))
  {
    hide IsTerrible;
  }

  lemma {:induction false} InvNew(s: State)
    requires Inv(s)
    ensures NewOk(s)
  {
  }

  lemma {:induction false} KnownBefore(s: State, s1: State, s': State, ip: nat, id: int)
    requires AddrOk(s) && AddrOk(s') && ip !in s.addr && id in s1.info && s1.info == s.info[id := s1.info[id]]
    requires s1.info[id].service.ip == ip && s'.info.Keys <= s1.info.Keys
    requires forall x | x in s'.info :: SameEntry(s1.info[x], s'.info[x])
    ensures ip in s'.addr <==> id in s'.info
  {
    if ip in s'.addr {
      var x := s'.addr[ip];
      assert x in s'.info.Keys && SameEntry(s1.info[x], s'.info[x]);
      assert s1.info[x].service.ip == ip;
    }
  }

  /** A known entry may get one more reference: the address was seen later than recorded, it is in new, below the limit, and the draw is lucky. */
  predicate MayRefer(i: Info, a: Address, lucky: bool) {
    a.time != 0 && (i.time == 0 || a.time > i.time) && !i.inTried && i.refCount < BUCKETS_PER_ADDRESS && lucky
  }

  /**
   * A known address keeps its entry, refreshed. It gets one more reference, at the slot it belongs to by the new
   * source, if and only if it may and that slot is not its own already and is free or has a terrible occupant.
   */
  lemma {:induction false} KnownIsRefreshed(s: State, a: Address, source: nat, timePenalty: int, now: int, lucky: bool)
    requires Inv(s) && a.service.ip in s.addr
    ensures Add(s, a, source, timePenalty, true, now, lucky).Some? && Find(s, a.service.ip).Some?
    ensures var s', id := Add(s, a, source, timePenalty, true, now, lucky).value.0, Find(s, a.service.ip).value;
            var i := Refresh(s.info[id], a, Penalty(a, source, timePenalty), now);
            var slot := SlotFor(s, i.service, source);
            var enters := MayRefer(i, a, lucky) && !At(s, slot, id) && GivesWay(s, slot, false, now);
            && id in s'.info && SameEntry(i, s'.info[id]) && s'.info[id].inTried == i.inTried
            && s'.info[id].refCount == i.refCount + (if enters then 1 else 0)
            && s'.news == (if enters then s.news[slot := id] else s.news)
  {
    hide Core, Place, IsTerrible, AddrOk;
    InvAddr(s);
    FoundIsKnown(s, a.service.ip);
    var id := Find(s, a.service.ip).value;
    AddKnown(s, a, source, timePenalty, now, lucky, id);
    var i := Refresh(s.info[id], a, Penalty(a, source, timePenalty), now);
    var s1 := s.WithInfo(id, i);
    RefreshedInv(s, s1, id);
    InvSettled(s1, id);
    ReferencedCounts(s1, {}, 0);
    if !i.inTried {
      PlaceOutcome(s1, id, source, now);
      InvNew(s);
    }
  }

  lemma {:induction false} InvSettled(s: State, id: int)
    requires Inv(s) && id in s.info
    ensures Settled(s.info[id])
  {
  }

  /**
   * Refreshing only ever adds services and never moves the time back. It moves the time, to the time seen less the
   * penalty, if and only if that is news of more than an hour, or a day for an address seen more than a day ago.
   */
  lemma {:induction false} RefreshMeans(i: Info, a: Address, penalty: int, now: int)
    ensures var r := Refresh(i, a, penalty, now);
            && r.services & i.services == i.services && r.services & a.services == a.services
            && r.time >= i.time && r == i.(time := r.time, services := r.services)
            && (i.time != 0 ==>
                  (r.time != i.time <==> a.time != 0 && a.time - penalty - i.time > if now < a.time + DAY then 3600 else DAY))
            && (r.time != i.time ==> r.time == NotNegative(a.time - penalty))
            && (i.time == 0 && a.time != 0 ==> r.time == NotNegative(a.time - penalty))
  {
    Includes(i.services, a.services);
  }

  lemma {:induction false} Includes(x: bv64, y: bv64)
    ensures (x | y) & x == x && (x | y) & y == y
  {
    assert (x | y) & x == x;
    assert y | x == x | y;
    assert (y | x) & y == y;
  }

  // ----- what is recorded of an entry -----

  /** An entry after an operation, but for its place in the tables and in the shuffle. */
  function After(s: State, op: Op, id: int): Info
    requires id in s.info
  {
    var i := s.info[id];
    match op
    case OpAdd(a, source, penalty, routable, now, _) =>
      if routable && a.service.ip == i.service.ip then Refresh(i, a, Penalty(a, source, penalty), now) else i
    case OpGood(svc, time, _) =>
      if svc == i.service then i.(lastSuccess := time, lastTry := time, attempts := 0) else i
    case OpAttempt(svc, countFailure, time) =>
      if svc != i.service then i
      else if countFailure && i.lastCountAttempt < s.lastGood then i.(lastTry := time, lastCountAttempt := time, attempts := i.attempts + 1)
      else i.(lastTry := time)
    case OpConnected(svc, time) => if svc == i.service && time > i.time + 20 * 60 then i.(time := time) else i
    case OpServices(svc, services) => if svc == i.service then i.(services := services) else i
    case OpGetAddr(_, _, _) => i
  }

  lemma {:induction false} FoundIff(s: State, id: int, ip: nat)
    requires AddrOk(s) && id in s.info
    ensures s.info[id].service.ip == ip <==> Find(s, ip) == Some(id)
  {
  }

  /** An operation records what it records with the entry of its own service only; no other entry changes but in place. */
  lemma {:induction false} StepRecords(s: State, op: Op, id: int)
    requires Inv(s) && id in s.info && Step(s, op).Some? && id in Step(s, op).value.info
    ensures SameEntry(After(s, op, id), Step(s, op).value.info[id])
    ensures Step(s, op).value.lastGood == if op.OpGood? then op.time else s.lastGood
    ensures Step(s, op).value.idCount >= s.idCount
  {
    hide Core, AddrOk, Add, Good, Attempt, Connected, SetServices, GetAddr;
    InvAddr(s);
    match op
    case OpAdd(a, source, penalty, routable, now, lucky) =>
      AddUnroutable(s, a, source, penalty, now, lucky);
      if routable { AddRecords(s, a, source, penalty, now, lucky, id); }
    case OpGood(svc, time, start) => GoodRecords(s, svc, time, start, id);
    case OpAttempt(svc, countFailure, time) => AttemptRecords(s, svc, countFailure, time, id);
    case OpConnected(svc, time) => ConnectedRecords(s, svc, time, id);
    case OpServices(svc, services) => ServicesRecord(s, svc, services, id);
    case OpGetAddr(want, draws, now) =>
      InvRandom(s);
      NothingReported(s, now);
      GetAddrReports(s, 0, want, draws, now, []);
  }

  lemma {:induction false} AddUnroutable(s: State, a: Address, source: nat, penalty: int, now: int, lucky: bool)
    ensures Add(s, a, source, penalty, false, now, lucky) == Some((s, false))
  {
  }

  lemma {:induction false} AttemptRecords(s: State, svc: Service, countFailure: bool, time: int, id: int)
    requires AddrOk(s) && id in s.info
    ensures var s' := Attempt(s, svc, countFailure, time);
            && s'.lastGood == s.lastGood && s'.idCount == s.idCount && id in s'.info
            && s'.info[id] == After(s, OpAttempt(svc, countFailure, time), id)
  {
    hide AddrOk;
    FoundIff(s, id, svc.ip);
  }

  lemma {:induction false} ConnectedRecords(s: State, svc: Service, time: int, id: int)
    requires AddrOk(s) && id in s.info
    ensures var s' := Connected(s, svc, time);
            && s'.lastGood == s.lastGood && s'.idCount == s.idCount && id in s'.info
            && s'.info[id] == After(s, OpConnected(svc, time), id)
  {
    hide AddrOk;
    FoundIff(s, id, svc.ip);
  }

  lemma {:induction false} ServicesRecord(s: State, svc: Service, services: bv64, id: int)
    requires AddrOk(s) && id in s.info
    ensures var s' := SetServices(s, svc, services);
            && s'.lastGood == s.lastGood && s'.idCount == s.idCount && id in s'.info
            && s'.info[id] == After(s, OpServices(svc, services), id)
  {
    hide AddrOk;
    FoundIff(s, id, svc.ip);
  }

  lemma {:induction false} PlaceKeepsEntry(s: State, s1: State, loose: set<int>, extra: int, at: int, source: nat, now: int, id: int)
    requires Core(s1, loose, extra) && (forall x | x in loose :: x in s1.info && s1.info[x].refCount == 0)
    requires at in s1.info && !s1.info[at].inTried && Place(s1, at, source, now).Some?
    requires id in s1.info && id in Place(s1, at, source, now).value.info
    ensures SameEntry(s1.info[id], Place(s1, at, source, now).value.info[id])
    ensures Place(s1, at, source, now).value.lastGood == s1.lastGood && Place(s1, at, source, now).value.idCount == s1.idCount
  {
    hide Core, Place, IsTerrible, RandomOk, NewOk;
    ReferencedCounts(s1, loose, extra);
    var lost := PlaceEffect(s1, at, source, now);
  }

  lemma {:induction false} AddRecords(s: State, a: Address, source: nat, timePenalty: int, now: int, lucky: bool, id: int)
    requires Inv(s) && id in s.info && AddrOk(s)
    requires Add(s, a, source, timePenalty, true, now, lucky).Some? && id in Add(s, a, source, timePenalty, true, now, lucky).value.0.info
    ensures var s' := Add(s, a, source, timePenalty, true, now, lucky).value.0;
            && SameEntry(After(s, OpAdd(a, source, timePenalty, true, now, lucky), id), s'.info[id])
            && s'.lastGood == s.lastGood && s'.idCount >= s.idCount
  {
    hide Core, Place, AddrOk, IsTerrible;
    var penalty := Penalty(a, source, timePenalty);
    FoundIff(s, id, a.service.ip);
    FoundIsKnown(s, a.service.ip);
    match Find(s, a.service.ip)
    case Some(at) =>
      var s1 := s.WithInfo(at, Refresh(s.info[at], a, penalty, now));
      AddKnown(s, a, source, timePenalty, now, lucky, at);
      RefreshedInv(s, s1, at);
      if Add(s, a, source, timePenalty, true, now, lucky).value.0 != s1 { PlaceKeepsEntry(s, s1, {}, 0, at, source, now, id); }
    case None =>
      var s1 := Created(s, a, source, penalty);
      AddUnknown(s, a, source, timePenalty, now, lucky);
      CreatedCore(s, a, source, penalty);
      CreatedKeeps(s, a, source, penalty);
      PlaceKeepsEntry(s, s1, {s.idCount}, 1, s.idCount, source, now, id);
  }

  lemma {:induction false} GoodRecords(s: State, svc: Service, time: int, start: nat, id: int)
    requires Inv(s) && id in s.info && AddrOk(s) && Good(s, svc, time, start).Some? && id in Good(s, svc, time, start).value.info
    ensures var s' := Good(s, svc, time, start).value;
            SameEntry(After(s, OpGood(svc, time, start), id), s'.info[id]) && s'.lastGood == time && s'.idCount == s.idCount
  {
    hide Core, AddrOk, MakeTried;
    FoundIff(s, id, svc.ip);
    GoodIs(s, svc, time, start);
    var found := Find(s, svc.ip);
    if Names(s, svc) && !s.info[found.value].inTried {
      var lost := GoodEffect(s, svc, time, start);
    }
  }

  // ----- over runs -----

  lemma {:induction false} GoneForGood(s: State, op: Op, id: int)
    requires Inv(s) && id !in s.info && id < s.idCount && Step(s, op).Some?
    ensures id !in Step(s, op).value.info && s.idCount <= Step(s, op).value.idCount
  {
    hide Core, AddrOk, Place, MakeTried;
    InvAddr(s);
    match op
    case OpAdd(a, source, penalty, routable, now, lucky) =>
      if routable { AddBringsNone(s, a, source, penalty, now, lucky, id); }
    case OpGood(svc, time, start) =>
      GoodIs(s, svc, time, start);
      if Names(s, svc) && !s.info[Find(s, svc.ip).value].inTried { var lost := GoodEffect(s, svc, time, start); }
    case OpAttempt(svc, countFailure, time) =>
    case OpConnected(svc, time) =>
    case OpServices(svc, services) =>
    case OpGetAddr(want, draws, now) =>
      InvRandom(s);
      NothingReported(s, now);
      GetAddrReports(s, 0, want, draws, now, []);
  }

  lemma {:induction false} AddBringsNone(s: State, a: Address, source: nat, timePenalty: int, now: int, lucky: bool, id: int)
    requires Inv(s) && AddrOk(s) && id !in s.info && id < s.idCount && Add(s, a, source, timePenalty, true, now, lucky).Some?
    ensures var s' := Add(s, a, source, timePenalty, true, now, lucky).value.0; id !in s'.info && s'.idCount >= s.idCount
  {
    hide Core, Place, AddrOk, IsTerrible;
    var penalty := Penalty(a, source, timePenalty);
    FoundIsKnown(s, a.service.ip);
    match Find(s, a.service.ip)
    case Some(at) =>
      var s1 := s.WithInfo(at, Refresh(s.info[at], a, penalty, now));
      AddKnown(s, a, source, timePenalty, now, lucky, at);
      RefreshedInv(s, s1, at);
      if Add(s, a, source, timePenalty, true, now, lucky).value.0 != s1 {
        ReferencedCounts(s1, {}, 0);
        var lost := PlaceEffect(s1, at, source, now);
      }
    case None =>
      var s1 := Created(s, a, source, penalty);
      AddUnknown(s, a, source, timePenalty, now, lucky);
      CreatedCore(s, a, source, penalty);
      CreatedKeeps(s, a, source, penalty);
      ReferencedCounts(s1, {s.idCount}, 1);
      var lost := PlaceEffect(s1, s.idCount, source, now);
  }

  lemma {:induction false} GoneStaysGone(s: State, ops: seq<Op>, id: int)
    requires Inv(s) && id !in s.info && id < s.idCount && Run(s, ops).Some?
    ensures id !in Run(s, ops).value.info
    decreases |ops|
  {
    hide Core, Step;
    if ops != [] {
      StepInv(s, ops[0]);
      GoneForGood(s, ops[0], id);
      GoneStaysGone(Step(s, ops[0]).value, ops[1..], id);
    }
  }

  /** What a history can do to an entry: it keeps its service and its first source, and its time never moves back. */
  predicate Follows(i: Info, i': Info) {
    i'.service == i.service && i'.source == i.source && i'.time >= i.time
  }

  lemma {:induction false} AfterFollows(s: State, op: Op, id: int)
    requires id in s.info
    ensures Follows(s.info[id], After(s, op, id))
  {
    if op.OpAdd? { RefreshMeans(s.info[id], op.a, Penalty(op.a, op.source, op.penalty), op.now); }
  }

  lemma {:induction false} SameFollows(i: Info, j: Info, k: Info)
    requires Follows(i, j) && SameEntry(j, k)
    ensures Follows(i, k)
  {
  }

  /** Over every history, an entry that is still there keeps its service and its first source, and its time never moved back. */
  lemma {:induction false} TimeNeverMovesBack(s: State, ops: seq<Op>, id: int)
    requires Inv(s) && id in s.info && Run(s, ops).Some? && id in Run(s, ops).value.info
    ensures Follows(s.info[id], Run(s, ops).value.info[id])
    decreases |ops|
  {
    hide Core, Step, After, SameEntry, Refresh;
    if ops != [] {
      StepInv(s, ops[0]);
      var s1 := Step(s, ops[0]).value;
      if id in s1.info {
        StepRecords(s, ops[0], id);
        AfterFollows(s, ops[0], id);
        SameFollows(s.info[id], After(s, ops[0], id), s1.info[id]);
        TimeNeverMovesBack(s1, ops[1..], id);
      } else {
        IdIsBelow(s, id);
        GoneLater(s, ops, id);
      }
    }
  }

  lemma {:induction false} IdIsBelow(s: State, id: int)
    requires Inv(s) && id in s.info
    ensures 0 <= id < s.idCount
  {
  }

  lemma {:induction false} GoneLater(s: State, ops: seq<Op>, id: int)
    requires Inv(s) && 0 <= id < s.idCount && id in s.info && ops != [] && Run(s, ops).Some?
    requires Step(s, ops[0]).Some? && id !in Step(s, ops[0]).value.info
    ensures id !in Run(s, ops).value.info
  {
    hide Core, Step;
    StepInv(s, ops[0]);
    var s1 := Step(s, ops[0]).value;
    StepCounts(s, ops[0]);
    GoneStaysGone(s1, ops[1..], id);
  }

  lemma {:induction false} StepCounts(s: State, op: Op)
    requires Inv(s) && Step(s, op).Some?
    ensures Step(s, op).value.idCount >= s.idCount
  {
    hide Core, Step;
    InvIds(s);
    GoneForGood(s, op, -1);
  }

  /** No contact is recorded, and failures are recorded at times not before the last contact. */
  predicate NoContact(op: Op, lastGood: int) {
    !op.OpGood? && (op.OpAttempt? ==> op.time >= lastGood)
  }

  /** Failures an entry can still collect before the next contact. */
  function Open(i: Info, lastGood: int): int {
    if i.lastCountAttempt < lastGood then 1 else 0
  }

  lemma {:induction false} AfterCounts(s: State, op: Op, id: int)
    requires id in s.info && NoContact(op, s.lastGood)
    ensures var i, i' := s.info[id], After(s, op, id); i.attempts <= i'.attempts && i'.attempts + Open(i', s.lastGood) == i.attempts + Open(i, s.lastGood)
  {
  }

  lemma {:induction false} SameCounts(i: Info, i': Info)
    requires SameEntry(i, i')
    ensures i'.attempts == i.attempts && i'.lastCountAttempt == i.lastCountAttempt
  {
  }

  /**
   * Between two contacts at most one failure is counted for each entry, however often it is attempted, and none if one
   * was counted since the last contact.
   */
  lemma {:induction false} CountedOnce(s: State, ops: seq<Op>, id: int)
    requires Inv(s) && id in s.info && Run(s, ops).Some? && id in Run(s, ops).value.info
    requires forall op | op in ops :: NoContact(op, s.lastGood)
    ensures var n, n' := s.info[id].attempts, Run(s, ops).value.info[id].attempts; n <= n' <= n + Open(s.info[id], s.lastGood)
    decreases |ops|
  {
    hide Core, Step, After, SameEntry;
    if ops != [] {
      StepInv(s, ops[0]);
      var s1 := Step(s, ops[0]).value;
      if id in s1.info {
        StepRecords(s, ops[0], id);
        AfterCounts(s, ops[0], id);
        SameCounts(After(s, ops[0], id), s1.info[id]);
        assert s1.lastGood == s.lastGood;
        CountedOnce(s1, ops[1..], id);
      } else {
        IdIsBelow(s, id);
        GoneLater(s, ops, id);
      }
    }
  }

  /** A second failure in a row is counted if and only if the first was recorded at a time before the last contact. */
  lemma {:induction false} CountedAgainIff(s: State, svc: Service, time: int, again: int)
    requires Names(s, svc) && s.info[Find(s, svc.ip).value].lastCountAttempt < s.lastGood
    ensures var id, s1 := Find(s, svc.ip).value, Attempt(s, svc, true, time);
            && s1.info[id].attempts == s.info[id].attempts + 1 && Names(s1, svc)
            && Attempt(s1, svc, true, again).info[id].attempts == s.info[id].attempts + if time < s.lastGood then 2 else 1
  {
    var id, s1 := Find(s, svc.ip).value, Attempt(s, svc, true, time);
    assert Find(s1, svc.ip) == Some(id);
  }

  // ----- how an entry is judged -----

  /** The time an entry was seen is known, not in the future and not too long ago. */
  predicate Current(time: int, now: int) {
    time != 0 && time - 600 <= now <= time + 30 * DAY
  }

  /** Tried a minute ago or less. */
  predicate JustTried(lastTry: int, now: int) {
    lastTry != 0 && now <= lastTry + 60
  }

  /** Once terrible, an entry about which nothing is heard stays terrible, unless it was seen in the future. */
  lemma {:induction false} TerribleStays(i: Info, now: int, later: int)
    requires IsTerrible(i, now) && now <= later && (i.time <= now + 600 || later < i.time - 600)
    ensures IsTerrible(i, later)
  {
  }

  /** After a contact an entry is terrible exactly when a minute has passed and the time it was seen is not current: no old failure counts. */
  lemma {:induction false} FairAfterContact(s: State, svc: Service, time: int, start: nat, now: int)
    requires Inv(s) && Names(s, svc)
    ensures Good(s, svc, time, start).Some? && Find(s, svc.ip).value in Good(s, svc, time, start).value.info
    ensures var id := Find(s, svc.ip).value;
            IsTerrible(Good(s, svc, time, start).value.info[id], now) <==> !JustTried(time, now) && !Current(s.info[id].time, now)
  {
    hide Core, AddrOk, MakeTried, Good;
    InvAddr(s);
    var id := Find(s, svc.ip).value;
    FoundIsKnown(s, svc.ip);
    GoodIs(s, svc, time, start);
    GoodInv(s, svc, time, start);
    if !s.info[id].inTried { var lost := GoodEffect(s, svc, time, start); }
    GoodRecords(s, svc, time, start, id);
  }

  /** The failures that make an entry terrible: three if it was never reached, ten if it was not within the last week. */
  predicate TooMany(attempts: int, lastSuccess: int, now: int) {
    if lastSuccess == 0 then attempts >= 3 else attempts >= 10 && now > lastSuccess + 7 * DAY
  }

  /** After an attempt an entry is terrible exactly when a minute has passed and it is out of date or has failed too often, this time included if it counts. */
  lemma {:induction false} JudgedAfterAttempt(s: State, svc: Service, countFailure: bool, time: int, now: int)
    requires Names(s, svc)
    ensures var id, s' := Find(s, svc.ip).value, Attempt(s, svc, countFailure, time);
            var i := s.info[id];
            var failed := if countFailure && i.lastCountAttempt < s.lastGood then 1 else 0;
            && s' == s.WithInfo(id, s'.info[id])
            && (IsTerrible(s'.info[id], now) <==>
                !JustTried(time, now) && (!Current(i.time, now) || TooMany(i.attempts + failed, i.lastSuccess, now)))
  {
  }

  /** An entry just heard of is terrible exactly when the time it was seen is not current. */
  lemma {:induction false} JudgedWhenNew(i: Info, now: int)
    requires i.lastTry == 0 && i.lastSuccess == 0 && i.attempts == 0
    ensures IsTerrible(i, now) <==> !Current(i.time, now)
  {
  }

  /** After a connection is noted, the time of the entry is at most twenty minutes behind; noting it again changes nothing. */
  lemma {:induction false} ConnectedBringsUp(s: State, svc: Service, time: int)
    requires Names(s, svc)
    ensures var id, s' := Find(s, svc.ip).value, Connected(s, svc, time);
            && s' == s.WithInfo(id, s.info[id].(time := s'.info[id].time))
            && (s'.info[id].time == time || s'.info[id].time == s.info[id].time)
            && time - 1200 <= s'.info[id].time && (s.info[id].time < time - 1200 <==> s'.info[id].time != s.info[id].time)
            && Connected(s', svc, time) == s'
  {
    var id := Find(s, svc.ip).value;
    assert s.WithInfo(id, s.info[id]) == s;
  }

  /** The services set last are the ones recorded, for the service named only. */
  lemma {:induction false} ServicesAreSet(s: State, svc: Service, first: bv64, last: bv64)
    ensures SetServices(SetServices(s, svc, first), svc, last) == SetServices(s, svc, last)
    ensures Names(s, svc) ==> var id, s' := Find(s, svc.ip).value, SetServices(s, svc, last);
              s'.info[id].services == last && s' == s.WithInfo(id, s.info[id].(services := last))
    ensures !Names(s, svc) ==> SetServices(s, svc, last) == s
  {
    if Names(s, svc) {
      var id := Find(s, svc.ip).value;
      var i := s.info[id];
      InfoSetTwice(s, id, i.(services := first), i.(services := last));
    }
  }

  lemma {:induction false} InfoSetTwice(s: State, id: int, i: Info, i': Info)
    requires id in s.info
    ensures s.WithInfo(id, i).WithInfo(id, i') == s.WithInfo(id, i')
  {
    assert s.info[id := i][id := i'] == s.info[id := i'];
  }

  // ----- asserts -----

  /** With vRandom and the tables in order, Delete asserts exactly that the entry is known, not in tried and without a reference. */
  lemma {:induction false} DeleteAssertsIff(s: State, id: int)
    requires RandomOk(s)
    ensures Delete(s, id).Some? <==> id in s.info && !s.info[id].inTried && s.info[id].refCount == 0
  {
    hide SwapRandom;
    if id in s.info && !s.info[id].inTried && s.info[id].refCount == 0 { DeleteKeeps(s, id); }
  }

  /** And ClearNew that the occupant of the slot, if there is one, has a reference. */
  lemma {:induction false} ClearAssertsIff(s: State, slot: Slot)
    requires RandomOk(s) && NewOk(s)
    ensures ClearNew(s, slot).Some? <==> slot !in s.news || s.info[s.news[slot]].refCount > 0
  {
    hide Delete;
    if slot in s.news && s.info[s.news[slot]].refCount > 0 { ClearNewKeeps(s, slot); }
  }

  // ----- files -----

  /** The six tokens at the start of a file. */
  predicate Opens(t: Stream) {
    |t| >= 6 && t[0].Byte? && t[1].Byte? && t[2].Key? && t[3].Number? && t[4].Number? && t[5].Number?
  }

  /**
   * The start of a file is accepted if and only if the key has 32 bytes and there are at most 65536 new and 16384 tried
   * entries; its table is used if and only if the version is 1 and the number of buckets is 1024 with bit 30 set.
   */
  lemma {:induction false} HeaderReadIff(t: Stream)
    ensures ReadHeader(t).Some? <==> Opens(t) && t[1].b == 32 && t[3].i <= 65536 && t[4].i <= 16384
    ensures ReadHeader(t).Some? ==>
              var (h, rest) := ReadHeader(t).value;
              && h.key == t[2].k && h.nNew == t[3].i && h.nTried == t[4].i && rest == t[6..]
              && (UsesTable(h) <==> t[0].b == 1 && t[5].i == 1024 + 0x4000_0000)
  {
  }

  /** Only entries numbered below n have been read. */
  ghost predicate Below(s: State, n: int) {
    (forall id | id in s.info :: id < n) && (forall slot | slot in s.news :: s.news[slot] < n)
  }

  /** Entered where it belongs, with a reference, if and only if nothing read before belongs there too. */
  lemma {:induction false} ReadHomes(s: State, h: Header, n: nat, t: Stream)
    requires ReadNew(s, h, n, t).Some? && Below(s, n)
    ensures var s' := ReadNew(s, h, n, t).value.0;
            && s'.hash == s.hash && s'.key == s.key
            && (forall slot | slot in s.news :: slot in s'.news && s'.news[slot] == s.news[slot])
            && (forall id | id in s.info :: id in s'.info && s'.info[id] == s.info[id])
            && (UsesTable(h) ==> s'.news == s.news)
            && (forall k | 0 <= k < h.nNew - n && k < |t| :: t[k].Item? && Entered(s', h, t[k].r, n + k))
    decreases h.nNew - n
  {
    hide LoadNew, UsesTable;
    if n < h.nNew {
      var s1 := LoadNew(s, h, n, t[0].r);
      LoadsHome(s, h, n, t[0].r);
      ReadHomes(s1, h, n + 1, t[1..]);
      var s' := ReadNew(s, h, n, t).value.0;
      EnteredStays(s1, s', h, t[0].r, n);
      forall k | 0 <= k < h.nNew - n && k < |t| ensures t[k].Item? && Entered(s', h, t[k].r, n + k) {
        if k > 0 { assert t[1..][k - 1] == t[k]; }
      }
    }
  }

  /** Record r was read as entry n: without a usable table its home slot is taken, and it has a reference if the slot is its own. */
  predicate Entered(s: State, h: Header, r: Record, n: int) {
    n in s.info && (!UsesTable(h) ==>
      var home := SlotFor(s, r.service, r.source);
      home in s.news && s.info[n].refCount == if s.news[home] == n then 1 else 0)
  }

  lemma {:induction false} LoadsHome(s: State, h: Header, n: nat, r: Record)
    requires Below(s, n)
    ensures var s1 := LoadNew(s, h, n, r);
            && s1.hash == s.hash && s1.key == s.key && Below(s1, n + 1)
            && (forall slot | slot in s.news :: slot in s1.news && s1.news[slot] == s.news[slot])
            && (forall id | id in s.info :: id in s1.info && s1.info[id] == s.info[id])
            && (UsesTable(h) ==> s1.news == s.news) && Entered(s1, h, r, n)
  {
  }

  lemma {:induction false} EnteredStays(s: State, s': State, h: Header, r: Record, n: int)
    requires Entered(s, h, r, n) && s'.hash == s.hash && s'.key == s.key
    requires forall slot | slot in s.news :: slot in s'.news && s'.news[slot] == s.news[slot]
    requires forall id | id in s.info :: id in s'.info && s'.info[id] == s.info[id]
    ensures Entered(s', h, r, n)
  {
  }
}
