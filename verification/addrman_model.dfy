/**
 * The address manager as a value: its maps, tables and counters, and every operation as a
 * function. A result of None is a failed assert.
 */
module AddrModel {
  import opened Wrappers

  const TRIED_BUCKETS: nat := 256
  const NEW_BUCKETS: nat := 1024
  const BUCKET_SIZE: nat := 64
  const BUCKETS_PER_ADDRESS: nat := 8
  const HORIZON_DAYS := 30
  const RETRIES := 3
  const MAX_FAILURES := 10
  const MIN_FAIL_DAYS := 7
  const DAY := 24 * 60 * 60

  /** An address and a port; entries are found by address alone. */
  datatype Service = Service(ip: nat, port: nat)

  datatype Address = Address(service: Service, services: bv64, time: int)

  datatype Info = Info(
    service: Service, services: bv64, time: int, source: nat,
    lastTry: int, lastCountAttempt: int, lastSuccess: int, attempts: int,
    refCount: int, inTried: bool, randomPos: int)

  function NewInfo(a: Address, source: nat): Info {
    Info(a.service, a.services, a.time, source, 0, 0, 0, 0, 0, false, -1)
  }

  predicate IsTerrible(i: Info, now: int) {
    if i.lastTry != 0 && i.lastTry >= now - 60 then false
    else if i.time > now + 10 * 60 then true
    else if i.time == 0 || now - i.time > HORIZON_DAYS * DAY then true
    else if i.lastSuccess == 0 && i.attempts >= RETRIES then true
    else now - i.lastSuccess > MIN_FAIL_DAYS * DAY && i.attempts >= MAX_FAILURES
  }

  /** The keyed hashes that decide buckets and positions, before reduction to the table sizes. */
  datatype Hashing = Hashing(
    tried: (nat, Service) -> nat,
    fromSource: (nat, Service, nat) -> nat,
    position: (nat, bool, nat, Service) -> nat)

  type Slot = (nat, nat)

  /** The two tables hold the occupied slots only: a missing slot is one that holds -1. */
  datatype State = State(
    hash: Hashing, key: nat, idCount: nat,
    info: map<int, Info>, addr: map<nat, int>, random: seq<int>,
    nTried: int, tried: map<Slot, int>, nNew: int, news: map<Slot, int>, lastGood: int)
  {
    function TriedSlot(svc: Service): Slot {
      var b := hash.tried(key, svc) % TRIED_BUCKETS;
      (b, hash.position(key, false, b, svc) % BUCKET_SIZE)
    }

    function NewBucket(svc: Service, source: nat): nat {
      hash.fromSource(key, svc, source) % NEW_BUCKETS
    }

    function NewSlot(svc: Service, b: nat): Slot {
      (b, hash.position(key, true, b, svc) % BUCKET_SIZE)
    }

    function WithInfo(id: int, i: Info): State {
      this.(info := info[id := i])
    }
  }

  function Fresh(hash: Hashing, key: nat): State {
    State(hash, key, 0, map[], map[], [], 0, map[], 0, map[], 1)
  }

  function Find(s: State, ip: nat): Option<int> {
    if ip in s.addr && s.addr[ip] in s.info then Some(s.addr[ip]) else None
  }

  /** The new entry gets the next id. */
  function Create(s: State, a: Address, source: nat): State {
    s.(idCount := s.idCount + 1,
       info := s.info[s.idCount := NewInfo(a, source).(randomPos := |s.random|)],
       addr := s.addr[a.service.ip := s.idCount],
       random := s.random + [s.idCount])
  }

  function SwapRandom(s: State, p1: int, p2: int): Option<State> {
    if p1 == p2 then Some(s)
    else if !(0 <= p1 < |s.random| && 0 <= p2 < |s.random|) then None
    else
      var id1, id2 := s.random[p1], s.random[p2];
      if id1 !in s.info || id2 !in s.info then None else
      var info1 := s.info[id1 := s.info[id1].(randomPos := p2)];
      Some(s.(info := info1[id2 := info1[id2].(randomPos := p1)],
              random := s.random[p1 := id2][p2 := id1]))
  }

  function Delete(s: State, id: int): Option<State> {
    if id !in s.info || s.info[id].inTried || s.info[id].refCount != 0 || s.random == [] then None else
    var ip := s.info[id].service.ip;
    var s1 :- SwapRandom(s, s.info[id].randomPos, |s.random| - 1);
    Some(s1.(random := s1.random[..|s1.random| - 1], addr := s1.addr - {ip}, info := s1.info - {id}, nNew := s1.nNew - 1))
  }

  function ClearNew(s: State, slot: Slot): Option<State> {
    if slot !in s.news then Some(s) else
    var id := s.news[slot];
    if id !in s.info || s.info[id].refCount <= 0 then None else
    var i := s.info[id].(refCount := s.info[id].refCount - 1);
    var s1 := s.WithInfo(id, i).(news := s.news - {slot});
    if i.refCount == 0 then Delete(s1, id) else Some(s1)
  }

  /** One iteration of the first loop of MakeTried. */
  function DropRef(s: State, id: int, b: nat): (r: State)
    requires id in s.info
    ensures id in r.info
  {
    var slot := s.NewSlot(s.info[id].service, b);
    if slot in s.news && s.news[slot] == id then
      s.WithInfo(id, s.info[id].(refCount := s.info[id].refCount - 1)).(news := s.news - {slot})
    else s
  }

  /** The first loop of MakeTried, from bucket b on. */
  function DropRefs(s: State, id: int, b: nat): (r: State)
    requires id in s.info
    ensures id in r.info
    decreases NEW_BUCKETS - b
  {
    if b >= NEW_BUCKETS then s else DropRefs(DropRef(s, id, b), id, b + 1)
  }

  /** Put an entry into a free slot of the new table, with the reference count it then has. */
  function PutNew(s: State, id: int, slot: Slot, refCount: int): State
    requires id in s.info
  {
    s.WithInfo(id, s.info[id].(refCount := refCount)).(news := s.news[slot := id])
  }

  /** Remove the occupant of a slot from the tried table. */
  function TakeOut(s: State, slot: Slot): State
    requires slot in s.tried && s.tried[slot] in s.info
  {
    var out := s.tried[slot];
    s.WithInfo(out, s.info[out].(inTried := false)).(tried := s.tried - {slot}, nTried := s.nTried - 1)
  }

  /** The slot of the new table that the first source of an entry selects. */
  function Home(s: State, i: Info): Slot {
    s.NewSlot(i.service, s.NewBucket(i.service, i.source))
  }

  /** Enter an evicted entry into the new table again, clearing whatever is at its slot. */
  function Rehome(s: State, out: int): Option<State>
    requires out in s.info
  {
    var home := Home(s, s.info[out]);
    var s2 :- ClearNew(s, home);
    if home in s2.news || out !in s2.info then None else
    var s3 := PutNew(s2, out, home, 1);
    Some(s3.(nNew := s3.nNew + 1))
  }

  /** Move the occupant of a tried slot back to the new table. */
  function Evict(s: State, slot: Slot): Option<State>
    requires slot in s.tried
  {
    if s.tried[slot] !in s.info then None else Rehome(TakeOut(s, slot), s.tried[slot])
  }

  function PutTried(s: State, id: int, slot: Slot): State
    requires id in s.info
  {
    s.WithInfo(id, s.info[id].(inTried := true)).(tried := s.tried[slot := id], nTried := s.nTried + 1)
  }

  /** Make space in the tried table and enter the entry there. */
  function EnterTried(s: State, id: int): Option<State>
    requires id in s.info
  {
    var slot := s.TriedSlot(s.info[id].service);
    var s2 :- if slot in s.tried then Evict(s, slot) else Some(s);
    if slot in s2.tried || id !in s2.info then None else Some(PutTried(s2, id, slot))
  }

  function MakeTried(s: State, id: int): Option<State>
    requires id in s.info
  {
    var s0 := DropRefs(s, id, 0);
    var s1 := s0.(nNew := s0.nNew - 1);
    if s1.info[id].refCount != 0 then None else EnterTried(s1, id)
  }

  /** The search of Good_ for a bucket that holds the entry, starting at a random bucket. */
  function FindBucket(s: State, id: int, start: nat, n: nat): Option<nat>
    requires id in s.info
    decreases NEW_BUCKETS - n
  {
    if n >= NEW_BUCKETS then None else
    var b := (n + start) % NEW_BUCKETS;
    var slot := s.NewSlot(s.info[id].service, b);
    if slot in s.news && s.news[slot] == id then Some(b) else FindBucket(s, id, start, n + 1)
  }

  function Good(s: State, svc: Service, time: int, start: nat): Option<State> {
    var s0 := s.(lastGood := time);
    match Find(s0, svc.ip)
    case None => Some(s0)
    case Some(id) =>
      var i := s0.info[id];
      if i.service != svc then Some(s0) else
      var s1 := s0.WithInfo(id, i.(lastSuccess := time, lastTry := time, attempts := 0));
      if i.inTried then Some(s1)
      else if FindBucket(s1, id, start, 0).None? then Some(s1)
      else MakeTried(s1, id)
  }

  /** What Add_ does to an entry it already knows, before deciding whether to reference it once more. */
  function Refresh(i: Info, a: Address, penalty: int, now: int): Info {
    var interval := if now - a.time < DAY then 60 * 60 else DAY;
    var time := if a.time != 0 && (i.time == 0 || i.time < a.time - interval - penalty)
                then (if a.time - penalty > 0 then a.time - penalty else 0) else i.time;
    i.(time := time, services := i.services | a.services)
  }

  /** Whether an entry may take a slot: it is free, or its occupant is terrible or referenced elsewhere too. */
  function MayTake(s: State, id: int, slot: Slot, now: int): Option<bool>
    requires id in s.info
  {
    if slot !in s.news then Some(true)
    else if s.news[slot] !in s.info then None
    else var other := s.info[s.news[slot]];
         Some(IsTerrible(other, now) || (other.refCount > 1 && s.info[id].refCount == 0))
  }

  function TakeSlot(s: State, id: int, slot: Slot): Option<State> {
    var s1 :- ClearNew(s, slot);
    if id !in s1.info then None else Some(PutNew(s1, id, slot, s1.info[id].refCount + 1))
  }

  /** The last part of Add_: reference the entry from the bucket its source selects. */
  function Place(s: State, id: int, source: nat, now: int): Option<State>
    requires id in s.info
  {
    var i := s.info[id];
    var slot := s.NewSlot(i.service, s.NewBucket(i.service, source));
    if slot in s.news && s.news[slot] == id then Some(s) else
    var insert :- MayTake(s, id, slot, now);
    if insert then TakeSlot(s, id, slot)
    else if i.refCount == 0 then Delete(s, id)
    else Some(s)
  }

  /** Add_, with its environment: whether the address is routable, the clock, and the outcome of the draw. */
  function Add(s: State, a: Address, source: nat, timePenalty: int, routable: bool, now: int, lucky: bool): Option<(State, bool)> {
    if !routable then Some((s, false)) else
    var penalty := if a.service.ip == source then 0 else timePenalty;
    match Find(s, a.service.ip)
    case Some(id) =>
      var i := Refresh(s.info[id], a, penalty, now);
      var s1 := s.WithInfo(id, i);
      if a.time == 0 || (i.time != 0 && a.time <= i.time) then Some((s1, false))
      else if i.inTried then Some((s1, false))
      else if i.refCount == BUCKETS_PER_ADDRESS then Some((s1, false))
      else if i.refCount > 0 && !lucky then Some((s1, false))
      else
        var s2 :- Place(s1, id, source, now);
        Some((s2, false))
    case None =>
      var id := s.idCount;
      var s0 := Create(s, a, source);
      var i := s0.info[id];
      var s1 := s0.WithInfo(id, i.(time := if i.time - penalty > 0 then i.time - penalty else 0)).(nNew := s0.nNew + 1);
      var s2 :- Place(s1, id, source, now);
      Some((s2, true))
  }

  function Attempt(s: State, svc: Service, countFailure: bool, time: int): State {
    match Find(s, svc.ip)
    case None => s
    case Some(id) =>
      var i := s.info[id];
      if i.service != svc then s
      else if countFailure && i.lastCountAttempt < s.lastGood then
        s.WithInfo(id, i.(lastTry := time, lastCountAttempt := time, attempts := i.attempts + 1))
      else s.WithInfo(id, i.(lastTry := time))
  }

  function Connected(s: State, svc: Service, time: int): State {
    match Find(s, svc.ip)
    case None => s
    case Some(id) =>
      var i := s.info[id];
      if i.service != svc then s
      else if time - i.time > 20 * 60 then s.WithInfo(id, i.(time := time)) else s
  }

  function SetServices(s: State, svc: Service, services: bv64): State {
    match Find(s, svc.ip)
    case None => s
    case Some(id) => if s.info[id].service != svc then s else s.WithInfo(id, s.info[id].(services := services))
  }

  /** The position a draw selects among those from n on. */
  function Drawn(draw: nat, n: nat, size: nat): (p: nat)
    requires n < size
    ensures n <= p < size
  {
    draw % (size - n) + n
  }

  /** GetAddr_ from position n on: a partial shuffle of vRandom driven by the draws. */
  function GetAddr(s: State, n: nat, want: nat, draws: seq<nat>, now: int, got: seq<Info>): Option<(State, seq<Info>)>
    decreases |draws|
  {
    if n >= |s.random| || |got| >= want || draws == [] then Some((s, got)) else
    var s1 :- SwapRandom(s, n, Drawn(draws[0], n, |s.random|));
    if n >= |s1.random| || s1.random[n] !in s1.info then None else
    var i := s1.info[s1.random[n]];
    GetAddr(s1, n + 1, want, draws[1..], now, if IsTerrible(i, now) then got else got + [i])
  }
}
