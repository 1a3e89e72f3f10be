/** The serialized form of the address manager, and the proof that loading it restores everything up to renumbering. */
module AddrSerial {
  import opened Wrappers
  import opened AddrModel
  import opened AddrInv

  /** What is written of an entry. */
  datatype Record = Record(service: Service, services: bv64, time: int, source: nat, lastSuccess: int, attempts: int)

  datatype Token = Byte(b: nat) | Key(k: nat) | Number(i: int) | Item(r: Record)

  type Stream = seq<Token>

  const FORMAT_BIT := 0x4000_0000

  /** Exclusive or of a 32-bit integer with 2^30. */
  function ToggleFormatBit(x: int): int {
    if (x / FORMAT_BIT) % 2 == 1 then x - FORMAT_BIT else x + FORMAT_BIT
  }

  function Persist(i: Info): Record {
    Record(i.service, i.services, i.time, i.source, i.lastSuccess, i.attempts)
  }

  /** A record just read: everything not persisted is reset. */
  function Restore(r: Record): Info {
    Info(r.service, r.services, r.time, r.source, 0, 0, r.lastSuccess, r.attempts, 0, false, -1)
  }

  // ----- writing -----

  /** The ids below n that have references, in map order: the position in this list is the number an id is written as. */
  function NewBelow(info: map<int, Info>, n: nat): seq<int> {
    if n == 0 then []
    else NewBelow(info, n - 1) + if n - 1 in info && info[n - 1].refCount != 0 then [n - 1] else []
  }

  function TriedBelow(info: map<int, Info>, n: nat): seq<int> {
    if n == 0 then []
    else TriedBelow(info, n - 1) + if n - 1 in info && info[n - 1].inTried then [n - 1] else []
  }

  function Items(info: map<int, Info>, ids: seq<int>): Stream
    requires forall k | 0 <= k < |ids| :: ids[k] in info
  {
    if ids == [] then [] else [Item(Persist(info[ids[0]]))] + Items(info, ids[1..])
  }

  /** The number the new table's ids are written as. */
  function NewNumber(info: map<int, Info>, id: int): nat {
    if id < 0 then 0 else |NewBelow(info, id)|
  }

  /** The numbers of one bucket from position i on. */
  function RowFrom(s: State, b: nat, i: nat): seq<int>
    decreases BUCKET_SIZE - i
  {
    if i >= BUCKET_SIZE then []
    else (if (b, i) in s.news then [NewNumber(s.info, s.news[(b, i)])] else []) + RowFrom(s, b, i + 1)
  }

  function Numbers(q: seq<int>): (r: Stream)
    ensures |r| == |q|
  {
    if q == [] then [] else [Number(q[0])] + Numbers(q[1..])
  }

  function RowsFrom(s: State, b: nat): Stream
    decreases NEW_BUCKETS - b
  {
    if b >= NEW_BUCKETS then []
    else var row := RowFrom(s, b, 0); [Number(|row|)] + Numbers(row) + RowsFrom(s, b + 1)
  }

  predicate AllNew(info: map<int, Info>, q: seq<int>, n: nat) {
    forall k | 0 <= k < |q| :: 0 <= q[k] < n && q[k] in info && info[q[k]].refCount != 0
  }

  predicate AllTried(info: map<int, Info>, q: seq<int>, n: nat) {
    forall k | 0 <= k < |q| :: 0 <= q[k] < n && q[k] in info && info[q[k]].inTried
  }

  lemma {:induction false} BelowKnown(info: map<int, Info>, n: nat)
    ensures AllNew(info, NewBelow(info, n), n) && AllTried(info, TriedBelow(info, n), n)
  {
    if n > 0 {
      BelowKnown(info, n - 1);
      var news, trieds := NewBelow(info, n - 1), TriedBelow(info, n - 1);
      assert AllNew(info, news, n) && AllTried(info, trieds, n);
    }
  }

  lemma {:induction false} ItemsGrow(info: map<int, Info>, q: seq<int>, id: int)
    requires (forall k | 0 <= k < |q| :: q[k] in info) && id in info
    ensures forall k | 0 <= k < |q + [id]| :: (q + [id])[k] in info
    ensures Items(info, q + [id]) == Items(info, q) + [Item(Persist(info[id]))]
  {
    if q == [] {
      assert q + [id] == [id];
    } else {
      ItemsGrow(info, q[1..], id);
      assert (q + [id])[1..] == q[1..] + [id];
    }
  }

  function NewItems(info: map<int, Info>, n: nat): Stream {
    BelowKnown(info, n);
    Items(info, NewBelow(info, n))
  }

  function TriedItems(info: map<int, Info>, n: nat): Stream {
    BelowKnown(info, n);
    Items(info, TriedBelow(info, n))
  }

  lemma {:induction false} NewItemsStep(info: map<int, Info>, n: nat)
    ensures NewItems(info, 0) == [] && NewBelow(info, 0) == []
    ensures var some := n in info && info[n].refCount != 0;
            && |NewBelow(info, n + 1)| == |NewBelow(info, n)| + (if some then 1 else 0)
            && NewItems(info, n + 1) == NewItems(info, n) + if some then [Item(Persist(info[n]))] else []
  {
    BelowKnown(info, n);
    if n in info && info[n].refCount != 0 {
      ItemsGrow(info, NewBelow(info, n), n);
    } else {
      assert NewBelow(info, n + 1) == NewBelow(info, n);
    }
  }

  lemma {:induction false} TriedItemsStep(info: map<int, Info>, n: nat)
    ensures TriedItems(info, 0) == [] && TriedBelow(info, 0) == []
    ensures var some := n in info && info[n].inTried;
            && |TriedBelow(info, n + 1)| == |TriedBelow(info, n)| + (if some then 1 else 0)
            && TriedItems(info, n + 1) == TriedItems(info, n) + if some then [Item(Persist(info[n]))] else []
  {
    BelowKnown(info, n);
    if n in info && info[n].inTried {
      ItemsGrow(info, TriedBelow(info, n), n);
    } else {
      assert TriedBelow(info, n + 1) == TriedBelow(info, n);
    }
  }

  lemma {:induction false} RowStep(s: State, b: nat, i: nat)
    requires i < BUCKET_SIZE
    ensures RowFrom(s, b, BUCKET_SIZE) == []
    ensures var rest := RowFrom(s, b, i + 1);
            && RowFrom(s, b, i) == (if (b, i) in s.news then [NewNumber(s.info, s.news[(b, i)])] else []) + rest
            && Numbers(RowFrom(s, b, i))
               == (if (b, i) in s.news then [Number(NewNumber(s.info, s.news[(b, i)]))] else []) + Numbers(rest)
  {
    if (b, i) in s.news {
      NumbersHead(NewNumber(s.info, s.news[(b, i)]), RowFrom(s, b, i + 1));
    } else {
      assert RowFrom(s, b, i) == RowFrom(s, b, i + 1);
    }
  }

  lemma {:induction false} NumbersHead(x: int, q: seq<int>)
    ensures Numbers([x] + q) == [Number(x)] + Numbers(q)
  {
    assert ([x] + q)[1..] == q;
  }

  function Serialize(s: State): Stream {
    [Byte(1), Byte(32), Key(s.key), Number(s.nNew), Number(s.nTried), Number(NEW_BUCKETS + FORMAT_BIT)]
    + NewItems(s.info, s.idCount) + TriedItems(s.info, s.idCount) + RowsFrom(s, 0)
  }

  // ----- reading; None is a stream failure or a failed assert -----

  datatype Header = Header(version: nat, key: nat, nNew: int, nTried: int, buckets: int)

  function ReadHeader(t: Stream): Option<(Header, Stream)> {
    if |t| < 6 || !t[0].Byte? || !t[1].Byte? || t[1].b != 32 || !t[2].Key? || !t[3].Number? || !t[4].Number? || !t[5].Number?
    then None
    else
      var buckets := if t[0].b != 0 then ToggleFormatBit(t[5].i) else t[5].i;
      if t[3].i > NEW_BUCKETS * BUCKET_SIZE || t[4].i > TRIED_BUCKETS * BUCKET_SIZE then None
      else Some((Header(t[0].b, t[2].k, t[3].i, t[4].i, buckets), t[6..]))
  }

  predicate UsesTable(h: Header) {
    h.version == 1 && h.buckets == NEW_BUCKETS
  }

  /** One entry of the new table, numbered n. */
  function LoadNew(s: State, h: Header, n: int, r: Record): State {
    var i := Restore(r).(randomPos := |s.random|);
    var home := s.NewSlot(r.service, s.NewBucket(r.service, r.source));
    var placed := !UsesTable(h) && home !in s.news;
    s.(info := s.info[n := if placed then i.(refCount := 1) else i],
       addr := s.addr[r.service.ip := n],
       random := s.random + [n],
       news := if placed then s.news[home := n] else s.news)
  }

  function ReadNew(s: State, h: Header, n: nat, t: Stream): Option<(State, Stream)>
    decreases h.nNew - n
  {
    if n >= h.nNew then Some((s, t))
    else if t == [] || !t[0].Item? then None
    else ReadNew(LoadNew(s, h, n, t[0].r), h, n + 1, t[1..])
  }

  /** One entry of the tried table; it is dropped when its slot is already taken. */
  function LoadTried(s: State, r: Record): State {
    var slot := s.TriedSlot(r.service);
    if slot in s.tried then s.(nTried := s.nTried - 1)
    else
      var id := s.idCount;
      s.(info := s.info[id := Restore(r).(randomPos := |s.random|, inTried := true)],
         addr := s.addr[r.service.ip := id],
         random := s.random + [id],
         tried := s.tried[slot := id],
         idCount := id + 1)
  }

  function ReadTried(s: State, h: Header, n: nat, t: Stream): Option<(State, Stream)>
    decreases h.nTried - n
  {
    if n >= h.nTried then Some((s, t))
    else if t == [] || !t[0].Item? then None
    else ReadTried(LoadTried(s, t[0].r), h, n + 1, t[1..])
  }

  /** One reference of bucket b. */
  function LoadRef(s: State, h: Header, b: nat, number: int): State {
    if 0 <= number < h.nNew && number in s.info then
      var slot := s.NewSlot(s.info[number].service, b);
      if UsesTable(h) && slot !in s.news && s.info[number].refCount < BUCKETS_PER_ADDRESS
      then PutNew(s, number, slot, s.info[number].refCount + 1)
      else s
    else s
  }

  function ReadRow(s: State, h: Header, b: nat, left: int, t: Stream): Option<(State, Stream)>
    decreases left
  {
    if left <= 0 then Some((s, t))
    else if t == [] || !t[0].Number? then None
    else ReadRow(LoadRef(s, h, b, t[0].i), h, b, left - 1, t[1..])
  }

  function ReadRows(s: State, h: Header, b: nat, t: Stream): Option<(State, Stream)>
    decreases h.buckets - b
  {
    if b >= h.buckets then Some((s, t))
    else if t == [] || !t[0].Number? then None
    else
      var r :- ReadRow(s, h, b, t[0].i, t[1..]);
      ReadRows(r.0, h, b + 1, r.1)
  }

  /** Delete the entries that ended up without a reference. */
  function Prune(s: State, ids: seq<int>): Option<State>
    decreases |ids|
  {
    if ids == [] then Some(s)
    else if ids[0] in s.info && !s.info[ids[0]].inTried && s.info[ids[0]].refCount == 0 then
      var s1 :- Delete(s, ids[0]);
      Prune(s1, ids[1..])
    else Prune(s, ids[1..])
  }

  function Range(n: nat): (r: seq<int>)
    ensures |r| == n && forall k | 0 <= k < n :: r[k] == k
  {
    seq(n, k => k)
  }

  /** Unserialize into a freshly constructed manager. */
  function Unserialize(hash: Hashing, t: Stream): Option<State> {
    var r0 :- ReadHeader(t);
    var h := r0.0;
    var s0 := Fresh(hash, h.key).(nNew := h.nNew, nTried := h.nTried);
    var r1 :- ReadNew(s0, h, 0, r0.1);
    var s1 := r1.0.(idCount := if h.nNew > 0 then h.nNew else 0);
    var r2 :- ReadTried(s1, h, 0, r1.1);
    var r3 :- ReadRows(r2.0, h, 0, r2.1);
    Prune(r3.0, Range(r3.0.idCount))
  }

  /** Clear: everything but the two maps. */
  function Emptied(s: State, key: nat): State {
    Fresh(s.hash, key).(info := s.info, addr := s.addr)
  }

  /** Clearing leaves a consistent manager exactly when there was nothing to clear away. */
  lemma {:induction false} EmptiedInvIff(s: State, key: nat)
    ensures Inv(Emptied(s, key)) <==> s.info == map[] && s.addr == map[]
  {
    var s' := Emptied(s, key);
    if Inv(s') {
      assert forall id :: id !in s'.info;
      assert forall ip :: ip !in s'.addr;
      assert s'.info == map[] && s'.addr == map[];
    }
    if s.info == map[] && s.addr == map[] { FreshInv(s.hash, key); }
  }

  // ----- any stream at all -----

  /** What holds of the shuffle while entries are being read, whatever the stream says. */
  ghost predicate Shuffled(s: State) {
    RandomOk(s) && forall id | id in s.info :: 0 <= id < s.idCount
  }

  lemma {:induction false} LoadNewShuffled(s: State, h: Header, n: nat, r: Record)
    requires RandomOk(s) && (forall id | id in s.info :: 0 <= id < n)
    ensures var s' := LoadNew(s, h, n, r); RandomOk(s') && forall id | id in s'.info :: 0 <= id < n + 1
  {
  }

  lemma {:induction false} ReadNewShuffled(s: State, h: Header, n: nat, t: Stream)
    requires RandomOk(s) && (forall id | id in s.info :: 0 <= id < n) && (n == 0 || n <= h.nNew)
    ensures ReadNew(s, h, n, t).Some? ==>
              var s' := ReadNew(s, h, n, t).value.0;
              RandomOk(s') && s'.hash == s.hash && s'.key == s.key &&
              forall id | id in s'.info :: 0 <= id < if h.nNew > 0 then h.nNew else 0
    decreases h.nNew - n
  {
    hide LoadNew;
    if n < h.nNew && t != [] && t[0].Item? {
      LoadNewShuffled(s, h, n, t[0].r);
      LoadNewFrame(s, h, n, t[0].r);
      ReadNewShuffled(LoadNew(s, h, n, t[0].r), h, n + 1, t[1..]);
    }
  }

  lemma {:induction false} LoadNewFrame(s: State, h: Header, n: nat, r: Record)
    ensures LoadNew(s, h, n, r).hash == s.hash && LoadNew(s, h, n, r).key == s.key
  {
  }

  lemma {:induction false} LoadTriedShuffled(s: State, r: Record)
    requires Shuffled(s)
    ensures Shuffled(LoadTried(s, r))
  {
  }

  lemma {:induction false} ReadTriedShuffled(s: State, h: Header, n: nat, t: Stream)
    requires Shuffled(s)
    ensures ReadTried(s, h, n, t).Some? ==> Shuffled(ReadTried(s, h, n, t).value.0)
    decreases h.nTried - n
  {
    hide LoadTried, Shuffled;
    if n < h.nTried && t != [] && t[0].Item? {
      LoadTriedShuffled(s, t[0].r);
      ReadTriedShuffled(LoadTried(s, t[0].r), h, n + 1, t[1..]);
    }
  }

  lemma {:induction false} LoadRefShuffled(s: State, h: Header, b: nat, number: int)
    requires Shuffled(s)
    ensures Shuffled(LoadRef(s, h, b, number))
  {
  }

  lemma {:induction false} ReadRowShuffled(s: State, h: Header, b: nat, left: int, t: Stream)
    requires Shuffled(s)
    ensures ReadRow(s, h, b, left, t).Some? ==> Shuffled(ReadRow(s, h, b, left, t).value.0)
    decreases left
  {
    hide LoadRef, Shuffled;
    if left > 0 && t != [] && t[0].Number? {
      LoadRefShuffled(s, h, b, t[0].i);
      ReadRowShuffled(LoadRef(s, h, b, t[0].i), h, b, left - 1, t[1..]);
    }
  }

  lemma {:induction false} ReadRowsShuffled(s: State, h: Header, b: nat, t: Stream)
    requires Shuffled(s)
    ensures ReadRows(s, h, b, t).Some? ==> Shuffled(ReadRows(s, h, b, t).value.0)
    decreases h.buckets - b
  {
    hide ReadRow, Shuffled;
    if b < h.buckets && t != [] && t[0].Number? {
      ReadRowShuffled(s, h, b, t[0].i, t[1..]);
      var r := ReadRow(s, h, b, t[0].i, t[1..]);
      if r.Some? { ReadRowsShuffled(r.value.0, h, b + 1, r.value.1); }
    }
  }

  /** Pruning never trips an assert of Delete. */
  lemma {:induction false} PruneSucceeds(s: State, ids: seq<int>)
    requires RandomOk(s)
    ensures Prune(s, ids).Some?
    decreases |ids|
  {
    hide Delete, RandomOk;
    if ids != [] {
      if ids[0] in s.info && !s.info[ids[0]].inTried && s.info[ids[0]].refCount == 0 {
        var _ := DeleteEffect(s, ids[0]);
        PruneSucceeds(Delete(s, ids[0]).value, ids[1..]);
      } else {
        PruneSucceeds(s, ids[1..]);
      }
    }
  }

  /** The part of Unserialize that reads. */
  function ReadAll(hash: Hashing, t: Stream): Option<State> {
    var r0 :- ReadHeader(t);
    var h := r0.0;
    var s0 := Fresh(hash, h.key).(nNew := h.nNew, nTried := h.nTried);
    var r1 :- ReadNew(s0, h, 0, r0.1);
    var s1 := r1.0.(idCount := if h.nNew > 0 then h.nNew else 0);
    var r2 :- ReadTried(s1, h, 0, r1.1);
    var r3 :- ReadRows(r2.0, h, 0, r2.1);
    Some(r3.0)
  }

  lemma {:induction false} ReadAllShuffled(hash: Hashing, t: Stream)
    ensures ReadAll(hash, t).Some? ==> Shuffled(ReadAll(hash, t).value)
  {
    hide ReadHeader, ReadNew, ReadTried, ReadRows;
    if ReadHeader(t).Some? {
      var (h, t1) := ReadHeader(t).value;
      var s0 := Fresh(hash, h.key).(nNew := h.nNew, nTried := h.nTried);
      ReadNewShuffled(s0, h, 0, t1);
      if ReadNew(s0, h, 0, t1).Some? {
        var (s1, t2) := ReadNew(s0, h, 0, t1).value;
        var s1' := s1.(idCount := if h.nNew > 0 then h.nNew else 0);
        ReadTriedShuffled(s1', h, 0, t2);
        if ReadTried(s1', h, 0, t2).Some? {
          var (s2, t3) := ReadTried(s1', h, 0, t2).value;
          ReadRowsShuffled(s2, h, 0, t3);
        }
      }
    }
  }

  /** Whatever the stream, loading fails only where the stream does: no assert of the manager can fire. */
  lemma {:induction false} LoadingNeverAsserts(hash: Hashing, t: Stream)
    ensures Unserialize(hash, t).None? <==> ReadAll(hash, t).None?
  {
    hide ReadHeader, ReadNew, ReadTried, ReadRows, Prune;
    ReadAllShuffled(hash, t);
    if ReadAll(hash, t).Some? { PruneSucceeds(ReadAll(hash, t).value, Range(ReadAll(hash, t).value.idCount)); }
  }
}
