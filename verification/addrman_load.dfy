/** Which streams load to a consistent manager: exactly those whose counts are not negative and whose kept addresses are not shared. */
module AddrLoading {
  import opened Wrappers
  import opened AddrModel
  import opened AddrInv
  import opened AddrSerial

  // ----- what holds while a stream is read, whatever it says -----

  ghost predicate Bounded(s: State) {
    forall id | id in s.info :: if s.info[id].inTried then s.info[id].refCount == 0 else s.info[id].refCount <= BUCKETS_PER_ADDRESS
  }

  /** Everything but the addresses and the counters. */
  ghost predicate Tables(s: State, n: int) {
    && (forall id | id in s.info :: 0 <= id < n)
    && RandomOk(s) && TriedOk(s) && NewOk(s) && AllRefsOk(s) && Bounded(s)
  }

  /** Every address is known, and leads to one of its entries. */
  ghost predicate AddrLast(s: State) {
    && (forall id | id in s.info :: s.info[id].service.ip in s.addr)
    && (forall ip | ip in s.addr :: s.addr[ip] in s.info && s.info[s.addr[ip]].service.ip == ip)
  }

  /** One more entry, in no table yet or in tried at its own free slot. */
  ghost predicate Appended(s: State, s': State, id: int) {
    && id !in s.info && id in s'.info && s'.info == s.info[id := s'.info[id]]
    && s'.hash == s.hash && s'.key == s.key && s'.news == s.news && s'.nNew == s.nNew && s'.nTried == s.nTried
    && s'.addr == s.addr[s'.info[id].service.ip := id]
    && s'.random == s.random + [id] && s'.info[id].randomPos == |s.random| && s'.info[id].refCount == 0
    && (if s'.info[id].inTried
        then s.TriedSlot(s'.info[id].service) !in s.tried && s'.tried == s.tried[s.TriedSlot(s'.info[id].service) := id]
        else s'.tried == s.tried)
  }

  lemma {:induction false} AppendedRegistry(s: State, s': State, id: int)
    requires Appended(s, s', id) && RandomOk(s) && AddrLast(s)
    ensures RandomOk(s') && AddrLast(s')
  {
  }

  lemma {:induction false} AppendedTables(s: State, s': State, id: int)
    requires Appended(s, s', id) && TriedOk(s) && NewOk(s) && Bounded(s)
    ensures TriedOk(s') && NewOk(s') && Bounded(s')
  {
  }

  lemma {:induction false} AppendedRefs(s: State, s': State, id: int)
    requires Appended(s, s', id) && NewOk(s) && AllRefsOk(s)
    ensures AllRefsOk(s')
  {
    forall x | x in s'.info ensures RefsOk(s', x) {
      if x == id {
        assert forall b: nat :: !Holds(s', id, b);
        assert Buckets(s', id) == {};
      } else {
        RefsSame(s, s', x);
      }
    }
  }

  lemma {:induction false} AppendedOk(s: State, s': State, id: int, n: int)
    requires Appended(s, s', id) && Tables(s, n) && AddrLast(s) && 0 <= id <= n
    ensures Tables(s', n + 1) && AddrLast(s')
  {
    hide RandomOk, TriedOk, NewOk, AllRefsOk, Bounded, AddrLast;
    AppendedRegistry(s, s', id);
    AppendedTables(s, s', id);
    AppendedRefs(s, s', id);
  }

  lemma {:induction false} AppendedCounts(s: State, s': State, id: int)
    requires id !in s.info && id in s'.info && s'.info == s.info[id := s'.info[id]]
    ensures |TriedIds(s')| == |TriedIds(s)| + if s'.info[id].inTried then 1 else 0
    ensures |NewIds(s')| == |NewIds(s)| + if s'.info[id].inTried then 0 else 1
  {
    if s'.info[id].inTried {
      AppendedTried(s, s', id);
    } else {
      AppendedNew(s, s', id);
    }
    hide TriedIds, NewIds;
  }

  lemma {:induction false} AppendedTried(s: State, s': State, id: int)
    requires id !in s.info && id in s'.info && s'.info == s.info[id := s'.info[id]] && s'.info[id].inTried
    ensures TriedIds(s') == TriedIds(s) + {id} && id !in TriedIds(s) && NewIds(s') == NewIds(s)
  {
    forall x ensures x in TriedIds(s') <==> x in TriedIds(s) + {id} {}
    forall x ensures x in NewIds(s') <==> x in NewIds(s) {}
  }

  lemma {:induction false} AppendedNew(s: State, s': State, id: int)
    requires id !in s.info && id in s'.info && s'.info == s.info[id := s'.info[id]] && !s'.info[id].inTried
    ensures NewIds(s') == NewIds(s) + {id} && id !in NewIds(s) && TriedIds(s') == TriedIds(s)
  {
    forall x ensures x in NewIds(s') <==> x in NewIds(s) + {id} {}
    forall x ensures x in TriedIds(s') <==> x in TriedIds(s) {}
  }

  /** A new entry takes one more free slot of its own. */
  lemma {:induction false} PutOk(s: State, id: int, slot: Slot, n: int)
    requires Tables(s, n) && AddrLast(s) && id in s.info && !s.info[id].inTried && s.info[id].refCount < BUCKETS_PER_ADDRESS
    requires slot !in s.news && slot.0 < NEW_BUCKETS && slot == s.NewSlot(s.info[id].service, slot.0)
    ensures var s' := PutNew(s, id, slot, s.info[id].refCount + 1);
            Tables(s', n) && AddrLast(s') && TriedIds(s') == TriedIds(s) && NewIds(s') == NewIds(s)
  {
    hide RandomOk, TriedOk, NewOk, AddrOk, IdsOk, Bounded, AddrLast, Buckets, TriedIds, NewIds;
    var s' := PutNew(s, id, slot, s.info[id].refCount + 1);
    assert s'.info.Keys == s.info.Keys;
    assert RefsOk(s, id);
    RetabledOk(s, s', id);
    PutNewTables(s, id, slot);
    PutNewRefs(s, id, slot);
    OtherRefs(s, s', id);
    PutRest(s, s', id);
  }

  lemma {:induction false} PutRest(s: State, s': State, id: int)
    requires Retabled(s, s', id) && AddrLast(s) && Bounded(s)
    requires !s.info[id].inTried && !s'.info[id].inTried && s'.info[id].refCount <= BUCKETS_PER_ADDRESS
    ensures AddrLast(s') && Bounded(s') && TriedIds(s') == TriedIds(s) && NewIds(s') == NewIds(s)
  {
    RetabledCounts(s, s', id);
    assert id !in TriedIds(s) && id in NewIds(s);
  }

  // ----- the three parts of the stream -----

  lemma {:induction false} LoadNewOk(s: State, h: Header, n: nat, r: Record)
    requires Tables(s, n) && AddrLast(s)
    ensures var s' := LoadNew(s, h, n, r);
            && Tables(s', n + 1) && AddrLast(s') && s'.nNew == s.nNew && s'.nTried == s.nTried
            && |TriedIds(s')| == |TriedIds(s)| && |NewIds(s')| == |NewIds(s)| + 1
  {
    hide Tables, AddrLast, TriedIds, NewIds;
    var i := Restore(r).(randomPos := |s.random|);
    var s1 := s.(info := s.info[n := i], addr := s.addr[r.service.ip := n], random := s.random + [n]);
    TablesIds(s, n);
    AppendedOk(s, s1, n, n);
    AppendedCounts(s, s1, n);
    var home := s.NewSlot(r.service, s.NewBucket(r.service, r.source));
    if !UsesTable(h) && home !in s.news {
      PutOk(s1, n, home, n + 1);
      assert LoadNew(s, h, n, r) == PutNew(s1, n, home, 1);
    } else {
      assert LoadNew(s, h, n, r) == s1;
    }
  }

  lemma {:induction false} TablesIds(s: State, n: int)
    requires Tables(s, n)
    ensures n !in s.info && RandomOk(s)
  {
  }

  lemma {:induction false} ReadNewOk(s: State, h: Header, n: nat, t: Stream)
    requires Tables(s, n) && AddrLast(s) && (n == 0 || n <= h.nNew) && ReadNew(s, h, n, t).Some?
    ensures var s', n' := ReadNew(s, h, n, t).value.0, if h.nNew > 0 then h.nNew else 0;
            && Tables(s', n') && AddrLast(s') && s'.nNew == s.nNew && s'.nTried == s.nTried
            && |TriedIds(s')| == |TriedIds(s)| && |NewIds(s')| == |NewIds(s)| + (n' - n)
    decreases h.nNew - n
  {
    hide Tables, AddrLast, TriedIds, NewIds, LoadNew;
    if n < h.nNew {
      LoadNewOk(s, h, n, t[0].r);
      ReadNewOk(LoadNew(s, h, n, t[0].r), h, n + 1, t[1..]);
    }
  }

  lemma {:induction false} LoadTriedOk(s: State, r: Record)
    requires Tables(s, s.idCount) && AddrLast(s)
    ensures var s' := LoadTried(s, r);
            && Tables(s', s'.idCount) && AddrLast(s') && s'.nNew == s.nNew
            && |NewIds(s')| == |NewIds(s)| && |TriedIds(s')| - s'.nTried == |TriedIds(s)| - s.nTried + 1
  {
    var s' := LoadTried(s, r);
    if s.TriedSlot(r.service) in s.tried {
      SameEntries(s, s', s.idCount);
    } else {
      hide Tables, AddrLast, TriedIds, NewIds;
      TablesIds(s, s.idCount);
      AppendedOk(s, s', s.idCount, s.idCount);
      AppendedCounts(s, s', s.idCount);
    }
  }

  /** Only counters differ. */
  lemma {:induction false} SameEntries(s: State, s': State, n: int)
    requires Tables(s, n) && AddrLast(s) && s' == s.(nTried := s'.nTried, nNew := s'.nNew, idCount := s'.idCount)
    ensures Tables(s', n) && AddrLast(s') && TriedIds(s') == TriedIds(s) && NewIds(s') == NewIds(s)
  {
    hide Buckets;
    forall x | x in s'.info ensures RefsOk(s', x) { RefsSame(s, s', x); }
    forall x ensures x in TriedIds(s') <==> x in TriedIds(s) {}
    forall x ensures x in NewIds(s') <==> x in NewIds(s) {}
  }

  lemma {:induction false} ReadTriedOk(s: State, h: Header, n: nat, t: Stream)
    requires Tables(s, s.idCount) && AddrLast(s) && (n == 0 || n <= h.nTried) && ReadTried(s, h, n, t).Some?
    ensures var s' := ReadTried(s, h, n, t).value.0;
            && Tables(s', s'.idCount) && AddrLast(s') && s'.nNew == s.nNew && |NewIds(s')| == |NewIds(s)|
            && |TriedIds(s')| - s'.nTried == |TriedIds(s)| - s.nTried + if h.nTried > n then h.nTried - n else 0
    decreases h.nTried - n
  {
    hide Tables, AddrLast, TriedIds, NewIds, LoadTried;
    if n < h.nTried {
      LoadTriedOk(s, t[0].r);
      ReadTriedOk(LoadTried(s, t[0].r), h, n + 1, t[1..]);
    }
  }

  /** Reading references changes neither the entries there are nor the counters. */
  ghost predicate SameCounts(s: State, s': State) {
    && s'.idCount == s.idCount && s'.nNew == s.nNew && s'.nTried == s.nTried
    && TriedIds(s') == TriedIds(s) && NewIds(s') == NewIds(s)
  }

  lemma {:induction false} LoadRefOk(s: State, h: Header, b: nat, number: int)
    requires Tables(s, s.idCount) && AddrLast(s) && b < h.buckets
    requires forall id | id in s.info && id < h.nNew :: !s.info[id].inTried
    ensures var s' := LoadRef(s, h, b, number);
            && Tables(s', s'.idCount) && AddrLast(s') && SameCounts(s, s')
            && forall id | id in s'.info && id < h.nNew :: !s'.info[id].inTried
  {
    hide Tables, AddrLast, TriedIds, NewIds;
    if LoadRef(s, h, b, number) != s {
      PutOk(s, number, s.NewSlot(s.info[number].service, b), s.idCount);
    }
  }

  lemma {:induction false} ReadRowOk(s: State, h: Header, b: nat, left: int, t: Stream)
    requires Tables(s, s.idCount) && AddrLast(s) && b < h.buckets && ReadRow(s, h, b, left, t).Some?
    requires forall id | id in s.info && id < h.nNew :: !s.info[id].inTried
    ensures var s' := ReadRow(s, h, b, left, t).value.0;
            && Tables(s', s'.idCount) && AddrLast(s') && SameCounts(s, s')
            && forall id | id in s'.info && id < h.nNew :: !s'.info[id].inTried
    decreases left
  {
    hide Tables, AddrLast, TriedIds, NewIds, LoadRef;
    if left > 0 {
      LoadRefOk(s, h, b, t[0].i);
      ReadRowOk(LoadRef(s, h, b, t[0].i), h, b, left - 1, t[1..]);
    }
  }

  lemma {:induction false} ReadRowsOk(s: State, h: Header, b: nat, t: Stream)
    requires Tables(s, s.idCount) && AddrLast(s) && ReadRows(s, h, b, t).Some?
    requires forall id | id in s.info && id < h.nNew :: !s.info[id].inTried
    ensures var s' := ReadRows(s, h, b, t).value.0; Tables(s', s'.idCount) && AddrLast(s') && SameCounts(s, s')
    decreases h.buckets - b
  {
    hide Tables, AddrLast, TriedIds, NewIds, ReadRow;
    if b < h.buckets {
      ReadRowOk(s, h, b, t[0].i, t[1..]);
      var r := ReadRow(s, h, b, t[0].i, t[1..]).value;
      ReadRowsOk(r.0, h, b + 1, r.1);
    }
  }

  /** Entries below the count of new ones are not in tried. */
  lemma {:induction false} NewStayNew(s: State, h: Header, n: nat, t: Stream)
    requires ReadTried(s, h, n, t).Some? && s.idCount >= h.nNew
    requires forall id | id in s.info && id < h.nNew :: !s.info[id].inTried
    ensures forall id | id in ReadTried(s, h, n, t).value.0.info && id < h.nNew :: !ReadTried(s, h, n, t).value.0.info[id].inTried
    decreases h.nTried - n
  {
    if n < h.nTried { NewStayNew(LoadTried(s, t[0].r), h, n + 1, t[1..]); }
  }

  lemma {:induction false} NewAreNew(s: State, h: Header, n: nat, t: Stream)
    requires ReadNew(s, h, n, t).Some? && forall id | id in s.info :: !s.info[id].inTried
    ensures forall id | id in ReadNew(s, h, n, t).value.0.info :: !ReadNew(s, h, n, t).value.0.info[id].inTried
    decreases h.nNew - n
  {
    if n < h.nNew { NewAreNew(LoadNew(s, h, n, t[0].r), h, n + 1, t[1..]); }
  }

  /** Whatever the stream says, what has been read has right tables, and right counters unless a count in the header is negative. */
  lemma {:induction false} ReadAllOk(hash: Hashing, t: Stream)
    requires ReadAll(hash, t).Some?
    ensures ReadHeader(t).Some?
    ensures var s, h := ReadAll(hash, t).value, ReadHeader(t).value.0;
            && Tables(s, s.idCount) && AddrLast(s) && s.nNew == h.nNew
            && |NewIds(s)| == (if h.nNew > 0 then h.nNew else 0) && |TriedIds(s)| - s.nTried == (if h.nTried > 0 then 0 else -h.nTried)
  {
    hide ReadHeader, ReadNew, ReadTried, ReadRows, Tables, AddrLast, TriedIds, NewIds;
    var (h, t1) := ReadHeader(t).value;
    var s0 := Fresh(hash, h.key).(nNew := h.nNew, nTried := h.nTried);
    NothingRead(s0);
    ReadNewOk(s0, h, 0, t1);
    NewAreNew(s0, h, 0, t1);
    var (s1, t2) := ReadNew(s0, h, 0, t1).value;
    var s1' := s1.(idCount := if h.nNew > 0 then h.nNew else 0);
    SameEntries(s1, s1', s1'.idCount);
    ReadTriedOk(s1', h, 0, t2);
    NewStayNew(s1', h, 0, t2);
    var (s2, t3) := ReadTried(s1', h, 0, t2).value;
    ReadRowsOk(s2, h, 0, t3);
  }

  lemma {:induction false} NothingRead(s: State)
    requires s.info == map[] && s.addr == map[] && s.random == [] && s.tried == map[] && s.news == map[]
    ensures Tables(s, 0) && AddrLast(s) && |TriedIds(s)| == 0 && |NewIds(s)| == 0
  {
    assert TriedIds(s) == {} && NewIds(s) == {};
  }

  // ----- pruning -----

  /** An entry that ended up without a reference. */
  predicate Dropped(s: State, id: int) {
    id in s.info && !s.info[id].inTried && s.info[id].refCount == 0
  }

  /** The state without the dropped entries of a list and without their addresses, up to the shuffle. */
  ghost predicate Rid(s: State, s': State, ids: seq<int>) {
    && s'.hash == s.hash && s'.key == s.key && s'.idCount == s.idCount && s'.tried == s.tried && s'.news == s.news
    && s'.nTried == s.nTried && s'.nNew - |NewIds(s')| == s.nNew - |NewIds(s)| && TriedIds(s') == TriedIds(s)
    && (forall id :: id in s'.info <==> id in s.info && !(Dropped(s, id) && id in ids))
    && (forall id | id in s'.info :: s'.info[id] == s.info[id].(randomPos := s'.info[id].randomPos))
    && (forall ip | ip in s'.addr :: ip in s.addr && s'.addr[ip] == s.addr[ip])
    && (forall ip | ip in s.addr ::
          ip !in s'.addr <==> exists id :: id in ids && Dropped(s, id) && s.info[id].service.ip == ip)
  }

  lemma {:induction false} DeleteTables(s: State, id: int, n: int)
    requires Tables(s, n) && Dropped(s, id)
    ensures Delete(s, id).Some? && Tables(Delete(s, id).value, n)
    ensures Rid(s, Delete(s, id).value, [id])
  {
    hide RandomOk, NewOk, TriedOk, SwapRandom, Delete, Buckets;
    assert RefsOk(s, id);
    var s1 := DeleteEffect(s, id);
    var s' := Delete(s, id).value;
    assert forall x :: x in s1.info <==> x in s1.info.Keys;
    assert forall x :: x in s.info <==> x in s.info.Keys;
    DeletedTables(s, s1, s', id);
    DeletedRefs(s, s1, s', id);
    DeletedCounts(s, s1, s', id);
  }

  lemma {:induction false} DeletedTables(s: State, s1: State, s': State, id: int)
    requires TriedOk(s) && NewOk(s) && RefsOkIn(s, id) && Dropped(s, id) && OnlyShuffled(s, s1) && Removed(s1, s', id)
    ensures TriedOk(s') && NewOk(s') && forall slot | slot in s.news :: s.news[slot] != id
  {
    Unreferenced(s, id);
    SamePlacesTablesOnly(s, s1);
    RemovedTables(s1, s', id);
  }

  ghost predicate RefsOkIn(s: State, id: int) {
    id in s.info && RefsOk(s, id)
  }

  lemma {:induction false} SamePlacesTablesOnly(s: State, s': State)
    requires SamePlaces(s, s') && TriedOk(s) && NewOk(s)
    ensures TriedOk(s') && NewOk(s')
  {
    assert forall id :: id in s'.info <==> id in s'.info.Keys;
    assert forall id :: id in s'.info <==> id in s.info;
  }

  lemma {:induction false} DeletedRefs(s: State, s1: State, s': State, id: int)
    requires AllRefsOk(s) && OnlyShuffled(s, s1) && Removed(s1, s', id)
    ensures AllRefsOk(s')
  {
    hide RefsOk;
    forall x | x in s'.info ensures RefsOk(s', x) {
      assert x in s1.info.Keys;
      assert RefsOk(s, x);
      RefsSame(s, s', x);
    }
  }

  lemma {:induction false} DeletedCounts(s: State, s1: State, s': State, id: int)
    requires Dropped(s, id) && OnlyShuffled(s, s1) && Removed(s1, s', id)
    ensures TriedIds(s') == TriedIds(s) && NewIds(s') == NewIds(s) - {id} && |NewIds(s')| == |NewIds(s)| - 1
  {
    assert forall x :: x in s1.info <==> x in s1.info.Keys;
    forall x ensures x in TriedIds(s') <==> x in TriedIds(s) {}
    forall x ensures x in NewIds(s') <==> x in NewIds(s) - {id} {}
    assert id in NewIds(s);
  }

  lemma {:induction false} RidNothing(s: State, s': State, id: int, rest: seq<int>)
    requires Rid(s, s', rest) && !Dropped(s, id)
    ensures Rid(s, s', [id] + rest)
  {
    var ids := [id] + rest;
    forall x ensures x in ids <==> x == id || x in rest {}
    forall ip | ip in s.addr ensures ip !in s'.addr <==> exists x :: x in ids && Dropped(s, x) && s.info[x].service.ip == ip {
      if x :| x in ids && Dropped(s, x) && s.info[x].service.ip == ip { assert x in rest; }
    }
  }

  lemma {:induction false} RidOneMore(s: State, s1: State, s': State, id: int, rest: seq<int>)
    requires Rid(s, s1, [id]) && Rid(s1, s', rest) && Dropped(s, id)
    ensures Rid(s, s', [id] + rest)
  {
    var ids := [id] + rest;
    forall x ensures x in ids <==> x == id || x in rest {}
    assert forall x :: Dropped(s1, x) <==> Dropped(s, x) && x != id;
    RidAddresses(s, s1, s', id, rest);
  }

  lemma {:induction false} RidAddresses(s: State, s1: State, s': State, id: int, rest: seq<int>)
    requires Rid(s, s1, [id]) && Rid(s1, s', rest) && Dropped(s, id)
    ensures forall ip | ip in s.addr ::
              ip !in s'.addr <==> exists x :: x in [id] + rest && Dropped(s, x) && s.info[x].service.ip == ip
  {
    forall ip | ip in s.addr
      ensures ip !in s'.addr <==> exists x :: x in [id] + rest && Dropped(s, x) && s.info[x].service.ip == ip
    {
      if ip in s1.addr {
        if ip !in s'.addr {
          var x :| x in rest && Dropped(s1, x) && s1.info[x].service.ip == ip;
          assert x in [id] + rest && Dropped(s, x);
        }
        if x :| x in [id] + rest && Dropped(s, x) && s.info[x].service.ip == ip {
          assert id in [id] && x != id;
          assert x in rest && Dropped(s1, x);
        }
      } else {
        var x :| x in [id] && Dropped(s, x) && s.info[x].service.ip == ip;
        assert x in [id] + rest;
      }
    }
  }

  lemma {:induction false} PruneRids(s: State, ids: seq<int>, n: int)
    requires Tables(s, n)
    ensures Prune(s, ids).Some? && Tables(Prune(s, ids).value, n) && Rid(s, Prune(s, ids).value, ids)
    decreases |ids|
  {
    hide Tables, Rid, Delete;
    if ids == [] {
      RidSame(s);
    } else {
      assert [ids[0]] + ids[1..] == ids;
      if Dropped(s, ids[0]) {
        DeleteTables(s, ids[0], n);
        var s1 := Delete(s, ids[0]).value;
        PruneRids(s1, ids[1..], n);
        RidOneMore(s, s1, Prune(s1, ids[1..]).value, ids[0], ids[1..]);
      } else {
        PruneRids(s, ids[1..], n);
        RidNothing(s, Prune(s, ids[1..]).value, ids[0], ids[1..]);
      }
    }
  }

  lemma {:induction false} RidSame(s: State)
    ensures Rid(s, s, [])
  {
  }

  // ----- which streams load to a consistent manager -----

  /** No entry that is kept shares its address with another one that was read. */
  ghost predicate Unshared(s: State) {
    forall id, x | id in s.info && x in s.info && id != x && !Dropped(s, id) :: s.info[id].service.ip != s.info[x].service.ip
  }

  lemma {:induction false} UnsharedGives(s: State, s': State, ids: seq<int>)
    requires AddrLast(s) && Rid(s, s', ids) && (forall id | id in s.info :: id in ids) && Unshared(s)
    ensures AddrOk(s')
  {
    forall id | id in s'.info ensures s'.info[id].service.ip in s'.addr && s'.addr[s'.info[id].service.ip] == id {
      var ip := s.info[id].service.ip;
      assert ip in s.addr;
      assert forall x | x in ids && Dropped(s, x) :: s.info[x].service.ip != ip;
    }
    forall ip | ip in s'.addr ensures s'.addr[ip] in s'.info && s'.info[s'.addr[ip]].service.ip == ip {
      assert s.addr[ip] in s.info && s.addr[ip] in ids;
      assert forall x | x in ids && Dropped(s, x) :: s.info[x].service.ip != ip;
    }
  }

  lemma {:induction false} UnsharedNeeded(s: State, s': State, ids: seq<int>)
    requires AddrLast(s) && Rid(s, s', ids) && (forall id | id in s.info :: id in ids) && AddrOk(s')
    ensures Unshared(s)
  {
    forall id, x | id in s.info && x in s.info && id != x && !Dropped(s, id) ensures s.info[id].service.ip != s.info[x].service.ip {
      var ip := s.info[id].service.ip;
      assert id in s'.info && ip in s'.addr && s'.addr[ip] == id && ip in s.addr;
      assert forall y | y in ids && Dropped(s, y) :: s.info[y].service.ip != ip;
      assert x in ids && (x in s'.info ==> s'.addr[s.info[x].service.ip] == x);
    }
  }

  lemma {:induction false} PrunedStanding(s: State, s': State, ids: seq<int>)
    requires Tables(s, s.idCount) && Tables(s', s.idCount) && Rid(s, s', ids) && (forall id | id in s.info :: id in ids)
    ensures Standing(s', {}) && IdsOk(s')
  {
    forall id | id in s'.info ensures Settled(s'.info[id]) {
      assert RefsOk(s', id) && !Dropped(s, id);
    }
  }

  lemma {:induction false} PrunedInvIff(s: State, s': State, ids: seq<int>)
    requires Tables(s, s.idCount) && AddrLast(s) && Tables(s', s.idCount) && Rid(s, s', ids) && (forall id | id in s.info :: id in ids)
    ensures Inv(s') <==> Unshared(s) && s.nNew == |NewIds(s)| && s.nTried == |TriedIds(s)|
  {
    hide AddrLast, AddrOk, RandomOk, TriedOk, NewOk, AllRefsOk, Standing, IdsOk, Counted, Bounded, Unshared, Rid, TriedIds, NewIds;
    PrunedStanding(s, s', ids);
    PrunedCounts(s, s', ids);
    if Unshared(s) { UnsharedGives(s, s', ids); }
    if AddrOk(s') { UnsharedNeeded(s, s', ids); }
  }

  lemma {:induction false} PrunedCounts(s: State, s': State, ids: seq<int>)
    requires Rid(s, s', ids)
    ensures Counted(s', {}, 0) <==> s.nNew == |NewIds(s)| && s.nTried == |TriedIds(s)|
  {
    hide TriedIds, NewIds, Dropped;
    assert NewIds(s') - {} == NewIds(s');
  }

  /**
   * Loading a stream gives a consistent manager if and only if neither count in its header is negative and no entry
   * that is kept has the address of another entry that was read.
   */
  lemma {:induction false} LoadsConsistentIff(hash: Hashing, t: Stream)
    requires Unserialize(hash, t).Some?
    ensures ReadHeader(t).Some? && ReadAll(hash, t).Some?
    ensures var h := ReadHeader(t).value.0;
            Inv(Unserialize(hash, t).value) <==> h.nNew >= 0 && h.nTried >= 0 && Unshared(ReadAll(hash, t).value)
  {
    hide ReadHeader, ReadNew, ReadTried, ReadRows, Prune, Tables, AddrLast, Rid, Core, Unshared, TriedIds, NewIds;
    LoadingNeverAsserts(hash, t);
    ReadAllOk(hash, t);
    var s := ReadAll(hash, t).value;
    PruneRids(s, Range(s.idCount), s.idCount);
    InRange(s);
    PrunedInvIff(s, Prune(s, Range(s.idCount)).value, Range(s.idCount));
  }

  lemma {:induction false} InRange(s: State)
    requires Tables(s, s.idCount)
    ensures forall id | id in s.info :: id in Range(s.idCount)
  {
    forall id | id in s.info ensures id in Range(s.idCount) { assert Range(s.idCount)[id] == id; }
  }

  // ----- streams without a repeated address -----

  predicate DistinctAddresses(t: Stream) {
    forall j, k | 0 <= j < k < |t| && t[j].Item? && t[k].Item? :: t[j].r.service.ip != t[k].r.service.ip
  }

  ghost predicate Separate(s: State) {
    forall id, x | id in s.info && x in s.info && id != x :: s.info[id].service.ip != s.info[x].service.ip
  }

  /** Neither the entries read nor the records to come share an address. */
  ghost predicate Apart(s: State, t: Stream) {
    && Separate(s) && DistinctAddresses(t)
    && forall id, k | id in s.info && 0 <= k < |t| && t[k].Item? :: s.info[id].service.ip != t[k].r.service.ip
  }

  lemma {:induction false} ApartNext(s: State, s': State, t: Stream)
    requires Apart(s, t) && t != [] && t[0].Item?
    requires forall id | id in s'.info :: (id in s.info && s'.info[id].service == s.info[id].service) || s'.info[id].service == t[0].r.service
    requires forall id, x | id in s'.info && x in s'.info && id !in s.info && x !in s.info :: id == x
    requires forall id | id in s.info && id in s'.info :: s'.info[id].service == s.info[id].service
    ensures Apart(s', t[1..])
  {
    forall j, k | 0 <= j < k < |t[1..]| && t[1..][j].Item? && t[1..][k].Item? ensures t[1..][j].r.service.ip != t[1..][k].r.service.ip {
      assert t[j + 1].r.service.ip != t[k + 1].r.service.ip;
    }
    forall id, k | id in s'.info && 0 <= k < |t[1..]| && t[1..][k].Item? ensures s'.info[id].service.ip != t[1..][k].r.service.ip {
      assert t[1..][k] == t[k + 1];
    }
  }

  lemma {:induction false} ReadNewApart(s: State, h: Header, n: nat, t: Stream)
    requires Apart(s, t) && ReadNew(s, h, n, t).Some? && forall id | id in s.info :: id < n
    ensures Apart(ReadNew(s, h, n, t).value.0, ReadNew(s, h, n, t).value.1)
    decreases h.nNew - n
  {
    hide Apart;
    if n < h.nNew {
      var s' := LoadNew(s, h, n, t[0].r);
      ApartNext(s, s', t);
      ReadNewApart(s', h, n + 1, t[1..]);
    }
  }

  lemma {:induction false} ReadTriedApart(s: State, h: Header, n: nat, t: Stream)
    requires Apart(s, t) && ReadTried(s, h, n, t).Some? && forall id | id in s.info :: id < s.idCount
    ensures Separate(ReadTried(s, h, n, t).value.0)
    decreases h.nTried - n
  {
    if n < h.nTried {
      hide Apart;
      var s' := LoadTried(s, t[0].r);
      ApartNext(s, s', t);
      ReadTriedApart(s', h, n + 1, t[1..]);
    }
  }

  ghost predicate SameServices(s: State, s': State) {
    s'.info.Keys == s.info.Keys && forall id | id in s.info :: s'.info[id].service == s.info[id].service
  }

  lemma {:induction false} ReadRowServices(s: State, h: Header, b: nat, left: int, t: Stream)
    requires ReadRow(s, h, b, left, t).Some?
    ensures SameServices(s, ReadRow(s, h, b, left, t).value.0)
    decreases left
  {
    if left > 0 {
      var s1 := LoadRef(s, h, b, t[0].i);
      assert SameServices(s, s1) by { assert s1.info.Keys == s.info.Keys; }
      hide LoadRef;
      ReadRowServices(s1, h, b, left - 1, t[1..]);
    }
  }

  lemma {:induction false} ReadRowsServices(s: State, h: Header, b: nat, t: Stream)
    requires ReadRows(s, h, b, t).Some?
    ensures SameServices(s, ReadRows(s, h, b, t).value.0)
    decreases h.buckets - b
  {
    hide ReadRow;
    if b < h.buckets {
      ReadRowServices(s, h, b, t[0].i, t[1..]);
      var r := ReadRow(s, h, b, t[0].i, t[1..]).value;
      ReadRowsServices(r.0, h, b + 1, r.1);
    }
  }

  lemma {:induction false} SeparateSame(s: State, s': State)
    requires Separate(s) && SameServices(s, s')
    ensures Unshared(s')
  {
    forall id, x | id in s'.info && x in s'.info && id != x ensures s'.info[id].service.ip != s'.info[x].service.ip {
      assert id in s'.info.Keys && x in s'.info.Keys;
    }
  }

  lemma {:induction false} DistinctTail(t: Stream, n: nat)
    requires DistinctAddresses(t) && n <= |t|
    ensures DistinctAddresses(t[n..])
  {
    forall j, k | 0 <= j < k < |t[n..]| && t[n..][j].Item? && t[n..][k].Item? ensures t[n..][j].r.service.ip != t[n..][k].r.service.ip {
      assert t[n..][j] == t[j + n] && t[n..][k] == t[k + n];
    }
  }

  /** A stream in which no two records have the same address, with counts that are not negative, loads to a consistent manager. */
  lemma {:induction false} DistinctStreamsLoad(hash: Hashing, t: Stream)
    requires Unserialize(hash, t).Some? && DistinctAddresses(t)
    requires ReadHeader(t).Some? ==> ReadHeader(t).value.0.nNew >= 0 && ReadHeader(t).value.0.nTried >= 0
    ensures Inv(Unserialize(hash, t).value)
  {
    hide ReadNew, ReadTried, ReadRows, Prune, Core, Unshared, Apart, Separate, DistinctAddresses, Unserialize;
    LoadsConsistentIff(hash, t);
    var (h, t1) := ReadHeader(t).value;
    DistinctTail(t, 6);
    var s0 := Fresh(hash, h.key).(nNew := h.nNew, nTried := h.nTried);
    NothingApart(s0, t1);
    ReadNewApart(s0, h, 0, t1);
    ReadNewShuffled(s0, h, 0, t1);
    var (s1, t2) := ReadNew(s0, h, 0, t1).value;
    var s1' := s1.(idCount := if h.nNew > 0 then h.nNew else 0);
    SameApart(s1, s1', t2);
    ReadTriedApart(s1', h, 0, t2);
    var (s2, t3) := ReadTried(s1', h, 0, t2).value;
    ReadRowsServices(s2, h, 0, t3);
    SeparateSame(s2, ReadRows(s2, h, 0, t3).value.0);
  }

  lemma {:induction false} NothingApart(s: State, t: Stream)
    requires s.info == map[] && DistinctAddresses(t)
    ensures Apart(s, t)
  {
  }

  lemma {:induction false} SameApart(s: State, s': State, t: Stream)
    requires Apart(s, t) && s'.info == s.info
    ensures Apart(s', t)
  {
  }

  // ----- a stream that repeats an address -----

  /** Two records of one address and no rows of references: the second has no slot left and is pruned, with the address. */
  function RepeatingStream(key: nat, r: Record): Stream {
    [Byte(1), Byte(32), Key(key), Number(2), Number(0), Number(FORMAT_BIT), Item(r), Item(r)]
  }

  lemma {:induction false} RepeatedAddressIsLost(hash: Hashing, key: nat, r: Record)
    ensures Unserialize(hash, RepeatingStream(key, r)).Some? && !Inv(Unserialize(hash, RepeatingStream(key, r)).value)
  {
    var t := RepeatingStream(key, r);
    var h := Header(1, key, 2, 0, 0);
    assert ReadHeader(t) == Some((h, [Item(r), Item(r)])) by { assert t[6..] == [Item(r), Item(r)]; }
    var s0 := Fresh(hash, key).(nNew := 2, nTried := 0);
    var s1 := LoadNew(s0, h, 0, r);
    var s2 := LoadNew(s1, h, 1, r);
    assert [Item(r), Item(r)][1..] == [Item(r)] && [Item(r)][1..] == [];
    assert ReadNew(s2, h, 2, []) == Some((s2, []));
    assert ReadNew(s1, h, 1, [Item(r)]) == Some((s2, []));
    assert ReadNew(s0, h, 0, [Item(r), Item(r)]) == Some((s2, []));
    var s3 := s2.(idCount := 2);
    assert ReadTried(s3, h, 0, []) == Some((s3, [])) && ReadRows(s3, h, 0, []) == Some((s3, []));
    assert ReadAll(hash, t) == Some(s3);
    LoadingNeverAsserts(hash, t);
    LoadsConsistentIff(hash, t);
    assert 0 in s3.info && 1 in s3.info && !Dropped(s3, 0) && s3.info[0].service.ip == s3.info[1].service.ip;
  }
}
