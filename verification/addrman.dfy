/**
 * CAddrMan as an object: two fixed tables, maps, the shuffle vector and counters, updated in
 * place. Every method computes the function of AddrModel and keeps the manager consistent.
 */
module AddrManager {
  import opened Wrappers
  import opened M = AddrModel
  import opened AddrInv
  import R = AddrRuns
  import opened AddrReport
  import S = AddrSerial
  import T = AddrRoundTrip

  /** The occupied slots of a table. */
  ghost function Occupied(t: array2<int>): map<Slot, int>
    reads t
  {
    map b: nat, p: nat | b < t.Length0 && p < t.Length1 && t[b, p] != -1 :: (b, p) := t[b, p]
  }

  method SetSlot(t: array2<int>, slot: Slot, id: int)
    requires slot.0 < t.Length0 && slot.1 < t.Length1
    modifies t
    ensures Occupied(t) == if id == -1 then old(Occupied(t)) - {slot} else old(Occupied(t))[slot := id]
  {
    t[slot.0, slot.1] := id;
    ghost var was, now := old(Occupied(t)), Occupied(t);
    forall s ensures s in now <==> (if s == slot then id != -1 else s in was) {}
    forall s | s in now ensures now[s] == if s == slot then id else was[s] {}
  }

  class AddrMan {
    const hash: Hashing
    var nKey: nat
    var nIdCount: nat
    var mapInfo: map<int, Info>
    var mapAddr: map<nat, int>
    var vRandom: seq<int>
    var nTried: int
    const vvTried: array2<int>
    var nNew: int
    const vvNew: array2<int>
    var nLastGood: int

    ghost predicate Valid() {
      && vvTried.Length0 == TRIED_BUCKETS && vvTried.Length1 == BUCKET_SIZE
      && vvNew.Length0 == NEW_BUCKETS && vvNew.Length1 == BUCKET_SIZE
      && vvTried != vvNew
    }

    ghost function Model(): State
      reads this, vvTried, vvNew
    {
      State(hash, nKey, nIdCount, mapInfo, mapAddr, vRandom, nTried, Occupied(vvTried), nNew, Occupied(vvNew), nLastGood)
    }

    function NewSlot(svc: Service, b: nat): (r: Slot)
      reads this
      ensures r.0 == b && r.1 < BUCKET_SIZE
    {
      (b, hash.position(nKey, true, b, svc) % BUCKET_SIZE)
    }

    constructor (h: Hashing, key: nat)
      ensures Valid() && fresh(vvTried) && fresh(vvNew)
      ensures Model() == Fresh(h, key) && Inv(Model())
    {
      hash, nKey := h, key;
      nIdCount, mapInfo, mapAddr, vRandom, nTried, nNew, nLastGood := 0, map[], map[], [], 0, 0, 1;
      vvTried := new int[TRIED_BUCKETS, BUCKET_SIZE]((_, _) => -1);
      vvNew := new int[NEW_BUCKETS, BUCKET_SIZE]((_, _) => -1);
      new;
      assert Occupied(vvTried) == map[] && Occupied(vvNew) == map[];
      FreshInv(h, key);
    }

    function Find(ip: nat): (r: Option<int>)
      reads this
      ensures r.Some? ==> r.value in mapInfo && ip in mapAddr && mapAddr[ip] == r.value
    {
      if ip in mapAddr && mapAddr[ip] in mapInfo then Some(mapAddr[ip]) else None
    }

    method Create(a: Address, source: nat) returns (id: int)
      modifies this
      ensures Model() == M.Create(old(Model()), a, source) && id == old(nIdCount)
    {
      id := nIdCount;
      nIdCount := nIdCount + 1;
      mapInfo := mapInfo[id := NewInfo(a, source)];
      mapAddr := mapAddr[a.service.ip := id];
      mapInfo := mapInfo[id := mapInfo[id].(randomPos := |vRandom|)];
      vRandom := vRandom + [id];
    }

    method SwapRandom(p1: int, p2: int)
      requires M.SwapRandom(Model(), p1, p2).Some?
      modifies this
      ensures Some(Model()) == M.SwapRandom(old(Model()), p1, p2)
    {
      if p1 == p2 { return; }
      assert 0 <= p1 < |vRandom| && 0 <= p2 < |vRandom|;
      var id1, id2 := vRandom[p1], vRandom[p2];
      assert id1 in mapInfo && id2 in mapInfo;
      mapInfo := mapInfo[id1 := mapInfo[id1].(randomPos := p2)];
      mapInfo := mapInfo[id2 := mapInfo[id2].(randomPos := p1)];
      vRandom := vRandom[p1 := id2];
      vRandom := vRandom[p2 := id1];
    }

    method Delete(id: int)
      requires M.Delete(Model(), id).Some?
      modifies this
      ensures Some(Model()) == M.Delete(old(Model()), id)
    {
      assert id in mapInfo && !mapInfo[id].inTried && mapInfo[id].refCount == 0;
      var ip := mapInfo[id].service.ip;
      SwapRandom(mapInfo[id].randomPos, |vRandom| - 1);
      vRandom := vRandom[..|vRandom| - 1];
      mapAddr := mapAddr - {ip};
      mapInfo := mapInfo - {id};
      nNew := nNew - 1;
    }

    /** Read a slot of the new table. */
    method OccupantOfNew(slot: Slot) returns (id: int)
      requires Valid() && slot.0 < NEW_BUCKETS && slot.1 < BUCKET_SIZE
      ensures id != -1 <==> slot in Model().news
      ensures id != -1 ==> Model().news[slot] == id
    {
      id := vvNew[slot.0, slot.1];
      if id != -1 { assert slot in Occupied(vvNew); }
    }

    method OccupantOfTried(slot: Slot) returns (id: int)
      requires Valid() && slot.0 < TRIED_BUCKETS && slot.1 < BUCKET_SIZE
      ensures id != -1 <==> slot in Model().tried
      ensures id != -1 ==> Model().tried[slot] == id
    {
      id := vvTried[slot.0, slot.1];
      if id != -1 { assert slot in Occupied(vvTried); }
    }

    /** Take one reference away from an entry. */
    method Unslot(slot: Slot, id: int)
      requires Valid() && slot.0 < NEW_BUCKETS && slot.1 < BUCKET_SIZE && id in mapInfo
      modifies this, vvNew
      ensures Model() == old(Model().WithInfo(id, mapInfo[id].(refCount := mapInfo[id].refCount - 1)).(news := Model().news - {slot}))
    {
      mapInfo := mapInfo[id := mapInfo[id].(refCount := mapInfo[id].refCount - 1)];
      SetSlot(vvNew, slot, -1);
    }

    /** Reference an entry from a slot. */
    method PutNew(id: int, slot: Slot, refCount: int)
      requires Valid() && slot.0 < NEW_BUCKETS && slot.1 < BUCKET_SIZE && id in mapInfo && id != -1
      modifies this, vvNew
      ensures Model() == M.PutNew(old(Model()), id, slot, refCount)
    {
      mapInfo := mapInfo[id := mapInfo[id].(refCount := refCount)];
      SetSlot(vvNew, slot, id);
    }

    /** Clear a position in a new bucket; the only place where entries are deleted. */
    method ClearNew(slot: Slot)
      requires Valid() && slot.0 < NEW_BUCKETS && slot.1 < BUCKET_SIZE && M.ClearNew(Model(), slot).Some?
      modifies this, vvNew
      ensures Some(Model()) == M.ClearNew(old(Model()), slot)
    {
      hide Occupied, M.Delete;
      var id := OccupantOfNew(slot);
      if id != -1 {
        assert id in mapInfo && mapInfo[id].refCount > 0;
        Unslot(slot, id);
        if mapInfo[id].refCount == 0 {
          Delete(id);
        }
      }
    }

    method DropRefHere(id: int, b: nat)
      requires Valid() && id in mapInfo && id >= 0 && b < NEW_BUCKETS
      modifies this, vvNew
      ensures id in mapInfo && Model() == DropRef(old(Model()), id, b)
    {
      hide Occupied;
      var slot := NewSlot(mapInfo[id].service, b);
      assert slot == Model().NewSlot(mapInfo[id].service, b);
      var occupant := OccupantOfNew(slot);
      if occupant == id {
        Unslot(slot, id);
      }
    }

    /** Take an entry out of every new bucket. */
    method DropAllRefs(id: int)
      requires Valid() && id in mapInfo && id >= 0
      modifies this, vvNew
      ensures id in mapInfo && Model() == DropRefs(old(Model()), id, 0)
    {
      hide Occupied, DropRef;
      ghost var target := DropRefs(Model(), id, 0);
      for b := 0 to NEW_BUCKETS
        invariant id in mapInfo && DropRefs(Model(), id, b) == target
      {
        DropRefHere(id, b);
      }
    }

    /** Move an entry from new to tried, evicting the occupant of its slot back to new. */
    method MakeTried(id: int)
      requires Valid() && id in mapInfo && id >= 0 && M.MakeTried(Model(), id).Some?
      modifies this, vvTried, vvNew
      ensures Some(Model()) == M.MakeTried(old(Model()), id)
    {
      hide Occupied, DropRefs, EnterTried;
      DropAllRefs(id);
      nNew := nNew - 1;
      assert mapInfo[id].refCount == 0;
      EnterTriedHere(id);
    }

    method EnterTriedHere(id: int)
      requires Valid() && id in mapInfo && id >= 0 && EnterTried(Model(), id).Some?
      modifies this, vvTried, vvNew
      ensures Some(Model()) == EnterTried(old(Model()), id)
    {
      hide Occupied, Evict;
      var svc := mapInfo[id].service;
      var bucket := hash.tried(nKey, svc) % TRIED_BUCKETS;
      var slot := (bucket, hash.position(nKey, false, bucket, svc) % BUCKET_SIZE);
      assert slot == Model().TriedSlot(svc);
      var out := OccupantOfTried(slot);
      if out != -1 {
        EvictHere(slot, out);
      }
      assert slot !in Model().tried;
      SetSlot(vvTried, slot, id);
      nTried := nTried + 1;
      mapInfo := mapInfo[id := mapInfo[id].(inTried := true)];
    }

    method EvictHere(slot: Slot, out: int)
      requires Valid() && slot.0 < TRIED_BUCKETS && slot.1 < BUCKET_SIZE
      requires slot in Model().tried && Model().tried[slot] == out && out != -1 && M.Evict(Model(), slot).Some?
      modifies this, vvTried, vvNew
      ensures Some(Model()) == M.Evict(old(Model()), slot)
    {
      hide Occupied, Rehome;
      assert out in mapInfo;
      mapInfo := mapInfo[out := mapInfo[out].(inTried := false)];
      SetSlot(vvTried, slot, -1);
      nTried := nTried - 1;
      RehomeHere(out);
    }

    method RehomeHere(out: int)
      requires Valid() && out in mapInfo && out != -1 && M.Rehome(Model(), out).Some?
      modifies this, vvNew
      ensures Some(Model()) == M.Rehome(old(Model()), out)
    {
      hide Occupied, M.ClearNew;
      var i := mapInfo[out];
      var home := NewSlot(i.service, hash.fromSource(nKey, i.service, i.source) % NEW_BUCKETS);
      assert home == Home(Model(), i);
      ClearNew(home);
      PutNew(out, home, 1);
      nNew := nNew + 1;
    }

    /** The bucket of new that references an entry, searched from a random start. */
    method SearchBucket(id: int, start: nat) returns (b: Option<nat>)
      requires Valid() && id in mapInfo && id >= 0
      ensures b == FindBucket(Model(), id, start, 0)
    {
      hide Occupied;
      for n := 0 to NEW_BUCKETS
        invariant FindBucket(Model(), id, start, n) == FindBucket(Model(), id, start, 0)
      {
        var nB := (n + start) % NEW_BUCKETS;
        var slot := NewSlot(mapInfo[id].service, nB);
        assert slot == Model().NewSlot(mapInfo[id].service, nB);
        var occupant := OccupantOfNew(slot);
        if occupant == id {
          return Some(nB);
        }
      }
      b := None;
    }

    /** Mark an entry good; a consistent manager never bails out for want of a bucket. */
    method Good_(svc: Service, time: int, start: nat)
      requires Valid() && Inv(Model())
      modifies this, vvTried, vvNew
      ensures Some(Model()) == M.Good(old(Model()), svc, time, start)
      ensures Inv(Model())
    {
      hide Occupied, Core, M.MakeTried, FindBucket;
      R.GoodInv(Model(), svc, time, start);
      R.InvIds(Model());
      nLastGood := time;
      var found := Find(svc.ip);
      assert found == M.Find(Model(), svc.ip);
      if found.None? { return; }
      var id := found.value;
      if mapInfo[id].service != svc { return; }
      mapInfo := mapInfo[id := mapInfo[id].(lastSuccess := time, lastTry := time, attempts := 0)];
      if mapInfo[id].inTried { return; }
      var b := SearchBucket(id, start);
      if b.None? { return; }
      MakeTried(id);
    }

    /** Add an address heard of from a source; the environment supplies routability, the clock and the draw. */
    method Add_(a: Address, source: nat, timePenalty: int, routable: bool, now: int, lucky: bool) returns (added: bool)
      requires Valid() && Inv(Model())
      modifies this, vvNew
      ensures Some((Model(), added)) == M.Add(old(Model()), a, source, timePenalty, routable, now, lucky)
      ensures Inv(Model())
      ensures added <==> routable && a.service.ip !in old(mapAddr)
    {
      hide Occupied, Core, M.Place, M.Create;
      R.AddInv(Model(), a, source, timePenalty, routable, now, lucky);
      R.InvIds(Model());
      if !routable { return false; }
      var penalty := if a.service.ip == source then 0 else timePenalty;
      var found := Find(a.service.ip);
      assert found == M.Find(Model(), a.service.ip);
      var id;
      if found.Some? {
        id := found.value;
        var i := Refresh(mapInfo[id], a, penalty, now);
        mapInfo := mapInfo[id := i];
        if a.time == 0 || (i.time != 0 && a.time <= i.time) { return false; }
        if i.inTried { return false; }
        if i.refCount == BUCKETS_PER_ADDRESS { return false; }
        if i.refCount > 0 && !lucky { return false; }
        added := false;
        PlaceHere(id, source, now);
      } else {
        id := CreateNew(a, source, penalty);
        added := true;
        PlaceHere(id, source, now);
      }
    }

    method CreateNew(a: Address, source: nat, penalty: int) returns (id: int)
      modifies this
      ensures id == old(nIdCount) && id in mapInfo && Model() == R.Created(old(Model()), a, source, penalty)
    {
      id := Create(a, source);
      var time := mapInfo[id].time;
      mapInfo := mapInfo[id := mapInfo[id].(time := if time - penalty > 0 then time - penalty else 0)];
      nNew := nNew + 1;
    }

    method PlaceHere(id: int, source: nat, now: int)
      requires Valid() && id in mapInfo && id >= 0 && M.Place(Model(), id, source, now).Some?
      modifies this, vvNew
      ensures Some(Model()) == M.Place(old(Model()), id, source, now)
    {
      hide Occupied, M.ClearNew, M.Delete;
      var i := mapInfo[id];
      var slot := NewSlot(i.service, hash.fromSource(nKey, i.service, source) % NEW_BUCKETS);
      assert slot == Model().NewSlot(i.service, Model().NewBucket(i.service, source));
      var occupant := OccupantOfNew(slot);
      if occupant != id {
        var insert := occupant == -1;
        if !insert {
          var other := mapInfo[occupant];
          insert := IsTerrible(other, now) || (other.refCount > 1 && i.refCount == 0);
        }
        if insert {
          ClearNew(slot);
          PutNew(id, slot, mapInfo[id].refCount + 1);
        } else if i.refCount == 0 {
          Delete(id);
        }
      }
    }

    method Attempt_(svc: Service, countFailure: bool, time: int)
      requires Inv(Model())
      modifies this
      ensures Model() == M.Attempt(old(Model()), svc, countFailure, time) && Inv(Model())
    {
      hide Occupied, Core;
      R.AttemptInv(Model(), svc, countFailure, time);
      var found := Find(svc.ip);
      if found.None? { return; }
      var id := found.value;
      if mapInfo[id].service != svc { return; }
      mapInfo := mapInfo[id := mapInfo[id].(lastTry := time)];
      if countFailure && mapInfo[id].lastCountAttempt < nLastGood {
        mapInfo := mapInfo[id := mapInfo[id].(lastCountAttempt := time, attempts := mapInfo[id].attempts + 1)];
      }
    }

    method Connected_(svc: Service, time: int)
      requires Inv(Model())
      modifies this
      ensures Model() == M.Connected(old(Model()), svc, time) && Inv(Model())
    {
      hide Occupied, Core;
      R.ConnectedInv(Model(), svc, time);
      var found := Find(svc.ip);
      if found.None? { return; }
      var id := found.value;
      if mapInfo[id].service != svc { return; }
      if time - mapInfo[id].time > 20 * 60 {
        mapInfo := mapInfo[id := mapInfo[id].(time := time)];
      }
    }

    method SetServices_(svc: Service, services: bv64)
      requires Inv(Model())
      modifies this
      ensures Model() == M.SetServices(old(Model()), svc, services) && Inv(Model())
    {
      hide Occupied, Core;
      R.SetServicesInv(Model(), svc, services);
      var found := Find(svc.ip);
      if found.None? { return; }
      var id := found.value;
      if mapInfo[id].service != svc { return; }
      mapInfo := mapInfo[id := mapInfo[id].(services := services)];
    }

    /**
     * 23 percent of the entries, at most 2500, or all there are that are not terrible, chosen by a partial shuffle;
     * the draws come from outside.
     */
    method GetAddr_(draws: seq<nat>, now: int) returns (got: seq<Info>)
      requires Inv(Model()) && |draws| >= |vRandom|
      modifies this
      ensures Some((Model(), got)) == GetAddr(old(Model()), 0, Wanted(|old(vRandom)|), draws, now, [])
      ensures Inv(Model()) && AddrInv.OnlyShuffled(old(Model()), Model()) && R.Reported(old(Model()), got, now)
      ensures |got| == Min(Wanted(|old(vRandom)|), |FairIds(old(Model()), now)|)
      ensures forall j, k | 0 <= j < k < |got| :: got[j].service.ip != got[k].service.ip
    {
      hide Occupied, Core, M.SwapRandom, OnlyShuffled, R.Reported, GetAddr, Drawn, IsTerrible, FairIds;
      var want := 23 * |vRandom| / 100;
      if want > 2500 { want := 2500; }
      got := [];
      ghost var s0 := Model();
      R.NothingReported(s0, now);
      R.GetAddrInv(s0, 0, want, draws, now, []);
      R.InvRandom(s0);
      R.GetAddrReports(s0, 0, want, draws, now, []);
      GetAddrExact(s0, draws, now);
      ghost var target := GetAddr(s0, 0, want, draws, now, []);
      var n := 0;
      while n < |vRandom| && |got| < want
        invariant 0 <= n <= |vRandom| && |draws| - n >= |vRandom| - n
        invariant GetAddr(Model(), n, want, draws[n..], now, got) == target
        decreases |vRandom| - n
      {
        var p := Drawn(draws[n], n, |vRandom|);
        assert draws[n..][0] == draws[n] && draws[n..][1..] == draws[n + 1..];
        R.GetAddrUnfold(Model(), n, want, draws[n..], now, got);
        SwapRandom(n, p);
        var i := mapInfo[vRandom[n]];
        if !IsTerrible(i, now) {
          got := got + [i];
        }
        n := n + 1;
      }
      R.GetAddrEnd(Model(), n, want, draws[n..], now, got);
    }

    /** The entries with references, in the order of their ids, and the number each id is written as. */
    method WriteNew(t0: S.Stream) returns (t: S.Stream, unknownIds: map<int, int>)
      requires Inv(Model())
      ensures t == t0 + S.NewItems(mapInfo, nIdCount)
      ensures forall id | id in mapInfo :: id in unknownIds && unknownIds[id] == S.NewNumber(mapInfo, id)
    {
      hide Core, Occupied, S.NewBelow, S.NewItems;
      T.InvSorted(Model());
      T.OrderCounts(Model());
      S.NewItemsStep(mapInfo, 0);
      t, unknownIds := t0, map[];
      var nIds := 0;
      for n := 0 to nIdCount
        invariant nIds == |S.NewBelow(mapInfo, n)| && t == t0 + S.NewItems(mapInfo, n)
        invariant forall id | id in mapInfo && id < n :: id in unknownIds && unknownIds[id] == S.NewNumber(mapInfo, id)
      {
        S.NewItemsStep(mapInfo, n);
        if n in mapInfo {
          unknownIds := unknownIds[n := nIds];
          if mapInfo[n].refCount != 0 {
            assert nIds != nNew by { T.NewBelowLists(mapInfo, nIdCount, n); }
            t := t + [S.Item(S.Persist(mapInfo[n]))];
            nIds := nIds + 1;
          }
        }
      }
    }

    method WriteTried(t0: S.Stream) returns (t: S.Stream)
      requires Inv(Model())
      ensures t == t0 + S.TriedItems(mapInfo, nIdCount)
    {
      hide Core, Occupied, S.TriedBelow, S.TriedItems;
      T.OrderCounts(Model());
      S.TriedItemsStep(mapInfo, 0);
      t := t0;
      var nIds := 0;
      for n := 0 to nIdCount
        invariant nIds == |S.TriedBelow(mapInfo, n)| && t == t0 + S.TriedItems(mapInfo, n)
      {
        S.TriedItemsStep(mapInfo, n);
        if n in mapInfo && mapInfo[n].inTried {
          assert nIds != nTried by { T.TriedBelowLists(mapInfo, nIdCount, n); }
          t := t + [S.Item(S.Persist(mapInfo[n]))];
          nIds := nIds + 1;
        }
      }
    }

    /** One bucket: its size, then the numbers of its entries. */
    method WriteRow(b: nat, unknownIds: map<int, int>) returns (t: S.Stream)
      requires Valid() && b < NEW_BUCKETS && NewOk(Model())
      requires forall id | id in mapInfo :: id in unknownIds && unknownIds[id] == S.NewNumber(mapInfo, id)
      ensures var row := S.RowFrom(Model(), b, 0); t == [S.Number(|row|)] + S.Numbers(row)
    {
      hide Occupied, S.NewNumber, S.RowFrom, S.Numbers;
      ghost var row := S.RowFrom(Model(), b, 0);
      var nSize := 0;
      for i := 0 to BUCKET_SIZE
        invariant nSize + |S.RowFrom(Model(), b, i)| == |row|
      {
        S.RowStep(Model(), b, i);
        var id := OccupantOfNew((b, i));
        if id != -1 { nSize := nSize + 1; }
      }
      S.RowStep(Model(), b, 0);
      t := [S.Number(nSize)];
      for i := 0 to BUCKET_SIZE
        invariant t + S.Numbers(S.RowFrom(Model(), b, i)) == [S.Number(|row|)] + S.Numbers(row)
      {
        S.RowStep(Model(), b, i);
        var id := OccupantOfNew((b, i));
        if id != -1 {
          t := t + [S.Number(unknownIds[id])];
        }
      }
    }

    /** Save the manager; none of its asserts can fail. */
    method Serialize() returns (t: S.Stream)
      requires Valid() && Inv(Model())
      ensures t == S.Serialize(Model())
    {
      hide Core, NewOk, Occupied, S.RowsFrom, S.NewNumber, S.NewItems, S.TriedItems;
      T.InvNewOk(Model());
      t := [S.Byte(1), S.Byte(32), S.Key(nKey), S.Number(nNew), S.Number(nTried), S.Number(S.ToggleFormatBit(NEW_BUCKETS))];
      var unknownIds;
      t, unknownIds := WriteNew(t);
      t := WriteTried(t);
      t := WriteRows(t, unknownIds);
    }

    method WriteRows(t0: S.Stream, unknownIds: map<int, int>) returns (t: S.Stream)
      requires Valid() && NewOk(Model())
      requires forall id | id in mapInfo :: id in unknownIds && unknownIds[id] == S.NewNumber(mapInfo, id)
      ensures t == t0 + S.RowsFrom(Model(), 0)
    {
      hide NewOk, Occupied, S.RowFrom, S.NewNumber;
      t := t0;
      ghost var target := t + S.RowsFrom(Model(), 0);
      for bucket := 0 to NEW_BUCKETS
        invariant t + S.RowsFrom(Model(), bucket) == target
      {
        var row := WriteRow(bucket, unknownIds);
        t := t + row;
      }
    }

    /** Empty the tables and the counters; the two maps are left as they are. */
    method Clear(key: nat)
      requires Valid()
      modifies this, vvTried, vvNew
      ensures Model() == S.Emptied(old(Model()), key)
    {
      vRandom := [];
      nKey := key;
      Wipe(vvNew);
      Wipe(vvTried);
      nIdCount, nTried, nNew, nLastGood := 0, 0, 0, 1;
    }

    static method Wipe(table: array2<int>)
      modifies table
      ensures Occupied(table) == map[]
    {
      for bucket := 0 to table.Length0
        invariant forall b, e | 0 <= b < bucket && 0 <= e < table.Length1 :: table[b, e] == -1
      {
        for entry := 0 to table.Length1
          invariant forall b, e | 0 <= b < bucket && 0 <= e < table.Length1 :: table[b, e] == -1
          invariant forall e | 0 <= e < entry :: table[bucket, e] == -1
        {
          table[bucket, entry] := -1;
        }
      }
    }

    /** Load into a freshly constructed manager; a failure is an exception that leaves it half filled. */
    method Unserialize(t: S.Stream, key: nat) returns (ok: bool)
      requires Valid() && mapInfo == map[] && mapAddr == map[]
      modifies this, vvTried, vvNew
      ensures ok <==> S.Unserialize(hash, t).Some?
      ensures ok ==> Some(Model()) == S.Unserialize(hash, t)
    {
      hide Occupied, S.ReadNew, S.ReadTried, S.ReadRows, S.Prune;
      S.LoadingNeverAsserts(hash, t);
      S.ReadAllShuffled(hash, t);
      Clear(key);
      var header := S.ReadHeader(t);
      if header.None? { return false; }
      var (h, rest) := header.value;
      nKey, nNew, nTried := h.key, h.nNew, h.nTried;
      ok, rest := LoadNews(h, rest);
      if !ok { return; }
      nIdCount := if h.nNew > 0 then h.nNew else 0;
      ok, rest := LoadTrieds(h, rest);
      if !ok { return; }
      ok, rest := LoadRows(h, rest);
      if !ok { return; }
      PruneHere();
    }

    method LoadNews(h: S.Header, t: S.Stream) returns (ok: bool, rest: S.Stream)
      requires Valid()
      modifies this, vvNew
      ensures ok <==> S.ReadNew(old(Model()), h, 0, t).Some?
      ensures ok ==> Some((Model(), rest)) == S.ReadNew(old(Model()), h, 0, t)
    {
      hide Occupied, S.LoadNew;
      ghost var target := S.ReadNew(Model(), h, 0, t);
      rest := t;
      var n := 0;
      while n < h.nNew
        invariant n >= 0 && S.ReadNew(Model(), h, n, rest) == target
        decreases h.nNew - n
      {
        if rest == [] || !rest[0].Item? { return false, rest; }
        LoadNewHere(h, n, rest[0].r);
        rest, n := rest[1..], n + 1;
      }
      ok := true;
    }

    method LoadNewHere(h: S.Header, n: nat, r: S.Record)
      requires Valid()
      modifies this, vvNew
      ensures Model() == S.LoadNew(old(Model()), h, n, r)
    {
      hide Occupied;
      mapInfo := mapInfo[n := S.Restore(r).(randomPos := |vRandom|)];
      mapAddr := mapAddr[r.service.ip := n];
      vRandom := vRandom + [n];
      if !S.UsesTable(h) {
        var slot := NewSlot(r.service, hash.fromSource(nKey, r.service, r.source) % NEW_BUCKETS);
        assert slot == Model().NewSlot(r.service, Model().NewBucket(r.service, r.source));
        var occupant := OccupantOfNew(slot);
        if occupant == -1 {
          PutNew(n, slot, 1);
        }
      }
    }

    method LoadTrieds(h: S.Header, t: S.Stream) returns (ok: bool, rest: S.Stream)
      requires Valid()
      modifies this, vvTried
      ensures ok <==> S.ReadTried(old(Model()), h, 0, t).Some?
      ensures ok ==> Some((Model(), rest)) == S.ReadTried(old(Model()), h, 0, t)
    {
      hide Occupied, S.LoadTried;
      ghost var target := S.ReadTried(Model(), h, 0, t);
      rest := t;
      var n := 0;
      while n < h.nTried
        invariant n >= 0 && S.ReadTried(Model(), h, n, rest) == target
        decreases h.nTried - n
      {
        if rest == [] || !rest[0].Item? { return false, rest; }
        LoadTriedHere(rest[0].r);
        rest, n := rest[1..], n + 1;
      }
      ok := true;
    }

    method LoadTriedHere(r: S.Record)
      requires Valid()
      modifies this, vvTried
      ensures Model() == S.LoadTried(old(Model()), r)
    {
      hide Occupied;
      var bucket := hash.tried(nKey, r.service) % TRIED_BUCKETS;
      var slot := (bucket, hash.position(nKey, false, bucket, r.service) % BUCKET_SIZE);
      assert slot == Model().TriedSlot(r.service);
      var occupant := OccupantOfTried(slot);
      if occupant == -1 {
        mapInfo := mapInfo[nIdCount := S.Restore(r).(randomPos := |vRandom|, inTried := true)];
        vRandom := vRandom + [nIdCount];
        mapAddr := mapAddr[r.service.ip := nIdCount];
        SetSlot(vvTried, slot, nIdCount);
        nIdCount := nIdCount + 1;
      } else {
        nTried := nTried - 1;
      }
    }

    method LoadRows(h: S.Header, t: S.Stream) returns (ok: bool, rest: S.Stream)
      requires Valid()
      modifies this, vvNew
      ensures ok <==> S.ReadRows(old(Model()), h, 0, t).Some?
      ensures ok ==> Some((Model(), rest)) == S.ReadRows(old(Model()), h, 0, t)
    {
      hide Occupied, S.ReadRow;
      ghost var target := S.ReadRows(Model(), h, 0, t);
      rest := t;
      var b := 0;
      while b < h.buckets
        invariant b >= 0 && S.ReadRows(Model(), h, b, rest) == target
        decreases h.buckets - b
      {
        if rest == [] || !rest[0].Number? { return false, rest; }
        var size := rest[0].i;
        ok, rest := LoadRow(h, b, size, rest[1..]);
        if !ok { return; }
        b := b + 1;
      }
      ok := true;
    }

    method LoadRow(h: S.Header, b: nat, size: int, t: S.Stream) returns (ok: bool, rest: S.Stream)
      requires Valid() && b < h.buckets
      modifies this, vvNew
      ensures ok <==> S.ReadRow(old(Model()), h, b, size, t).Some?
      ensures ok ==> Some((Model(), rest)) == S.ReadRow(old(Model()), h, b, size, t)
    {
      hide Occupied, S.LoadRef;
      ghost var target := S.ReadRow(Model(), h, b, size, t);
      rest := t;
      var n := 0;
      while n < size
        invariant n >= 0 && S.ReadRow(Model(), h, b, size - n, rest) == target
        decreases size - n
      {
        if rest == [] || !rest[0].Number? { return false, rest; }
        LoadRefHere(h, b, rest[0].i);
        rest, n := rest[1..], n + 1;
      }
      ok := true;
    }

    method LoadRefHere(h: S.Header, b: nat, number: int)
      requires Valid() && b < h.buckets
      modifies this, vvNew
      ensures Model() == S.LoadRef(old(Model()), h, b, number)
    {
      hide Occupied;
      if 0 <= number < h.nNew && number in mapInfo && S.UsesTable(h) {
        var slot := NewSlot(mapInfo[number].service, b);
        assert slot == Model().NewSlot(mapInfo[number].service, b);
        var occupant := OccupantOfNew(slot);
        if occupant == -1 && mapInfo[number].refCount < BUCKETS_PER_ADDRESS {
          PutNew(number, slot, mapInfo[number].refCount + 1);
        }
      }
    }

    method PruneHere()
      requires Valid() && RandomOk(Model())
      modifies this
      ensures Some(Model()) == S.Prune(old(Model()), S.Range(old(nIdCount)))
    {
      hide Occupied, M.Delete, RandomOk;
      var ids := S.Range(nIdCount);
      ghost var target := S.Prune(Model(), ids);
      for n := 0 to nIdCount
        invariant nIdCount == |ids| && RandomOk(Model())
        invariant S.Prune(Model(), ids[n..]) == target
      {
        assert ids[n..][0] == n && ids[n..][1..] == ids[n + 1..];
        if n in mapInfo && !mapInfo[n].inTried && mapInfo[n].refCount == 0 {
          ghost var _ := DeleteEffect(Model(), n);
          Delete(n);
        }
      }
    }
  }
}
