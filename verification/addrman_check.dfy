/** The manager's own self-check, and that it tests exactly the invariant kept by every operation. */
module AddrCheck {
  import opened AddrModel
  import opened AddrInv
  import R = AddrRuns
  import T = AddrRoundTrip

  /** What is tested of one entry. */
  ghost predicate EntryPasses(s: State, id: int)
    requires id in s.info
  {
    var i := s.info[id];
    && (if i.inTried then i.lastSuccess != 0 && i.refCount == 0 else 0 < i.refCount <= BUCKETS_PER_ADDRESS)
    && (if i.service.ip in s.addr then s.addr[i.service.ip] else 0) == id
    && 0 <= i.randomPos < |s.random| && s.random[i.randomPos] == id
    && i.lastTry >= 0 && i.lastSuccess >= 0
  }

  function SlotsOf(s: State, id: int): set<Slot> {
    set slot | slot in s.news && s.news[slot] == id
  }

  /** Every test of Check_ but the one of the key. */
  ghost predicate CheckPasses(s: State) {
    && |s.random| == s.nTried + s.nNew
    && (forall id | id in s.info :: EntryPasses(s, id))
    && |TriedIds(s)| == s.nTried && |NewIds(s)| == s.nNew
    && (forall slot | slot in s.tried :: s.tried[slot] in TriedIds(s) && slot == s.TriedSlot(s.info[s.tried[slot]].service))
    && (forall slot | slot in s.news ::
          slot.0 < NEW_BUCKETS && s.news[slot] in NewIds(s) && slot == s.NewSlot(s.info[s.news[slot]].service, slot.0))
    && (forall id | id in TriedIds(s) :: exists slot :: slot in s.tried && s.tried[slot] == id)
    && (forall id | id in NewIds(s) :: |SlotsOf(s, id)| == s.info[id].refCount)
  }

  /**
   * What the self-check does not look at: the range of the ids, addresses that lead nowhere, and an entry
   * zero without an address, since looking a missing address up gives zero.
   */
  ghost predicate Untested(s: State) {
    && (forall id | id in s.info :: 0 <= id < s.idCount && s.info[id].service.ip in s.addr)
    && (forall ip | ip in s.addr :: s.addr[ip] in s.info && s.info[s.addr[ip]].service.ip == ip)
  }

  // ----- counting -----

  lemma {:induction false} SameSize<T>(a: set<T>, b: set<T>)
    requires a <= b && |a| == |b|
    ensures a == b
  {
    assert |b - a| == 0;
    assert b == a + (b - a);
  }

  /** An injective image is as large as what it is an image of. */
  lemma {:induction false} ImageSize(ids: set<int>, s: State)
    requires forall id | id in ids :: id in s.info && 0 <= s.info[id].randomPos < |s.random| && s.random[s.info[id].randomPos] == id
    ensures |set id | id in ids :: s.info[id].randomPos| == |ids|
    decreases |ids|
  {
    var image := set id | id in ids :: s.info[id].randomPos;
    if ids != {} {
      var id := T.Pick(ids);
      var rest := ids - {id};
      ImageSize(rest, s);
      var image' := set x | x in rest :: s.info[x].randomPos;
      assert image == image' + {s.info[id].randomPos};
    } else {
      assert image == {};
    }
  }

  function Below(n: nat): (r: set<int>)
    ensures |r| == n && forall p :: p in r <==> 0 <= p < n
  {
    if n == 0 then {} else Below(n - 1) + {n - 1}
  }

  /** As many entries as positions, each at its own: every position is taken. */
  lemma {:induction false} ShuffleIsFull(s: State)
    requires |s.random| == |s.info.Keys|
    requires forall id | id in s.info :: 0 <= s.info[id].randomPos < |s.random| && s.random[s.info[id].randomPos] == id
    ensures RandomOk(s)
  {
    var ids := s.info.Keys;
    var image := set id | id in ids :: s.info[id].randomPos;
    ImageSize(ids, s);
    assert image <= Below(|s.random|);
    SameSize(image, Below(|s.random|));
    forall p | 0 <= p < |s.random| ensures s.random[p] in s.info && s.info[s.random[p]].randomPos == p {
      assert p in Below(|s.random|) && p in image;
      var id :| id in ids && s.info[id].randomPos == p;
    }
  }

  /** The slots of an entry are one for each of its buckets. */
  lemma {:induction false} SlotsAreBuckets(s: State, id: int)
    requires id in s.info
    requires forall slot | slot in s.news && s.news[slot] == id :: slot.0 < NEW_BUCKETS && slot == s.NewSlot(s.info[id].service, slot.0)
    ensures |SlotsOf(s, id)| == |Buckets(s, id)|
  {
    var svc := s.info[id].service;
    var slots := SlotsOf(s, id);
    forall slot ensures slot in slots <==> slot in SlotImage(s, svc, Buckets(s, id)) {
      if slot in slots { assert Holds(s, id, slot.0); }
    }
    assert slots == SlotImage(s, svc, Buckets(s, id));
    SlotImageSize(s, svc, Buckets(s, id));
  }

  function SlotImage(s: State, svc: Service, buckets: set<nat>): set<Slot> {
    set b | b in buckets :: s.NewSlot(svc, b)
  }

  lemma {:induction false} SlotImageSize(s: State, svc: Service, buckets: set<nat>)
    ensures |SlotImage(s, svc, buckets)| == |buckets|
    decreases |buckets|
  {
    if buckets != {} {
      var b :| b in buckets;
      var rest := buckets - {b};
      SlotImageSize(s, svc, rest);
      assert SlotImage(s, svc, buckets) == SlotImage(s, svc, rest) + {s.NewSlot(svc, b)};
      assert s.NewSlot(svc, b) !in SlotImage(s, svc, rest);
    } else {
      assert SlotImage(s, svc, buckets) == {};
    }
  }

  // ----- the check and the invariant -----

  lemma {:induction false} PassingRegistry(s: State)
    requires CheckPasses(s) && Untested(s)
    ensures IdsOk(s) && AddrOk(s) && RandomOk(s)
  {
    forall id | id in s.info ensures EntryPasses(s, id) {}
    R.TwoKinds(s);
    ShuffleIsFull(s);
  }

  lemma {:induction false} PassingTables(s: State)
    requires CheckPasses(s)
    ensures TriedOk(s) && NewOk(s) && Standing(s, {}) && Counted(s, {}, 0)
  {
    forall id | id in s.info ensures EntryPasses(s, id) {}
    forall id | id in s.info && s.info[id].inTried
      ensures s.TriedSlot(s.info[id].service) in s.tried && s.tried[s.TriedSlot(s.info[id].service)] == id
    {
      assert id in TriedIds(s);
      var slot :| slot in s.tried && s.tried[slot] == id;
    }
    assert NewIds(s) - {} == NewIds(s);
  }

  lemma {:induction false} PassingRefs(s: State)
    requires CheckPasses(s)
    ensures AllRefsOk(s)
  {
    forall id | id in s.info ensures RefsOk(s, id) {
      assert EntryPasses(s, id);
      SlotsAreBuckets(s, id);
      if id in NewIds(s) {
        assert |SlotsOf(s, id)| == s.info[id].refCount;
      } else {
        assert SlotsOf(s, id) == {} by {
          forall slot | slot in s.news ensures s.news[slot] != id {}
        }
      }
    }
  }

  lemma {:induction false} PassingTimes(s: State)
    requires CheckPasses(s)
    ensures Credible(s)
  {
    forall id | id in s.info ensures Dated(s.info[id]) { assert EntryPasses(s, id); }
  }

  lemma {:induction false} InvEntries(s: State)
    requires Inv(s) && Credible(s)
    ensures forall id | id in s.info :: EntryPasses(s, id)
  {
    forall id | id in s.info ensures EntryPasses(s, id) {
      assert Settled(s.info[id]) && Dated(s.info[id]) && s.addr[s.info[id].service.ip] == id;
    }
  }

  lemma {:induction false} InvTables(s: State)
    requires Inv(s)
    ensures forall slot | slot in s.tried :: s.tried[slot] in TriedIds(s) && slot == s.TriedSlot(s.info[s.tried[slot]].service)
    ensures forall slot | slot in s.news ::
              slot.0 < NEW_BUCKETS && s.news[slot] in NewIds(s) && slot == s.NewSlot(s.info[s.news[slot]].service, slot.0)
    ensures forall id | id in TriedIds(s) :: exists slot :: slot in s.tried && s.tried[slot] == id
    ensures forall id | id in NewIds(s) :: |SlotsOf(s, id)| == s.info[id].refCount
  {
    hide IdsOk, AddrOk, RandomOk, Standing, Counted;
    forall id | id in TriedIds(s) ensures exists slot :: slot in s.tried && s.tried[slot] == id {
      assert s.TriedSlot(s.info[id].service) in s.tried;
    }
    forall id | id in NewIds(s) ensures |SlotsOf(s, id)| == s.info[id].refCount {
      assert RefsOk(s, id);
      SlotsAreBuckets(s, id);
    }
  }

  lemma {:induction false} InvCounts(s: State)
    requires Inv(s)
    ensures |TriedIds(s)| == s.nTried && |NewIds(s)| == s.nNew && |s.random| == s.nTried + s.nNew
  {
    hide IdsOk, AddrOk, RandomOk, TriedOk, NewOk, AllRefsOk, Standing;
    R.RandomIsPermutation(s);
    assert NewIds(s) - {} == NewIds(s);
  }

  lemma {:induction false} InvUntested(s: State)
    requires Inv(s)
    ensures Untested(s)
  {
    hide RandomOk, TriedOk, NewOk, AllRefsOk, Standing, Counted;
  }

  /** The self-check passes on exactly the consistent states, as far as it looks. */
  lemma {:induction false} CheckIsInv(s: State)
    ensures Inv(s) && Credible(s) <==> CheckPasses(s) && Untested(s)
  {
    hide IdsOk, AddrOk, RandomOk, TriedOk, NewOk, AllRefsOk, Standing, Counted, EntryPasses, SlotsOf, TriedIds, NewIds, Untested, Credible;
    if Inv(s) && Credible(s) {
      InvEntries(s);
      InvTables(s);
      InvCounts(s);
      InvUntested(s);
    }
    if CheckPasses(s) && Untested(s) {
      PassingRegistry(s);
      PassingTables(s);
      PassingRefs(s);
      PassingTimes(s);
    }
  }
}
