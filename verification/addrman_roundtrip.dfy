/** Loading what was saved: the same addresses, statistics, slots and counts, under new ids. */
module AddrRoundTrip {
  import opened Wrappers
  import opened AddrModel
  import opened AddrInv
  import opened AddrSerial
  import R = AddrRuns

  // ----- the order in which ids are written -----

  function Order(s: State): seq<int> {
    NewBelow(s.info, s.idCount) + TriedBelow(s.info, s.idCount)
  }

  /** The id an entry has after loading. */
  function Renumber(s: State, id: int): nat {
    if id !in s.info || id < 0 then 0
    else if s.info[id].inTried then |NewBelow(s.info, s.idCount)| + |TriedBelow(s.info, id)| else NewNumber(s.info, id)
  }

  lemma {:induction false} NewBelowLists(info: map<int, Info>, n: nat, id: int)
    requires 0 <= id < n && id in info && info[id].refCount != 0
    ensures NewNumber(info, id) < |NewBelow(info, n)| && NewBelow(info, n)[NewNumber(info, id)] == id
  {
    if id < n - 1 { NewBelowLists(info, n - 1, id); }
  }

  lemma {:induction false} TriedBelowLists(info: map<int, Info>, n: nat, id: int)
    requires 0 <= id < n && id in info && info[id].inTried
    ensures |TriedBelow(info, id)| < |TriedBelow(info, n)| && TriedBelow(info, n)[|TriedBelow(info, id)|] == id
  {
    if id < n - 1 { TriedBelowLists(info, n - 1, id); }
  }

  predicate Increasing(q: seq<int>) {
    forall j, k | 0 <= j < k < |q| :: q[j] < q[k]
  }

  lemma {:induction false} BelowIncreasing(info: map<int, Info>, n: nat)
    ensures Increasing(NewBelow(info, n)) && Increasing(TriedBelow(info, n))
  {
    if n > 0 {
      BelowIncreasing(info, n - 1);
      BelowKnown(info, n - 1);
    }
  }

  /** An entry of a consistent manager has references exactly when it is not in tried. */
  ghost predicate Sorted(s: State) {
    forall id | id in s.info :: 0 <= id < s.idCount && (s.info[id].inTried <==> s.info[id].refCount == 0)
  }

  lemma {:induction false} InvSorted(s: State)
    requires Inv(s)
    ensures Sorted(s)
  {
    hide AddrOk, RandomOk, TriedOk, NewOk, AllRefsOk, Counted;
    forall id | id in s.info ensures 0 <= id < s.idCount && (s.info[id].inTried <==> s.info[id].refCount == 0) {
      assert Settled(s.info[id]);
    }
  }

  lemma {:induction false} InvNewOk(s: State)
    requires Inv(s)
    ensures NewOk(s)
  {
  }

  /** Every entry is in the list, at the position that is its new id. */
  predicate Lists(s: State, q: seq<int>)
    requires Sorted(s)
  {
    && (forall id | id in s.info :: Renumber(s, id) < |q| && q[Renumber(s, id)] == id)
    && (forall k | 0 <= k < |q| :: q[k] in s.info && Renumber(s, q[k]) == k)
  }

  predicate NewFirst(s: State, q: seq<int>, m: nat)
    requires Known(s, q)
  {
    forall k | 0 <= k < |q| :: s.info[q[k]].inTried <==> k >= m
  }

  lemma {:induction false} OrderKnown(s: State)
    requires Sorted(s)
    ensures Known(s, Order(s)) && NewFirst(s, Order(s), |NewBelow(s.info, s.idCount)|)
  {
    var news, trieds := NewBelow(s.info, s.idCount), TriedBelow(s.info, s.idCount);
    BelowKnown(s.info, s.idCount);
    var q := Order(s);
    forall k | 0 <= k < |q| ensures q[k] in s.info && (s.info[q[k]].inTried <==> k >= |news|) {
      if k < |news| { assert q[k] == news[k]; } else { assert q[k] == trieds[k - |news|]; }
    }
  }

  lemma {:induction false} InOrder(s: State, id: int)
    requires Sorted(s) && id in s.info
    ensures Renumber(s, id) < |Order(s)| && Order(s)[Renumber(s, id)] == id
  {
    if s.info[id].inTried { TriedBelowLists(s.info, s.idCount, id); } else { NewBelowLists(s.info, s.idCount, id); }
  }

  lemma {:induction false} OrderDistinct(s: State, j: nat, k: nat)
    requires Sorted(s) && j < k < |Order(s)|
    ensures Order(s)[j] != Order(s)[k]
  {
    var news, trieds, q := NewBelow(s.info, s.idCount), TriedBelow(s.info, s.idCount), Order(s);
    OrderKnown(s);
    BelowIncreasing(s.info, s.idCount);
    assert q[j] in s.info && q[k] in s.info;
    if k < |news| { assert news[j] < news[k]; }
    else if j >= |news| { assert trieds[j - |news|] < trieds[k - |news|]; }
  }

  /** The written order lists every entry once, new ones first; Renumber is the position in it. */
  lemma {:induction false} OrderLists(s: State)
    requires Sorted(s)
    ensures Lists(s, Order(s)) && Known(s, Order(s)) && NewFirst(s, Order(s), |NewBelow(s.info, s.idCount)|)
  {
    hide Order, Renumber;
    var q := Order(s);
    OrderKnown(s);
    forall id | id in s.info ensures Renumber(s, id) < |q| && q[Renumber(s, id)] == id { InOrder(s, id); }
    forall k | 0 <= k < |q| ensures q[k] in s.info && Renumber(s, q[k]) == k {
      var j := Renumber(s, q[k]);
      InOrder(s, q[k]);
      if j < k { OrderDistinct(s, j, k); } else if k < j { OrderDistinct(s, k, j); }
    }
  }

  lemma {:induction false} NewIdsListed(s: State)
    requires Sorted(s)
    ensures NewIds(s) == set x | x in NewBelow(s.info, s.idCount)
  {
    var news := NewBelow(s.info, s.idCount);
    BelowKnown(s.info, s.idCount);
    forall id ensures id in NewIds(s) <==> id in news {
      if id in NewIds(s) { NewBelowLists(s.info, s.idCount, id); }
      if id in news { var k :| 0 <= k < |news| && news[k] == id; }
    }
  }

  lemma {:induction false} TriedIdsListed(s: State)
    requires Sorted(s)
    ensures TriedIds(s) == set x | x in TriedBelow(s.info, s.idCount)
  {
    var trieds := TriedBelow(s.info, s.idCount);
    BelowKnown(s.info, s.idCount);
    forall id ensures id in TriedIds(s) <==> id in trieds {
      if id in TriedIds(s) { TriedBelowLists(s.info, s.idCount, id); }
      if id in trieds { var k :| 0 <= k < |trieds| && trieds[k] == id; }
    }
  }

  lemma {:induction false} OrderCounts(s: State)
    requires Inv(s)
    ensures |NewBelow(s.info, s.idCount)| == s.nNew && |TriedBelow(s.info, s.idCount)| == s.nTried
  {
    hide IdsOk, AddrOk, RandomOk, TriedOk, NewOk, AllRefsOk, Standing;
    InvSorted(s);
    var news, trieds := NewBelow(s.info, s.idCount), TriedBelow(s.info, s.idCount);
    BelowKnown(s.info, s.idCount);
    BelowIncreasing(s.info, s.idCount);
    R.DistinctCard(news);
    R.DistinctCard(trieds);
    NewIdsListed(s);
    TriedIdsListed(s);
    assert NewIds(s) - {} == NewIds(s);
  }

  // ----- the state reached after loading part of the stream -----

  predicate Known(s: State, q: seq<int>) {
    forall k | 0 <= k < |q| :: q[k] in s.info
  }

  /** How many references of an entry are among the slots of loaded. */
  function RefsIn(s: State, id: int, loaded: set<Slot>): nat
    requires id in s.info
  {
    |set b | b in Buckets(s, id) && s.NewSlot(s.info[id].service, b) in loaded|
  }

  function InfoOf(s: State, q: seq<int>, loaded: set<Slot>): map<int, Info>
    requires Known(s, q)
  {
    map k | 0 <= k < |q| ::
      Restore(Persist(s.info[q[k]])).(randomPos := k, inTried := s.info[q[k]].inTried, refCount := RefsIn(s, q[k], loaded))
  }

  function AddrOf(s: State, q: seq<int>): map<nat, int>
    requires Known(s, q)
  {
    if q == [] then map[] else
    var last := |q| - 1;
    AddrOf(s, q[..last])[s.info[q[last]].service.ip := last]
  }

  function TriedOf(s: State, q: seq<int>): map<Slot, int>
    requires Known(s, q)
  {
    if q == [] then map[] else
    var last := |q| - 1;
    var rest := TriedOf(s, q[..last]);
    if s.info[q[last]].inTried then rest[s.TriedSlot(s.info[q[last]].service) := last] else rest
  }

  function NewsOf(s: State, loaded: set<Slot>): map<Slot, int> {
    map slot | slot in loaded && slot in s.news :: NewNumber(s.info, s.news[slot])
  }

  /** The entries of q have been read, and the references of loaded. */
  function Staged(s: State, q: seq<int>, loaded: set<Slot>): State
    requires Known(s, q)
  {
    State(s.hash, s.key, |q|, InfoOf(s, q, loaded), AddrOf(s, q), Range(|q|), s.nTried, TriedOf(s, q), s.nNew, NewsOf(s, loaded), 1)
  }

  lemma {:induction false} NoRefsYet(s: State, id: int)
    requires id in s.info
    ensures RefsIn(s, id, {}) == 0
  {
    assert (set b | b in Buckets(s, id) && s.NewSlot(s.info[id].service, b) in {}) == {};
  }

  function HeaderOf(s: State): Header {
    Header(1, s.key, s.nNew, s.nTried, NEW_BUCKETS)
  }

  /** Reading one more new entry. */
  lemma {:induction false} LoadNewStage(s: State, q: seq<int>, n: nat)
    requires Known(s, q) && n < |q| && !s.info[q[n]].inTried
    ensures LoadNew(Staged(s, q[..n], {}).(idCount := 0), HeaderOf(s), n, Persist(s.info[q[n]]))
            == Staged(s, q[..n + 1], {}).(idCount := 0)
  {
    NoRefsYet(s, q[n]);
    assert q[..n + 1][..n] == q[..n];
    assert Range(n + 1) == Range(n) + [n];
    assert InfoOf(s, q[..n + 1], {}) == InfoOf(s, q[..n], {})[n := Restore(Persist(s.info[q[n]])).(randomPos := n)];
    assert NewsOf(s, {}) == map[];
  }

  lemma {:induction false} LoadTriedStage(s: State, q: seq<int>, n: nat)
    requires Known(s, q) && n < |q| && s.info[q[n]].inTried
    requires s.TriedSlot(s.info[q[n]].service) !in TriedOf(s, q[..n]) && s.info[q[n]].refCount == 0 && RefsOk(s, q[n])
    ensures LoadTried(Staged(s, q[..n], {}), Persist(s.info[q[n]])) == Staged(s, q[..n + 1], {})
  {
    NoRefsYet(s, q[n]);
    assert q[..n + 1][..n] == q[..n];
    assert Range(n + 1) == Range(n) + [n];
    assert InfoOf(s, q[..n + 1], {}) == InfoOf(s, q[..n], {})[n := Restore(Persist(s.info[q[n]])).(randomPos := n, inTried := true)];
  }

  lemma {:induction false} ReadNewStages(s: State, q: seq<int>, n: nat, rest: Stream)
    requires Known(s, q) && n <= |q| == s.nNew && forall k | 0 <= k < |q| :: !s.info[q[k]].inTried
    ensures ReadNew(Staged(s, q[..n], {}).(idCount := 0), HeaderOf(s), n, Items(s.info, q[n..]) + rest)
            == Some((Staged(s, q, {}).(idCount := 0), rest))
    decreases |q| - n
  {
    hide Staged, LoadNew;
    if n == |q| {
      assert q[..n] == q && Items(s.info, q[n..]) + rest == rest;
    } else {
      LoadNewStage(s, q, n);
      assert q[n..][0] == q[n] && q[n..][1..] == q[n + 1..];
      var t := Items(s.info, q[n..]) + rest;
      assert t[0] == Item(Persist(s.info[q[n]])) && t[1..] == Items(s.info, q[n + 1..]) + rest;
      ReadNewStages(s, q, n + 1, rest);
    }
  }

  /** Distinct tried entries of q have distinct slots. */
  predicate SlotsApart(s: State, q: seq<int>)
    requires Known(s, q)
  {
    forall j, k | 0 <= j < k < |q| && s.info[q[j]].inTried && s.info[q[k]].inTried ::
      s.TriedSlot(s.info[q[j]].service) != s.TriedSlot(s.info[q[k]].service)
  }

  /** A table that holds exactly the tried entries of q, by their positions. */
  predicate IsTriedTable(s: State, q: seq<int>, m: map<Slot, int>)
    requires Known(s, q)
  {
    && (forall k | 0 <= k < |q| && s.info[q[k]].inTried ::
          s.TriedSlot(s.info[q[k]].service) in m && m[s.TriedSlot(s.info[q[k]].service)] == k)
    && (forall slot | slot in m ::
          0 <= m[slot] < |q| && s.info[q[m[slot]]].inTried && s.TriedSlot(s.info[q[m[slot]]].service) == slot)
  }

  lemma {:induction false} TriedOfIs(s: State, q: seq<int>)
    requires Known(s, q) && SlotsApart(s, q)
    ensures IsTriedTable(s, q, TriedOf(s, q))
    decreases |q|
  {
    if q != [] {
      var last := |q| - 1;
      var front := q[..last];
      assert forall k | 0 <= k < |front| :: front[k] == q[k];
      TriedOfIs(s, front);
      var m0, m := TriedOf(s, front), TriedOf(s, q);
      forall slot | slot in m
        ensures 0 <= m[slot] < |q| && s.info[q[m[slot]]].inTried && s.TriedSlot(s.info[q[m[slot]]].service) == slot
      {
        if m[slot] != last { assert slot in m0 && front[m0[slot]] == q[m[slot]]; }
      }
    }
  }

  lemma {:induction false} ReadTriedStages(s: State, q: seq<int>, n: nat, rest: Stream)
    requires Known(s, q) && SlotsApart(s, q) && AllRefsOk(s) && Sorted(s)
    requires 0 <= s.nNew <= s.nNew + n <= |q| == s.nNew + s.nTried
    requires forall k | s.nNew <= k < |q| :: s.info[q[k]].inTried
    ensures ReadTried(Staged(s, q[..s.nNew + n], {}), HeaderOf(s), n, Items(s.info, q[s.nNew + n..]) + rest)
            == Some((Staged(s, q, {}), rest))
    decreases |q| - n
  {
    hide Staged, LoadTried;
    var p := s.nNew + n;
    if p == |q| {
      assert q[..p] == q && Items(s.info, q[p..]) + rest == rest;
    } else {
      SlotFree(s, q, p);
      assert RefsOk(s, q[p]);
      LoadTriedStage(s, q, p);
      assert q[p..][0] == q[p] && q[p..][1..] == q[p + 1..];
      var t := Items(s.info, q[p..]) + rest;
      assert t[0] == Item(Persist(s.info[q[p]])) && t[1..] == Items(s.info, q[p + 1..]) + rest;
      ReadTriedStages(s, q, n + 1, rest);
    }
  }

  lemma {:induction false} SlotFree(s: State, q: seq<int>, p: nat)
    requires Known(s, q) && SlotsApart(s, q) && p < |q| && s.info[q[p]].inTried
    ensures s.TriedSlot(s.info[q[p]].service) !in TriedOf(s, q[..p])
  {
    var front := q[..p];
    TriedOfIs(s, front);
    assert forall k | 0 <= k < |front| :: front[k] == q[k];
  }

  // ----- the references of the new table -----

  /** Slots of the new table before position i of bucket b. */
  function Before(s: State, b: nat, i: nat): set<Slot> {
    set slot | slot in s.news && (slot.0 < b || (slot.0 == b && slot.1 < i))
  }

  lemma {:induction false} RefsInGrows(s: State, id: int, loaded: set<Slot>, slot: Slot)
    requires id in s.info && NewOk(s) && slot in s.news && slot !in loaded && RefsOk(s, id)
    ensures RefsIn(s, id, loaded + {slot}) == RefsIn(s, id, loaded) + if s.news[slot] == id then 1 else 0
    ensures s.news[slot] == id ==> RefsIn(s, id, loaded) < s.info[id].refCount
  {
    var svc := s.info[id].service;
    var was := set b | b in Buckets(s, id) && s.NewSlot(svc, b) in loaded;
    var now := set b | b in Buckets(s, id) && s.NewSlot(svc, b) in loaded + {slot};
    if s.news[slot] == id {
      assert Holds(s, id, slot.0);
      assert slot.0 in Buckets(s, id) && slot.0 !in was;
      forall b ensures b in now <==> b in was + {slot.0} {}
      assert now == was + {slot.0};
      assert was <= Buckets(s, id) - {slot.0};
      SubsetCard(was, Buckets(s, id) - {slot.0});
    } else {
      forall b ensures b in now <==> b in was {}
      assert now == was;
    }
  }

  lemma {:induction false} SubsetCard(a: set<nat>, b: set<nat>)
    requires a <= b
    ensures |a| <= |b|
  {
    assert b == a + (b - a);
  }

  /** The entry in a slot, seen from its new number. */
  lemma {:induction false} SlotOwner(s: State, slot: Slot)
    requires NewOk(s) && Sorted(s) && slot in s.news
    ensures var id := s.news[slot]; var q := Order(s);
            && id in s.info && !s.info[id].inTried && s.info[id].refCount != 0
            && Renumber(s, id) == NewNumber(s.info, id) < |NewBelow(s.info, s.idCount)| <= |q|
            && q[NewNumber(s.info, id)] == id
  {
    InOrder(s, s.news[slot]);
    NewBelowLists(s.info, s.idCount, s.news[slot]);
  }

  lemma {:induction false} InfoOfGrows(s: State, q: seq<int>, loaded: set<Slot>, slot: Slot, number: nat)
    requires Sorted(s) && Known(s, q) && Lists(s, q) && NewOk(s) && AllRefsOk(s)
    requires slot in s.news && slot !in loaded && number < |q| && q[number] == s.news[slot]
    ensures var m := InfoOf(s, q, loaded);
            InfoOf(s, q, loaded + {slot}) == m[number := m[number].(refCount := m[number].refCount + 1)]
  {
    hide RefsIn, Persist, Restore, Renumber, NewOk, Buckets;
    var m, m' := InfoOf(s, q, loaded), InfoOf(s, q, loaded + {slot});
    forall k | 0 <= k < |q| ensures m'[k] == if k == number then m[k].(refCount := m[k].refCount + 1) else m[k] {
      RefsInGrows(s, q[k], loaded, slot);
      assert q[k] == s.news[slot] ==> k == number by { assert Renumber(s, q[k]) == k && Renumber(s, q[number]) == number; }
    }
  }

  /** Reading one reference. */
  lemma {:induction false} LoadRefStage(s: State, loaded: set<Slot>, slot: Slot)
    requires NewOk(s) && AllRefsOk(s) && Sorted(s) && Standing(s, {}) && Known(s, Order(s))
    requires slot in s.news && slot !in loaded && loaded <= s.news.Keys
    requires s.nNew == |NewBelow(s.info, s.idCount)|
    ensures LoadRef(Staged(s, Order(s), loaded), HeaderOf(s), slot.0, NewNumber(s.info, s.news[slot]))
            == Staged(s, Order(s), loaded + {slot})
  {
    hide Order, Renumber, NewNumber, Lists, AllRefsOk, RefsIn, AddrOf, TriedOf, NewFirst, InfoOf;
    var q, id := Order(s), s.news[slot];
    var number := NewNumber(s.info, id);
    SlotOwner(s, slot);
    OrderLists(s);
    RefLeft(s, loaded, slot);
    InfoOfGrows(s, q, loaded, slot, number);
    var s0, s1 := Staged(s, q, loaded), Staged(s, q, loaded + {slot});
    StagedEntry(s, q, loaded, number);
    assert s0.NewSlot(s0.info[number].service, slot.0) == slot;
    assert LoadRef(s0, HeaderOf(s), slot.0, number) == PutNew(s0, number, slot, s0.info[number].refCount + 1);
    assert s1.news == s0.news[slot := number];
  }

  lemma {:induction false} RefLeft(s: State, loaded: set<Slot>, slot: Slot)
    requires NewOk(s) && AllRefsOk(s) && Standing(s, {}) && slot in s.news && slot !in loaded
    ensures RefsIn(s, s.news[slot], loaded) < BUCKETS_PER_ADDRESS
  {
    assert RefsOk(s, s.news[slot]) && Settled(s.info[s.news[slot]]);
    RefsInGrows(s, s.news[slot], loaded, slot);
  }

  lemma {:induction false} StagedEntry(s: State, q: seq<int>, loaded: set<Slot>, k: nat)
    requires Known(s, q) && k < |q|
    ensures var i := s.info[q[k]]; var m := InfoOf(s, q, loaded);
            && k in m && Persist(m[k]) == Persist(i) && m[k].inTried == i.inTried
            && m[k].refCount == RefsIn(s, q[k], loaded) && m[k].randomPos == k && m[k].lastTry == 0
  {
  }

  lemma {:induction false} BeforeStep(s: State, b: nat, i: nat)
    ensures Before(s, b, i + 1) == if (b, i) in s.news then Before(s, b, i) + {(b, i)} else Before(s, b, i)
    ensures (b, i) !in Before(s, b, i) && Before(s, b, i) <= s.news.Keys
  {
    var after := if (b, i) in s.news then Before(s, b, i) + {(b, i)} else Before(s, b, i);
    forall x ensures x in Before(s, b, i + 1) <==> x in after {}
  }

  lemma {:induction false} BeforeNextRow(s: State, b: nat)
    requires NewOk(s)
    ensures Before(s, b, BUCKET_SIZE) == Before(s, b + 1, 0)
    ensures Before(s, 0, 0) == {} && Before(s, NEW_BUCKETS, 0) == s.news.Keys
  {
    forall x ensures x in Before(s, b, BUCKET_SIZE) <==> x in Before(s, b + 1, 0) {}
    forall x ensures x in Before(s, NEW_BUCKETS, 0) <==> x in s.news.Keys {}
  }

  /** What loading relies on. */
  ghost predicate Loadable(s: State) {
    && NewOk(s) && AllRefsOk(s) && Sorted(s) && Standing(s, {}) && Known(s, Order(s))
    && s.nNew == |NewBelow(s.info, s.idCount)| && s.nTried == |TriedBelow(s.info, s.idCount)|
  }

  lemma {:induction false} RowStages(s: State, b: nat, i: nat, rest: Stream)
    requires Loadable(s) && i <= BUCKET_SIZE
    ensures ReadRow(Staged(s, Order(s), Before(s, b, i)), HeaderOf(s), b, |RowFrom(s, b, i)|, Numbers(RowFrom(s, b, i)) + rest)
            == Some((Staged(s, Order(s), Before(s, b, BUCKET_SIZE)), rest))
    decreases BUCKET_SIZE - i
  {
    hide NewOk, AllRefsOk, Sorted, Standing, Order, Staged, LoadRef, Before, RowFrom, Numbers, NewNumber;
    if i == BUCKET_SIZE {
      RowStep(s, b, 0);
      assert Numbers([]) + rest == rest;
    } else {
      BeforeStep(s, b, i);
      RowStages(s, b, i + 1, rest);
      RowStep(s, b, i);
      var t, t' := Numbers(RowFrom(s, b, i)) + rest, Numbers(RowFrom(s, b, i + 1)) + rest;
      if (b, i) in s.news {
        LoadRefStage(s, Before(s, b, i), (b, i));
        assert t == [Number(NewNumber(s.info, s.news[(b, i)]))] + t';
      } else {
        assert t == t';
      }
    }
  }

  lemma {:induction false} RowsStages(s: State, b: nat)
    requires Loadable(s) && b <= NEW_BUCKETS
    ensures ReadRows(Staged(s, Order(s), Before(s, b, 0)), HeaderOf(s), b, RowsFrom(s, b))
            == Some((Staged(s, Order(s), s.news.Keys), []))
    decreases NEW_BUCKETS - b
  {
    hide NewOk, AllRefsOk, Sorted, Standing, Order, Staged, LoadRef, Before, RowFrom, ReadRow;
    BeforeNextRow(s, b);
    if b < NEW_BUCKETS {
      var row := RowFrom(s, b, 0);
      var rest := RowsFrom(s, b + 1);
      RowStages(s, b, 0, rest);
      var t := RowsFrom(s, b);
      assert t[0] == Number(|row|) && t[1..] == Numbers(row) + rest;
      RowsStages(s, b + 1);
    }
  }

  // ----- the limits on the counters -----

  lemma {:induction false} ColumnCard(q: set<Slot>, b: nat, n: nat)
    requires forall x | x in q :: x.0 == b && x.1 < n
    ensures |q| <= n
  {
    if n == 0 {
      assert q == {};
    } else {
      ColumnCard(q - {(b, n - 1)}, b, n - 1);
    }
  }

  lemma {:induction false} GridCard(q: set<Slot>, m: nat, n: nat)
    requires forall x | x in q :: x.0 < m && x.1 < n
    ensures |q| <= m * n
  {
    if m == 0 {
      assert q == {};
    } else {
      var column := set x | x in q && x.0 == m - 1;
      ColumnCard(column, m - 1, n);
      GridCard(q - column, m - 1, n);
      assert q == (q - column) + column;
      assert m * n == (m - 1) * n + n;
    }
  }

  lemma {:induction false} Pick<T>(q: set<T>) returns (x: T)
    requires q != {}
    ensures x in q
  {
    x :| x in q;
  }

  /** A table that mentions every id of a set has at least as many slots as the set has ids. */
  lemma {:induction false} OntoCard(table: map<Slot, int>, ids: set<int>)
    requires forall id | id in ids :: exists slot :: slot in table && table[slot] == id
    ensures |ids| <= |table.Keys|
    decreases table.Keys
  {
    if ids != {} {
      var id := Pick(ids);
      var slot :| slot in table && table[slot] == id;
      var table' := table - {slot};
      forall x | x in ids - {id} ensures exists t :: t in table' && table'[t] == x {
        var t :| t in table && table[t] == x;
        assert t in table' && table'[t] == x;
      }
      assert table'.Keys == table.Keys - {slot};
      OntoCard(table', ids - {id});
    }
  }

  lemma {:induction false} NewFits(s: State)
    requires NewOk(s) && AllRefsOk(s) && Sorted(s)
    ensures |NewIds(s)| <= NEW_BUCKETS * BUCKET_SIZE
  {
    forall id | id in NewIds(s) ensures exists slot :: slot in s.news && s.news[slot] == id {
      assert RefsOk(s, id) && Buckets(s, id) != {};
      var b :| b in Buckets(s, id);
      assert Holds(s, id, b);
      var slot := s.NewSlot(s.info[id].service, b);
      assert slot in s.news && s.news[slot] == id;
    }
    OntoCard(s.news, NewIds(s));
    GridCard(s.news.Keys, NEW_BUCKETS, BUCKET_SIZE);
  }

  lemma {:induction false} TriedFits(s: State)
    requires TriedOk(s)
    ensures |TriedIds(s)| <= TRIED_BUCKETS * BUCKET_SIZE
  {
    forall id | id in TriedIds(s) ensures exists slot :: slot in s.tried && s.tried[slot] == id {
      var slot := s.TriedSlot(s.info[id].service);
      assert slot in s.tried && s.tried[slot] == id;
    }
    OntoCard(s.tried, TriedIds(s));
    forall x | x in s.tried.Keys ensures x.0 < TRIED_BUCKETS && x.1 < BUCKET_SIZE {
      assert x == s.TriedSlot(s.info[s.tried[x]].service);
    }
    GridCard(s.tried.Keys, TRIED_BUCKETS, BUCKET_SIZE);
  }

  lemma {:induction false} CountersFit(s: State)
    requires Inv(s)
    ensures 0 <= s.nNew <= NEW_BUCKETS * BUCKET_SIZE && 0 <= s.nTried <= TRIED_BUCKETS * BUCKET_SIZE
  {
    hide IdsOk, AddrOk, RandomOk, TriedOk, NewOk, AllRefsOk, Standing;
    InvSorted(s);
    NewFits(s);
    TriedFits(s);
    assert NewIds(s) - {} == NewIds(s);
  }

  // ----- the round trip -----

  lemma {:induction false} InvLoadable(s: State)
    requires Inv(s)
    ensures Loadable(s) && SlotsApart(s, Order(s)) && NewFirst(s, Order(s), s.nNew)
  {
    hide IdsOk, AddrOk, RandomOk, NewOk, AllRefsOk, Counted, Order, Standing;
    InvSorted(s);
    OrderCounts(s);
    OrderLists(s);
    var q := Order(s);
    forall j, k | 0 <= j < k < |q| && s.info[q[j]].inTried && s.info[q[k]].inTried
      ensures s.TriedSlot(s.info[q[j]].service) != s.TriedSlot(s.info[q[k]].service)
    {
      OrderDistinct(s, j, k);
    }
  }

  lemma {:induction false} NothingToPrune(s: State, ids: seq<int>)
    requires forall id | id in s.info :: s.info[id].inTried || s.info[id].refCount != 0
    ensures Prune(s, ids) == Some(s)
    decreases |ids|
  {
    if ids != [] { NothingToPrune(s, ids[1..]); }
  }

  /** The manager that loading must produce. */
  function Reloaded(s: State): State
    requires Known(s, Order(s))
  {
    Staged(s, Order(s), s.news.Keys)
  }

  lemma {:induction false} AllRefsIn(s: State, id: int)
    requires id in s.info
    ensures RefsIn(s, id, s.news.Keys) == |Buckets(s, id)|
  {
    assert (set b | b in Buckets(s, id) && s.NewSlot(s.info[id].service, b) in s.news.Keys) == Buckets(s, id);
  }

  lemma {:induction false} ReadParts(s: State, t: Stream)
    requires Inv(s) && t == Serialize(s)
    ensures ReadHeader(t).Some? && ReadHeader(t).value.0 == HeaderOf(s)
    ensures ReadHeader(t).value.1 == NewItems(s.info, s.idCount) + (TriedItems(s.info, s.idCount) + RowsFrom(s, 0))
  {
    hide Core, NewItems, TriedItems, RowsFrom;
    CountersFit(s);
    assert t[6..] == NewItems(s.info, s.idCount) + (TriedItems(s.info, s.idCount) + RowsFrom(s, 0));
    assert ToggleFormatBit(NEW_BUCKETS + FORMAT_BIT) == NEW_BUCKETS;
  }

  lemma {:induction false} OrderParts(s: State)
    requires Inv(s)
    ensures var q := Order(s);
            && 0 <= s.nNew <= |q|
            && q[..s.nNew] == NewBelow(s.info, s.idCount) && q[s.nNew..] == TriedBelow(s.info, s.idCount)
  {
    hide Core;
    OrderCounts(s);
  }

  /** Loading what was saved into a fresh manager gives exactly the reloaded state: nothing is lost, dropped or pruned. */
  lemma {:induction false} RoundTrip(s: State)
    requires Inv(s)
    ensures Known(s, Order(s))
    ensures Unserialize(s.hash, Serialize(s)) == Some(Reloaded(s))
  {
    hide Core, Serialize, ReadHeader, Items, RowsFrom, ReadNew, ReadTried, ReadRows, Order, SlotsApart, NewFirst, Loadable;
    var t := Serialize(s);
    ReadParts(s, t);
    OrderParts(s);
    InvLoadable(s);
    LoadableFacts(s);
    var q, n := Order(s), s.nNew;
    var rows := RowsFrom(s, 0);
    var items := Items(s.info, q[n..]) + rows;
    var s0 := Fresh(s.hash, s.key).(nNew := s.nNew, nTried := s.nTried);
    StartStage(s, q);
    NewPrefix(s, q, n);
    ReadNewStages(s, q[..n], 0, items);
    assert q[..n][0..] == q[..n] && q[..n][..0] == [] == q[..0];
    ReadTriedStages(s, q, 0, rows);
    RowsStages(s, 0);
    BeforeNextRow(s, 0);
    ReloadedStands(s);
    NothingToPrune(Reloaded(s), Range(Reloaded(s).idCount));
  }

  lemma {:induction false} LoadableFacts(s: State)
    requires Inv(s) && Loadable(s)
    ensures Known(s, Order(s)) && NewOk(s) && AllRefsOk(s) && Sorted(s)
    ensures 0 <= s.nNew && 0 <= s.nTried && |Order(s)| == s.nNew + s.nTried
  {
  }

  lemma {:induction false} NewPrefix(s: State, q: seq<int>, n: int)
    requires Known(s, q) && 0 <= n <= |q| && NewFirst(s, q, n)
    ensures Known(s, q[..n]) && (forall k | 0 <= k < n :: !s.info[q[..n][k]].inTried)
    ensures forall k | n <= k < |q| :: s.info[q[k]].inTried
  {
  }

  lemma {:induction false} StartStage(s: State, q: seq<int>)
    requires Known(s, q)
    ensures Fresh(s.hash, s.key).(nNew := s.nNew, nTried := s.nTried) == Staged(s, q[..0], {}).(idCount := 0)
  {
    assert InfoOf(s, q[..0], {}) == map[] && NewsOf(s, {}) == map[];
  }

  lemma {:induction false} ReloadedStands(s: State)
    requires Loadable(s)
    ensures forall k | k in Reloaded(s).info :: Reloaded(s).info[k].inTried || Reloaded(s).info[k].refCount != 0
  {
    var q := Order(s);
    forall k | 0 <= k < |q| ensures Reloaded(s).info[k].inTried || Reloaded(s).info[k].refCount != 0 {
      AllRefsIn(s, q[k]);
      assert RefsOk(s, q[k]);
    }
  }

  // ----- what the reloaded manager is -----

  /** The same manager with other ids. */
  ghost predicate SameUpToIds(s: State, s': State)
    requires Sorted(s)
  {
    && s'.hash == s.hash && s'.key == s.key && s'.nNew == s.nNew && s'.nTried == s.nTried
    && (forall id | id in s.info ::
          var k := Renumber(s, id);
          k in s'.info && Persist(s'.info[k]) == Persist(s.info[id])
          && s'.info[k].refCount == s.info[id].refCount && s'.info[k].inTried == s.info[id].inTried)
    && (forall k | k in s'.info :: exists id | id in s.info :: Renumber(s, id) == k)
    && (forall id, id' | id in s.info && id' in s.info && id != id' :: Renumber(s, id) != Renumber(s, id'))
  }

  ghost predicate SameTables(s: State, s': State)
    requires Sorted(s) && NewOk(s) && TriedOk(s) && AddrOk(s)
  {
    && s'.news.Keys == s.news.Keys && (forall slot | slot in s.news :: s'.news[slot] == Renumber(s, s.news[slot]))
    && s'.tried.Keys == s.tried.Keys && (forall slot | slot in s.tried :: s'.tried[slot] == Renumber(s, s.tried[slot]))
    && s'.addr.Keys == s.addr.Keys && (forall ip | ip in s.addr :: s'.addr[ip] == Renumber(s, s.addr[ip]))
  }

  predicate IsAddrTable(s: State, q: seq<int>, m: map<nat, int>)
    requires Known(s, q)
  {
    && (forall k | 0 <= k < |q| :: s.info[q[k]].service.ip in m && m[s.info[q[k]].service.ip] == k)
    && (forall ip | ip in m :: 0 <= m[ip] < |q| && s.info[q[m[ip]]].service.ip == ip)
  }

  predicate IpsApart(s: State, q: seq<int>)
    requires Known(s, q)
  {
    forall j, k | 0 <= j < k < |q| :: s.info[q[j]].service.ip != s.info[q[k]].service.ip
  }

  lemma {:induction false} AddrOfIs(s: State, q: seq<int>)
    requires Known(s, q) && IpsApart(s, q)
    ensures IsAddrTable(s, q, AddrOf(s, q))
    decreases |q|
  {
    if q != [] {
      var last := |q| - 1;
      var front := q[..last];
      assert forall k | 0 <= k < |front| :: front[k] == q[k];
      AddrOfIs(s, front);
      var m0, m := AddrOf(s, front), AddrOf(s, q);
      forall ip | ip in m ensures 0 <= m[ip] < |q| && s.info[q[m[ip]]].service.ip == ip {
        if m[ip] != last { assert ip in m0 && front[m0[ip]] == q[m[ip]]; }
      }
    }
  }

  lemma {:induction false} ReloadedAddr(s: State)
    requires AddrOk(s) && Sorted(s) && Known(s, Order(s))
    ensures IsAddrTable(s, Order(s), AddrOf(s, Order(s)))
  {
    hide Order;
    var q := Order(s);
    forall j, k | 0 <= j < k < |q| ensures s.info[q[j]].service.ip != s.info[q[k]].service.ip { OrderDistinct(s, j, k); }
    AddrOfIs(s, q);
  }

  /** Every address, statistic, reference count and tried flag is restored, under new ids one to one. */
  lemma {:induction false} ReloadedSameEntries(s: State)
    requires Inv(s)
    ensures Sorted(s) && Known(s, Order(s)) && SameUpToIds(s, Reloaded(s))
  {
    hide Core, Order, Renumber, NewFirst, SlotsApart, Loadable, NewsOf, TriedOf, AddrOf, RefsIn;
    InvSorted(s);
    InvLoadable(s);
    OrderLists(s);
    var q, s' := Order(s), Reloaded(s);
    forall id | id in s.info
      ensures var k := Renumber(s, id);
              k in s'.info && Persist(s'.info[k]) == Persist(s.info[id])
              && s'.info[k].refCount == s.info[id].refCount && s'.info[k].inTried == s.info[id].inTried
    {
      ReloadedEntry(s, id);
    }
    forall k | k in s'.info ensures exists id | id in s.info :: Renumber(s, id) == k {
      assert 0 <= k < |q| && q[k] in s.info && Renumber(s, q[k]) == k;
    }
  }

  lemma {:induction false} ReloadedEntry(s: State, id: int)
    requires Loadable(s) && id in s.info
    ensures var k, s' := Renumber(s, id), Reloaded(s);
            k in s'.info && Persist(s'.info[k]) == Persist(s.info[id])
            && s'.info[k].refCount == s.info[id].refCount && s'.info[k].inTried == s.info[id].inTried
  {
    hide Order, Renumber, NewFirst, NewsOf, TriedOf, AddrOf, RefsIn, Standing, Persist;
    OrderLists(s);
    StagedEntry(s, Order(s), s.news.Keys, Renumber(s, id));
    AllRefsIn(s, id);
    assert RefsOk(s, id);
  }

  /** So are the slots of both tables and the address index. */
  lemma {:induction false} ReloadedSameTables(s: State)
    requires Inv(s)
    ensures Sorted(s) && Known(s, Order(s)) && NewOk(s) && TriedOk(s) && AddrOk(s) && SameTables(s, Reloaded(s))
  {
    InvSorted(s);
    InvLoadable(s);
    TablesRenumbered(s);
  }

  lemma {:induction false} TablesRenumbered(s: State)
    requires Sorted(s) && Known(s, Order(s)) && SlotsApart(s, Order(s)) && NewOk(s) && TriedOk(s) && AddrOk(s)
    ensures SameTables(s, Reloaded(s))
  {
    hide Order, Renumber, NewNumber, InfoOf, AddrOf, TriedOf, SlotsApart, NewOk, TriedOk, AddrOk;
    TriedRenumbered(s);
    AddrRenumbered(s);
    var s' := Reloaded(s);
    forall slot | slot in s.news ensures s'.news[slot] == Renumber(s, s.news[slot]) { SlotOwner(s, slot); }
    assert s'.news.Keys == s.news.Keys;
  }

  lemma {:induction false} TriedRenumbered(s: State)
    requires Sorted(s) && Known(s, Order(s)) && SlotsApart(s, Order(s)) && TriedOk(s)
    ensures var m := TriedOf(s, Order(s));
            m.Keys == s.tried.Keys && forall slot | slot in s.tried :: m[slot] == Renumber(s, s.tried[slot])
  {
    hide Order, Renumber, TriedOf, SlotsApart;
    OrderLists(s);
    var q := Order(s);
    TriedOfIs(s, q);
    var m := TriedOf(s, q);
    forall slot | slot in s.tried ensures slot in m && m[slot] == Renumber(s, s.tried[slot]) {
      assert q[Renumber(s, s.tried[slot])] == s.tried[slot];
    }
    forall slot | slot in m ensures slot in s.tried { assert q[m[slot]] in s.info; }
  }

  lemma {:induction false} AddrRenumbered(s: State)
    requires Sorted(s) && Known(s, Order(s)) && AddrOk(s)
    ensures var m := AddrOf(s, Order(s));
            m.Keys == s.addr.Keys && forall ip | ip in s.addr :: m[ip] == Renumber(s, s.addr[ip])
  {
    hide Order, Renumber, AddrOf;
    OrderLists(s);
    ReloadedAddr(s);
    var q := Order(s);
    var m := AddrOf(s, q);
    forall ip | ip in s.addr ensures ip in m && m[ip] == Renumber(s, s.addr[ip]) {
      assert q[Renumber(s, s.addr[ip])] == s.addr[ip];
    }
    forall ip | ip in m ensures ip in s.addr { assert q[m[ip]] in s.info; }
  }

  // ----- the reloaded manager is consistent -----

  lemma {:induction false} ReloadedRefs(s: State, k: nat)
    requires Loadable(s) && k < |Order(s)|
    ensures k in Reloaded(s).info && RefsOk(Reloaded(s), k)
  {
    hide Order, Renumber, NewNumber, AddrOf, TriedOf, Standing;
    OrderLists(s);
    var q, s' := Order(s), Reloaded(s);
    var id := q[k];
    StagedEntry(s, q, s.news.Keys, k);
    AllRefsIn(s, id);
    assert RefsOk(s, id);
    forall b: nat ensures Holds(s', k, b) <==> Holds(s, id, b) {
      var slot := s.NewSlot(s.info[id].service, b);
      if slot in s.news {
        SlotOwner(s, slot);
        assert s'.news[slot] == Renumber(s, s.news[slot]);
      }
    }
    assert Buckets(s', k) == Buckets(s, id);
  }

  lemma {:induction false} ReloadedCounts(s: State)
    requires Loadable(s)
    ensures Counted(Reloaded(s), {}, 0)
  {
    hide Order, Renumber, NewNumber, AddrOf, TriedOf, Standing, NewOk, AllRefsOk, RefsIn;
    OrderKnown(s);
    var q, s' := Order(s), Reloaded(s);
    var m := |NewBelow(s.info, s.idCount)|;
    OrderLength(s);
    forall k ensures k in TriedIds(s') <==> m <= k < |q| { if 0 <= k < |q| { StagedEntry(s, q, s.news.Keys, k); } }
    forall k ensures k in NewIds(s') <==> 0 <= k < m { if 0 <= k < |q| { StagedEntry(s, q, s.news.Keys, k); } }
    RangeCard(TriedIds(s'), m, |q|);
    RangeCard(NewIds(s'), 0, m);
    assert NewIds(s') - {} == NewIds(s');
  }

  lemma {:induction false} OrderLength(s: State)
    ensures |Order(s)| == |NewBelow(s.info, s.idCount)| + |TriedBelow(s.info, s.idCount)|
  {
  }

  lemma {:induction false} RangeCard(q: set<int>, lo: int, hi: int)
    requires lo <= hi && forall k :: k in q <==> lo <= k < hi
    ensures |q| == hi - lo
    decreases hi - lo
  {
    if lo == hi {
      assert forall k :: k !in q;
      assert q == {};
    } else {
      RangeCard(q - {hi - 1}, lo, hi - 1);
    }
  }

  lemma {:induction false} ReloadedRegistry(s: State)
    requires IdsOk(s) && AddrOk(s) && Known(s, Order(s)) && Sorted(s)
    ensures IdsOk(Reloaded(s)) && AddrOk(Reloaded(s)) && RandomOk(Reloaded(s))
  {
    hide Order, Staged, IdsOk, AddrOk, RandomOk;
    ReloadedAddr(s);
    AddrFromTable(s, Order(s), s.news.Keys);
    StagedShuffle(s, Order(s), s.news.Keys);
  }

  lemma {:induction false} StagedShuffle(s: State, q: seq<int>, loaded: set<Slot>)
    requires Known(s, q)
    ensures IdsOk(Staged(s, q, loaded)) && RandomOk(Staged(s, q, loaded))
  {
    hide RefsIn, TriedOf, AddrOf, NewsOf, Persist, Restore;
  }

  lemma {:induction false} AddrFromTable(s: State, q: seq<int>, loaded: set<Slot>)
    requires Known(s, q) && IsAddrTable(s, q, AddrOf(s, q))
    ensures AddrOk(Staged(s, q, loaded))
  {
    hide RefsIn, TriedOf, AddrOf, NewsOf;
  }

  lemma {:induction false} ReloadedTried(s: State)
    requires Known(s, Order(s)) && SlotsApart(s, Order(s))
    ensures TriedOk(Reloaded(s))
  {
    hide Order, RefsIn, AddrOf, TriedOf, NewsOf, SlotsApart;
    var q, s' := Order(s), Reloaded(s);
    TriedOfIs(s, q);
    assert forall svc :: s'.TriedSlot(svc) == s.TriedSlot(svc);
  }

  lemma {:induction false} ReloadedNews(s: State)
    requires Loadable(s)
    ensures NewOk(Reloaded(s))
  {
    hide Order, Renumber, AddrOf, TriedOf, NewNumber, Standing, AllRefsOk, InfoOf, Known;
    LoadableFirst(s);
    var q, s' := Order(s), Reloaded(s);
    forall slot | slot in s'.news
      ensures slot.0 < NEW_BUCKETS && s'.news[slot] in s'.info && !s'.info[s'.news[slot]].inTried
              && slot == s'.NewSlot(s'.info[s'.news[slot]].service, slot.0)
    {
      SlotOwner(s, slot);
      StagedEntry(s, q, s.news.Keys, s'.news[slot]);
    }
  }

  lemma {:induction false} LoadableFirst(s: State)
    requires Loadable(s)
    ensures Known(s, Order(s)) && NewOk(s) && Sorted(s)
  {
  }

  lemma {:induction false} ReloadedStanding(s: State)
    requires Loadable(s)
    ensures Standing(Reloaded(s), {})
  {
    hide Order, AddrOf, TriedOf, NewNumber, NewOk;
    var q, s' := Order(s), Reloaded(s);
    forall k | 0 <= k < |q| ensures Settled(s'.info[k]) {
      assert Settled(s.info[q[k]]) && RefsOk(s, q[k]);
      AllRefsIn(s, q[k]);
    }
  }

  lemma {:induction false} ReloadedCredible(s: State)
    requires Loadable(s) && Credible(s)
    ensures Credible(Reloaded(s))
  {
    hide Order, AddrOf, TriedOf, NewNumber, NewOk, Standing, AllRefsOk, RefsIn;
    var q, s' := Order(s), Reloaded(s);
    forall k | 0 <= k < |q| ensures Dated(s'.info[k]) { assert Dated(s.info[q[k]]); }
  }

  /** Every clause of the self-check holds of the reloaded manager. */
  lemma {:induction false} ReloadedInv(s: State)
    requires Inv(s)
    ensures Known(s, Order(s)) && Inv(Reloaded(s))
    ensures Credible(s) ==> Credible(Reloaded(s))
  {
    hide IdsOk, AddrOk, RandomOk, TriedOk, NewOk, AllRefsOk, Standing, Counted, Credible, Order, Loadable, SlotsApart;
    InvLoadable(s);
    LoadableFacts(s);
    ReloadedRegistry(s);
    ReloadedTried(s);
    ReloadedNews(s);
    ReloadedStanding(s);
    ReloadedCounts(s);
    ReloadedAllRefs(s);
    if Credible(s) { ReloadedCredible(s); }
  }

  lemma {:induction false} ReloadedAllRefs(s: State)
    requires Loadable(s)
    ensures AllRefsOk(Reloaded(s))
  {
    hide Order, RefsIn, AddrOf, TriedOf, NewOk, Standing, Holds;
    forall k | k in Reloaded(s).info ensures RefsOk(Reloaded(s), k) { ReloadedRefs(s, k); }
  }

  // ----- clearing -----

  /** A manager that has heard of one address is consistent until it is cleared. */
  lemma {:induction false} ClearedIsInconsistent(hash: Hashing, key: nat, a: Address, source: nat, now: int)
    ensures Add(Fresh(hash, key), a, source, 0, true, now, false).Some?
    ensures var s := Add(Fresh(hash, key), a, source, 0, true, now, false).value.0; Inv(s) && !Inv(Emptied(s, key))
  {
    hide Core, Add;
    FreshInv(hash, key);
    R.AddInv(Fresh(hash, key), a, source, 0, true, now, false);
    R.FirstAdded(Fresh(hash, key), a, source, now);
    EmptiedInvIff(Add(Fresh(hash, key), a, source, 0, true, now, false).value.0, key);
  }
}
