/** What BatchWrite does to the position index, for every iteration order of the child's map. */
module CoinsBatch {
  import opened Wrappers
  import opened CoinsModel
  import opened CoinsFlags
  import opened CoinsIndex

  /** The branch of BatchWrite that overwrites an entry already in the parent. */
  predicate Rewrites(coins: CoinMap, o: HashPoint, e: Entry) {
    e.isDirty && o in coins && !(coins[o].isFresh && e.coin.IsSpent())
  }

  /** No entry of the parent that sits in the mempool is overwritten. */
  predicate NoMempoolRewrite(coins: CoinMap, batch: Batch) {
    forall j | 0 <= j < |batch| && Rewrites(coins, batch[j].0, batch[j].1) :: !coins[batch[j].0].coin.InMempool()
  }

  ghost predicate BatchPlaced(batch: Batch, pl: Placement) {
    forall j | 0 <= j < |batch| :: At(pl, batch[j].0, batch[j].1.coin)
  }

  /** The index is exact except for the outpoints still waiting in mods. */
  ghost predicate NearlyExact(coins: CoinMap, refs: RefMap, mods: seq<HashPoint>, pl: Placement) {
    && (forall o | o in coins ::
          && At(pl, o, coins[o].coin)
          && (!coins[o].coin.InMempool() && o !in mods ==>
                Pos(o, coins[o].coin) in refs && refs[Pos(o, coins[o].coin)] == o))
    && (forall i | i in refs :: !i.InMempool() && refs[i] in coins && Pos(refs[i], coins[refs[i]].coin) == i)
    && (forall o | o in mods :: o in coins && !coins[o].coin.InMempool())
  }

  lemma {:induction false} WriteOneNearlyExact(w: Writing, o: HashPoint, e: Entry, pl: Placement)
    requires NearlyExact(w.coins, w.refs, w.mods, pl) && OnePlaceEach(pl)
    requires o !in w.mods && At(pl, o, e.coin) && WriteOne(w, o, e).Some?
    requires Rewrites(w.coins, o, e) ==> !w.coins[o].coin.InMempool()
    ensures var w' := WriteOne(w, o, e).value; NearlyExact(w'.coins, w'.refs, w'.mods, pl)
  {
    var w' := WriteOne(w, o, e).value;
    if Rewrites(w.coins, o, e) {
      var i := Pos(o, w.coins[o].coin);
      assert i in w.refs && w.refs[i] == o;
      assert w'.refs == w.refs - {i};
    }
  }

  lemma {:induction false} WriteAllNearlyExact(w: Writing, batch: Batch, pl: Placement)
    requires NearlyExact(w.coins, w.refs, w.mods, pl) && OnePlaceEach(pl)
    requires DistinctKeys(batch) && NotYetWritten(batch, w.mods) && BatchPlaced(batch, pl)
    requires NoMempoolRewrite(w.coins, batch) && WriteAll(w, batch).Some?
    ensures var w' := WriteAll(w, batch).value; NearlyExact(w'.coins, w'.refs, w'.mods, pl)
    decreases |batch|
  {
    if batch != [] {
      var (o, e) := batch[0];
      WriteOneNearlyExact(w, o, e, pl);
      var w1 := WriteOne(w, o, e).value;
      var rest := batch[1..];
      forall j | 0 <= j < |rest|
        ensures rest[j].0 !in w1.mods && At(pl, rest[j].0, rest[j].1.coin)
        ensures Rewrites(w1.coins, rest[j].0, rest[j].1) ==> !w1.coins[rest[j].0].coin.InMempool()
      {
        assert rest[j] == batch[j + 1];
        assert rest[j].0 in w1.coins <==> rest[j].0 in w.coins;
      }
      WriteAllNearlyExact(w1, rest, pl);
    }
  }

  lemma {:induction false} IndexSpentOneExact(coins: CoinMap, refs: RefMap, o: HashPoint, all: seq<HashPoint>, pl: Placement)
    requires NearlyExact(coins, refs, all, pl) && OnePlaceEach(pl) && o in all
    ensures var (coins', refs') := IndexSpentOne(coins, refs, o);
            && coins' == coins && NearlyExact(coins, refs', all, pl)
            && (forall x | x in coins && ((Pos(x, coins[x].coin) in refs && refs[Pos(x, coins[x].coin)] == x)
                                          || (x == o && coins[x].coin.IsSpent())) ::
                  Pos(x, coins[x].coin) in refs' && refs'[Pos(x, coins[x].coin)] == x)
  {
    var i := Pos(o, coins[o].coin);
    if i in refs { assert refs[i] == o; }
  }

  lemma {:induction false} IndexSpentNearlyExact(coins: CoinMap, refs: RefMap, mods: seq<HashPoint>, all: seq<HashPoint>, pl: Placement)
    requires NearlyExact(coins, refs, all, pl) && OnePlaceEach(pl) && forall o | o in mods :: o in all
    ensures var (coins', refs') := IndexSpent(coins, refs, mods);
            && coins' == coins && NearlyExact(coins, refs', all, pl)
            && (forall o | o in coins && ((Pos(o, coins[o].coin) in refs && refs[Pos(o, coins[o].coin)] == o)
                                          || (o in mods && coins[o].coin.IsSpent())) ::
                  Pos(o, coins[o].coin) in refs' && refs'[Pos(o, coins[o].coin)] == o)
    decreases |mods|
  {
    if mods != [] {
      IndexSpentOneExact(coins, refs, mods[0], all, pl);
      var (coins1, refs1) := IndexSpentOne(coins, refs, mods[0]);
      hide NearlyExact, IndexSpentOne;
      IndexSpentNearlyExact(coins, refs1, mods[1..], all, pl);
      assert forall o | o in mods :: o == mods[0] || o in mods[1..];
    }
  }

  lemma {:induction false} IndexLiveNearlyExact(coins: CoinMap, refs: RefMap, mods: seq<HashPoint>, all: seq<HashPoint>, pl: Placement)
    requires NearlyExact(coins, refs, all, pl) && OnePlaceEach(pl) && forall o | o in mods :: o in all
    ensures var refs' := IndexLive(coins, refs, mods);
            && NearlyExact(coins, refs', all, pl)
            && (forall o | o in coins && ((Pos(o, coins[o].coin) in refs && refs[Pos(o, coins[o].coin)] == o)
                                          || (o in mods && !coins[o].coin.IsSpent())) ::
                  Pos(o, coins[o].coin) in refs' && refs'[Pos(o, coins[o].coin)] == o)
    decreases |mods|
  {
    if mods != [] {
      var o := mods[0];
      var i := Pos(o, coins[o].coin);
      if i in refs { assert refs[i] == o; }
      IndexLiveNearlyExact(coins, if !coins[o].coin.IsSpent() then refs[i := o] else refs, mods[1..], all, pl);
    }
  }

  // ----- what survives to the end of a batch, with no assumption about positions -----

  /** A written entry is in the result with the child's coin, and an overwritten or live chain entry is queued. */
  lemma {:induction false} WriteAllKeeps(w: Writing, batch: Batch, j: nat)
    requires DistinctKeys(batch) && WriteAll(w, batch).Some? && j < |batch|
    requires var (o, e) := batch[j];
             Rewrites(w.coins, o, e) || (e.isDirty && !e.coin.IsSpent() && !e.coin.InMempool())
    ensures var w' := WriteAll(w, batch).value;
            batch[j].0 in w'.mods && batch[j].0 in w'.coins && w'.coins[batch[j].0].coin == batch[j].1.coin
    decreases |batch|
  {
    var rest := batch[1..];
    var w1 := WriteOne(w, batch[0].0, batch[0].1).value;
    assert forall k | 0 <= k < |rest| :: rest[k] == batch[k + 1];
    if j == 0 {
      WriteAllFrames(w1, rest, batch[0].0);
    } else {
      assert batch[j].0 != batch[0].0;
      WriteAllKeeps(w1, rest, j - 1);
    }
  }

  lemma {:induction false} WriteAllFrames(w: Writing, batch: Batch, o: HashPoint)
    requires WriteAll(w, batch).Some? && forall k | 0 <= k < |batch| :: batch[k].0 != o
    ensures var w' := WriteAll(w, batch).value;
            (o in w'.mods <==> o in w.mods) && (o in w'.coins <==> o in w.coins) && (o in w.coins ==> w'.coins[o] == w.coins[o])
    decreases |batch|
  {
    if batch != [] {
      assert batch[0].0 != o;
      var w1 := WriteOne(w, batch[0].0, batch[0].1).value;
      assert forall k | 0 <= k < |batch[1..]| :: batch[1..][k] == batch[k + 1];
      WriteAllFrames(w1, batch[1..], o);
    }
  }

  /** Whatever is queued and live after the first loop is a DIRTY live entry of the batch. */
  lemma {:induction false} QueuedComesFromBatch(w: Writing, batch: Batch, x: HashPoint)
    requires DistinctKeys(batch) && WriteAll(w, batch).Some? && x !in w.mods
    ensures var w' := WriteAll(w, batch).value;
            x in w'.mods ==> exists k :: 0 <= k < |batch| && batch[k].0 == x && batch[k].1.isDirty &&
                               x in w'.coins && w'.coins[x].coin == batch[k].1.coin
    decreases |batch|
  {
    if batch != [] {
      var w1 := WriteOne(w, batch[0].0, batch[0].1).value;
      var rest := batch[1..];
      assert forall k | 0 <= k < |rest| :: rest[k] == batch[k + 1];
      if x in w1.mods {
        assert batch[0].0 == x;
        WriteAllFrames(w1, rest, x);
        assert batch[0].1.isDirty;
      } else {
        QueuedComesFromBatch(w1, rest, x);
        var w' := WriteAll(w, batch).value;
        if x in w'.mods {
          var k :| 0 <= k < |rest| && rest[k].0 == x && rest[k].1.isDirty && w'.coins[x].coin == rest[k].1.coin;
          assert batch[k + 1].0 == x;
        }
      }
    }
  }

  /** The second loop only adds entries to the coins and keys to the index. */
  lemma {:induction false} IndexSpentGrows(coins: CoinMap, refs: RefMap, mods: seq<HashPoint>)
    ensures var (coins', refs') := IndexSpent(coins, refs, mods);
            && (forall o | o in coins :: o in coins' && coins'[o] == coins[o])
            && (forall i | i in refs :: i in refs')
            && (forall o | o in mods && o in coins && coins[o].coin.IsSpent() :: Pos(o, coins[o].coin) in refs')
    decreases |mods|
  {
    if mods != [] {
      var (coins1, refs1) := IndexSpentOne(coins, refs, mods[0]);
      IndexSpentGrows(coins1, refs1, mods[1..]);
      var (coins', refs') := IndexSpent(coins, refs, mods);
      forall o | o in mods && o in coins && coins[o].coin.IsSpent() ensures Pos(o, coins[o].coin) in refs' {
        if o == mods[0] {
          assert Pos(o, coins[o].coin) in refs1;
        } else {
          assert o in mods[1..] && coins1[o] == coins[o];
        }
      }
    }
  }

  lemma {:induction false} IndexLiveGrows(coins: CoinMap, refs: RefMap, mods: seq<HashPoint>)
    ensures var refs' := IndexLive(coins, refs, mods);
            && (forall i | i in refs :: i in refs')
            && (forall o | o in mods && o in coins && !coins[o].coin.IsSpent() :: Pos(o, coins[o].coin) in refs')
    decreases |mods|
  {
    if mods != [] {
      var o := mods[0];
      IndexLiveGrows(coins, if o in coins && !coins[o].coin.IsSpent() then refs[Pos(o, coins[o].coin) := o] else refs, mods[1..]);
    }
  }

  /** The last loop leaves a position with the only queued live coin that sits there. */
  lemma {:induction false} IndexLiveLast(coins: CoinMap, refs: RefMap, mods: seq<HashPoint>, o: HashPoint)
    requires o in coins && !coins[o].coin.IsSpent()
    requires o in mods || (Pos(o, coins[o].coin) in refs && refs[Pos(o, coins[o].coin)] == o)
    requires forall x | x in mods && x in coins && !coins[x].coin.IsSpent() && Pos(x, coins[x].coin) == Pos(o, coins[o].coin) :: x == o
    ensures var refs' := IndexLive(coins, refs, mods);
            Pos(o, coins[o].coin) in refs' && refs'[Pos(o, coins[o].coin)] == o
    decreases |mods|
  {
    if mods != [] {
      var m := mods[0];
      IndexLiveLast(coins, if m in coins && !coins[m].coin.IsSpent() then refs[Pos(m, coins[m].coin) := m] else refs, mods[1..], o);
    }
  }

  /**
   * Even when spent and live outpoints share a position in one batch, every live entry
   * that BatchWrite wrote is reachable by position, whatever order the map was iterated in.
   */
  lemma {:induction false} LiveEntriesReachable(v: View, batch: Batch, j: nat)
    requires v.Cache? && DistinctKeys(batch) && BatchWrite(v, batch).Some? && j < |batch|
    requires batch[j].1.isDirty && !batch[j].1.coin.IsSpent() && !batch[j].1.coin.InMempool()
    requires forall k | 0 <= k < |batch| && batch[k].1.isDirty && !batch[k].1.coin.IsSpent()
                        && Pos(batch[k].0, batch[k].1.coin) == Pos(batch[j].0, batch[j].1.coin) :: k == j
    ensures var v' := BatchWrite(v, batch).value;
            var (o, e) := batch[j];
            FindLocal(v'.coins, v'.refs, ByIndex(Pos(o, e.coin))) == Some(o) && v'.coins[o].coin == e.coin
  {
    var w0 := Writing(v.coins, v.refs, []);
    var w := WriteAll(w0, batch).value;
    var (o, e) := batch[j];
    WriteAllKeeps(w0, batch, j);
    IndexSpentGrows(w.coins, w.refs, w.mods);
    var (coins, refs) := IndexSpent(w.coins, w.refs, w.mods);
    forall x | x in w.mods && x in coins && !coins[x].coin.IsSpent() && Pos(x, coins[x].coin) == Pos(o, coins[o].coin)
      ensures x == o
    {
      QueuedComesFromBatch(w0, batch, x);
      var k :| 0 <= k < |batch| && batch[k].0 == x && batch[k].1.isDirty && x in w.coins && w.coins[x].coin == batch[k].1.coin;
      assert coins[x] == w.coins[x];
    }
    IndexLiveLast(coins, refs, w.mods, o);
  }

  /**
   * BatchWrite keeps the index exact if and only if it overwrites no parent entry that
   * sits in the mempool: that branch leaves an index entry at the mempool's position.
   */
  lemma {:induction false} BatchWriteExactIff(v: View, batch: Batch, pl: Placement)
    requires v.Cache? && Exact(v, pl) && OnePlaceEach(pl)
    requires DistinctKeys(batch) && BatchPlaced(batch, pl) && BatchWrite(v, batch).Some?
    ensures Exact(BatchWrite(v, batch).value, pl) <==> NoMempoolRewrite(v.coins, batch)
  {
    var w0 := Writing(v.coins, v.refs, []);
    var w := WriteAll(w0, batch).value;
    var (coins, refs) := IndexSpent(w.coins, w.refs, w.mods);
    var v' := BatchWrite(v, batch).value;
    if NoMempoolRewrite(v.coins, batch) {
      WriteAllNearlyExact(w0, batch, pl);
      IndexSpentNearlyExact(w.coins, w.refs, w.mods, w.mods, pl);
      IndexLiveNearlyExact(coins, refs, w.mods, w.mods, pl);
    } else {
      var j :| 0 <= j < |batch| && Rewrites(v.coins, batch[j].0, batch[j].1) && v.coins[batch[j].0].coin.InMempool();
      var o := batch[j].0;
      WriteAllKeeps(w0, batch, j);
      IndexSpentGrows(w.coins, w.refs, w.mods);
      IndexLiveGrows(coins, refs, w.mods);
      assert At(pl, o, v.coins[o].coin) && At(pl, o, batch[j].1.coin);
      assert Pos(o, coins[o].coin) in v'.refs && Pos(o, coins[o].coin).InMempool();
    }
  }

  // ----- the database at the bottom -----

  predicate SpendsAt(p: (HashPoint, Entry), i: IndexPoint) {
    p.1.isDirty && p.1.coin.IsSpent() && Pos(p.0, p.1.coin) == i
  }

  predicate WritesAt(p: (HashPoint, Entry), i: IndexPoint) {
    p.1.isDirty && !p.1.coin.IsSpent() && Pos(p.0, p.1.coin) == i
  }

  lemma {:induction false} DbErasePointwise(refs: RefMap, batch: Batch, i: IndexPoint)
    ensures var refs' := DbEraseRefs(refs, batch);
            && (i in refs' <==> i in refs && forall p | p in batch :: !SpendsAt(p, i))
            && (i in refs' ==> refs'[i] == refs[i])
    decreases |batch|
  {
    if batch != [] {
      var (o, e) := batch[0];
      var refs1 := if e.isDirty && e.coin.IsSpent() then refs - {Pos(o, e.coin)} else refs;
      DbErasePointwise(refs1, batch[1..], i);
      assert batch == [batch[0]] + batch[1..];
      assert i in refs1 <==> i in refs && !SpendsAt(batch[0], i);
      assert DbEraseRefs(refs, batch) == DbEraseRefs(refs1, batch[1..]);
    }
  }

  lemma {:induction false} DbWriteRefsPointwise(refs: RefMap, batch: Batch, i: IndexPoint)
    ensures var refs' := DbWriteRefs(refs, batch);
            && (i in refs' <==> i in refs || exists p | p in batch :: WritesAt(p, i))
            && (i in refs' && (forall p | p in batch :: !WritesAt(p, i)) ==> refs'[i] == refs[i])
            && ((exists p | p in batch :: WritesAt(p, i)) ==> exists p | p in batch :: WritesAt(p, i) && refs'[i] == p.0)
    decreases |batch|
  {
    if batch != [] {
      var (o, e) := batch[0];
      var refs1 := if e.isDirty && !e.coin.IsSpent() then refs[Pos(o, e.coin) := o] else refs;
      DbWriteRefsPointwise(refs1, batch[1..], i);
      assert batch == [batch[0]] + batch[1..];
      if WritesAt(batch[0], i) { assert i in refs1 && refs1[i] == o; }
    }
  }

  lemma {:induction false} DbBatchWriteExact(v: View, batch: Batch, pl: Placement)
    requires v.Db? && Exact(v, pl) && OnePlaceEach(pl)
    requires DistinctKeys(batch) && BatchPlaced(batch, pl)
    ensures Exact(BatchWrite(v, batch).value, pl)
  {
    var v' := BatchWrite(v, batch).value;
    var erased := DbEraseRefs(v.dbRefs, batch);
    DbWritePointwise(v.store, batch);
    forall o | o in v'.store
      ensures At(pl, o, v'.store[o])
      ensures !v'.store[o].InMempool() ==> Pos(o, v'.store[o]) in v'.dbRefs && v'.dbRefs[Pos(o, v'.store[o])] == o
    {
      var i := Pos(o, v'.store[o]);
      DbErasePointwise(v.dbRefs, batch, i);
      DbWriteRefsPointwise(erased, batch, i);
      if j :| 0 <= j < |batch| && batch[j].0 == o && batch[j].1.isDirty {
        assert WritesAt(batch[j], i) && batch[j] in batch;
      } else {
        assert o in v.store && v'.store[o] == v.store[o];
      }
      if !v'.store[o].InMempool() {
        forall p | p in batch && (SpendsAt(p, i) || WritesAt(p, i)) ensures p.0 == o {
          assert At(pl, p.0, p.1.coin) && At(pl, o, v'.store[o]);
        }
      }
    }
    forall i | i in v'.dbRefs && !i.InMempool()
      ensures v'.dbRefs[i] in v'.store && Pos(v'.dbRefs[i], v'.store[v'.dbRefs[i]]) == i
    {
      DbErasePointwise(v.dbRefs, batch, i);
      DbWriteRefsPointwise(erased, batch, i);
      var o := v'.dbRefs[i];
      if p :| p in batch && WritesAt(p, i) {
        var q :| q in batch && WritesAt(q, i) && o == q.0;
        var j :| 0 <= j < |batch| && batch[j] == q;
      } else {
        assert o in v.store && Pos(o, v.store[o]) == i;
        forall j | 0 <= j < |batch| && batch[j].0 == o ensures !batch[j].1.isDirty {
          assert At(pl, o, batch[j].1.coin) && batch[j] in batch;
        }
      }
    }
  }
}
