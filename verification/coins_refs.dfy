/** What the updates do to the index by position, whatever positions the coins have. */
module CoinsRefs {
  import opened Wrappers
  import opened CoinsModel
  import opened CoinsFlags
  import opened CoinsFresh

  function RefAt(refs: RefMap, i: IndexPoint): Option<HashPoint> {
    if i in refs then Some(refs[i]) else None
  }

  // ----- one coin -----

  /** The position an entry of this outpoint had, if it leads to the outpoint's transaction. */
  predicate OwnRef(v: View, o: HashPoint, i: IndexPoint)
    requires v.Cache?
  {
    o in v.coins && i == Pos(o, v.coins[o].coin) && i in v.refs && v.refs[i].txid == o.txid
  }

  /** The position of an added coin leads to it, the one it had before no longer does, all others lead where they did; even when the coin is refused. */
  lemma {:induction false} AddIndex(v: View, o: HashPoint, coin: Coin, overwrite: bool, i: IndexPoint)
    requires v.Cache? && !coin.out.unspendable
    ensures RefAt(AddCoin(v, o, coin, overwrite).refs, i) ==
            if !coin.InMempool() && i == Pos(o, coin) then Some(o) else if OwnRef(v, o, i) then None else RefAt(v.refs, i)
    ensures AddThrows(v, o, coin, overwrite) ==> AddCoin(v, o, coin, overwrite).coins == v.coins
  {
  }

  /** The position an entry is looked up by: the one given, or its own. */
  function LookedUp(o: OutPoint, k: HashPoint, c: Coin): IndexPoint {
    if o.ByIndex? then o.index else Pos(k, c)
  }

  /**
   * Spending an entry of this layer changes the index only when the entry is removed: then the position it was looked up
   * by leads nowhere, if it was given or led to the outpoint and the coin is not in the mempool.
   */
  lemma {:induction false} SpendIndex(v: View, o: OutPoint, keepFresh: bool, k: HashPoint, i: IndexPoint)
    requires v.Cache? && FindLocal(v.coins, v.refs, o) == Some(k)
    ensures var v' := SpendCoin(v, o, keepFresh).0;
            var e := v.coins[k];
            RefAt(v'.refs, i) ==
            if e.isFresh && !keepFresh && i == LookedUp(o, k, e.coin) && (o.ByIndex? || (!e.coin.InMempool() && RefAt(v.refs, i) == Some(k)))
            then None else RefAt(v.refs, i)
  {
  }

  /**
   * The asserts of a lookup by position fail if and only if the position is the mempool's, or the first layer that knows
   * it has no entry where it leads; those of a spend also if a coin outside the mempool has no index entry.
   */
  lemma {:induction false} AssertsFailIff(v: View, i: IndexPoint, k: HashPoint)
    requires v.Cache?
    ensures !LookupAsserts(v, ByIndex(i)) <==>
            || i.InMempool() || (i in v.refs && v.refs[i] !in v.coins)
            || (i !in v.refs && !LookupAsserts(v.base, ByIndex(i)))
    ensures LookupAsserts(v, ByHash(k)) && (!LookupAsserts(v, ByIndex(i)) ==> !SpendAsserts(v, ByIndex(i)))
    ensures k in v.coins ==> (SpendAsserts(v, ByHash(k)) <==> v.coins[k].coin.InMempool() || Pos(k, v.coins[k].coin) in v.refs)
  {
  }

  // ----- the first loop of BatchWrite -----

  /** The child's entry is new to the parent and worth telling it. */
  predicate IsNews(us: Option<Entry>, e: Entry) {
    e.isDirty && us.None? && !(e.isFresh && e.coin.IsSpent())
  }

  /** The child's entry replaces one of the parent. */
  predicate Replaces(us: Option<Entry>, e: Entry) {
    e.isDirty && us.Some? && !(us.value.isFresh && e.coin.IsSpent())
  }

  /** The exception: a new coin that the parent knows as unspent. */
  predicate Misapplied(us: Option<Entry>, e: Entry) {
    e.isDirty && us.Some? && e.isFresh && !us.value.coin.IsSpent()
  }

  /**
   * What writing one entry does to the index: only the position of the parent's own entry is touched. An entry that is
   * dropped takes it along if the child has it at the same position; a replaced one if it leads to its transaction, and
   * a position that leads nowhere is left leading to the null outpoint. Outpoints still to be indexed are queued.
   */
  lemma {:induction false} WriteOneIndex(w: Writing, o: HashPoint, e: Entry, i: IndexPoint)
    requires WriteOne(w, o, e).Some?
    ensures var us, w' := EntryAt(w.coins, o), WriteOne(w, o, e).value;
            && w'.mods == w.mods + (if Replaces(us, e) || (IsNews(us, e) && !e.coin.InMempool()) then [o] else [])
            && (!e.isDirty || us.None? || i != Pos(o, us.value.coin) ==> RefAt(w'.refs, i) == RefAt(w.refs, i))
            && (e.isDirty && us.Some? && i == Pos(o, us.value.coin) ==>
                  RefAt(w'.refs, i) ==
                  if Replaces(us, e)
                  then (var ref := if i in w.refs then w.refs[i] else NULL_POINT; if ref.txid == o.txid then None else Some(ref))
                  else if !us.value.coin.InMempool() && Pos(o, e.coin) == i then None else RefAt(w.refs, i))
  {
  }

  /** A batch is refused if and only if it has an entry marked FRESH for an outpoint that the parent has unspent. */
  lemma {:induction false} WriteThrowsIff(w: Writing, batch: Batch)
    requires DistinctKeys(batch)
    ensures WriteAll(w, batch).None? <==> exists j :: 0 <= j < |batch| && Misapplied(EntryAt(w.coins, batch[j].0), batch[j].1)
    decreases |batch|
  {
    hide EntryAt, Misapplied;
    if batch != [] {
      var (o, e) := batch[0];
      OneThrowsIff(w, o, e);
      if WriteOne(w, o, e).Some? {
        WriteOneMerges(w, o, e);
        var w1, rest := WriteOne(w, o, e).value, batch[1..];
        forall j | 0 <= j < |rest| ensures rest[j] == batch[j + 1] && rest[j].0 != o {}
        hide WriteOne, Merged;
        WriteThrowsIff(w1, rest);
        forall j | 0 <= j < |rest| ensures EntryAt(w1.coins, rest[j].0) == EntryAt(w.coins, rest[j].0) {}
        if j :| 0 <= j < |rest| && Misapplied(EntryAt(w1.coins, rest[j].0), rest[j].1) {
          assert Misapplied(EntryAt(w.coins, batch[j + 1].0), batch[j + 1].1);
        }
        if j :| 0 <= j < |batch| && Misapplied(EntryAt(w.coins, batch[j].0), batch[j].1) {
          assert j > 0 && rest[j - 1] == batch[j];
        }
      }
    }
  }

  lemma {:induction false} OneThrowsIff(w: Writing, o: HashPoint, e: Entry)
    ensures WriteOne(w, o, e).None? <==> Misapplied(EntryAt(w.coins, o), e)
  {
  }

  // ----- the other two loops -----

  /** The k-th queued outpoint is at a position, spent or not. */
  predicate QueuedAt(coins: CoinMap, mods: seq<HashPoint>, k: int, i: IndexPoint, spent: bool) {
    0 <= k < |mods| && mods[k] in coins && coins[mods[k]].coin.IsSpent() == spent && Pos(mods[k], coins[mods[k]].coin) == i
  }

  /** The last queued outpoint at a position, spent or not. */
  function LastAt(coins: CoinMap, mods: seq<HashPoint>, i: IndexPoint, spent: bool): Option<HashPoint> {
    if mods == [] then None
    else if QueuedAt(coins, mods, |mods| - 1, i, spent) then Some(mods[|mods| - 1])
    else LastAt(coins, mods[..|mods| - 1], i, spent)
  }

  lemma {:induction false} LastAtFirst(coins: CoinMap, mods: seq<HashPoint>, i: IndexPoint, spent: bool)
    requires mods != []
    ensures LastAt(coins, mods, i, spent) ==
            var later := LastAt(coins, mods[1..], i, spent);
            if later.Some? then later else if QueuedAt(coins, mods, 0, i, spent) then Some(mods[0]) else None
    decreases |mods|
  {
    if |mods| > 1 {
      var front := mods[..|mods| - 1];
      LastAtFirst(coins, front, i, spent);
      assert front[1..] == mods[1..][..|mods| - 2];
    } else {
      assert mods[..0] == [] && mods[1..] == [];
    }
  }

  /** The position leads to the last live queued outpoint there, if there is one, and else where it did. */
  lemma {:induction false} IndexLiveIs(coins: CoinMap, refs: RefMap, mods: seq<HashPoint>, i: IndexPoint)
    ensures RefAt(IndexLive(coins, refs, mods), i) ==
            var last := LastAt(coins, mods, i, false); if last.Some? then last else RefAt(refs, i)
    decreases |mods|
  {
    hide LastAt;
    if mods != [] {
      LastAtFirst(coins, mods, i, false);
      var o := mods[0];
      IndexLiveIs(coins, if o in coins && !coins[o].coin.IsSpent() then refs[Pos(o, coins[o].coin) := o] else refs, mods[1..], i);
    } else {
      NoneQueued(coins, i, false);
    }
  }

  lemma {:induction false} NoneQueued(coins: CoinMap, i: IndexPoint, spent: bool)
    ensures LastAt(coins, [], i, spent) == None
  {
  }

  /** The position leads to an unspent coin. */
  predicate LeadsToLive(coins: CoinMap, refs: RefMap, i: IndexPoint) {
    i in refs && refs[i] in coins && !coins[refs[i]].coin.IsSpent()
  }

  /** The same coins, but for empty entries that were created by looking at them. */
  ghost predicate Blanked(coins: CoinMap, coins': CoinMap) {
    && (forall o | o in coins :: o in coins' && coins'[o] == coins[o])
    && (forall o | o in coins' && o !in coins :: coins'[o] == DEFAULT_ENTRY)
  }

  lemma {:induction false} LastAtBlanked(coins: CoinMap, coins': CoinMap, mods: seq<HashPoint>, i: IndexPoint, spent: bool)
    requires Blanked(coins, coins') && forall k | 0 <= k < |mods| :: mods[k] in coins
    ensures LastAt(coins', mods, i, spent) == LastAt(coins, mods, i, spent)
    decreases |mods|
  {
    if mods != [] {
      assert mods[|mods| - 1] in coins;
      LastAtBlanked(coins, coins', mods[..|mods| - 1], i, spent);
    }
  }

  lemma {:induction false} SpentOneIs(coins: CoinMap, refs: RefMap, o: HashPoint, i: IndexPoint)
    requires o in coins
    ensures var (coins', refs') := IndexSpentOne(coins, refs, o);
            && Blanked(coins, coins')
            && RefAt(refs', i) == (if coins[o].coin.IsSpent() && Pos(o, coins[o].coin) == i && !LeadsToLive(coins, refs, i) then Some(o) else RefAt(refs, i))
            && (LeadsToLive(coins', refs', i) <==> LeadsToLive(coins, refs, i))
  {
  }

  lemma {:induction false} BlankedTwice(a: CoinMap, b: CoinMap, c: CoinMap)
    requires Blanked(a, b) && Blanked(b, c)
    ensures Blanked(a, c)
  {
  }

  /** Unless it leads to a live coin, the position leads to the last spent queued outpoint there, if there is one, and else where it did. */
  lemma {:induction false} IndexSpentIs(coins: CoinMap, refs: RefMap, mods: seq<HashPoint>, i: IndexPoint)
    requires forall k | 0 <= k < |mods| :: mods[k] in coins
    ensures var (coins', refs') := IndexSpent(coins, refs, mods);
            var last := LastAt(coins, mods, i, true);
            && Blanked(coins, coins')
            && RefAt(refs', i) == (if last.Some? && !LeadsToLive(coins, refs, i) then last else RefAt(refs, i))
    decreases |mods|
  {
    hide LastAt, IndexSpentOne, LeadsToLive, Blanked;
    if mods == [] {
      NoneQueued(coins, i, true);
      BlankedSelf(coins);
    } else {
      var o, rest := mods[0], mods[1..];
      assert o in coins;
      var (coins1, refs1) := IndexSpentOne(coins, refs, o);
      SpentOneIs(coins, refs, o, i);
      BlankedKeeps(coins, coins1, rest);
      IndexSpentIs(coins1, refs1, rest, i);
      BlankedTwice(coins, coins1, IndexSpent(coins1, refs1, rest).0);
      LastAtBlanked(coins, coins1, rest, i, true);
      LastAtFirst(coins, mods, i, true);
    }
  }

  lemma {:induction false} BlankedSelf(coins: CoinMap)
    ensures Blanked(coins, coins)
  {
  }

  lemma {:induction false} BlankedKeeps(coins: CoinMap, coins': CoinMap, mods: seq<HashPoint>)
    requires Blanked(coins, coins') && forall k | 0 <= k < |mods| :: mods[k] in coins
    ensures forall k | 0 <= k < |mods| :: mods[k] in coins'
  {
  }

  lemma {:induction false} WriteQueues(w: Writing, batch: Batch)
    requires DistinctKeys(batch) && WriteAll(w, batch).Some? && (forall k | 0 <= k < |w.mods| :: w.mods[k] in w.coins)
    requires forall j, k | 0 <= j < |batch| && 0 <= k < |w.mods| :: batch[j].0 != w.mods[k]
    ensures var w' := WriteAll(w, batch).value; forall k | 0 <= k < |w'.mods| :: w'.mods[k] in w'.coins
    decreases |batch|
  {
    if batch != [] {
      var (o, e) := batch[0];
      OneQueues(w, o, e);
      var w1, rest := WriteOne(w, o, e).value, batch[1..];
      hide WriteOne;
      forall j | 0 <= j < |rest| ensures rest[j] == batch[j + 1] && rest[j].0 != o {}
      forall k | 0 <= k < |w1.mods| ensures w1.mods[k] in w1.coins { if k < |w.mods| { assert w1.mods[k] == w.mods[k] && w.mods[k] != batch[0].0; } }
      WriteQueues(w1, rest);
    }
  }

  lemma {:induction false} OneQueues(w: Writing, o: HashPoint, e: Entry)
    requires WriteOne(w, o, e).Some?
    ensures var w' := WriteOne(w, o, e).value;
            && (w'.mods == w.mods || (w'.mods == w.mods + [o] && o in w'.coins))
            && (forall x | x in w.coins && x != o :: x in w'.coins)
  {
    hide DropOwnRef;
  }

  /**
   * Where a position of a layer leads after a whole batch was written to it, in any order and whatever positions the
   * coins have: to the last live outpoint written there; if there is none, to the last spent one written there, unless
   * it led to a live coin; and else where the first loop left it.
   */
  lemma {:induction false} BatchIndex(v: View, batch: Batch, i: IndexPoint)
    requires v.Cache? && DistinctKeys(batch) && BatchWrite(v, batch).Some?
    ensures var w := WriteAll(Writing(v.coins, v.refs, []), batch).value;
            var v' := BatchWrite(v, batch).value;
            var live, spent := LastAt(w.coins, w.mods, i, false), LastAt(w.coins, w.mods, i, true);
            && Blanked(w.coins, v'.coins)
            && RefAt(v'.refs, i) ==
               if live.Some? then live
               else if spent.Some? && !LeadsToLive(w.coins, w.refs, i) then spent
               else RefAt(w.refs, i)
  {
    hide LastAt, WriteAll, IndexSpent, IndexLive, LeadsToLive, Blanked;
    var w := WriteAll(Writing(v.coins, v.refs, []), batch).value;
    WriteQueues(Writing(v.coins, v.refs, []), batch);
    IndexSpentIs(w.coins, w.refs, w.mods, i);
    var (coins2, refs2) := IndexSpent(w.coins, w.refs, w.mods);
    IndexLiveIs(coins2, refs2, w.mods, i);
    LastAtBlanked(w.coins, coins2, w.mods, i, false);
  }

  // ----- orders -----

  /** Every cache has an order in which its entries can be written. */
  lemma {:induction false} SomeOrder(coins: CoinMap) returns (batch: Batch)
    ensures Enumerates(batch, coins)
    decreases |coins|
  {
    batch := [];
    if coins != map[] {
      var o :| o in coins;
      var rest := coins - {o};
      assert |rest| < |coins| by { assert coins.Keys == rest.Keys + {o}; }
      var front := SomeOrder(rest);
      batch := front + [(o, coins[o])];
      forall j, k | 0 <= j < k < |batch| ensures batch[j].0 != batch[k].0 { assert front[j].0 in rest; }
      forall j | 0 <= j < |batch| ensures batch[j].0 in coins && coins[batch[j].0] == batch[j].1 { if j < |front| { assert front[j].0 in rest; } }
      forall x | x in coins ensures (x, coins[x]) in batch {
        if x != o { assert x in rest && (x, rest[x]) in front; }
      }
    }
  }
}
