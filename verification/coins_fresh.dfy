/** What the flags are for: a coin that comes and goes between flushes leaves no trace, and only what changed is written. */
module CoinsFresh {
  import opened Wrappers
  import opened CoinsModel
  import opened CoinsFlags

  // ----- the flags of an entry that is written -----

  /** What is left of an entry of the parent, if any, after the child's entry for the same outpoint is written. */
  function Merged(us: Option<Entry>, e: Entry): Option<Entry> {
    if !e.isDirty then us
    else if e.coin.IsSpent() && (if us.Some? then us.value.isFresh else e.isFresh) then None
    else Some(Entry(e.coin, true, if us.Some? then us.value.isFresh else e.isFresh))
  }

  function EntryAt(coins: CoinMap, o: HashPoint): Option<Entry> {
    if o in coins then Some(coins[o]) else None
  }

  lemma {:induction false} WriteOneMerges(w: Writing, o: HashPoint, e: Entry)
    requires WriteOne(w, o, e).Some?
    ensures EntryAt(WriteOne(w, o, e).value.coins, o) == Merged(EntryAt(w.coins, o), e)
    ensures forall x | x != o :: EntryAt(WriteOne(w, o, e).value.coins, x) == EntryAt(w.coins, x)
  {
    hide DropOwnRef;
  }

  /** Every entry is merged on its own, whatever the order: DIRTY ones are taken over, clean ones ignored, no other entry touched. */
  lemma {:induction false} WriteAllMerges(w: Writing, batch: Batch)
    requires DistinctKeys(batch) && WriteAll(w, batch).Some?
    ensures var w' := WriteAll(w, batch).value;
            && (forall j | 0 <= j < |batch| :: EntryAt(w'.coins, batch[j].0) == Merged(EntryAt(w.coins, batch[j].0), batch[j].1))
            && (forall x | (forall j | 0 <= j < |batch| :: batch[j].0 != x) :: EntryAt(w'.coins, x) == EntryAt(w.coins, x))
    decreases |batch|
  {
    hide Merged, EntryAt, WriteOne;
    if batch != [] {
      var (o, e) := batch[0];
      WriteOneMerges(w, o, e);
      var w1, rest := WriteOne(w, o, e).value, batch[1..];
      forall j | 0 <= j < |rest| ensures rest[j] == batch[j + 1] && rest[j].0 != o {}
      WriteAllMerges(w1, rest);
      var w' := WriteAll(w, batch).value;
      forall j | 0 <= j < |batch| ensures EntryAt(w'.coins, batch[j].0) == Merged(EntryAt(w.coins, batch[j].0), batch[j].1) {
        if j > 0 { assert rest[j - 1] == batch[j]; }
      }
      forall x | forall j | 0 <= j < |batch| :: batch[j].0 != x ensures EntryAt(w'.coins, x) == EntryAt(w.coins, x) {
        assert x != batch[0].0;
      }
    }
  }

  // ----- the top layer -----

  /** The flags AddCoin leaves: DIRTY, and FRESH if and only if it was so before, or the coin is new and nothing unwritten is known of it. */
  lemma {:induction false} AddFlags(v: View, o: HashPoint, coin: Coin, overwrite: bool)
    requires v.Cache? && !coin.out.unspendable && !AddThrows(v, o, coin, overwrite)
    ensures var v' := AddCoin(v, o, coin, overwrite);
            && EntryAt(v'.coins, o) ==
               Some(Entry(coin, true, (o in v.coins && v.coins[o].isFresh) || (!overwrite && !(o in v.coins && v.coins[o].isDirty))))
            && forall x | x != o :: EntryAt(v'.coins, x) == EntryAt(v.coins, x)
  {
  }

  /** The entry a spend leaves: none if it was FRESH, unless such entries are to be kept, and else a spent DIRTY one. */
  lemma {:induction false} SpendFlags(v: View, o: OutPoint, keepFresh: bool)
    requires v.Cache? && GetCoin(v, o).1.Some?
    ensures var (v1, hit) := GetCoin(v, o);
            var v', k := SpendCoin(v, o, keepFresh).0, hit.value.0;
            && EntryAt(v'.coins, k) ==
               (if v1.coins[k].isFresh && !keepFresh then None else Some(Entry(v1.coins[k].coin.Spend(), true, v1.coins[k].isFresh)))
            && (forall x | x != k :: EntryAt(v'.coins, x) == EntryAt(v1.coins, x))
  {
    hide GetCoin, RefOf;
  }

  /** A coin that is new to the whole view, added and spent again, leaves the layer's entries as they were. */
  lemma {:induction false} AddedAndSpent(v: View, o: HashPoint, coin: Coin)
    requires v.Cache? && !coin.IsSpent() && !coin.out.unspendable && o !in v.coins
    ensures var v1 := AddCoin(v, o, coin, false);
            var (v2, hit) := SpendCoin(v1, ByHash(o), false);
            v2.coins == v.coins && v2.base == v.base && hit == Some((o, coin))
  {
    var v1 := AddCoin(v, o, coin, false);
    assert GetCoin(v1, ByHash(o)) == (v1, Some((o, coin)));
    assert v1.coins - {o} == v.coins;
  }

  // ----- through a flush -----

  lemma {:induction false} FlushOne(mid: View, o: HashPoint, e: Entry)
    requires mid.Cache? && o !in mid.coins && e.isDirty && e.isFresh && !e.coin.IsSpent()
    ensures BatchWrite(mid, [(o, e)]).Some?
    ensures var mid' := BatchWrite(mid, [(o, e)]).value; mid'.coins == mid.coins[o := Entry(e.coin, true, true)] && mid'.base == mid.base
  {
    var w := Writing(mid.coins, mid.refs, []);
    var batch := [(o, e)];
    assert WriteOne(w, o, e).Some?;
    var w1 := WriteOne(w, o, e).value;
    assert WriteAll(w, batch) == WriteAll(w1, batch[1..]) == Some(w1);
    assert w1.coins == mid.coins[o := Entry(e.coin, true, true)];
    if w1.mods != [] {
      assert w1.mods == [o] && w1.mods[1..] == [];
      assert IndexSpentOne(w1.coins, w1.refs, o) == (w1.coins, w1.refs);
    }
    assert IndexSpent(w1.coins, w1.refs, w1.mods).0 == w1.coins;
  }

  lemma {:induction false} FlushGone(mid: View, o: HashPoint, e: Entry)
    requires mid.Cache? && o in mid.coins && mid.coins[o].isFresh && e.isDirty && !e.isFresh && e.coin.IsSpent()
    ensures BatchWrite(mid, [(o, e)]).Some?
    ensures var mid' := BatchWrite(mid, [(o, e)]).value; mid'.coins == mid.coins - {o} && mid'.base == mid.base
  {
    var w := Writing(mid.coins, mid.refs, []);
    var batch := [(o, e)];
    assert WriteOne(w, o, e).Some?;
    var w1 := WriteOne(w, o, e).value;
    assert WriteAll(w, batch) == WriteAll(w1, batch[1..]) == Some(w1);
    assert w1.mods == [];
  }

  /**
   * A coin new to the whole stack that is added above a layer, flushed into it, spent above it and flushed again is
   * gone from that layer, which is as it was before: whatever is below is never told of the coin.
   */
  lemma {:induction false} ComesAndGoes(mid: View, o: HashPoint, coin: Coin)
    requires mid.Cache? && o !in mid.coins && !coin.IsSpent() && !coin.out.unspendable
    ensures var v1 := AddCoin(Cache(map[], map[], mid), o, coin, false);
            && v1.coins.Keys == {o} && Flush(v1, [(o, v1.coins[o])]).Some?
            && var v3 := SpendCoin(Flush(v1, [(o, v1.coins[o])]).value, ByHash(o), false).0;
               && v3.coins.Keys == {o} && Flush(v3, [(o, v3.coins[o])]).Some?
               && Flush(v3, [(o, v3.coins[o])]).value.base.Cache?
               && Flush(v3, [(o, v3.coins[o])]).value.base.coins == mid.coins
  {
    var v1 := AddCoin(Cache(map[], map[], mid), o, coin, false);
    assert v1.coins == map[o := Entry(coin, true, true)];
    FlushOne(mid, o, v1.coins[o]);
    hide BatchWrite, AddCoin;
    var v2 := Flush(v1, [(o, v1.coins[o])]).value;
    var mid2 := v2.base;
    assert GetCoin(mid2, ByHash(o)) == (mid2, Some((o, coin)));
    var v3 := SpendCoin(v2, ByHash(o), false).0;
    assert v3.coins == map[o := Entry(coin.Spend(), true, false)] && v3.base == mid2;
    FlushGone(mid2, o, v3.coins[o]);
    assert mid2.coins - {o} == mid.coins;
  }

  /** The database is written exactly the DIRTY entries: spent ones are erased, the others stored, all else is kept. */
  lemma {:induction false} DbTakesDirty(store: map<HashPoint, Coin>, coins: CoinMap, batch: Batch, o: HashPoint)
    requires Enumerates(batch, coins)
    ensures var store' := DbWriteCoins(store, batch);
            (if o in store' then Some(store'[o]) else None) ==
            if o in coins && coins[o].isDirty then Live(coins[o].coin) else if o in store then Some(store[o]) else None
  {
    DbWritePointwise(store, batch);
    if o in coins {
      assert (o, coins[o]) in batch;
      var j :| 0 <= j < |batch| && batch[j] == (o, coins[o]);
      if !coins[o].isDirty { assert forall k | 0 <= k < |batch| :: batch[k].0 == o ==> !batch[k].1.isDirty; }
    } else {
      assert forall k | 0 <= k < |batch| :: batch[k].0 != o;
    }
  }
}
