/** Where the cache does not meet the promise, with the exact condition under which it does. */
module CoinsLimits {
  import opened Wrappers
  import opened CoinsModel
  import opened CoinsFlags
  import opened CoinsIndex
  import opened CoinsBatch

  /**
   * A read by position keeps the flags of every layer right, and the whole stack sound, if and
   * only if no layer it passes holds as spent, under another position, the outpoint it finds
   * unspent below. What any level shows is never changed.
   */
  lemma {:induction false} IndexReadKeepsFlagsIff(v: View, i: IndexPoint)
    requires Sound(v)
    ensures SameViews(v, GetCoin(v, ByIndex(i)).0)
    ensures AllFlags(GetCoin(v, ByIndex(i)).0) <==> ReadSafe(v, ByIndex(i))
    ensures Sound(GetCoin(v, ByIndex(i)).0) <==> ReadSafe(v, ByIndex(i))
  {
    GetShows(v, ByIndex(i));
    GetKeepsSoundIff(v, ByIndex(i));
  }

  const MOVED := HashPoint(7, 0)
  const OLD_PLACE := IndexPoint(100, 1, 0)
  const NEW_PLACE := IndexPoint(105, 2, 0)
  const OLD_COIN := Coin(TxOut(50, 1, false, false), 100, 1, false, true)
  const SPENT_COIN := Coin(NULL_OUT, 105, 2, false, true)

  /** The base has a coin at its old place; this layer re-added it at a new place and then spent it. */
  function MovedStack(): View {
    Cache(map[MOVED := Entry(SPENT_COIN, true, false)], map[NEW_PLACE := MOVED],
          Db(map[MOVED := OLD_COIN], map[OLD_PLACE := MOVED]))
  }

  /** Reading that coin by its old position loses the DIRTY flag, and the next flush brings the coin back. */
  lemma {:induction false} MovedOutpointComesBack()
    ensures Sound(MovedStack()) && Look(MovedStack(), MOVED).None?
    ensures var v1 := GetCoin(MovedStack(), ByIndex(OLD_PLACE)).0;
            && v1.coins == map[MOVED := Entry(SPENT_COIN, false, true)]
            && Flush(v1, [(MOVED, v1.coins[MOVED])]).Some?
            && Look(Flush(v1, [(MOVED, v1.coins[MOVED])]).value, MOVED) == Some(OLD_COIN)
  {
    var v := MovedStack();
    assert RefOk(NEW_PLACE, MOVED, v.coins, v.base);
    assert EntryOk(v.coins[MOVED], Look(v.base, MOVED));
    var v1 := GetCoin(v, ByIndex(OLD_PLACE)).0;
    assert GetCoin(v.base, ByIndex(OLD_PLACE)) == (v.base, Some((MOVED, OLD_COIN)));
    var e := Entry(SPENT_COIN, false, true);
    assert v1.coins[MOVED] == e;
    var batch := [(MOVED, e)];
    assert DbWriteCoins(v.base.store, batch) == DbWriteCoins(v.base.store, batch[1..]) == v.base.store;
  }

  const POOL_COIN := Coin(TxOut(9, 1, false, false), MEMPOOL_HEIGHT, MEMPOOL_INDEX, false, true)

  /** Overwriting a mempool coin in the parent leaves an index entry at the mempool's position. */
  lemma {:induction false} MempoolRewriteIsIndexed(pl: Placement)
    requires OnePlaceEach(pl) && pl(7) == MEMPOOL_SLOT
    ensures var v := Cache(map[MOVED := Entry(POOL_COIN, false, false)], map[], Db(map[MOVED := POOL_COIN], map[]));
            var batch := [(MOVED, Entry(POOL_COIN.(coinBase := true), true, false))];
            && Exact(v, pl) && BatchWrite(v, batch).Some?
            && !Exact(BatchWrite(v, batch).value, pl)
  {
    var v := Cache(map[MOVED := Entry(POOL_COIN, false, false)], map[], Db(map[MOVED := POOL_COIN], map[]));
    var batch := [(MOVED, Entry(POOL_COIN.(coinBase := true), true, false))];
    assert Rewrites(v.coins, batch[0].0, batch[0].1);
    assert WriteAll(Writing(v.coins, v.refs, []), batch).Some? by {
      assert batch[1..] == [];
    }
    BatchWriteExactIff(v, batch, pl);
  }
}
