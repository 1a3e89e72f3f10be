/**
 * The second index of the cache: positions in the chain to outpoints.
 * On histories where a transaction keeps one place and no two share one, the index is
 * exactly the inverse of the coins' positions in every layer.
 */
module CoinsIndex {
  import opened Wrappers
  import opened CoinsModel
  import opened CoinsFlags

  datatype Slot = Slot(height: nat, txIndex: nat)

  const MEMPOOL_SLOT := Slot(MEMPOOL_HEIGHT, MEMPOOL_INDEX)

  /** Where each transaction sits: one place for the whole history. */
  type Placement = nat -> Slot

  ghost predicate OnePlaceEach(pl: Placement) {
    forall s, t :: pl(s) == pl(t) && pl(s) != MEMPOOL_SLOT ==> s == t
  }

  predicate At(pl: Placement, o: HashPoint, c: Coin) {
    pl(o.txid) == Slot(c.height, c.txIndex)
  }

  /** The outpoint a position names under a placement. */
  predicate Names(pl: Placement, i: IndexPoint, k: HashPoint) {
    pl(k.txid) == Slot(i.height, i.txIndex) && k.n == i.n
  }

  ghost predicate CacheExact(coins: CoinMap, refs: RefMap, pl: Placement) {
    && (forall o | o in coins ::
          && At(pl, o, coins[o].coin)
          && (!coins[o].coin.InMempool() ==> Pos(o, coins[o].coin) in refs && refs[Pos(o, coins[o].coin)] == o))
    && (forall i | i in refs :: !i.InMempool() && refs[i] in coins && Pos(refs[i], coins[refs[i]].coin) == i)
  }

  ghost predicate DbExact(store: map<HashPoint, Coin>, refs: RefMap, pl: Placement) {
    && (forall o | o in store ::
          && At(pl, o, store[o])
          && (!store[o].InMempool() ==> Pos(o, store[o]) in refs && refs[Pos(o, store[o])] == o))
    && (forall i | i in refs && !i.InMempool() :: refs[i] in store && Pos(refs[i], store[refs[i]]) == i)
  }

  /** The index of every layer is the inverse of its coins' positions. */
  ghost predicate Exact(v: View, pl: Placement) {
    match v
    case Db(store, refs) => DbExact(store, refs, pl)
    case Cache(coins, refs, base) => CacheExact(coins, refs, pl) && Exact(base, pl)
  }

  lemma {:induction false} LookPlaced(v: View, o: HashPoint, pl: Placement)
    requires Exact(v, pl) && Look(v, o).Some?
    ensures At(pl, o, Look(v, o).value)
  {
    if v.Cache? && o !in v.coins { LookPlaced(v.base, o, pl); }
  }

  /** Writing an entry at its own place keeps the index exact. */
  lemma {:induction false} PutExact(coins: CoinMap, refs: RefMap, o: HashPoint, e: Entry, pl: Placement)
    requires CacheExact(coins, refs, pl) && OnePlaceEach(pl) && At(pl, o, e.coin)
    ensures CacheExact(coins[o := e], if e.coin.InMempool() then refs else refs[Pos(o, e.coin) := o], pl)
    ensures o in coins && !e.coin.InMempool() ==> refs[Pos(o, e.coin) := o] == refs
  {
  }

  /** So does removing an entry together with its index entry. */
  lemma {:induction false} DropExact(coins: CoinMap, refs: RefMap, o: HashPoint, pl: Placement)
    requires CacheExact(coins, refs, pl) && o in coins
    ensures CacheExact(coins - {o},
                       if coins[o].coin.InMempool() then refs else refs - {Pos(o, coins[o].coin)}, pl)
  {
  }

  // ----- reads -----

  lemma {:induction false} GetKeepsExact(v: View, o: HashPoint, pl: Placement)
    requires Exact(v, pl) && OnePlaceEach(pl)
    ensures var (v', hit) := GetCoin(v, ByHash(o));
            && Exact(v', pl)
            && (hit.Some? ==> hit.value.0 == o && At(pl, o, hit.value.1))
  {
    if v.Cache? && o !in v.coins {
      GetKeepsExact(v.base, o, pl);
      var (base', hit) := GetCoin(v.base, ByHash(o));
      if hit.Some? {
        PutExact(v.coins, v.refs, o, Admit(v.coins, v.refs, base', o, hit.value.1).coins[o], pl);
      }
    }
  }

  /** A lookup by position is the lookup by hash of the outpoint placed there, layer by layer. */
  lemma {:induction false} IndexIsHash(v: View, i: IndexPoint, k: HashPoint, pl: Placement)
    requires Exact(v, pl) && OnePlaceEach(pl) && !i.InMempool() && Names(pl, i, k)
    ensures LookupAsserts(v, ByIndex(i))
    ensures GetCoin(v, ByIndex(i)) == GetCoin(v, ByHash(k))
  {
    match v
    case Db(store, refs) =>
      if i in refs { assert refs[i] == k; }
    case Cache(coins, refs, base) =>
      if i in refs { assert refs[i] == k; }
      IndexIsHash(base, i, k, pl);
  }

  lemma {:induction false} NothingPlaced(v: View, i: IndexPoint, pl: Placement)
    requires Exact(v, pl) && !i.InMempool() && forall t :: pl(t) != Slot(i.height, i.txIndex)
    ensures LookupAsserts(v, ByIndex(i))
    ensures GetCoin(v, ByIndex(i)) == (v, None)
  {
    match v
    case Db(store, refs) =>
      assert i in refs ==> pl(refs[i].txid) == Slot(i.height, i.txIndex);
    case Cache(coins, refs, base) =>
      assert i in refs ==> pl(refs[i].txid) == Slot(i.height, i.txIndex);
      NothingPlaced(base, i, pl);
  }

  /** Index-based and hash-based lookups return the same coin. */
  lemma {:induction false} IndexLookupAgrees(v: View, i: IndexPoint, pl: Placement)
    requires Sound(v) && Exact(v, pl) && OnePlaceEach(pl) && !i.InMempool()
    ensures LookupAsserts(v, ByIndex(i))
    ensures var hit := GetCoin(v, ByIndex(i)).1;
            && (forall k, c :: Look(v, k) == Some(c) && Pos(k, c) == i ==> hit == Some((k, c)))
            && (hit.Some? && !hit.value.1.IsSpent() ==>
                  Look(v, hit.value.0) == Some(hit.value.1) && Pos(hit.value.0, hit.value.1) == i)
  {
    if exists t :: pl(t) == Slot(i.height, i.txIndex) {
      var t :| pl(t) == Slot(i.height, i.txIndex);
      var k := HashPoint(t, i.n);
      IndexIsHash(v, i, k, pl);
      GetByHash(v, k);
      GetKeepsExact(v, k, pl);
    } else {
      NothingPlaced(v, i, pl);
    }
    forall k, c | Look(v, k) == Some(c) && Pos(k, c) == i ensures GetCoin(v, ByIndex(i)).1 == Some((k, c)) {
      LookPlaced(v, k, pl);
      IndexIsHash(v, i, k, pl);
      GetByHash(v, k);
    }
  }

  // ----- updates of the top layer -----

  lemma {:induction false} AddKeepsExact(v: View, o: HashPoint, coin: Coin, overwrite: bool, pl: Placement)
    requires v.Cache? && Exact(v, pl) && OnePlaceEach(pl) && At(pl, o, coin)
    requires !AddThrows(v, o, coin, overwrite)
    ensures Exact(AddCoin(v, o, coin, overwrite), pl)
  {
    var v' := AddCoin(v, o, coin, overwrite);
    if v' != v {
      PutExact(v.coins, v.refs, o, v'.coins[o], pl);
      if o in v.coins {
        var i := Pos(o, v.coins[o].coin);
        assert At(pl, o, v.coins[o].coin);
        assert v'.refs == if coin.InMempool() then v.refs else v.refs[i := o];
      }
    }
  }

  /** With an exact index no assert of SpendCoin fires. */
  lemma {:induction false} SpendKeepsExact(v: View, o: HashPoint, keepFresh: bool, pl: Placement)
    requires v.Cache? && Exact(v, pl) && OnePlaceEach(pl)
    ensures SpendAsserts(v, ByHash(o))
    ensures Exact(SpendCoin(v, ByHash(o), keepFresh).0, pl)
  {
    GetKeepsExact(v, o, pl);
    var (v1, hit) := GetCoin(v, ByHash(o));
    if hit.Some? {
      if o !in v.coins { GetKeepsExact(v.base, o, pl); }
      assert RefOf(v, ByHash(o)) == if hit.value.1.InMempool() then None else Some(Pos(o, hit.value.1));
      var e := v1.coins[o];
      DropExact(v1.coins, v1.refs, o, pl);
      PutExact(v1.coins, v1.refs, o, Entry(e.coin.Spend(), true, e.isFresh), pl);
    }
  }

  lemma {:induction false} SpendByIndex(v: View, i: IndexPoint, k: HashPoint, keepFresh: bool, pl: Placement)
    requires v.Cache? && Exact(v, pl) && OnePlaceEach(pl) && !i.InMempool() && Names(pl, i, k)
    ensures SpendAsserts(v, ByIndex(i))
    ensures SpendCoin(v, ByIndex(i), keepFresh) == SpendCoin(v, ByHash(k), keepFresh)
  {
    SpendKeepsExact(v, k, keepFresh, pl);
    RefByIndex(v, i, k, pl);
    GetKeepsExact(v, k, pl);
  }

  lemma {:induction false} RefByIndex(v: View, i: IndexPoint, k: HashPoint, pl: Placement)
    requires v.Cache? && Exact(v, pl) && OnePlaceEach(pl) && !i.InMempool() && Names(pl, i, k)
    ensures LookupAsserts(v, ByIndex(i)) && GetCoin(v, ByIndex(i)) == GetCoin(v, ByHash(k))
    ensures RefOf(v, ByIndex(i)) == RefOf(v, ByHash(k))
    ensures GetCoin(v, ByHash(k)).1.Some? ==> RefOf(v, ByHash(k)) == Some(i)
  {
    IndexIsHash(v, i, k, pl);
    if i in v.refs { assert v.refs[i] == k; }
    if k !in v.coins {
      IndexIsHash(v.base, i, k, pl);
      GetKeepsExact(v.base, k, pl);
    }
  }

  lemma {:induction false} UncacheKeepsExact(v: View, o: HashPoint, pl: Placement)
    requires v.Cache? && Exact(v, pl) && OnePlaceEach(pl)
    ensures Exact(Uncache(v, ByHash(o)), pl)
  {
  }

  lemma {:induction false} UncacheByIndex(v: View, i: IndexPoint, k: HashPoint, pl: Placement)
    requires v.Cache? && Exact(v, pl) && OnePlaceEach(pl) && !i.InMempool() && Names(pl, i, k)
    ensures Uncache(v, ByIndex(i)) == Uncache(v, ByHash(k))
  {
    if i in v.refs { assert v.refs[i] == k; }
  }

  /** The outpoint Uncache is about: the hash given, or the one the index of the layer has at a position. */
  function Named(v: View, o: OutPoint): Option<HashPoint>
    requires v.Cache?
  {
    match o
    case ByHash(h) => Some(h)
    case ByIndex(i) => if i in v.refs then Some(v.refs[i]) else None
  }

  /**
   * What Uncache takes out of the layer: the entry named, if and only if it is neither DIRTY nor FRESH, and with it,
   * when the index is exact, every index entry that leads to it. All else is as before.
   */
  lemma {:induction false} UncacheEffect(v: View, o: OutPoint)
    requires v.Cache?
    ensures var v', k := Uncache(v, o), Named(v, o);
            && v'.base == v.base
            && (forall x :: x in v'.coins <==> x in v.coins && (Some(x) == k ==> v.coins[x].isDirty || v.coins[x].isFresh))
            && (forall x | x in v'.coins :: v'.coins[x] == v.coins[x])
            && (forall i | i in v'.refs :: i in v.refs && v'.refs[i] == v.refs[i])
            && (forall i | i in v.refs && Some(v.refs[i]) != k :: i in v'.refs)
            && (k.None? || (k.value in v.coins ==> k.value in v'.coins) ==> v' == v)
    ensures forall pl: Placement | CacheExact(v.coins, v.refs, pl) ::
              forall i | i in v.refs :: i in Uncache(v, o).refs <==> v.refs[i] in Uncache(v, o).coins
  {
    var v' := Uncache(v, o);
    forall pl: Placement, i | CacheExact(v.coins, v.refs, pl) && i in v.refs ensures i in v'.refs <==> v.refs[i] in v'.coins {
      assert v.refs[i] in v.coins && Pos(v.refs[i], v.coins[v.refs[i]].coin) == i;
    }
  }

  /**
   * Uncache undoes a read: a coin that was read in from below and then uncached leaves the layer as it was, if and
   * only if what was found below was not spent.
   */
  lemma {:induction false} UncacheUndoesRead(v: View, k: HashPoint, pl: Placement)
    requires v.Cache? && Exact(v, pl) && OnePlaceEach(pl) && k !in v.coins
    ensures var (v1, hit) := GetCoin(v, ByHash(k));
            var v2 := Uncache(v1, ByHash(k));
            v2.coins == v.coins && v2.refs == v.refs <==> hit.None? || !hit.value.1.IsSpent()
  {
    GetKeepsExact(v.base, k, pl);
    var (base', hit) := GetCoin(v.base, ByHash(k));
    if hit.Some? {
      hide GetCoin;
      NothingAt(v.coins, v.refs, k, hit.value.1, pl);
      AdmitUndone(v.coins, v.refs, base', k, hit.value.1);
      ReadsIn(v, k);
    }
  }

  /** Nothing in the layer is at the place of a transaction of which it has no entry at this output. */
  lemma {:induction false} NothingAt(coins: CoinMap, refs: RefMap, k: HashPoint, c: Coin, pl: Placement)
    requires CacheExact(coins, refs, pl) && OnePlaceEach(pl) && k !in coins && At(pl, k, c)
    ensures !c.InMempool() ==> Pos(k, c) !in refs
  {
    assert !c.InMempool() && Pos(k, c) in refs ==> refs[Pos(k, c)] == k;
  }

  lemma {:induction false} ReadsIn(v: View, k: HashPoint)
    requires v.Cache? && k !in v.coins && GetCoin(v.base, ByHash(k)).1.Some? && GetCoin(v.base, ByHash(k)).1.value.0 == k
    ensures var (base', hit) := GetCoin(v.base, ByHash(k));
            GetCoin(v, ByHash(k)) == (Admit(v.coins, v.refs, base', k, hit.value.1), Some((k, hit.value.1)))
  {
  }

  lemma {:induction false} AdmitUndone(coins: CoinMap, refs: RefMap, base: View, k: HashPoint, c: Coin)
    requires k !in coins && (!c.InMempool() ==> Pos(k, c) !in refs)
    ensures var v2 := Uncache(Admit(coins, refs, base, k, c), ByHash(k));
            v2.coins == coins && v2.refs == refs <==> !c.IsSpent()
  {
    var v1 := Admit(coins, refs, base, k, c);
    if c.IsSpent() {
      assert k in Uncache(v1, ByHash(k)).coins;
    } else {
      assert v1.coins - {k} == coins;
      if !c.InMempool() { assert v1.refs - {Pos(k, c)} == refs; }
    }
  }
}
