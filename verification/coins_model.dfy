/**
 * The layered UTXO cache as values: every operation of CCoinsViewCache and of the
 * database view below it, written as a function from the old stack to the new one.
 * The class in coins_cache.dfy is proved to compute exactly these functions.
 */
module CoinsModel {
  import opened Wrappers

  const MEMPOOL_HEIGHT: nat := 1073741823
  const MEMPOOL_INDEX: nat := 4294967295

  /** An output named by transaction hash. */
  datatype HashPoint = HashPoint(txid: nat, n: nat)

  /** An output named by its position in the chain. */
  datatype IndexPoint = IndexPoint(height: nat, txIndex: nat, n: nat) {
    predicate InMempool() {
      height == MEMPOOL_HEIGHT && txIndex == MEMPOOL_INDEX
    }
  }

  datatype OutPoint = ByHash(hash: HashPoint) | ByIndex(index: IndexPoint)

  /** The default-constructed outpoint, which no transaction output has. */
  const NULL_POINT := HashPoint(0, 2147483647)

  /** A transaction output; the two flags are what the script code decides about it. */
  datatype TxOut = TxOut(nValue: int, script: nat, unspendable: bool, isWitness: bool)

  const NULL_OUT := TxOut(-1, 0, false, false)

  datatype Coin = Coin(out: TxOut, height: nat, txIndex: nat, coinBase: bool, segSig: bool) {
    predicate IsSpent() {
      out.nValue == -1
    }

    predicate InMempool() {
      height == MEMPOOL_HEIGHT && txIndex == MEMPOOL_INDEX
    }

    /** Only the output is cleared: height and index survive. */
    function Spend(): Coin {
      this.(out := NULL_OUT)
    }
  }

  const DEFAULT_COIN := Coin(NULL_OUT, 0, 0, false, false)

  datatype Entry = Entry(coin: Coin, isDirty: bool, isFresh: bool)

  const DEFAULT_ENTRY := Entry(DEFAULT_COIN, false, false)

  type CoinMap = map<HashPoint, Entry>
  type RefMap = map<IndexPoint, HashPoint>
  type Batch = seq<(HashPoint, Entry)>
  type Hit = Option<(HashPoint, Coin)>

  /** A stack of caches; the bottom is the coin database with its own index. */
  datatype View =
    | Db(store: map<HashPoint, Coin>, dbRefs: RefMap)
    | Cache(coins: CoinMap, refs: RefMap, base: View)

  function Pos(o: HashPoint, c: Coin): IndexPoint {
    IndexPoint(c.height, c.txIndex, o.n)
  }

  // ----- lookups -----

  function FindLocal(coins: CoinMap, refs: RefMap, o: OutPoint): (r: Option<HashPoint>)
    ensures r.Some? ==> r.value in coins
  {
    match o
    case ByHash(h) => if h in coins then Some(h) else None
    case ByIndex(i) => if i in refs && refs[i] in coins then Some(refs[i]) else None
  }

  function DbGet(store: map<HashPoint, Coin>, dbRefs: RefMap, o: OutPoint): Hit {
    match o
    case ByHash(h) => if h in store then Some((h, store[h])) else None
    case ByIndex(i) =>
      if i in dbRefs && dbRefs[i] in store then Some((dbRefs[i], store[dbRefs[i]])) else None
  }

  /** Copy a coin found below into a cache. An entry already there is kept, but its flags are still rewritten. */
  function Admit(coins: CoinMap, refs: RefMap, base: View, k: HashPoint, c: Coin): (v: View)
    ensures v.Cache? && k in v.coins
  {
    var e := if k in coins then coins[k] else Entry(c, false, false);
    Cache(coins[k := if e.coin.IsSpent() then Entry(e.coin, false, true) else e],
          if c.InMempool() then refs else refs[Pos(k, c) := k],
          base)
  }

  /** GetCoin, through FetchCoin: every layer passed on the way down is filled. */
  function GetCoin(v: View, o: OutPoint): (r: (View, Hit))
    ensures v.Cache? <==> r.0.Cache?
    ensures v.Cache? && r.1.Some? ==> r.1.value.0 in r.0.coins && r.0.coins[r.1.value.0].coin == r.1.value.1
  {
    match v
    case Db(store, dbRefs) => (v, DbGet(store, dbRefs, o))
    case Cache(coins, refs, base) =>
      match FindLocal(coins, refs, o)
      case Some(k) => (v, Some((k, coins[k].coin)))
      case None =>
        var (base', hit) := GetCoin(base, o);
        match hit
        case None => (Cache(coins, refs, base'), None)
        case Some((k, c)) =>
          var v' := Admit(coins, refs, base', k, c);
          (v', Some((k, v'.coins[k].coin)))
  }

  /** The asserts a lookup passes: an index is never the mempool's, and never leads to a missing entry. */
  predicate LookupAsserts(v: View, o: OutPoint) {
    v.Cache? && o.ByIndex? ==>
      && !o.index.InMempool()
      && (o.index in v.refs ==> v.refs[o.index] in v.coins)
      && (o.index !in v.refs ==> LookupAsserts(v.base, o))
  }

  /** The index entry FetchCoin hands back beside the coin, if any. */
  function RefOf(v: View, o: OutPoint): Option<IndexPoint>
    requires v.Cache?
  {
    match FindLocal(v.coins, v.refs, o)
    case Some(k) =>
      if o.ByIndex? then Some(o.index)
      else if v.coins[k].coin.InMempool() then None
      else Some(Pos(k, v.coins[k].coin))
    case None =>
      match GetCoin(v.base, o).1
      case None => None
      case Some((k, c)) => if c.InMempool() then None else Some(Pos(k, c))
  }

  // ----- updates of the top layer -----

  /** Remove the index entry of a coin that is about to be replaced, if it points at that coin's transaction. */
  function DropOwnRef(refs: RefMap, i: IndexPoint, txid: nat): RefMap {
    if i in refs && refs[i].txid == txid then refs - {i} else refs
  }

  function AddCoin(v: View, o: HashPoint, coin: Coin, overwrite: bool): (r: View)
    requires v.Cache?
    ensures r.Cache? && r.base == v.base
  {
    if coin.out.unspendable then v else
    var refs1 := if o in v.coins then DropOwnRef(v.refs, Pos(o, v.coins[o].coin), o.txid) else v.refs;
    var refs2 := if coin.InMempool() then refs1 else refs1[Pos(o, coin) := o];
    var e := if o in v.coins then v.coins[o] else DEFAULT_ENTRY;
    if AddThrows(v, o, coin, overwrite) then
      Cache(v.coins[o := e], refs2, v.base)
    else
      Cache(v.coins[o := Entry(coin, true, e.isFresh || (!overwrite && !e.isDirty))], refs2, v.base)
  }

  /** The exception for a new coin that would replace an unspent one. */
  predicate AddThrows(v: View, o: HashPoint, coin: Coin, overwrite: bool)
    requires v.Cache?
  {
    !coin.out.unspendable && !overwrite && o in v.coins && !v.coins[o].coin.IsSpent()
  }

  /** SpendCoin; the second component is the coin moved out. */
  function SpendCoin(v: View, o: OutPoint, keepFresh: bool): (r: (View, Hit))
    requires v.Cache?
    ensures r.0.Cache?
  {
    var (v1, hit) := GetCoin(v, o);
    match hit
    case None => (v1, None)
    case Some((k, c)) =>
      var e := v1.coins[k];
      if !keepFresh && e.isFresh then
        var ref := RefOf(v, o);
        var drop := ref.Some? && ref.value in v1.refs && (o.ByIndex? || v1.refs[ref.value] == o.hash);
        (Cache(v1.coins - {k}, if drop then v1.refs - {ref.value} else v1.refs, v1.base), hit)
      else
        (v1.(coins := v1.coins[k := Entry(c.Spend(), true, e.isFresh)]), hit)
  }

  /** SpendCoin asserts that every coin outside the mempool has an index entry. */
  predicate SpendAsserts(v: View, o: OutPoint)
    requires v.Cache?
  {
    && LookupAsserts(v, o)
    && var (v1, hit) := GetCoin(v, o);
       (hit.Some? && !hit.value.1.InMempool() ==> RefOf(v, o).Some? && RefOf(v, o).value in v1.refs)
  }

  function Uncache(v: View, o: OutPoint): (r: View)
    requires v.Cache?
    ensures r.Cache? && r.base == v.base
  {
    if o.ByIndex? && o.index !in v.refs then v else
    var k := if o.ByIndex? then v.refs[o.index] else o.hash;
    if k in v.coins && !v.coins[k].isDirty && !v.coins[k].isFresh then
      var i := Pos(k, v.coins[k].coin);
      Cache(v.coins - {k},
            if !v.coins[k].coin.InMempool() && i in v.refs && v.refs[i] == k then v.refs - {i} else v.refs,
            v.base)
    else v
  }

  // ----- batch writes -----

  /** What BatchWrite accumulates: the cache being written and the outpoints whose index is still to be set. */
  datatype Writing = Writing(coins: CoinMap, refs: RefMap, mods: seq<HashPoint>)

  /** One iteration of the first loop of BatchWrite; None is the "FRESH flag misapplied" exception. */
  function WriteOne(w: Writing, o: HashPoint, e: Entry): Option<Writing> {
    if !e.isDirty then Some(w)
    else if o !in w.coins then
      if e.isFresh && e.coin.IsSpent() then Some(w)
      else Some(Writing(w.coins[o := Entry(e.coin, true, e.isFresh)], w.refs,
                        if e.coin.InMempool() then w.mods else w.mods + [o]))
    else
      var us := w.coins[o];
      var i := Pos(o, us.coin);
      if e.isFresh && !us.coin.IsSpent() then None
      else if us.isFresh && e.coin.IsSpent() then
        Some(Writing(w.coins - {o},
                     if !us.coin.InMempool() && us.coin.height == e.coin.height && us.coin.txIndex == e.coin.txIndex
                     then w.refs - {i} else w.refs,
                     w.mods))
      else
        // the subscript on the reference map creates a null entry when there is none
        var refs1 := if i in w.refs then w.refs else w.refs[i := NULL_POINT];
        Some(Writing(w.coins[o := Entry(e.coin, true, us.isFresh)], DropOwnRef(refs1, i, o.txid), w.mods + [o]))
  }

  function WriteAll(w: Writing, batch: Batch): Option<Writing>
    decreases |batch|
  {
    if batch == [] then Some(w) else
    match WriteOne(w, batch[0].0, batch[0].1)
    case None => None
    case Some(w') => WriteAll(w', batch[1..])
  }

  /** Second loop: index a spent coin, unless the position already leads to a live one. */
  function IndexSpentOne(coins: CoinMap, refs: RefMap, o: HashPoint): (CoinMap, RefMap) {
    if o in coins && coins[o].coin.IsSpent() then
      var i := Pos(o, coins[o].coin);
      if i in refs then
        // the subscript on the coin map creates an empty entry when there is none
        var coins' := if refs[i] in coins then coins else coins[refs[i] := DEFAULT_ENTRY];
        if !coins'[refs[i]].coin.IsSpent() then (coins', refs) else (coins', refs[i := o])
      else (coins, refs[i := o])
    else (coins, refs)
  }

  function IndexSpent(coins: CoinMap, refs: RefMap, mods: seq<HashPoint>): (CoinMap, RefMap)
    decreases |mods|
  {
    if mods == [] then (coins, refs) else
    var (coins', refs') := IndexSpentOne(coins, refs, mods[0]);
    IndexSpent(coins', refs', mods[1..])
  }

  /** Third loop: index the live coins. */
  function IndexLive(coins: CoinMap, refs: RefMap, mods: seq<HashPoint>): RefMap
    decreases |mods|
  {
    if mods == [] then refs else
    var o := mods[0];
    IndexLive(coins, if o in coins && !coins[o].coin.IsSpent() then refs[Pos(o, coins[o].coin) := o] else refs, mods[1..])
  }

  function DbWriteCoins(store: map<HashPoint, Coin>, batch: Batch): map<HashPoint, Coin>
    decreases |batch|
  {
    if batch == [] then store else
    var (o, e) := batch[0];
    DbWriteCoins(if !e.isDirty then store else if e.coin.IsSpent() then store - {o} else store[o := e.coin], batch[1..])
  }

  function DbEraseRefs(refs: RefMap, batch: Batch): RefMap
    decreases |batch|
  {
    if batch == [] then refs else
    var (o, e) := batch[0];
    DbEraseRefs(if e.isDirty && e.coin.IsSpent() then refs - {Pos(o, e.coin)} else refs, batch[1..])
  }

  function DbWriteRefs(refs: RefMap, batch: Batch): RefMap
    decreases |batch|
  {
    if batch == [] then refs else
    var (o, e) := batch[0];
    DbWriteRefs(if e.isDirty && !e.coin.IsSpent() then refs[Pos(o, e.coin) := o] else refs, batch[1..])
  }

  /** BatchWrite of a whole child cache, given in the order its hash map happens to iterate. */
  function BatchWrite(v: View, batch: Batch): (r: Option<View>)
    ensures r.Some? ==> (r.value.Cache? <==> v.Cache?)
    ensures r.Some? && v.Cache? ==> r.value.base == v.base
  {
    match v
    case Db(store, dbRefs) =>
      Some(Db(DbWriteCoins(store, batch), DbWriteRefs(DbEraseRefs(dbRefs, batch), batch)))
    case Cache(coins, refs, base) =>
      match WriteAll(Writing(coins, refs, []), batch)
      case None => None
      case Some(w) =>
        var (coins2, refs2) := IndexSpent(w.coins, w.refs, w.mods);
        Some(Cache(coins2, IndexLive(coins2, refs2, w.mods), base))
  }

  /** The batch lists every entry of the child once. */
  predicate Enumerates(batch: Batch, coins: CoinMap) {
    && (forall j, k | 0 <= j < k < |batch| :: batch[j].0 != batch[k].0)
    && (forall j | 0 <= j < |batch| :: batch[j].0 in coins && coins[batch[j].0] == batch[j].1)
    && (forall o | o in coins :: (o, coins[o]) in batch)
  }

  function Flush(v: View, batch: Batch): (r: Option<View>)
    requires v.Cache?
    ensures r.Some? ==> r.value.Cache?
  {
    match BatchWrite(v.base, batch)
    case None => None
    case Some(base') => Some(Cache(map[], map[], base'))
  }

  /** GetAllCoins: the base's coins overlaid with this layer's entries. */
  function AllCoins(v: View): map<HashPoint, Coin> {
    match v
    case Db(store, _) => store
    case Cache(coins, _, base) =>
      var below := AllCoins(base);
      map o | o in below.Keys + coins.Keys && (o in coins ==> !coins[o].coin.IsSpent())
        :: if o in coins then coins[o].coin else below[o]
  }
}
