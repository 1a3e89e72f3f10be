/**
 * The DIRTY/FRESH discipline: every operation keeps each layer's entries consistent with
 * the view below it, and changes what the stack shows exactly as a plain map would.
 * Nothing here assumes anything about chain positions.
 */
module CoinsFlags {
  import opened Wrappers
  import opened CoinsModel

  function Live(c: Coin): Option<Coin> {
    if c.IsSpent() then None else Some(c)
  }

  /** What a layer with these entries shows, given what the view below it shows. */
  function Over(coins: CoinMap, base: View, o: HashPoint): Option<Coin> {
    if o in coins then Live(coins[o].coin) else Look(base, o)
  }

  /** The coin a view shows at an outpoint: the meaning of the whole stack. */
  function Look(v: View, o: HashPoint): Option<Coin> {
    match v
    case Db(store, _) => if o in store then Some(store[o]) else None
    case Cache(coins, _, base) => if o in coins then Live(coins[o].coin) else Look(base, o)
  }

  /** FRESH: the parent view has no unspent coin. Not DIRTY: equal to the parent view. */
  ghost predicate EntryOk(e: Entry, below: Option<Coin>) {
    && (e.isFresh ==> below.None?)
    && (!e.isDirty ==> Live(e.coin) == below)
  }

  /**
   * An index entry leads to the coin at that position, to a DIRTY entry, or to an outpoint
   * the parent view does not have.
   */
  ghost predicate RefOk(i: IndexPoint, o: HashPoint, coins: CoinMap, base: View) {
    || (o in coins && (coins[o].isDirty || (Pos(o, coins[o].coin) == i && !i.InMempool())))
    || Look(base, o).None?
  }

  ghost predicate LayerOk(coins: CoinMap, refs: RefMap, base: View) {
    && (forall o | o in coins :: EntryOk(coins[o], Look(base, o)))
    && (forall i | i in refs :: RefOk(i, refs[i], coins, base))
  }

  ghost predicate Sound(v: View) {
    && Look(v, NULL_POINT).None?
    && match v
       case Db(store, _) => forall o | o in store :: !store[o].IsSpent()
       case Cache(coins, refs, base) => Sound(base) && LayerOk(coins, refs, base)
  }

  /** Two stacks of the same depth that show the same coins at every level. */
  ghost predicate SameViews(v: View, v': View) {
    match (v, v')
    case (Db(_, _), Db(_, _)) => v == v'
    case (Cache(_, _, base), Cache(_, _, base')) =>
      (forall o :: Look(v, o) == Look(v', o)) && SameViews(base, base')
    case _ => false
  }

  lemma {:induction false} SameViewsReflexive(v: View)
    ensures SameViews(v, v)
  {
    if v.Cache? { SameViewsReflexive(v.base); }
  }

  lemma {:induction false} SameLooks(v: View, v': View, o: HashPoint)
    requires SameViews(v, v')
    ensures Look(v, o) == Look(v', o)
  {
  }

  /** Layer invariants depend on the base only through what it shows. */
  lemma {:induction false} LayerOverSameBase(coins: CoinMap, refs: RefMap, base: View, base': View)
    requires LayerOk(coins, refs, base) && SameViews(base, base')
    ensures LayerOk(coins, refs, base')
  {
    forall o ensures Look(base, o) == Look(base', o) { SameLooks(base, base', o); }
  }

  // ----- reads -----

  /** What GetCoin will report, read off the stack without filling any layer. */
  function Peek(v: View, o: OutPoint): Hit {
    match v
    case Db(store, dbRefs) => DbGet(store, dbRefs, o)
    case Cache(coins, refs, base) =>
      match FindLocal(coins, refs, o)
      case Some(k) => Some((k, coins[k].coin))
      case None =>
        match Peek(base, o)
        case None => None
        case Some((k, c)) => Some((k, if k in coins then coins[k].coin else c))
  }

  /** A layer that holds as spent, under another position, the outpoint found unspent below it. */
  predicate Revives(coins: CoinMap, below: Hit) {
    below.Some? && !below.value.1.IsSpent() && below.value.0 in coins && coins[below.value.0].coin.IsSpent()
  }

  /** No layer the read passes through on its way down revives what it finds. */
  predicate ReadSafe(v: View, o: OutPoint) {
    v.Cache? && FindLocal(v.coins, v.refs, o).None? ==>
      ReadSafe(v.base, o) && !Revives(v.coins, Peek(v.base, o))
  }

  lemma {:induction false} HashReadsAreSafe(v: View, o: HashPoint)
    ensures ReadSafe(v, ByHash(o))
    ensures Peek(v, ByHash(o)).Some? ==> Peek(v, ByHash(o)).value.0 == o
  {
    if v.Cache? { HashReadsAreSafe(v.base, o); }
  }

  /** A read, by hash or by position, reports what the view shows and changes no level's view. */
  lemma {:induction false} GetShows(v: View, o: OutPoint)
    requires Sound(v)
    ensures var (v', hit) := GetCoin(v, o);
            && hit == Peek(v, o) && SameViews(v, v')
            && (hit.Some? ==> Live(hit.value.1) == Look(v, hit.value.0))
  {
    match v
    case Db(_, _) =>
    case Cache(coins, refs, base) =>
      if FindLocal(coins, refs, o).Some? {
        SameViewsReflexive(v);
      } else {
        GetShows(base, o);
        var (base', hit) := GetCoin(base, o);
        forall x ensures Look(base, x) == Look(base', x) { SameLooks(base, base', x); }
      }
  }

  /** Every layer's flags are right. */
  ghost predicate AllFlags(v: View) {
    v.Cache? ==> AllFlags(v.base) && forall o | o in v.coins :: EntryOk(v.coins[o], Look(v.base, o))
  }

  lemma {:induction false} SoundHasFlags(v: View)
    requires Sound(v)
    ensures AllFlags(v)
  {
    if v.Cache? { SoundHasFlags(v.base); }
  }

  lemma {:induction false} AdmitSoundIff(coins: CoinMap, refs: RefMap, base: View, base': View, k: HashPoint, c: Coin)
    requires LayerOk(coins, refs, base) && SameViews(base, base') && Live(c) == Look(base, k)
    ensures var v := Admit(coins, refs, base', k, c);
            && (!Revives(coins, Some((k, c))) ==> LayerOk(v.coins, v.refs, base'))
            && (Revives(coins, Some((k, c))) ==> !EntryOk(v.coins[k], Look(base', k)))
  {
    LayerOverSameBase(coins, refs, base, base');
    SameLooks(base, base', k);
    var v := Admit(coins, refs, base', k, c);
    if k in coins { assert EntryOk(coins[k], Look(base', k)); }
    if !Revives(coins, Some((k, c))) {
      forall i | i in v.refs ensures RefOk(i, v.refs[i], v.coins, base') {
        if v.refs[i] != k { assert i in refs && RefOk(i, refs[i], coins, base'); }
        else if i in refs && refs[i] == k { assert RefOk(i, k, coins, base'); }
      }
    }
  }

  /** A read keeps every layer's flags right, and the whole stack sound, if and only if it is safe. */
  lemma {:induction false} GetKeepsSoundIff(v: View, o: OutPoint)
    requires Sound(v)
    ensures Sound(GetCoin(v, o).0) <==> ReadSafe(v, o)
    ensures AllFlags(GetCoin(v, o).0) <==> ReadSafe(v, o)
  {
    if v.Cache? && FindLocal(v.coins, v.refs, o).None? {
      GetKeepsSoundIff(v.base, o);
      GetShows(v, o);
      GetShows(v.base, o);
      var (base', hit) := GetCoin(v.base, o);
      LayerOverSameBase(v.coins, v.refs, v.base, base');
      SameLooks(v, GetCoin(v, o).0, NULL_POINT);
      if hit.Some? { AdmitSoundIff(v.coins, v.refs, v.base, base', hit.value.0, hit.value.1); }
    } else {
      SoundHasFlags(v);
    }
  }

  lemma {:induction false} GetByHash(v: View, o: HashPoint)
    requires Sound(v)
    ensures var (v', hit) := GetCoin(v, ByHash(o));
            && Sound(v') && SameViews(v, v')
            && (hit.Some? ==> hit.value.0 == o && Live(hit.value.1) == Look(v, o))
            && (hit.None? ==> Look(v, o).None?)
  {
    HashReadsAreSafe(v, o);
    GetShows(v, ByHash(o));
    GetKeepsSoundIff(v, ByHash(o));
    HashMiss(v, o);
  }

  /** The unspent coin a view shows at an outpoint, or at the outpoint it finds under a position. */
  function Shown(v: View, o: OutPoint): Option<Coin> {
    match o
    case ByHash(h) => Look(v, h)
    case ByIndex(_) => if Peek(v, o).Some? then Look(v, Peek(v, o).value.0) else None
  }

  lemma {:induction false} ShownIsFound(v: View, o: OutPoint)
    ensures Shown(v, o) == if Peek(v, o).Some? then Look(v, Peek(v, o).value.0) else None
  {
    if o.ByHash? {
      HashReadsAreSafe(v, o.hash);
      HashMiss(v, o.hash);
    }
  }

  lemma {:induction false} HashMiss(v: View, o: HashPoint)
    ensures Peek(v, ByHash(o)).None? ==> Look(v, o).None?
  {
    if v.Cache? { HashMiss(v.base, o); }
  }

  // ----- updates of the top layer -----

  /**
   * AddCoin throws exactly when the new coin would replace an unspent coin of this layer.
   * Otherwise it puts the coin on view, and the stack stays sound exactly when the caller kept
   * the promise that a coin not marked as an overwrite is new to the whole view.
   */
  lemma {:induction false} AddKeepsSoundIff(v: View, o: HashPoint, coin: Coin, overwrite: bool)
    requires v.Cache? && Sound(v) && !coin.IsSpent() && o != NULL_POINT
    ensures AddThrows(v, o, coin, overwrite) <==>
            !coin.out.unspendable && !overwrite && o in v.coins && Look(v, o).Some?
    ensures var v' := AddCoin(v, o, coin, overwrite);
            !AddThrows(v, o, coin, overwrite) ==>
              && (Sound(v') <==> coin.out.unspendable || overwrite || Look(v, o).None?)
              && forall x :: Look(v', x) == if x == o && !coin.out.unspendable then Some(coin) else Look(v, x)
  {
    var v' := AddCoin(v, o, coin, overwrite);
    if !AddThrows(v, o, coin, overwrite) && v' != v {
      if o in v.coins { assert EntryOk(v.coins[o], Look(v.base, o)); }
      forall i | i in v'.refs ensures RefOk(i, v'.refs[i], v'.coins, v.base) {
        if v'.refs[i] != o { assert i in v.refs && RefOk(i, v.refs[i], v.coins, v.base); }
      }
      assert Sound(v') ==> EntryOk(v'.coins[o], Look(v.base, o));
    }
  }

  /** Spending an entry in place: erased when FRESH, otherwise kept as a spent DIRTY entry. */
  lemma {:induction false} SpendInPlace(v: View, o: HashPoint, erase: bool, refs': RefMap)
    requires v.Cache? && Sound(v) && o in v.coins && (erase ==> v.coins[o].isFresh)
    requires forall i | i in refs' :: i in v.refs && refs'[i] == v.refs[i]
    ensures var e := v.coins[o];
            var v' := Cache(if erase then v.coins - {o} else v.coins[o := Entry(e.coin.Spend(), true, e.isFresh)],
                            refs', v.base);
            Sound(v') && forall x :: Look(v', x) == if x == o then None else Look(v, x)
  {
    var e := v.coins[o];
    assert EntryOk(e, Look(v.base, o));
    var coins' := if erase then v.coins - {o} else v.coins[o := Entry(e.coin.Spend(), true, e.isFresh)];
    forall i | i in refs' ensures RefOk(i, refs'[i], coins', v.base) {
      assert i in v.refs && RefOk(i, v.refs[i], v.coins, v.base);
    }
    var v' := Cache(coins', refs', v.base);
    forall x ensures Look(v', x) == if x == o then None else Look(v, x) {
      assert Look(v', x) == Over(coins', v.base, x);
    }
  }

  /** Spending takes the outpoint that is found, and nothing else, off the view. */
  lemma {:induction false} SpendKeepsSound(v: View, o: OutPoint, keepFresh: bool)
    requires v.Cache? && Sound(v) && ReadSafe(v, o)
    ensures var (v', hit) := SpendCoin(v, o, keepFresh);
            && Sound(v') && SameViews(v.base, v'.base) && hit == Peek(v, o)
            && (hit.Some? ==> Live(hit.value.1) == Look(v, hit.value.0))
            && (forall x :: Look(v', x) == if hit.Some? && x == hit.value.0 then None else Look(v, x))
  {
    GetShows(v, o);
    GetKeepsSoundIff(v, o);
    var (v1, hit) := GetCoin(v, o);
    forall x ensures Look(v1, x) == Look(v, x) { SameLooks(v, v1, x); }
    if hit.Some? {
      var (v', _) := SpendCoin(v, o, keepFresh);
      var k := hit.value.0;
      SpendInPlace(v1, k, !keepFresh && v1.coins[k].isFresh, v'.refs);
    }
  }

  /** Dropping a clean entry, named by hash or by position, changes nothing on view. */
  lemma {:induction false} UncacheKeepsSound(v: View, o: OutPoint)
    requires v.Cache? && Sound(v)
    ensures var v' := Uncache(v, o);
            Sound(v') && forall x :: Look(v', x) == Look(v, x)
  {
    var v' := Uncache(v, o);
    if v' != v {
      var k := if o.ByIndex? then v.refs[o.index] else o.hash;
      assert EntryOk(v.coins[k], Look(v.base, k));
      forall i | i in v'.refs ensures RefOk(i, v'.refs[i], v'.coins, v.base) {
        assert i in v.refs && RefOk(i, v.refs[i], v.coins, v.base);
      }
    }
  }

  // ----- batch writes -----

  ghost predicate DistinctKeys(batch: Batch) {
    forall j, k | 0 <= j < k < |batch| :: batch[j].0 != batch[k].0
  }

  /** The child's entries are consistent with what the cache being written shows so far. */
  ghost predicate BatchOk(batch: Batch, coins: CoinMap, base: View) {
    forall j | 0 <= j < |batch| :: EntryOk(batch[j].1, Over(coins, base, batch[j].0))
  }

  ghost predicate NotYetWritten(batch: Batch, mods: seq<HashPoint>) {
    forall j | 0 <= j < |batch| :: batch[j].0 !in mods
  }

  /** Every outpoint waiting for its index entry is a DIRTY entry of the cache. */
  ghost predicate ModsDirty(coins: CoinMap, mods: seq<HashPoint>) {
    forall o | o in mods :: o in coins && coins[o].isDirty
  }

  ghost predicate WritingOk(w: Writing, base: View) {
    LayerOk(w.coins, w.refs, base) && ModsDirty(w.coins, w.mods)
  }

  lemma {:induction false} WriteOneEntries(w: Writing, base: View, o: HashPoint, e: Entry)
    requires WritingOk(w, base) && EntryOk(e, Over(w.coins, base, o)) && o !in w.mods
    ensures WriteOne(w, o, e).Some?
    ensures var w' := WriteOne(w, o, e).value;
            && (forall x | x in w'.coins :: EntryOk(w'.coins[x], Look(base, x)))
            && ModsDirty(w'.coins, w'.mods) && (w'.mods == w.mods || w'.mods == w.mods + [o])
            && Over(w'.coins, base, o) == Live(e.coin)
            && forall x | x != o :: Over(w'.coins, base, x) == Over(w.coins, base, x)
  {
    hide RefOk, DropOwnRef;
    if o in w.coins { assert EntryOk(w.coins[o], Look(base, o)); }
  }

  lemma {:induction false} WriteOneRefs(w: Writing, base: View, o: HashPoint, e: Entry, w': Writing)
    requires WritingOk(w, base) && Look(base, NULL_POINT).None? && WriteOne(w, o, e) == Some(w')
    ensures forall i | i in w'.refs :: RefOk(i, w'.refs[i], w'.coins, base)
  {
    hide ModsDirty;
    if o in w.coins { assert EntryOk(w.coins[o], Look(base, o)); }
    forall i | i in w'.refs ensures RefOk(i, w'.refs[i], w'.coins, base) {
      if w'.refs[i] != NULL_POINT || i in w.refs {
        assert i in w.refs && RefOk(i, w.refs[i], w.coins, base);
      }
    }
  }

  lemma {:induction false} WriteOneSound(w: Writing, base: View, o: HashPoint, e: Entry)
    requires WritingOk(w, base) && Look(base, NULL_POINT).None?
    requires EntryOk(e, Over(w.coins, base, o)) && o !in w.mods
    ensures WriteOne(w, o, e).Some?
    ensures var w' := WriteOne(w, o, e).value;
            && WritingOk(w', base)
            && (w'.mods == w.mods || w'.mods == w.mods + [o])
            && Over(w'.coins, base, o) == Live(e.coin)
            && forall x | x != o :: Over(w'.coins, base, x) == Over(w.coins, base, x)
  {
    hide WriteOne, EntryOk, RefOk;
    WriteOneEntries(w, base, o, e);
    WriteOneRefs(w, base, o, e, WriteOne(w, o, e).value);
  }

  lemma {:induction false} WriteAllSound(w: Writing, base: View, batch: Batch)
    requires WritingOk(w, base) && Look(base, NULL_POINT).None?
    requires DistinctKeys(batch) && BatchOk(batch, w.coins, base) && NotYetWritten(batch, w.mods)
    ensures WriteAll(w, batch).Some?
    ensures var w' := WriteAll(w, batch).value;
            && WritingOk(w', base)
            && (forall j | 0 <= j < |batch| :: Over(w'.coins, base, batch[j].0) == Live(batch[j].1.coin))
            && (forall x | (forall j | 0 <= j < |batch| :: batch[j].0 != x) ::
                  Over(w'.coins, base, x) == Over(w.coins, base, x))
    decreases |batch|
  {
    if batch != [] {
      var (o, e) := batch[0];
      WriteOneSound(w, base, o, e);
      var w1 := WriteOne(w, o, e).value;
      var rest := batch[1..];
      forall j | 0 <= j < |rest|
        ensures rest[j].0 != o && rest[j].0 !in w1.mods && EntryOk(rest[j].1, Over(w1.coins, base, rest[j].0))
      {
        assert rest[j] == batch[j + 1];
      }
      WriteAllSound(w1, base, rest);
      var w' := WriteAll(w, batch).value;
      assert forall j | 0 <= j < |rest| :: rest[j].0 != o;
      forall j | 0 <= j < |batch| ensures Over(w'.coins, base, batch[j].0) == Live(batch[j].1.coin) {
        if j > 0 { assert rest[j - 1] == batch[j]; }
      }
      forall x | forall j | 0 <= j < |batch| :: batch[j].0 != x
        ensures Over(w'.coins, base, x) == Over(w.coins, base, x)
      {
        assert forall j | 0 <= j < |rest| :: rest[j] == batch[j + 1];
      }
    }
  }

  ghost predicate SameOver(coins: CoinMap, coins': CoinMap, base: View) {
    forall x :: Over(coins', base, x) == Over(coins, base, x)
  }

  lemma {:induction false} IndexSpentSound(coins: CoinMap, refs: RefMap, base: View, mods: seq<HashPoint>, all: seq<HashPoint>)
    requires LayerOk(coins, refs, base) && ModsDirty(coins, all)
    requires forall o | o in mods :: o in all
    ensures var (coins', refs') := IndexSpent(coins, refs, mods);
            LayerOk(coins', refs', base) && SameOver(coins, coins', base)
            && ModsDirty(coins', all)
    decreases |mods|
  {
    if mods != [] {
      var (coins1, refs1) := IndexSpentOne(coins, refs, mods[0]);
      var i := Pos(mods[0], coins[mods[0]].coin);
      forall x | x in coins1 ensures EntryOk(coins1[x], Look(base, x)) {
        if x !in coins { assert RefOk(i, refs[i], coins, base); }
      }
      forall k | k in refs1 ensures RefOk(k, refs1[k], coins1, base) {
        if k in refs && refs1[k] == refs[k] { assert RefOk(k, refs[k], coins, base); }
      }
      assert SameOver(coins, coins1, base) by {
        if i in refs { assert RefOk(i, refs[i], coins, base); }
      }
      IndexSpentSound(coins1, refs1, base, mods[1..], all);
    }
  }

  lemma {:induction false} IndexLiveSound(coins: CoinMap, refs: RefMap, base: View, mods: seq<HashPoint>)
    requires LayerOk(coins, refs, base) && ModsDirty(coins, mods)
    ensures LayerOk(coins, IndexLive(coins, refs, mods), base)
    decreases |mods|
  {
    if mods != [] {
      var o := mods[0];
      var refs1 := if o in coins && !coins[o].coin.IsSpent() then refs[Pos(o, coins[o].coin) := o] else refs;
      forall k | k in refs1 ensures RefOk(k, refs1[k], coins, base) {
        if k in refs && refs1[k] == refs[k] { assert RefOk(k, refs[k], coins, base); }
      }
      IndexLiveSound(coins, refs1, base, mods[1..]);
    }
  }

  lemma {:induction false} DbWritePointwise(store: map<HashPoint, Coin>, batch: Batch)
    requires DistinctKeys(batch)
    ensures var store' := DbWriteCoins(store, batch);
            && (forall j | 0 <= j < |batch| && batch[j].1.isDirty ::
                  (if batch[j].0 in store' then Some(store'[batch[j].0]) else None) == Live(batch[j].1.coin))
            && (forall x | (forall j | 0 <= j < |batch| :: batch[j].0 == x ==> !batch[j].1.isDirty) ::
                  (x in store' <==> x in store) && (x in store ==> store'[x] == store[x]))
    decreases |batch|
  {
    if batch != [] {
      var (o, e) := batch[0];
      var store1 := if !e.isDirty then store else if e.coin.IsSpent() then store - {o} else store[o := e.coin];
      var rest := batch[1..];
      assert forall j | 0 <= j < |rest| :: rest[j] == batch[j + 1];
      DbWritePointwise(store1, rest);
      var store' := DbWriteCoins(store, batch);
      assert store' == DbWriteCoins(store1, rest);
      forall j | 0 <= j < |batch| && batch[j].1.isDirty
        ensures (if batch[j].0 in store' then Some(store'[batch[j].0]) else None) == Live(batch[j].1.coin)
      {
        if j > 0 { assert rest[j - 1] == batch[j]; }
      }
      forall x | forall j | 0 <= j < |batch| :: batch[j].0 == x ==> !batch[j].1.isDirty
        ensures (x in store' <==> x in store) && (x in store ==> store'[x] == store[x])
      {
        assert forall j | 0 <= j < |rest| :: rest[j].0 == x ==> !rest[j].1.isDirty;
        assert batch[0].0 == x ==> !batch[0].1.isDirty;
      }
    }
  }

  lemma {:induction false} DbBatchWriteSound(v: View, coins: CoinMap, batch: Batch)
    requires v.Db? && Sound(v) && Enumerates(batch, coins)
    requires forall o | o in coins :: EntryOk(coins[o], Look(v, o))
    requires Over(coins, v, NULL_POINT).None?
    ensures BatchWrite(v, batch).Some?
    ensures var v' := BatchWrite(v, batch).value;
            Sound(v') && forall x :: Look(v', x) == Over(coins, v, x)
  {
    DbWritePointwise(v.store, batch);
    var v' := BatchWrite(v, batch).value;
    forall x ensures Look(v', x) == Over(coins, v, x) {
      if x in coins {
        assert (x, coins[x]) in batch;
        var j :| 0 <= j < |batch| && batch[j] == (x, coins[x]);
        if !coins[x].isDirty {
          assert EntryOk(coins[x], Look(v, x));
          assert forall k | 0 <= k < |batch| :: batch[k].0 == x ==> !batch[k].1.isDirty;
        }
      } else {
        assert forall k | 0 <= k < |batch| :: batch[k].0 != x;
      }
    }
    forall o | o in v'.store ensures !v'.store[o].IsSpent() {
      assert Look(v', o) == Some(v'.store[o]);
      assert Look(v', o) == Over(coins, v, o);
    }
  }

  /**
   * Writing a child's entries into its base: the exception cannot happen, the base stays
   * sound, and it then shows what the child showed.
   */
  lemma {:induction false} BatchWriteSound(v: View, coins: CoinMap, batch: Batch)
    requires Sound(v) && Enumerates(batch, coins)
    requires forall o | o in coins :: EntryOk(coins[o], Look(v, o))
    requires Over(coins, v, NULL_POINT).None?
    ensures BatchWrite(v, batch).Some?
    ensures var v' := BatchWrite(v, batch).value;
            Sound(v') && forall x :: Look(v', x) == Over(coins, v, x)
  {
    match v
    case Db(_, _) =>
      DbBatchWriteSound(v, coins, batch);
    case Cache(c0, r0, base) =>
      var w := Writing(c0, r0, []);
      forall j | 0 <= j < |batch| ensures EntryOk(batch[j].1, Over(c0, base, batch[j].0)) {
        assert EntryOk(coins[batch[j].0], Look(v, batch[j].0));
      }
      WriteAllSound(w, base, batch);
      var w' := WriteAll(w, batch).value;
      IndexSpentSound(w'.coins, w'.refs, base, w'.mods, w'.mods);
      var (c2, r2) := IndexSpent(w'.coins, w'.refs, w'.mods);
      IndexLiveSound(c2, r2, base, w'.mods);
      var v' := BatchWrite(v, batch).value;
      forall x ensures Look(v', x) == Over(coins, v, x) {
        assert Look(v', x) == Over(c2, base, x) == Over(w'.coins, base, x);
        if x in coins {
          assert (x, coins[x]) in batch;
          var j :| 0 <= j < |batch| && batch[j] == (x, coins[x]);
        } else {
          assert forall j | 0 <= j < |batch| :: batch[j].0 != x;
          assert Over(c0, base, x) == Look(v, x);
        }
      }
  }

  /** Flush leaves the view unchanged and hands it to the parent. */
  lemma {:induction false} FlushKeepsView(v: View, batch: Batch)
    requires v.Cache? && Sound(v) && Enumerates(batch, v.coins)
    ensures Flush(v, batch).Some?
    ensures var v' := Flush(v, batch).value;
            && Sound(v')
            && (forall x :: Look(v', x) == Look(v, x))
            && (forall x :: Look(v'.base, x) == Look(v, x))
            && (v.base.Cache? ==> v'.base.Cache? && v'.base.base == v.base.base)
  {
    assert Over(v.coins, v.base, NULL_POINT) == Look(v, NULL_POINT);
    BatchWriteSound(v.base, v.coins, batch);
    forall x ensures Over(v.coins, v.base, x) == Look(v, x) {}
  }

  /** GetAllCoins returns exactly the unspent coins that point lookups see. */
  lemma {:induction false} AllCoinsIsView(v: View, o: HashPoint)
    ensures Look(v, o) == if o in AllCoins(v) then Some(AllCoins(v)[o]) else None
  {
    if v.Cache? { AllCoinsIsView(v.base, o); }
  }
}
