/**
 * CCoinsViewCache as an object: caches linked by base pointers, the maps updated in place,
 * and an optional sibling view for witness coins. Every method computes the step of CoinsRuns.
 */
module CoinsCache {
  import opened Wrappers
  import opened M = CoinsModel
  import opened CoinsFlags
  import R = CoinsRuns

  /** The entries of a hash map in whatever order it iterates. */
  method Iterate(coins: CoinMap) returns (batch: Batch)
    ensures Enumerates(batch, coins)
  {
    batch := [];
    var left := coins.Keys;
    while left != {}
      invariant left <= coins.Keys
      invariant forall j, k | 0 <= j < k < |batch| :: batch[j].0 != batch[k].0
      invariant forall j | 0 <= j < |batch| :: batch[j].0 in coins && batch[j].0 !in left && coins[batch[j].0] == batch[j].1
      invariant forall o | o in coins && o !in left :: (o, coins[o]) in batch
      decreases left
    {
      var o :| o in left;
      batch := batch + [(o, coins[o])];
      left := left - {o};
    }
  }

  /** The loop of GetAllCoins: spent entries hide what is below, live ones replace it. */
  method Overlay(below: map<HashPoint, Coin>, coins: CoinMap) returns (all: map<HashPoint, Coin>)
    ensures all == map o | o in below.Keys + coins.Keys && (o in coins ==> !coins[o].coin.IsSpent())
                     :: if o in coins then coins[o].coin else below[o]
  {
    all := below;
    var entries := Iterate(coins);
    ghost var done: set<HashPoint> := {};
    for j := 0 to |entries|
      invariant forall k | 0 <= k < j :: entries[k].0 in done
      invariant forall k | j <= k < |entries| :: entries[k].0 !in done
      invariant done <= coins.Keys
      invariant forall o :: o in all <==> if o in done then !coins[o].coin.IsSpent() else o in below
      invariant forall o | o in all :: all[o] == if o in done then coins[o].coin else below[o]
    {
      var (o, e) := entries[j];
      if e.coin.IsSpent() {
        if o in all {
          all := all - {o};
        }
      } else {
        all := all[o := e.coin];
      }
      done := done + {o};
    }
    forall o | o in coins ensures o in done {
      assert (o, coins[o]) in entries;
    }
  }

  class CoinsView {
    /** The view this one is a cache over; null for the coin database itself. */
    var base: CoinsView?
    var store: map<HashPoint, Coin>
    var cacheCoins: CoinMap
    var cacheCoinRefs: RefMap
    var pChainedWitView: CoinsView?
    ghost var Repr: set<object>

    ghost predicate Valid()
      reads this, Repr
      decreases Repr
    {
      && this in Repr
      && (base == null ==> Repr == {this})
      && (base != null ==> base in Repr && this !in base.Repr && Repr == {this} + base.Repr && base.Valid())
    }

    ghost function Model(): (v: View)
      requires Valid()
      reads this, Repr
      ensures v.Cache? <==> base != null
      decreases Repr
    {
      if base == null then Db(store, cacheCoinRefs) else Cache(cacheCoins, cacheCoinRefs, base.Model())
    }

    /** A top-level cache: its sibling, if any, is a separate chain of caches with no sibling of its own. */
    ghost predicate ValidTip()
      reads this, Repr, pChainedWitView, if pChainedWitView != null then pChainedWitView.Repr else {}
    {
      && Valid() && base != null
      && (pChainedWitView != null ==>
            && pChainedWitView.Valid() && pChainedWitView.base != null
            && pChainedWitView.pChainedWitView == null
            && pChainedWitView.Repr !! Repr)
    }

    ghost function Tip(): R.Tip
      requires ValidTip()
      reads this, Repr, pChainedWitView, if pChainedWitView != null then pChainedWitView.Repr else {}
    {
      R.Tip(Model(), if pChainedWitView == null then None else Some(pChainedWitView.Model()))
    }

    ghost function Footprint(): set<object>
      reads this, pChainedWitView
    {
      Repr + if pChainedWitView != null then pChainedWitView.Repr else {}
    }

    constructor Database(coins: map<HashPoint, Coin>, refs: RefMap)
      ensures Valid() && fresh(Repr) && Model() == Db(coins, refs)
    {
      base := null;
      store, cacheCoinRefs := coins, refs;
      cacheCoins, pChainedWitView := map[], null;
      Repr := {this};
    }

    /** A cache over any view, without a sibling. */
    constructor Over(b: CoinsView)
      requires b.Valid()
      ensures Valid() && fresh(this) && Repr == {this} + b.Repr && base == b && pChainedWitView == null
      ensures Model() == Cache(map[], map[], b.Model())
    {
      base := b;
      store, cacheCoins, cacheCoinRefs, pChainedWitView := map[], map[], map[], null;
      Repr := {this} + b.Repr;
    }

    /** A child of a cache: a sibling of the parent gets a child of its own. */
    constructor (b: CoinsView)
      requires b.ValidTip()
      ensures ValidTip() && base == b
      ensures R.Step(b.Tip(), R.Push) == R.Done(Tip(), None)
    {
      var w: CoinsView? := null;
      if b.pChainedWitView != null {
        w := new CoinsView.Over(b.pChainedWitView);
      }
      base := b;
      store, cacheCoins, cacheCoinRefs, pChainedWitView := map[], map[], map[], w;
      Repr := {this} + b.Repr;
    }

    /** Find an outpoint here or below, filling every cache on the way; the index entry comes along. */
    method FetchCoin(o: OutPoint) returns (k: Option<HashPoint>, ref: Option<IndexPoint>)
      requires Valid() && base != null && LookupAsserts(Model(), o)
      modifies Repr
      ensures Valid() && Repr == old(Repr) && base == old(base) && pChainedWitView == old(pChainedWitView)
      ensures var (v, hit) := M.GetCoin(old(Model()), o);
              && Model() == v
              && (hit.None? <==> k.None?)
              && (k.Some? ==> k.value in cacheCoins && hit == Some((k.value, cacheCoins[k.value].coin)))
      ensures ref == RefOf(old(Model()), o)
      decreases Repr, 0
    {
      match o {
        case ByHash(h) =>
          if h in cacheCoins {
            var c := cacheCoins[h].coin;
            return Some(h), if c.InMempool() then None else Some(Pos(h, c));
          }
        case ByIndex(i) =>
          if i in cacheCoinRefs {
            assert cacheCoinRefs[i] in cacheCoins;
            return Some(cacheCoinRefs[i]), Some(i);
          }
      }
      var hit := base.GetCoin(o);
      if hit.None? {
        return None, None;
      }
      k := Some(hit.value.0);
      ref := CopyHere(hit.value.0, hit.value.1);
    }

    /** Copy a coin found below into this cache. */
    method CopyHere(key: HashPoint, tmp: Coin) returns (ref: Option<IndexPoint>)
      requires Valid() && base != null
      modifies this`cacheCoins, this`cacheCoinRefs
      ensures Valid()
      ensures Model() == Admit(old(cacheCoins), old(cacheCoinRefs), old(base.Model()), key, tmp)
      ensures ref == if tmp.InMempool() then None else Some(Pos(key, tmp))
    {
      ref := None;
      if !tmp.InMempool() {
        cacheCoinRefs := cacheCoinRefs[Pos(key, tmp) := key];
        ref := Some(Pos(key, tmp));
      }
      if key !in cacheCoins {
        cacheCoins := cacheCoins[key := Entry(tmp, false, false)];
      }
      if cacheCoins[key].coin.IsSpent() {
        cacheCoins := cacheCoins[key := Entry(cacheCoins[key].coin, false, true)];
      }
    }

    method GetCoin(o: OutPoint) returns (hit: Hit)
      requires Valid() && LookupAsserts(Model(), o)
      modifies Repr
      ensures Valid() && Repr == old(Repr) && base == old(base) && pChainedWitView == old(pChainedWitView)
      ensures (Model(), hit) == M.GetCoin(old(Model()), o)
      decreases Repr, 1
    {
      if base == null {
        return DbGet(store, cacheCoinRefs, o);
      }
      var k, _ := FetchCoin(o);
      hit := if k.Some? then Some((k.value, cacheCoins[k.value].coin)) else None;
    }

    /** HaveCoin: exactly whether the view shows an unspent coin at the outpoint, or at the one found under a position. */
    method HaveCoin(o: OutPoint) returns (have: bool)
      requires Valid() && base != null && Sound(Model()) && LookupAsserts(Model(), o)
      modifies Repr
      ensures Valid() && Repr == old(Repr) && SameViews(old(Model()), Model())
      ensures Sound(Model()) <==> ReadSafe(old(Model()), o)
      ensures have <==> Shown(old(Model()), o).Some?
    {
      GetShows(Model(), o);
      GetKeepsSoundIff(Model(), o);
      ShownIsFound(Model(), o);
      var k, _ := FetchCoin(o);
      have := k.Some? && !cacheCoins[k.value].coin.IsSpent();
    }

    /** AccessCoin: the coin the view shows there, or the empty coin. */
    method AccessCoin(o: OutPoint) returns (c: Coin)
      requires Valid() && base != null && Sound(Model()) && LookupAsserts(Model(), o)
      modifies Repr
      ensures Valid() && Repr == old(Repr) && SameViews(old(Model()), Model())
      ensures Sound(Model()) <==> ReadSafe(old(Model()), o)
      ensures Live(c) == Shown(old(Model()), o)
    {
      GetShows(Model(), o);
      GetKeepsSoundIff(Model(), o);
      ShownIsFound(Model(), o);
      var k, _ := FetchCoin(o);
      c := if k.Some? then cacheCoins[k.value].coin else DEFAULT_COIN;
    }

    method AddCoin(h: HashPoint, coin: Coin, overwrite: bool) returns (threw: bool)
      requires ValidTip() && !coin.IsSpent()
      modifies Footprint()
      ensures ValidTip() && Repr == old(Repr) && base == old(base) && pChainedWitView == old(pChainedWitView)
      ensures pChainedWitView != null ==> pChainedWitView.Repr == old(pChainedWitView.Repr)
      ensures threw <==> R.Step(old(Tip()), R.Add(h, coin, overwrite)).Aborted?
      ensures !threw ==> R.Step(old(Tip()), R.Add(h, coin, overwrite)) == R.Done(Tip(), None)
      decreases pChainedWitView != null
    {
      if pChainedWitView != null && coin.out.isWitness {
        threw := pChainedWitView.AddCoin(h, coin, overwrite);
        if threw { return; }
      }
      threw := AddHere(h, coin, overwrite);
    }

    method AddHere(h: HashPoint, coin: Coin, overwrite: bool) returns (threw: bool)
      requires Valid() && base != null
      modifies this`cacheCoins, this`cacheCoinRefs
      ensures Valid()
      ensures threw <==> AddThrows(old(Model()), h, coin, overwrite)
      ensures Model() == M.AddCoin(old(Model()), h, coin, overwrite)
    {
      if coin.out.unspendable {
        return false;
      }
      if h in cacheCoins {
        var i := Pos(h, cacheCoins[h].coin);
        if i in cacheCoinRefs && cacheCoinRefs[i].txid == h.txid {
          cacheCoinRefs := cacheCoinRefs - {i};
        }
      }
      if !coin.InMempool() {
        cacheCoinRefs := cacheCoinRefs[Pos(h, coin) := h];
      }
      if h !in cacheCoins {
        cacheCoins := cacheCoins[h := DEFAULT_ENTRY];
      }
      var markFresh := false;
      if !overwrite {
        if !cacheCoins[h].coin.IsSpent() {
          return true;
        }
        markFresh := !cacheCoins[h].isDirty;
      }
      cacheCoins := cacheCoins[h := Entry(coin, true, cacheCoins[h].isFresh || markFresh)];
      threw := false;
    }

    /** The sibling keeps spent fresh coins, so that their removal is still known to it. */
    method SpendCoin(o: OutPoint, nodeletefresh: bool) returns (moveout: Hit)
      requires ValidTip() && SpendAsserts(Model(), o)
      requires pChainedWitView != null ==> SpendAsserts(pChainedWitView.Model(), o)
      modifies Footprint()
      ensures ValidTip() && Repr == old(Repr) && base == old(base) && pChainedWitView == old(pChainedWitView)
      ensures pChainedWitView != null ==> pChainedWitView.Repr == old(pChainedWitView.Repr)
      ensures (Model(), moveout) == M.SpendCoin(old(Model()), o, nodeletefresh)
      ensures !nodeletefresh ==> R.Step(old(Tip()), R.Spend(o)) == R.Done(Tip(), moveout)
      decreases pChainedWitView != null
    {
      if pChainedWitView != null {
        var _ := pChainedWitView.SpendCoin(o, true);
      }
      moveout := SpendHere(o, nodeletefresh);
    }

    method SpendHere(o: OutPoint, nodeletefresh: bool) returns (moveout: Hit)
      requires Valid() && base != null && SpendAsserts(Model(), o)
      modifies Repr
      ensures Valid() && Repr == old(Repr) && base == old(base) && pChainedWitView == old(pChainedWitView)
      ensures (Model(), moveout) == M.SpendCoin(old(Model()), o, nodeletefresh)
    {
      hide M.GetCoin, M.RefOf, LookupAsserts;
      var k, ref := FetchCoin(o);
      if k.None? {
        return None;
      }
      var e := cacheCoins[k.value];
      assert !e.coin.InMempool() ==> ref.Some? && ref.value in cacheCoinRefs;
      moveout := Some((k.value, e.coin));
      if !nodeletefresh && e.isFresh {
        if ref.Some? && ref.value in cacheCoinRefs && (o.ByIndex? || cacheCoinRefs[ref.value] == o.hash) {
          cacheCoinRefs := cacheCoinRefs - {ref.value};
        }
        cacheCoins := cacheCoins - {k.value};
      } else {
        cacheCoins := cacheCoins[k.value := Entry(e.coin.Spend(), true, e.isFresh)];
      }
    }

    method Uncache(o: OutPoint)
      requires ValidTip()
      modifies Footprint()
      ensures ValidTip() && Repr == old(Repr) && base == old(base) && pChainedWitView == old(pChainedWitView)
      ensures pChainedWitView != null ==> pChainedWitView.Repr == old(pChainedWitView.Repr)
      ensures R.Step(old(Tip()), R.Drop(o)) == R.Done(Tip(), None)
      decreases pChainedWitView != null
    {
      if pChainedWitView != null {
        pChainedWitView.Uncache(o);
      }
      UncacheHere(o);
    }

    method UncacheHere(o: OutPoint)
      requires Valid() && base != null
      modifies this`cacheCoins, this`cacheCoinRefs
      ensures Valid()
      ensures Model() == M.Uncache(old(Model()), o)
    {
      var k: HashPoint;
      match o {
        case ByHash(h) => k := h;
        case ByIndex(i) =>
          if i !in cacheCoinRefs { return; }
          k := cacheCoinRefs[i];
      }
      if k in cacheCoins && !cacheCoins[k].isDirty && !cacheCoins[k].isFresh {
        if !cacheCoins[k].coin.InMempool() {
          var i := Pos(k, cacheCoins[k].coin);
          if i in cacheCoinRefs && cacheCoinRefs[i] == k {
            cacheCoinRefs := cacheCoinRefs - {i};
          }
        }
        cacheCoins := cacheCoins - {k};
      }
    }

    /** Take over the entries of a child; false is the "FRESH flag misapplied" exception. */
    method BatchWrite(batch: Batch) returns (ok: bool)
      requires Valid()
      modifies this
      ensures base == old(base) && Repr == old(Repr) && pChainedWitView == old(pChainedWitView) && Valid()
      ensures ok <==> M.BatchWrite(old(Model()), batch).Some?
      ensures ok ==> M.BatchWrite(old(Model()), batch) == Some(Model())
    {
      if base == null {
        store := DbWriteCoins(store, batch);
        cacheCoinRefs := DbWriteRefs(DbEraseRefs(cacheCoinRefs, batch), batch);
        return true;
      }
      var mods: seq<HashPoint>;
      ok, mods := MergeEntries(batch);
      if !ok { return; }
      IndexModified(mods);
    }

    /** First loop: merge the entries and queue the outpoints whose index is to be rewritten. */
    method MergeEntries(batch: Batch) returns (ok: bool, mods: seq<HashPoint>)
      requires Valid() && base != null
      modifies this`cacheCoins, this`cacheCoinRefs
      ensures Valid()
      ensures ok <==> WriteAll(Writing(old(cacheCoins), old(cacheCoinRefs), []), batch).Some?
      ensures ok ==> WriteAll(Writing(old(cacheCoins), old(cacheCoinRefs), []), batch)
                     == Some(Writing(cacheCoins, cacheCoinRefs, mods))
    {
      mods := [];
      ghost var start := Writing(cacheCoins, cacheCoinRefs, []);
      for j := 0 to |batch|
        invariant Valid()
        invariant WriteAll(Writing(cacheCoins, cacheCoinRefs, mods), batch[j..]) == WriteAll(start, batch)
      {
        var (o, e) := batch[j];
        assert batch[j..][0] == batch[j] && batch[j..][1..] == batch[j + 1..];
        if e.isDirty {
          if o !in cacheCoins {
            if !(e.isFresh && e.coin.IsSpent()) {
              cacheCoins := cacheCoins[o := Entry(e.coin, true, e.isFresh)];
              if !e.coin.InMempool() {
                mods := mods + [o];
              }
            }
          } else {
            var us := cacheCoins[o];
            var i := Pos(o, us.coin);
            if e.isFresh && !us.coin.IsSpent() {
              return false, mods;
            }
            if us.isFresh && e.coin.IsSpent() {
              if !us.coin.InMempool() && us.coin.height == e.coin.height && us.coin.txIndex == e.coin.txIndex {
                cacheCoinRefs := cacheCoinRefs - {i};
              }
              cacheCoins := cacheCoins - {o};
            } else {
              if i !in cacheCoinRefs {
                cacheCoinRefs := cacheCoinRefs[i := NULL_POINT];
              }
              if cacheCoinRefs[i].txid == o.txid {
                cacheCoinRefs := cacheCoinRefs - {i};
              }
              cacheCoins := cacheCoins[o := Entry(e.coin, true, us.isFresh)];
              mods := mods + [o];
            }
          }
        }
      }
      ok := true;
    }

    /** Second and third loop: spent coins take a position only from no one or the spent, live coins always. */
    method IndexModified(mods: seq<HashPoint>)
      requires Valid() && base != null
      modifies this`cacheCoins, this`cacheCoinRefs
      ensures Valid()
      ensures var (coins, refs) := IndexSpent(old(cacheCoins), old(cacheCoinRefs), mods);
              cacheCoins == coins && cacheCoinRefs == IndexLive(coins, refs, mods)
    {
      ghost var (coins, refs) := IndexSpent(cacheCoins, cacheCoinRefs, mods);
      for j := 0 to |mods|
        invariant Valid()
        invariant IndexSpent(cacheCoins, cacheCoinRefs, mods[j..]) == (coins, refs)
      {
        var o := mods[j];
        assert mods[j..][0] == o && mods[j..][1..] == mods[j + 1..];
        if o in cacheCoins && cacheCoins[o].coin.IsSpent() {
          var i := Pos(o, cacheCoins[o].coin);
          if i in cacheCoinRefs {
            if cacheCoinRefs[i] !in cacheCoins {
              cacheCoins := cacheCoins[cacheCoinRefs[i] := DEFAULT_ENTRY];
            }
            if !cacheCoins[cacheCoinRefs[i]].coin.IsSpent() {
              continue;
            }
          }
          cacheCoinRefs := cacheCoinRefs[i := o];
        }
      }
      for j := 0 to |mods|
        invariant Valid() && cacheCoins == coins
        invariant IndexLive(coins, cacheCoinRefs, mods[j..]) == IndexLive(coins, refs, mods)
      {
        var o := mods[j];
        assert mods[j..][0] == o && mods[j..][1..] == mods[j + 1..];
        if o in cacheCoins && !cacheCoins[o].coin.IsSpent() {
          cacheCoinRefs := cacheCoinRefs[Pos(o, cacheCoins[o].coin) := o];
        }
      }
    }

    /** Push everything to the base, in whatever order the maps iterate. In a sound stack this cannot fail. */
    method Flush() returns (ok: bool, ghost batch: Batch, ghost witBatch: Batch)
      requires ValidTip()
      modifies Footprint()
      ensures ValidTip() && Repr == old(Repr) && base == old(base) && pChainedWitView == old(pChainedWitView)
      ensures pChainedWitView != null ==> pChainedWitView.Repr == old(pChainedWitView.Repr)
      ensures ok ==> Enumerates(batch, old(cacheCoins))
      ensures ok && pChainedWitView != null ==> Enumerates(witBatch, old(pChainedWitView.cacheCoins))
      ensures ok ==> R.Step(old(Tip()), R.Commit(batch, witBatch)) == R.Done(Tip(), None)
      ensures Sound(old(Model())) && (pChainedWitView != null ==> Sound(old(pChainedWitView.Model()))) ==> ok
      decreases pChainedWitView != null
    {
      batch, witBatch := [], [];
      if pChainedWitView != null {
        ghost var none: Batch;
        ok, witBatch, none := pChainedWitView.Flush();
        if !ok { return; }
      }
      ok, batch := FlushHere();
    }

    method FlushHere() returns (ok: bool, ghost batch: Batch)
      requires Valid() && base != null
      modifies Repr
      ensures Valid() && Repr == old(Repr) && base == old(base) && pChainedWitView == old(pChainedWitView)
      ensures Enumerates(batch, old(cacheCoins))
      ensures ok <==> M.Flush(old(Model()), batch).Some?
      ensures ok ==> M.Flush(old(Model()), batch) == Some(Model())
      ensures Sound(old(Model())) ==> ok
    {
      ghost var v := Model();
      var entries := Iterate(cacheCoins);
      batch := entries;
      if Sound(v) { FlushKeepsView(v, entries); }
      ok := base.BatchWrite(entries);
      if ok {
        cacheCoins, cacheCoinRefs := map[], map[];
      }
    }

    /** Every unspent coin of the view. */
    method GetAllCoins() returns (all: map<HashPoint, Coin>)
      requires Valid()
      ensures all == AllCoins(Model())
      decreases Repr
    {
      if base == null {
        return store;
      }
      var below := base.GetAllCoins();
      all := Overlay(below, cacheCoins);
    }
  }
}
