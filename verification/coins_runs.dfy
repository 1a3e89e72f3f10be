/**
 * Whole histories. A stack of caches of any depth, paired or not with a sibling witness
 * stack, behaves over every sequence of operations like a stack of plain maps.
 */
module CoinsRuns {
  import opened Wrappers
  import opened CoinsModel
  import opened CoinsFlags
  import opened CoinsIndex
  import opened CoinsBatch

  // ----- the specification: one plain map per layer -----

  type CoinSet = map<HashPoint, Coin>

  /** Some(pl): every transaction keeps the place pl gives it. None: positions are arbitrary. */
  type Places = Option<Placement>

  datatype Plain = Bottom(m: CoinSet) | Layer(m: CoinSet, below: Plain)

  datatype Op =
    | Read(o: OutPoint)
    | Add(h: HashPoint, coin: Coin, overwrite: bool)
    | Spend(o: OutPoint)
    | Drop(o: OutPoint)
    | Commit(batch: Batch, witBatch: Batch)
    | Push
    | Pop

  predicate Denotes(o: OutPoint, x: HashPoint, c: Coin) {
    match o
    case ByHash(h) => x == h
    case ByIndex(i) => Pos(x, c) == i
  }

  function Without(m: CoinSet, o: OutPoint): CoinSet {
    map x | x in m && !Denotes(o, x, m[x]) :: m[x]
  }

  /** Outpoints that name one output for certain: hashes, and positions when transactions keep their places. */
  predicate Certain(o: OutPoint, pl: Places) {
    o.ByHash? || pl.Some?
  }

  /**
   * The map without the output that was spent. A position names the output placed there; when
   * positions are arbitrary it names whatever output the view found under it.
   */
  function WithoutSpent(m: CoinSet, o: OutPoint, pl: Places, hit: Hit): CoinSet {
    if Certain(o, pl) then Without(m, o) else if hit.Some? then m - {hit.value.0} else m
  }

  function WithAdded(m: CoinSet, h: HashPoint, c: Coin): CoinSet {
    if c.out.unspendable then m else m[h := c]
  }

  predicate CanStep(p: Plain, op: Op) {
    p.Layer? && (op.Pop? ==> p.below.Layer?)
  }

  function PlainStep(p: Plain, op: Op, pl: Places, hit: Hit): Plain
    requires CanStep(p, op)
  {
    match op
    case Read(_) => p
    case Add(h, c, _) => p.(m := WithAdded(p.m, h, c))
    case Spend(o) => p.(m := WithoutSpent(p.m, o, pl, hit))
    case Drop(_) => p
    case Commit(_, _) => Layer(p.m, p.below.(m := p.m))
    case Push => Layer(p.m, p)
    case Pop => p.below
  }

  function Witnesses(m: CoinSet): CoinSet {
    map x | x in m && m[x].out.isWitness :: m[x]
  }

  /** The plain stack restricted to witness outputs. */
  function WitnessPart(p: Plain): (q: Plain)
    ensures p.Layer? <==> q.Layer?
  {
    match p
    case Bottom(m) => Bottom(Witnesses(m))
    case Layer(m, below) => Layer(Witnesses(m), WitnessPart(below))
  }

  function Get(m: CoinSet, o: HashPoint): Option<Coin> {
    if o in m then Some(m[o]) else None
  }

  /**
   * A read reports the coin of the plain map that the outpoint denotes, and nothing only if there
   * is none. When positions are arbitrary, what it reports is still the plain map's coin at the
   * outpoint it reports.
   */
  ghost predicate ReadsAs(m: CoinSet, o: OutPoint, pl: Places, hit: Hit) {
    && (hit.Some? ==> Live(hit.value.1) == Get(m, hit.value.0))
    && (Certain(o, pl) ==>
          if hit.Some? && !hit.value.1.IsSpent() then Denotes(o, hit.value.0, hit.value.1)
          else forall x | x in m :: !Denotes(o, x, m[x]))
  }

  // ----- the implementation: a cache stack and its optional sibling -----

  datatype Tip = Tip(main: View, wit: Option<View>)

  datatype Reason = IndexAssert | ReplacesUnspent | FreshMisapplied

  datatype Outcome = Done(tip: Tip, hit: Hit) | Aborted(reason: Reason)

  function Step(s: Tip, op: Op): (r: Outcome)
    requires s.main.Cache? && (s.wit.Some? ==> s.wit.value.Cache?)
  {
    match op
    case Read(o) =>
      if !LookupAsserts(s.main, o) then Aborted(IndexAssert) else
      var (v, hit) := GetCoin(s.main, o);
      Done(s.(main := v), hit)
    case Add(h, coin, overwrite) =>
      var sib := s.wit.Some? && coin.out.isWitness;
      if sib && AddThrows(s.wit.value, h, coin, overwrite) then Aborted(ReplacesUnspent)
      else if AddThrows(s.main, h, coin, overwrite) then Aborted(ReplacesUnspent)
      else Done(Tip(AddCoin(s.main, h, coin, overwrite),
                    if sib then Some(AddCoin(s.wit.value, h, coin, overwrite)) else s.wit), None)
    case Spend(o) =>
      if s.wit.Some? && !SpendAsserts(s.wit.value, o) then Aborted(IndexAssert)
      else if !SpendAsserts(s.main, o) then Aborted(IndexAssert)
      else
        var (v, hit) := SpendCoin(s.main, o, false);
        Done(Tip(v, if s.wit.Some? then Some(SpendCoin(s.wit.value, o, true).0) else None), hit)
    case Drop(o) =>
      Done(Tip(Uncache(s.main, o), if s.wit.Some? then Some(Uncache(s.wit.value, o)) else None), None)
    case Commit(batch, witBatch) =>
      if s.wit.Some? && Flush(s.wit.value, witBatch).None? then Aborted(FreshMisapplied)
      else if Flush(s.main, batch).None? then Aborted(FreshMisapplied)
      else Done(Tip(Flush(s.main, batch).value,
                    if s.wit.Some? then Flush(s.wit.value, witBatch) else None), None)
    case Push =>
      Done(Tip(Cache(map[], map[], s.main), if s.wit.Some? then Some(Cache(map[], map[], s.wit.value)) else None), None)
    case Pop =>
      Done(Tip(s.main.base, if s.wit.Some? then Some(s.wit.value.base) else None), None)
  }

  // ----- how the two are related -----

  ghost predicate Shows(v: View, m: CoinSet) {
    forall o :: Look(v, o) == Get(m, o)
  }

  ghost predicate Agrees(v: View, p: Plain) {
    match (v, p)
    case (Db(_, _), Bottom(m)) => Shows(v, m)
    case (Cache(_, _, base), Layer(m, below)) => Shows(v, m) && Agrees(base, below)
    case _ => false
  }

  ghost predicate Placed(v: View, pl: Places) {
    pl.Some? ==> OnePlaceEach(pl.value) && Exact(v, pl.value)
  }

  ghost predicate Refines(v: View, p: Plain, pl: Places) {
    v.Cache? && p.Layer? && Sound(v) && Agrees(v, p) && Placed(v, pl)
  }

  /** An outpoint determines its output. */
  type Outputs = HashPoint -> TxOut

  ghost predicate Determined(p: Plain, outs: Outputs) {
    && (forall o | o in p.m :: p.m[o].out == outs(o))
    && (p.Layer? ==> Determined(p.below, outs))
  }

  ghost predicate Related(s: Tip, p: Plain, pl: Places, outs: Outputs) {
    && Refines(s.main, p, pl)
    && (s.wit.Some? ==> Refines(s.wit.value, WitnessPart(p), pl) && Determined(p, outs))
  }

  /** A position outside the mempool; when positions are arbitrary, one the view can be read at. */
  predicate Addressable(v: View, o: OutPoint, pl: Places) {
    o.ByIndex? ==> if pl.Some? then !o.index.InMempool() else ReadSafe(v, o)
  }

  /** The two views find the same witness coin under an outpoint, or both none. */
  ghost predicate SameTarget(m: CoinSet, hit: Hit, witHit: Hit) {
    forall x | x in m && m[x].out.isWitness ::
      (hit.Some? && hit.value.0 == x) <==> (witHit.Some? && witHit.value.0 == x)
  }

  ghost predicate CommitOk(v: View, batch: Batch, pl: Places)
    requires v.Cache?
  {
    && Enumerates(batch, v.coins)
    && (pl.Some? && v.base.Cache? ==> NoMempoolRewrite(v.base.coins, batch))
  }

  /** What the callers of the cache promise about one operation. */
  ghost predicate Legal(s: Tip, p: Plain, op: Op, pl: Places, outs: Outputs)
    requires s.main.Cache? && (s.wit.Some? ==> s.wit.value.Cache?)
  {
    && CanStep(p, op)
    && match op
       case Read(o) => Addressable(s.main, o, pl)
       case Add(h, coin, overwrite) =>
         && !coin.IsSpent() && h != NULL_POINT
         && (!overwrite ==> h !in p.m)
         && (pl.Some? ==> At(pl.value, h, coin))
         && (s.wit.Some? ==> coin.out == outs(h))
       case Spend(o) =>
         && Addressable(s.main, o, pl)
         && (s.wit.Some? ==> Addressable(s.wit.value, o, pl))
         && (s.wit.Some? && !Certain(o, pl) ==> SameTarget(p.m, Peek(s.main, o), Peek(s.wit.value, o)))
       case Drop(o) => o.ByIndex? && pl.Some? ==> !o.index.InMempool()
       case Commit(batch, witBatch) =>
         CommitOk(s.main, batch, pl) && (s.wit.Some? ==> CommitOk(s.wit.value, witBatch, pl))
       case Push => true
       case Pop => true
  }

  // ----- one view at a time -----

  lemma {:induction false} AgreesSame(v: View, v': View, p: Plain)
    requires Agrees(v, p) && SameViews(v, v')
    ensures Agrees(v', p)
  {
    if v.Cache? { AgreesSame(v.base, v'.base, p.below); }
  }

  /** An outpoint that names one output is a hash in disguise, or nothing anywhere is placed at it. */
  lemma {:induction false} Resolve(v: View, p: Plain, o: OutPoint, pl: Places) returns (k: Option<HashPoint>)
    requires Refines(v, p, pl) && Certain(o, pl) && (o.ByIndex? ==> !o.index.InMempool())
    ensures LookupAsserts(v, o)
    ensures k.Some? ==>
              && GetCoin(v, o) == GetCoin(v, ByHash(k.value))
              && (o.ByIndex? ==> Names(pl.value, o.index, k.value))
              && (o.ByHash? ==> o.hash == k.value)
              && (forall x | x in p.m :: Denotes(o, x, p.m[x]) <==> x == k.value)
    ensures k.None? ==>
              && o.ByIndex? && GetCoin(v, o) == (v, None) && (forall t :: pl.value(t) != Slot(o.index.height, o.index.txIndex))
              && (forall x | x in p.m :: !Denotes(o, x, p.m[x]))
  {
    match o
    case ByHash(h) => k := Some(h);
    case ByIndex(i) =>
      forall x | x in p.m ensures At(pl.value, x, p.m[x]) {
        assert Look(v, x) == Get(p.m, x);
        LookPlaced(v, x, pl.value);
      }
      if t :| pl.value(t) == Slot(i.height, i.txIndex) {
        k := Some(HashPoint(t, i.n));
        IndexIsHash(v, i, k.value, pl.value);
      } else {
        k := None;
        NothingPlaced(v, i, pl.value);
      }
  }

  lemma {:induction false} ReadRefines(v: View, p: Plain, o: OutPoint, pl: Places)
    requires Refines(v, p, pl) && Addressable(v, o, pl)
    ensures Certain(o, pl) ==> LookupAsserts(v, o)
    ensures var (v', hit) := GetCoin(v, o); Refines(v', p, pl) && ReadsAs(p.m, o, pl, hit)
  {
    var (v', hit) := GetCoin(v, o);
    if !Certain(o, pl) {
      GetShows(v, o);
      GetKeepsSoundIff(v, o);
      AgreesSame(v, v', p);
    } else {
      var k := Resolve(v, p, o, pl);
      if k.Some? {
        GetByHash(v, k.value);
        assert Look(v, k.value) == Get(p.m, k.value);
        AgreesSame(v, v', p);
        if pl.Some? { GetKeepsExact(v, k.value, pl.value); }
      }
    }
  }

  lemma {:induction false} SpendFoundRefines(v: View, p: Plain, o: OutPoint, keepFresh: bool, pl: Places)
    requires Refines(v, p, pl) && ReadSafe(v, o)
    requires pl.Some? ==> Exact(SpendCoin(v, o, keepFresh).0, pl.value)
    ensures var (v', hit) := SpendCoin(v, o, keepFresh);
            && hit == Peek(v, o) && (hit.Some? ==> Live(hit.value.1) == Get(p.m, hit.value.0))
            && Refines(v', p.(m := if hit.Some? then p.m - {hit.value.0} else p.m), pl)
  {
    var (v', hit) := SpendCoin(v, o, keepFresh);
    SpendKeepsSound(v, o, keepFresh);
    AgreesSame(v.base, v'.base, p.below);
    var m' := if hit.Some? then p.m - {hit.value.0} else p.m;
    forall x ensures Look(v', x) == Get(m', x) { assert Look(v, x) == Get(p.m, x); }
  }

  lemma {:induction false} SpendHashRefines(v: View, p: Plain, k: HashPoint, keepFresh: bool, pl: Places)
    requires Refines(v, p, pl)
    ensures pl.Some? ==> SpendAsserts(v, ByHash(k))
    ensures var (v', hit) := SpendCoin(v, ByHash(k), keepFresh);
            && Refines(v', p.(m := p.m - {k}), pl)
            && (hit.Some? ==> hit.value.0 == k && Live(hit.value.1) == Get(p.m, k))
            && (hit.None? ==> k !in p.m)
  {
    if pl.Some? { SpendKeepsExact(v, k, keepFresh, pl.value); }
    HashReadsAreSafe(v, k);
    SpendFoundRefines(v, p, ByHash(k), keepFresh, pl);
    HashMiss(v, k);
    assert Look(v, k) == Get(p.m, k);
    if k !in p.m { assert p.m - {k} == p.m; }
  }

  lemma {:induction false} SpendRefines(v: View, p: Plain, o: OutPoint, keepFresh: bool, pl: Places)
    requires Refines(v, p, pl) && Addressable(v, o, pl)
    ensures pl.Some? ==> SpendAsserts(v, o)
    ensures var (v', hit) := SpendCoin(v, o, keepFresh);
            && Refines(v', p.(m := WithoutSpent(p.m, o, pl, hit)), pl) && ReadsAs(p.m, o, pl, hit)
            && (!Certain(o, pl) ==> hit == Peek(v, o))
  {
    if !Certain(o, pl) {
      SpendFoundRefines(v, p, o, keepFresh, pl);
    } else {
      var k := Resolve(v, p, o, pl);
      if k.Some? {
        assert Without(p.m, o) == p.m - {k.value};
        if o.ByIndex? { SpendByIndex(v, o.index, k.value, keepFresh, pl.value); }
        SpendHashRefines(v, p, k.value, keepFresh, pl);
      } else {
        assert Without(p.m, o) == p.m;
      }
    }
  }

  lemma {:induction false} AddRefines(v: View, p: Plain, h: HashPoint, c: Coin, overwrite: bool, pl: Places)
    requires Refines(v, p, pl) && !c.IsSpent() && h != NULL_POINT && (!overwrite ==> h !in p.m)
    requires pl.Some? ==> At(pl.value, h, c)
    ensures !AddThrows(v, h, c, overwrite)
    ensures Refines(AddCoin(v, h, c, overwrite), p.(m := WithAdded(p.m, h, c)), pl)
  {
    assert Look(v, h) == Get(p.m, h);
    AddKeepsSoundIff(v, h, c, overwrite);
    if pl.Some? { AddKeepsExact(v, h, c, overwrite, pl.value); }
    var v' := AddCoin(v, h, c, overwrite);
    forall x ensures Look(v', x) == Get(WithAdded(p.m, h, c), x) { assert Look(v, x) == Get(p.m, x); }
  }

  lemma {:induction false} DropKeepsExact(v: View, p: Plain, o: OutPoint, pl: Places)
    requires Refines(v, p, pl) && pl.Some? && (o.ByIndex? ==> !o.index.InMempool())
    ensures Exact(Uncache(v, o), pl.value)
  {
    var k := Resolve(v, p, o, pl);
    if k.Some? {
      if o.ByIndex? { UncacheByIndex(v, o.index, k.value, pl.value); }
      UncacheKeepsExact(v, k.value, pl.value);
    } else {
      assert forall i | i in v.refs :: pl.value(v.refs[i].txid) == Slot(i.height, i.txIndex);
    }
  }

  lemma {:induction false} DropRefines(v: View, p: Plain, o: OutPoint, pl: Places)
    requires Refines(v, p, pl) && (o.ByIndex? && pl.Some? ==> !o.index.InMempool())
    ensures Refines(Uncache(v, o), p, pl)
  {
    UncacheKeepsSound(v, o);
    if pl.Some? { DropKeepsExact(v, p, o, pl); }
    var v' := Uncache(v, o);
    forall x ensures Look(v', x) == Get(p.m, x) { assert Look(v, x) == Get(p.m, x); }
  }

  lemma {:induction false} CommitRefines(v: View, p: Plain, batch: Batch, pl: Places)
    requires Refines(v, p, pl) && CommitOk(v, batch, pl)
    ensures Flush(v, batch).Some?
    ensures Refines(Flush(v, batch).value, Layer(p.m, p.below.(m := p.m)), pl)
  {
    FlushKeepsView(v, batch);
    var v' := Flush(v, batch).value;
    forall x ensures Look(v', x) == Get(p.m, x) && Look(v'.base, x) == Get(p.m, x) { assert Look(v, x) == Get(p.m, x); }
    assert Agrees(v.base, p.below);
    assert v.base.Cache? ==> Agrees(v'.base.base, p.below.below);
    if pl.Some? {
      if v.base.Cache? { BatchWriteExactIff(v.base, batch, pl.value); } else { DbBatchWriteExact(v.base, batch, pl.value); }
    }
  }

  // ----- the pair, and whole runs -----

  lemma {:induction false} WitnessCommutes(p: Plain, op: Op, pl: Places, hit: Hit, witHit: Hit, outs: Outputs)
    requires CanStep(p, op) && Determined(p, outs)
    requires op.Add? ==> op.coin.out == outs(op.h)
    requires op.Spend? && !Certain(op.o, pl) ==> SameTarget(p.m, hit, witHit)
    ensures Determined(PlainStep(p, op, pl, hit), outs)
    ensures match op
            case Add(h, c, _) =>
              Witnesses(WithAdded(p.m, h, c)) == if c.out.isWitness then WithAdded(Witnesses(p.m), h, c) else Witnesses(p.m)
            case Spend(o) => Witnesses(WithoutSpent(p.m, o, pl, hit)) == WithoutSpent(Witnesses(p.m), o, pl, witHit)
            case _ => WitnessPart(PlainStep(p, op, pl, hit)) == PlainStep(WitnessPart(p), op, pl, witHit)
  {
    if op.Commit? {
      assert WitnessPart(p.below.(m := p.m)) == WitnessPart(p.below).(m := Witnesses(p.m));
    }
  }

  /** Every legal step keeps the relation; only when positions are arbitrary can an assert on the index stop it. */
  lemma {:induction false} StepRefines(s: Tip, p: Plain, op: Op, pl: Places, outs: Outputs)
    requires Related(s, p, pl, outs) && Legal(s, p, op, pl, outs)
    ensures match Step(s, op)
            case Done(s', hit) =>
              Related(s', PlainStep(p, op, pl, hit), pl, outs) && (op.Read? || op.Spend? ==> ReadsAs(p.m, op.o, pl, hit))
            case Aborted(reason) => pl.None? && reason == IndexAssert && (op.Spend? || (op.Read? && op.o.ByIndex?))
  {
    var q := WitnessPart(p);
    if s.wit.Some? && !op.Spend? { WitnessCommutes(p, op, pl, None, None, outs); }
    match op
    case Read(o) => ReadRefines(s.main, p, o, pl);
    case Add(h, c, overwrite) =>
      AddRefines(s.main, p, h, c, overwrite, pl);
      if s.wit.Some? && c.out.isWitness { AddRefines(s.wit.value, q, h, c, overwrite, pl); }
    case Spend(o) =>
      SpendRefines(s.main, p, o, false, pl);
      if s.wit.Some? {
        SpendRefines(s.wit.value, q, o, true, pl);
        WitnessCommutes(p, op, pl, SpendCoin(s.main, o, false).1, SpendCoin(s.wit.value, o, true).1, outs);
      }
    case Drop(o) =>
      DropRefines(s.main, p, o, pl);
      if s.wit.Some? { DropRefines(s.wit.value, q, o, pl); }
    case Commit(batch, witBatch) =>
      CommitRefines(s.main, p, batch, pl);
      if s.wit.Some? { CommitRefines(s.wit.value, q, witBatch, pl); }
    case Push =>
      PushRefines(s.main, p, pl);
      if s.wit.Some? { PushRefines(s.wit.value, q, pl); }
    case Pop =>
      assert Agrees(s.main.base, p.below);
      if s.wit.Some? { assert Agrees(s.wit.value.base, q.below); }
  }

  lemma {:induction false} PushRefines(v: View, p: Plain, pl: Places)
    requires Refines(v, p, pl)
    ensures Refines(Cache(map[], map[], v), Layer(p.m, p), pl)
  {
    var v' := Cache(map[], map[], v);
    forall x ensures Look(v', x) == Get(p.m, x) { assert Look(v, x) == Get(p.m, x); }
  }

  /** A run that stays within what the callers promise, as far as it gets. */
  ghost predicate LegalRun(s: Tip, p: Plain, ops: seq<Op>, pl: Places, outs: Outputs)
    decreases |ops|
  {
    ops != [] && s.main.Cache? && (s.wit.Some? ==> s.wit.value.Cache?) ==>
      && Legal(s, p, ops[0], pl, outs)
      && (Step(s, ops[0]).Done? ==>
            LegalRun(Step(s, ops[0]).tip, PlainStep(p, ops[0], pl, Step(s, ops[0]).hit), ops[1..], pl, outs))
  }

  /** The outcome of a run, with the coins it reported. */
  datatype RunResult = Finished(tip: Tip, hits: seq<Hit>) | Stopped(at: nat, reason: Reason)

  ghost function Run(s: Tip, ops: seq<Op>, n: nat): RunResult
    decreases |ops|
  {
    if ops == [] || !s.main.Cache? || (s.wit.Some? && !s.wit.value.Cache?) then Finished(s, []) else
    match Step(s, ops[0])
    case Aborted(reason) => Stopped(n, reason)
    case Done(s', hit) =>
      match Run(s', ops[1..], n + 1)
      case Stopped(at, reason) => Stopped(at, reason)
      case Finished(s'', hits) => Finished(s'', [hit] + hits)
  }

  ghost function PlainRun(p: Plain, ops: seq<Op>, pl: Places, hits: seq<Hit>): Plain
    requires |hits| == |ops|
    decreases |ops|
  {
    if ops == [] || !CanStep(p, ops[0]) then p else PlainRun(PlainStep(p, ops[0], pl, hits[0]), ops[1..], pl, hits[1..])
  }

  ghost predicate HitsAreRight(p: Plain, ops: seq<Op>, pl: Places, hits: seq<Hit>)
    decreases |ops|
  {
    && |hits| == |ops|
    && (ops != [] ==>
          && CanStep(p, ops[0])
          && (ops[0].Read? || ops[0].Spend? ==> ReadsAs(p.m, ops[0].o, pl, hits[0]))
          && HitsAreRight(PlainStep(p, ops[0], pl, hits[0]), ops[1..], pl, hits[1..]))
  }

  /**
   * Over every legal run, at every depth, the cache stack shows exactly the plain maps, each
   * read reports the plain map's coin, the sibling stack shows exactly the witness outputs,
   * and neither exception is reachable. If transactions keep their places, no assert fires
   * and the position index of every layer stays exact.
   */
  lemma {:induction false} RunRefines(s: Tip, p: Plain, ops: seq<Op>, pl: Places, outs: Outputs, n: nat)
    requires Related(s, p, pl, outs) && LegalRun(s, p, ops, pl, outs)
    ensures match Run(s, ops, n)
            case Finished(s', hits) => HitsAreRight(p, ops, pl, hits) && Related(s', PlainRun(p, ops, pl, hits), pl, outs)
            case Stopped(_, reason) => pl.None? && reason == IndexAssert
    decreases |ops|
  {
    if ops != [] {
      StepRefines(s, p, ops[0], pl, outs);
      if Step(s, ops[0]).Done? {
        var Done(s', hit) := Step(s, ops[0]);
        RunRefines(s', PlainStep(p, ops[0], pl, hit), ops[1..], pl, outs, n + 1);
      }
    }
  }

  /** An empty cache over a database, and over the database of its witness coins, starts every run. */
  lemma {:induction false} StartRelated(store: CoinSet, refs: RefMap, witRefs: RefMap, sibling: bool, pl: Places, outs: Outputs)
    requires NULL_POINT !in store && (forall o | o in store :: !store[o].IsSpent() && store[o].out == outs(o))
    requires pl.Some? ==> OnePlaceEach(pl.value) && DbExact(store, refs, pl.value) && DbExact(Witnesses(store), witRefs, pl.value)
    ensures Related(Tip(Cache(map[], map[], Db(store, refs)),
                        if sibling then Some(Cache(map[], map[], Db(Witnesses(store), witRefs))) else None),
                    Layer(store, Bottom(store)), pl, outs)
  {
    assert Sound(Db(store, refs)) && Sound(Db(Witnesses(store), witRefs));
    assert Agrees(Db(store, refs), Bottom(store));
    assert Agrees(Db(Witnesses(store), witRefs), Bottom(Witnesses(store)));
    assert WitnessPart(Layer(store, Bottom(store))) == Layer(Witnesses(store), Bottom(Witnesses(store)));
    assert Determined(Bottom(store), outs);
  }
}
