/** What every run of the cuckoo cache keeps: the load bound, the placement of elements, and what an insertion can lose. */
module CuckooRuns {
  import opened Arithmetic
  import opened Wrappers
  import opened CuckooModel

  // ----- counting -----

  lemma {:induction false} CountUpdate(q: seq<Slot>, f: Slot -> bool, i: nat, s: Slot)
    requires i < |q|
    ensures Count(q[i := s], f) == Count(q, f) - (if f(q[i]) then 1 else 0) + if f(s) then 1 else 0
    decreases |q|
  {
    var q', last := q[i := s], |q| - 1;
    if i == last {
      assert q'[..last] == q[..last];
    } else {
      assert q'[..last] == q[..last][i := s];
      CountUpdate(q[..last], f, i, s);
    }
  }

  lemma {:induction false} CountSame(p: seq<Slot>, f: Slot -> bool, q: seq<Slot>, g: Slot -> bool)
    requires |p| == |q| && forall i | 0 <= i < |p| :: f(p[i]) == g(q[i])
    ensures Count(p, f) == Count(q, g)
    decreases |p|
  {
    if p != [] { CountSame(p[..|p| - 1], f, q[..|q| - 1], g); }
  }

  lemma {:induction false} CountNone(p: seq<Slot>, f: Slot -> bool)
    requires forall i | 0 <= i < |p| :: !f(p[i])
    ensures Count(p, f) == 0
    decreases |p|
  {
    if p != [] { CountNone(p[..|p| - 1], f); }
  }

  // ----- the load -----

  function Limit(c: Cache): nat {
    c.epochSize + Max(1, c.epochSize / 16)
  }

  /** The current epoch with what may still be added to it, and the old epoch, each stay within the limit. */
  ghost predicate Bounded(c: Cache) {
    && c.epochSize >= 1
    && Count(c.slots, LiveRecent) + c.counter <= Limit(c)
    && Count(c.slots, LiveOld) <= Limit(c)
  }

  function Live(s: Slot): bool {
    !s.collected
  }

  lemma {:induction false} LiveSplits(q: seq<Slot>)
    ensures Count(q, Live) == Count(q, LiveRecent) + Count(q, LiveOld)
    decreases |q|
  {
    if q != [] { LiveSplits(q[..|q| - 1]); }
  }

  /** After the check there is room for one more. */
  lemma {:induction false} EpochCheckMakesRoom(c: Cache)
    requires Bounded(c)
    ensures var c1 := EpochCheck(c);
            && c1.epochSize == c.epochSize
            && Count(c1.slots, LiveRecent) + c1.counter + 1 <= Limit(c)
            && Count(c1.slots, LiveOld) <= Limit(c)
  {
    hide Count;
    var c1 := EpochCheck(c);
    if c.counter == 0 && Count(c.slots, LiveRecent) >= c.epochSize {
      CountNone(c1.slots, LiveRecent);
      CountSame(c1.slots, LiveOld, c.slots, LiveRecent);
    }
  }

  lemma {:induction false} ChainLoad(c: Cache, e: Element, lastLoc: int, lastEpoch: bool, depth: nat)
    requires |c.slots| > 0
    ensures var r := Chain(c, e, lastLoc, lastEpoch, depth).0;
            && r.epochSize == c.epochSize && r.counter == c.counter && |r.slots| == |c.slots|
            && Count(r.slots, LiveRecent) <= Count(c.slots, LiveRecent) + (if lastEpoch then 1 else 0)
            && Count(r.slots, LiveOld) <= Count(c.slots, LiveOld) + if lastEpoch then 0 else 1
    decreases depth
  {
    hide Count;
    if depth > 0 {
      var locs := Locs(c.hash, |c.slots|, e);
      match FindFree(c.slots, locs, 0) {
        case Some(k) =>
          CountUpdate(c.slots, LiveRecent, locs[k], Slot(e, false, lastEpoch));
          CountUpdate(c.slots, LiveOld, locs[k], Slot(e, false, lastEpoch));
        case None =>
          var loc := NextLoc(locs, lastLoc);
          var out := c.slots[loc];
          var s := Slot(e, out.collected, lastEpoch);
          CountUpdate(c.slots, LiveRecent, loc, s);
          CountUpdate(c.slots, LiveOld, loc, s);
          ChainLoad(c.(slots := c.slots[loc := s]), out.element, loc, out.recent, depth - 1);
      }
    }
  }

  lemma {:induction false} InsertLoad(c: Cache, e: Element)
    requires |c.slots| > 0 && Bounded(c)
    ensures Bounded(Insert(c, e).0) && Insert(c, e).0.epochSize == c.epochSize
  {
    hide Count, EpochCheck, Chain;
    EpochCheckMakesRoom(c);
    var c1 := EpochCheck(c);
    var locs := Locs(c1.hash, |c1.slots|, e);
    match FindElement(c1.slots, locs, e, 0) {
      case Some(k) =>
        CountUpdate(c1.slots, LiveRecent, locs[k], Slot(e, false, true));
        CountUpdate(c1.slots, LiveOld, locs[k], Slot(e, false, true));
      case None => ChainLoad(c1, e, -1, true, c.depthLimit);
    }
  }

  lemma {:induction false} EraseLoad(c: Cache, e: Element)
    requires |c.slots| > 0 && Bounded(c)
    ensures Bounded(Erase(c, e)) && Erase(c, e).epochSize == c.epochSize
  {
    hide Count;
    var locs := Locs(c.hash, |c.slots|, e);
    match FindElement(c.slots, locs, e, 0) {
      case Some(k) =>
        CountUpdate(c.slots, LiveRecent, locs[k], c.slots[locs[k]].(collected := true));
        CountUpdate(c.slots, LiveOld, locs[k], c.slots[locs[k]].(collected := true));
      case None =>
    }
  }

  lemma {:induction false} SetupLoad(hash: (nat, Element) -> nat, newSize: nat, depthLimit: nat)
    ensures Bounded(Setup(hash, newSize, depthLimit))
  {
    var c := Setup(hash, newSize, depthLimit);
    CountNone(c.slots, LiveRecent);
    CountNone(c.slots, LiveOld);
  }

  // ----- placement -----

  ghost predicate Placed(c: Cache) {
    forall i | 0 <= i < |c.slots| && c.slots[i].element != DEFAULT :: i in Locs(c.hash, |c.slots|, c.slots[i].element)
  }

  ghost predicate Once(q: seq<Slot>) {
    forall i, j | 0 <= i < j < |q| && q[i].element == q[j].element :: q[i].element == DEFAULT
  }

  ghost predicate Filled(q: seq<Slot>) {
    forall i | 0 <= i < |q| && !q[i].collected :: q[i].element != DEFAULT
  }

  /** Every element is at one of its own places and nowhere else, and only garbage slots hold the default. */
  ghost predicate Good(c: Cache) {
    |c.slots| > 0 && Placed(c) && Once(c.slots) && Filled(c.slots)
  }

  ghost function Stored(q: seq<Slot>): set<Element> {
    set i | 0 <= i < |q| && q[i].element != DEFAULT :: q[i].element
  }

  ghost function LiveSet(q: seq<Slot>): set<Element> {
    set i | 0 <= i < |q| && !q[i].collected :: q[i].element
  }

  /** Looking at the eight places finds an element exactly when it is anywhere in the table. */
  lemma {:induction false} ContainsIsScan(c: Cache, e: Element)
    requires Good(c) && e != DEFAULT
    ensures Contains(c, e) <==> e in Stored(c.slots)
  {
    var locs := Locs(c.hash, |c.slots|, e);
    if e in Stored(c.slots) {
      var i :| 0 <= i < |c.slots| && c.slots[i].element == e;
      assert i in locs;
      var k :| 0 <= k < |locs| && locs[k] == i;
    }
  }

  /** An element replaces the content of a slot. */
  lemma {:induction false} ReplaceGood(c: Cache, loc: nat, s: Slot)
    requires Good(c) && loc < |c.slots| && s.element != DEFAULT && s.element !in Stored(c.slots)
    requires loc in Locs(c.hash, |c.slots|, s.element)
    ensures Good(c.(slots := c.slots[loc := s]))
  {
    var c' := c.(slots := c.slots[loc := s]);
    forall i | 0 <= i < |c.slots| && c.slots[i].element != DEFAULT ensures c.slots[i].element != s.element {
      assert c.slots[i].element in Stored(c.slots);
    }
    assert Once(c'.slots);
  }

  lemma {:induction false} ReplaceStored(q: seq<Slot>, loc: nat, s: Slot)
    requires Once(q) && loc < |q| && s.element != DEFAULT && s.element !in Stored(q)
    ensures Stored(q[loc := s]) == Stored(q) + {s.element} - {q[loc].element}
  {
    var q' := q[loc := s];
    forall x ensures x in Stored(q') <==> x in Stored(q) + {s.element} - {q[loc].element} {
      if x in Stored(q') {
        var i :| 0 <= i < |q'| && q'[i].element == x && x != DEFAULT;
        if i != loc { assert q[i].element == x; }
        assert q[loc].element != DEFAULT ==> q[loc].element in Stored(q);
      }
      if x in Stored(q) + {s.element} - {q[loc].element} {
        if x == s.element {
          assert q'[loc].element == x;
        } else {
          var i :| 0 <= i < |q| && q[i].element == x && x != DEFAULT;
          assert q'[i].element == x;
        }
      }
    }
  }

  lemma {:induction false} ReplaceLive(q: seq<Slot>, loc: nat, s: Slot)
    requires Once(q) && Filled(q) && loc < |q| && s.element != DEFAULT && s.element !in Stored(q) && !s.collected
    ensures LiveSet(q[loc := s]) == LiveSet(q) + {s.element} - {q[loc].element}
  {
    var q' := q[loc := s];
    assert q[loc].element != DEFAULT ==> q[loc].element in Stored(q);
    forall x ensures x in LiveSet(q') <==> x in LiveSet(q) + {s.element} - {q[loc].element} {
      if x in LiveSet(q') {
        var i :| 0 <= i < |q'| && q'[i].element == x && !q'[i].collected;
        if i != loc { assert q[i].element == x; }
      }
      if x in LiveSet(q) + {s.element} - {q[loc].element} {
        if x == s.element {
          assert q'[loc].element == x;
        } else {
          var i :| 0 <= i < |q| && q[i].element == x && !q[i].collected;
          assert q'[i].element == x;
        }
      }
    }
  }

  /** What inserting e did to the table: the elements of lost are gone, and nothing else. */
  ghost predicate Inserted(c: Cache, e: Element, r: Cache, dropped: Option<Element>, lost: set<Element>) {
    && Good(r) && r.hash == c.hash && |r.slots| == |c.slots|
    && Stored(r.slots) == Stored(c.slots) + {e} - lost
    && LiveSet(r.slots) == LiveSet(c.slots) + {e} - lost
    && (dropped.None? ==> |lost| <= 1 && e !in lost && lost !! LiveSet(c.slots))
    && (dropped.Some? ==> lost == {dropped.value})
  }

  /** After e took the place of a live element, inserting that element completes the insertion of e. */
  lemma {:induction false} SwappedInserted(c: Cache, e: Element, c': Cache, out: Element, r: Cache, dropped: Option<Element>, lost: set<Element>)
    requires Inserted(c', out, r, dropped, lost) && c'.hash == c.hash && |c'.slots| == |c.slots|
    requires Stored(c'.slots) == Stored(c.slots) + {e} - {out} && LiveSet(c'.slots) == LiveSet(c.slots) + {e} - {out}
    requires out in Stored(c.slots) && out in LiveSet(c.slots) && out != e
    ensures Inserted(c, e, r, dropped, lost)
  {
    hide Good, Stored, LiveSet;
    assert Stored(c'.slots) + {out} == Stored(c.slots) + {e};
    assert LiveSet(c'.slots) + {out} == LiveSet(c.slots) + {e};
    assert e in LiveSet(c'.slots);
  }

  lemma {:induction false} ChainEffect(c: Cache, e: Element, lastLoc: int, lastEpoch: bool, depth: nat) returns (lost: set<Element>)
    requires Good(c) && e != DEFAULT && e !in Stored(c.slots)
    ensures var (r, dropped) := Chain(c, e, lastLoc, lastEpoch, depth); Inserted(c, e, r, dropped, lost)
    decreases depth
  {
    hide Placed, Once, Filled, Stored, LiveSet, NextLoc;
    LiveAreStored(c.slots);
    if depth == 0 {
      lost := {e};
      assert Stored(c.slots) + {e} - {e} == Stored(c.slots);
      assert LiveSet(c.slots) + {e} - {e} == LiveSet(c.slots);
    } else {
      var locs := Locs(c.hash, |c.slots|, e);
      match FindFree(c.slots, locs, 0) {
        case Some(k) =>
          var s := Slot(e, false, lastEpoch);
          ReplaceGood(c, locs[k], s);
          ReplaceStored(c.slots, locs[k], s);
          ReplaceLive(c.slots, locs[k], s);
          CollectedIsDead(c.slots, locs[k]);
          lost := {c.slots[locs[k]].element};
        case None =>
          var loc := NextLoc(locs, lastLoc);
          var k :| 0 <= k < 8 && locs[k] == loc;
          var out := c.slots[loc];
          assert !out.collected;
          var s := Slot(e, false, lastEpoch);
          var c' := c.(slots := c.slots[loc := s]);
          ReplaceGood(c, loc, s);
          ReplaceStored(c.slots, loc, s);
          ReplaceLive(c.slots, loc, s);
          LiveIsStored(c.slots, loc);
          lost := ChainEffect(c', out.element, loc, out.recent, depth - 1);
          var (r, dropped) := Chain(c', out.element, loc, out.recent, depth - 1);
          SwappedInserted(c, e, c', out.element, r, dropped, lost);
      }
    }
  }

  lemma {:induction false} LiveAreStored(q: seq<Slot>)
    requires Filled(q)
    ensures LiveSet(q) <= Stored(q)
  {
  }

  lemma {:induction false} LiveIsStored(q: seq<Slot>, i: nat)
    requires Filled(q) && i < |q| && !q[i].collected
    ensures q[i].element != DEFAULT && q[i].element in Stored(q) && q[i].element in LiveSet(q)
  {
  }

  lemma {:induction false} CollectedIsDead(q: seq<Slot>, i: nat)
    requires Once(q) && Filled(q) && i < |q| && q[i].collected
    ensures q[i].element !in LiveSet(q) && (q[i].element != DEFAULT ==> q[i].element in Stored(q))
  {
  }

  /** The check forgets nothing; it only lets old elements be collected. */
  lemma {:induction false} EpochCheckKeeps(c: Cache)
    requires Good(c)
    ensures var c1 := EpochCheck(c); Good(c1) && Stored(c1.slots) == Stored(c.slots) && LiveSet(c1.slots) <= LiveSet(c.slots)
  {
    var c1 := EpochCheck(c);
    assert forall i | 0 <= i < |c.slots| :: c1.slots[i].element == c.slots[i].element;
    forall x ensures x in Stored(c1.slots) <==> x in Stored(c.slots) {
      if x in Stored(c.slots) { var i :| 0 <= i < |c.slots| && c.slots[i].element == x && x != DEFAULT; assert c1.slots[i].element == x; }
    }
    forall i | 0 <= i < |c1.slots| && !c1.slots[i].collected ensures !c.slots[i].collected {}
  }

  /** The counter has run out and the current epoch is full. */
  predicate EpochIsOver(c: Cache) {
    c.counter == 0 && Count(c.slots, LiveRecent) >= c.epochSize
  }

  /**
   * What the check does to every slot: at the end of an epoch a live recent slot becomes a live old one and a live old
   * slot garbage; at any other time no slot changes. The counter then lasts a whole epoch, or what is left of it but
   * no less than a sixteenth and one, or one insertion less than before.
   */
  lemma {:induction false} EpochCheckExact(c: Cache)
    ensures var c1 := EpochCheck(c);
            && c1.hash == c.hash && c1.epochSize == c.epochSize && c1.depthLimit == c.depthLimit && |c1.slots| == |c.slots|
            && (!EpochIsOver(c) ==> c1.slots == c.slots)
            && (forall i | 0 <= i < |c.slots| ::
                  && c1.slots[i].element == c.slots[i].element
                  && (LiveRecent(c.slots[i]) ==> !c1.slots[i].collected && (c1.slots[i].recent <==> !EpochIsOver(c)))
                  && (LiveOld(c.slots[i]) ==> !c1.slots[i].recent && (c1.slots[i].collected <==> EpochIsOver(c)))
                  && (c.slots[i].collected ==> c1.slots[i].collected))
            && (EpochIsOver(c) ==> c1.counter == c.epochSize)
            && (c.counter > 0 ==> c1.counter + 1 == c.counter)
            && (c.counter == 0 && !EpochIsOver(c) ==>
                  && c1.counter >= 1 && c1.counter >= c.epochSize / 16 && c1.counter + Count(c.slots, LiveRecent) >= c.epochSize
                  && (c1.counter == 1 || c1.counter == c.epochSize / 16 || c1.counter + Count(c.slots, LiveRecent) == c.epochSize))
  {
    hide Count;
  }

  // ----- how long an element stays -----

  /** The elements in live slots of the current epoch. */
  ghost function RecentSet(q: seq<Slot>): set<Element> {
    set i | 0 <= i < |q| && LiveRecent(q[i]) :: q[i].element
  }

  lemma {:induction false} RecentIsLive(q: seq<Slot>)
    ensures RecentSet(q) <= LiveSet(q)
  {
  }

  lemma {:induction false} ReplaceRecent(q: seq<Slot>, loc: nat, s: Slot)
    requires Once(q) && Filled(q) && loc < |q| && s.element != DEFAULT && s.element !in Stored(q) && !s.collected
    ensures RecentSet(q[loc := s]) == RecentSet(q) + (if s.recent then {s.element} else {}) - {q[loc].element}
  {
    var q' := q[loc := s];
    var want := RecentSet(q) + (if s.recent then {s.element} else {}) - {q[loc].element};
    assert q[loc].element != DEFAULT ==> q[loc].element in Stored(q);
    forall x ensures x in RecentSet(q') <==> x in want {
      if x in RecentSet(q') {
        var i :| 0 <= i < |q'| && q'[i].element == x && LiveRecent(q'[i]);
        if i != loc { assert q[i].element == x; }
      }
      if x in want {
        if x == s.element && s.recent {
          assert q'[loc].element == x;
        } else {
          var i :| 0 <= i < |q| && q[i].element == x && LiveRecent(q[i]);
          assert q'[i].element == x;
        }
      }
    }
  }

  /** Along the eviction chain every element keeps its epoch. */
  lemma {:induction false} ChainRecent(c: Cache, e: Element, lastLoc: int, lastEpoch: bool, depth: nat)
    requires Good(c) && e != DEFAULT && e !in Stored(c.slots)
    ensures var (r, dropped) := Chain(c, e, lastLoc, lastEpoch, depth);
            dropped.None? ==> RecentSet(r.slots) == RecentSet(c.slots) + if lastEpoch then {e} else {}
    decreases depth
  {
    hide Placed, Once, Filled, Stored, LiveSet, NextLoc, RecentSet;
    if depth > 0 {
      var locs := Locs(c.hash, |c.slots|, e);
      match FindFree(c.slots, locs, 0) {
        case Some(k) =>
          ReplaceRecent(c.slots, locs[k], Slot(e, false, lastEpoch));
          DeadIsNotRecent(c.slots, locs[k]);
          FreeTakes(c.slots, locs[k], e);
        case None =>
          var loc := NextLoc(locs, lastLoc);
          var k :| 0 <= k < 8 && locs[k] == loc;
          var out := c.slots[loc];
          assert !out.collected;
          var s := Slot(e, false, lastEpoch);
          ReplaceGood(c, loc, s);
          ReplaceStored(c.slots, loc, s);
          ReplaceRecent(c.slots, loc, s);
          LiveIsStored(c.slots, loc);
          InItsEpoch(c.slots, loc);
          ChainRecent(c.(slots := c.slots[loc := s]), out.element, loc, out.recent, depth - 1);
      }
    }
  }

  lemma {:induction false} FreeTakes(q: seq<Slot>, loc: nat, e: Element)
    requires Once(q) && Filled(q) && loc < |q| && q[loc].collected && e != DEFAULT && e !in Stored(q)
    ensures q[loc].element != e
  {
  }

  lemma {:induction false} DeadIsNotRecent(q: seq<Slot>, i: nat)
    requires Once(q) && Filled(q) && i < |q| && q[i].collected
    ensures q[i].element !in RecentSet(q)
  {
  }

  lemma {:induction false} InItsEpoch(q: seq<Slot>, i: nat)
    requires Once(q) && Filled(q) && i < |q| && !q[i].collected
    ensures q[i].element in RecentSet(q) <==> q[i].recent
  {
    assert q[i].element != DEFAULT;
  }

  /** An element found again is made live and recent. */
  lemma {:induction false} KeepEffect(c: Cache, loc: nat, e: Element)
    requires Good(c) && e != DEFAULT && loc < |c.slots| && c.slots[loc].element == e
    ensures Inserted(c, e, c.(slots := c.slots[loc := Slot(e, false, true)]), None, {})
  {
    var q, q' := c.slots, c.slots[loc := Slot(e, false, true)];
    assert forall i | 0 <= i < |q| :: q'[i].element == q[i].element;
    forall x ensures x in Stored(q') <==> x in Stored(q) + {e} {
      if x in Stored(q) { var i :| 0 <= i < |q| && q[i].element == x && x != DEFAULT; assert q'[i].element == x; }
      assert q'[loc].element == e;
    }
    forall x ensures x in LiveSet(q') <==> x in LiveSet(q) + {e} {
      if x in LiveSet(q') { var i :| 0 <= i < |q| && q'[i].element == x && !q'[i].collected; }
      if x in LiveSet(q) { var i :| 0 <= i < |q| && q[i].element == x && !q[i].collected; assert q'[i].element == x; }
      assert q'[loc].element == e;
    }
  }

  /**
   * An insertion loses at most one element, and a live one only when the depth ran out. (Before it the
   * epoch check may have declared the old epoch collectable.)
   */
  lemma {:induction false} InsertEffect(c: Cache, e: Element) returns (lost: set<Element>)
    requires Good(c) && e != DEFAULT
    ensures var (r, dropped) := Insert(c, e); Good(EpochCheck(c)) && Inserted(EpochCheck(c), e, r, dropped, lost)
    ensures Stored(EpochCheck(c).slots) == Stored(c.slots)
  {
    hide EpochCheck, Chain, Placed, Once, Filled, Stored, LiveSet;
    EpochCheckKeeps(c);
    var c1 := EpochCheck(c);
    var locs := Locs(c1.hash, |c1.slots|, e);
    match FindElement(c1.slots, locs, e, 0) {
      case Some(k) =>
        KeepEffect(c1, locs[k], e);
        lost := {};
      case None =>
        ContainsIsScan(c1, e);
        lost := ChainEffect(c1, e, -1, true, c.depthLimit);
    }
  }

  /** Erasing makes the element garbage and changes no other one; it can still be found. */
  lemma {:induction false} EraseEffect(c: Cache, e: Element)
    requires Good(c) && e != DEFAULT
    ensures var c' := Erase(c, e);
            && LiveSet(c'.slots) == LiveSet(c.slots) - {e} && RecentSet(c'.slots) == RecentSet(c.slots) - {e}
            && Stored(c'.slots) == Stored(c.slots)
  {
    EraseGood(c, e);
    var q, q' := c.slots, Erase(c, e).slots;
    ContainsIsScan(c, e);
    forall i | 0 <= i < |q| ensures q'[i] == if q[i].element == e then q[i].(collected := true) else q[i] {
      if q[i].element == e { assert e in Stored(q); }
    }
    forall x ensures x in LiveSet(q') <==> x in LiveSet(q) - {e} {
      if x in LiveSet(q) - {e} { var i :| 0 <= i < |q| && q[i].element == x && !q[i].collected; assert q'[i] == q[i]; }
    }
    forall x ensures x in RecentSet(q') <==> x in RecentSet(q) - {e} {
      if x in RecentSet(q) - {e} { var i :| 0 <= i < |q| && q[i].element == x && LiveRecent(q[i]); assert q'[i] == q[i]; }
    }
  }

  lemma {:induction false} EraseGood(c: Cache, e: Element)
    requires Good(c)
    ensures Good(Erase(c, e)) && Stored(Erase(c, e).slots) == Stored(c.slots)
  {
    var c' := Erase(c, e);
    assert forall i | 0 <= i < |c.slots| :: c'.slots[i].element == c.slots[i].element;
    forall x ensures x in Stored(c'.slots) <==> x in Stored(c.slots) {
      if x in Stored(c.slots) { var i :| 0 <= i < |c.slots| && c.slots[i].element == x && x != DEFAULT; assert c'.slots[i].element == x; }
    }
  }

  // ----- places and displacements -----

  /** A location is the element's share of the table: its hash divides the range of 32 bits evenly. */
  lemma {:induction false} LocIff(hash: (nat, Element) -> nat, size: nat, k: nat, e: Element, loc: nat)
    requires size > 0
    ensures Loc(hash, size, k, e) == loc <==> loc * TWO32 <= (hash(k, e) % TWO32) * size < (loc + 1) * TWO32
  {
    var h := hash(k, e) % TWO32;
    var y := h * size;
    MulLe(0, h, size);
    DivMod(y, TWO32);
    var v := y / TWO32;
    if loc < v { MulLe(loc + 1, v, TWO32); } else if loc > v { MulLe(v + 1, loc, TWO32); }
  }

  lemma {:induction false} PositionIs(locs: seq<nat>, x: int, k: nat)
    requires k <= |locs|
    ensures var p := Position(locs, x, k); (p < |locs| ==> locs[p] == x) && forall j | k <= j < p :: locs[j] != x
    decreases |locs| - k
  {
    if k < |locs| && locs[k] != x { PositionIs(locs, x, k + 1); }
  }

  /**
   * An element that was displaced from a place goes to the next of its own places in the round, so never straight back
   * to where it came from if its places differ; one that was not displaced goes to its second place.
   */
  lemma {:induction false} NextLocIs(locs: seq<nat>, lastLoc: int)
    requires |locs| == 8
    ensures (forall j | 0 <= j < 8 :: locs[j] != lastLoc) ==> NextLoc(locs, lastLoc) == locs[1]
    ensures forall k | 0 <= k < 8 && locs[k] == lastLoc && (forall j | 0 <= j < k :: locs[j] != lastLoc) ::
              NextLoc(locs, lastLoc) == locs[if k == 7 then 0 else k + 1]
    ensures lastLoc in locs && (forall i, j | 0 <= i < j < 8 :: locs[i] != locs[j]) ==> NextLoc(locs, lastLoc) != lastLoc
  {
    PositionIs(locs, lastLoc, 0);
    var p := Position(locs, lastLoc, 0);
    assert (1 + p) % 8 == if p == 8 then 1 else if p == 7 then 0 else p + 1;
  }

  /** The table, the element in hand with its epoch and the place it came from, after k displacements. */
  datatype Hand = Hand(c: Cache, e: Element, lastLoc: int, lastEpoch: bool)

  function Displaced(h: Hand, k: nat): (r: Hand)
    requires |h.c.slots| > 0
    ensures |r.c.slots| == |h.c.slots|
  {
    if k == 0 then h else
    var g := Displaced(h, k - 1);
    var loc := NextLoc(Locs(g.c.hash, |g.c.slots|, g.e), g.lastLoc);
    var out := g.c.slots[loc];
    Hand(g.c.(slots := g.c.slots[loc := Slot(g.e, out.collected, g.lastEpoch)]), out.element, loc, out.recent)
  }

  predicate HasRoom(h: Hand)
    requires |h.c.slots| > 0
  {
    FindFree(h.c.slots, Locs(h.c.hash, |h.c.slots|, h.e), 0).Some?
  }

  lemma {:induction false} DisplacedFirst(h: Hand, k: nat)
    requires |h.c.slots| > 0
    ensures Displaced(Displaced(h, 1), k) == Displaced(h, k + 1)
    decreases k
  {
    hide NextLoc, Locs;
    if k > 0 { DisplacedFirst(h, k - 1); }
  }

  /** None of the elements in hand at the first n displacements has room. */
  ghost predicate NoRoom(h: Hand, n: nat)
    requires |h.c.slots| > 0
  {
    forall k: nat | k < n :: !HasRoom(Displaced(h, k))
  }

  lemma {:induction false} NoRoomStep(h: Hand, n: nat)
    requires |h.c.slots| > 0
    ensures NoRoom(h, n + 1) <==> !HasRoom(h) && NoRoom(Displaced(h, 1), n)
  {
    hide HasRoom;
    var g := Displaced(h, 1);
    assert Displaced(h, 0) == h;
    forall k: nat ensures Displaced(g, k) == Displaced(h, k + 1) { DisplacedFirst(h, k); }
    hide Displaced;
    if !HasRoom(h) && NoRoom(g, n) {
      forall k: nat | k < n + 1 ensures !HasRoom(Displaced(h, k)) { if k > 0 { assert Displaced(g, k - 1) == Displaced(h, k); } }
    }
    if NoRoom(h, n + 1) {
      forall k: nat | k < n ensures !HasRoom(Displaced(g, k)) { assert Displaced(g, k) == Displaced(h, k + 1); }
    }
  }

  lemma {:induction false} ChainStep(h: Hand, depth: nat)
    requires |h.c.slots| > 0 && depth > 0
    ensures HasRoom(h) ==> Chain(h.c, h.e, h.lastLoc, h.lastEpoch, depth).1.None?
    ensures !HasRoom(h) ==>
              var g := Displaced(h, 1);
              Chain(h.c, h.e, h.lastLoc, h.lastEpoch, depth) == Chain(g.c, g.e, g.lastLoc, g.lastEpoch, depth - 1)
  {
    hide NextLoc, Locs, FindFree;
    assert Displaced(h, 0) == h;
  }

  /** An insertion drops an element if and only if none of the elements in hand at as many displacements as the depth allows has room. */
  lemma {:induction false} DropsIff(h: Hand, depth: nat)
    requires |h.c.slots| > 0
    ensures var (r, dropped) := Chain(h.c, h.e, h.lastLoc, h.lastEpoch, depth);
            && (dropped.Some? <==> NoRoom(h, depth))
            && (dropped.Some? ==> dropped.value == Displaced(h, depth).e && r == Displaced(h, depth).c)
    decreases depth
  {
    if depth > 0 {
      hide Chain, NoRoom, HasRoom, Displaced;
      ChainStep(h, depth);
      NoRoomStep(h, depth - 1);
      DropsIff(Displaced(h, 1), depth - 1);
      DisplacedFirst(h, depth - 1);
    }
  }

  // ----- every run -----

  datatype Op = Put(e: Element) | Lookup(e: Element, erase: bool)

  function Step(c: Cache, op: Op): Cache
    requires |c.slots| > 0
  {
    match op
    case Put(e) => Insert(c, e).0
    case Lookup(e, erase) => if erase then Erase(c, e) else c
  }

  lemma {:induction false} StepSize(c: Cache, op: Op)
    requires |c.slots| > 0
    ensures |Step(c, op).slots| == |c.slots|
  {
    if op.Put? && FindElement(EpochCheck(c).slots, Locs(c.hash, |c.slots|, op.e), op.e, 0).None? {
      ChainLoad(EpochCheck(c), op.e, -1, true, c.depthLimit);
    }
  }

  function Run(c: Cache, ops: seq<Op>): (r: Cache)
    requires |c.slots| > 0
    ensures |r.slots| == |c.slots|
    decreases |ops|
  {
    if ops == [] then c else
    var c1 := Run(c, ops[..|ops| - 1]);
    StepSize(c1, ops[|ops| - 1]);
    Step(c1, ops[|ops| - 1])
  }

  /** Whatever is inserted, looked up and erased, in any order, the cache stays within twice the limit. */
  lemma {:induction false} LoadIsBounded(hash: (nat, Element) -> nat, newSize: nat, depthLimit: nat, ops: seq<Op>)
    ensures var c := Run(Setup(hash, newSize, depthLimit), ops);
            && Bounded(c) && c.epochSize == EpochSize(Max(2, newSize))
            && Count(c.slots, LiveRecent) + c.counter <= Limit(c)
            && Count(c.slots, Live) <= 2 * Limit(c)
    decreases |ops|
  {
    hide Count, Insert, Erase;
    var c0 := Setup(hash, newSize, depthLimit);
    if ops == [] {
      SetupLoad(hash, newSize, depthLimit);
    } else {
      var c1, op := Run(c0, ops[..|ops| - 1]), ops[|ops| - 1];
      LoadIsBounded(hash, newSize, depthLimit, ops[..|ops| - 1]);
      if op.Put? { InsertLoad(c1, op.e); } else { EraseLoad(c1, op.e); }
    }
    LiveSplits(Run(c0, ops).slots);
  }

  /** In a table of 36 slots or more, small enough for the size of an epoch not to wrap around, a slot is free at all times. */
  lemma {:induction false} NeverFull(hash: (nat, Element) -> nat, newSize: nat, depthLimit: nat, ops: seq<Op>)
    requires 36 <= newSize < 0x500_0000
    ensures var c := Run(Setup(hash, newSize, depthLimit), ops);
            |c.slots| == newSize && 160 * Count(c.slots, Live) <= 153 * newSize && Count(c.slots, Live) < newSize
  {
    hide Count, Run, Setup;
    LoadIsBounded(hash, newSize, depthLimit, ops);
    SetupSize(hash, newSize, depthLimit);
    DivModIs(45 * newSize, TWO32, 0, 45 * newSize);
    assert EpochSize(Max(2, newSize)) == 45 * newSize / 100;
  }

  /** An epoch is 45 percent of the table rounded down, but at least one insertion, unless the size is so large that the product wraps around. */
  lemma {:induction false} EpochIsShare(size: nat)
    requires size < 0x500_0000
    ensures EpochSize(size) >= 1 && (size < 3 ==> EpochSize(size) == 1)
    ensures size >= 3 ==> 100 * EpochSize(size) <= 45 * size < 100 * (EpochSize(size) + 1)
  {
  }

  lemma {:induction false} SetupSize(hash: (nat, Element) -> nat, newSize: nat, depthLimit: nat)
    ensures |Setup(hash, newSize, depthLimit).slots| == Max(2, newSize)
  {
  }

  ghost predicate WasPut(ops: seq<Op>, e: Element) {
    exists k :: 0 <= k < |ops| && ops[k] == Put(e)
  }

  ghost predicate AllWerePut(q: seq<Slot>, ops: seq<Op>) {
    forall x | x in Stored(q) :: WasPut(ops, x)
  }

  lemma {:induction false} RunGood(hash: (nat, Element) -> nat, newSize: nat, depthLimit: nat, ops: seq<Op>)
    requires forall k | 0 <= k < |ops| && ops[k].Put? :: ops[k].e != DEFAULT
    ensures var c := Run(Setup(hash, newSize, depthLimit), ops); Good(c) && AllWerePut(c.slots, ops)
    decreases |ops|
  {
    hide Insert, Erase, Placed, Once, Filled, Stored, LiveSet;
    var c0 := Setup(hash, newSize, depthLimit);
    if ops == [] {
      SetupGood(hash, newSize, depthLimit);
    } else {
      var front, op := ops[..|ops| - 1], ops[|ops| - 1];
      assert forall k | 0 <= k < |front| :: front[k] == ops[k];
      RunGood(hash, newSize, depthLimit, front);
      var c1, c2 := Run(c0, front), Run(c0, ops);
      if op.Put? { var _ := InsertEffect(c1, op.e); } else { EraseGood(c1, op.e); }
      forall x | x in Stored(c2.slots) ensures WasPut(ops, x) {
        if x in Stored(c1.slots) {
          assert WasPut(front, x);
          var k :| 0 <= k < |front| && front[k] == Put(x);
          assert ops[k] == Put(x);
        } else {
          assert ops[|ops| - 1] == Put(x);
        }
      }
    }
  }

  lemma {:induction false} SetupGood(hash: (nat, Element) -> nat, newSize: nat, depthLimit: nat)
    ensures var c := Setup(hash, newSize, depthLimit); Good(c) && Stored(c.slots) == {}
  {
  }

  /** A lookup in any reachable cache agrees with a scan of the whole table, and finds only what was inserted. */
  lemma {:induction false} LookupsAreRight(hash: (nat, Element) -> nat, newSize: nat, depthLimit: nat, ops: seq<Op>, e: Element)
    requires e != DEFAULT && forall k | 0 <= k < |ops| && ops[k].Put? :: ops[k].e != DEFAULT
    ensures var c := Run(Setup(hash, newSize, depthLimit), ops);
            && (Contains(c, e) <==> e in Stored(c.slots))
            && (Contains(c, e) ==> WasPut(ops, e))
  {
    hide Run, Good, Stored, Contains;
    var c := Run(Setup(hash, newSize, depthLimit), ops);
    RunGood(hash, newSize, depthLimit, ops);
    ContainsIsScan(c, e);
    assert AllWerePut(c.slots, ops);
  }

  // ----- how long an element stays, over every run -----

  function Puts(ops: seq<Op>): nat {
    if ops == [] then 0 else Puts(ops[..|ops| - 1]) + if ops[|ops| - 1].Put? then 1 else 0
  }

  /** No insertion of the run exhausts the depth. */
  predicate NothingDropped(c: Cache, ops: seq<Op>)
    requires |c.slots| > 0
  {
    ops == [] ||
    var front, op := ops[..|ops| - 1], ops[|ops| - 1];
    NothingDropped(c, front) && (op.Put? ==> Insert(Run(c, front), op.e).1.None?)
  }

  lemma {:induction false} CheckKeepsElement(c: Cache, e: Element)
    ensures var c1 := EpochCheck(c);
            && (e in RecentSet(c.slots) ==> e in (if EpochIsOver(c) then LiveSet(c1.slots) else RecentSet(c1.slots)))
            && (e in LiveSet(c.slots) && !EpochIsOver(c) ==> e in LiveSet(c1.slots))
  {
    hide EpochCheck, EpochIsOver;
    EpochCheckExact(c);
    var c1 := EpochCheck(c);
    if e in RecentSet(c.slots) {
      var i :| 0 <= i < |c.slots| && LiveRecent(c.slots[i]) && c.slots[i].element == e;
      assert c1.slots[i].element == e && !c1.slots[i].collected;
    }
  }

  /** After the check an insertion that drops nothing keeps every live element live, and in its epoch. */
  lemma {:induction false} InsertKeepsSets(c: Cache, e: Element)
    requires Good(c) && e != DEFAULT && Insert(c, e).1.None?
    ensures var r, c1 := Insert(c, e).0, EpochCheck(c);
            && Good(r) && LiveSet(c1.slots) <= LiveSet(r.slots) && RecentSet(c1.slots) + {e} <= RecentSet(r.slots)
            && r.counter == c1.counter && r.epochSize == c.epochSize
  {
    hide EpochCheck, Chain, Placed, Once, Filled, Stored, LiveSet, RecentSet;
    var lost := InsertEffect(c, e);
    EpochCheckExact(c);
    var c1 := EpochCheck(c);
    var locs := Locs(c1.hash, |c1.slots|, e);
    match FindElement(c1.slots, locs, e, 0) {
      case Some(k) => KeepRecent(c1.slots, locs[k], e);
      case None =>
        ContainsIsScan(c1, e);
        ChainRecent(c1, e, -1, true, c.depthLimit);
        ChainLoad(c1, e, -1, true, c.depthLimit);
    }
  }

  lemma {:induction false} KeepRecent(q: seq<Slot>, loc: nat, e: Element)
    requires loc < |q| && q[loc].element == e
    ensures RecentSet(q) + {e} <= RecentSet(q[loc := Slot(e, false, true)])
  {
    var q' := q[loc := Slot(e, false, true)];
    forall x | x in RecentSet(q) + {e} ensures x in RecentSet(q') {
      if x == e {
        assert LiveRecent(q'[loc]) && q'[loc].element == e;
      } else {
        var i :| 0 <= i < |q| && LiveRecent(q[i]) && q[i].element == x;
        assert q'[i] == q[i];
      }
    }
  }

  lemma {:induction false} EraseKeepsOthers(c: Cache, x: Element, e: Element)
    requires |c.slots| > 0 && x != e
    ensures var c' := Erase(c, x);
            && (e in LiveSet(c.slots) ==> e in LiveSet(c'.slots)) && (e in RecentSet(c.slots) ==> e in RecentSet(c'.slots))
            && c'.counter == c.counter && c'.epochSize == c.epochSize
  {
    var q, q' := c.slots, Erase(c, x).slots;
    assert forall i | 0 <= i < |q| && q[i].element == e :: q'[i] == q[i];
  }

  /** The element is of the current epoch, or old and not to be collected before the counter has run out. */
  ghost predicate Staying(c: Cache, e: Element, epochSize: nat, puts: int) {
    && c.epochSize == epochSize
    && ((e in RecentSet(c.slots) && c.counter >= puts) || (e in LiveSet(c.slots) && c.counter >= puts + epochSize + 1))
  }

  lemma {:induction false} PutStays(c: Cache, x: Element, e: Element, puts: int)
    requires Good(c) && x != DEFAULT && Insert(c, x).1.None? && Staying(c, e, c.epochSize, puts) && puts + c.epochSize + 1 > 0
    ensures Good(Insert(c, x).0) && Staying(Insert(c, x).0, e, c.epochSize, puts - 1)
  {
    hide EpochCheck, Insert, Good, EpochIsOver, LiveSet, RecentSet;
    CheckKeepsElement(c, e);
    EpochCheckExact(c);
    InsertKeepsSets(c, x);
    assert EpochIsOver(c) ==> c.counter == 0 by { OverMeansZero(c); }
  }

  lemma {:induction false} OverMeansZero(c: Cache)
    ensures EpochIsOver(c) ==> c.counter == 0
  {
  }

  lemma {:induction false} StaysOverRun(c: Cache, ops: seq<Op>, e: Element)
    requires Good(c) && e in RecentSet(c.slots) && NothingDropped(c, ops) && Lookup(e, true) !in ops
    requires (forall k | 0 <= k < |ops| && ops[k].Put? :: ops[k].e != DEFAULT) && Puts(ops) <= c.counter + c.epochSize + 1
    ensures Good(Run(c, ops)) && Staying(Run(c, ops), e, c.epochSize, c.counter - Puts(ops))
    decreases |ops|
  {
    hide Insert, Erase, Good, LiveSet, RecentSet;
    GoodIsSome(c);
    if ops != [] {
      var front, op := ops[..|ops| - 1], ops[|ops| - 1];
      assert forall k | 0 <= k < |front| :: front[k] == ops[k];
      StaysOverRun(c, front, e);
      var c1 := Run(c, front);
      if op.Put? {
        PutStays(c1, op.e, e, c.counter - Puts(front));
      } else if op.erase {
        assert op.e != e by { assert op in ops; }
        EraseGood(c1, op.e);
        EraseKeepsOthers(c1, op.e, e);
      }
    }
  }

  lemma {:induction false} GoodIsSome(c: Cache)
    requires Good(c)
    ensures |c.slots| > 0
  {
  }

  /**
   * An element inserted stays in the cache for at least one whole epoch of further insertions and one more, whatever
   * else is inserted, looked up and erased, unless it is erased itself or the depth of an insertion runs out.
   */
  lemma {:induction false} InsertedStays(c: Cache, e: Element, ops: seq<Op>)
    requires Good(c) && e != DEFAULT && Insert(c, e).1.None? && Lookup(e, true) !in ops
    requires |Insert(c, e).0.slots| > 0 && NothingDropped(Insert(c, e).0, ops)
    requires (forall k | 0 <= k < |ops| && ops[k].Put? :: ops[k].e != DEFAULT) && Puts(ops) <= c.epochSize + 1
    ensures var r := Run(Insert(c, e).0, ops); e in LiveSet(r.slots) && Contains(r, e)
  {
    hide Insert, Run, Good, LiveSet, RecentSet, Stored;
    GoodIsSome(c);
    InsertKeepsSets(c, e);
    var c1 := Insert(c, e).0;
    StaysOverRun(c1, ops, e);
    var r := Run(c1, ops);
    RecentIsLive(r.slots);
    LiveElementIsFound(r, e);
  }

  lemma {:induction false} LiveElementIsFound(c: Cache, e: Element)
    requires Good(c) && e != DEFAULT && e in LiveSet(c.slots)
    ensures Contains(c, e)
  {
    ContainsIsScan(c, e);
  }
}
