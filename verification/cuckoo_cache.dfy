/** The cuckoo cache as an object: the table, bit-packed collection flags and epoch flags, updated in place. */
module CuckooCache {
  import opened ByteBits
  import opened Wrappers
  import opened M = CuckooModel

  class BitFlags {
    const mem: array<bv8>

    constructor (size: nat)
      ensures fresh(mem) && mem.Length == (size + 7) / 8 && forall s | 0 <= s < size :: IsSet(s)
    {
      var all := new bv8[(size + 7) / 8];
      for i := 0 to all.Length
        invariant forall j | 0 <= j < i :: all[j] == 0xFF
      {
        all[i] := 0xFF;
      }
      mem := all;
      new;
      forall s | 0 <= s < size ensures IsSet(s) { Masks(s % 8); }
    }

    predicate IsSet(s: nat)
      requires s < 8 * mem.Length
      reads mem
    {
      Mask(s % 8) & mem[s / 8] != 0
    }

    method Set(s: nat)
      requires s < 8 * mem.Length
      modifies mem
      ensures forall t | 0 <= t < 8 * mem.Length :: IsSet(t) <==> t == s || old(IsSet(t))
    {
      mem[s / 8] := mem[s / 8] | Mask(s % 8);
      forall t | 0 <= t < 8 * mem.Length ensures IsSet(t) <==> t == s || old(IsSet(t)) {
        if t / 8 == s / 8 { MaskSetUnset(old(mem[s / 8]), s % 8, t % 8); }
      }
    }

    method Unset(s: nat)
      requires s < 8 * mem.Length
      modifies mem
      ensures forall t | 0 <= t < 8 * mem.Length :: IsSet(t) <==> t != s && old(IsSet(t))
    {
      mem[s / 8] := mem[s / 8] & !Mask(s % 8);
      forall t | 0 <= t < 8 * mem.Length ensures IsSet(t) <==> t != s && old(IsSet(t)) {
        if t / 8 == s / 8 { MaskSetUnset(old(mem[s / 8]), s % 8, t % 8); }
      }
    }
  }

  class Cuckoo {
    const hash: (nat, Element) -> nat
    const table: array<Element>
    const flags: BitFlags
    const epochFlags: array<bool>
    var counter: nat
    const epochSize: nat
    const depthLimit: nat

    ghost predicate Valid() {
      && table.Length > 0 && epochFlags.Length == table.Length && table.Length <= 8 * flags.mem.Length
      && var t: object := table; var m: object := flags.mem; var f: object := epochFlags; t != m && t != f && m != f
    }

    ghost function Slots(): (q: seq<Slot>)
      requires Valid()
      reads table, flags.mem, epochFlags
      ensures |q| == table.Length
      ensures forall i | 0 <= i < |q| :: q[i] == Slot(table[i], flags.IsSet(i), epochFlags[i])
    {
      seq(table.Length, i requires 0 <= i < table.Length reads table, flags.mem, epochFlags =>
        Slot(table[i], flags.IsSet(i), epochFlags[i]))
    }

    ghost function Model(): M.Cache
      requires Valid()
      reads this, table, flags.mem, epochFlags
    {
      M.Cache(hash, Slots(), counter, epochSize, depthLimit)
    }

    /** setup, which is to be called once. */
    constructor (h: (nat, Element) -> nat, newSize: nat, depth: nat)
      ensures Valid() && fresh(table) && fresh(flags.mem) && fresh(epochFlags)
      ensures Model() == M.Setup(h, newSize, depth)
    {
      hash, depthLimit := h, depth;
      var size := Max(2, newSize);
      table := new Element[size](_ => DEFAULT);
      flags := new BitFlags(size);
      epochFlags := new bool[size](_ => false);
      epochSize, counter := EpochSize(size), EpochSize(size);
      new;
      assert Slots() == M.Setup(h, newSize, depth).slots;
    }

    /** Overwrite one slot: its element, whether it may be collected, and its epoch. */
    method PutSlot(loc: nat, e: Element, collected: bool, recent: bool)
      requires Valid() && loc < table.Length
      modifies table, flags.mem, epochFlags
      ensures Model() == old(Model()).(slots := old(Slots())[loc := Slot(e, collected, recent)])
    {
      hide BitFlags.IsSet;
      table[loc] := e;
      if collected { flags.Set(loc); } else { flags.Unset(loc); }
      epochFlags[loc] := recent;
      assert Slots() == old(Slots())[loc := Slot(e, collected, recent)];
    }

    /** The expensive scan: how many elements of the current epoch are still in use. */
    method CountUsed() returns (used: nat)
      requires Valid()
      ensures used == Count(Slots(), LiveRecent)
    {
      hide BitFlags.IsSet;
      used := 0;
      ghost var q := Slots();
      for i := 0 to table.Length
        invariant used == Count(q[..i], LiveRecent)
      {
        assert q[..i + 1][..i] == q[..i];
        if epochFlags[i] && !flags.IsSet(i) { used := used + 1; }
      }
      assert q[..table.Length] == q;
    }

    method Age()
      requires Valid()
      modifies flags.mem, epochFlags
      ensures Slots() == seq(|old(Slots())|, i requires 0 <= i < |old(Slots())| => Aged(old(Slots())[i]))
    {
      hide BitFlags.IsSet;
      ghost var q := Slots();
      for i := 0 to table.Length
        invariant forall j | 0 <= j < table.Length :: Slots()[j] == if j < i then Aged(q[j]) else q[j]
      {
        if epochFlags[i] { epochFlags[i] := false; } else { flags.Set(i); }
      }
    }

    method EpochCheck()
      requires Valid()
      modifies this, flags.mem, epochFlags
      ensures Model() == M.EpochCheck(old(Model()))
    {
      hide BitFlags.IsSet;
      if counter != 0 {
        counter := counter - 1;
        return;
      }
      var used := CountUsed();
      if used >= epochSize {
        Age();
        counter := epochSize;
      } else {
        counter := Max(1, Max(epochSize / 16, epochSize - used));
      }
    }

    method FindElement(locs: seq<nat>, e: Element) returns (r: Option<nat>)
      requires Valid() && forall j | 0 <= j < |locs| :: locs[j] < table.Length
      ensures r == M.FindElement(Slots(), locs, e, 0)
    {
      for k := 0 to |locs|
        invariant M.FindElement(Slots(), locs, e, k) == M.FindElement(Slots(), locs, e, 0)
      {
        if table[locs[k]] == e { return Some(k); }
      }
      r := None;
    }

    method FindFree(locs: seq<nat>) returns (r: Option<nat>)
      requires Valid() && forall j | 0 <= j < |locs| :: locs[j] < table.Length
      ensures r == M.FindFree(Slots(), locs, 0)
    {
      for k := 0 to |locs|
        invariant M.FindFree(Slots(), locs, k) == M.FindFree(Slots(), locs, 0)
      {
        if flags.IsSet(locs[k]) { return Some(k); }
      }
      r := None;
    }

    /** Insert, at most depthLimit displacements deep; the element left in hand at the end is dropped. */
    method Insert(e0: Element) returns (dropped: Option<Element>)
      requires Valid()
      modifies this, table, flags.mem, epochFlags
      ensures (Model(), dropped) == M.Insert(old(Model()), e0)
    {
      hide M.EpochCheck, BitFlags.IsSet, Locs, Chain, M.FindElement;
      EpochCheck();
      var locs := Locs(hash, table.Length, e0);
      var known := FindElement(locs, e0);
      if known.Some? {
        PutSlot(locs[known.value], e0, false, true);
        dropped := None;
      } else {
        dropped := Displace(e0);
      }
    }

    /** The eviction loop. */
    method Displace(e0: Element) returns (dropped: Option<Element>)
      requires Valid()
      modifies table, flags.mem, epochFlags
      ensures (Model(), dropped) == Chain(old(Model()), e0, -1, true, depthLimit)
    {
      hide BitFlags.IsSet, Locs, M.FindFree, NextLoc;
      var e: Element, lastLoc: int, lastEpoch := e0, -1, true;
      var locs := Locs(hash, table.Length, e);
      ghost var target := Chain(Model(), e, lastLoc, lastEpoch, depthLimit);
      for depth := 0 to depthLimit
        invariant locs == Locs(hash, table.Length, e)
        invariant Chain(Model(), e, lastLoc, lastEpoch, depthLimit - depth) == target
      {
        var free := FindFree(locs);
        if free.Some? {
          PutSlot(locs[free.value], e, false, lastEpoch);
          return None;
        }
        var loc := NextLoc(locs, lastLoc);
        var out, outEpoch := table[loc], epochFlags[loc];
        var garbage := flags.IsSet(loc);
        assert Slots()[loc] == Slot(out, garbage, outEpoch);
        PutSlot(loc, e, garbage, lastEpoch);
        e, lastLoc, lastEpoch := out, loc, outEpoch;
        locs := Locs(hash, table.Length, e);
      }
      dropped := Some(e);
    }

    /** Look an element up, marking it for collection if asked to. */
    method Contains(e: Element, erase: bool) returns (found: bool)
      requires Valid()
      modifies flags.mem
      ensures found == M.Contains(old(Model()), e)
      ensures Model() == if erase then Erase(old(Model()), e) else old(Model())
    {
      hide BitFlags.IsSet;
      var locs := Locs(hash, table.Length, e);
      var at := FindElement(locs, e);
      found := at.Some?;
      if found && erase {
        flags.Set(locs[at.value]);
        assert Slots() == old(Slots())[locs[at.value] := old(Slots())[locs[at.value]].(collected := true)];
      }
    }
  }
}
