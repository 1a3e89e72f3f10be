/** What GetAddr_ reports: as many entries as it may, each once, and any choice of them. */
module AddrReport {
  import opened Wrappers
  import opened AddrModel
  import opened AddrInv
  import opened R = AddrRuns

  /** 23 percent of the entries, and at most 2500. */
  function Wanted(size: nat): (want: nat)
    ensures want <= 2500 && 100 * want <= 23 * size
  {
    var want := 23 * size / 100;
    if want > 2500 then 2500 else want
  }

  /** The ids at the first n positions of vRandom whose entries are not terrible, in order. */
  function Fair(s: State, n: nat, now: int): seq<int>
    requires n <= |s.random|
  {
    if n == 0 then []
    else Fair(s, n - 1, now) + if s.random[n - 1] in s.info && !IsTerrible(s.info[s.random[n - 1]], now) then [s.random[n - 1]] else []
  }

  /** What is reported so far are the entries of these ids. */
  ghost predicate Reports(s: State, ids: seq<int>, got: seq<Info>) {
    |got| == |ids| && forall k | 0 <= k < |ids| :: ids[k] in s.info && got[k] == s.info[ids[k]]
  }

  function FairIds(s: State, now: int): set<int> {
    set id | id in s.info && !IsTerrible(s.info[id], now)
  }

  // ----- the ids that are fair -----

  lemma {:induction false} FairWithin(s: State, n: nat, now: int, k: nat)
    requires n <= |s.random| && k < |Fair(s, n, now)|
    ensures exists p :: 0 <= p < n && s.random[p] == Fair(s, n, now)[k]
    ensures Fair(s, n, now)[k] in FairIds(s, now)
    decreases n
  {
    var front := Fair(s, n - 1, now);
    if k < |front| {
      FairWithin(s, n - 1, now, k);
      var p :| 0 <= p < n - 1 && s.random[p] == front[k];
    } else {
      assert s.random[n - 1] == Fair(s, n, now)[k];
    }
  }

  lemma {:induction false} FairDistinct(s: State, n: nat, now: int)
    requires RandomOk(s) && n <= |s.random|
    ensures forall j, k | 0 <= j < k < |Fair(s, n, now)| :: Fair(s, n, now)[j] != Fair(s, n, now)[k]
    decreases n
  {
    if n > 0 {
      FairDistinct(s, n - 1, now);
      var front := Fair(s, n - 1, now);
      forall j | 0 <= j < |front| ensures front[j] != s.random[n - 1] {
        FairWithin(s, n - 1, now, j);
        var p :| 0 <= p < n - 1 && s.random[p] == front[j];
        assert s.info[s.random[p]].randomPos == p && s.info[s.random[n - 1]].randomPos == n - 1;
      }
    }
  }

  lemma {:induction false} FairCovers(s: State, n: nat, now: int, p: nat)
    requires p < n <= |s.random| && s.random[p] in FairIds(s, now)
    ensures s.random[p] in Fair(s, n, now)
    decreases n
  {
    hide IsTerrible;
    var front := Fair(s, n - 1, now);
    if p < n - 1 {
      FairCovers(s, n - 1, now, p);
      assert front <= Fair(s, n, now);
    } else {
      assert Fair(s, n, now)[|front|] == s.random[p];
    }
  }

  lemma {:induction false} FairGrows(s: State, n: nat, m: nat, now: int)
    requires n <= m <= |s.random|
    ensures Fair(s, n, now) <= Fair(s, m, now)
    decreases m
  {
    if n < m { FairGrows(s, n, m - 1, now); }
  }

  /** All positions together list the entries that are not terrible. */
  lemma {:induction false} FairIsAll(s: State, now: int)
    requires RandomOk(s)
    ensures |Fair(s, |s.random|, now)| == |FairIds(s, now)|
  {
    var q := Fair(s, |s.random|, now);
    FairDistinct(s, |s.random|, now);
    R.DistinctCard(q);
    forall id ensures id in (set x | x in q) <==> id in FairIds(s, now) {
      if id in FairIds(s, now) { FairCovers(s, |s.random|, now, s.info[id].randomPos); }
      if id in q {
        var k :| 0 <= k < |q| && q[k] == id;
        FairWithin(s, |s.random|, now, k);
      }
    }
    assert (set x | x in q) == FairIds(s, now);
  }

  // ----- one swap -----

  /** Positions below the swap keep their ids, and these their entries. */
  lemma {:induction false} SwapAbove(s: State, s1: State, n: nat, p: nat, now: int)
    requires RandomOk(s) && n <= p < |s.random| && SwapRandom(s, n, p) == Some(s1)
    ensures |s1.random| == |s.random| && s1.random[..n] == s.random[..n] && s1.random[n] == s.random[p]
    ensures forall k | 0 <= k < n :: s1.random[k] in s1.info && s1.info[s1.random[k]] == s.info[s.random[k]]
    ensures Fair(s1, n, now) == Fair(s, n, now)
  {
    var below := s1.random[..n];
    forall k | 0 <= k < n ensures s1.random[k] == s.random[k] && s1.random[k] in s1.info && s1.info[s1.random[k]] == s.info[s.random[k]] {
      assert s.info[s.random[k]].randomPos == k && s.info[s.random[n]].randomPos == n && s.info[s.random[p]].randomPos == p;
    }
    SameFair(s, s1, n, now);
  }

  lemma {:induction false} SameFair(s: State, s1: State, n: nat, now: int)
    requires n <= |s.random| && n <= |s1.random|
    requires forall k | 0 <= k < n :: s1.random[k] == s.random[k] && s.random[k] in s.info && s1.random[k] in s1.info && s1.info[s1.random[k]] == s.info[s.random[k]]
    ensures Fair(s1, n, now) == Fair(s, n, now)
    decreases n
  {
    if n > 0 { SameFair(s, s1, n - 1, now); }
  }

  lemma {:induction false} SameFairIds(s: State, s1: State, now: int)
    requires OnlyShuffled(s, s1)
    ensures FairIds(s1, now) == FairIds(s, now)
  {
    assert forall id :: id in s1.info <==> id in s1.info.Keys;
    assert forall id :: id in s.info <==> id in s.info.Keys;
    forall id | id in s.info ensures IsTerrible(s1.info[id], now) == IsTerrible(s.info[id], now) {}
  }

  lemma {:induction false} StillReports(s: State, s1: State, n: nat, p: nat, now: int, got: seq<Info>)
    requires RandomOk(s) && n <= p < |s.random| && SwapRandom(s, n, p) == Some(s1) && Reports(s, Fair(s, n, now), got)
    ensures |s1.random| == |s.random| && Reports(s1, Fair(s1, n, now), got)
  {
    hide Fair, SwapRandom;
    SwapAbove(s, s1, n, p, now);
    var ids := Fair(s, n, now);
    forall k | 0 <= k < |ids| ensures ids[k] in s1.info && got[k] == s1.info[ids[k]] {
      FairWithin(s, n, now, k);
      var j :| 0 <= j < n && s.random[j] == ids[k];
      assert s1.random[..n][j] == s1.random[j] && s.random[..n][j] == s.random[j];
    }
  }

  lemma {:induction false} ReportsOneMore(s: State, n: nat, now: int, got: seq<Info>)
    requires n < |s.random| && s.random[n] in s.info && Reports(s, Fair(s, n, now), got)
    ensures var i := s.info[s.random[n]];
            Reports(s, Fair(s, n + 1, now), if IsTerrible(i, now) then got else got + [i])
  {
    hide IsTerrible;
    assert Fair(s, n + 1, now) == Fair(s, n, now) + if !IsTerrible(s.info[s.random[n]], now) then [s.random[n]] else [];
  }

  // ----- the whole of GetAddr_ -----

  /** The number reported is the number wanted, or all there are; and the reported entries are those of distinct ids. */
  lemma {:induction false} ReportsAsMany(s: State, n: nat, want: nat, draws: seq<nat>, now: int, got: seq<Info>) returns (m: nat)
    requires RandomOk(s) && n <= |s.random| && |draws| + n >= |s.random| && |got| <= want && Reports(s, Fair(s, n, now), got)
    ensures GetAddr(s, n, want, draws, now, got).Some?
    ensures var (s', got') := GetAddr(s, n, want, draws, now, got).value;
            && RandomOk(s') && OnlyShuffled(s, s') && m <= |s'.random| && Reports(s', Fair(s', m, now), got')
            && |got'| == Min(want, |FairIds(s, now)|)
    decreases |draws|
  {
    hide RandomOk, OnlyShuffled, SwapRandom, GetAddr, IsTerrible, Fair, Reports, FairIds, Drawn;
    GetLength(s, Fair(s, n, now), got);
    FairGrows(s, n, |s.random|, now);
    FairIsAll(s, now);
    if n < |s.random| && |got| < want {
      var p := Drawn(draws[0], n, |s.random|);
      SwapRandomEffect(s, n, p);
      var s1 := SwapRandom(s, n, p).value;
      R.RandomAt(s1, n);
      StillReports(s, s1, n, p, now, got);
      ReportsOneMore(s1, n, now, got);
      var i := s1.info[s1.random[n]];
      R.GetAddrStep(s, n, want, draws, now, got, s1);
      m := ReportsAsMany(s1, n + 1, want, draws[1..], now, if IsTerrible(i, now) then got else got + [i]);
      R.ShuffledTransitive(s, s1, GetAddr(s1, n + 1, want, draws[1..], now, if IsTerrible(i, now) then got else got + [i]).value.0);
      SameFairIds(s, s1, now);
    } else {
      R.GetAddrEnd(s, n, want, draws, now, got);
      R.ShuffledReflexive(s);
      m := n;
    }
  }

  function Min(a: nat, b: nat): nat {
    if a < b then a else b
  }

  lemma {:induction false} GetLength(s: State, ids: seq<int>, got: seq<Info>)
    requires Reports(s, ids, got)
    ensures |got| == |ids|
  {
  }

  /** No address is reported twice, and every report is an entry of the manager that is not terrible. */
  lemma {:induction false} ReportsOnce(s: State, n: nat, now: int, got: seq<Info>)
    requires RandomOk(s) && AddrOk(s) && n <= |s.random| && Reports(s, Fair(s, n, now), got)
    ensures forall j, k | 0 <= j < k < |got| :: got[j].service.ip != got[k].service.ip
    ensures forall k | 0 <= k < |got| :: !IsTerrible(got[k], now)
  {
    FairDistinct(s, n, now);
    var ids := Fair(s, n, now);
    forall k | 0 <= k < |got| ensures ids[k] in s.info && got[k] == s.info[ids[k]] && !IsTerrible(got[k], now) { FairWithin(s, n, now, k); }
    forall j, k | 0 <= j < k < |got| ensures got[j].service.ip != got[k].service.ip {
      assert got[j] == s.info[ids[j]] && got[k] == s.info[ids[k]];
      assert s.addr[s.info[ids[j]].service.ip] == ids[j] && s.addr[s.info[ids[k]].service.ip] == ids[k];
    }
  }

  /**
   * From a consistent manager and enough draws: exactly as many addresses as wanted or as there are that are not
   * terrible, each of them once.
   */
  lemma {:induction false} GetAddrExact(s: State, draws: seq<nat>, now: int)
    requires Inv(s) && |draws| >= |s.random|
    ensures GetAddr(s, 0, Wanted(|s.random|), draws, now, []).Some?
    ensures var (s', got) := GetAddr(s, 0, Wanted(|s.random|), draws, now, []).value;
            && |got| == Min(Wanted(|s.random|), |FairIds(s, now)|)
            && (forall j, k | 0 <= j < k < |got| :: got[j].service.ip != got[k].service.ip)
            && (forall k | 0 <= k < |got| :: !IsTerrible(got[k], now))
  {
    hide Core, RandomOk, GetAddr, IsTerrible, FairIds, Wanted;
    R.InvRandom(s);
    NothingYet(s, now);
    var m := ReportsAsMany(s, 0, Wanted(|s.random|), draws, now, []);
    R.GetAddrInv(s, 0, Wanted(|s.random|), draws, now, []);
    var (s', got) := GetAddr(s, 0, Wanted(|s.random|), draws, now, []).value;
    R.InvAddr(s');
    ReportsOnce(s', m, now, got);
  }

  lemma {:induction false} NothingYet(s: State, now: int)
    ensures Fair(s, 0, now) == [] && Reports(s, Fair(s, 0, now), [])
  {
  }

  // ----- every choice is possible -----

  /** Ids of entries that are not terrible, each once. */
  ghost predicate Choice(s: State, ids: seq<int>, now: int) {
    && (forall k | 0 <= k < |ids| :: ids[k] in FairIds(s, now))
    && (forall j, k | 0 <= j < k < |ids| :: ids[j] != ids[k])
  }

  lemma {:induction false} PlaceOf(s: State, id: int)
    requires RandomOk(s) && id in s.info
    ensures 0 <= s.info[id].randomPos < |s.random| && s.random[s.info[id].randomPos] == id
  {
  }

  lemma {:induction false} ChosenIsAbove(s: State, ids: seq<int>, n: nat, now: int)
    requires RandomOk(s) && Choice(s, ids, now) && n < |ids| && n <= |s.random| && s.random[..n] == ids[..n]
    ensures ids[n] in s.info && n <= s.info[ids[n]].randomPos < |s.random| && s.random[s.info[ids[n]].randomPos] == ids[n]
  {
    hide IsTerrible, RandomOk;
    var id := ids[n];
    assert id in FairIds(s, now);
    PlaceOf(s, id);
    forall k | 0 <= k < n ensures s.random[k] == ids[k] { assert s.random[..n][k] == ids[..n][k]; }
  }

  lemma {:induction false} DrawnBack(p: nat, n: nat, size: nat)
    requires n <= p < size
    ensures Drawn(p - n, n, size) == p
  {
  }

  lemma {:induction false} ChoiceAfter(s: State, s1: State, ids: seq<int>, now: int)
    requires Choice(s, ids, now) && OnlyShuffled(s, s1)
    ensures Choice(s1, ids, now)
  {
    SameFairIds(s, s1, now);
  }

  /** The ids of the choice are at the front so far, and what is reported has their services. */
  ghost predicate Chosen(s: State, ids: seq<int>, n: nat, got: seq<Info>) {
    && n == |got| <= |ids| && n <= |s.random| && s.random[..n] == ids[..n]
    && forall k | 0 <= k < n :: ids[k] in s.info && got[k].service == s.info[ids[k]].service
  }

  lemma {:induction false} ChosenNext(s: State, s1: State, ids: seq<int>, n: nat, p: nat, now: int, got: seq<Info>)
    requires RandomOk(s) && Chosen(s, ids, n, got) && Choice(s, ids, now) && n < |ids|
    requires n <= p < |s.random| && s.random[p] == ids[n] && SwapRandom(s, n, p) == Some(s1) && OnlyShuffled(s, s1)
    ensures |s1.random| == |s.random| && s1.random[n] == ids[n] && ids[n] in s1.info && !IsTerrible(s1.info[ids[n]], now)
    ensures Chosen(s1, ids, n + 1, got + [s1.info[ids[n]]])
  {
    hide SwapRandom, Fair, IsTerrible;
    SwapAbove(s, s1, n, p, now);
    SameFairIds(s, s1, now);
    assert ids[n] in FairIds(s1, now);
    assert s1.random[..n + 1] == s1.random[..n] + [s1.random[n]] && ids[..n + 1] == ids[..n] + [ids[n]];
    forall k | 0 <= k < n + 1 ensures ids[k] in s1.info && (k < n ==> got[k].service == s1.info[ids[k]].service) {
      assert ids[k] in FairIds(s1, now);
    }
  }

  lemma {:induction false} DrawsFor(s: State, ids: seq<int>, want: nat, now: int, got: seq<Info>) returns (draws: seq<nat>)
    requires RandomOk(s) && Choice(s, ids, now) && Chosen(s, ids, |got|, got) && |ids| <= want
    ensures GetAddr(s, |got|, want, draws, now, got).Some? && |draws| == |ids| - |got|
    ensures var (s', got') := GetAddr(s, |got|, want, draws, now, got).value;
            OnlyShuffled(s, s') && |got'| == |ids| && forall k | 0 <= k < |ids| :: ids[k] in s'.info && got'[k].service == s'.info[ids[k]].service
    decreases |ids| - |got|
  {
    hide RandomOk, OnlyShuffled, SwapRandom, GetAddr, IsTerrible, Choice, Drawn;
    var n := |got|;
    if n == |ids| {
      draws := [];
      R.GetAddrEnd(s, n, want, draws, now, got);
      R.ShuffledReflexive(s);
    } else {
      ChosenIsAbove(s, ids, n, now);
      var p := s.info[ids[n]].randomPos;
      DrawnBack(p, n, |s.random|);
      SwapRandomEffect(s, n, p);
      var s1 := SwapRandom(s, n, p).value;
      ChosenNext(s, s1, ids, n, p, now, got);
      ChoiceAfter(s, s1, ids, now);
      var got1 := got + [s1.info[ids[n]]];
      var rest := DrawsFor(s1, ids, want, now, got1);
      draws := [p - n] + rest;
      assert draws[1..] == rest;
      R.GetAddrStep(s, n, want, draws, now, got, s1);
      R.ShuffledTransitive(s, s1, GetAddr(s1, n + 1, want, rest, now, got1).value.0);
    }
  }

  /** Whatever entries that are not terrible are chosen, and in whatever order, some draws make GetAddr_ report just these. */
  lemma {:induction false} EveryChoiceIsPossible(s: State, ids: seq<int>, now: int) returns (draws: seq<nat>)
    requires Inv(s) && Choice(s, ids, now) && |ids| <= Wanted(|s.random|)
    ensures GetAddr(s, 0, Wanted(|s.random|), draws, now, []).Some?
    ensures var got := GetAddr(s, 0, Wanted(|s.random|), draws, now, []).value.1;
            |got| == |ids| && forall k | 0 <= k < |ids| :: ids[k] in s.info && got[k].service == s.info[ids[k]].service
  {
    hide Core, RandomOk, OnlyShuffled, GetAddr, Choice, Wanted;
    R.InvRandom(s);
    NoneChosen(s, ids);
    draws := DrawsFor(s, ids, Wanted(|s.random|), now, []);
    var (s', got) := GetAddr(s, 0, Wanted(|s.random|), draws, now, []).value;
    forall k | 0 <= k < |ids| ensures ids[k] in s.info && got[k].service == s.info[ids[k]].service {
      ShuffledService(s, s', ids[k]);
    }
  }

  lemma {:induction false} NoneChosen(s: State, ids: seq<int>)
    ensures Chosen(s, ids, 0, [])
  {
    assert s.random[..0] == ids[..0];
  }

  lemma {:induction false} ShuffledService(s: State, s': State, id: int)
    requires OnlyShuffled(s, s') && id in s'.info
    ensures id in s.info && s'.info[id].service == s.info[id].service
  {
    assert id in s'.info.Keys;
  }
}
