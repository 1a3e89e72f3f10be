/** Safety and progress of the check queue, over every interleaving. */
module CheckQueueRuns {
  import opened Arithmetic
  import opened Wrappers
  import opened CheckQueueModel

  // ----- sums over the threads -----

  function Sum(q: seq<Local>, f: Local -> int): int {
    if q == [] then 0 else Sum(q[..|q| - 1], f) + f(q[|q| - 1])
  }

  lemma {:induction false} SumUpdate(q: seq<Local>, f: Local -> int, t: nat, l: Local)
    requires t < |q|
    ensures Sum(q[t := l], f) == Sum(q, f) - f(q[t]) + f(l)
    decreases |q|
  {
    var q', last := q[t := l], |q| - 1;
    if t == last {
      assert q'[..last] == q[..last];
    } else {
      assert q'[..last] == q[..last][t := l];
      SumUpdate(q[..last], f, t, l);
    }
  }

  lemma {:induction false} SumNonnegative(q: seq<Local>, f: Local -> int)
    requires forall l :: f(l) >= 0
    ensures Sum(q, f) >= 0 && forall t | 0 <= t < |q| :: f(q[t]) <= Sum(q, f)
    decreases |q|
  {
    if q != [] {
      var front := q[..|q| - 1];
      SumNonnegative(front, f);
      forall t | 0 <= t < |q| ensures f(q[t]) <= Sum(q, f) {
        if t < |q| - 1 { assert q[t] == front[t]; }
      }
    }
  }

  /** A positive sum has a positive term. */
  lemma {:induction false} SumPositive(q: seq<Local>, f: Local -> int) returns (t: nat)
    requires Sum(q, f) > 0
    ensures t < |q| && f(q[t]) > 0
    decreases |q|
  {
    if f(q[|q| - 1]) > 0 {
      t := |q| - 1;
    } else {
      t := SumPositive(q[..|q| - 1], f);
      assert q[t] == q[..|q| - 1][t];
    }
  }

  lemma {:induction false} SumSame(p: seq<Local>, q: seq<Local>, f: Local -> int)
    requires |p| == |q| && forall t | 0 <= t < |p| :: f(p[t]) == f(q[t])
    ensures Sum(p, f) == Sum(q, f)
    decreases |p|
  {
    if p != [] {
      assert p[|p| - 1] in p;
      SumSame(p[..|p| - 1], q[..|q| - 1], f);
    }
  }

  function BatchSize(l: Local): int {
    if l.Working? then |l.batch| else 0
  }

  function Idle(l: Local): int {
    if l.Waiting? || l.Woken? then 1 else 0
  }

  function Inside(l: Local): int {
    if l.Waiting? || l.Woken? || l.Working? then 1 else 0
  }

  function Held(q: seq<Local>): multiset<Check> {
    if q == [] then multiset{} else Held(q[..|q| - 1]) + BatchOfThread(q[|q| - 1])
  }

  lemma {:induction false} AddToBoth(a: multiset<Check>, b: multiset<Check>, c: multiset<Check>, d: multiset<Check>, e: multiset<Check>)
    requires a + b == c + d
    ensures a + e + b == c + e + d
  {
    assert a + e + b == (a + b) + e;
    assert c + e + d == (c + d) + e;
  }

  lemma {:induction false} Cancel(a: multiset<Check>, b: multiset<Check>, c: multiset<Check>)
    requires a + c == b + c
    ensures a == b
  {
    assert a == (a + c) - c;
    assert b == (b + c) - c;
  }

  lemma {:induction false} HeldUpdate(q: seq<Local>, t: nat, l: Local)
    requires t < |q|
    ensures Held(q[t := l]) + BatchOfThread(q[t]) == Held(q) + BatchOfThread(l)
    decreases |q|
  {
    var q', last := q[t := l], |q| - 1;
    if t == last {
      assert q'[..last] == q[..last];
    } else {
      assert q'[..last] == q[..last][t := l];
      HeldUpdate(q[..last], t, l);
      AddToBoth(Held(q[..last][t := l]), BatchOfThread(q[t]), Held(q[..last]), BatchOfThread(l), BatchOfThread(q[last]));
    }
  }

  lemma {:induction false} HeldSame(p: seq<Local>, q: seq<Local>)
    requires |p| == |q| && forall t | 0 <= t < |p| :: BatchOfThread(p[t]) == BatchOfThread(q[t])
    ensures Held(p) == Held(q)
    decreases |p|
  {
    if p != [] { HeldSame(p[..|p| - 1], q[..|q| - 1]); }
  }

  // ----- the invariant -----

  ghost predicate Passing(m: multiset<Check>) {
    forall x | x in m :: x.passes
  }

  /** Every check added is queued, in one batch or completed; none is lost and none is taken twice. */
  ghost predicate Conserved(c: Config) {
    && c.s.nTodo == |c.s.queue| + Sum(c.s.threads, BatchSize)
    && c.added == multiset(c.s.queue) + Held(c.s.threads) + c.completed
  }

  ghost predicate Counted(s: State) {
    s.nIdle == Sum(s.threads, Idle) && s.nTotal == Sum(s.threads, Inside)
  }

  /** A verdict of a thread is about checks it ran, or about some failed check of this session. */
  ghost predicate LocalOk(l: Local, added: multiset<Check>) {
    l.Working? ==>
      && 0 < |l.batch| && l.done <= |l.batch|
      && (if l.ok then forall i | 0 <= i < l.done :: l.batch[i].passes else !Passing(added))
  }

  ghost predicate Judged(c: Config) {
    && (if c.s.fAllOk then Passing(c.completed) else !Passing(c.added))
    && (forall t | 0 <= t < |c.s.threads| :: LocalOk(c.s.threads[t], c.added))
  }

  predicate InWait(l: Local) {
    !l.Outside? && !l.Notifying?
  }

  /** Workers never leave the loop; a master that waits has something to wait for. */
  ghost predicate Roles(s: State) {
    && |s.threads| > 0
    && (forall t | 0 < t < |s.threads| :: InWait(s.threads[t]))
    && (s.threads[MASTER].Waiting? ==> s.nTodo > 0 && s.queue == [])
  }

  ghost predicate Inv(c: Config) {
    Conserved(c) && Counted(c.s) && Judged(c) && Roles(c.s)
  }

  // ----- one thread changes -----

  lemma {:induction false} ThreadUpdate(q: seq<Local>, t: nat, l: Local)
    requires t < |q|
    ensures Sum(q[t := l], BatchSize) == Sum(q, BatchSize) - BatchSize(q[t]) + BatchSize(l)
    ensures Sum(q[t := l], Idle) == Sum(q, Idle) - Idle(q[t]) + Idle(l)
    ensures Sum(q[t := l], Inside) == Sum(q, Inside) - Inside(q[t]) + Inside(l)
    ensures Held(q[t := l]) + BatchOfThread(q[t]) == Held(q) + BatchOfThread(l)
  {
    SumUpdate(q, BatchSize, t, l);
    SumUpdate(q, Idle, t, l);
    SumUpdate(q, Inside, t, l);
    HeldUpdate(q, t, l);
  }

  /** Threads that wait may be woken without any sum changing. */
  ghost predicate SomeWoken(p: seq<Local>, q: seq<Local>) {
    |p| == |q| && forall t | 0 <= t < |p| :: q[t] == p[t] || (p[t].Waiting? && q[t].Woken?)
  }

  lemma {:induction false} WokenSame(p: seq<Local>, q: seq<Local>)
    requires SomeWoken(p, q)
    ensures Sum(q, BatchSize) == Sum(p, BatchSize) && Sum(q, Idle) == Sum(p, Idle) && Sum(q, Inside) == Sum(p, Inside)
    ensures Held(q) == Held(p)
  {
    SumSame(p, q, BatchSize);
    SumSame(p, q, Idle);
    SumSame(p, q, Inside);
    HeldSame(p, q);
  }

  lemma {:induction false} WakingInv(c: Config, threads: seq<Local>)
    requires Inv(c) && SomeWoken(c.s.threads, threads)
    ensures Inv(c.(s := c.s.(threads := threads)))
  {
    hide Sum, Held;
    WokenSame(c.s.threads, threads);
    forall t | 0 <= t < |threads| ensures LocalOk(threads[t], c.added) { assert LocalOk(c.s.threads[t], c.added); }
  }

  /** The master moves between the places where it holds nothing. */
  lemma {:induction false} MasterMoves(c: Config, l: Local)
    requires Inv(c) && !InWait(c.s.threads[MASTER]) && (l.Outside? || l.Notifying? || l.Entering?)
    ensures Inv(c.(s := c.s.At(MASTER, l)))
  {
    hide Sum, Held;
    ThreadUpdate(c.s.threads, MASTER, l);
    var c' := c.(s := c.s.At(MASTER, l));
    assert Held(c'.s.threads) + multiset{} == Held(c'.s.threads);
    assert Held(c.s.threads) + multiset{} == Held(c.s.threads);
    assert Conserved(c') && Counted(c'.s) && Judged(c') && Roles(c'.s);
  }

  lemma {:induction false} AddInv(c: Config, checks: seq<Check>)
    requires Inv(c) && c.s.threads[MASTER].Outside?
    ensures Inv(Config(c.s.(queue := c.s.queue + checks, nTodo := c.s.nTodo + |checks|), c.added + multiset(checks), c.completed))
  {
    hide Sum, Held;
    var c' := Config(c.s.(queue := c.s.queue + checks, nTodo := c.s.nTodo + |checks|), c.added + multiset(checks), c.completed);
    assert Conserved(c');
    assert Judged(c') by {
      if !Passing(c.added) { StillFailing(c.added, multiset(checks)); }
    }
  }

  lemma {:induction false} StillFailing(m: multiset<Check>, n: multiset<Check>)
    requires !Passing(m)
    ensures !Passing(m + n)
  {
    var x :| x in m && !x.passes;
    assert x in m + n;
  }

  lemma {:induction false} ExecuteInv(c: Config, t: nat)
    requires Inv(c) && t < |c.s.threads| && c.s.threads[t].Working? && c.s.threads[t].done < |c.s.threads[t].batch|
    ensures Inv(c.(s := c.s.At(t, RunOne(c.s.threads[t]))))
  {
    hide Sum, Held;
    var l := c.s.threads[t];
    var l' := RunOne(l);
    var c' := c.(s := c.s.At(t, l'));
    ThreadUpdate(c.s.threads, t, l');
    Cancel(Held(c'.s.threads), Held(c.s.threads), BatchOfThread(l));
    assert LocalOk(l, c.added);
    if l.ok && !l'.ok {
      HeldHas(c.s.threads, t, l.batch[l.done]);
      assert l.batch[l.done] in c.added;
    }
    assert LocalOk(l', c.added);
    assert Judged(c');
  }

  lemma {:induction false} HeldHas(q: seq<Local>, t: nat, x: Check)
    requires t < |q| && x in BatchOfThread(q[t])
    ensures x in Held(q)
    decreases |q|
  {
    if t < |q| - 1 {
      assert q[t] == q[..|q| - 1][t];
      HeldHas(q[..|q| - 1], t, x);
    }
  }

  // ----- the critical section -----

  /** Thread t holds the lock and is counted in nTotal; its previous batch is accounted for. */
  ghost predicate Between(c: Config, t: nat) {
    && t < |c.s.threads| && c.s.threads[t].Entering?
    && Conserved(c) && Judged(c) && Roles(c.s)
    && c.s.nIdle == Sum(c.s.threads, Idle) && c.s.nTotal == Sum(c.s.threads, Inside) + 1
  }

  function Completed(c: Config, t: nat): multiset<Check>
    requires t < |c.s.threads|
  {
    c.completed + BatchOfThread(c.s.threads[t])
  }

  function Arrived(c: Config, t: nat): Config
    requires t < |c.s.threads| && AtLock(c.s.threads[t])
  {
    Config(Arrive(c.s, t).At(t, Entering), c.added, Completed(c, t))
  }

  lemma {:induction false} ArriveBetween(c: Config, t: nat)
    requires Inv(c) && t < |c.s.threads| && AtLock(c.s.threads[t])
    ensures Between(Arrived(c, t), t)
  {
    hide Sum, Held;
    var q, l := c.s.threads, c.s.threads[t];
    var s1 := Arrive(c.s, t);
    assert SomeWoken(q, s1.threads);
    WokenSame(q, s1.threads);
    assert s1.threads[t] == l;
    ThreadUpdate(s1.threads, t, Entering);
    var c1 := Arrived(c, t);
    assert LocalOk(l, c.added);
    ArriveConserved(c, t);
    ArriveJudged(c, t);
    ArriveRoles(c, t);
  }

  lemma {:induction false} ArriveConserved(c: Config, t: nat)
    requires Conserved(c) && t < |c.s.threads| && AtLock(c.s.threads[t])
    requires SomeWoken(c.s.threads, Arrive(c.s, t).threads)
    ensures Conserved(Arrived(c, t))
  {
    hide Sum, Held;
    var q, l := c.s.threads, c.s.threads[t];
    var s1 := Arrive(c.s, t);
    WokenSame(q, s1.threads);
    ThreadUpdate(s1.threads, t, Entering);
    var c1 := Arrived(c, t);
    assert Held(c1.s.threads) + BatchOfThread(l) == Held(q);
  }

  lemma {:induction false} ArriveJudged(c: Config, t: nat)
    requires Judged(c) && t < |c.s.threads| && AtLock(c.s.threads[t])
    requires SomeWoken(c.s.threads, Arrive(c.s, t).threads)
    ensures Judged(Arrived(c, t))
  {
    var l, c1 := c.s.threads[t], Arrived(c, t);
    assert LocalOk(l, c.added);
    forall u | 0 <= u < |c1.s.threads| ensures LocalOk(c1.s.threads[u], c.added) {
      assert LocalOk(c.s.threads[u], c.added);
    }
    if c1.s.fAllOk {
      forall x | x in c1.completed ensures x.passes {
        if x in BatchOfThread(l) { assert x in l.batch; }
      }
    }
  }

  lemma {:induction false} ArriveRoles(c: Config, t: nat)
    requires Conserved(c) && Judged(c) && Roles(c.s) && t < |c.s.threads| && AtLock(c.s.threads[t])
    requires Conserved(Arrived(c, t))
    ensures Roles(Arrived(c, t).s)
  {
    hide Sum, Held;
    var c1 := Arrived(c, t);
    SumNonnegative(c1.s.threads, BatchSize);
    assert c1.s.nTodo >= 0;
  }

  /**
   * A batch is a fair share: the greatest number of checks, within the batch size, that all threads and as many idle
   * ones and one more could each take from the queue, but never less than one.
   */
  lemma {:induction false} BatchIsFairShare(s: State)
    requires s.queue != [] && s.nTotal >= 0 && s.nIdle >= 0
    ensures var n, takers := BatchOf(s), s.nTotal + s.nIdle + 1;
            && 1 <= n && (n == 1 || (n <= s.batchSize && n * takers <= |s.queue|))
            && forall k: nat | n < k <= s.batchSize :: k * takers > |s.queue|
  {
    var q, takers := |s.queue|, s.nTotal + s.nIdle + 1;
    var n := BatchOf(s);
    DivMod(q, takers);
    var share := q / takers;
    if n > 1 { MulLe(n, share, takers); }
    forall k: nat | n < k <= s.batchSize ensures k * takers > q {
      MulLe(share + 1, k, takers);
      Distribute(share, 1, takers);
    }
  }

  lemma {:induction false} PoppedIsTop(q: seq<Check>, n: nat)
    requires n <= |q|
    ensures multiset(q) == multiset(q[..|q| - n]) + multiset(Popped(q, n))
    decreases n
  {
    if n == 0 {
      assert q[..|q|] == q;
    } else {
      PoppedIsTop(q, n - 1);
      var k := |q| - n;
      assert q[..k + 1] == q[..k] + [q[k]];
      assert Popped(q, n) == Popped(q, n - 1) + [q[k]];
    }
  }

  /** Checks m move from the queue to a thread. */
  lemma {:induction false} Moved(q: multiset<Check>, q': multiset<Check>, h: multiset<Check>, h': multiset<Check>, done: multiset<Check>, m: multiset<Check>)
    requires q == q' + m && h' + multiset{} == h + m
    ensures q + h + done == q' + h' + done
  {
    assert h' == h + m;
    assert q + h == q' + h';
  }

  lemma {:induction false} JudgedUpdate(c: Config, t: nat, l: Local, s': State)
    requires Judged(c) && t < |c.s.threads| && s'.threads == c.s.threads[t := l] && s'.fAllOk == c.s.fAllOk && LocalOk(l, c.added)
    ensures Judged(c.(s := s'))
  {
    forall u | 0 <= u < |s'.threads| ensures LocalOk(s'.threads[u], c.added) {
      if u != t { assert LocalOk(c.s.threads[u], c.added); }
    }
  }

  lemma {:induction false} TakeInv(c: Config, t: nat)
    requires Between(c, t) && c.s.queue != [] && c.s.nTotal >= 0 && c.s.nIdle >= 0
    ensures Inv(c.(s := Take(c.s, t)))
  {
    hide Sum, Held, BatchOf, Popped;
    var n := BatchOf(c.s);
    var l := Working(Popped(c.s.queue, n), 0, c.s.fAllOk);
    var c' := c.(s := Take(c.s, t));
    PoppedIsTop(c.s.queue, n);
    ThreadUpdate(c.s.threads, t, l);
    Moved(multiset(c.s.queue), multiset(c'.s.queue), Held(c.s.threads), Held(c'.s.threads), c.completed, multiset(l.batch));
    JudgedUpdate(c, t, l, Take(c.s, t));
    assert c.s.nTodo == |c.s.queue| + Sum(c.s.threads, BatchSize);
    assert Conserved(c') && Counted(c'.s) && Judged(c') && Roles(c'.s);
  }

  lemma {:induction false} WaitInv(c: Config, t: nat)
    requires Between(c, t) && c.s.queue == [] && (t == MASTER ==> c.s.nTodo != 0)
    ensures Inv(c.(s := c.s.At(t, Waiting).(nIdle := c.s.nIdle + 1)))
  {
    hide Sum, Held;
    ThreadUpdate(c.s.threads, t, Waiting);
    SumNonnegative(c.s.threads, BatchSize);
    var c' := c.(s := c.s.At(t, Waiting).(nIdle := c.s.nIdle + 1));
    Moved(multiset(c.s.queue), multiset(c.s.queue), Held(c.s.threads), Held(c'.s.threads), c.completed, multiset{});
    JudgedUpdate(c, t, Waiting, c'.s);
    assert Conserved(c') && Counted(c'.s) && Judged(c') && Roles(c'.s);
  }

  /** With nothing left to do, nothing is queued or held. */
  lemma {:induction false} NothingHeld(q: seq<Local>)
    requires Sum(q, BatchSize) == 0
    ensures Held(q) == multiset{} && forall t | 0 <= t < |q| && q[t].Working? :: q[t].batch == []
    decreases |q|
  {
    if q != [] {
      var front := q[..|q| - 1];
      SumNonnegative(front, BatchSize);
      NothingHeld(front);
      forall t | 0 <= t < |q| && q[t].Working? ensures q[t].batch == [] {
        if t < |q| - 1 { assert q[t] == front[t]; }
      }
    }
  }

  lemma {:induction false} ReturnInv(c: Config)
    requires Between(c, MASTER) && c.s.queue == [] && c.s.nTodo == 0
    ensures c.s.fAllOk <==> Passing(c.added)
    ensures Inv(Config(c.s.At(MASTER, Outside).(nTotal := c.s.nTotal - 1, fAllOk := true), multiset{}, multiset{}))
  {
    hide Sum, Held;
    NothingHeld(c.s.threads);
    assert c.added == c.completed;
    ThreadUpdate(c.s.threads, MASTER, Outside);
    var c' := Config(c.s.At(MASTER, Outside).(nTotal := c.s.nTotal - 1, fAllOk := true), multiset{}, multiset{});
    assert Held(c'.s.threads) == multiset{};
    forall t | 0 <= t < |c'.s.threads| ensures LocalOk(c'.s.threads[t], multiset{}) {
      assert LocalOk(c.s.threads[t], c.added);
    }
    assert Conserved(c') && Counted(c'.s) && Judged(c') && Roles(c'.s);
  }

  /** What a critical section does, whatever thread it is of. */
  ghost predicate Stepped(c: Config, c': Config, result: Option<bool>)
    requires |c.s.threads| > 0
  {
    && Inv(c')
    && (result.Some? ==>
          && result.value == Passing(c.added)
          && InWait(c.s.threads[MASTER]) && c'.s.threads[MASTER].Outside?
          && c'.added == multiset{} && c'.s.queue == [] && c'.s.nTodo == 0 && c'.s.fAllOk)
    && (result.None? ==> c'.added == c.added && InWait(c'.s.threads[MASTER]) == InWait(c.s.threads[MASTER]))
  }

  lemma {:induction false} LockInv(c: Config, t: nat)
    requires Inv(c) && t < |c.s.threads| && AtLock(c.s.threads[t])
    ensures Next(c, Lock(t)).Some?
    ensures var (c', result) := Next(c, Lock(t)).value; Stepped(c, c', result)
  {
    hide Sum, Held, Judged, Conserved, Arrive, Head, Take;
    ArriveBetween(c, t);
    var c1 := Arrived(c, t);
    SumNonnegative(c1.s.threads, Idle);
    SumNonnegative(c1.s.threads, Inside);
    HeadSame(Arrive(c.s, t), t);
    HeadInv(c1, t);
    ArriveKeepsMaster(c, t);
  }

  /** The loop overwrites whatever the thread was doing. */
  lemma {:induction false} HeadSame(s: State, t: nat)
    requires t < |s.threads| && s.nTotal >= 0 && s.nIdle >= 0
    ensures Head(s.At(t, Entering), t) == Head(s, t)
  {
    var (s', _) := Head(s, t);
    assert s.threads[t := Entering][t := s'.threads[t]] == s.threads[t := s'.threads[t]];
  }

  lemma {:induction false} ArriveKeepsMaster(c: Config, t: nat)
    requires t < |c.s.threads| && AtLock(c.s.threads[t])
    ensures InWait(Arrived(c, t).s.threads[MASTER]) == InWait(c.s.threads[MASTER])
  {
  }

  lemma {:induction false} HeadInv(c: Config, t: nat)
    requires Between(c, t) && c.s.nTotal >= 0 && c.s.nIdle >= 0
    ensures var (s', result) := Head(c.s, t);
            Stepped(c, if result.Some? then Config(s', multiset{}, multiset{}) else c.(s := s'), result)
  {
    hide Sum, Held, Judged, Conserved, BatchOf, Popped;
    if c.s.queue != [] {
      TakeInv(c, t);
    } else if t == MASTER && c.s.nTodo == 0 {
      ReturnInv(c);
    } else {
      WaitInv(c, t);
    }
  }

  lemma {:induction false} NextInv(c: Config, ev: Event)
    requires Inv(c) && Next(c, ev).Some?
    ensures Inv(Next(c, ev).value.0)
  {
    hide Sum, Held, Judged, Conserved, Counted, Enter, Arrive;
    var (c', _) := Next(c, ev).value;
    var q := c.s.threads;
    match ev
    case Add(checks) =>
      if checks != [] {
        AddInv(c, checks);
        MasterMoves(Config(c.s.(queue := c.s.queue + checks, nTodo := c.s.nTodo + |checks|), c.added + multiset(checks), c.completed),
                    Notifying(|checks| != 1));
      }
    case NotifyAll =>
      MasterMoves(c, Outside);
      WakingInv(c.(s := c.s.At(MASTER, Outside)), c'.s.threads);
    case NotifyOne(worker) =>
      MasterMoves(c, Outside);
      WakingInv(c.(s := c.s.At(MASTER, Outside)), c'.s.threads);
    case NotifyNobody => MasterMoves(c, Outside);
    case CallWait => MasterMoves(c, Entering);
    case Lock(t) => LockInv(c, t);
    case Execute(t) => ExecuteInv(c, t);
    case Spurious(t) => WakingInv(c, c'.s.threads);
  }

  lemma {:induction false} StartInv(batchSize: nat, workers: nat)
    ensures Inv(Start(batchSize, workers))
  {
    var c := Start(batchSize, workers);
    Quiet(c.s.threads);
  }

  lemma {:induction false} Quiet(q: seq<Local>)
    requires forall t | 0 <= t < |q| :: q[t].Outside? || q[t].Entering?
    ensures Sum(q, BatchSize) == 0 && Sum(q, Idle) == 0 && Sum(q, Inside) == 0 && Held(q) == multiset{}
    decreases |q|
  {
    if q != [] { Quiet(q[..|q| - 1]); }
  }

  // ----- every run gives the answers of the sequential reference -----

  lemma {:induction false} PassingIsAll(checks: seq<Check>)
    ensures Passing(multiset(checks)) <==> AllPass(checks)
  {
    forall x ensures x in multiset(checks) <==> x in checks {}
    if Passing(multiset(checks)) {
      forall i | 0 <= i < |checks| ensures checks[i].passes { assert checks[i] in multiset(checks); }
    }
  }

  /** The results so far, and the one still being computed if the master is inside Wait. */
  ghost predicate Explained(c: Config, results: seq<bool>, events: seq<Event>)
    requires |c.s.threads| > 0
  {
    if InWait(c.s.threads[MASTER])
    then Sequential(events) == results + [Passing(c.added)] && Pending(events) == []
    else Sequential(events) == results && c.added == multiset(Pending(events))
  }

  /** What a step means for the session, event by event. */
  ghost predicate SessionStep(c: Config, ev: Event, c': Config, result: Option<bool>)
    requires |c.s.threads| > 0
  {
    && |c'.s.threads| > 0
    && var before, after := InWait(c.s.threads[MASTER]), InWait(c'.s.threads[MASTER]);
    if ev.Add? then result.None? && !before && !after && c'.added == c.added + multiset(ev.checks)
    else if ev.CallWait? then result.None? && !before && after && c'.added == c.added
    else if result.None? then before == after && c'.added == c.added
    else before && !after && c'.added == multiset{} && result.value == Passing(c.added)
  }

  lemma {:induction false} NextSession(c: Config, ev: Event)
    requires Inv(c) && Next(c, ev).Some?
    ensures |c.s.threads| > 0 && SessionStep(c, ev, Next(c, ev).value.0, Next(c, ev).value.1)
  {
    hide Sum, Held, Judged, Conserved, Counted, Enter, Arrive;
    if ev.Lock? { LockInv(c, ev.t); }
    if ev.Add? && ev.checks == [] { assert c.added + multiset([]) == c.added; }
  }

  lemma {:induction false} OneMore(events: seq<Event>, ev: Event)
    ensures var all := events + [ev];
            if ev.CallWait? then Pending(all) == [] && Sequential(all) == Sequential(events) + [AllPass(Pending(events))]
            else if ev.Add? then multiset(Pending(all)) == multiset(Pending(events)) + multiset(ev.checks) && Sequential(all) == Sequential(events)
            else Pending(all) == Pending(events) && Sequential(all) == Sequential(events)
  {
    var all := events + [ev];
    assert all[..|all| - 1] == events && all[|all| - 1] == ev;
  }

  lemma {:induction false} ExplainedStep(c: Config, results: seq<bool>, events: seq<Event>, ev: Event)
    requires Inv(c) && Explained(c, results, events) && Next(c, ev).Some?
    ensures var (c', result) := Next(c, ev).value;
            && |c'.s.threads| > 0
            && Explained(c', if result.Some? then results + [result.value] else results, events + [ev])
  {
    hide Inv, Next, Passing, Pending, Sequential;
    OneMore(events, ev);
    NextSession(c, ev);
    PassingIsAll(Pending(events));
  }

  lemma {:induction false} RunExplained(batchSize: nat, workers: nat, events: seq<Event>)
    requires Run(Start(batchSize, workers), events).Some?
    ensures var (c, results) := Run(Start(batchSize, workers), events).value;
            Inv(c) && |c.s.threads| > 0 && Explained(c, results, events)
    decreases |events|
  {
    hide Inv, Next, Explained;
    var c0 := Start(batchSize, workers);
    if events == [] {
      StartInv(batchSize, workers);
      StartExplained(batchSize, workers);
    } else {
      var front, last := events[..|events| - 1], events[|events| - 1];
      RunExplained(batchSize, workers, front);
      var (c1, results) := Run(c0, front).value;
      NextInv(c1, last);
      ExplainedStep(c1, results, front, last);
      assert front + [last] == events;
    }
  }

  lemma {:induction false} StartExplained(batchSize: nat, workers: nat)
    ensures Explained(Start(batchSize, workers), [], [])
  {
  }

  /**
   * In every interleaving, the answers the master has been given are those of a single thread that
   * runs all the checks of a session when Wait is called; at most the answer being computed is missing.
   */
  lemma {:induction false} EveryWaitIsSequential(batchSize: nat, workers: nat, events: seq<Event>)
    requires Run(Start(batchSize, workers), events).Some?
    ensures var (c, results) := Run(Start(batchSize, workers), events).value;
            && |c.s.threads| > 0
            && results <= Sequential(events)
            && |Sequential(events)| == |results| + if InWait(c.s.threads[MASTER]) then 1 else 0
  {
    hide Inv, Run;
    RunExplained(batchSize, workers, events);
  }

  // ----- Wait always returns -----

  /** A step of a thread inside the loop; not a wake-up out of nowhere. */
  predicate IsWork(ev: Event) {
    ev.Lock? || ev.Execute?
  }

  /** While the master is inside Wait some thread can work: the master is never left asleep with nothing to come. */
  lemma {:induction false} SomethingToDo(c: Config) returns (ev: Event)
    requires Inv(c) && InWait(c.s.threads[MASTER])
    ensures IsWork(ev) && Next(c, ev).Some?
  {
    var t := MASTER;
    if c.s.threads[MASTER].Waiting? { t := SumPositive(c.s.threads, BatchSize); }
    assert LocalOk(c.s.threads[t], c.added);
    if AtLock(c.s.threads[t]) {
      LockInv(c, t);
      ev := Lock(t);
    } else {
      ev := Execute(t);
    }
  }

  /** How much work is left at most, in steps. */
  function Cost(l: Local): int {
    match l
    case Working(batch, done, _) => if done <= |batch| then 2 + |batch| - done else 2
    case Entering => 1
    case Woken => 1
    case _ => 0
  }

  function WorkLeft(s: State): int {
    4 * |s.queue| + Sum(s.threads, Cost)
  }

  lemma {:induction false} ArriveCost(s: State, t: nat)
    requires t < |s.threads| && AtLock(s.threads[t])
    ensures Sum(Arrive(s, t).threads, Cost) - Cost(Arrive(s, t).threads[t]) < Sum(s.threads, Cost)
  {
    var s1 := Arrive(s, t);
    if s1.threads != s.threads { SumUpdate(s.threads, Cost, MASTER, Woken); }
  }

  lemma {:induction false} HeadCost(s: State, t: nat)
    requires t < |s.threads| && s.nTotal >= 0 && s.nIdle >= 0
    ensures WorkLeft(Head(s, t).0) <= WorkLeft(s) - Cost(s.threads[t])
  {
    hide Sum;
    SumUpdate(s.threads, Cost, t, Head(s, t).0.threads[t]);
  }

  /** Every step of work leaves strictly less to do. */
  lemma {:induction false} WorkShrinks(c: Config, ev: Event)
    requires Inv(c) && IsWork(ev) && Next(c, ev).Some?
    ensures 0 <= WorkLeft(Next(c, ev).value.0.s) < WorkLeft(c.s)
  {
    hide Sum, Held, Judged, Conserved, Counted, Arrive, Head;
    var s, s' := c.s, Next(c, ev).value.0.s;
    SumNonnegative(s'.threads, Cost);
    match ev {
      case Lock(t) =>
        ArriveCost(s, t);
        ArriveKeepsQueue(s, t);
        HeadCost(Arrive(s, t), t);
      case Execute(t) => SumUpdate(s.threads, Cost, t, RunOne(s.threads[t]));
    }
  }

  lemma {:induction false} ArriveKeepsQueue(s: State, t: nat)
    requires t < |s.threads| && AtLock(s.threads[t])
    ensures Arrive(s, t).queue == s.queue
  {
  }

  predicate InLoop(ev: Event) {
    IsWork(ev) || ev.Spurious?
  }

  function Wakes(events: seq<Event>): nat {
    if events == [] then 0 else Wakes(events[..|events| - 1]) + if events[|events| - 1].Spurious? then 1 else 0
  }

  /**
   * A run of the threads on their own is bounded by the work there was, apart from two steps for
   * every spurious wake-up. With SomethingToDo: Wait returns.
   */
  lemma {:induction false} RunsAreBounded(c: Config, events: seq<Event>)
    requires Inv(c) && Run(c, events).Some? && forall k | 0 <= k < |events| :: InLoop(events[k])
    ensures Inv(Run(c, events).value.0)
    ensures |events| + WorkLeft(Run(c, events).value.0.s) <= WorkLeft(c.s) + 2 * Wakes(events)
    ensures |events| <= WorkLeft(c.s) + 2 * Wakes(events)
    decreases |events|
  {
    hide Inv, WorkLeft, Next;
    if events == [] {
      WorkIsThere(c.s);
    } else {
      var front, last := events[..|events| - 1], events[|events| - 1];
      assert forall k | 0 <= k < |front| :: front[k] == events[k];
      RunsAreBounded(c, front);
      var c1 := Run(c, front).value.0;
      NextInv(c1, last);
      if last.Spurious? { WakeCost(c1, last.t); } else { WorkShrinks(c1, last); }
      WorkIsThere(Next(c1, last).value.0.s);
    }
  }

  lemma {:induction false} WorkIsThere(s: State)
    ensures WorkLeft(s) >= 0
  {
    SumNonnegative(s.threads, Cost);
  }

  lemma {:induction false} WakeCost(c: Config, t: nat)
    requires Next(c, Spurious(t)).Some?
    ensures WorkLeft(Next(c, Spurious(t)).value.0.s) == WorkLeft(c.s) + 1
  {
    SumUpdate(c.s.threads, Cost, t, Woken);
  }

  /** A run that can do no more work has let the master out of Wait. */
  lemma {:induction false} WaitReturns(batchSize: nat, workers: nat, events: seq<Event>)
    requires Run(Start(batchSize, workers), events).Some?
    requires forall ev | IsWork(ev) :: Next(Run(Start(batchSize, workers), events).value.0, ev).None?
    ensures Run(Start(batchSize, workers), events).value.1 == Sequential(events)
  {
    hide Run, Next;
    RunExplained(batchSize, workers, events);
    var c := Run(Start(batchSize, workers), events).value.0;
    if InWait(c.s.threads[MASTER]) {
      var ev := SomethingToDo(c);
    }
  }
}
