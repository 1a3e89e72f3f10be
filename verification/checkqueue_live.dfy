/** That the check queue gets things done: no wake-up is lost, and every program of the master runs to its end. */
module CheckQueueLive {
  import opened Wrappers
  import opened CheckQueueModel
  import opened CheckQueueRuns

  // ----- no wake-up is lost -----

  ghost predicate WorkerAwake(threads: seq<Local>) {
    exists t :: 0 < t < |threads| && !threads[t].Waiting?
  }

  /** With checks in the queue, and the master not about to notify, some worker is awake if there is any. */
  ghost predicate Alert(s: State) {
    |s.threads| > 1 && s.queue != [] && !s.threads[MASTER].Notifying? ==> WorkerAwake(s.threads)
  }

  lemma {:induction false} StillAwake(p: seq<Local>, q: seq<Local>)
    requires WorkerAwake(p) && |p| == |q| && forall t | 0 < t < |p| && !p[t].Waiting? :: !q[t].Waiting?
    ensures WorkerAwake(q)
  {
    var t :| 0 < t < |p| && !p[t].Waiting?;
    assert !q[t].Waiting?;
  }

  lemma {:induction false} LockAlert(c: Config, t: nat)
    requires Inv(c) && Alert(c.s) && Next(c, Lock(t)).Some?
    ensures Alert(Next(c, Lock(t)).value.0.s)
  {
    hide Inv, BatchOf, Popped;
    ArriveKeepsQueue(c.s, t);
    var s1, s' := Arrive(c.s, t), Next(c, Lock(t)).value.0.s;
    if s'.queue != [] && |s'.threads| > 1 {
      assert s1.queue != [] && s'.threads[t].Working?;
      if t > 0 {
        assert WorkerAwake(s'.threads);
      } else {
        StillAwake(c.s.threads, s'.threads);
      }
    }
  }

  lemma {:induction false} NextAlert(c: Config, ev: Event)
    requires Inv(c) && Alert(c.s) && Next(c, ev).Some?
    ensures Alert(Next(c, ev).value.0.s)
  {
    hide Inv, Enter, Arrive;
    var s' := Next(c, ev).value.0.s;
    match ev
    case Add(checks) =>
    case NotifyAll => if |s'.threads| > 1 { assert !s'.threads[1].Waiting?; }
    case NotifyOne(worker) => assert !s'.threads[worker].Waiting?;
    case NotifyNobody => if |s'.threads| > 1 { assert !s'.threads[1].Waiting?; }
    case CallWait => if WorkerAwake(c.s.threads) { StillAwake(c.s.threads, s'.threads); }
    case Lock(t) => LockAlert(c, t);
    case Execute(t) => if WorkerAwake(c.s.threads) { StillAwake(c.s.threads, s'.threads); }
    case Spurious(t) => if WorkerAwake(c.s.threads) { StillAwake(c.s.threads, s'.threads); }
  }

  /** In every run: while there are checks in the queue and the master is not about to notify, a worker is awake, if there is any. */
  lemma {:induction false} NoLostWakeUp(batchSize: nat, workers: nat, events: seq<Event>)
    requires Run(Start(batchSize, workers), events).Some?
    ensures Alert(Run(Start(batchSize, workers), events).value.0.s)
    decreases |events|
  {
    hide Inv, Next, Alert;
    if events == [] {
      StartAlert(batchSize, workers);
    } else {
      var front, last := events[..|events| - 1], events[|events| - 1];
      NoLostWakeUp(batchSize, workers, front);
      RunExplained(batchSize, workers, front);
      NextAlert(Run(Start(batchSize, workers), front).value.0, last);
    }
  }

  lemma {:induction false} StartAlert(batchSize: nat, workers: nat)
    ensures Alert(Start(batchSize, workers).s)
  {
  }

  /** A worker that waits, in a sequence of threads. */
  predicate WaitsAt(threads: seq<Local>, t: nat) {
    0 < t < |threads| && threads[t].Waiting?
  }

  function Sleepers(threads: seq<Local>): set<nat> {
    set t: nat | t < |threads| && WaitsAt(threads, t)
  }

  /**
   * Whom adding checks wakes: several checks wake every worker that waits, one check wakes one of them, whichever it
   * is, and nobody if none waits. The master can add and wait exactly when it is outside.
   */
  lemma {:induction false} AddWakes(c: Config, checks: seq<Check>)
    requires |c.s.threads| > 0
    ensures (Next(c, Add(checks)).Some? <==> c.s.threads[MASTER] == Outside) && (Next(c, CallWait).Some? <==> c.s.threads[MASTER] == Outside)
    ensures c.s.threads[MASTER] == Outside && checks != [] ==>
              var c1 := Next(c, Add(checks)).value.0;
              && (Next(c1, NotifyAll).Some? <==> |checks| > 1)
              && (forall w :: Next(c1, NotifyOne(w)).Some? <==> |checks| == 1 && WaitsAt(c.s.threads, w))
              && (Next(c1, NotifyNobody).Some? <==> |checks| == 1 && forall t :: !WaitsAt(c.s.threads, t))
              && (|checks| > 1 ==> Woke(c, c1, Next(c1, NotifyAll).value.0, Sleepers(c.s.threads)))
              && (forall w | |checks| == 1 && WaitsAt(c.s.threads, w) :: Woke(c, c1, Next(c1, NotifyOne(w)).value.0, {w}))
              && (|checks| == 1 && (forall t :: !WaitsAt(c.s.threads, t)) ==> Woke(c, c1, Next(c1, NotifyNobody).value.0, {}))
  {
    hide Next, Woke, Sleepers;
    AddIs(c, checks);
    if c.s.threads[MASTER] == Outside && checks != [] {
      var c1 := Next(c, Add(checks)).value.0;
      AllWake(c, c1, |checks| != 1);
      NobodyWakes(c, c1, |checks| != 1);
      forall w: nat
        ensures Next(c1, NotifyOne(w)).Some? <==> |checks| == 1 && WaitsAt(c.s.threads, w)
        ensures |checks| == 1 && WaitsAt(c.s.threads, w) ==> Woke(c, c1, Next(c1, NotifyOne(w)).value.0, {w})
      {
        OneWakes(c, c1, |checks| != 1, w);
      }
    }
  }

  lemma {:induction false} AddIs(c: Config, checks: seq<Check>)
    requires |c.s.threads| > 0
    ensures (Next(c, Add(checks)).Some? <==> c.s.threads[MASTER] == Outside) && (Next(c, CallWait).Some? <==> c.s.threads[MASTER] == Outside)
    ensures c.s.threads[MASTER] == Outside && checks != [] ==>
              Next(c, Add(checks)).value.0.s.threads == c.s.threads[MASTER := Notifying(|checks| != 1)]
  {
  }

  lemma {:induction false} AllWake(c: Config, c1: Config, many: bool)
    requires |c.s.threads| > 0 && c1.s.threads == c.s.threads[MASTER := Notifying(many)]
    ensures Next(c1, NotifyAll).Some? <==> many
    ensures many ==> Woke(c, c1, Next(c1, NotifyAll).value.0, Sleepers(c.s.threads))
  {
  }

  lemma {:induction false} OneWakes(c: Config, c1: Config, many: bool, w: nat)
    requires |c.s.threads| > 0 && c1.s.threads == c.s.threads[MASTER := Notifying(many)]
    ensures Next(c1, NotifyOne(w)).Some? <==> !many && WaitsAt(c.s.threads, w)
    ensures !many && WaitsAt(c.s.threads, w) ==> Woke(c, c1, Next(c1, NotifyOne(w)).value.0, {w})
  {
  }

  lemma {:induction false} NobodyWakes(c: Config, c1: Config, many: bool)
    requires |c.s.threads| > 0 && c1.s.threads == c.s.threads[MASTER := Notifying(many)]
    ensures Next(c1, NotifyNobody).Some? <==> !many && forall t :: !WaitsAt(c.s.threads, t)
    ensures !many && (forall t :: !WaitsAt(c.s.threads, t)) ==> Woke(c, c1, Next(c1, NotifyNobody).value.0, {})
  {
    SleepersSame(c.s.threads, c1.s.threads);
  }

  lemma {:induction false} SleepersSame(p: seq<Local>, q: seq<Local>)
    requires |p| == |q| && forall t | 0 < t < |p| :: q[t] == p[t]
    ensures forall t: nat :: WaitsAt(p, t) <==> WaitsAt(q, t)
    ensures NobodyWaits(q) <==> forall t :: !WaitsAt(p, t)
  {
    if NobodyWaits(q) { forall t: nat ensures !WaitsAt(p, t) {} }
    if forall t :: !WaitsAt(p, t) {
      forall t | 0 < t < |q| ensures !q[t].Waiting? { assert !WaitsAt(p, t); }
    }
  }

  /** From c over c1 to c2: the workers of a set were woken, the master is outside again, and all else is as in c1. */
  ghost predicate Woke(c: Config, c1: Config, c2: Config, woken: set<nat>) {
    && |c.s.threads| == |c2.s.threads| > 0 && c2 == c1.(s := c1.s.(threads := c2.s.threads)) && c2.s.threads[MASTER] == Outside
    && forall t | 0 < t < |c.s.threads| :: c2.s.threads[t] == if t in woken then Woken else c.s.threads[t]
  }

  /** Any thread that waits may wake up for no reason, and none else; nothing but its own state changes. */
  lemma {:induction false} AnyoneMayWake(c: Config, t: nat)
    requires |c.s.threads| > 0
    ensures Next(c, Spurious(t)).Some? <==> t < |c.s.threads| && c.s.threads[t] == Waiting
    ensures t < |c.s.threads| && c.s.threads[t] == Waiting ==>
              Next(c, Spurious(t)) == Some((c.(s := c.s.(threads := c.s.threads[t := Woken])), None))
  {
  }

  /** A worker calls the waiting master if and only if it leaves nothing to do. */
  lemma {:induction false} MasterIsCalledIff(c: Config, t: nat)
    requires Inv(c) && 0 < t < |c.s.threads| && AtLock(c.s.threads[t]) && c.s.threads[MASTER].Waiting?
    ensures Next(c, Lock(t)).Some?
    ensures var s' := Next(c, Lock(t)).value.0.s; s'.threads[MASTER] == if s'.nTodo == 0 then Woken else Waiting
  {
    hide Judged, Conserved, Counted, BatchOf, Popped;
    LockInv(c, t);
  }

  // ----- every program runs to its end -----

  predicate IsCall(ev: Event) {
    ev.Add? || ev.CallWait?
  }

  /** The calls of the master in a run. */
  function Calls(events: seq<Event>): seq<Event> {
    if events == [] then [] else
    Calls(events[..|events| - 1]) + if IsCall(events[|events| - 1]) then [events[|events| - 1]] else []
  }

  lemma {:induction false} CallsOneMore(events: seq<Event>, ev: Event)
    ensures Calls(events + [ev]) == Calls(events) + if IsCall(ev) then [ev] else []
  {
    var all := events + [ev];
    assert all[..|all| - 1] == events;
  }

  lemma {:induction false} ReferenceStep(events: seq<Event>, ev: Event)
    ensures Pending(events + [ev]) == if ev.CallWait? then [] else Pending(events) + if ev.Add? then ev.checks else []
    ensures Sequential(events + [ev]) == Sequential(events) + if ev.CallWait? then [AllPass(Pending(events))] else []
  {
    var all := events + [ev];
    assert all[..|all| - 1] == events;
  }

  /** The reference looks at the calls only. */
  lemma {:induction false} CallsDecide(events: seq<Event>)
    ensures Pending(Calls(events)) == Pending(events) && Sequential(Calls(events)) == Sequential(events)
    decreases |events|
  {
    hide Pending, Sequential, AllPass;
    if events != [] {
      var front, last := events[..|events| - 1], events[|events| - 1];
      CallsDecide(front);
      ReferenceStep(front, last);
      ReferenceStep(Calls(front), last);
      assert front + [last] == events && Calls(front) + [] == Calls(front);
      assert Pending(front) + [] == Pending(front) && Sequential(front) + [] == Sequential(front);
    }
  }

  lemma {:induction false} RunOneMore(c: Config, events: seq<Event>, ev: Event)
    requires Run(c, events).Some? && Next(Run(c, events).value.0, ev).Some?
    ensures Run(c, events + [ev]).Some? && Run(c, events + [ev]).value.0 == Next(Run(c, events).value.0, ev).value.0
  {
    hide Next;
    var all := events + [ev];
    assert all[..|all| - 1] == events;
  }

  lemma {:induction false} HeadLeaves(s: State, t: nat)
    requires t < |s.threads| && s.nTotal >= 0 && s.nIdle >= 0
    ensures var l' := Head(s, t).0.threads[MASTER]; InWait(l') || l' == Outside || l' == s.threads[MASTER]
  {
    hide BatchOf, Popped;
  }

  lemma {:induction false} ArriveStays(s: State, t: nat)
    requires t < |s.threads| && AtLock(s.threads[t]) && InWait(s.threads[MASTER])
    ensures InWait(Arrive(s, t).threads[MASTER])
  {
  }

  lemma {:induction false} LeavesToOutside(c: Config, ev: Event)
    requires |c.s.threads| > 0 && IsWork(ev) && Next(c, ev).Some? && InWait(c.s.threads[MASTER])
    ensures var l' := Next(c, ev).value.0.s.threads[MASTER]; InWait(l') || l' == Outside
  {
    hide Arrive, Head, AtLock;
    if ev.Lock? {
      ArriveStays(c.s, ev.t);
      HeadLeaves(Arrive(c.s, ev.t), ev.t);
    }
  }

  /** Inside Wait, some steps of work lead out of it. */
  lemma {:induction false} Finish(batchSize: nat, workers: nat, events: seq<Event>) returns (more: seq<Event>)
    requires Run(Start(batchSize, workers), events).Some?
    requires var threads := Run(Start(batchSize, workers), events).value.0.s.threads; |threads| > 0 && (InWait(threads[MASTER]) || threads[MASTER] == Outside)
    ensures Run(Start(batchSize, workers), more).Some? && Calls(more) == Calls(events)
    ensures var threads := Run(Start(batchSize, workers), more).value.0.s.threads; |threads| > 0 && threads[MASTER] == Outside
    decreases WorkLeft(Run(Start(batchSize, workers), events).value.0.s)
  {
    hide Inv, Next, Explained, WorkLeft, Run, Calls;
    var c := Run(Start(batchSize, workers), events).value.0;
    if c.s.threads[MASTER] == Outside { return events; }
    RunExplained(batchSize, workers, events);
    var ev := SomethingToDo(c);
    LeavesToOutside(c, ev);
    WorkShrinks(c, ev);
    RunOneMore(Start(batchSize, workers), events, ev);
    RunExplained(batchSize, workers, events + [ev]);
    CallsOneMore(events, ev);
    more := Finish(batchSize, workers, events + [ev]);
  }

  /** The master adds checks and tells the workers. */
  lemma {:induction false} AddAndNotify(batchSize: nat, workers: nat, events: seq<Event>, checks: seq<Check>) returns (more: seq<Event>)
    requires Run(Start(batchSize, workers), events).Some?
    requires var threads := Run(Start(batchSize, workers), events).value.0.s.threads; |threads| > 0 && threads[MASTER] == Outside
    ensures Run(Start(batchSize, workers), more).Some? && Calls(more) == Calls(events) + [Add(checks)]
    ensures var threads := Run(Start(batchSize, workers), more).value.0.s.threads; |threads| > 0 && threads[MASTER] == Outside
  {
    hide Next, Run, Calls;
    var c := Run(Start(batchSize, workers), events).value.0;
    AddWakes(c, checks);
    RunOneMore(Start(batchSize, workers), events, Add(checks));
    CallsOneMore(events, Add(checks));
    more := events + [Add(checks)];
    if checks == [] {
      AddNothing(c);
    } else {
      var ev := NotifyNobody;
      if |checks| > 1 { ev := NotifyAll; } else if w :| WaitsAt(c.s.threads, w) { ev := NotifyOne(w); }
      RunOneMore(Start(batchSize, workers), more, ev);
      CallsOneMore(more, ev);
      more := more + [ev];
    }
  }

  lemma {:induction false} AddNothing(c: Config)
    requires |c.s.threads| > 0 && c.s.threads[MASTER] == Outside
    ensures Next(c, Add([])) == Some((c, None))
  {
  }

  lemma {:induction false} CallsWait(c: Config)
    requires |c.s.threads| > 0 && c.s.threads[MASTER] == Outside
    ensures Next(c, CallWait) == Some((c.(s := c.s.At(MASTER, Entering)), None))
  {
  }

  /**
   * Whatever the master wants to add, and wherever it wants to wait, there is a run with just these calls in this
   * order, in which every call of Wait returns; it then gives the answers of the sequential reference.
   */
  lemma {:induction false} EveryProgramRuns(batchSize: nat, workers: nat, program: seq<Event>) returns (events: seq<Event>)
    requires forall k | 0 <= k < |program| :: IsCall(program[k])
    ensures Run(Start(batchSize, workers), events).Some? && Calls(events) == program
    ensures var (c, results) := Run(Start(batchSize, workers), events).value;
            |c.s.threads| > 0 && c.s.threads[MASTER] == Outside && results == Sequential(program)
    decreases |program|
  {
    hide Next, Calls, Sequential, Pending;
    if program == [] {
      events := [];
      NoCalls();
    } else {
      var front, last := program[..|program| - 1], program[|program| - 1];
      assert forall k | 0 <= k < |front| :: front[k] == program[k];
      events := EveryProgramRuns(batchSize, workers, front);
      if last.Add? {
        events := AddAndNotify(batchSize, workers, events, last.checks);
      } else {
        CallsWait(Run(Start(batchSize, workers), events).value.0);
        RunOneMore(Start(batchSize, workers), events, CallWait);
        CallsOneMore(events, CallWait);
        events := Finish(batchSize, workers, events + [CallWait]);
      }
      assert front + [last] == program;
    }
    EveryWaitIsSequential(batchSize, workers, events);
    CallsDecide(events);
  }

  lemma {:induction false} NoCalls()
    ensures Calls([]) == []
  {
  }
}
