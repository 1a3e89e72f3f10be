/**
 * The check queue as a transition system. The steps are the critical sections of the master and
 * of the workers, the runs of single checks outside the lock, and the notifications.
 */
module CheckQueueModel {
  import opened Wrappers

  /** A verification, together with what running it returns. */
  datatype Check = Check(id: nat, passes: bool)

  /** Where a thread is. Outside and Notifying are for the master only. */
  datatype Local =
    | Outside
    | Notifying(many: bool)
    | Entering
    | Working(batch: seq<Check>, done: nat, ok: bool)
    | Waiting
    | Woken

  function BatchOfThread(l: Local): multiset<Check> {
    if l.Working? then multiset(l.batch) else multiset{}
  }

  const MASTER: nat := 0

  /** The fields guarded by the mutex and the threads; thread 0 is the master. */
  datatype State = State(
    queue: seq<Check>, nTodo: int, nIdle: int, nTotal: int, fAllOk: bool, batchSize: nat, threads: seq<Local>)
  {
    function At(t: nat, l: Local): (r: State)
      requires t < |threads|
    {
      this.(threads := threads[t := l])
    }
  }

  /** How many checks to take from a queue that has some. */
  function BatchOf(s: State): (n: nat)
    requires s.queue != [] && s.nTotal >= 0 && s.nIdle >= 0
    ensures 1 <= n <= |s.queue|
  {
    var share := |s.queue| / (s.nTotal + s.nIdle + 1);
    var n := if s.batchSize < share then s.batchSize else share;
    if n < 1 then 1 else n
  }

  /** The top of the queue, in the order it is popped. */
  function Popped(q: seq<Check>, n: nat): (r: seq<Check>)
    requires n <= |q|
    ensures |r| == n
  {
    seq(n, i requires 0 <= i < n => q[|q| - 1 - i])
  }

  function Take(s: State, t: nat): State
    requires t < |s.threads| && s.queue != [] && s.nTotal >= 0 && s.nIdle >= 0
  {
    var n := BatchOf(s);
    s.At(t, Working(Popped(s.queue, n), 0, s.fAllOk)).(queue := s.queue[..|s.queue| - n])
  }

  /** The loop of a critical section: leave it, wait or take a batch. */
  function Head(s: State, t: nat): (State, Option<bool>)
    requires t < |s.threads| && s.nTotal >= 0 && s.nIdle >= 0
  {
    if s.queue != [] then (Take(s, t), None)
    else if t == MASTER && s.nTodo == 0 then
      (s.At(t, Outside).(nTotal := s.nTotal - 1, fAllOk := true), Some(s.fAllOk))
    else (s.At(t, Waiting).(nIdle := s.nIdle + 1), None)
  }

  /** Waking the master, if it waits. */
  function NotifyMaster(threads: seq<Local>): seq<Local>
    requires |threads| > 0
  {
    if threads[MASTER].Waiting? then threads[MASTER := Woken] else threads
  }

  predicate AtLock(l: Local) {
    l.Entering? || l.Woken? || (l.Working? && l.done == |l.batch|)
  }

  /** What a thread does between acquiring the lock and the loop. */
  function Arrive(s: State, t: nat): (r: State)
    requires t < |s.threads| && AtLock(s.threads[t])
    ensures |r.threads| == |s.threads|
  {
    match s.threads[t]
    case Working(batch, done, ok) =>
      var todo := s.nTodo - |batch|;
      s.(fAllOk := s.fAllOk && ok, nTodo := todo, threads := if todo == 0 && t != MASTER then NotifyMaster(s.threads) else s.threads)
    case Entering => s.(nTotal := s.nTotal + 1)
    case _ => s.(nIdle := s.nIdle - 1)
  }

  function RunOne(l: Local): Local
    requires l.Working? && l.done < |l.batch|
  {
    l.(done := l.done + 1, ok := l.ok && l.batch[l.done].passes)
  }

  function WakeWorkers(threads: seq<Local>): (r: seq<Local>)
    ensures |r| == |threads|
  {
    seq(|threads|, t requires 0 <= t < |threads| => if t != MASTER && threads[t].Waiting? then Woken else threads[t])
  }

  datatype Event =
    | Add(checks: seq<Check>)
    | NotifyAll
    | NotifyOne(worker: nat)
    | NotifyNobody
    | CallWait
    | Lock(t: nat)
    | Execute(t: nat)
    | Spurious(t: nat)

  /** The state and, beside it, the checks added and completed since the master last returned. */
  datatype Config = Config(s: State, added: multiset<Check>, completed: multiset<Check>)

  function Enter(c: Config, t: nat): (r: (Config, Option<bool>))
    requires t < |c.s.threads| && AtLock(c.s.threads[t])
    requires Arrive(c.s, t).nTotal >= 0 && Arrive(c.s, t).nIdle >= 0
  {
    var (s', result) := Head(Arrive(c.s, t), t);
    if result.Some? then (Config(s', multiset{}, multiset{}), result)
    else (Config(s', c.added, c.completed + BatchOfThread(c.s.threads[t])), result)
  }

  predicate NobodyWaits(threads: seq<Local>) {
    forall t | 0 < t < |threads| :: !threads[t].Waiting?
  }

  /** The step an event stands for, if it can be taken: the next configuration and what Wait returned, if it did. */
  function Next(c: Config, ev: Event): Option<(Config, Option<bool>)> {
    var s := c.s;
    if |s.threads| == 0 then None else
    match ev
    case Add(checks) =>
      if s.threads[MASTER] != Outside then None
      else if checks == [] then Some((c, None))
      else Some((Config(s.At(MASTER, Notifying(|checks| != 1)).(queue := s.queue + checks, nTodo := s.nTodo + |checks|),
                        c.added + multiset(checks), c.completed), None))
    case NotifyAll =>
      if s.threads[MASTER] != Notifying(true) then None
      else Some((c.(s := s.(threads := WakeWorkers(s.threads)[MASTER := Outside])), None))
    case NotifyOne(worker) =>
      if s.threads[MASTER] != Notifying(false) || !(0 < worker < |s.threads|) || !s.threads[worker].Waiting? then None
      else Some((c.(s := s.(threads := s.threads[worker := Woken][MASTER := Outside])), None))
    case NotifyNobody =>
      if s.threads[MASTER] != Notifying(false) || !NobodyWaits(s.threads) then None
      else Some((c.(s := s.At(MASTER, Outside)), None))
    case CallWait =>
      if s.threads[MASTER] != Outside then None else Some((c.(s := s.At(MASTER, Entering)), None))
    case Lock(t) =>
      if t >= |s.threads| || !AtLock(s.threads[t]) || Arrive(s, t).nTotal < 0 || Arrive(s, t).nIdle < 0 then None
      else Some(Enter(c, t))
    case Execute(t) =>
      if t >= |s.threads| || !s.threads[t].Working? || s.threads[t].done >= |s.threads[t].batch| then None
      else Some((c.(s := s.At(t, RunOne(s.threads[t]))), None))
    case Spurious(t) =>
      if t >= |s.threads| || !s.threads[t].Waiting? then None
      else Some((c.(s := s.At(t, Woken)), None))
  }

  /** The queue as StartWorkerThreads leaves it. */
  function Start(batchSize: nat, workers: nat): Config {
    Config(State([], 0, 0, 0, true, batchSize, [Outside] + seq(workers, _ => Entering)), multiset{}, multiset{})
  }

  /** The results of the calls of Wait in a run. */
  function Run(c: Config, events: seq<Event>): Option<(Config, seq<bool>)>
    decreases |events|
  {
    if events == [] then Some((c, []))
    else
      match Run(c, events[..|events| - 1])
      case None => None
      case Some((c1, results)) =>
        match Next(c1, events[|events| - 1])
        case None => None
        case Some((c2, result)) => Some((c2, if result.Some? then results + [result.value] else results))
  }

  // ----- the reference: one thread, which runs every check when Wait is called -----

  predicate AllPass(checks: seq<Check>) {
    forall i | 0 <= i < |checks| :: checks[i].passes
  }

  /** The checks added since the last call of Wait. */
  function Pending(events: seq<Event>): seq<Check>
    decreases |events|
  {
    if events == [] then [] else
    var front, last := events[..|events| - 1], events[|events| - 1];
    if last.CallWait? then [] else Pending(front) + if last.Add? then last.checks else []
  }

  function Sequential(events: seq<Event>): seq<bool>
    decreases |events|
  {
    if events == [] then [] else
    var front, last := events[..|events| - 1], events[|events| - 1];
    Sequential(front) + if last.CallWait? then [AllPass(Pending(front))] else []
  }
}
