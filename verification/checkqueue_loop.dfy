/** CCheckQueue as an object: its critical sections change the guarded fields in place. */
module CheckQueueLoop {
  import opened Wrappers
  import opened M = CheckQueueModel

  class CheckQueue {
    var queue: seq<Check>
    var nIdle: int
    var nTotal: int
    var fAllOk: bool
    var nTodo: int
    const nBatchSize: nat

    /** The transition system's state: the guarded fields, beside where the threads are. */
    ghost function Model(threads: seq<Local>): State
      reads this
    {
      State(queue, nTodo, nIdle, nTotal, fAllOk, nBatchSize, threads)
    }

    constructor (batchSize: nat)
      ensures Model([Outside]) == Start(batchSize, 0).s
    {
      queue, nIdle, nTotal, fAllOk, nTodo, nBatchSize := [], 0, 0, true, 0, batchSize;
      new;
      assert [Outside] + seq(0, _ => Entering) == [Outside];
    }

    /** Add a batch of checks; the notification after it is a step of its own. */
    method Push(checks: seq<Check>)
      modifies this
      ensures queue == old(queue) + checks && nTodo == old(nTodo) + |checks|
      ensures nIdle == old(nIdle) && nTotal == old(nTotal) && fAllOk == old(fAllOk)
    {
      if checks == [] { return; }
      for i := 0 to |checks|
        invariant queue == old(queue) + checks[..i]
        invariant nTodo == old(nTodo) && nIdle == old(nIdle) && nTotal == old(nTotal) && fAllOk == old(fAllOk)
      {
        queue := queue + [checks[i]];
      }
      nTodo := nTodo + |checks|;
    }

    /** The clean-up at the start of a critical section; the caller wakes the master if told to. */
    method CleanUp(t: nat, mine: Local, ghost threads: seq<Local>) returns (notify: bool)
      requires t < |threads| && threads[t] == mine && AtLock(mine)
      modifies this
      ensures notify <==> mine.Working? && nTodo == 0 && t != MASTER
      ensures Model(if notify then NotifyMaster(threads) else threads) == Arrive(old(Model(threads)), t)
    {
      notify := false;
      if mine.Working? {
        fAllOk := fAllOk && mine.ok;
        nTodo := nTodo - |mine.batch|;
        notify := nTodo == 0 && t != MASTER;
      } else if mine.Entering? {
        nTotal := nTotal + 1;
      } else {
        nIdle := nIdle - 1;
      }
    }

    /** Swap a share of the queue into a batch. */
    method TakeBatch() returns (batch: seq<Check>)
      requires queue != [] && nTotal >= 0 && nIdle >= 0
      modifies this
      ensures |batch| == BatchOf(old(Model([]))) && batch == Popped(old(queue), |batch|)
      ensures queue == old(queue)[..|old(queue)| - |batch|]
      ensures nTodo == old(nTodo) && nIdle == old(nIdle) && nTotal == old(nTotal) && fAllOk == old(fAllOk)
    {
      var share := |queue| / (nTotal + nIdle + 1);
      var nNow := if nBatchSize < share then nBatchSize else share;
      if nNow < 1 { nNow := 1; }
      assert nNow == BatchOf(Model([]));
      batch := [];
      for i := 0 to nNow
        invariant |queue| == |old(queue)| - i && queue == old(queue)[..|queue|]
        invariant batch == Popped(old(queue), i)
        invariant nTodo == old(nTodo) && nIdle == old(nIdle) && nTotal == old(nTotal) && fAllOk == old(fAllOk)
      {
        batch := batch + [queue[|queue| - 1]];
        queue := queue[..|queue| - 1];
      }
    }

    /** One critical section of Loop, up to the wait, the return or the release with a batch in hand. */
    method Section(t: nat, mine: Local, ghost threads: seq<Local>)
      returns (next: Local, result: Option<bool>, notify: bool, ghost after: seq<Local>)
      requires t < |threads| && threads[t] == mine && AtLock(mine)
      requires Arrive(Model(threads), t).nTotal >= 0 && Arrive(Model(threads), t).nIdle >= 0
      modifies this
      ensures (Model(after), result) == Head(Arrive(old(Model(threads)), t), t)
      ensures |after| == |threads| && after[t] == next
      ensures notify <==> mine.Working? && nTodo == 0 && t != MASTER
      ensures after == (if notify then NotifyMaster(threads) else threads)[t := next]
    {
      notify := CleanUp(t, mine, threads);
      ghost var arrived := if notify then NotifyMaster(threads) else threads;
      result := None;
      if queue == [] {
        if t == MASTER && nTodo == 0 {
          nTotal := nTotal - 1;
          result := Some(fAllOk);
          fAllOk := true;
          next := Outside;
        } else {
          nIdle := nIdle + 1;
          next := Waiting;
        }
      } else {
        var batch := TakeBatch();
        next := Working(batch, 0, fAllOk);
      }
      after := arrived[t := next];
    }
  }

  function Executed(l: Local, n: nat): (r: Local)
    requires l.Working? && l.done + n <= |l.batch|
    ensures r.Working? && r.batch == l.batch && r.done == l.done + n
  {
    if n == 0 then l else RunOne(Executed(l, n - 1))
  }

  /** The work outside the lock: after a failure the remaining checks are not run. */
  method RunBatch(batch: seq<Check>, ok0: bool) returns (ok: bool)
    ensures Working(batch, |batch|, ok) == Executed(Working(batch, 0, ok0), |batch|)
    ensures ok <==> ok0 && AllPass(batch)
  {
    ok := ok0;
    for i := 0 to |batch|
      invariant Working(batch, i, ok) == Executed(Working(batch, 0, ok0), i)
      invariant ok <==> ok0 && AllPass(batch[..i])
    {
      assert batch[..i + 1] == batch[..i] + [batch[i]];
      if ok { ok := batch[i].passes; }
    }
    assert batch[..|batch|] == batch;
  }
}
