/** What the executor promises, proved of every reachable state and every fair infinite run. */
module ExecutorProperties {
  import opened ExecutorProtocol
  import opened ExecutorInvariant

  // ----- Safety -----

  /**
   From the entry of `DoWork` until its guard clears `work_pending_`, the waiter is outside the
   read-locked region around `rcl_wait`, even while a callback is inside `Stop`. So a callback
   that synchronizes handles gets the write lock at once.
   */
  lemma DoWorkExcludesWaiter(s: State)
    requires Reachable(false, s) && InWork(s.work)
    ensures !InReadRegion(s.waiter)
    ensures s.op.SyncWrLock? ==> exists s' :: SyncWriteStep(s, s')
  {
    ReachableInv(s);
    if s.op.SyncWrLock? {
      assert SyncWriteStep(s, s.(hm := s.hm.(rwlock := Writing), op := SyncUpdate(s.op.handles)));
    }
  }

  /**
   Wherever the waiter is blocked, whatever it waits for is still owed to it: nothing to wait for
   has happened yet, or the main thread is on its way to the matching post, notification or trigger.
   */
  lemma NoLostWakeUp(s: State)
    requires Reachable(false, s)
    ensures s.waiter.SemWait? && s.hm.waitSem == 0 ==>
              (s.hm.sum == 0 || OwesWakePost(s.op)) && (s.ex.running || OwesStopPost(s.op))
    ensures s.waiter.SyncWait? && s.hm.syncSem == 0 ==> OwesSyncPost(s.op)
    ensures s.waiter.Waiting? && !s.ex.guard ==> s.ex.running || OwesTrigger(s.op)
    ensures s.waiter.CvSleep? ==>
              || s.work.GuardUnlock? || s.work.GuardNotify? || OwesStopNotify(s.op)
              || (s.ex.running && s.ex.workPending && (s.ex.asyncPending || InWork(s.work)))
  {
    ReachableInv(s);
  }

  /** The waiter touches `async_` only while it is open, and `Stop` closes it after the join. */
  lemma AsyncClosedAfterThreadEnds(s: State)
    requires Reachable(false, s) && s.ex.asyncClosing
    ensures s.waiter.Done?
  {
    ReachableInv(s);
  }

  // ----- Conservation of batches -----

  function SettledBatches(settled: seq<Settlement>): (bs: seq<Batch>)
    ensures |bs| == |settled| && forall i | 0 <= i < |bs| :: bs[i] == settled[i].batch
  {
    if settled == [] then [] else [settled[0].batch] + SettledBatches(settled[1..])
  }

  /**
   The batches ever stored are, in order, those delivered or dropped and then the one that is still
   stored; once `Stop` has drained the vector, every batch is accounted for.
   */
  lemma BatchesConserved(s: State)
    requires Reachable(false, s)
    ensures s.log.collected == SettledBatches(s.log.settled) + Stored(s.hm.ready)
    ensures !s.ex.threadStarted && !s.op.StopDrain? ==>
              s.hm.ready == [] && s.log.collected == SettledBatches(s.log.settled)
  {
    ReachableInv(s);
    AccountedSplits(s.log, s.hm.ready);
    assert SettledBatches(s.log.settled) + [] == SettledBatches(s.log.settled);
  }

  lemma AccountedSplits(log: Log, ready: Batch)
    requires Accounted(log, ready)
    ensures log.collected == SettledBatches(log.settled) + Stored(ready)
  {
  }

  /** No step replaces a stored batch, and a batch leaves the vector only by being settled. */
  lemma NoBatchOverwritten(s: State, s': State)
    requires Reachable(false, s) && Next(false, s, s')
    ensures BatchesMove(s, s')
  {
    ReachableInv(s);
    NextMovesBatches(s, s');
  }

  lemma NextMovesBatches(s: State, s': State)
    requires Inv(s) && Next(false, s, s')
    ensures BatchesMove(s, s')
  {
    if WaitSideStep(s, s') {
      WaitSideEffect(s, s');
    } else if HandOffSideStep(s, s') {
      HandOffSideFrame(s, s');
    } else if MainStep(false, s, s') {
      MainMovesBatches(false, s, s');
    }
  }

  predicate HistoryPrefix(a: Log, b: Log) {
    a.collected <= b.collected && a.settled <= b.settled
  }

  lemma MoveExtendsHistory(s: State, s': State)
    requires BatchesMove(s, s')
    ensures HistoryPrefix(s.log, s'.log)
  {
  }

  lemma RunStepExtendsHistory(run: seq<State>, j: nat)
    requires Run(false, run) && 0 < j < |run|
    ensures HistoryPrefix(run[j - 1].log, run[j].log)
  {
    RunInv(run, j - 1);
    assert RunStep(false, run, j);
    NextMovesBatches(run[j - 1], run[j]);
    MoveExtendsHistory(run[j - 1], run[j]);
  }

  /** A batch that was stored or settled once stays so: both histories only grow along a run. */
  lemma {:induction false} HistoriesGrow(run: seq<State>, i: nat, j: nat)
    requires Run(false, run) && i <= j < |run|
    ensures HistoryPrefix(run[i].log, run[j].log)
    decreases j
  {
    if i < j {
      HistoriesGrow(run, i, j - 1);
      RunStepExtendsHistory(run, j);
    }
  }

  // ----- What becomes of a batch -----

  /** The step appends one entry to the settlements, for the batch that was stored. */
  predicate SettlesStored(s: State, s': State, fate: Fate) {
    && s.hm.ready != [] == s'.hm.ready && s'.log.collected == s.log.collected
    && s'.log.settled == s.log.settled + [Settlement(s.hm.ready, fate)]
  }

  lemma WaiterSettlesNothing(s: State, s': State)
    requires WaiterStep(s, s')
    ensures s'.log.settled == s.log.settled && s'.work == s.work && s'.op == s.op
  {
    if WaitSideStep(s, s') {
      WaitSideSettlesNothing(s, s');
    } else {
      HandOffSettlesNothing(s, s');
    }
  }

  lemma WaitSideSettlesNothing(s: State, s': State)
    requires WaitSideStep(s, s')
    ensures s'.log.settled == s.log.settled && s'.work == s.work && s'.op == s.op
  {
  }

  lemma HandOffSettlesNothing(s: State, s': State)
    requires HandOffSideStep(s, s')
    ensures s'.log.settled == s.log.settled && s'.work == s.work && s'.op == s.op
  {
  }

  /** `DoWork` delivers what is stored, and `Stop` drops it; nothing else settles a batch. */
  lemma SettlementTells(s: State, s': State)
    requires Reachable(false, s) && Next(false, s, s') && s'.log.settled != s.log.settled
    ensures Settles(s, s')
  {
    ReachableInv(s);
    MainSettles(s, s');
  }

  ghost predicate Settles(s: State, s': State) {
    && (s.work.Take? <==> !s.op.StopDrain?)
    && SettlesStored(s, s', if s.work.Take? then Delivered else Dropped)
  }

  lemma MainSettles(s: State, s': State)
    requires LocksInv(s) && Next(false, s, s') && s'.log.settled != s.log.settled
    ensures Settles(s, s')
  {
    if WaiterStep(s, s') {
      WaiterSettlesNothing(s, s');
    }
  }

  /** A step that the waiter does not take. */
  ghost predicate OtherStep(s: State, s': State) {
    MainStep(false, s, s') || EnvironmentStep(s, s')
  }

  lemma IdleWhileTaking(s: State)
    requires Reachable(false, s)
    ensures s.work.Take? ==> s.op.Idle?
    ensures s.op.StopDrain? ==> !s.work.Take?
  {
    ReachableInv(s);
  }

  /** `DoWork` begins with taking, and goes through the guard when the callbacks are over. */
  lemma DoWorkGoesOn(s: State, s': State)
    requires OtherStep(s, s') && s'.work != s.work
    ensures s.work.NoWork? ==> s'.work.Take? && s.ex.asyncPending && !s'.ex.asyncPending
    ensures s.work.Callback? ==> s'.work.GuardLock?
    ensures s.work.GuardLock? ==> s'.work.GuardClear? && s.ex.mutex.Free? && s'.ex.mutex.Main?
    ensures s.work.GuardClear? ==> s'.work.GuardUnlock? && !s'.ex.workPending
    ensures s.work.GuardUnlock? ==> s'.work.GuardNotify? && s'.ex.mutex.Free?
    ensures s.work.GuardNotify? ==> s'.work.NoWork? && !s'.waiter.CvSleep?
  {
  }

  lemma TakeOutcome(s: State, s': State)
    requires OtherStep(s, s') && s.op.Idle? && s.work.Take? && s'.work != s.work
    ensures s.ex.exception ==> s'.work.GuardLock? && !s'.ex.exception && s'.hm == s.hm && s'.log == s.log
    ensures !s.ex.exception ==> s'.work.Callback? && s'.hm == s.hm.(ready := [])
                                && if s.hm.ready == [] then s'.log == s.log else SettlesStored(s, s', Delivered)
  {
  }

  /**
   How `DoWork` gets past taking the batch: a pending exception is reported and the batch stays, or
   the batch, if there is one, is delivered to the callbacks and nothing is stored any more.
   */
  lemma DoWorkDelivers(s: State, s': State)
    requires Reachable(false, s) && Next(false, s, s') && s.work.Take? && s'.work != s.work
    ensures s.ex.exception ==> s'.work.GuardLock? && !s'.ex.exception && s'.hm == s.hm && s'.log == s.log
    ensures !s.ex.exception ==> s'.work.Callback? && s'.hm == s.hm.(ready := [])
                                && if s.hm.ready == [] then s'.log == s.log else SettlesStored(s, s', Delivered)
  {
    IdleWhileTaking(s);
    if WaiterStep(s, s') {
      WaiterSettlesNothing(s, s');
    } else {
      TakeOutcome(s, s');
    }
  }

  lemma DrainOutcome(s: State, s': State)
    requires OtherStep(s, s') && s.op.StopDrain? && s'.op != s.op
    ensures s'.hm.ready == [] && if s.hm.ready == [] then s'.log == s.log else SettlesStored(s, s', Dropped)
  {
  }

  /** `Stop` gets past its drain with nothing stored, and what was stored is dropped. */
  lemma StopDrops(s: State, s': State)
    requires Reachable(false, s) && Next(false, s, s') && s.op.StopDrain? && s'.op != s.op
    ensures s'.hm.ready == [] && if s.hm.ready == [] then s'.log == s.log else SettlesStored(s, s', Dropped)
  {
    if WaiterStep(s, s') {
      WaiterSettlesNothing(s, s');
    } else {
      DrainOutcome(s, s');
    }
  }

  /** Step `i` of the run settled batch `k` of the history, and it was the step its fate tells. */
  ghost predicate SettledAt(run: seq<State>, i: nat, k: nat, x: Settlement)
    requires i + 1 < |run|
  {
    && |run[i].log.settled| == k && run[i].hm.ready == x.batch
    && (x.fate.Delivered? <==> run[i].work.Take?) && (x.fate.Dropped? <==> run[i].op.StopDrain?)
  }

  lemma StepTells(run: seq<State>, n: nat)
    requires Run(false, run) && 0 < n < |run|
    ensures Tells(run[n - 1], run[n])
  {
    LocksAt(run, n - 1);
    assert RunStep(false, run, n);
    NextTells(run[n - 1], run[n]);
  }

  lemma NextTells(s: State, s': State)
    requires LocksInv(s) && Next(false, s, s')
    ensures Tells(s, s')
  {
    if s'.log.settled != s.log.settled {
      MainSettles(s, s');
    }
  }

  ghost predicate Tells(s: State, s': State) {
    s'.log.settled == s.log.settled || Settles(s, s')
  }

  lemma LocksAt(run: seq<State>, n: nat)
    requires Run(false, run) && n < |run|
    ensures LocksInv(run[n])
  {
    RunInv(run, n);
  }

  /** Whatever is settled in a run was settled by `DoWork` if delivered, and by the drain of `Stop` if dropped. */
  lemma {:induction false} FatesTell(run: seq<State>, n: nat, k: nat)
    requires Run(false, run) && n < |run| && k < |run[n].log.settled|
    ensures exists i: nat | i < n :: SettledAt(run, i, k, run[n].log.settled[k])
  {
    if n > 0 {
      RunStepExtendsHistory(run, n);
      if k < |run[n - 1].log.settled| {
        FatesTell(run, n - 1, k);
      } else {
        StepTells(run, n);
        assert SettledAt(run, n - 1, k, run[n].log.settled[k]);
      }
    }
  }

  // ----- Synchronizing and failing -----

  /** `SynchronizeHandles` with these handles is on its way. */
  predicate Synchronizing(s: State, handles: Batch) {
    || s.op == SyncFlag(handles) || s.op == SyncWrLock(handles) || s.op == SyncUpdate(handles)
    || (InstalledOp(s.op) && Installed(s, handles))
  }

  predicate InstalledOp(op: MainOp) {
    op.SyncWrUnlock? || op.SyncClear? || op.SyncPost? || op.SyncWake?
  }

  predicate Installed(s: State, handles: Batch) {
    s.hm.registered == handles && s.hm.sum == |handles|
  }

  lemma WaiterKeepsHandles(s: State, s': State)
    requires WaiterStep(s, s')
    ensures s'.hm.registered == s.hm.registered && s'.hm.sum == s.hm.sum && s'.op == s.op
  {
    if WaitSideStep(s, s') {
      WaitSideKeepsHandles(s, s');
    } else {
      HandOffKeepsHandles(s, s');
    }
  }

  lemma WaitSideKeepsHandles(s: State, s': State)
    requires WaitSideStep(s, s')
    ensures s'.hm.registered == s.hm.registered && s'.hm.sum == s.hm.sum && s'.op == s.op
  {
  }

  lemma HandOffKeepsHandles(s: State, s': State)
    requires HandOffSideStep(s, s')
    ensures s'.hm.registered == s.hm.registered && s'.hm.sum == s.hm.sum && s'.op == s.op
  {
  }

  lemma OtherStepInstalls(s: State, s': State, handles: Batch)
    requires OtherStep(s, s') && Synchronizing(s, handles)
    ensures Synchronizing(s', handles) || (s'.op.Idle? && Installed(s', handles))
  {
  }

  lemma SyncStepInstalls(s: State, s': State, handles: Batch)
    requires Next(false, s, s') && Synchronizing(s, handles)
    ensures Synchronizing(s', handles) || (s'.op.Idle? && Installed(s', handles))
  {
    if WaiterStep(s, s') {
      WaiterKeepsHandles(s, s');
    } else {
      OtherStepInstalls(s, s', handles);
    }
  }

  /** Between its first step and its return, `SynchronizeHandles` has put exactly the given handles in place. */
  lemma {:induction false} SynchronizeInstalls(run: seq<State>, i: nat, j: nat, handles: Batch)
    requires Run(false, run) && i <= j < |run| && run[i].op == SyncFlag(handles)
    requires forall k | i <= k < j :: !run[k].op.Idle?
    ensures Synchronizing(run[j], handles) || (run[j].op.Idle? && Installed(run[j], handles))
  {
    if i < j {
      SynchronizeInstalls(run, i, j - 1, handles);
      assert RunStep(false, run, j);
      SyncStepInstalls(run[j - 1], run[j], handles);
    }
  }

  function One(c: bool): nat {
    if c then 1 else 0
  }

  lemma WaitSideTokens(s: State, s': State)
    requires WaitSideStep(s, s')
    ensures s'.hm.waitSem + One(s.waiter.SemWait?) == s.hm.waitSem && s'.hm.syncSem + One(s.waiter.SyncWait?) == s.hm.syncSem
  {
  }

  lemma HandOffSideTokens(s: State, s': State)
    requires HandOffSideStep(s, s')
    ensures s'.hm.waitSem == s.hm.waitSem && s'.hm.syncSem == s.hm.syncSem && !s.waiter.SemWait? && !s.waiter.SyncWait?
  {
  }

  /** The waiter takes a token exactly where it waits for one. */
  lemma TokensTaken(s: State, s': State)
    requires WaiterStep(s, s')
    ensures s'.hm.waitSem + One(s.waiter.SemWait?) == s.hm.waitSem && s'.hm.syncSem + One(s.waiter.SyncWait?) == s.hm.syncSem
  {
    if WaitSideStep(s, s') {
      WaitSideTokens(s, s');
    } else {
      HandOffSideTokens(s, s');
    }
  }

  /**
   A token to wait for handles is posted when `SynchronizeHandles` has registered the first ones and when
   `Stop` goes on, one to wait for synchronization when that is over, and none otherwise.
   */
  lemma TokensPosted(s: State, s': State)
    requires OtherStep(s, s')
    ensures s'.hm.waitSem == s.hm.waitSem + One(s'.op != s.op && (s.op.StopPost? || OwesLastWake(s.op)))
    ensures s'.hm.syncSem == s.hm.syncSem + One(s'.op != s.op && s.op.SyncPost?)
  {
  }

  predicate OwesLastWake(op: MainOp) {
    op.SyncWake? && op.sumWas == 0 && op.sumNow > 0
  }

  lemma CloseOutcome(s: State, s': State)
    requires OtherStep(s, s') && s.op.StopClose? && s'.op != s.op
    ensures s'.op.Idle? && s'.ex.asyncClosing && !s'.ex.asyncPending && s'.hm == s.hm.(registered := [])
    ensures s'.ex.threadStarted == s.ex.threadStarted && s'.waiter == s.waiter && s'.log == s.log
  {
  }

  /** When `Stop` returns, the thread has ended, nothing is stored or registered, and every batch has its fate. */
  lemma StopEnds(s: State, s': State)
    requires Reachable(false, s) && Next(false, s, s') && s.op.StopClose? && s'.op != s.op
    ensures s'.op.Idle? && s'.waiter.Done? && !s'.ex.threadStarted && s'.ex.asyncClosing && !s'.ex.asyncPending
    ensures s'.hm.ready == [] && s'.hm.registered == [] && s'.log.collected == SettledBatches(s'.log.settled)
  {
    BatchesConserved(s);
    EndedWhenClosing(s);
    if WaiterStep(s, s') {
      WaiterSettlesNothing(s, s');
    } else {
      CloseOutcome(s, s');
    }
  }

  lemma EndedWhenClosing(s: State)
    requires Reachable(false, s) && s.op.StopClose?
    ensures !s.ex.threadStarted && s.waiter.Done?
  {
    ReachableInv(s);
  }

  /** Other steps move the waiter only out of its sleep and out of its end. */
  lemma OthersMoveWaiter(s: State, s': State)
    requires OtherStep(s, s') && EpochInv(s) && s'.waiter != s.waiter
    ensures s.waiter.CvSleep? || s.waiter.Done?
  {
  }

  lemma FailingStep(s: State, s': State)
    requires WaiterStep(s, s')
    ensures s.waiter.RunFail? ==> s'.waiter.FailSend? && s'.ex.exception
    ensures s.waiter.FailSend? ==> s'.waiter.Done? && s'.ex.asyncPending
    ensures s.waiter.FailUnlock? ==> s'.waiter.RunFail?
  {
  }

  /** A thread that fails leaves an exception, and does not end before it has woken `DoWork` to report it. */
  lemma FailureIsSignalled(s: State, s': State)
    requires EpochInv(s) && Next(false, s, s') && s'.waiter != s.waiter
    ensures s.waiter.RunFail? ==> s'.waiter.FailSend? && s'.ex.exception
    ensures s.waiter.FailSend? ==> s'.waiter.Done? && s'.ex.asyncPending
    ensures s.waiter.FailUnlock? ==> s'.waiter.RunFail?
  {
    if WaiterStep(s, s') {
      FailingStep(s, s');
    } else {
      OthersMoveWaiter(s, s');
    }
  }

  /** Only handles that were registered when the wait set was filled, and still are, get collected. */
  lemma CollectedAreRegistered(s: State, s': State)
    requires Reachable(false, s) && WaiterStep(s, s') && s'.log.collected != s.log.collected
    ensures s.waiter.Collecting? && forall h :: h in s'.hm.ready ==> h in s.hm.registered
  {
    ReachableInv(s);
    if WaitSideStep(s, s') {
      WaitSideEffect(s, s');
    } else {
      HandOffSideFrame(s, s');
    }
  }

  // ----- Stop terminates -----

  /** While `Stop` is joining, the waiter is never blocked. */
  lemma WaiterFreeDuringJoin(s: State)
    requires Inv(s) && s.op.StopJoin? && !s.waiter.Done?
    ensures WaiterEnabled(s)
  {
  }

  /** While `Stop` is joining, each step of the waiter descends and no other step undoes that. */
  lemma JoinDescends(s: State, s': State)
    requires EpochInv(s) && s.op.StopJoin? && !s.waiter.Done? && Next(false, s, s')
    ensures s'.op.StopJoin?
    ensures Rank(s'.waiter) <= Rank(s.waiter)
    ensures WaiterStep(s, s') ==> Rank(s'.waiter) < Rank(s.waiter)
  {
    if WaitSideStep(s, s') {
      WaitSideDescends(s, s');
    } else if HandOffSideStep(s, s') {
      HandOffSideFrame(s, s');
      HandOffSideDescends(s, s');
    } else {
      assert EnvironmentStep(s, s');
    }
  }

  /** At `n`, if the quantity is still positive, it does not grow and the condition stays on. */
  ghost predicate NeverGrows(rank: nat -> nat, on: nat -> bool, n: nat) {
    on(n) && rank(n) > 0 ==> on(n + 1) && rank(n + 1) <= rank(n)
  }

  /** At `i` or later the quantity drops, unless it is zero or the condition is off by then. */
  ghost predicate DropsAfter(rank: nat -> nat, on: nat -> bool, i: nat) {
    exists j: nat :: i <= j && DropsAt(rank, on, j)
  }

  ghost predicate DropsAt(rank: nat -> nat, on: nat -> bool, j: nat) {
    !on(j) || rank(j) == 0 || rank(j + 1) < rank(j)
  }

  /** A quantity that never grows while the condition is on, and drops again and again, reaches zero. */
  lemma {:induction false} ReachesZero(rank: nat -> nat, on: nat -> bool, i: nat) returns (k: nat)
    requires on(i)
    requires forall n: nat :: NeverGrows(rank, on, n)
    requires forall n: nat :: DropsAfter(rank, on, n)
    ensures i <= k && on(k) && rank(k) == 0
    decreases rank(i)
  {
    k := i;
    if rank(i) > 0 {
      assert DropsAfter(rank, on, i);
      var j: nat :| i <= j && DropsAt(rank, on, j);
      while k <= j && rank(k) == rank(i)
        invariant i <= k <= j + 1 && on(k) && rank(k) <= rank(i)
        invariant k == j + 1 ==> rank(k) < rank(i)
      {
        assert NeverGrows(rank, on, k);
        k := k + 1;
      }
      k := ReachesZero(rank, on, k);
    }
  }

  function RankOf(e: nat -> State): nat -> nat {
    (n: nat) => Rank(e(n).waiter)
  }

  function JoiningOf(e: nat -> State): nat -> bool {
    (n: nat) => e(n).op.StopJoin?
  }

  lemma JoinStepAt(e: nat -> State, n: nat)
    requires Behavior(e) && e(n).op.StopJoin? && !e(n).waiter.Done?
    ensures e(n + 1).op.StopJoin? && Rank(e(n + 1).waiter) <= Rank(e(n).waiter)
    ensures WaiterEnabled(e(n))
    ensures WaiterStep(e(n), e(n + 1)) ==> Rank(e(n + 1).waiter) < Rank(e(n).waiter)
  {
    BehaviorInv(e, n);
    WaiterFreeDuringJoin(e(n));
    assert StepAt(e, n);
    JoinDescends(e(n), e(n + 1));
  }

  lemma ServedDrops(e: nat -> State, i: nat)
    requires Behavior(e) && ServedFrom(e, i)
    ensures DropsAfter(RankOf(e), JoiningOf(e), i)
  {
    var j: nat :| i <= j && WaiterServedAt(e, j);
    if JoiningOf(e)(j) && RankOf(e)(j) > 0 {
      JoinStepAt(e, j);
    }
    assert DropsAt(RankOf(e), JoiningOf(e), j);
  }

  /** In a fair run the thread being joined ends. */
  lemma JoinedThreadEnds(e: nat -> State, i: nat) returns (k: nat)
    requires Behavior(e) && Fair(e) && e(i).op.StopJoin?
    ensures i <= k && e(k).op.StopJoin? && e(k).waiter.Done?
  {
    var rank, joining := RankOf(e), JoiningOf(e);
    forall n: nat
      ensures NeverGrows(rank, joining, n) && DropsAfter(rank, joining, n)
    {
      if joining(n) && rank(n) > 0 {
        JoinStepAt(e, n);
      }
      assert ServedFrom(e, n);
      ServedDrops(e, n);
    }
    k := ReachesZero(rank, joining, i);
  }

  lemma EndedStep(s: State, s': State)
    requires s.op.StopJoin? && s.waiter.Done? && Next(false, s, s')
    ensures s'.op.StopDrain? || (s'.op.StopJoin? && s'.waiter.Done?)
  {
  }

  lemma EndedStepAt(e: nat -> State, n: nat)
    requires Behavior(e) && e(n).op.StopJoin? && e(n).waiter.Done?
    ensures e(n + 1).op.StopDrain? || (e(n + 1).op.StopJoin? && e(n + 1).waiter.Done?)
  {
    assert StepAt(e, n);
    EndedStep(e(n), e(n + 1));
  }

  /** Once the thread has ended, the join stays possible until it returns. */
  lemma {:induction false} JoinStaysPossible(e: nat -> State, i: nat, j: nat)
    requires Behavior(e) && e(i).op.StopJoin? && e(i).waiter.Done? && i <= j
    ensures (exists k: nat :: i <= k && e(k).op.StopDrain?) || (e(j).op.StopJoin? && e(j).waiter.Done?)
    decreases j
  {
    if i < j {
      JoinStaysPossible(e, i, j - 1);
      if e(j - 1).op.StopJoin? && e(j - 1).waiter.Done? {
        EndedStepAt(e, j - 1);
      }
    }
  }

  /** `Stop` always gets past its join, whatever the waiter was doing when it was called. */
  lemma StopGetsPastJoin(e: nat -> State, i: nat)
    requires Behavior(e) && Fair(e) && e(i).op.StopJoin?
    ensures exists k: nat :: i <= k && e(k).op.StopDrain?
  {
    var d := JoinedThreadEnds(e, i);
    assert ServedFrom(e, d);
    var j: nat :| d <= j && JoinServedAt(e, j);
    JoinStaysPossible(e, d, j);
    if e(j).op.StopJoin? && e(j).waiter.Done? {
      assert e(j + 1).op.StopDrain?;
    }
  }
}
