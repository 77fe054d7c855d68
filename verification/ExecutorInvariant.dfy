/**
 The invariant that holds in every reachable state of the executor protocol, and its preservation
 by each group of steps.
 */
module ExecutorInvariant {
  import opened ExecutorProtocol

  // ----- The inductive invariant -----

  predicate LocksInv(s: State) {
    && (s.ex.mutex == Waiter <==> (s.waiter.SendSet? || s.waiter.SendUnlock? || s.waiter.CvCheck? || s.waiter.CvUnlock?))
    && (s.ex.mutex == Main <==> s.op.StopSet? || s.op.StopUnlock? || s.work.GuardClear? || s.work.GuardUnlock?)
    && (s.hm.rwlock == Reading <==> InReadRegion(s.waiter))
    && (s.hm.rwlock == Writing <==> s.op.SyncUpdate? || s.op.SyncWrUnlock?)
    && (s.hm.synchronizing <==> s.op.SyncWrLock? || s.op.SyncUpdate? || s.op.SyncWrUnlock? || s.op.SyncClear?)
    && (s.op != Idle ==> s.work == NoWork || s.work == Callback)
  }

  predicate EpochInv(s: State) {
    && (!s.ex.threadStarted ==> s.waiter == Done)
    && (s.ex.asyncClosing ==> s.waiter == Done)
    && (s.op.StopDrain? || s.op.StopClose? ==> !s.ex.threadStarted)
    && (s.op.StopLock? || s.op.StopSet? || OwesTrigger(s.op) || s.op.StopJoin? ==> s.ex.threadStarted)
    && (s.ex.threadStarted ==> (!s.ex.running <==> OwesTrigger(s.op) || s.op.StopJoin?))
  }

  predicate WakeInv(s: State) {
    && (s.waiter == SyncWait ==> s.hm.syncSem > 0 || OwesSyncPost(s.op))
    && (s.waiter == SemWait && s.hm.sum > 0 ==> s.hm.waitSem > 0 || OwesWakePost(s.op))
    && ((s.waiter.SumCheck? || s.waiter.SemWait?) && !s.ex.running ==> s.hm.waitSem > 0 || OwesStopPost(s.op))
    && ((s.waiter.LockedSum? || s.waiter.Waiting?) && !s.ex.running ==> s.ex.guard || OwesTrigger(s.op))
    && (s.waiter == CvSleep && !s.ex.running ==> OwesStopNotify(s.op))
    && (s.waiter == CvSleep && !s.ex.workPending ==> (s.work.GuardUnlock? || s.work.GuardNotify?))
  }

  /** The waiter has handed a batch over and cannot re-enter `rcl_wait` before the guard clears. */
  predicate HandedOver(s: State) {
    || (InCvRegion(s.waiter) && s.ex.workPending)
    || (!s.ex.running && Leaving(s.waiter))
    || s.waiter == Done
  }

  predicate HandOverInv(s: State) {
    && (InWork(s.work) ==> HandedOver(s))
    && (s.ex.asyncPending ==> HandedOver(s))
    && (s.ex.asyncPending && InWork(s.work) ==> s.waiter == Done)
    && (InCvRegion(s.waiter) && s.ex.workPending ==> s.ex.asyncPending || InWork(s.work))
    && ((s.waiter.SendUnlock? || s.waiter.AsyncSend?) ==> s.ex.workPending)
  }

  predicate BatchInv(s: State) {
    && (s.waiter == Collecting ==> s.hm.ready == [])
    && ((s.waiter.Waiting? || s.waiter.Woken? || s.waiter.Collecting?) ==> s.waitSet == s.hm.registered)
    && (!s.ex.threadStarted && !s.op.StopDrain? ==> s.hm.ready == [])
    && Accounted(s.log, s.hm.ready)
  }

  /** The batches collected are those settled, in the same order, then the one still stored. */
  predicate Accounted(log: Log, ready: Batch) {
    && |log.collected| == |log.settled| + |Stored(ready)|
    && (forall i | 0 <= i < |log.settled| :: log.settled[i].batch == log.collected[i])
    && (ready != [] ==> log.collected[|log.settled|] == ready)
  }

  predicate Inv(s: State) {
    LocksInv(s) && EpochInv(s) && WakeInv(s) && HandOverInv(s) && BatchInv(s)
  }

  lemma InitInv(s: State)
    requires Init(s)
    ensures Inv(s)
  {
  }

  /** Bounds the steps the waiter can still take once `running_` is false. */
  function Rank(pc: WaiterPc): nat {
    match pc
    case RunInit => 27 case SumCheck => 26 case SemWait => 25 case SumRunning => 24
    case StillRunning => 23 case SyncCheck => 22 case SyncWait => 21 case ReadLock => 20
    case LockedRunning => 19 case LockedSum => 18 case Waiting => 17 case Woken => 16
    case Collecting => 15 case ReadUnlock => 14 case FailUnlock => 14 case AfterWait => 13
    case ReadyCheck => 12 case SendLock => 11 case SendSet => 10 case SendUnlock => 9
    case AsyncSend => 8 case CvSleep => 8 case CvLock => 7 case CvWake => 7 case CvCheck => 6
    case CvUnlock => 5 case RunLoop => 4 case RunFini => 3 case RunFail => 2 case FailSend => 1
    case Done => 0
  }

  /** A step stores a batch only where none is stored, and takes only by settling it. */
  predicate BatchesMove(s: State, s': State) {
    || (s'.hm.ready == s.hm.ready && s'.log == s.log)
    || (s.hm.ready == [] != s'.hm.ready && s'.log == s.log.(collected := s.log.collected + [s'.hm.ready]))
    || (s.hm.ready != [] == s'.hm.ready && |s'.log.settled| == |s.log.settled| + 1
        && s'.log == s.log.(settled := s'.log.settled)
        && s'.log.settled[..|s.log.settled|] == s.log.settled
        && s'.log.settled[|s.log.settled|].batch == s.hm.ready)
  }

  lemma LoopKeepsInv(s: State, s': State)
    requires Inv(s) && LoopStep(s, s')
    ensures Inv(s')
  {
  }

  lemma AwaitHandlesKeepsInv(s: State, s': State)
    requires Inv(s) && AwaitHandlesStep(s, s')
    ensures Inv(s')
  {
  }

  lemma AwaitSyncKeepsInv(s: State, s': State)
    requires Inv(s) && AwaitSyncStep(s, s')
    ensures Inv(s')
  {
  }

  lemma FillWaitSetKeepsInv(s: State, s': State)
    requires Inv(s) && FillWaitSetStep(s, s')
    ensures Inv(s')
  {
  }

  lemma RclWaitKeepsInv(s: State, s': State)
    requires Inv(s) && RclWaitStep(s, s')
    ensures Inv(s')
  {
  }

  lemma UnlockKeepsInv(s: State, s': State)
    requires Inv(s) && UnlockStep(s, s')
    ensures Inv(s')
  {
  }

  lemma AnnounceKeepsInv(s: State, s': State)
    requires Inv(s) && AnnounceStep(s, s')
    ensures Inv(s')
  {
  }

  lemma SendKeepsInv(s: State, s': State)
    requires Inv(s) && SendStep(s, s')
    ensures Inv(s')
  {
  }

  lemma CvKeepsInv(s: State, s': State)
    requires Inv(s) && CvStep(s, s')
    ensures Inv(s')
  {
  }

  lemma ExitKeepsInv(s: State, s': State)
    requires Inv(s) && ExitStep(s, s')
    ensures Inv(s')
  {
  }

  lemma SyncWriteKeepsInv(s: State, s': State)
    requires Inv(s) && SyncWriteStep(s, s')
    ensures Inv(s')
  {
  }

  lemma SyncSignalKeepsInv(s: State, s': State)
    requires Inv(s) && SyncSignalStep(s, s')
    ensures Inv(s')
  {
  }

  lemma StopFlagKeepsInv(s: State, s': State)
    requires Inv(s) && StopFlagStep(s, s')
    ensures Inv(s')
  {
  }

  lemma StopSignalKeepsInv(s: State, s': State)
    requires Inv(s) && StopSignalStep(s, s')
    ensures Inv(s')
  {
  }

  lemma StopJoinKeepsInv(s: State, s': State)
    requires Inv(s) && StopJoinStep(s, s')
    ensures Inv(s')
  {
  }

  lemma StopCloseKeepsInv(s: State, s': State)
    requires Inv(s) && StopCloseStep(s, s')
    ensures Inv(s')
  {
  }

  lemma StopDrainKeepsInv(s: State, s': State)
    requires Inv(s) && StopDrainStep(s, s')
    ensures Inv(s')
  {
  }

  lemma DispatchKeepsInv(s: State, s': State)
    requires Inv(s) && DispatchStep(s, s')
    ensures Inv(s')
  {
  }

  lemma TakeKeepsInv(s: State, s': State)
    requires Inv(s) && TakeStep(s, s')
    ensures Inv(s')
  {
  }

  lemma GuardKeepsInv(s: State, s': State)
    requires Inv(s) && GuardStep(s, s')
    ensures Inv(s')
  {
  }

  lemma NotifyKeepsInv(s: State, s': State)
    requires Inv(s) && NotifyStep(s, s')
    ensures Inv(s')
  {
  }

  lemma BeginKeepsInv(s: State, s': State)
    requires Inv(s) && BeginStep(s, s')
    ensures Inv(s')
  {
  }

  lemma EnvironmentKeepsInv(s: State, s': State)
    requires Inv(s) && EnvironmentStep(s, s')
    ensures Inv(s')
  {
  }

  lemma StartKeepsInv(s: State, s': State)
    requires Inv(s) && StartStep(false, s, s')
    ensures Inv(s')
  {
  }

  lemma WaiterKeepsInv(s: State, s': State)
    requires Inv(s) && WaiterStep(s, s')
    ensures Inv(s')
  {
    if LoopStep(s, s') { LoopKeepsInv(s, s'); }
    else if AwaitHandlesStep(s, s') { AwaitHandlesKeepsInv(s, s'); }
    else if AwaitSyncStep(s, s') { AwaitSyncKeepsInv(s, s'); }
    else if FillWaitSetStep(s, s') { FillWaitSetKeepsInv(s, s'); }
    else if RclWaitStep(s, s') { RclWaitKeepsInv(s, s'); }
    else if UnlockStep(s, s') { UnlockKeepsInv(s, s'); }
    else if AnnounceStep(s, s') { AnnounceKeepsInv(s, s'); }
    else if SendStep(s, s') { SendKeepsInv(s, s'); }
    else if CvStep(s, s') { CvKeepsInv(s, s'); }
    else { ExitKeepsInv(s, s'); }
  }

  lemma NextKeepsInv(s: State, s': State)
    requires Inv(s) && Next(false, s, s')
    ensures Inv(s')
  {
    if WaiterStep(s, s') { WaiterKeepsInv(s, s'); }
    else if EnvironmentStep(s, s') { EnvironmentKeepsInv(s, s'); }
    else if SyncWriteStep(s, s') { SyncWriteKeepsInv(s, s'); }
    else if SyncSignalStep(s, s') { SyncSignalKeepsInv(s, s'); }
    else if StopFlagStep(s, s') { StopFlagKeepsInv(s, s'); }
    else if StopSignalStep(s, s') { StopSignalKeepsInv(s, s'); }
    else if StopJoinStep(s, s') { StopJoinKeepsInv(s, s'); }
    else if StopCloseStep(s, s') { StopCloseKeepsInv(s, s'); }
    else if StopDrainStep(s, s') { StopDrainKeepsInv(s, s'); }
    else if DispatchStep(s, s') { DispatchKeepsInv(s, s'); }
    else if TakeStep(s, s') { TakeKeepsInv(s, s'); }
    else if GuardStep(s, s') { GuardKeepsInv(s, s'); }
    else if NotifyStep(s, s') { NotifyKeepsInv(s, s'); }
    else if BeginStep(s, s') { BeginKeepsInv(s, s'); }
    else { StartKeepsInv(s, s'); }
  }

  lemma WaitSideEffect(s: State, s': State)
    requires WaitSideStep(s, s') && (s.waiter.Collecting? ==> s.hm.ready == [])
    ensures BatchesMove(s, s')
    ensures s'.log.collected != s.log.collected ==>
              s.waiter.Collecting? && forall h :: h in s'.hm.ready ==> h in s.waitSet
  {
  }

  lemma WaitSideDescends(s: State, s': State)
    requires WaitSideStep(s, s') && !s.ex.running
    ensures s'.op == s.op && Rank(s'.waiter) < Rank(s.waiter)
  {
  }

  lemma HandOffSideFrame(s: State, s': State)
    requires HandOffSideStep(s, s')
    ensures s'.log == s.log && s'.hm.ready == s.hm.ready && s'.op == s.op
  {
  }

  lemma HandOffSideDescends(s: State, s': State)
    requires HandOffSideStep(s, s') && !s.ex.running
    ensures Rank(s'.waiter) < Rank(s.waiter)
  {
  }

  lemma MainMovesBatches(nested: bool, s: State, s': State)
    requires MainStep(nested, s, s')
    ensures BatchesMove(s, s')
  {
  }

  lemma {:induction false} RunInv(run: seq<State>, n: nat)
    requires Run(false, run) && n < |run|
    ensures Inv(run[n])
  {
    if n == 0 {
      InitInv(run[0]);
    } else {
      RunInv(run, n - 1);
      assert RunStep(false, run, n);
      NextKeepsInv(run[n - 1], run[n]);
    }
  }

  lemma ReachableInv(s: State)
    requires Reachable(false, s)
    ensures Inv(s)
  {
    var run :| Run(false, run) && run[|run| - 1] == s;
    RunInv(run, |run| - 1);
  }

  lemma {:induction false} BehaviorInv(e: nat -> State, i: nat)
    requires Behavior(e)
    ensures Inv(e(i))
  {
    if i == 0 {
      InitInv(e(0));
    } else {
      BehaviorInv(e, i - 1);
      assert StepAt(e, i - 1);
      NextKeepsInv(e(i - 1), e(i));
    }
  }
}
