/**
 The exclusion of `ExecutorProperties.DoWorkExcludesWaiter` holds as long as no callback starts the
 executor again. Here is the other half: from every state after such a start there is a way to break
 it, so that a run keeps the exclusion in all its continuations exactly if it has no such start.
 */
module ExecutorRestart {
  import opened ExecutorProtocol
  import opened ExecutorInvariant
  import ExecutorProperties

  // ----- Continuing without further starts from callbacks -----

  ghost predicate Path(run: seq<State>) {
    |run| > 0 && forall i | 0 < i < |run| :: RunStep(false, run, i)
  }

  ghost predicate LeadsTo(a: State, s: State) {
    exists run: seq<State> :: Path(run) && run[0] == a && run[|run| - 1] == s
  }

  lemma Stay(s: State)
    ensures LeadsTo(s, s)
  {
    assert Path([s]) && [s][0] == s;
  }

  lemma Extend(a: State, s: State, s': State)
    requires LeadsTo(a, s) && Next(false, s, s')
    ensures LeadsTo(a, s')
  {
    var run :| Path(run) && run[0] == a && run[|run| - 1] == s;
    var run' := run + [s'];
    forall i: nat | 0 < i < |run'|
      ensures RunStep(false, run', i)
    {
      assert i < |run| ==> RunStep(false, run, i);
    }
    assert Path(run') && run'[0] == a && run'[|run'| - 1] == s';
  }

  lemma ExtendByWaitSide(a: State, s: State, s': State)
    requires LeadsTo(a, s) && WaitSideStep(s, s')
    ensures LeadsTo(a, s')
  {
    Extend(a, s, s');
  }

  lemma ExtendByHandOffSide(a: State, s: State, s': State)
    requires LeadsTo(a, s) && HandOffSideStep(s, s')
    ensures LeadsTo(a, s')
  {
    Extend(a, s, s');
  }

  lemma ExtendByMain(a: State, s: State, s': State)
    requires LeadsTo(a, s) && MainStep(false, s, s')
    ensures LeadsTo(a, s')
  {
    Extend(a, s, s');
  }

  predicate Settled(s: State) {
    s.ex.running && s.hm.sum > 0 && !s.hm.synchronizing && s.hm.rwlock == Open && s.ex.mutex == Free
  }

  /** A new thread gets into `rcl_wait` when handles are registered and nobody holds a lock. */
  lemma ThreadReachesRclWait(a: State, s0: State) returns (s9: State)
    requires LeadsTo(a, s0) && s0.waiter.RunInit? && Settled(s0)
    ensures LeadsTo(a, s9)
    ensures s9 == s0.(hm := s0.hm.(rwlock := Reading), waitSet := s0.hm.registered, waiter := Waiting)
  {
    var s1 := s0.(waiter := RunLoop);       ExtendByWaitSide(a, s0, s1);
    var s2 := s0.(waiter := SumRunning);    ExtendByWaitSide(a, s1, s2);
    var s3 := s0.(waiter := SumCheck);      ExtendByWaitSide(a, s2, s3);
    var s4 := s0.(waiter := StillRunning);  ExtendByWaitSide(a, s3, s4);
    var s5 := s0.(waiter := SyncCheck);     ExtendByWaitSide(a, s4, s5);
    var s6 := s0.(waiter := ReadLock);      ExtendByWaitSide(a, s5, s6);
    var s7 := s0.(hm := s0.hm.(rwlock := Reading), waiter := LockedRunning);
    ExtendByWaitSide(a, s6, s7);
    var s8 := s7.(waiter := LockedSum);     ExtendByWaitSide(a, s7, s8);
    s9 := s8.(waitSet := s0.hm.registered, waiter := Waiting);
    ExtendByWaitSide(a, s8, s9);
  }

  /** The main thread registers one handle, up to the exchange of the sum. */
  lemma WriteHandles(a: State, s0: State) returns (s4: State)
    requires LeadsTo(a, s0) && MayBegin(s0) && s0.hm.rwlock == Open
    ensures LeadsTo(a, s4)
    ensures s4 == s0.(hm := s0.hm.(synchronizing := true, rwlock := Writing, registered := [7], sum := 1),
                      op := SyncWrUnlock(s0.hm.sum, 1))
  {
    var s1 := s0.(op := SyncFlag([7]));
    ExtendByMain(a, s0, s1);
    var s2 := s0.(hm := s0.hm.(synchronizing := true), op := SyncWrLock([7]));
    ExtendByMain(a, s1, s2);
    var s3 := s2.(hm := s2.hm.(rwlock := Writing), op := SyncUpdate([7]));
    ExtendByMain(a, s2, s3);
    s4 := s3.(hm := s3.hm.(registered := [7], sum := 1), op := SyncWrUnlock(s0.hm.sum, 1));
    ExtendByMain(a, s3, s4);
  }

  /** `SynchronizeHandles` from beginning to end. */
  lemma Synchronize(a: State, s0: State) returns (s8: State)
    requires LeadsTo(a, s0) && MayBegin(s0) && s0.hm.rwlock == Open && !s0.hm.synchronizing
    ensures LeadsTo(a, s8)
    ensures s8 == s0.(hm := s0.hm.(registered := [7], sum := 1, syncSem := s0.hm.syncSem + 1, waitSem := s8.hm.waitSem))
  {
    var s4 := WriteHandles(a, s0);
    var s5 := s4.(hm := s4.hm.(rwlock := Open), op := SyncClear(s0.hm.sum, 1));
    ExtendByMain(a, s4, s5);
    var s6 := s5.(hm := s5.hm.(synchronizing := false), op := SyncPost(s0.hm.sum, 1));
    ExtendByMain(a, s5, s6);
    var s7 := s6.(hm := s6.hm.(syncSem := s0.hm.syncSem + 1), op := SyncWake(s0.hm.sum, 1));
    ExtendByMain(a, s6, s7);
    s8 := s7.(hm := s7.hm.(waitSem := if s0.hm.sum == 0 then s0.hm.waitSem + 1 else s0.hm.waitSem), op := Idle);
    ExtendByMain(a, s7, s8);
  }

  /** `Start` creates a thread between two events. */
  lemma StartThread(a: State, s0: State) returns (s1: State)
    requires LeadsTo(a, s0) && s0.op.Idle? && s0.work.NoWork? && !s0.ex.threadStarted
    ensures LeadsTo(a, s1)
    ensures s1 == s0.(ex := Exec(true, false, s0.ex.mutex, true, false, false, false, s0.ex.exception), waiter := RunInit)
  {
    s1 := s0.(ex := Exec(true, false, s0.ex.mutex, true, false, false, false, s0.ex.exception), waiter := RunInit);
    ExtendByMain(a, s0, s1);
  }

  /** A batch becomes ready and is stored. */
  lemma CollectBatch(a: State, s0: State) returns (s3: State)
    requires LeadsTo(a, s0) && s0.waiter.Waiting? && s0.waitSet == [7] && s0.hm.ready == []
    ensures LeadsTo(a, s3)
    ensures s3 == s0.(ex := s0.ex.(guard := false), hm := s0.hm.(ready := [7]),
                      log := s0.log.(collected := s0.log.collected + [[7]]), waiter := ReadUnlock)
  {
    var s1 := s0.(ex := s0.ex.(guard := false), waiter := Woken);
    ExtendByWaitSide(a, s0, s1);
    var s2 := s1.(waiter := Collecting);
    ExtendByWaitSide(a, s1, s2);
    s3 := s2.(hm := s2.hm.(ready := [7]), log := s2.log.(collected := s2.log.collected + [[7]]), waiter := ReadUnlock);
    assert RclWaitStep(s2, s3);
    ExtendByWaitSide(a, s2, s3);
  }

  /** The waiter sees that a batch is stored. */
  lemma FindBatch(a: State, s0: State) returns (s3: State)
    requires LeadsTo(a, s0) && s0.waiter.ReadUnlock? && s0.ex.running
    requires !s0.ex.asyncClosing && s0.hm.ready != []
    ensures LeadsTo(a, s3) && s3 == s0.(hm := s0.hm.(rwlock := Open), waiter := SendLock)
  {
    var s1 := s0.(hm := s0.hm.(rwlock := Open), waiter := AfterWait);
    ExtendByHandOffSide(a, s0, s1);
    var s2 := s1.(waiter := ReadyCheck);
    ExtendByHandOffSide(a, s1, s2);
    s3 := s1.(waiter := SendLock);
    ExtendByHandOffSide(a, s2, s3);
  }

  /** The waiter announces the stored batch under the mutex. */
  lemma Announce(a: State, s0: State) returns (s2: State)
    requires LeadsTo(a, s0) && s0.waiter.SendLock? && s0.ex.mutex == Free
    ensures LeadsTo(a, s2)
    ensures s2 == s0.(ex := s0.ex.(mutex := Waiter, workPending := true), waiter := SendUnlock)
  {
    var s1 := s0.(ex := s0.ex.(mutex := Waiter), waiter := SendSet);
    ExtendByHandOffSide(a, s0, s1);
    s2 := s1.(ex := s1.ex.(workPending := true), waiter := SendUnlock);
    ExtendByHandOffSide(a, s1, s2);
  }

  /** The waiter hands the stored batch over. */
  lemma HandOver(a: State, s0: State) returns (s4: State)
    requires LeadsTo(a, s0) && s0.waiter.SendLock? && s0.ex.mutex == Free
    ensures LeadsTo(a, s4)
    ensures s4 == s0.(ex := s0.ex.(workPending := true, asyncPending := true), waiter := CvLock)
  {
    var s2 := Announce(a, s0);
    var s3 := s2.(ex := s2.ex.(mutex := Free), waiter := AsyncSend);
    ExtendByHandOffSide(a, s2, s3);
    s4 := s3.(ex := s3.ex.(asyncPending := true), waiter := CvLock);
    ExtendByHandOffSide(a, s3, s4);
  }

  /** `DoWork` delivers the batch, and the callback begins to stop the executor. */
  lemma CallbackBeginsStop(a: State, s0: State) returns (s3: State)
    requires LeadsTo(a, s0) && s0.op.Idle? && s0.work.NoWork?
    requires s0.ex.asyncPending && s0.ex.threadStarted && !s0.ex.exception && s0.hm.ready == [7]
    ensures LeadsTo(a, s3)
    ensures s3 == s0.(ex := s0.ex.(asyncPending := false), hm := s0.hm.(ready := []),
                      log := s0.log.(settled := s0.log.settled + [Settlement([7], Delivered)]),
                      op := StopLock, work := Callback)
  {
    var s1 := s0.(ex := s0.ex.(asyncPending := false), work := Take);  ExtendByMain(a, s0, s1);
    var s2 := TakeReady(s1, Delivered).(work := Callback);  ExtendByMain(a, s1, s2);
    s3 := s2.(op := StopLock);  ExtendByMain(a, s2, s3);
  }

  /** `DoWork` delivers the batch, and the callback calls `Stop` up to its join. */
  lemma CallbackStops(a: State, s0: State) returns (s9: State)
    requires LeadsTo(a, s0) && s0.op.Idle? && s0.work.NoWork? && s0.waiter.CvLock?
    requires s0.ex == Exec(true, true, Free, true, false, true, false, false) && s0.hm.ready == [7]
    ensures LeadsTo(a, s9)
    ensures s9 == s0.(
      ex := Exec(false, true, Free, true, true, false, false, false),
      hm := s0.hm.(ready := [], waitSem := s0.hm.waitSem + 1),
      log := s0.log.(settled := s0.log.settled + [Settlement([7], Delivered)]),
      op := StopJoin, work := Callback)
  {
    var s3 := CallbackBeginsStop(a, s0);
    var s4 := s3.(ex := s3.ex.(mutex := Main), op := StopSet);  ExtendByMain(a, s3, s4);
    var s5 := s4.(ex := s4.ex.(running := false), op := StopUnlock);  ExtendByMain(a, s4, s5);
    var s6 := s5.(ex := s5.ex.(mutex := Free), op := StopNotify);  ExtendByMain(a, s5, s6);
    var s7 := s6.(op := StopPost);  ExtendByMain(a, s6, s7);
    var s8 := s7.(hm := s7.hm.(waitSem := s7.hm.waitSem + 1), op := StopTrigger);  ExtendByMain(a, s7, s8);
    s9 := s8.(ex := s8.ex.(guard := true), op := StopJoin);  ExtendByMain(a, s8, s9);
  }

  /** The waiter finds the executor stopped and does not go to sleep. */
  lemma LeavesCondVar(a: State, s0: State) returns (s3: State)
    requires LeadsTo(a, s0) && s0.waiter.CvLock? && !s0.ex.running && s0.ex.mutex == Free
    ensures LeadsTo(a, s3) && s3 == s0.(waiter := RunLoop)
  {
    var s1 := s0.(ex := s0.ex.(mutex := Waiter), waiter := CvCheck);
    ExtendByHandOffSide(a, s0, s1);
    var s2 := s1.(waiter := CvUnlock);
    ExtendByHandOffSide(a, s1, s2);
    s3 := s0.(waiter := RunLoop);
    ExtendByHandOffSide(a, s2, s3);
  }

  /** The thread that is being joined ends. */
  lemma ThreadEnds(a: State, s0: State) returns (s2: State)
    requires LeadsTo(a, s0) && s0.waiter.RunLoop? && !s0.ex.running
    ensures LeadsTo(a, s2) && s2 == s0.(waiter := Done)
  {
    var s1 := s0.(waiter := RunFini);
    ExtendByWaitSide(a, s0, s1);
    s2 := s0.(waiter := Done);
    ExtendByHandOffSide(a, s1, s2);
  }

  /** `Stop` returns to its caller. */
  lemma StopReturns(a: State, s0: State) returns (s3: State)
    requires LeadsTo(a, s0) && s0.op.StopJoin? && s0.waiter.Done? && s0.hm.ready == []
    ensures LeadsTo(a, s3)
    ensures s3 == s0.(ex := s0.ex.(threadStarted := false, asyncPending := false, asyncClosing := true),
                      hm := s0.hm.(registered := []), op := Idle)
  {
    var s1 := s0.(ex := s0.ex.(threadStarted := false), op := StopDrain);
    ExtendByMain(a, s0, s1);
    var s2 := s1.(op := StopClose);
    ExtendByMain(a, s1, s2);
    s3 := s2.(ex := s2.ex.(asyncPending := false, asyncClosing := true), hm := s2.hm.(registered := []), op := Idle);
    ExtendByMain(a, s2, s3);
  }

  // ----- Reachable states -----

  lemma ReachableFrom(a: State, s: State)
    requires Init(a) && LeadsTo(a, s)
    ensures Reachable(false, s)
  {
    var run :| Path(run) && run[0] == a && run[|run| - 1] == s;
    assert Run(false, run);
  }

  lemma ReachesOn(s: State, s': State)
    requires Reachable(false, s) && Next(false, s, s')
    ensures Reachable(false, s')
  {
    var run :| Run(false, run) && run[|run| - 1] == s;
    assert Path(run);
    Extend(run[0], s, s');
    ReachableFrom(run[0], s');
  }

  lemma {:induction false} PathReaches(run: seq<State>, n: nat)
    requires Path(run) && Reachable(false, run[0]) && n < |run|
    ensures Reachable(false, run[n])
  {
    if n > 0 {
      PathReaches(run, n - 1);
      assert RunStep(false, run, n);
      ReachesOn(run[n - 1], run[n]);
    }
  }

  // ----- The exclusion -----

  /** While `DoWork` has not cleared `work_pending_`, the waiter stays away from `rcl_wait`. */
  predicate Excluded(s: State) {
    InWork(s.work) ==> !InReadRegion(s.waiter)
  }

  /** Whatever happens from here on, short of a start from a callback, the exclusion holds. */
  ghost predicate ExcludedFromHere(s: State) {
    forall s' | LeadsTo(s, s') :: Excluded(s')
  }

  lemma ReachableIsExcluded(s: State)
    requires Reachable(false, s)
    ensures ExcludedFromHere(s)
  {
    forall s' | LeadsTo(s, s')
      ensures Excluded(s')
    {
      var run :| Path(run) && run[0] == s && run[|run| - 1] == s';
      PathReaches(run, |run| - 1);
      if InWork(s'.work) {
        ExecutorProperties.DoWorkExcludesWaiter(s');
      }
    }
  }

  /** Whenever a callback starts the executor, the new thread can get into `rcl_wait` beside it. */
  lemma CallbackStartBreaksExclusion(s: State, s1: State) returns (s3: State)
    requires Reachable(false, s) && s.work.Callback? && StartStep(true, s, s1)
    ensures LeadsTo(s1, s3) && s3.work.Callback? && s3.waiter.Waiting?
  {
    ReachableInv(s);
    Stay(s1);
    var s2 := Synchronize(s1, s1);
    s3 := ThreadReachesRclWait(s1, s2);
  }

  lemma NestedStep(s: State, s1: State)
    requires Next(true, s, s1) && !Next(false, s, s1)
    ensures s.work.Callback? && StartStep(true, s, s1)
  {
  }

  /** One step keeps the exclusion for the future exactly if it is not a start from a callback. */
  lemma StepExcludedIff(s: State, s1: State)
    requires Reachable(false, s) && Next(true, s, s1)
    ensures Next(false, s, s1) <==> ExcludedFromHere(s1)
  {
    if Next(false, s, s1) {
      ReachesOn(s, s1);
      ReachableIsExcluded(s1);
    } else {
      NestedStep(s, s1);
      var s3 := CallbackStartBreaksExclusion(s, s1);
      assert !Excluded(s3);
    }
  }

  ghost predicate StaysExcluded(run: seq<State>) {
    forall i {:trigger ExcludedFromHere(run[i])} | 0 <= i < |run| :: ExcludedFromHere(run[i])
  }

  lemma ExcludedStep(s: State, s1: State)
    requires Reachable(false, s) && Next(true, s, s1) && ExcludedFromHere(s1)
    ensures Reachable(false, s1) && Next(false, s, s1)
  {
    StepExcludedIff(s, s1);
    ReachesOn(s, s1);
  }

  lemma StartReaches(run: seq<State>)
    requires |run| > 0 && Init(run[0])
    ensures Reachable(false, run[0])
  {
    Stay(run[0]);
    ReachableFrom(run[0], run[0]);
  }

  /** The states of a run, as long as none of them lets the exclusion break. */
  lemma {:induction false} RunReaches(run: seq<State>, n: nat)
    requires Run(true, run) && n < |run| && StaysExcluded(run)
    ensures Reachable(false, run[n]) && (n > 0 ==> Next(false, run[n - 1], run[n]))
  {
    if n == 0 {
      StartReaches(run);
    } else {
      RunReaches(run, n - 1);
      assert RunStep(true, run, n) && ExcludedFromHere(run[n]);
      ExcludedStep(run[n - 1], run[n]);
    }
  }

  /** A run keeps the exclusion, now and in all continuations, exactly if no callback in it starts the executor. */
  lemma RunExcludedIff(run: seq<State>)
    requires Run(true, run)
    ensures Run(false, run) <==> StaysExcluded(run)
  {
    if Run(false, run) {
      StartReaches(run);
      forall i | 0 <= i < |run|
        ensures ExcludedFromHere(run[i])
      {
        PathReaches(run, i);
        ReachableIsExcluded(run[i]);
      }
    } else if StaysExcluded(run) {
      var i :| 0 < i < |run| && !RunStep(false, run, i);
      RunReaches(run, i);
    }
  }

  /** Such starts are possible: a callback that stops the executor can start it again before it returns. */
  lemma CallbackCanStart() returns (s: State)
    ensures Reachable(false, s) && s.op.Idle? && s.work.Callback? && !s.ex.threadStarted
  {
    var ex := Exec(false, false, Free, false, false, false, false, false);
    var a := State(ex, Manager(Open, false, 0, [], 0, 0, []), Log([], []), [], Done, Idle, NoWork);
    Stay(a);
    s := Synchronize(a, a);
    s := StartThread(a, s);
    s := ThreadReachesRclWait(a, s);
    s := CollectBatch(a, s);
    s := FindBatch(a, s);
    s := HandOver(a, s);
    s := CallbackStops(a, s);
    s := LeavesCondVar(a, s);
    s := ThreadEnds(a, s);
    s := StopReturns(a, s);
    ReachableFrom(a, s);
  }

  lemma WithNestedStarts(s: State, s1: State)
    requires Next(false, s, s1)
    ensures Next(true, s, s1)
  {
  }

  lemma NestedReachesOn(s: State, s': State)
    requires Reachable(true, s) && Next(true, s, s')
    ensures Reachable(true, s')
  {
    var run :| Run(true, run) && run[|run| - 1] == s;
    var run' := run + [s'];
    forall i: nat | 0 < i < |run'|
      ensures RunStep(true, run', i)
    {
      assert i < |run| ==> RunStep(true, run, i);
    }
    assert Run(true, run') && run'[|run'| - 1] == s';
  }

  lemma JoinedAt(run: seq<State>, path: seq<State>, i: nat)
    requires Run(true, run) && Path(path) && run[|run| - 1] == path[0]
    requires |run| <= i < |run + path[1..]|
    ensures RunStep(true, run + path[1..], i)
  {
    var all, k := run + path[1..], i - |run| + 1;
    assert RunStep(false, path, k);
    assert all[i - 1] == path[k - 1] && all[i] == path[k];
    WithNestedStarts(path[k - 1], path[k]);
  }

  lemma Joined(run: seq<State>, path: seq<State>)
    requires Run(true, run) && Path(path) && run[|run| - 1] == path[0]
    ensures Run(true, run + path[1..])
  {
    var all := run + path[1..];
    forall i: nat | 0 < i < |all|
      ensures RunStep(true, all, i)
    {
      if i < |run| {
        assert RunStep(true, run, i);
      } else {
        JoinedAt(run, path, i);
      }
    }
  }

  lemma JoinedReaches(run: seq<State>, path: seq<State>)
    requires Run(true, run) && Path(path) && run[|run| - 1] == path[0]
    ensures Reachable(true, path[|path| - 1])
  {
    Joined(run, path);
    var all := run + path[1..];
    assert all[|all| - 1] == path[|path| - 1];
  }

  lemma PathReachesOn(path: seq<State>)
    requires Path(path) && Reachable(true, path[0])
    ensures Reachable(true, path[|path| - 1])
  {
    var run :| Run(true, run) && run[|run| - 1] == path[0];
    JoinedReaches(run, path);
  }

  lemma NestedFrom(a: State, s: State)
    requires Reachable(true, a) && LeadsTo(a, s)
    ensures Reachable(true, s)
  {
    var path :| Path(path) && path[0] == a && path[|path| - 1] == s;
    PathReachesOn(path);
  }

  lemma NestedReachable(s: State)
    requires Reachable(false, s)
    ensures Reachable(true, s)
  {
    var run :| Run(false, run) && run[|run| - 1] == s;
    assert Path(run);
    assert Run(true, [run[0]]) && [run[0]][0] == run[0];
    NestedFrom(run[0], s);
  }

  lemma StartFromCallback(s: State) returns (s1: State)
    requires Reachable(false, s) && s.op.Idle? && s.work.Callback? && !s.ex.threadStarted
    ensures StartStep(true, s, s1) && Reachable(true, s1)
  {
    NestedReachable(s);
    s1 := s.(ex := Exec(true, false, s.ex.mutex, true, false, false, false, s.ex.exception), waiter := RunInit);
    assert StartStep(true, s, s1);
    NestedReachesOn(s, s1);
  }

  /**
   So with starts allowed inside callbacks, `DoWork` and the read-locked region can overlap: a
   callback stops the executor, starts it again and synchronizes its handles before it returns.
   */
  lemma RestartInCallbackBreaksExclusion() returns (s3: State)
    ensures Reachable(true, s3) && InWork(s3.work) && s3.waiter.Waiting?
  {
    var s := CallbackCanStart();
    var s1 := StartFromCallback(s);
    s3 := CallbackStartBreaksExclusion(s, s1);
    NestedFrom(s1, s3);
  }
}
