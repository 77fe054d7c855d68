/**
 The protocol between the JavaScript main thread and the background waiter of `src/executor.cpp`,
 over the shared state of `src/handle_manager.cpp`, as a relation between states.

 Each thread has a program counter and every access to shared memory is a step of its own. The
 operating-system primitives are small state components: two counting semaphores, one mutex with
 its condition variable, one read-write lock, a sticky guard condition and a coalescing async send.
 */
module ExecutorProtocol {

  type Handle = nat
  type Batch = seq<Handle>

  datatype MutexOwner = Free | Main | Waiter
  datatype RwLock = Open | Reading | Writing

  /** Where the background thread is (`Executor::Run` and `WaitForReadyCallbacks`). */
  datatype WaiterPc =
    | RunInit | RunLoop
    | SumRunning | SumCheck | SemWait | StillRunning
    | SyncCheck | SyncWait
    | ReadLock | LockedRunning | LockedSum | Waiting | Woken | Collecting | ReadUnlock | FailUnlock
    | AfterWait | ReadyCheck
    | SendLock | SendSet | SendUnlock | AsyncSend
    | CvLock | CvCheck | CvSleep | CvWake | CvUnlock
    | RunFini | RunFail | FailSend | Done

  /** What the main thread is in the middle of: nothing, `SynchronizeHandles` or `Stop`. */
  datatype MainOp =
    | Idle
    | SyncFlag(handles: Batch)
    | SyncWrLock(handles: Batch)
    | SyncUpdate(handles: Batch)
    | SyncWrUnlock(sumWas: nat, sumNow: nat)
    | SyncClear(sumWas: nat, sumNow: nat)
    | SyncPost(sumWas: nat, sumNow: nat)
    | SyncWake(sumWas: nat, sumNow: nat)
    | StopLock | StopSet | StopUnlock | StopNotify | StopPost | StopTrigger | StopJoin
    | StopDrain | StopClose

  /** How far the main thread is inside `DoWork`; an operation may be nested in `Callback`. */
  datatype WorkPc = NoWork | Take | Callback | GuardLock | GuardClear | GuardUnlock | GuardNotify

  datatype Fate = Delivered | Dropped
  datatype Settlement = Settlement(batch: Batch, fate: Fate)

  /** The fields of `Executor` that the two threads share, and `g_exception_ptr`. */
  datatype Exec = Exec(
    running: bool,
    workPending: bool,
    mutex: MutexOwner,
    threadStarted: bool,
    guard: bool,               // the interrupt guard condition has been triggered
    asyncPending: bool,        // uv_async_send() not yet dispatched
    asyncClosing: bool,
    exception: bool)

  /** The fields of `HandleManager`; `registered` stands for its handle vectors. */
  datatype Manager = Manager(
    rwlock: RwLock,
    synchronizing: bool,
    sum: nat,
    registered: Batch,
    syncSem: nat,
    waitSem: nat,
    ready: Batch)

  /** History: every non-empty batch ever stored, and what became of those taken, oldest first. */
  datatype Log = Log(collected: seq<Batch>, settled: seq<Settlement>)

  datatype State = State(
    ex: Exec,
    hm: Manager,
    log: Log,
    waitSet: Batch,
    waiter: WaiterPc,
    op: MainOp,
    work: WorkPc)

  // ----- Initial state: both constructors have run and no thread exists -----

  ghost predicate Init(s: State) {
    && s.ex == Exec(false, false, Free, false, false, false, false, false)
    && s.hm == Manager(Open, false, 0, [], 0, 0, [])
    && s.log == Log([], [])
    && s.waitSet == [] && s.waiter == Done && s.op == Idle && s.work == NoWork
  }

  // ----- The background thread: one predicate per group of statements -----

  /** Thread entry and the loop test of `Run`. */
  ghost predicate LoopStep(s: State, s': State) {
    match s.waiter
    case RunInit => s' == s.(waiter := RunLoop) || s' == s.(waiter := RunFail)
    case RunLoop => s' == s.(waiter := if s.ex.running then SumRunning else RunFini)
    case _ => false
  }

  /** Waiting for the first handle, re-testing after every token. */
  ghost predicate AwaitHandlesStep(s: State, s': State) {
    match s.waiter
    case SumRunning => s' == s.(waiter := if s.ex.running then SumCheck else StillRunning)
    case SumCheck => s' == s.(waiter := if s.hm.sum == 0 then SemWait else StillRunning)
    case SemWait => s.hm.waitSem > 0 && s' == s.(hm := s.hm.(waitSem := s.hm.waitSem - 1), waiter := SumRunning)
    case _ => false
  }

  /** Letting a synchronization in progress finish first. */
  ghost predicate AwaitSyncStep(s: State, s': State) {
    match s.waiter
    case StillRunning => s' == s.(waiter := if s.ex.running then SyncCheck else AfterWait)
    case SyncCheck => s' == s.(waiter := if s.hm.synchronizing then SyncWait else ReadLock)
    case SyncWait => s.hm.syncSem > 0 && s' == s.(hm := s.hm.(syncSem := s.hm.syncSem - 1), waiter := ReadLock)
    case _ => false
  }

  /** The re-checks under the read lock; building the wait set can fail. */
  ghost predicate FillWaitSetStep(s: State, s': State) {
    match s.waiter
    case ReadLock => s.hm.rwlock == Open && s' == s.(hm := s.hm.(rwlock := Reading), waiter := LockedRunning)
    case LockedRunning => s' == s.(waiter := if s.ex.running then LockedSum else ReadUnlock)
    case LockedSum =>
      if s.hm.sum == 0 then s' == s.(waiter := ReadUnlock)
      else s' == s.(waiter := FailUnlock) || s' == s.(waitSet := s.hm.registered, waiter := Waiting)
    case _ => false
  }

  /**
   `rcl_wait` may return at any time, well or badly, and consumes the trigger; it must return once
   the guard is triggered, which `WaiterEnabled` says. An untaken batch stops the collection. A
   failed collection keeps what it stored, and is reported only after a timeout.
   */
  ghost predicate RclWaitStep(s: State, s': State) {
    match s.waiter
    case Waiting =>
      || s' == s.(ex := s.ex.(guard := false), waiter := Woken)
      || s' == s.(ex := s.ex.(guard := false), waiter := FailUnlock)
    case Woken => s' == s.(waiter := if s.hm.ready != [] then ReadUnlock else Collecting)
    case Collecting =>
      && (s'.waiter.ReadUnlock? || s'.waiter.FailUnlock?)
      && (forall h :: h in s'.hm.ready ==> h in s.waitSet || h in s.hm.ready)
      && (if s'.hm.ready == s.hm.ready then s' == s.(waiter := s'.waiter)
          else
            && s'.hm.ready != []
            && s' == s.(hm := s.hm.(ready := s'.hm.ready), log := s.log.(collected := s.log.collected + [s'.hm.ready]),
                        waiter := s'.waiter))
    case _ => false
  }

  /** Leaving the read-locked scope and clearing the wait set. */
  ghost predicate UnlockStep(s: State, s': State) {
    match s.waiter
    case ReadUnlock =>
      || s' == s.(hm := s.hm.(rwlock := Open), waiter := AfterWait)
      || s' == s.(hm := s.hm.(rwlock := Open), waiter := RunFail)
    case FailUnlock => s' == s.(hm := s.hm.(rwlock := Open), waiter := RunFail)
    case AfterWait => s' == s.(waiter := if s.ex.running then ReadyCheck else RunFini)
    case _ => false
  }

  /** Announcing work: `work_pending_` under the mutex. */
  ghost predicate AnnounceStep(s: State, s': State) {
    match s.waiter
    case ReadyCheck => s' == s.(waiter := if !s.ex.asyncClosing && s.hm.ready != [] then SendLock else RunLoop)
    case SendLock => s.ex.mutex == Free && s' == s.(ex := s.ex.(mutex := Waiter), waiter := SendSet)
    case SendSet => s' == s.(ex := s.ex.(workPending := true), waiter := SendUnlock)
    case _ => false
  }

  /** Waking the event loop. */
  ghost predicate SendStep(s: State, s': State) {
    match s.waiter
    case SendUnlock => s' == s.(ex := s.ex.(mutex := Free), waiter := AsyncSend)
    case AsyncSend => s' == s.(ex := s.ex.(asyncPending := true), waiter := CvLock)
    case CvLock => s.ex.mutex == Free && s' == s.(ex := s.ex.(mutex := Waiter), waiter := CvCheck)
    case _ => false
  }

  /** The condition-variable loop: sleeping releases the mutex in the same step. */
  ghost predicate CvStep(s: State, s': State) {
    match s.waiter
    case CvCheck =>
      if !s.ex.workPending || !s.ex.running then s' == s.(waiter := CvUnlock)
      else s' == s.(ex := s.ex.(mutex := Free), waiter := CvSleep)
    case CvWake => s.ex.mutex == Free && s' == s.(ex := s.ex.(mutex := Waiter), waiter := CvCheck)
    case CvUnlock => s' == s.(ex := s.ex.(mutex := Free), waiter := RunLoop)
    case _ => false
  }

  /** Thread exit, well or with an exception to report. */
  ghost predicate ExitStep(s: State, s': State) {
    match s.waiter
    case RunFini => s' == s.(waiter := Done) || s' == s.(waiter := RunFail)
    case RunFail => s' == s.(ex := s.ex.(exception := true), waiter := FailSend)
    case FailSend => s' == s.(ex := s.ex.(asyncPending := true), waiter := Done)
    case _ => false
  }

  /** From the loop test to the end of the collection. */
  ghost predicate WaitSideStep(s: State, s': State) {
    || LoopStep(s, s') || AwaitHandlesStep(s, s') || AwaitSyncStep(s, s') || FillWaitSetStep(s, s')
    || RclWaitStep(s, s')
  }

  /** From the end of the collection back to the loop test, or out of the thread. */
  ghost predicate HandOffSideStep(s: State, s': State) {
    UnlockStep(s, s') || AnnounceStep(s, s') || SendStep(s, s') || CvStep(s, s') || ExitStep(s, s')
  }

  ghost predicate WaiterStep(s: State, s': State) {
    WaitSideStep(s, s') || HandOffSideStep(s, s')
  }

  /** The waiter can take its next step without help: blocking calls only when they cannot block. */
  predicate WaiterEnabled(s: State) {
    match s.waiter
    case SemWait => s.hm.waitSem > 0
    case SyncWait => s.hm.syncSem > 0
    case ReadLock => s.hm.rwlock == Open
    case Waiting => s.ex.guard
    case SendLock => s.ex.mutex == Free
    case CvLock => s.ex.mutex == Free
    case CvWake => s.ex.mutex == Free
    case CvSleep => false
    case Done => false
    case _ => true
  }

  // ----- The main thread -----

  function NotifyWaiter(s: State): State {
    if s.waiter == CvSleep then s.(waiter := CvWake) else s
  }

  function Stored(ready: Batch): seq<Batch> {
    if ready == [] then [] else [ready]
  }

  /** `TakeReadyHandles`: empties the hand-off vector and records what became of its content. */
  function TakeReady(s: State, fate: Fate): State {
    if s.hm.ready == [] then s
    else s.(hm := s.hm.(ready := []), log := s.log.(settled := s.log.settled + [Settlement(s.hm.ready, fate)]))
  }

  /** May the main thread begin an operation now? Between events, or in user code of a callback. */
  predicate MayBegin(s: State) {
    s.op == Idle && (s.work == NoWork || s.work == Callback)
  }

  /** `SynchronizeHandles` up to the exchange of the sum. */
  ghost predicate SyncWriteStep(s: State, s': State) {
    match s.op
    case SyncFlag(hs) => s' == s.(hm := s.hm.(synchronizing := true), op := SyncWrLock(hs))
    case SyncWrLock(hs) => s.hm.rwlock == Open && s' == s.(hm := s.hm.(rwlock := Writing), op := SyncUpdate(hs))
    case SyncUpdate(hs) => s' == s.(hm := s.hm.(registered := hs, sum := |hs|), op := SyncWrUnlock(s.hm.sum, |hs|))
    case _ => false
  }

  /** `SynchronizeHandles` from the release of the write lock on: the two posts. */
  ghost predicate SyncSignalStep(s: State, s': State) {
    match s.op
    case SyncWrUnlock(was, now) => s' == s.(hm := s.hm.(rwlock := Open), op := SyncClear(was, now))
    case SyncClear(was, now) => s' == s.(hm := s.hm.(synchronizing := false), op := SyncPost(was, now))
    case SyncPost(was, now) => s' == s.(hm := s.hm.(syncSem := s.hm.syncSem + 1), op := SyncWake(was, now))
    case SyncWake(was, now) =>
      s' == s.(hm := s.hm.(waitSem := if was == 0 && now > 0 then s.hm.waitSem + 1 else s.hm.waitSem), op := Idle)
    case _ => false
  }

  /** `Stop` clearing `running_` under the mutex. */
  ghost predicate StopFlagStep(s: State, s': State) {
    match s.op
    case StopLock => s.ex.mutex == Free && s' == s.(ex := s.ex.(mutex := Main), op := StopSet)
    case StopSet => s' == s.(ex := s.ex.(running := false), op := StopUnlock)
    case StopUnlock => s' == s.(ex := s.ex.(mutex := Free), op := StopNotify)
    case _ => false
  }

  /** `Stop` waking the waiter wherever it may be blocked. */
  ghost predicate StopSignalStep(s: State, s': State) {
    match s.op
    case StopNotify => s' == NotifyWaiter(s).(op := StopPost)
    case StopPost => s' == s.(hm := s.hm.(waitSem := s.hm.waitSem + 1), op := StopTrigger)
    case StopTrigger => s' == s.(ex := s.ex.(guard := true), op := StopJoin)
    case _ => false
  }

  /** `Stop` joining the thread. */
  ghost predicate StopJoinStep(s: State, s': State) {
    s.op == StopJoin && s.waiter.Done? && s' == s.(ex := s.ex.(threadStarted := false), op := StopDrain)
  }

  /** `Stop` draining the hand-off vector. */
  ghost predicate StopDrainStep(s: State, s': State) {
    s.op == StopDrain && s' == TakeReady(s, Dropped).(op := StopClose)
  }

  /** `Stop` closing the async handle; its caller clears the handle vectors afterwards. */
  ghost predicate StopCloseStep(s: State, s': State) {
    s.op == StopClose &&
    s' == s.(ex := s.ex.(asyncPending := false, asyncClosing := true), hm := s.hm.(registered := []), op := Idle)
  }

  /** `DoWork` being entered from the event loop, and the end of the user callbacks. */
  ghost predicate DispatchStep(s: State, s': State) {
    s.op == Idle &&
    match s.work
    case NoWork => s.ex.asyncPending && s' == s.(ex := s.ex.(asyncPending := false), work := Take)
    case Callback => s' == s.(work := GuardLock)
    case _ => false
  }

  /** `ExecuteReadyHandles`: report a pending exception, or take the batch and call the delegate. */
  ghost predicate TakeStep(s: State, s': State) {
    && s.op == Idle && s.work.Take?
    && (if s.ex.exception then s' == s.(ex := s.ex.(exception := false), work := GuardLock)
        else s' == TakeReady(s, Delivered).(work := Callback))
  }

  /** The destructor of the guard object in `DoWork`: clearing the flag, then waking the waiter. */
  ghost predicate GuardStep(s: State, s': State) {
    s.op == Idle &&
    match s.work
    case GuardLock => s.ex.mutex == Free && s' == s.(ex := s.ex.(mutex := Main), work := GuardClear)
    case GuardClear => s' == s.(ex := s.ex.(workPending := false), work := GuardUnlock)
    case _ => false
  }

  ghost predicate NotifyStep(s: State, s': State) {
    s.op == Idle &&
    match s.work
    case GuardUnlock => s' == s.(ex := s.ex.(mutex := Free), work := GuardNotify)
    case GuardNotify => s' == NotifyWaiter(s).(work := NoWork)
    case _ => false
  }

  /** `Start` succeeding: `nested` says whether a callback of a running `DoWork` may do this. */
  ghost predicate StartStep(nested: bool, s: State, s': State) {
    && s.op == Idle && !s.ex.threadStarted
    && (s.work == NoWork || (nested && s.work == Callback))
    && s' == s.(ex := s.ex.(workPending := false, running := true, threadStarted := true, guard := false,
                            asyncPending := false, asyncClosing := false), waiter := RunInit)
  }

  ghost predicate BeginStep(s: State, s': State) {
    && MayBegin(s)
    && ((s.ex.threadStarted && s' == s.(op := StopLock))
        || (exists hs: Batch :: s' == s.(op := SyncFlag(hs))))
  }

  ghost predicate MainStep(nested: bool, s: State, s': State) {
    || SyncWriteStep(s, s') || SyncSignalStep(s, s')
    || StopFlagStep(s, s') || StopSignalStep(s, s') || StopJoinStep(s, s') || StopDrainStep(s, s') || StopCloseStep(s, s')
    || DispatchStep(s, s') || TakeStep(s, s') || GuardStep(s, s') || NotifyStep(s, s')
    || StartStep(nested, s, s') || BeginStep(s, s')
  }

  /** Spurious wake-ups, and other executors reading and writing the exception they share. */
  ghost predicate EnvironmentStep(s: State, s': State) {
    || (s.waiter == CvSleep && s' == s.(waiter := CvWake))
    || s' == s.(ex := s.ex.(exception := s'.ex.exception))
  }

  ghost predicate Next(nested: bool, s: State, s': State) {
    WaiterStep(s, s') || MainStep(nested, s, s') || EnvironmentStep(s, s')
  }

  // ----- Regions of the two program counters -----

  predicate InReadRegion(pc: WaiterPc) {
    (pc.LockedRunning? || pc.LockedSum? || pc.Waiting? || pc.Woken? || pc.Collecting? || pc.ReadUnlock? || pc.FailUnlock?)
  }

  predicate InCvRegion(pc: WaiterPc) {
    (pc.CvLock? || pc.CvCheck? || pc.CvSleep? || pc.CvWake?)
  }

  predicate Leaving(pc: WaiterPc) {
    (pc.CvUnlock? || pc.RunLoop? || pc.RunFini? || pc.RunFail? || pc.FailSend? || pc.Done?)
  }

  /** From the entry of `DoWork` until its guard has cleared `work_pending_`. */
  predicate InWork(w: WorkPc) {
    (w.Take? || w.Callback? || w.GuardLock? || w.GuardClear?)
  }

  predicate OwesSyncPost(op: MainOp) {
    op.SyncWrLock? || op.SyncUpdate? || op.SyncWrUnlock? || op.SyncClear? || op.SyncPost?
  }

  predicate OwesWakePost(op: MainOp) {
    (op.SyncWrUnlock? || op.SyncClear? || op.SyncPost? || op.SyncWake?) && op.sumWas == 0 && op.sumNow > 0
  }

  predicate OwesStopNotify(op: MainOp) {
    op.StopUnlock? || op.StopNotify?
  }

  predicate OwesStopPost(op: MainOp) {
    OwesStopNotify(op) || op.StopPost?
  }

  predicate OwesTrigger(op: MainOp) {
    OwesStopPost(op) || op.StopTrigger?
  }

  // ----- Runs -----

  /** A finite run; `nested` allows `Start` from inside a callback. */
  ghost predicate Run(nested: bool, run: seq<State>) {
    && |run| > 0 && Init(run[0])
    && forall i | 0 < i < |run| :: RunStep(nested, run, i)
  }

  ghost predicate RunStep(nested: bool, run: seq<State>, i: nat)
    requires 0 < i < |run|
  {
    Next(nested, run[i - 1], run[i])
  }

  ghost predicate Reachable(nested: bool, s: State) {
    exists run: seq<State> :: Run(nested, run) && run[|run| - 1] == s
  }

  ghost predicate StepAt(e: nat -> State, i: nat) {
    Next(false, e(i), e(i + 1))
  }

  /** An infinite run without nested starts. */
  ghost predicate Behavior(e: nat -> State) {
    Init(e(0)) && forall i: nat :: StepAt(e, i)
  }

  /** The waiter steps at `i`, or its next step could block. */
  ghost predicate WaiterServedAt(e: nat -> State, i: nat) {
    WaiterStep(e(i), e(i + 1)) || !WaiterEnabled(e(i))
  }

  /** `uv_thread_join` returns at `i`, or is not being called on an ended thread. */
  ghost predicate JoinServedAt(e: nat -> State, i: nat) {
    StopJoinStep(e(i), e(i + 1)) || !e(i).op.StopJoin? || !e(i).waiter.Done?
  }

  ghost predicate ServedFrom(e: nat -> State, i: nat) {
    && (exists j: nat :: i <= j && WaiterServedAt(e, j))
    && (exists j: nat :: i <= j && JoinServedAt(e, j))
  }

  /** Weak fairness: no thread is passed over for ever while its next step cannot block. */
  ghost predicate Fair(e: nat -> State) {
    forall i: nat :: ServedFrom(e, i)
  }
}
