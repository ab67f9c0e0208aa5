/** What a step does to the record of each task and to where each thread is, in one function for all steps. */
module SchedulerEffects {
  import opened Atomic
  import opened HeapOrder
  import opened Wrappers
  import opened Scheduler
  import RW = OSMutexRW

  // ----- Tasks -----

  predicate HasTask(pc: WorkerPc) { !pc.Waiting? && !pc.Peeking? && !pc.Blocking? }

  function TaskOf(s: State, w: ThreadId): Option<TaskId> {
    if w < |s.threads| && HasTask(s.threads[w].pc) then Some(s.threads[w].pc.task) else None
  }

  function ReadBy(s: State, w: ThreadId): Word {
    if w < |s.threads| && s.threads[w].pc.Reading? then s.threads[w].pc.events else 0
  }

  /** The thread is in a Run under the write lock, or about to be. */
  predicate InWriteRun(s: State, w: ThreadId) {
    w < |s.threads| && HasMode(s.threads[w].pc) && s.threads[w].pc.mode == RW.Write
  }

  predicate HasMode(pc: WorkerPc) { pc.Locking? || pc.InLock? || pc.Running? || pc.Reading? || pc.Leaving? }

  /** The task the step is about. */
  function Subject(s: State, step: Step): (t: Option<TaskId>) {
    match step
    case Create(t) => Some(t)
    case SetDefaultThread(t, _) => Some(t)
    case SetThreadPicker(t, _) => Some(t)
    case SignalOr(_, t, _) => Some(t)
    case SignalDefault(id) => if id in s.signals then Some(s.signals[id].task) else None
    case SignalTest(_) => None
    case SignalPick(_) => None
    case SignalEnQueue(_) => None
    case Tick(_) => None
    case _ => TaskOf(s, step.w)
  }

  /** The step is one of a task thread. */
  predicate OfThread(step: Step) { !IsOuterStep(step) && !IsSignalStep(step) }

  /** How a step changes an event word. */
  datatype Change = Same | Ored(x: Word) | Subbed(events: Word) | Retired

  function WordAfter(e: Word, c: Change): Word {
    match c
    case Same => e
    case Ored(x) => Or(e, x)
    case Subbed(events) => Sub(e, events)
    case Retired => 0
  }

  /** The record of the task a step is about, after the step. */
  function Changed(s: State, step: Step, task: Task): Task {
    match step
    case SetDefaultThread(_, thread) => task.(fDefaultThread := thread)
    case SetThreadPicker(_, picker) => task.(pickerToUse := picker)
    case SignalOr(_, _, events) => task.(fEvents := WordAfter(task.fEvents, Ored(Or(events, KALIVE))))
    case SignalDefault(_) => task.(fUseThisThread := task.fDefaultThread)
    case StartRun(_) => task.(fUseThisThread := None)
    case SubEvents(w) => task.(fEvents := WordAfter(task.fEvents, Subbed(ReadBy(s, w))))
    case ForceSameThread(w) => task.(fUseThisThread := Some(w))
    case CallLocked(w) => task.(fUseThisThread := Some(w), fWriteLock := true)
    case GlobalUnlock(_, _) => task.(fWriteLock := false)
    case EndRun(w, _) => if InWriteRun(s, w) then task.(fWriteLock := false) else task
    case CompareAndStore(_) => if task.fEvents == KALIVE then task.(fEvents := WordAfter(task.fEvents, Retired)) else task
    case SetIdle(_) => task.(fEvents := WordAfter(task.fEvents, Ored(KIDLE_EVENT)))
    case _ => task
  }

  function TaskAfter(s: State, step: Step, t: TaskId): Task
    requires t in s.tasks
  {
    if Subject(s, step) == Some(t) then Changed(s, step, s.tasks[t]) else s.tasks[t]
  }

  ghost predicate TaskIs(s: State, t: TaskId, task: Task) { t in s.tasks && s.tasks[t] == task }

  predicate Deletes(s: State, step: Step, t: TaskId) { step.Delete? && TaskOf(s, step.w) == Some(t) }

  lemma OuterEffect(s: State, step: Step, t: TaskId)
    requires IsOuterStep(step) && OuterEnabled(s, step) && t in s.tasks
    ensures TaskIs(ApplyOuter(s, step), t, TaskAfter(s, step, t))
  {
    match step
    case Create(_) =>
    case SetDefaultThread(_, _) =>
    case SetThreadPicker(_, _) =>
    case Tick(_) =>
  }

  lemma SignalEffect(s: State, step: Step, t: TaskId)
    requires IsSignalStep(step) && SignalEnabled(s, step) && t in s.tasks
    ensures TaskIs(ApplySignal(s, step), t, TaskAfter(s, step, t))
  {
    match step
    case SignalOr(_, _, _) =>
    case SignalTest(_) =>
    case SignalDefault(_) =>
    case SignalPick(_) =>
    case SignalEnQueue(_) =>
  }

  lemma WaitEffect(s: State, step: Step, t: TaskId)
    requires IsWaitStep(step) && WaitEnabled(s, step) && t in s.tasks
    ensures TaskIs(ApplyWait(s, step), t, TaskAfter(s, step, t))
  {
    match step
    case ReadClock(_) =>
    case TakeTimer(_) =>
    case StartBlocking(_) =>
    case DeQueue(_) =>
  }

  lemma RunEffect(s: State, step: Step, t: TaskId)
    requires IsRunStep(step) && !IsRunCall(step) && RunEnabled(s, step) && t in s.tasks
    ensures TaskIs(ApplyRun(s, step), t, TaskAfter(s, step, t))
  {
    match step
    case StartRun(_) =>
    case SubEvents(_) =>
    case EndRun(_, _) =>
  }

  /** The step leaves its thread where it is in Run, or about to subtract in GetEvents. */
  predicate IsRunCall(step: Step) { step.ReadEvents? || step.ForceSameThread? || step.CallLocked? }

  lemma RunCallEffect(s: State, step: Step, t: TaskId)
    requires IsRunCall(step) && RunEnabled(s, step) && t in s.tasks
    ensures TaskIs(ApplyRun(s, step), t, TaskAfter(s, step, t))
  {
    match step
    case ReadEvents(_) =>
    case ForceSameThread(_) =>
    case CallLocked(_) =>
  }

  lemma LockEffect(s: State, step: Step, t: TaskId)
    requires IsLockStep(step) && !IsUnlock(step) && LockEnabled(s, step) && t in s.tasks
    ensures TaskIs(ApplyLockStep(s, step), t, TaskAfter(s, step, t))
  {
    match step
    case LockMutex(_) =>
    case RetestMutex(_) =>
    case WakeUp(_) =>
  }

  predicate IsUnlock(step: Step) { step.GlobalUnlock? || step.UnlockMutex? }

  lemma UnlockEffect(s: State, step: Step, t: TaskId)
    requires IsUnlock(step) && LockEnabled(s, step) && t in s.tasks
    ensures TaskIs(ApplyLockStep(s, step), t, TaskAfter(s, step, t))
  {
    match step
    case GlobalUnlock(_, _) =>
    case UnlockMutex(_, _) =>
  }

  lemma LeaveEffect(s: State, step: Step, t: TaskId)
    requires (step.InsertTimer? || step.SetIdle?) && LeaveEnabled(s, step) && t in s.tasks
    ensures TaskIs(ApplyLeave(s, step), t, TaskAfter(s, step, t))
  {
    match step
    case InsertTimer(_) =>
    case SetIdle(_) =>
  }

  lemma CompareAndStoreEffect(s: State, w: ThreadId, t: TaskId)
    requires LeaveEnabled(s, CompareAndStore(w)) && t in s.tasks
    ensures TaskIs(ApplyCompareAndStore(s, w), t, TaskAfter(s, CompareAndStore(w), t))
  {
  }

  lemma DeleteEffect(s: State, w: ThreadId, t: TaskId)
    requires LeaveEnabled(s, Delete(w)) && t in s.tasks && t != s.threads[w].pc.task
    ensures TaskIs(ApplyDelete(s, w), t, s.tasks[t])
  {
  }

  /** A step changes no task but its own, and that one as Changed says. */
  lemma StepEffect(s: State, step: Step, t: TaskId)
    requires Enabled(s, step) && t in s.tasks && !Deletes(s, step, t)
    ensures TaskIs(Apply(s, step), t, TaskAfter(s, step, t))
  {
    if IsOuterStep(step) {
      OuterEffect(s, step, t);
    } else if IsSignalStep(step) {
      SignalEffect(s, step, t);
    } else if IsWaitStep(step) {
      WaitEffect(s, step, t);
    } else if IsRunStep(step) {
      if IsRunCall(step) { RunCallEffect(s, step, t); } else { RunEffect(s, step, t); }
    } else if IsLockStep(step) {
      if IsUnlock(step) { UnlockEffect(s, step, t); } else { LockEffect(s, step, t); }
    } else {
      match step
      case Delete(w) => DeleteEffect(s, w, t);
      case CompareAndStore(w) => CompareAndStoreEffect(s, w, t);
      case InsertTimer(_) => LeaveEffect(s, step, t);
      case SetIdle(_) => LeaveEffect(s, step, t);
    }
  }

  // ----- Its fields -----

  /** What the step does to the event word of a task it does not delete. */
  function ChangeOf(s: State, step: Step, t: TaskId): Change
    requires t in s.tasks
  {
    if Subject(s, step) != Some(t) then Same
    else
      match step
      case SignalOr(_, _, x) => Ored(Or(x, KALIVE))
      case SubEvents(w) => Subbed(ReadBy(s, w))
      case SetIdle(_) => Ored(KIDLE_EVENT)
      case CompareAndStore(_) => if s.tasks[t].fEvents == KALIVE then Retired else Same
      case _ => Same
  }

  /** fUseThisThread after the step. */
  function UseAfter(s: State, step: Step, t: TaskId): Option<ThreadId>
    requires t in s.tasks
  {
    if Subject(s, step) != Some(t) then s.tasks[t].fUseThisThread
    else
      match step
      case SignalDefault(_) => s.tasks[t].fDefaultThread
      case StartRun(_) => None
      case ForceSameThread(w) => Some(w)
      case CallLocked(w) => Some(w)
      case _ => s.tasks[t].fUseThisThread
  }

  /** fWriteLock after the step. */
  function LockAfter(s: State, step: Step, t: TaskId): bool
    requires t in s.tasks
  {
    if Subject(s, step) != Some(t) then s.tasks[t].fWriteLock
    else
      match step
      case CallLocked(_) => true
      case GlobalUnlock(_, _) => false
      case EndRun(w, _) => s.tasks[t].fWriteLock && !InWriteRun(s, w)
      case _ => s.tasks[t].fWriteLock
  }

  lemma StepEvents(s: State, step: Step, t: TaskId)
    requires Enabled(s, step) && t in s.tasks && !Deletes(s, step, t)
    ensures t in Apply(s, step).tasks
    ensures Apply(s, step).tasks[t].fEvents == WordAfter(s.tasks[t].fEvents, ChangeOf(s, step, t))
  {
    StepEffect(s, step, t);
    ChangeIsEffect(s, step, t);
  }

  lemma ChangeIsEffect(s: State, step: Step, t: TaskId)
    requires t in s.tasks
    ensures TaskAfter(s, step, t).fEvents == WordAfter(s.tasks[t].fEvents, ChangeOf(s, step, t))
  {
  }

  lemma StepOwn(s: State, step: Step, t: TaskId)
    requires Enabled(s, step) && t in s.tasks && !Deletes(s, step, t)
    ensures t in Apply(s, step).tasks
    ensures Apply(s, step).tasks[t].fUseThisThread == UseAfter(s, step, t)
    ensures Apply(s, step).tasks[t].fWriteLock == LockAfter(s, step, t)
  {
    StepEffect(s, step, t);
    OwnIsEffect(s, step, t);
  }

  lemma OwnIsEffect(s: State, step: Step, t: TaskId)
    requires t in s.tasks
    ensures TaskAfter(s, step, t).fUseThisThread == UseAfter(s, step, t)
    ensures TaskAfter(s, step, t).fWriteLock == LockAfter(s, step, t)
  {
  }

  /** The settings that only their setters change. */
  lemma StepSettings(s: State, step: Step, t: TaskId)
    requires Enabled(s, step) && t in s.tasks && !Deletes(s, step, t)
    ensures t in Apply(s, step).tasks
    ensures Apply(s, step).tasks[t].fDefaultThread
         == if step.SetDefaultThread? && step.t == t then step.thread else s.tasks[t].fDefaultThread
    ensures Apply(s, step).tasks[t].pickerToUse
         == if step.SetThreadPicker? && step.t == t then step.picker else s.tasks[t].pickerToUse
  {
    StepEffect(s, step, t);
    SettingsAre(s, step, t);
  }

  lemma SettingsAre(s: State, step: Step, t: TaskId)
    requires t in s.tasks
    ensures TaskAfter(s, step, t).fDefaultThread
         == if step.SetDefaultThread? && step.t == t then step.thread else s.tasks[t].fDefaultThread
    ensures TaskAfter(s, step, t).pickerToUse
         == if step.SetThreadPicker? && step.t == t then step.picker else s.tasks[t].pickerToUse
  {
  }

  // ----- Threads -----

  /** Where the thread of a step is after it. */
  function PcAfter(s: State, step: Step): WorkerPc
    requires OfThread(step) && Enabled(s, step)
  {
    if IsWaitStep(step) then PcAfterWait(s, step)
    else if IsRunStep(step) then PcAfterRun(s, step)
    else if IsLockStep(step) then PcAfterLock(s, step)
    else PcAfterLeave(s, step)
  }

  function PcAfterWait(s: State, step: Step): WorkerPc
    requires IsWaitStep(step) && WaitEnabled(s, step)
  {
    var th := s.threads[step.w];
    match step
    case ReadClock(_) => Peeking(s.clock)
    case TakeTimer(_) => Got(th.fHeap[0].item)
    case StartBlocking(_) => Blocking
    case DeQueue(_) => if th.fTaskQueue == [] then Waiting else Got(th.fTaskQueue[0])
  }

  function PcAfterRun(s: State, step: Step): WorkerPc
    requires IsRunStep(step) && RunEnabled(s, step)
  {
    var pc := s.threads[step.w].pc;
    match step
    case StartRun(_) => Locking(pc.task, if s.tasks[pc.task].fWriteLock then RW.Write else RW.Read)
    case ReadEvents(_) => Reading(pc.task, pc.mode, s.tasks[pc.task].fEvents & KALIVE_OFF)
    case SubEvents(_) => Running(pc.task, pc.mode)
    case EndRun(_, timeout) => Leaving(pc.task, pc.mode, timeout)
    case _ => pc
  }

  function PcAfterLock(s: State, step: Step): WorkerPc
    requires IsLockStep(step) && LockEnabled(s, step)
  {
    var pc := s.threads[step.w].pc;
    match step
    case LockMutex(w) => PcAfterCall(pc, RW.Apply(s.mutex, LockCall(s, w)).pcs[w])
    case RetestMutex(w) => PcAfterCall(pc, RW.Apply(s.mutex, RW.Retest(w)).pcs[w])
    case UnlockMutex(_, _) => Returned(pc.task, pc.timeout)
    case _ => pc
  }

  function PcAfterCall(pc: WorkerPc, inMutex: RW.Pc): WorkerPc
    requires pc.Locking? || pc.InLock?
  {
    if inMutex.Holding? then Running(pc.task, pc.mode) else InLock(pc.task, pc.mode)
  }

  function PcAfterLeave(s: State, step: Step): WorkerPc
    requires IsLeaveStep(step) && LeaveEnabled(s, step)
  {
    var t := s.threads[step.w].pc.task;
    match step
    case CompareAndStore(_) => if s.tasks[t].fEvents == KALIVE then Waiting else Got(t)
    case InsertTimer(_) => Inserted(t)
    case _ => Waiting
  }

  /** The heap of the thread of a step after it. */
  function HeapAfter(s: State, step: Step): Heap<TaskId>
    requires OfThread(step) && Enabled(s, step)
  {
    var th := s.threads[step.w];
    match step
    case TakeTimer(_) => Extract(th.fHeap, 1)
    case InsertTimer(_) => Insert(th.fHeap, Entry(s.clock + th.pc.timeout, th.pc.task))
    case Delete(_) => RemoveItem(th.fHeap, th.pc.task)
    case _ => th.fHeap
  }

  /** No thread changes its place or its heap, the clock does not go back, and the lock is left alone. */
  ghost predicate ThreadsStay(s: State, s': State) {
    && |s'.threads| == |s.threads| && s.clock <= s'.clock && s'.mutex == s.mutex
    && forall v :: 0 <= v < |s.threads| ==>
         s'.threads[v].pc == s.threads[v].pc && s'.threads[v].fHeap == s.threads[v].fHeap
  }

  /** Only thread w changes its place and its heap. */
  ghost predicate OneMoves(s: State, s': State, w: ThreadId, pc: WorkerPc, heap: Heap<TaskId>) {
    && w < |s.threads| == |s'.threads| && s'.clock == s.clock
    && s'.threads[w].pc == pc && s'.threads[w].fHeap == heap
    && forall v :: 0 <= v < |s.threads| && v != w ==>
         s'.threads[v].pc == s.threads[v].pc && s'.threads[v].fHeap == s.threads[v].fHeap
  }

  lemma OuterStays(s: State, step: Step)
    requires IsOuterStep(step) && OuterEnabled(s, step)
    ensures ThreadsStay(s, ApplyOuter(s, step))
  {
    match step
    case Create(_) =>
    case SetDefaultThread(_, _) =>
    case SetThreadPicker(_, _) =>
    case Tick(_) =>
  }

  lemma SignalStays(s: State, step: Step)
    requires IsSignalStep(step) && SignalEnabled(s, step)
    ensures ThreadsStay(s, ApplySignal(s, step))
  {
    match step
    case SignalOr(_, _, _) =>
    case SignalTest(_) =>
    case SignalDefault(_) =>
    case SignalPick(_) =>
    case SignalEnQueue(_) =>
  }

  lemma WaitMoves(s: State, step: Step)
    requires IsWaitStep(step) && WaitEnabled(s, step)
    ensures var h := s.threads[step.w].fHeap;
      OneMoves(s, ApplyWait(s, step), step.w, PcAfterWait(s, step), if step.TakeTimer? then Extract(h, 1) else h)
    ensures ApplyWait(s, step).mutex == s.mutex
  {
    match step
    case ReadClock(_) =>
    case TakeTimer(_) =>
    case StartBlocking(_) =>
    case DeQueue(_) =>
  }

  lemma RunMoves(s: State, step: Step)
    requires IsRunStep(step) && !IsRunCall(step) && RunEnabled(s, step)
    ensures OneMoves(s, ApplyRun(s, step), step.w, PcAfterRun(s, step), s.threads[step.w].fHeap)
    ensures ApplyRun(s, step).mutex == s.mutex
  {
    match step
    case StartRun(_) =>
    case SubEvents(_) =>
    case EndRun(_, _) =>
  }

  lemma RunCallMoves(s: State, step: Step)
    requires IsRunCall(step) && RunEnabled(s, step)
    ensures OneMoves(s, ApplyRun(s, step), step.w, PcAfterRun(s, step), s.threads[step.w].fHeap)
    ensures ApplyRun(s, step).mutex == s.mutex
  {
    match step
    case ReadEvents(_) =>
    case ForceSameThread(_) =>
    case CallLocked(_) =>
  }

  lemma LockMoves(s: State, step: Step)
    requires IsLockStep(step) && !IsUnlock(step) && LockEnabled(s, step)
    ensures OneMoves(s, ApplyLockStep(s, step), step.w, PcAfterLock(s, step), s.threads[step.w].fHeap)
  {
    match step
    case LockMutex(_) =>
    case RetestMutex(_) =>
    case WakeUp(_) =>
  }

  lemma UnlockMoves(s: State, step: Step)
    requires IsUnlock(step) && LockEnabled(s, step)
    ensures OneMoves(s, ApplyLockStep(s, step), step.w, PcAfterLock(s, step), s.threads[step.w].fHeap)
  {
    match step
    case GlobalUnlock(_, _) =>
    case UnlockMutex(_, _) =>
  }

  lemma LeaveMoves(s: State, step: Step)
    requires (step.CompareAndStore? || step.SetIdle?) && LeaveEnabled(s, step)
    ensures OneMoves(s, ApplyLeave(s, step), step.w, PcAfterLeave(s, step), s.threads[step.w].fHeap)
    ensures ApplyLeave(s, step).mutex == s.mutex
  {
    match step
    case CompareAndStore(_) =>
    case SetIdle(_) =>
  }

  lemma InsertMoves(s: State, w: ThreadId)
    requires LeaveEnabled(s, InsertTimer(w))
    ensures var th := s.threads[w];
      OneMoves(s, ApplyInsertTimer(s, w), w, Inserted(th.pc.task), Insert(th.fHeap, Entry(s.clock + th.pc.timeout, th.pc.task)))
    ensures ApplyInsertTimer(s, w).mutex == s.mutex
  {
  }

  lemma DeleteMoves(s: State, w: ThreadId)
    requires LeaveEnabled(s, Delete(w))
    ensures OneMoves(s, ApplyDelete(s, w), w, Waiting, RemoveItem(s.threads[w].fHeap, s.threads[w].pc.task))
    ensures ApplyDelete(s, w).mutex == s.mutex
  {
  }

  /** A step moves no thread but its own, and that one as PcAfter and HeapAfter say. */
  lemma StepMoves(s: State, step: Step)
    requires Enabled(s, step) && OfThread(step)
    ensures OneMoves(s, Apply(s, step), step.w, PcAfter(s, step), HeapAfter(s, step))
    ensures !IsLockStep(step) ==> Apply(s, step).mutex == s.mutex
  {
    if IsWaitStep(step) {
      WaitMoves(s, step);
    } else if IsRunStep(step) {
      if IsRunCall(step) { RunCallMoves(s, step); } else { RunMoves(s, step); }
    } else if IsLockStep(step) {
      if IsUnlock(step) { UnlockMoves(s, step); } else { LockMoves(s, step); }
    } else {
      match step
      case Delete(w) => DeleteMoves(s, w);
      case InsertTimer(w) => InsertMoves(s, w);
      case CompareAndStore(_) => LeaveMoves(s, step);
      case SetIdle(_) => LeaveMoves(s, step);
    }
  }

  /** No other step moves any thread. */
  lemma StepStays(s: State, step: Step)
    requires Enabled(s, step) && !OfThread(step)
    ensures ThreadsStay(s, Apply(s, step))
  {
    if IsOuterStep(step) {
      OuterStays(s, step);
    } else {
      SignalStays(s, step);
    }
  }

  // ----- Signallers and queues -----

  /** The signallers, the queues and the classes of threads are left alone. */
  ghost predicate QueuesStay(s: State, s': State) {
    && s'.signals == s.signals && s'.numShort == s.numShort && |s'.threads| == |s.threads|
    && forall v :: 0 <= v < |s.threads| ==> s'.threads[v].fTaskQueue == s.threads[v].fTaskQueue
  }

  /** Only one signaller goes on. */
  ghost predicate OneSignals(s: State, s': State, id: SignalId) {
    && s'.numShort == s.numShort && |s'.threads| == |s.threads|
    && forall i :: i != id ==> (i in s'.signals <==> i in s.signals) && (i in s.signals ==> s'.signals[i] == s.signals[i])
  }

  lemma OuterQueues(s: State, step: Step)
    requires IsOuterStep(step) && OuterEnabled(s, step)
    ensures QueuesStay(s, ApplyOuter(s, step))
  {
    match step
    case Create(_) =>
    case SetDefaultThread(_, _) =>
    case SetThreadPicker(_, _) =>
    case Tick(_) =>
  }

  lemma SignalSignals(s: State, step: Step)
    requires IsSignalStep(step) && SignalEnabled(s, step)
    ensures OneSignals(s, ApplySignal(s, step), step.id)
  {
    match step
    case SignalOr(_, _, _) =>
    case SignalTest(_) =>
    case SignalDefault(_) =>
    case SignalPick(_) =>
    case SignalEnQueue(_) =>
  }

  lemma SignalQueues(s: State, step: Step)
    requires IsSignalStep(step) && !step.SignalEnQueue? && SignalEnabled(s, step)
    ensures forall v :: 0 <= v < |s.threads| ==> ApplySignal(s, step).threads[v].fTaskQueue == s.threads[v].fTaskQueue
  {
    match step
    case SignalOr(_, _, _) =>
    case SignalTest(_) =>
    case SignalDefault(_) =>
    case SignalPick(_) =>
  }

  lemma WaitQueues(s: State, step: Step)
    requires IsWaitStep(step) && !step.DeQueue? && WaitEnabled(s, step)
    ensures QueuesStay(s, ApplyWait(s, step))
  {
    match step
    case ReadClock(_) =>
    case TakeTimer(_) =>
    case StartBlocking(_) =>
  }

  lemma RunQueues(s: State, step: Step)
    requires IsRunStep(step) && RunEnabled(s, step)
    ensures QueuesStay(s, ApplyRun(s, step))
  {
    match step
    case StartRun(_) =>
    case ReadEvents(_) =>
    case SubEvents(_) =>
    case ForceSameThread(_) =>
    case CallLocked(_) =>
    case EndRun(_, _) =>
  }

  lemma LockQueues(s: State, step: Step)
    requires IsLockStep(step) && LockEnabled(s, step)
    ensures QueuesStay(s, ApplyLockStep(s, step))
  {
    match step
    case LockMutex(_) =>
    case RetestMutex(_) =>
    case WakeUp(_) =>
    case GlobalUnlock(_, _) =>
    case UnlockMutex(_, _) =>
  }

  lemma LeaveQueues(s: State, step: Step)
    requires IsLeaveStep(step) && !step.Delete? && LeaveEnabled(s, step)
    ensures QueuesStay(s, ApplyLeave(s, step))
  {
    match step
    case CompareAndStore(_) =>
    case InsertTimer(_) =>
    case SetIdle(_) =>
  }

  /** Apart from the steps of Signal, taking a task from a queue and deleting one, no step does anything to them. */
  lemma OtherStepKeepsQueues(s: State, step: Step)
    requires Enabled(s, step) && !IsSignalStep(step) && !step.DeQueue? && !step.Delete?
    ensures QueuesStay(s, Apply(s, step))
  {
    if IsOuterStep(step) {
      OuterQueues(s, step);
    } else if IsWaitStep(step) {
      WaitQueues(s, step);
    } else if IsRunStep(step) {
      RunQueues(s, step);
    } else if IsLockStep(step) {
      LockQueues(s, step);
    } else {
      LeaveQueues(s, step);
    }
  }

  lemma DeQueueKeepsSignals(s: State, w: ThreadId)
    requires WaitEnabled(s, DeQueue(w))
    ensures OnlyItsQueue(s, ApplyDeQueue(s, w), w)
  {
  }

  /** At most one queue changes, and no signaller. */
  ghost predicate OnlyItsQueue(s: State, s': State, w: ThreadId) {
    && s'.signals == s.signals && s'.numShort == s.numShort && |s'.threads| == |s.threads|
    && forall v :: 0 <= v < |s.threads| && v != w ==> s'.threads[v].fTaskQueue == s.threads[v].fTaskQueue
  }

  lemma DeleteKeepsSignals(s: State, w: ThreadId)
    requires LeaveEnabled(s, Delete(w))
    ensures ApplyDelete(s, w).signals == s.signals && ApplyDelete(s, w).numShort == s.numShort
    ensures |ApplyDelete(s, w).threads| == |s.threads|
  {
  }

  /** Signallers are only for Signal to change. */
  lemma StepKeepsSignals(s: State, step: Step)
    requires Enabled(s, step) && !IsSignalStep(step)
    ensures Apply(s, step).signals == s.signals && Apply(s, step).numShort == s.numShort
    ensures |Apply(s, step).threads| == |s.threads|
  {
    if step.DeQueue? {
      DeQueueKeepsSignals(s, step.w);
    } else if step.Delete? {
      DeleteKeepsSignals(s, step.w);
    } else {
      OtherStepKeepsQueues(s, step);
    }
  }
}
