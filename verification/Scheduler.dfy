/** Task.h and Task.cpp as an interleaved step system. Any number of Signal calls and all task threads
    run at once; each step below has one access to memory that another thread may change meanwhile, or is one
    critical section. fUseThisThread and fWriteLock are changed only by whoever holds the task, the signaller
    that has won it or the thread that has it in its loop (SchedulerTheorems.OnlyHolderWrites), and a heap only
    by its thread, so accesses to them share a step with what follows. */
module Scheduler {
  import opened Atomic
  import opened HeapOrder
  import opened QueueOrder
  import opened Sequences
  import opened Wrappers
  import RW = OSMutexRW

  const KALIVE: Word := 0x8000_0000
  const KALIVE_OFF: Word := 0x7fff_ffff
  const KIDLE_EVENT: Word := 0x2

  type TaskId = nat
  type ThreadId = nat
  type SignalId = nat

  /** A 32-bit counter as a number, and what the atomic_add of 1 leaves in it. */
  type Counter = c: nat | c < 0x1_0000_0000

  function CountUp(c: Counter): Counter { (c + 1) % 0x1_0000_0000 }

  datatype Picker = ShortPicker | BlockingPicker

  datatype Task = Task(
    fEvents: Word,
    fUseThisThread: Option<ThreadId>,
    fDefaultThread: Option<ThreadId>,
    fWriteLock: bool,
    pickerToUse: Picker)

  /** A Signal call that found kAlive clear, and what it has done since. */
  datatype SignalPc =
    | Won(task: TaskId)                          // its atomic_or set kAlive
    | HasDefault(task: TaskId)                   // has seen a default thread and no other
    | Defaulted(task: TaskId)                    // is through with fDefaultThread
    | Picked(task: TaskId, thread: ThreadId)     // EnQueue on that thread is next

  /** Where a task thread is in WaitForTask and Entry. */
  datatype WorkerPc =
    | Waiting                                    // top of the WaitForTask loop
    | Peeking(now: int)                          // theCurrentTime has been read
    | Blocking                                   // in DeQueueBlocking
    | Got(task: TaskId)                          // top of the inner loop of Entry
    | Locking(task: TaskId, mode: RW.Mode)       // the locker's LockRead or LockWrite is next
    | InLock(task: TaskId, mode: RW.Mode)        // waiting in it
    | Running(task: TaskId, mode: RW.Mode)       // in Run, under the read lock or the write lock
    | Reading(task: TaskId, mode: RW.Mode, events: Word)  // in GetEvents, between its read and its atomic_sub
    | Leaving(task: TaskId, mode: RW.Mode, timeout: int)  // Run has returned; the locker's Unlock is next
    | Returned(task: TaskId, timeout: int)       // behind the locker
    | Inserted(task: TaskId)                     // in the heap; atomic_or of kIdleEvent is next

  datatype Thread = Thread(pc: WorkerPc, fTaskQueue: seq<TaskId>, fHeap: Heap<TaskId>)

  datatype State = State(
    tasks: map<TaskId, Task>,
    signals: map<SignalId, SignalPc>,
    threads: seq<Thread>,
    mutex: RW.State,                             // sMutexRW, with what each thread is doing on it
    numShort: nat,
    shortPicker: Counter,
    blockingPicker: Counter,
    clock: int)

  datatype Step =
    | Create(t: TaskId)
    | SetDefaultThread(t: TaskId, thread: Option<ThreadId>)
    | SetThreadPicker(t: TaskId, picker: Picker)
    | SignalOr(id: SignalId, t: TaskId, events: Word)
    | SignalTest(id: SignalId)
    | SignalDefault(id: SignalId)
    | SignalPick(id: SignalId)
    | SignalEnQueue(id: SignalId)
    | Tick(delta: nat)
    | ReadClock(w: ThreadId)
    | TakeTimer(w: ThreadId)
    | StartBlocking(w: ThreadId)
    | DeQueue(w: ThreadId)
    | StartRun(w: ThreadId)
    | LockMutex(w: ThreadId)
    | RetestMutex(w: ThreadId)
    | WakeUp(w: ThreadId)                        // spurious or by a timeout
    | ReadEvents(w: ThreadId)
    | SubEvents(w: ThreadId)
    | ForceSameThread(w: ThreadId)
    | CallLocked(w: ThreadId)
    | GlobalUnlock(w: ThreadId, chosen: ThreadId)   // chosen: the waiting writer that is signalled
    | EndRun(w: ThreadId, timeout: int)
    | UnlockMutex(w: ThreadId, chosen: ThreadId)
    | Delete(w: ThreadId)
    | CompareAndStore(w: ThreadId)
    | InsertTimer(w: ThreadId)
    | SetIdle(w: ThreadId)

  predicate IsAlive(task: Task) { task.fEvents & KALIVE != 0 }

  /** The worker holds the task in its Entry loop. */
  predicate InEntry(pc: WorkerPc) {
    pc.Got? || pc.Locking? || pc.InLock? || pc.Running? || pc.Reading? || pc.Leaving? || pc.Returned?
  }

  predicate ThreadOk(s: State, thread: Option<ThreadId>) { thread.Some? ==> thread.value < |s.threads| }

  /** The pool is running, with threads of both classes: the short ones come first. */
  predicate PoolOk(s: State) { 0 < s.numShort < |s.threads| }

  predicate TimerDue(th: Thread) { th.pc.Peeking? && th.fHeap != [] && th.fHeap[0].value <= th.pc.now }

  // ----- The steps, by the part of the program they are in -----

  /** What anybody may do at any time. */
  predicate IsOuterStep(step: Step) { step.Create? || step.SetDefaultThread? || step.SetThreadPicker? || step.Tick? }

  predicate IsSignalStep(step: Step) {
    step.SignalOr? || step.SignalTest? || step.SignalDefault? || step.SignalPick? || step.SignalEnQueue?
  }

  /** WaitForTask. */
  predicate IsWaitStep(step: Step) { step.ReadClock? || step.TakeTimer? || step.StartBlocking? || step.DeQueue? }

  /** Entry before and during Run. */
  predicate IsRunStep(step: Step) {
    step.StartRun? || step.ReadEvents? || step.SubEvents? || step.ForceSameThread? || step.CallLocked? || step.EndRun?
  }

  /** The calls on sMutexRW. */
  predicate IsLockStep(step: Step) {
    step.LockMutex? || step.RetestMutex? || step.WakeUp? || step.GlobalUnlock? || step.UnlockMutex?
  }

  /** Entry behind the locker. */
  predicate IsLeaveStep(step: Step) { step.Delete? || step.CompareAndStore? || step.InsertTimer? || step.SetIdle? }

  /** When a step can be taken. */
  predicate Enabled(s: State, step: Step) {
    if IsOuterStep(step) then OuterEnabled(s, step)
    else if IsSignalStep(step) then SignalEnabled(s, step)
    else if IsWaitStep(step) then WaitEnabled(s, step)
    else if IsRunStep(step) then RunEnabled(s, step)
    else if IsLockStep(step) then LockEnabled(s, step)
    else LeaveEnabled(s, step)
  }

  predicate OuterEnabled(s: State, step: Step)
    requires IsOuterStep(step)
  {
    match step
    case Create(t) => t !in s.tasks
    case SetDefaultThread(t, thread) => t in s.tasks && ThreadOk(s, thread)
    case SetThreadPicker(t, _) => t in s.tasks
    case Tick(_) => true
  }

  /** A Signal may start only on a task that has not been deleted. */
  predicate SignalEnabled(s: State, step: Step)
    requires IsSignalStep(step)
  {
    match step
    case SignalOr(id, t, _) => id !in s.signals && t in s.tasks
    case SignalTest(id) => id in s.signals && s.signals[id].Won? && s.signals[id].task in s.tasks
    case SignalDefault(id) => id in s.signals && s.signals[id].HasDefault? && s.signals[id].task in s.tasks
    case SignalPick(id) =>
      && PoolOk(s) && id in s.signals && s.signals[id].Defaulted? && s.signals[id].task in s.tasks
    case SignalEnQueue(id) => id in s.signals && s.signals[id].Picked? && s.signals[id].thread < |s.threads|
  }

  predicate WaitEnabled(s: State, step: Step)
    requires IsWaitStep(step)
  {
    && step.w < |s.threads|
    && match step
       case ReadClock(w) => s.threads[w].pc.Waiting?
       case TakeTimer(w) => TimerDue(s.threads[w])
       case StartBlocking(w) => s.threads[w].pc.Peeking? && !TimerDue(s.threads[w])
       case DeQueue(w) => s.threads[w].pc.Blocking?
  }

  predicate RunEnabled(s: State, step: Step)
    requires IsRunStep(step)
  {
    && HoldsTask(s, step.w)
    && match step
       case StartRun(w) => s.threads[w].pc.Got?
       case SubEvents(w) => s.threads[w].pc.Reading?
       case _ => s.threads[step.w].pc.Running?
  }

  predicate LockEnabled(s: State, step: Step)
    requires IsLockStep(step)
  {
    && HoldsTask(s, step.w)
    && match step
       case LockMutex(w) => s.threads[w].pc.Locking? && RW.Enabled(s.mutex, LockCall(s, w))
       case RetestMutex(w) => s.threads[w].pc.InLock? && RW.Enabled(s.mutex, RW.Retest(w))
       case WakeUp(w) => s.threads[w].pc.InLock? && RW.Enabled(s.mutex, RW.SpuriousWake(w))
       case GlobalUnlock(w, chosen) => s.threads[w].pc.Running?
         && (s.tasks[s.threads[w].pc.task].fWriteLock ==> RW.Enabled(s.mutex, UnlockCall(s, w, chosen)))
       case UnlockMutex(w, chosen) => s.threads[w].pc.Leaving? && RW.Enabled(s.mutex, UnlockCall(s, w, chosen))
  }

  predicate LeaveEnabled(s: State, step: Step)
    requires IsLeaveStep(step)
  {
    match step
    case Delete(w) => HasReturned(s, w) && s.threads[w].pc.timeout < 0
    case CompareAndStore(w) => HasReturned(s, w) && s.threads[w].pc.timeout == 0
    case InsertTimer(w) => HasReturned(s, w) && s.threads[w].pc.timeout > 0
    case SetIdle(w) => w < |s.threads| && s.threads[w].pc.Inserted? && s.threads[w].pc.task in s.tasks
  }

  predicate HoldsTask(s: State, w: ThreadId) {
    w < |s.threads| && InEntry(s.threads[w].pc) && s.threads[w].pc.task in s.tasks
  }

  /** The locker's call: LockWrite or LockRead. */
  function LockCall(s: State, w: ThreadId): RW.Step
    requires w < |s.threads| && s.threads[w].pc.Locking?
  {
    RW.LockCall(w, s.threads[w].pc.mode)
  }

  /** Unlock, by a thread that holds the lock or has given it back before. */
  function UnlockCall(s: State, w: ThreadId, chosen: ThreadId): RW.Step {
    if w < |s.mutex.pcs| && s.mutex.pcs[w].Holding? then RW.UnlockCall(w, chosen) else RW.ExtraUnlock(w, chosen)
  }

  predicate HasReturned(s: State, w: ThreadId) {
    w < |s.threads| && s.threads[w].pc.Returned? && s.threads[w].pc.task in s.tasks
  }

  function SetTask(s: State, t: TaskId, task: Task): State { s.(tasks := s.tasks[t := task]) }

  function SetPc(s: State, w: ThreadId, pc: WorkerPc): State
    requires w < |s.threads|
  {
    s.(threads := s.threads[w := s.threads[w].(pc := pc)])
  }

  function SetThread(s: State, w: ThreadId, th: Thread): State
    requires w < |s.threads|
  {
    s.(threads := s.threads[w := th])
  }

  function SetSignal(s: State, id: SignalId, sig: SignalPc): State { s.(signals := s.signals[id := sig]) }

  /** The atomic_add on a picker. */
  function PickerUp(s: State, picker: Picker): State {
    match picker
    case ShortPicker => s.(shortPicker := CountUp(s.shortPicker))
    case BlockingPicker => s.(blockingPicker := CountUp(s.blockingPicker))
  }

  /** The thread index Signal computes from the incremented picker. */
  function PickIndex(s: State, picker: Picker): (w: ThreadId)
    requires PoolOk(s)
    ensures w < |s.threads|
    ensures picker.ShortPicker? <==> w < s.numShort
  {
    match picker
    case ShortPicker => CountUp(s.shortPicker) % s.numShort
    case BlockingPicker => CountUp(s.blockingPicker) % (|s.threads| - s.numShort) + s.numShort
  }

  function Apply(s: State, step: Step): State
    requires Enabled(s, step)
  {
    if IsOuterStep(step) then ApplyOuter(s, step)
    else if IsSignalStep(step) then ApplySignal(s, step)
    else if IsWaitStep(step) then ApplyWait(s, step)
    else if IsRunStep(step) then ApplyRun(s, step)
    else if IsLockStep(step) then ApplyLockStep(s, step)
    else ApplyLeave(s, step)
  }

  function ApplyOuter(s: State, step: Step): State
    requires IsOuterStep(step) && OuterEnabled(s, step)
  {
    match step
    case Create(t) => SetTask(s, t, Task(0, None, None, false, ShortPicker))
    case SetDefaultThread(t, thread) => SetTask(s, t, s.tasks[t].(fDefaultThread := thread))
    case SetThreadPicker(t, picker) => SetTask(s, t, s.tasks[t].(pickerToUse := picker))
    case Tick(delta) => s.(clock := s.clock + delta)
  }

  function ApplySignal(s: State, step: Step): State
    requires IsSignalStep(step) && SignalEnabled(s, step)
  {
    match step
    case SignalOr(id, t, events) => ApplySignalOr(s, id, t, events)
    case SignalTest(id) => ApplySignalTest(s, id)
    case SignalDefault(id) => ApplySignalDefault(s, id)
    case SignalPick(id) => ApplySignalPick(s, id)
    case SignalEnQueue(id) => ApplySignalEnQueue(s, id)
  }

  function ApplyWait(s: State, step: Step): State
    requires IsWaitStep(step) && WaitEnabled(s, step)
  {
    match step
    case ReadClock(w) => SetPc(s, w, Peeking(s.clock))
    case TakeTimer(w) => ApplyTakeTimer(s, w)
    case StartBlocking(w) => SetPc(s, w, Blocking)
    case DeQueue(w) => ApplyDeQueue(s, w)
  }

  function ApplyRun(s: State, step: Step): State
    requires IsRunStep(step) && RunEnabled(s, step)
  {
    var t := s.threads[step.w].pc.task;
    match step
    case StartRun(w) => ApplyStartRun(s, w)
    case ReadEvents(w) => ApplyReadEvents(s, w)
    case SubEvents(w) => ApplySubEvents(s, w)
    case ForceSameThread(w) => SetTask(s, t, s.tasks[t].(fUseThisThread := Some(w)))
    case CallLocked(w) => SetTask(s, t, s.tasks[t].(fUseThisThread := Some(w), fWriteLock := true))
    case EndRun(w, timeout) => ApplyEndRun(s, w, timeout)
  }

  function ApplyLockStep(s: State, step: Step): State
    requires IsLockStep(step) && LockEnabled(s, step)
  {
    match step
    case LockMutex(w) => ApplyLock(s, w, LockCall(s, w))
    case RetestMutex(w) => ApplyLock(s, w, RW.Retest(w))
    case WakeUp(w) => s.(mutex := RW.Apply(s.mutex, RW.SpuriousWake(w)))
    case GlobalUnlock(w, chosen) => ApplyGlobalUnlock(s, w, chosen)
    case UnlockMutex(w, chosen) => ApplyUnlock(s, w, chosen)
  }

  function ApplyLeave(s: State, step: Step): State
    requires IsLeaveStep(step) && LeaveEnabled(s, step)
  {
    match step
    case Delete(w) => ApplyDelete(s, w)
    case CompareAndStore(w) => ApplyCompareAndStore(s, w)
    case InsertTimer(w) => ApplyInsertTimer(s, w)
    case SetIdle(w) => ApplySetIdle(s, w)
  }

  /** The atomic_or of Signal: only the call that finds kAlive clear goes on to schedule the task. */
  function ApplySignalOr(s: State, id: SignalId, t: TaskId, events: Word): State
    requires SignalEnabled(s, SignalOr(id, t, events))
  {
    var task := s.tasks[t];
    var s' := SetTask(s, t, task.(fEvents := Or(task.fEvents, Or(events, KALIVE))));
    if IsAlive(task) then s' else SetSignal(s', id, Won(t))
  }

  /** The test of fDefaultThread, and of fUseThisThread. */
  function ApplySignalTest(s: State, id: SignalId): State
    requires SignalEnabled(s, SignalTest(id))
  {
    var t := s.signals[id].task;
    var needs := s.tasks[t].fDefaultThread.Some? && s.tasks[t].fUseThisThread.None?;
    SetSignal(s, id, if needs then HasDefault(t) else Defaulted(t))
  }

  /** The second read of fDefaultThread, which may have changed since, goes to fUseThisThread. */
  function ApplySignalDefault(s: State, id: SignalId): State
    requires SignalEnabled(s, SignalDefault(id))
  {
    var t := s.signals[id].task;
    var task := s.tasks[t];
    SetTask(SetSignal(s, id, Defaulted(t)), t, task.(fUseThisThread := task.fDefaultThread))
  }

  function ApplySignalPick(s: State, id: SignalId): State
    requires SignalEnabled(s, SignalPick(id))
  {
    var t := s.signals[id].task;
    var task := s.tasks[t];
    if task.fUseThisThread.Some? then SetSignal(s, id, Picked(t, task.fUseThisThread.value))
    else PickerUp(SetSignal(s, id, Picked(t, PickIndex(s, task.pickerToUse))), task.pickerToUse)
  }

  function ApplySignalEnQueue(s: State, id: SignalId): State
    requires SignalEnabled(s, SignalEnQueue(id))
  {
    var Picked(t, w) := s.signals[id];
    var th := s.threads[w];
    SetThread(s, w, th.(fTaskQueue := EnQueued(th.fTaskQueue, t))).(signals := s.signals - {id})
  }

  function ApplyTakeTimer(s: State, w: ThreadId): State
    requires WaitEnabled(s, TakeTimer(w))
  {
    var th := s.threads[w];
    SetThread(s, w, th.(pc := Got(th.fHeap[0].item), fHeap := Extract(th.fHeap, 1)))
  }

  /** DeQueueBlocking comes back with the oldest queued task, or empty-handed after a wait. */
  function ApplyDeQueue(s: State, w: ThreadId): State
    requires WaitEnabled(s, DeQueue(w))
  {
    var th := s.threads[w];
    if th.fTaskQueue == [] then SetPc(s, w, Waiting)
    else SetThread(s, w, th.(pc := Got(th.fTaskQueue[0]), fTaskQueue := th.fTaskQueue[1..]))
  }

  /** fUseThisThread is cleared, and fWriteLock chooses the locker. */
  function ApplyStartRun(s: State, w: ThreadId): State
    requires RunEnabled(s, StartRun(w))
  {
    var t := s.threads[w].pc.task;
    var task := s.tasks[t];
    SetPc(SetTask(s, t, task.(fUseThisThread := None)), w, Locking(t, if task.fWriteLock then RW.Write else RW.Read))
  }

  /** One critical section of the locker's call: it waits, or Run begins. */
  function ApplyLock(s: State, w: ThreadId, call: RW.Step): State
    requires HoldsTask(s, w) && (s.threads[w].pc.Locking? || s.threads[w].pc.InLock?)
    requires RW.Enabled(s.mutex, call) && call.t == w
  {
    var mutex := RW.Apply(s.mutex, call);
    var t, mode := s.threads[w].pc.task, s.threads[w].pc.mode;
    SetPc(s.(mutex := mutex), w, if mutex.pcs[w].Holding? then Running(t, mode) else InLock(t, mode))
  }

  /** Unlocks if fWriteLock is set, whoever holds the lock. */
  function ApplyGlobalUnlock(s: State, w: ThreadId, chosen: ThreadId): State
    requires LockEnabled(s, GlobalUnlock(w, chosen))
  {
    var t := s.threads[w].pc.task;
    var task := s.tasks[t];
    if !task.fWriteLock then s
    else SetTask(s.(mutex := RW.Apply(s.mutex, UnlockCall(s, w, chosen))), t, task.(fWriteLock := false))
  }

  /** The locker's destructor. */
  function ApplyUnlock(s: State, w: ThreadId, chosen: ThreadId): State
    requires LockEnabled(s, UnlockMutex(w, chosen))
  {
    var Leaving(t, _, timeout) := s.threads[w].pc;
    SetPc(s.(mutex := RW.Apply(s.mutex, UnlockCall(s, w, chosen))), w, Returned(t, timeout))
  }

  /** The plain read of GetEvents. */
  function ApplyReadEvents(s: State, w: ThreadId): State
    requires RunEnabled(s, ReadEvents(w))
  {
    var Running(t, mode) := s.threads[w].pc;
    SetPc(s, w, Reading(t, mode, s.tasks[t].fEvents & KALIVE_OFF))
  }

  /** The atomic_sub of GetEvents, which then returns the events it read. */
  function ApplySubEvents(s: State, w: ThreadId): State
    requires RunEnabled(s, SubEvents(w))
  {
    var Reading(t, mode, events) := s.threads[w].pc;
    var task := s.tasks[t];
    SetPc(SetTask(s, t, task.(fEvents := Sub(task.fEvents, events))), w, Running(t, mode))
  }

  /** Run returns; a run under the write lock clears fWriteLock. */
  function ApplyEndRun(s: State, w: ThreadId, timeout: int): State
    requires RunEnabled(s, EndRun(w, timeout))
  {
    var Running(t, mode) := s.threads[w].pc;
    var task := s.tasks[t];
    SetPc(SetTask(s, t, if mode == RW.Write then task.(fWriteLock := false) else task), w, Leaving(t, mode, timeout))
  }

  function RemoveEverywhere(threads: seq<Thread>, t: TaskId): (r: seq<Thread>)
    ensures |r| == |threads|
    ensures forall w :: 0 <= w < |r| ==> r[w] == threads[w].(fTaskQueue := Without(threads[w].fTaskQueue, t))
  {
    seq(|threads|, w requires 0 <= w < |threads| => threads[w].(fTaskQueue := Without(threads[w].fTaskQueue, t)))
  }

  /** Deletion, with the removals from the thread's own heap and from whatever queue holds the task. */
  function ApplyDelete(s: State, w: ThreadId): State
    requires LeaveEnabled(s, Delete(w))
  {
    var th := s.threads[w];
    var t := th.pc.task;
    var s' := SetThread(s, w, th.(pc := Waiting, fHeap := RemoveItem(th.fHeap, t)));
    s'.(threads := RemoveEverywhere(s'.threads, t), tasks := s.tasks - {t})
  }

  /** Retires the task if no event is pending; otherwise the inner loop runs it again. */
  function ApplyCompareAndStore(s: State, w: ThreadId): State
    requires LeaveEnabled(s, CompareAndStore(w))
  {
    var t := s.threads[w].pc.task;
    var task := s.tasks[t];
    if task.fEvents == KALIVE then SetPc(SetTask(s, t, task.(fEvents := 0)), w, Waiting)
    else SetPc(s, w, Got(t))
  }

  function ApplyInsertTimer(s: State, w: ThreadId): State
    requires LeaveEnabled(s, InsertTimer(w))
  {
    var th := s.threads[w];
    var Returned(t, timeout) := th.pc;
    SetThread(s, w, th.(pc := Inserted(t), fHeap := Insert(th.fHeap, Entry(s.clock + timeout, t))))
  }

  function ApplySetIdle(s: State, w: ThreadId): State
    requires LeaveEnabled(s, SetIdle(w))
  {
    var t := s.threads[w].pc.task;
    var task := s.tasks[t];
    SetPc(SetTask(s, t, task.(fEvents := Or(task.fEvents, KIDLE_EVENT))), w, Waiting)
  }

  /** A pool of idle threads and no task yet. */
  predicate Initial(s: State) {
    && PoolOk(s)
    && s.tasks == map[] && s.signals == map[]
    && RW.Initial(s.mutex) && |s.mutex.pcs| == |s.threads|
    && forall w :: 0 <= w < |s.threads| ==> s.threads[w] == Thread(Waiting, [], [])
  }

  /** Every step of the run can be taken when its turn comes. */
  predicate ValidRun(s: State, run: seq<Step>)
    decreases |run|
  {
    run == [] || (Enabled(s, run[0]) && ValidRun(Apply(s, run[0]), run[1..]))
  }

  function After(s: State, run: seq<Step>): State
    requires ValidRun(s, run)
    decreases |run|
  {
    if run == [] then s else After(Apply(s, run[0]), run[1..])
  }
}
