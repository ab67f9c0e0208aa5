/** Which thread a signalled task goes to, and when that thread takes it: over every run. */
module SchedulerChoice {
  import opened Atomic
  import HashOrder
  import opened QueueOrder
  import opened Sequences
  import opened Wrappers
  import opened Scheduler
  import opened SchedulerInvariant
  import opened SchedulerSteps
  import opened SchedulerEffects
  import opened SchedulerTheorems

  // ----- The thread a signal chooses -----

  /** The thread a task asks for: the one it forced, or else its default one. */
  function Wanted(task: Task): Option<ThreadId> {
    if task.fUseThisThread.Some? then task.fUseThisThread else task.fDefaultThread
  }

  /** The thread wanted, or else one of the picker's class. */
  predicate RightThread(s: State, w: ThreadId, want: Option<ThreadId>, picker: Picker) {
    && w < |s.threads|
    && match want
       case Some(v) => w == v
       case None => picker.ShortPicker? <==> w < s.numShort
  }

  /** What the signaller of the task has found out so far. */
  ghost predicate OnItsWay(s: State, id: SignalId, t: TaskId, want: Option<ThreadId>, picker: Picker) {
    && id in s.signals && s.signals[id].task == t && t in s.tasks && s.tasks[t].pickerToUse == picker
    && match s.signals[id]
       case Won(_) => Wanted(s.tasks[t]) == want
       case HasDefault(_) => s.tasks[t].fUseThisThread.None? && s.tasks[t].fDefaultThread == want
       case Defaulted(_) => s.tasks[t].fUseThisThread == want
       case Picked(_, w) => RightThread(s, w, want, picker)
  }

  predicate Sets(step: Step, t: TaskId) {
    (step.SetDefaultThread? && step.t == t) || (step.SetThreadPicker? && step.t == t)
  }

  /** The task goes to the end of the queue of the right thread. */
  ghost predicate EnqueuedAtEnd(s: State, s': State, t: TaskId, want: Option<ThreadId>, picker: Picker) {
    exists w :: RightThread(s, w, want, picker) && AtEnd(s, s', w, t)
  }

  ghost predicate AtEnd(s: State, s': State, w: ThreadId, t: TaskId) {
    w < |s.threads| && w < |s'.threads| && s'.threads[w].fTaskQueue == s.threads[w].fTaskQueue + [t]
  }

  /** The EnQueue of the signaller in the run is this one, unless the task's settings are changed before. */
  ghost predicate EnqueuesRight(s: State, run: seq<Step>, id: SignalId, t: TaskId, want: Option<ThreadId>, picker: Picker)
    requires ValidRun(s, run)
    decreases |run|
  {
    run != [] && !Sets(run[0], t) ==>
      if run[0] == SignalEnQueue(id) then EnqueuedAtEnd(s, Apply(s, run[0]), t, want, picker)
      else EnqueuesRight(Apply(s, run[0]), run[1..], id, t, want, picker)
  }

  lemma EnqueueIsRight(s: State, id: SignalId, t: TaskId, want: Option<ThreadId>, picker: Picker)
    requires Inv(s) && SignalEnabled(s, SignalEnQueue(id)) && OnItsWay(s, id, t, want, picker)
    ensures EnqueuedAtEnd(s, ApplySignalEnQueue(s, id), t, want, picker)
  {
    var w := s.signals[id].thread;
    OnlyPlace(s, t, AtSignal(id));
    assert !At(s, t, InQueue(w));
    assert AtEnd(s, ApplySignalEnQueue(s, id), w, t);
  }

  lemma TestIsRight(s: State, id: SignalId, t: TaskId, want: Option<ThreadId>, picker: Picker)
    requires SignalEnabled(s, SignalTest(id)) && OnItsWay(s, id, t, want, picker)
    ensures OnItsWay(ApplySignalTest(s, id), id, t, want, picker)
  {
  }

  lemma DefaultIsRight(s: State, id: SignalId, t: TaskId, want: Option<ThreadId>, picker: Picker)
    requires SignalEnabled(s, SignalDefault(id)) && OnItsWay(s, id, t, want, picker)
    ensures OnItsWay(ApplySignalDefault(s, id), id, t, want, picker)
  {
  }

  lemma PickIsRight(s: State, id: SignalId, t: TaskId, want: Option<ThreadId>, picker: Picker)
    requires TasksInv(s) && SignalEnabled(s, SignalPick(id)) && OnItsWay(s, id, t, want, picker)
    ensures OnItsWay(ApplySignalPick(s, id), id, t, want, picker)
  {
    assert ThreadOk(s, s.tasks[t].fUseThisThread);
  }

  lemma OwnStepIsRight(s: State, step: Step, t: TaskId, want: Option<ThreadId>, picker: Picker)
    requires Inv(s) && IsSignalStep(step) && SignalEnabled(s, step) && !step.SignalEnQueue?
    requires OnItsWay(s, step.id, t, want, picker)
    ensures OnItsWay(ApplySignal(s, step), step.id, t, want, picker)
  {
    match step
    case SignalTest(id) => TestIsRight(s, id, t, want, picker);
    case SignalDefault(id) => DefaultIsRight(s, id, t, want, picker);
    case SignalPick(id) => PickIsRight(s, id, t, want, picker);
  }

  /** Nobody else changes what the signaller looks at. */
  lemma OthersLeaveTask(s: State, step: Step, id: SignalId, t: TaskId)
    requires Inv(s) && Enabled(s, step) && At(s, t, AtSignal(id)) && t in s.tasks && !Sets(step, t)
    requires !(IsSignalStep(step) && step.id == id)
    ensures t in Apply(s, step).tasks
    ensures Apply(s, step).tasks[t].fUseThisThread == s.tasks[t].fUseThisThread
    ensures Apply(s, step).tasks[t].fDefaultThread == s.tasks[t].fDefaultThread
    ensures Apply(s, step).tasks[t].pickerToUse == s.tasks[t].pickerToUse
  {
    OthersActElsewhere(s, step, id, t);
    StepOwn(s, step, t);
    StepSettings(s, step, t);
  }

  lemma OthersActElsewhere(s: State, step: Step, id: SignalId, t: TaskId)
    requires Inv(s) && Enabled(s, step) && At(s, t, AtSignal(id)) && t in s.tasks
    requires !(IsSignalStep(step) && step.id == id)
    ensures !Deletes(s, step, t) && UseAfter(s, step, t) == s.tasks[t].fUseThisThread
  {
    if Subject(s, step) == Some(t) {
      if step.SignalDefault? {
        NowhereElse(s, t, id, AtSignal(step.id));
      } else if step.Delete? || step.StartRun? || step.ForceSameThread? || step.CallLocked? {
        NowhereElse(s, t, id, AtEntry(step.w));
      }
    }
  }

  lemma NowhereElse(s: State, t: TaskId, id: SignalId, p: Place)
    requires PlacesInv(s) && At(s, t, AtSignal(id)) && p != AtSignal(id)
    ensures !At(s, t, p)
  {
    OnlyPlace(s, t, AtSignal(id));
  }

  lemma OthersLeaveSignal(s: State, step: Step, id: SignalId)
    requires Enabled(s, step) && id in s.signals && !(IsSignalStep(step) && step.id == id)
    ensures id in Apply(s, step).signals && Apply(s, step).signals[id] == s.signals[id]
    ensures |Apply(s, step).threads| == |s.threads| && Apply(s, step).numShort == s.numShort
  {
    if IsSignalStep(step) {
      SignalSignals(s, step);
    } else {
      StepKeepsSignals(s, step);
    }
  }

  lemma StepIsRight(s: State, step: Step, id: SignalId, t: TaskId, want: Option<ThreadId>, picker: Picker)
    requires Inv(s) && Enabled(s, step) && OnItsWay(s, id, t, want, picker) && !Sets(step, t) && step != SignalEnQueue(id)
    ensures OnItsWay(Apply(s, step), id, t, want, picker)
  {
    if IsSignalStep(step) && step.id == id {
      OwnStepIsRight(s, step, t, want, picker);
    } else {
      OthersLeaveTask(s, step, id, t);
      OthersLeaveSignal(s, step, id);
    }
  }

  lemma {:induction false} WayToQueue(s: State, run: seq<Step>, id: SignalId, t: TaskId, want: Option<ThreadId>, picker: Picker)
    requires Inv(s) && ValidRun(s, run) && OnItsWay(s, id, t, want, picker)
    ensures EnqueuesRight(s, run, id, t, want, picker)
    decreases |run|
  {
    if run != [] && !Sets(run[0], t) {
      if run[0] == SignalEnQueue(id) {
        EnqueueIsRight(s, id, t, want, picker);
      } else {
        StepIsRight(s, run[0], id, t, want, picker);
        StepKeepsInv(s, run[0]);
        WayToQueue(Apply(s, run[0]), run[1..], id, t, want, picker);
      }
    }
  }

  /** A Signal that schedules a task puts it at the end of the queue of the thread it forced, or else of its default
      thread, or else of a thread of its picker's class. */
  lemma SignalChoosesThread(s: State, id: SignalId, t: TaskId, events: Word, run: seq<Step>)
    requires Reachable(s) && Enabled(s, SignalOr(id, t, events)) && !IsAlive(s.tasks[t])
    requires ValidRun(Apply(s, SignalOr(id, t, events)), run)
    ensures EnqueuesRight(Apply(s, SignalOr(id, t, events)), run, id, t, Wanted(s.tasks[t]), s.tasks[t].pickerToUse)
  {
    var step := SignalOr(id, t, events);
    ReachableInv(s);
    StepKeepsInv(s, step);
    StepOwn(s, step, t);
    StepSettings(s, step, t);
    WayToQueue(Apply(s, step), run, id, t, Wanted(s.tasks[t]), s.tasks[t].pickerToUse);
  }

  /** The setters set what they are given. */
  lemma SettersSet(s: State, t: TaskId, thread: Option<ThreadId>, picker: Picker)
    requires t in s.tasks && ThreadOk(s, thread)
    ensures Apply(s, SetDefaultThread(t, thread)).tasks[t].fDefaultThread == thread
    ensures Apply(s, SetThreadPicker(t, picker)).tasks[t].pickerToUse == picker
  {
  }

  // ----- A forced thread is for one Run -----

  /** The step gives the task a thread. */
  predicate GivesThread(s: State, step: Step, t: TaskId) {
    (step.SignalDefault? || step.ForceSameThread? || step.CallLocked?) && Subject(s, step) == Some(t)
  }

  /** The task has no thread of its own, until the run gives it one or deletes it. */
  ghost predicate NoThread(s: State, run: seq<Step>, t: TaskId)
    requires ValidRun(s, run)
    decreases |run|
  {
    t in s.tasks ==>
      && s.tasks[t].fUseThisThread == None
      && (run != [] && !GivesThread(s, run[0], t) && !Deletes(s, run[0], t) ==> NoThread(Apply(s, run[0]), run[1..], t))
  }

  lemma {:induction false} StaysWithoutThread(s: State, run: seq<Step>, t: TaskId)
    requires ValidRun(s, run) && t in s.tasks && s.tasks[t].fUseThisThread == None
    ensures NoThread(s, run, t)
    decreases |run|
  {
    if run != [] && !GivesThread(s, run[0], t) && !Deletes(s, run[0], t) {
      StepOwn(s, run[0], t);
      StaysWithoutThread(Apply(s, run[0]), run[1..], t);
    }
  }

  /** Each Run must ask for a thread anew. */
  lemma ForceLastsOneRun(s: State, w: ThreadId, run: seq<Step>)
    requires Enabled(s, StartRun(w)) && ValidRun(Apply(s, StartRun(w)), run)
    ensures NoThread(Apply(s, StartRun(w)), run, s.threads[w].pc.task)
  {
    StepOwn(s, StartRun(w), s.threads[w].pc.task);
    StaysWithoutThread(Apply(s, StartRun(w)), run, s.threads[w].pc.task);
  }

  // ----- Queues are first in, first out -----

  ghost predicate InLine(s: State, w: ThreadId, t: TaskId, i: nat) {
    w < |s.threads| && i < |s.threads[w].fTaskQueue| && s.threads[w].fTaskQueue[i] == t
  }

  /** The thread takes i others first, and then this task. */
  ghost predicate TakenInTurn(s: State, run: seq<Step>, w: ThreadId, t: TaskId, i: nat)
    requires ValidRun(s, run)
    decreases |run|
  {
    run != [] ==>
      var s' := Apply(s, run[0]);
      if run[0] != DeQueue(w) then TakenInTurn(s', run[1..], w, t, i)
      else if i > 0 then TakenInTurn(s', run[1..], w, t, i - 1)
      else w < |s'.threads| && s'.threads[w].pc == Got(t)
  }

  lemma DeQueueTakesFirst(s: State, w: ThreadId, t: TaskId, i: nat)
    requires WaitEnabled(s, DeQueue(w)) && InLine(s, w, t, i)
    ensures i > 0 ==> InLine(ApplyDeQueue(s, w), w, t, i - 1)
    ensures i == 0 ==> w < |ApplyDeQueue(s, w).threads| && ApplyDeQueue(s, w).threads[w].pc == Got(t)
  {
  }

  lemma EnQueueKeepsLine(s: State, id: SignalId, w: ThreadId, t: TaskId, i: nat)
    requires SignalEnabled(s, SignalEnQueue(id)) && InLine(s, w, t, i)
    ensures InLine(ApplySignalEnQueue(s, id), w, t, i)
  {
  }

  lemma DeleteKeepsLine(s: State, v: ThreadId, w: ThreadId, t: TaskId, i: nat)
    requires Inv(s) && LeaveEnabled(s, Delete(v)) && InLine(s, w, t, i)
    ensures InLine(ApplyDelete(s, v), w, t, i)
  {
    DeleteRemovesNothing(s, v);
  }

  lemma OtherStepKeepsLine(s: State, step: Step, w: ThreadId, t: TaskId, i: nat)
    requires Inv(s) && Enabled(s, step) && InLine(s, w, t, i) && step != DeQueue(w)
    ensures InLine(Apply(s, step), w, t, i)
  {
    if step.SignalEnQueue? {
      EnQueueKeepsLine(s, step.id, w, t, i);
    } else if step.DeQueue? {
      DeQueueKeepsSignals(s, step.w);
    } else if step.Delete? {
      DeleteKeepsLine(s, step.w, w, t, i);
    } else if IsSignalStep(step) {
      SignalQueues(s, step);
      SignalSignals(s, step);
    } else {
      OtherStepKeepsQueues(s, step);
    }
  }

  /** A task with i others before it in a queue is taken by its thread after them. */
  lemma {:induction false} FirstComeFirstServed(s: State, run: seq<Step>, w: ThreadId, t: TaskId, i: nat)
    requires Inv(s) && ValidRun(s, run) && InLine(s, w, t, i)
    ensures TakenInTurn(s, run, w, t, i)
    decreases |run|
  {
    if run != [] {
      StepKeepsInv(s, run[0]);
      if run[0] != DeQueue(w) {
        OtherStepKeepsLine(s, run[0], w, t, i);
        FirstComeFirstServed(Apply(s, run[0]), run[1..], w, t, i);
      } else {
        DeQueueTakesFirst(s, w, t, i);
        if i > 0 {
          FirstComeFirstServed(Apply(s, run[0]), run[1..], w, t, i - 1);
        }
      }
    }
  }

  // ----- Picks in turn -----

  function PickerOf(s: State, picker: Picker): Counter {
    match picker
    case ShortPicker => s.shortPicker
    case BlockingPicker => s.blockingPicker
  }

  /** How many threads the class has, and which is its first. */
  function ClassSize(s: State, picker: Picker): (n: nat)
    requires PoolOk(s)
    ensures n > 0
  {
    match picker
    case ShortPicker => s.numShort
    case BlockingPicker => |s.threads| - s.numShort
  }

  function ClassFirst(s: State, picker: Picker): nat {
    match picker
    case ShortPicker => 0
    case BlockingPicker => s.numShort
  }

  lemma PickIs(s: State, picker: Picker)
    requires PoolOk(s)
    ensures PickIndex(s, picker) == ClassFirst(s, picker) + CountUp(PickerOf(s, picker)) % ClassSize(s, picker)
    ensures PickerOf(PickerUp(s, picker), picker) == CountUp(PickerOf(s, picker))
    ensures ClassFirst(PickerUp(s, picker), picker) == ClassFirst(s, picker)
    ensures PoolOk(PickerUp(s, picker)) && ClassSize(PickerUp(s, picker), picker) == ClassSize(s, picker)
  {
  }

  /** The place in its class of the thread picked next. */
  function PlaceInClass(s: State, picker: Picker): int
    requires PoolOk(s)
  {
    PickIndex(s, picker) - ClassFirst(s, picker)
  }

  /** One pick takes the thread after the one before it, and the first after the last; only where the counter wraps
      around it need not, unless the class size divides 2^32. */
  lemma PicksInTurnIff(s: State, picker: Picker)
    requires PoolOk(s)
    ensures PlaceInClass(PickerUp(s, picker), picker) == (PlaceInClass(s, picker) + 1) % ClassSize(s, picker)
       <==> CountUp(PickerOf(s, picker)) < 0xFFFF_FFFF || 0x1_0000_0000 % ClassSize(s, picker) == 0
  {
    PickIs(s, picker);
    PickIs(PickerUp(s, picker), picker);
    OneMore(CountUp(PickerOf(s, picker)), ClassSize(s, picker));
  }

  lemma OneMore(c: Counter, n: nat)
    requires n > 0
    ensures CountUp(c) % n == (c % n + 1) % n <==> c < 0xFFFF_FFFF || 0x1_0000_0000 % n == 0
  {
    ModNext(c, n);
    HashOrder.ModIs(0, n, 0, 0);
    assert CountUp(c) == if c < 0xFFFF_FFFF then c + 1 else 0;
  }

  lemma ModNext(c: nat, n: nat)
    requires n > 0
    ensures (c % n + 1) % n == (c + 1) % n
  {
    var q, r := c / n, c % n;
    if r + 1 < n {
      HashOrder.ModIs(c + 1, n, q, r + 1);
      HashOrder.ModIs(r + 1, n, 0, r + 1);
    } else {
      assert n * q + n == n * (q + 1);
      HashOrder.ModIs(c + 1, n, q + 1, 0);
      HashOrder.ModIs(r + 1, n, 1, 0);
    }
  }
}
