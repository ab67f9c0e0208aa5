/** What a return value of Run leads to, when a timer runs its task, and what GetEvents returns: over every run. */
module SchedulerOutcomes {
  import opened Atomic
  import opened HeapOrder
  import opened Wrappers
  import opened Scheduler
  import opened SchedulerInvariant
  import opened SchedulerSteps
  import opened SchedulerEffects
  import opened SchedulerTheorems

  // ----- The end of a Run -----

  /** The thread is on its way out of a Run of the task that has returned the timeout. */
  ghost predicate Returning(s: State, w: ThreadId, t: TaskId, timeout: int) {
    && w < |s.threads| && t in s.tasks
    && var pc := s.threads[w].pc;
       (pc.Leaving? || pc.Returned?) && pc.task == t && pc.timeout == timeout
  }

  /** What has become of the task in the step that ended this. A negative timeout deletes it. A positive one puts it
      into the thread's timer heap, for the time it asked for from now. With 0 it is retired, if its word was exactly
      kAlive, and otherwise is about to run again on this thread. */
  ghost predicate Outcome(s: State, s': State, w: ThreadId, t: TaskId, timeout: int) {
    if timeout < 0 then t !in s'.tasks && OnlyAt(s', t, None)
    else if timeout > 0 then t in s'.tasks && InHeapUntil(s', t, w, s'.clock + timeout) && OnlyAt(s', t, Some(InHeap(w)))
    else
      && t in s.tasks && t in s'.tasks
      && if s.tasks[t].fEvents == KALIVE then s'.tasks[t].fEvents == 0 && OnlyAt(s', t, None)
         else s'.tasks[t] == s.tasks[t] && w < |s'.threads| && s'.threads[w].pc == Got(t)
  }

  /** The first step of the run after which the thread is not on its way out any more has this outcome. */
  ghost predicate EndsAs(s: State, run: seq<Step>, w: ThreadId, t: TaskId, timeout: int)
    requires ValidRun(s, run)
    decreases |run|
  {
    run != [] ==>
      var s' := Apply(s, run[0]);
      if Returning(s', w, t, timeout) then EndsAs(s', run[1..], w, t, timeout) else Outcome(s, s', w, t, timeout)
  }

  lemma DeleteOutcome(s: State, w: ThreadId)
    requires Inv(s) && LeaveEnabled(s, Delete(w))
    ensures Outcome(s, ApplyDelete(s, w), w, s.threads[w].pc.task, s.threads[w].pc.timeout)
  {
    DeleteKeepsInv(s, w);
    NotScheduledNowhere(ApplyDelete(s, w), s.threads[w].pc.task);
  }

  lemma InsertOutcome(s: State, w: ThreadId)
    requires Inv(s) && LeaveEnabled(s, InsertTimer(w))
    ensures Outcome(s, ApplyInsertTimer(s, w), w, s.threads[w].pc.task, s.threads[w].pc.timeout)
  {
    var s', t := ApplyInsertTimer(s, w), s.threads[w].pc.task;
    InsertTimerKeepsInv(s, w);
    TimerIsSet(s, w);
    HeapEntryIsThere(s', t, w, s.clock + s.threads[w].pc.timeout);
    OnlyPlace(s', t, InHeap(w));
  }

  lemma StoreOutcome(s: State, w: ThreadId)
    requires Inv(s) && LeaveEnabled(s, CompareAndStore(w))
    ensures Outcome(s, ApplyCompareAndStore(s, w), w, s.threads[w].pc.task, s.threads[w].pc.timeout)
  {
    CompareAndStoreKeepsInv(s, w);
    if s.tasks[s.threads[w].pc.task].fEvents == KALIVE {
      NotScheduledNowhere(ApplyCompareAndStore(s, w), s.threads[w].pc.task);
    }
  }

  /** The thread's own steps: the locker's Unlock, and the one that ends it. */
  lemma OwnStepOut(s: State, step: Step, w: ThreadId, t: TaskId, timeout: int)
    requires Inv(s) && Returning(s, w, t, timeout) && Enabled(s, step) && OfThread(step) && step.w == w
    ensures Returning(Apply(s, step), w, t, timeout) || Outcome(s, Apply(s, step), w, t, timeout)
  {
    if IsLeaveStep(step) {
      LeaveOutcome(s, step);
    } else {
      UnlockOnWayOut(s, step, w, t, timeout);
    }
  }

  lemma UnlockOnWayOut(s: State, step: Step, w: ThreadId, t: TaskId, timeout: int)
    requires Returning(s, w, t, timeout) && Enabled(s, step) && OfThread(step) && step.w == w && !IsLeaveStep(step)
    ensures Returning(Apply(s, step), w, t, timeout)
  {
    assert step.UnlockMutex?;
    StepMoves(s, step);
    StepOwn(s, step, t);
  }

  lemma LeaveOutcome(s: State, step: Step)
    requires Inv(s) && IsLeaveStep(step) && !step.SetIdle? && LeaveEnabled(s, step)
    ensures Outcome(s, ApplyLeave(s, step), step.w, s.threads[step.w].pc.task, s.threads[step.w].pc.timeout)
  {
    match step
    case Delete(w) => DeleteOutcome(s, w);
    case CompareAndStore(w) => StoreOutcome(s, w);
    case InsertTimer(w) => InsertOutcome(s, w);
  }

  lemma StepOut(s: State, step: Step, w: ThreadId, t: TaskId, timeout: int)
    requires Inv(s) && Returning(s, w, t, timeout) && Enabled(s, step)
    ensures Returning(Apply(s, step), w, t, timeout) || Outcome(s, Apply(s, step), w, t, timeout)
  {
    if !OfThread(step) {
      StepStays(s, step);
      StepOwn(s, step, t);
    } else if step.w == w {
      OwnStepOut(s, step, w, t, timeout);
    } else {
      OtherStepOut(s, step, w, t, timeout);
    }
  }

  lemma OtherStepOut(s: State, step: Step, w: ThreadId, t: TaskId, timeout: int)
    requires Inv(s) && Returning(s, w, t, timeout) && Enabled(s, step) && OfThread(step) && step.w != w
    ensures Returning(Apply(s, step), w, t, timeout)
  {
    StepMoves(s, step);
    if Deletes(s, step, t) {
      assert At(s, t, AtEntry(w)) && At(s, t, AtEntry(step.w));
      OnePlace(s, t, AtEntry(w), AtEntry(step.w));
    }
    StepOwn(s, step, t);
  }

  lemma {:induction false} WayOut(s: State, run: seq<Step>, w: ThreadId, t: TaskId, timeout: int)
    requires Inv(s) && ValidRun(s, run) && Returning(s, w, t, timeout)
    ensures EndsAs(s, run, w, t, timeout)
    decreases |run|
  {
    if run != [] {
      StepOut(s, run[0], w, t, timeout);
      StepKeepsInv(s, run[0]);
      if Returning(Apply(s, run[0]), w, t, timeout) {
        WayOut(Apply(s, run[0]), run[1..], w, t, timeout);
      }
    }
  }

  lemma RunReturns(s: State, w: ThreadId, timeout: int)
    requires Inv(s) && Enabled(s, EndRun(w, timeout))
    ensures Inv(Apply(s, EndRun(w, timeout)))
    ensures Returning(Apply(s, EndRun(w, timeout)), w, s.threads[w].pc.task, timeout)
  {
    StepKeepsInv(s, EndRun(w, timeout));
    StepMoves(s, EndRun(w, timeout));
    StepOwn(s, EndRun(w, timeout), s.threads[w].pc.task);
  }

  /** A Run that returns a timeout ends for its task as the timeout says, whatever everybody else does. */
  lemma RunEndsAs(s: State, w: ThreadId, timeout: int, run: seq<Step>)
    requires Reachable(s) && Enabled(s, EndRun(w, timeout)) && ValidRun(Apply(s, EndRun(w, timeout)), run)
    ensures EndsAs(Apply(s, EndRun(w, timeout)), run, w, s.threads[w].pc.task, timeout)
  {
    ReachableInv(s);
    RunReturns(s, w, timeout);
    WayOut(Apply(s, EndRun(w, timeout)), run, w, s.threads[w].pc.task, timeout);
  }

  // ----- Timers -----

  /** The task is not deleted before its next Run, and that Run is on thread w, not before the deadline, and finds
      kIdleEvent set. */
  ghost predicate RunsAfter(s: State, run: seq<Step>, w: ThreadId, t: TaskId, deadline: int)
    requires ValidRun(s, run)
    decreases |run|
  {
    run != [] ==>
      && !Deletes(s, run[0], t)
      && if StartsRun(s, run[0], t) then run[0].w == w && deadline <= s.clock && Pending(s, t, KIDLE_EVENT)
         else RunsAfter(Apply(s, run[0]), run[1..], w, t, deadline)
  }

  function DueAfter(s: State, timeout: int): int { s.clock + timeout }

  /** The same from the end of a Run on: the deadline counts from when the thread is through with it. */
  ghost predicate RunsOnTime(s: State, run: seq<Step>, w: ThreadId, t: TaskId, timeout: int)
    requires ValidRun(s, run)
    decreases |run|
  {
    run != [] ==>
      var s' := Apply(s, run[0]);
      && !Deletes(s, run[0], t) && !StartsRun(s, run[0], t)
      && if Returning(s', w, t, timeout) then RunsOnTime(s', run[1..], w, t, timeout)
         else RunsAfter(s', run[1..], w, t, DueAfter(s', timeout))
  }

  /** The task waits in the heap of w, with kIdleEvent set or about to be; or w has taken it out, in time. */
  ghost predicate Timed(s: State, w: ThreadId, t: TaskId, deadline: int) {
    w < |s.threads| && (InHeapUntil(s, t, w, deadline) || (s.threads[w].pc == Got(t) && deadline <= s.clock))
    && (Pending(s, t, KIDLE_EVENT) || s.threads[w].pc == Inserted(t))
  }

  lemma TimedIsAt(s: State, w: ThreadId, t: TaskId, deadline: int)
    requires Timed(s, w, t, deadline)
    ensures At(s, t, InHeap(w)) || (At(s, t, AtEntry(w)) && s.threads[w].pc == Got(t) && deadline <= s.clock)
  {
    if InHeapUntil(s, t, w, deadline) { HeapEntryIsThere(s, t, w, deadline); }
  }

  /** Nobody deletes the task or returns its events meanwhile, and only w starts a Run of it. */
  lemma TimedIsSafe(s: State, step: Step, w: ThreadId, t: TaskId, deadline: int)
    requires Inv(s) && Enabled(s, step) && Timed(s, w, t, deadline)
    ensures !Deletes(s, step, t) && !ReturnsOrDeletes(s, step, t, KIDLE_EVENT)
    ensures StartsRun(s, step, t) ==> step.w == w && s.threads[w].pc == Got(t) && deadline <= s.clock && Pending(s, t, KIDLE_EVENT)
  {
    if (step.Delete? || step.SubEvents? || step.StartRun?) && TaskOf(s, step.w) == Some(t) {
      HolderTook(s, w, t, deadline, step.w);
    }
  }

  /** A thread that has the task in its loop meanwhile is w, which has just taken it out. */
  lemma HolderTook(s: State, w: ThreadId, t: TaskId, deadline: int, v: ThreadId)
    requires Inv(s) && Timed(s, w, t, deadline) && At(s, t, AtEntry(v))
    ensures v == w && s.threads[w].pc == Got(t) && deadline <= s.clock && Pending(s, t, KIDLE_EVENT)
  {
    TimedIsAt(s, w, t, deadline);
    OnlyPlace(s, t, AtEntry(v));
  }

  lemma IdleIsSet(e: Word)
    ensures Meets(Or(e, KIDLE_EVENT), KIDLE_EVENT) && KIDLE_EVENT & KALIVE == 0
  {
    assert (e | KIDLE_EVENT) & KIDLE_EVENT == KIDLE_EVENT;
  }

  /** kIdleEvent is set before the thread goes on, and stays set. */
  lemma IdleStays(s: State, step: Step, w: ThreadId, t: TaskId, deadline: int)
    requires Inv(s) && Enabled(s, step) && Timed(s, w, t, deadline)
    ensures Pending(Apply(s, step), t, KIDLE_EVENT)
         || (w < |Apply(s, step).threads| && Apply(s, step).threads[w].pc == Inserted(t))
  {
    TimedIsSafe(s, step, w, t, deadline);
    IdleIsSet(0);
    if Pending(s, t, KIDLE_EVENT) {
      StepKeepsEvent(s, step, t, KIDLE_EVENT);
    } else if !OfThread(step) {
      StepStays(s, step);
    } else {
      StepMoves(s, step);
      if step == SetIdle(w) {
        StepEvents(s, step, t);
        IdleIsSet(s.tasks[t].fEvents);
      }
    }
  }

  lemma PlaceStays(s: State, step: Step, w: ThreadId, t: TaskId, deadline: int)
    requires Inv(s) && Enabled(s, step) && Timed(s, w, t, deadline) && !StartsRun(s, step, t)
    ensures var s' := Apply(s, step);
      w < |s'.threads| && (InHeapUntil(s', t, w, deadline) || (s'.threads[w].pc == Got(t) && deadline <= s'.clock))
  {
    ClockGrows(s, step);
    if InHeapUntil(s, t, w, deadline) {
      if step.TakeTimer? && s.threads[step.w].fHeap[0].item == t {
        TakenIsDue(s, t, w, step.w, deadline);
        TakenHere(s, t, w, step.w, deadline);
        StepMoves(s, step);
      } else {
        TimerStays(s, step, w, Entry(deadline, t));
      }
    } else if OfThread(step) {
      StepMoves(s, step);
    } else {
      StepStays(s, step);
    }
  }

  lemma TakenHere(s: State, t: TaskId, w: ThreadId, v: ThreadId, deadline: int)
    requires Inv(s) && InHeapUntil(s, t, w, deadline) && Enabled(s, TakeTimer(v)) && s.threads[v].fHeap[0].item == t
    ensures v == w
  {
    HeapEntryIsThere(s, t, w, deadline);
    assert HasItem(s.threads[v].fHeap, t) && At(s, t, InHeap(v));
    OnePlace(s, t, InHeap(w), InHeap(v));
  }

  lemma {:induction false} TimedRuns(s: State, run: seq<Step>, w: ThreadId, t: TaskId, deadline: int)
    requires Inv(s) && ValidRun(s, run) && Timed(s, w, t, deadline)
    ensures RunsAfter(s, run, w, t, deadline)
    decreases |run|
  {
    if run != [] {
      TimedIsSafe(s, run[0], w, t, deadline);
      if !StartsRun(s, run[0], t) {
        IdleStays(s, run[0], w, t, deadline);
        PlaceStays(s, run[0], w, t, deadline);
        StepKeepsInv(s, run[0]);
        TimedRuns(Apply(s, run[0]), run[1..], w, t, deadline);
      }
    }
  }

  /** On its way out nobody runs the task, and with a positive timeout nobody deletes it. */
  lemma NotRunOnWayOut(s: State, step: Step, w: ThreadId, t: TaskId, timeout: int)
    requires Inv(s) && Returning(s, w, t, timeout) && Enabled(s, step) && timeout > 0
    ensures !Deletes(s, step, t) && !StartsRun(s, step, t)
  {
    assert At(s, t, AtEntry(w));
    if (step.Delete? || step.StartRun?) && TaskOf(s, step.w) == Some(t) {
      OnePlace(s, t, AtEntry(w), AtEntry(step.w));
    }
  }

  lemma TimerStarts(s: State, step: Step, w: ThreadId, t: TaskId, timeout: int)
    requires Inv(s) && Returning(s, w, t, timeout) && Enabled(s, step) && timeout > 0
    requires !Returning(Apply(s, step), w, t, timeout)
    ensures Timed(Apply(s, step), w, t, DueAfter(Apply(s, step), timeout))
  {
    StepOut(s, step, w, t, timeout);
    if OfThread(step) {
      StepMoves(s, step);
    } else {
      StepStays(s, step);
      StepOwn(s, step, t);
    }
  }

  lemma {:induction false} WayToTimer(s: State, run: seq<Step>, w: ThreadId, t: TaskId, timeout: int)
    requires Inv(s) && ValidRun(s, run) && Returning(s, w, t, timeout) && timeout > 0
    ensures RunsOnTime(s, run, w, t, timeout)
    decreases |run|
  {
    if run != [] {
      StepToTimer(s, run[0], w, t, timeout);
      if Returning(Apply(s, run[0]), w, t, timeout) {
        WayToTimer(Apply(s, run[0]), run[1..], w, t, timeout);
      } else {
        TimedRuns(Apply(s, run[0]), run[1..], w, t, DueAfter(Apply(s, run[0]), timeout));
      }
    }
  }

  lemma StepToTimer(s: State, step: Step, w: ThreadId, t: TaskId, timeout: int)
    requires Inv(s) && Returning(s, w, t, timeout) && Enabled(s, step) && timeout > 0
    ensures !Deletes(s, step, t) && !StartsRun(s, step, t) && Inv(Apply(s, step))
    ensures !Returning(Apply(s, step), w, t, timeout) ==> Timed(Apply(s, step), w, t, DueAfter(Apply(s, step), timeout))
  {
    NotRunOnWayOut(s, step, w, t, timeout);
    StepKeepsInv(s, step);
    if !Returning(Apply(s, step), w, t, timeout) {
      TimerStarts(s, step, w, t, timeout);
    }
  }

  /** A task whose Run returns a positive timeout is not deleted before its next Run, and is run again by the same
      thread, not before that time has passed, and with kIdleEvent among its events. */
  lemma TimerNotEarly(s: State, w: ThreadId, timeout: int, run: seq<Step>)
    requires Reachable(s) && timeout > 0 && Enabled(s, EndRun(w, timeout)) && ValidRun(Apply(s, EndRun(w, timeout)), run)
    ensures RunsOnTime(Apply(s, EndRun(w, timeout)), run, w, s.threads[w].pc.task, timeout)
  {
    ReachableInv(s);
    RunReturns(s, w, timeout);
    WayToTimer(Apply(s, EndRun(w, timeout)), run, w, s.threads[w].pc.task, timeout);
  }

  // ----- GetEvents -----

  /** All of the bits are among the events. */
  ghost predicate Covers(events: Word, bits: Word) { bits & events == bits }

  /** When the thread's GetEvents comes to its end in the run, it returns all of these bits. */
  ghost predicate ReturnsAll(s: State, run: seq<Step>, w: ThreadId, bits: Word)
    requires ValidRun(s, run)
    decreases |run|
  {
    run != [] ==>
      if run[0] == SubEvents(w) then Covers(ReadBy(s, w), bits) else ReturnsAll(Apply(s, run[0]), run[1..], w, bits)
  }

  lemma ReadsAll(e: Word, bits: Word)
    requires Covers(e, bits) && bits & KALIVE == 0
    ensures Covers(e & KALIVE_OFF, bits)
  {
  }

  /** Until its atomic_sub the thread stays where it is. */
  lemma ReaderStays(s: State, step: Step, w: ThreadId)
    requires Enabled(s, step) && step != SubEvents(w) && w < |s.threads| && s.threads[w].pc.Reading?
    ensures w < |Apply(s, step).threads| && Apply(s, step).threads[w].pc == s.threads[w].pc
  {
    if OfThread(step) { StepMoves(s, step); } else { StepStays(s, step); }
  }

  lemma {:induction false} ReadStays(s: State, run: seq<Step>, w: ThreadId, pc: WorkerPc, bits: Word)
    requires ValidRun(s, run) && w < |s.threads| && s.threads[w].pc == pc && pc.Reading? && Covers(pc.events, bits)
    ensures ReturnsAll(s, run, w, bits)
    decreases |run|
  {
    if run != [] && run[0] != SubEvents(w) {
      ReaderStays(s, run[0], w);
      ReadStays(Apply(s, run[0]), run[1..], w, pc, bits);
    }
  }

  lemma ReaderReads(s: State, w: ThreadId, bits: Word)
    requires RunEnabled(s, ReadEvents(w))
    requires Covers(s.tasks[s.threads[w].pc.task].fEvents, bits) && bits & KALIVE == 0
    ensures var s' := ApplyReadEvents(s, w);
      w < |s'.threads| && s'.threads[w].pc.Reading? && Covers(s'.threads[w].pc.events, bits)
  {
    ReadsAll(s.tasks[s.threads[w].pc.task].fEvents, bits);
  }

  /** GetEvents returns every event that is pending when it begins. */
  lemma GetEventsReturnsAll(s: State, w: ThreadId, bits: Word, run: seq<Step>)
    requires Enabled(s, ReadEvents(w)) && ValidRun(Apply(s, ReadEvents(w)), run)
    requires Covers(s.tasks[s.threads[w].pc.task].fEvents, bits) && bits & KALIVE == 0
    ensures ReturnsAll(Apply(s, ReadEvents(w)), run, w, bits)
  {
    ReaderReads(s, w, bits);
    ReadStays(Apply(s, ReadEvents(w)), run, w, Apply(s, ReadEvents(w)).threads[w].pc, bits);
  }
}
