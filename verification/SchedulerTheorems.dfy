/** What the scheduler promises over whole runs. */
module SchedulerTheorems {
  import opened Atomic
  import opened HeapOrder
  import opened Sequences
  import opened Wrappers
  import opened Scheduler
  import opened SchedulerInvariant
  import opened SchedulerSteps
  import opened SchedulerEffects

  lemma InitialInv(s: State)
    requires Initial(s)
    ensures Inv(s)
  {
    assert Placed(s, map[]);
  }

  lemma {:induction false} RunKeepsInv(s: State, run: seq<Step>)
    requires Inv(s) && ValidRun(s, run)
    ensures Inv(After(s, run))
    decreases |run|
  {
    if run != [] {
      StepKeepsInv(s, run[0]);
      RunKeepsInv(Apply(s, run[0]), run[1..]);
    }
  }

  /** A state some run from an idle pool leads to. */
  ghost predicate Reachable(s: State) {
    exists s0: State, run: seq<Step> :: Initial(s0) && ValidRun(s0, run) && After(s0, run) == s
  }

  lemma ReachableInv(s: State)
    requires Reachable(s)
    ensures Inv(s)
  {
    var s0: State, run: seq<Step> :| Initial(s0) && ValidRun(s0, run) && After(s0, run) == s;
    InitialInv(s0);
    RunKeepsInv(s0, run);
  }

  // ----- One place -----

  /** In every reachable state a live task has kAlive exactly when it is in some place, and no task is
      ever in two places. */
  lemma ExactlyOnePlace(s: State, t: TaskId)
    requires Reachable(s)
    ensures t in s.tasks && IsAlive(s.tasks[t]) <==> exists p :: At(s, t, p)
    ensures forall p, q :: At(s, t, p) && At(s, t, q) ==> p == q
  {
    ReachableInv(s);
    var own :| Placed(s, own);
    if t in own { assert At(s, t, own[t]); }
  }

  /** Run is never entered for one task by two threads, and a task being run is in no queue or heap and
      with no signaller. */
  lemma RunIsExclusive(s: State, w: ThreadId, t: TaskId)
    requires Reachable(s) && w < |s.threads| && InEntry(s.threads[w].pc) && s.threads[w].pc.task == t
    ensures forall v :: 0 <= v < |s.threads| && InEntry(s.threads[v].pc) && s.threads[v].pc.task == t ==> v == w
    ensures forall v :: 0 <= v < |s.threads| ==> t !in s.threads[v].fTaskQueue && !HasItem(s.threads[v].fHeap, t)
    ensures forall id :: id in s.signals ==> s.signals[id].task != t
  {
    ReachableInv(s);
    OnlyPlace(s, t, AtEntry(w));
    forall v | 0 <= v < |s.threads|
      ensures InEntry(s.threads[v].pc) && s.threads[v].pc.task == t ==> v == w
      ensures t !in s.threads[v].fTaskQueue && !HasItem(s.threads[v].fHeap, t)
    {
      assert !At(s, t, InQueue(v)) && !At(s, t, InHeap(v));
      assert At(s, t, AtEntry(v)) ==> v == w;
    }
    forall id | id in s.signals
      ensures s.signals[id].task != t
    {
      assert !At(s, t, AtSignal(id));
    }
  }

  /** EnQueue always finds the element in no queue, and both removals on deletion find nothing. */
  lemma QueueAndHeapUse(s: State, step: Step)
    requires Reachable(s) && Enabled(s, step)
    ensures step.SignalEnQueue? ==>
      forall w :: 0 <= w < |s.threads| ==> s.signals[step.id].task !in s.threads[w].fTaskQueue
    ensures step.Delete? ==>
      forall w :: 0 <= w < |s.threads| ==>
        s.threads[step.w].pc.task !in s.threads[w].fTaskQueue && !HasItem(s.threads[w].fHeap, s.threads[step.w].pc.task)
  {
    ReachableInv(s);
    if step.SignalEnQueue? {
      OnlyPlace(s, s.signals[step.id].task, AtSignal(step.id));
      forall w | 0 <= w < |s.threads|
        ensures s.signals[step.id].task !in s.threads[w].fTaskQueue
      {
        assert !At(s, s.signals[step.id].task, InQueue(w));
      }
    } else if step.Delete? {
      RunIsExclusive(s, step.w, s.threads[step.w].pc.task);
    }
  }

  // ----- No event is lost -----

  /** A pending event means the task is in exactly one place. */
  lemma PendingIsScheduled(s: State, t: TaskId)
    requires Reachable(s) && t in s.tasks && s.tasks[t].fEvents & KALIVE_OFF != 0
    ensures exists p :: At(s, t, p) && forall q :: At(s, t, q) ==> q == p
  {
    ReachableInv(s);
    ExactlyOnePlace(s, t);
    assert PendingIsAlive(s.tasks[t]);
    var p :| At(s, t, p);
  }

  /** The read and the later atomic_sub of GetEvents clear exactly the events that are returned, whatever
      was signalled in between, and leave kAlive alone. */
  lemma GetEventsIsAndNot(s: State, w: ThreadId)
    requires Reachable(s) && Enabled(s, SubEvents(w))
    ensures StillSet(s.threads[w].pc.events, s.tasks[s.threads[w].pc.task].fEvents)
    ensures Cleared(s.tasks[s.threads[w].pc.task], s.threads[w].pc.events,
                    Apply(s, SubEvents(w)).tasks[s.threads[w].pc.task])
    ensures IsAlive(Apply(s, SubEvents(w)).tasks[s.threads[w].pc.task]) == IsAlive(s.tasks[s.threads[w].pc.task])
  {
    ReachableInv(s);
    AndNot(s.tasks[s.threads[w].pc.task], s.threads[w].pc.events);
    AndNotKeepsAlive(s.tasks[s.threads[w].pc.task], s.threads[w].pc.events);
  }

  /** Exactly the given events are cleared. */
  ghost predicate Cleared(before: Task, events: Word, after: Task) {
    after.fEvents == before.fEvents & !events
  }

  lemma AndNot(task: Task, events: Word)
    requires StillSet(events, task.fEvents)
    ensures Cleared(task, events, task.(fEvents := Sub(task.fEvents, events)))
  {
    SubClearsBits(task.fEvents, events);
  }

  lemma AndNotKeepsAlive(task: Task, events: Word)
    requires StillSet(events, task.fEvents)
    ensures IsAlive(task.(fEvents := Sub(task.fEvents, events))) == IsAlive(task)
  {
    SubKeepsAlive(task.fEvents, events);
  }

  /** Only the compare-and-store of Entry takes a task out of scheduling, and only with no event pending. */
  lemma RetiredOnlyWhenIdle(s: State, step: Step, t: TaskId)
    requires Reachable(s) && Enabled(s, step)
    requires Scheduled(s, t) && t in Apply(s, step).tasks && !Scheduled(Apply(s, step), t)
    ensures step.CompareAndStore? && s.threads[step.w].pc.task == t
    ensures s.tasks[t].fEvents & KALIVE_OFF == 0
  {
    ReachableInv(s);
    DeletedIsGone(s, step, t);
    StepEvents(s, step, t);
    RetiringChange(s, step, t);
  }

  lemma RetiringChange(s: State, step: Step, t: TaskId)
    requires ReadsInv(s) && Enabled(s, step) && Scheduled(s, t)
    requires WordAfter(s.tasks[t].fEvents, ChangeOf(s, step, t)) & KALIVE == 0
    ensures step.CompareAndStore? && s.threads[step.w].pc.task == t
    ensures s.tasks[t].fEvents & KALIVE_OFF == 0
  {
    ChangeIsSound(s, step, t);
    if !ChangeOf(s, step, t).Retired? { StaysAlive(s.tasks[t].fEvents, ChangeOf(s, step, t)); }
    AliveIsNoEvent();
  }

  lemma DeletedIsGone(s: State, step: Step, t: TaskId)
    requires Enabled(s, step)
    ensures Deletes(s, step, t) ==> t !in Apply(s, step).tasks
  {
  }

  lemma ChangeIsSound(s: State, step: Step, t: TaskId)
    requires ReadsInv(s) && Enabled(s, step) && t in s.tasks
    ensures ChangeOf(s, step, t).Subbed? ==> StillSet(ChangeOf(s, step, t).events, s.tasks[t].fEvents)
    ensures ChangeOf(s, step, t).Retired? ==>
      s.tasks[t].fEvents == KALIVE && step.CompareAndStore? && s.threads[step.w].pc.task == t
  {
  }

  /** Every other change leaves kAlive set. */
  lemma StaysAlive(e: Word, c: Change)
    requires e & KALIVE != 0 && !c.Retired? && (c.Subbed? ==> StillSet(c.events, e))
    ensures WordAfter(e, c) & KALIVE != 0
  {
    if c.Ored? {
      OredIsAlive(e, c.x);
    } else if c.Subbed? {
      SubbedIsAlive(e, c.events);
    } else {
      assert WordAfter(e, c) == e;
    }
  }

  lemma OredIsAlive(e: Word, x: Word)
    requires e & KALIVE != 0
    ensures WordAfter(e, Ored(x)) & KALIVE != 0
  {
    OrKeepsAlive(e, x);
  }

  lemma SubbedIsAlive(e: Word, events: Word)
    requires e & KALIVE != 0 && StillSet(events, e)
    ensures WordAfter(e, Subbed(events)) & KALIVE != 0
  {
    SubKeepsAlive(e, events);
  }

  lemma AliveIsNoEvent()
    ensures KALIVE & KALIVE_OFF == 0
  {
  }

  /** One of the bits is pending for the task. */
  ghost predicate Pending(s: State, t: TaskId, bits: Word) {
    t in s.tasks && Meets(s.tasks[t].fEvents, bits)
  }

  ghost predicate Meets(e: Word, bits: Word) { e & bits != 0 }

  /** The step is a GetEvents of the task that returns one of the bits, or the deletion of the task. */
  ghost predicate ReturnsOrDeletes(s: State, step: Step, t: TaskId, bits: Word) {
    || (step.SubEvents? && TaskOf(s, step.w) == Some(t) && Meets(ReadBy(s, step.w), bits))
    || Deletes(s, step, t)
  }

  /** Somewhere in the run there is such a step. */
  ghost predicate ReturnedOrDeleted(s: State, run: seq<Step>, t: TaskId, bits: Word)
    requires ValidRun(s, run)
    decreases |run|
  {
    run != [] && (ReturnsOrDeletes(s, run[0], t, bits) || ReturnedOrDeleted(Apply(s, run[0]), run[1..], t, bits))
  }

  /** Only a subtraction can clear all the given bits of a word, and then it returns one of them. */
  lemma OnlySubClears(e: Word, c: Change, bits: Word)
    requires Meets(e, bits) && bits & KALIVE == 0
    requires c.Subbed? ==> StillSet(c.events, e)
    requires c.Retired? ==> e == KALIVE
    ensures Meets(WordAfter(e, c), bits) || (c.Subbed? && Meets(c.events, bits))
  {
    match c
    case Same =>
    case Ored(x) => OrKeepsBits(e, x, bits);
    case Subbed(events) => SubLosesOnlyReturned(e, events, bits);
    case Retired => AliveMissesBits(bits);
  }

  lemma AliveMissesBits(bits: Word)
    requires bits & KALIVE == 0
    ensures !Meets(KALIVE, bits)
  {
  }

  lemma OrKeepsBits(e: Word, x: Word, bits: Word)
    requires Meets(e, bits)
    ensures Meets(Or(e, x), bits)
  {
  }

  lemma SubLosesOnlyReturned(e: Word, ev: Word, bits: Word)
    requires StillSet(ev, e) && Meets(e, bits)
    ensures Meets(Sub(e, ev), bits) || Meets(ev, bits)
  {
    SubClearsBits(e, ev);
  }

  /** The only step that clears a pending event of a live task is the atomic_sub that returns it. */
  lemma StepKeepsEvent(s: State, step: Step, t: TaskId, bits: Word)
    requires Inv(s) && Enabled(s, step) && Pending(s, t, bits) && bits & KALIVE == 0
    ensures ReturnsOrDeletes(s, step, t, bits) || Pending(Apply(s, step), t, bits)
  {
    if !Deletes(s, step, t) {
      StepEvents(s, step, t);
      ChangeIsSound(s, step, t);
      OnlySubClears(s.tasks[t].fEvents, ChangeOf(s, step, t), bits);
    }
  }

  /** A signalled event stays set until a GetEvents of the task returns it, however signals, reads and
      subtractions interleave; only deletion of the task ends it otherwise. */
  lemma {:induction false} NoEventLost(s: State, run: seq<Step>, t: TaskId, bits: Word)
    requires Inv(s) && ValidRun(s, run) && Pending(s, t, bits) && bits & KALIVE == 0
    ensures ReturnedOrDeleted(s, run, t, bits) || Pending(After(s, run), t, bits)
    decreases |run|
  {
    if run != [] && !ReturnsOrDeletes(s, run[0], t, bits) {
      StepKeepsEvent(s, run[0], t, bits);
      StepKeepsInv(s, run[0]);
      NoEventLost(Apply(s, run[0]), run[1..], t, bits);
    }
  }

  lemma OrSetsBit(e: Word, x: Word, bit: Word)
    requires bit != 0 && bit & x == bit
    ensures Meets(Or(e, Or(x, KALIVE)), bit)
  {
    assert (e | (x | KALIVE)) & bit == bit;
  }

  /** The same from the caller's side, for each event: what Signal sends is returned by a later GetEvents or
      still pending, unless the task was deleted. */
  lemma SignalIsDelivered(s: State, id: SignalId, t: TaskId, events: Word, bit: Word, run: seq<Step>)
    requires Reachable(s) && Enabled(s, SignalOr(id, t, events))
    requires ValidRun(Apply(s, SignalOr(id, t, events)), run)
    requires bit != 0 && bit & events == bit && bit & KALIVE == 0
    ensures var s1 := Apply(s, SignalOr(id, t, events));
      ReturnedOrDeleted(s1, run, t, bit) || Pending(After(s1, run), t, bit)
  {
    var signal := SignalOr(id, t, events);
    ReachableInv(s);
    StepKeepsInv(s, signal);
    OrSetsBit(s.tasks[t].fEvents, events, bit);
    NoEventLost(Apply(s, signal), run, t, bit);
  }

  // ----- Timers -----

  /** Every timer heap is min-ordered. The timer a thread takes was due when it read the clock, and none of its
      timers has an earlier deadline; exactly this one leaves its heap. */
  lemma TimersInOrder(s: State, w: ThreadId)
    requires Reachable(s) && w < |s.threads|
    ensures MinOrdered(s.threads[w].fHeap)
    ensures Enabled(s, TakeTimer(w)) ==>
      exists e :: e in s.threads[w].fHeap && e.value <= s.threads[w].pc.now <= s.clock && TakesEarliest(s, w, e)
  {
    ReachableInv(s);
    assert ThreadInv(s.threads[w], s.clock);
    if Enabled(s, TakeTimer(w)) {
      TakesRoot(s, w);
    }
  }

  /** Taking its timer the thread gets this entry, and no entry is earlier. */
  ghost predicate TakesEarliest(s: State, w: ThreadId, e: Entry<TaskId>)
    requires Enabled(s, TakeTimer(w))
  {
    var s' := Apply(s, TakeTimer(w));
    && w < |s'.threads| && s'.threads[w].pc == Got(e.item)
    && (forall x :: x in s.threads[w].fHeap ==> e.value <= x.value)
    && multiset(s'.threads[w].fHeap) + multiset{e} == multiset(s.threads[w].fHeap)
  }

  lemma TakesRoot(s: State, w: ThreadId)
    requires WaitEnabled(s, TakeTimer(w)) && MinOrdered(s.threads[w].fHeap)
    ensures TakesEarliest(s, w, s.threads[w].fHeap[0])
  {
    ExtractMinIsLeast(s.threads[w].fHeap);
    ExtractRemoves(s.threads[w].fHeap, 1);
    StepMoves(s, TakeTimer(w));
  }

  /** A thread that has read the clock takes a timer exactly when one in its heap is due, and goes to block exactly
      when none is. */
  lemma BlocksOnlyWhenNothingIsDue(s: State, w: ThreadId)
    requires Reachable(s) && w < |s.threads| && s.threads[w].pc.Peeking?
    ensures Enabled(s, TakeTimer(w)) <==> exists e :: e in s.threads[w].fHeap && e.value <= s.threads[w].pc.now
    ensures Enabled(s, StartBlocking(w)) <==> forall e :: e in s.threads[w].fHeap ==> s.threads[w].pc.now < e.value
  {
    ReachableInv(s);
    assert ThreadInv(s.threads[w], s.clock);
    if s.threads[w].fHeap != [] {
      ExtractMinIsLeast(s.threads[w].fHeap);
      assert s.threads[w].fHeap[0] in s.threads[w].fHeap;
    }
  }

  ghost predicate StartsRun(s: State, step: Step, t: TaskId) {
    step.StartRun? && TaskOf(s, step.w) == Some(t)
  }

  lemma OtherEntriesStay<T(!new)>(h: Heap<T>, e: Entry<T>, x: Entry<T>)
    requires e in h
    ensures e in Insert(h, x)
    ensures e != h[0] ==> e in Extract(h, 1)
  {
    InsertAdds(h, x);
    ExtractRemoves(h, 1);
    assert e in multiset(h);
    assert e in multiset(Insert(h, x));
    assert e != h[0] ==> e in multiset(Extract(h, 1));
  }

  lemma TimerStays(s: State, step: Step, w: ThreadId, e: Entry<TaskId>)
    requires Inv(s) && Enabled(s, step) && w < |s.threads| && e in s.threads[w].fHeap
    requires step.TakeTimer? ==> s.threads[step.w].fHeap[0].item != e.item
    ensures w < |Apply(s, step).threads| && e in Apply(s, step).threads[w].fHeap
  {
    if !OfThread(step) {
      StepStays(s, step);
    } else {
      StepMoves(s, step);
      if step.w == w {
        EntryStays(s, step, e);
      }
    }
  }

  lemma EntryStays(s: State, step: Step, e: Entry<TaskId>)
    requires Inv(s) && Enabled(s, step) && OfThread(step) && e in s.threads[step.w].fHeap
    requires step.TakeTimer? ==> s.threads[step.w].fHeap[0].item != e.item
    ensures e in HeapAfter(s, step)
  {
    var th := s.threads[step.w];
    if step.TakeTimer? {
      OtherEntriesStay(th.fHeap, e, e);
    } else if step.InsertTimer? {
      OtherEntriesStay(th.fHeap, e, Entry(s.clock + th.pc.timeout, th.pc.task));
    } else if step.Delete? {
      DeleteRemovesNothing(s, step.w);
    }
  }

  ghost predicate InHeapUntil(s: State, t: TaskId, w: ThreadId, deadline: int) {
    w < |s.threads| && Entry(deadline, t) in s.threads[w].fHeap
  }

  lemma HeapEntryIsThere(s: State, t: TaskId, w: ThreadId, deadline: int)
    requires InHeapUntil(s, t, w, deadline)
    ensures At(s, t, InHeap(w))
  {
    var h := s.threads[w].fHeap;
    var i :| 0 <= i < |h| && h[i] == Entry(deadline, t);
    assert h[i].item == t;
  }

  lemma ClockGrows(s: State, step: Step)
    requires Enabled(s, step)
    ensures s.clock <= Apply(s, step).clock
  {
    if OfThread(step) { StepMoves(s, step); } else { StepStays(s, step); }
  }

  /** A thread that takes the task out of a heap finds its deadline reached. */
  lemma TakenIsDue(s: State, t: TaskId, w: ThreadId, v: ThreadId, deadline: int)
    requires Inv(s) && InHeapUntil(s, t, w, deadline) && Enabled(s, TakeTimer(v)) && s.threads[v].fHeap[0].item == t
    ensures deadline <= s.clock
  {
    HeapEntryIsThere(s, t, w, deadline);
    assert HasItem(s.threads[v].fHeap, t) && At(s, t, InHeap(v));
    OnePlace(s, t, InHeap(w), InHeap(v));
    assert ThreadInv(s.threads[w], s.clock);
  }

  lemma TimerIsSet(s: State, w: ThreadId)
    requires LeaveEnabled(s, InsertTimer(w))
    ensures InHeapUntil(ApplyInsertTimer(s, w), s.threads[w].pc.task, w, s.clock + s.threads[w].pc.timeout)
  {
    NewEntryIsIn(s.threads[w].fHeap, Entry(s.clock + s.threads[w].pc.timeout, s.threads[w].pc.task));
  }

  lemma NewEntryIsIn<T(!new)>(h: Heap<T>, e: Entry<T>)
    ensures e in Insert(h, e)
  {
    InsertAdds(h, e);
    assert e in multiset(Insert(h, e));
  }

  // ----- The same thread -----

  /** The next Run of t in the run is on thread w, unless t is deleted first. */
  ghost predicate NextRunOn(s: State, run: seq<Step>, t: TaskId, w: ThreadId)
    requires ValidRun(s, run)
    decreases |run|
  {
    run != [] && !Deletes(s, run[0], t) ==>
      if StartsRun(s, run[0], t) then run[0].w == w
      else NextRunOn(Apply(s, run[0]), run[1..], t, w)
  }

  lemma {:induction false} UserRunsThere(s: State, run: seq<Step>, t: TaskId, w: ThreadId)
    requires Inv(s) && ValidRun(s, run) && t in s.tasks && s.tasks[t].fUseThisThread == Some(w)
    ensures NextRunOn(s, run, t, w)
    decreases |run|
  {
    if run != [] && !Deletes(s, run[0], t) {
      var step := run[0];
      if StartsRun(s, step, t) {
        assert At(s, t, AtEntry(step.w));
      } else {
        UseThisThreadStays(s, step, t);
        StepKeepsInv(s, step);
        UserRunsThere(Apply(s, step), run[1..], t, w);
      }
    }
  }

  /** A task that calls ForceSameThread or CallLocked in Run is next run by the same thread, whether it is
      rescheduled by a timer or by a signal, and whatever default thread it is given. */
  lemma ForceSameThreadHolds(s: State, step: Step, run: seq<Step>)
    requires Inv(s) && (step.ForceSameThread? || step.CallLocked?) && Enabled(s, step) && ValidRun(Apply(s, step), run)
    ensures NextRunOn(Apply(s, step), run, s.threads[step.w].pc.task, step.w)
  {
    StepKeepsInv(s, step);
    StepOwn(s, step, s.threads[step.w].pc.task);
    UserRunsThere(Apply(s, step), run, s.threads[step.w].pc.task, step.w);
  }

  lemma UseThisThreadStays(s: State, step: Step, t: TaskId)
    requires Inv(s) && Enabled(s, step) && t in s.tasks && s.tasks[t].fUseThisThread.Some?
    requires !Deletes(s, step, t) && !StartsRun(s, step, t)
    ensures t in Apply(s, step).tasks && Apply(s, step).tasks[t].fUseThisThread == s.tasks[t].fUseThisThread
  {
    StepOwn(s, step, t);
    UseStays(s, step, t);
  }

  lemma UseStays(s: State, step: Step, t: TaskId)
    requires AffinityInv(s) && Enabled(s, step) && t in s.tasks && s.tasks[t].fUseThisThread.Some? && !StartsRun(s, step, t)
    ensures UseAfter(s, step, t) == s.tasks[t].fUseThisThread
  {
    if Subject(s, step) == Some(t) {
      if step.SignalDefault? {
        UserGetsNoDefault(s, step.id, t);
      } else if step.ForceSameThread? || step.CallLocked? {
        UserIsHere(s, step.w, t);
      }
    }
  }

  lemma UserGetsNoDefault(s: State, id: SignalId, t: TaskId)
    requires AffinityInv(s) && id in s.signals && s.signals[id].task == t && t in s.tasks && s.tasks[t].fUseThisThread.Some?
    ensures !s.signals[id].HasDefault?
  {
    assert At(s, t, AtSignal(id));
  }

  lemma UserIsHere(s: State, w: ThreadId, t: TaskId)
    requires AffinityInv(s) && HoldsTask(s, w) && s.threads[w].pc.task == t && s.tasks[t].fUseThisThread.Some?
    ensures s.tasks[t].fUseThisThread == Some(w)
  {
    assert At(s, t, AtEntry(w));
  }

  // ----- Who may write -----

  /** The step is one of whoever has the task in this place. */
  predicate ActsAt(step: Step, p: Place) {
    match p
    case AtSignal(id) => IsSignalStep(step) && step.id == id
    case AtEntry(w) => IsRunnerStep(step) && step.w == w
    case _ => false
  }

  predicate IsRunnerStep(step: Step) {
    step.StartRun? || step.ForceSameThread? || step.CallLocked? || step.GlobalUnlock? || step.EndRun?
  }

  /** Only the holder of a task changes its fUseThisThread and its fWriteLock, so nobody reads them while they
      change. */
  lemma OnlyHolderWrites(s: State, step: Step, t: TaskId)
    requires Reachable(s) && Enabled(s, step) && t in s.tasks && t in Apply(s, step).tasks
    requires var task, task' := s.tasks[t], Apply(s, step).tasks[t];
             task'.fUseThisThread != task.fUseThisThread || task'.fWriteLock != task.fWriteLock
    ensures exists p :: ActsAt(step, p) && OnlyAt(s, t, Some(p))
  {
    ReachableInv(s);
    WriterHasTask(s, step, t);
    OnlyPlace(s, t, WriterPlace(step));
  }

  function WriterPlace(step: Step): Place {
    match step
    case SignalDefault(id) => AtSignal(id)
    case StartRun(w) => AtEntry(w)
    case ForceSameThread(w) => AtEntry(w)
    case CallLocked(w) => AtEntry(w)
    case GlobalUnlock(w, _) => AtEntry(w)
    case EndRun(w, _) => AtEntry(w)
    case _ => AtSignal(0)
  }

  lemma WriterHasTask(s: State, step: Step, t: TaskId)
    requires Enabled(s, step) && t in s.tasks && t in Apply(s, step).tasks
    requires var task, task' := s.tasks[t], Apply(s, step).tasks[t];
             task'.fUseThisThread != task.fUseThisThread || task'.fWriteLock != task.fWriteLock
    ensures ActsAt(step, WriterPlace(step)) && At(s, t, WriterPlace(step))
  {
    if Deletes(s, step, t) {
      DeletedIsGone(s, step, t);
    } else {
      StepOwn(s, step, t);
    }
  }
}
