/** One lemma per step of the scheduler: it keeps the invariant. */
module SchedulerSteps {
  import opened Atomic
  import opened HeapOrder
  import opened Sequences
  import opened Wrappers
  import opened QueueOrder
  import opened Scheduler
  import opened SchedulerInvariant
  import RW = OSMutexRW

  // ----- Signal -----

  lemma OrOnAliveKeepsInv(s: State, t: TaskId, x: Word)
    requires Inv(s) && t in s.tasks && IsAlive(s.tasks[t])
    ensures Inv(SetTask(s, t, s.tasks[t].(fEvents := Or(s.tasks[t].fEvents, x))))
  {
    var task := s.tasks[t].(fEvents := Or(s.tasks[t].fEvents, x));
    OrKeepsAlive(s.tasks[t].fEvents, x);
    forall w | 0 <= w < |s.threads| && s.threads[w].pc.Reading? && s.threads[w].pc.task == t
      ensures StillSet(s.threads[w].pc.events, task.fEvents)
    {
      OrKeepsRead(s.tasks[t].fEvents, x, s.threads[w].pc.events);
    }
    SetTaskKeepsInv(s, t, task);
  }

  lemma SignalWinsMoves(s: State, id: SignalId, t: TaskId, events: Word)
    requires SignalEnabled(s, SignalOr(id, t, events)) && !IsAlive(s.tasks[t]) && OnlyAt(s, t, None)
    ensures OnlyMoves(s, ApplySignalOr(s, id, t, events), t, Some(AtSignal(id)))
  {
    var s' := ApplySignalOr(s, id, t, events);
    OrSetsAlive(s.tasks[t].fEvents, events);
    forall u, p
      ensures At(s', u, p) <==> if u == t then p == AtSignal(id) else At(s, u, p)
    {
      assert At(s, t, p) ==> false;
    }
  }

  lemma SignalWinsKeepsInv(s: State, id: SignalId, t: TaskId, events: Word)
    requires Inv(s) && SignalEnabled(s, SignalOr(id, t, events)) && !IsAlive(s.tasks[t])
    ensures Inv(ApplySignalOr(s, id, t, events))
  {
    var s' := ApplySignalOr(s, id, t, events);
    NotScheduledNowhere(s, t);
    SignalWinsMoves(s, id, t, events);
    MoveKeepsPlaces(s, s', t, Some(AtSignal(id)));
    MoveKeepsAffinity(s, s', t, Some(AtSignal(id)));
    SignalWinsParts(s, id, t, events);
  }

  lemma SignalWinsParts(s: State, id: SignalId, t: TaskId, events: Word)
    requires PartsInv(s) && SignalEnabled(s, SignalOr(id, t, events)) && !IsAlive(s.tasks[t]) && OnlyAt(s, t, None)
    ensures PartsInv(ApplySignalOr(s, id, t, events))
  {
    OrSetsAlive(s.tasks[t].fEvents, events);
    forall w | 0 <= w < |s.threads| && s.threads[w].pc.Reading?
      ensures s.threads[w].pc.task != t
    {
      assert !At(s, t, AtEntry(w));
    }
  }

  lemma SignalOrKeepsInv(s: State, id: SignalId, t: TaskId, events: Word)
    requires Inv(s) && SignalEnabled(s, SignalOr(id, t, events))
    ensures Inv(ApplySignalOr(s, id, t, events))
  {
    if IsAlive(s.tasks[t]) {
      OrOnAliveKeepsInv(s, t, Or(events, KALIVE));
    } else {
      SignalWinsKeepsInv(s, id, t, events);
    }
  }

  lemma SignalTestKeepsInv(s: State, id: SignalId)
    requires Inv(s) && SignalEnabled(s, SignalTest(id))
    ensures Inv(ApplySignalTest(s, id))
  {
    SetSignalKeepsInv(s, id, ApplySignalTest(s, id).signals[id]);
  }

  lemma SignalDefaultKeepsInv(s: State, id: SignalId)
    requires Inv(s) && SignalEnabled(s, SignalDefault(id))
    ensures Inv(ApplySignalDefault(s, id))
  {
    var t := s.signals[id].task;
    OnlyPlace(s, t, AtSignal(id));
    SetSignalKeepsInv(s, id, Defaulted(t));
    var s1 := SetSignal(s, id, Defaulted(t));
    OnlyPlace(s1, t, AtSignal(id));
    SetTaskKeepsInv(s1, t, ApplySignalDefault(s, id).tasks[t]);
  }

  /** The round-robin counters carry no invariant. */
  lemma PickerUpKeepsInv(s: State, picker: Picker)
    requires Inv(s)
    ensures Inv(PickerUp(s, picker))
  {
    var s' := PickerUp(s, picker);
    assert forall u, p :: At(s', u, p) <==> At(s, u, p);
    SamePlacesKeepPlaces(s, s');
    SamePlacesKeepAffinity(s, s');
  }

  lemma SignalPickKeepsInv(s: State, id: SignalId)
    requires Inv(s) && SignalEnabled(s, SignalPick(id))
    ensures Inv(ApplySignalPick(s, id))
  {
    var t := s.signals[id].task;
    var task := s.tasks[t];
    match task.fUseThisThread
    case Some(w) => SetSignalKeepsInv(s, id, Picked(t, w));
    case None =>
      SetSignalKeepsInv(s, id, Picked(t, PickIndex(s, task.pickerToUse)));
      PickerUpKeepsInv(SetSignal(s, id, Picked(t, PickIndex(s, task.pickerToUse))), task.pickerToUse);
  }

  lemma EnQueueMoves(s: State, id: SignalId)
    requires SignalEnabled(s, SignalEnQueue(id))
    requires OnlyAt(s, s.signals[id].task, Some(AtSignal(id))) && Scheduled(s, s.signals[id].task)
    ensures OnlyMoves(s, ApplySignalEnQueue(s, id), s.signals[id].task, Some(InQueue(s.signals[id].thread)))
  {
    var Picked(t, w) := s.signals[id];
    var s' := ApplySignalEnQueue(s, id);
    forall u, p
      ensures At(s', u, p) <==> if u == t then p == InQueue(w) else At(s, u, p)
    {
      assert At(s, t, p) <==> p == AtSignal(id);
    }
  }

  lemma EnQueueParts(s: State, id: SignalId)
    requires PartsInv(s) && SignalEnabled(s, SignalEnQueue(id))
    ensures PartsInv(ApplySignalEnQueue(s, id))
  {
    var w := s.signals[id].thread;
    assert ThreadInv(s.threads[w], s.clock);
    var s' := SetThread(s, w, ApplySignalEnQueue(s, id).threads[w]);
    if s.threads[w].pc.Reading? {
      assert ThreadsInv(s');
    }
  }

  lemma EnQueueKeepsInv(s: State, id: SignalId)
    requires Inv(s) && SignalEnabled(s, SignalEnQueue(id))
    ensures Inv(ApplySignalEnQueue(s, id))
  {
    var Picked(t, w) := s.signals[id];
    var s' := ApplySignalEnQueue(s, id);
    OnlyPlace(s, t, AtSignal(id));
    assert !At(s, t, InQueue(w));
    EnQueueMoves(s, id);
    EnQueueParts(s, id);
    MoveKeepsPlaces(s, s', t, Some(InQueue(w)));
    MoveKeepsAffinity(s, s', t, Some(InQueue(w)));
  }

  // ----- WaitForTask -----

  lemma TakeTimerMoves(s: State, w: ThreadId)
    requires WaitEnabled(s, TakeTimer(w)) && DistinctItems(s.threads[w].fHeap)
    requires OnlyAt(s, s.threads[w].fHeap[0].item, Some(InHeap(w))) && Scheduled(s, s.threads[w].fHeap[0].item)
    ensures OnlyMoves(s, ApplyTakeTimer(s, w), s.threads[w].fHeap[0].item, Some(AtEntry(w)))
  {
    var s' := ApplyTakeTimer(s, w);
    var t := s.threads[w].fHeap[0].item;
    ExtractItems(s.threads[w].fHeap, 1);
    forall u, p
      ensures At(s', u, p) <==> if u == t then p == AtEntry(w) else At(s, u, p)
    {
      assert At(s, t, p) <==> p == InHeap(w);
    }
  }

  lemma TakeTimerParts(s: State, w: ThreadId)
    requires PartsInv(s) && WaitEnabled(s, TakeTimer(w))
    ensures PartsInv(ApplyTakeTimer(s, w))
  {
    var h := s.threads[w].fHeap;
    assert ThreadInv(s.threads[w], s.clock);
    ExtractItems(h, 1);
    ExtractBreaksOnlyEdgeAbove(h, 1);
    SetThreadKeepsParts(s, w, ApplyTakeTimer(s, w).threads[w]);
  }

  lemma TakeTimerKeepsInv(s: State, w: ThreadId)
    requires Inv(s) && WaitEnabled(s, TakeTimer(w))
    ensures Inv(ApplyTakeTimer(s, w))
  {
    var s' := ApplyTakeTimer(s, w);
    var h := s.threads[w].fHeap;
    var t := h[0].item;
    assert ThreadInv(s.threads[w], s.clock);
    assert HasItem(h, t) && At(s, t, InHeap(w));
    OnlyPlace(s, t, InHeap(w));
    TakeTimerMoves(s, w);
    TakeTimerParts(s, w);
    MoveKeepsPlaces(s, s', t, Some(AtEntry(w)));
    MoveKeepsAffinity(s, s', t, Some(AtEntry(w)));
  }

  lemma DeQueueMoves(s: State, w: ThreadId)
    requires WaitEnabled(s, DeQueue(w)) && s.threads[w].fTaskQueue != [] && Distinct(s.threads[w].fTaskQueue)
    requires OnlyAt(s, s.threads[w].fTaskQueue[0], Some(InQueue(w))) && Scheduled(s, s.threads[w].fTaskQueue[0])
    ensures OnlyMoves(s, ApplyDeQueue(s, w), s.threads[w].fTaskQueue[0], Some(AtEntry(w)))
  {
    var s' := ApplyDeQueue(s, w);
    var q := s.threads[w].fTaskQueue;
    var t := q[0];
    assert q == [t] + q[1..];
    forall u, p
      ensures At(s', u, p) <==> if u == t then p == AtEntry(w) else At(s, u, p)
    {
      assert At(s, t, p) <==> p == InQueue(w);
    }
  }

  lemma DeQueueParts(s: State, w: ThreadId)
    requires PartsInv(s) && WaitEnabled(s, DeQueue(w)) && s.threads[w].fTaskQueue != []
    ensures PartsInv(ApplyDeQueue(s, w))
  {
    assert ThreadInv(s.threads[w], s.clock);
    SetThreadKeepsParts(s, w, ApplyDeQueue(s, w).threads[w]);
  }

  lemma DeQueueKeepsInv(s: State, w: ThreadId)
    requires Inv(s) && WaitEnabled(s, DeQueue(w)) && s.threads[w].fTaskQueue != []
    ensures Inv(ApplyDeQueue(s, w))
  {
    var s' := ApplyDeQueue(s, w);
    var q := s.threads[w].fTaskQueue;
    var t := q[0];
    assert ThreadInv(s.threads[w], s.clock);
    OnlyPlace(s, t, InQueue(w));
    DeQueueMoves(s, w);
    DeQueueParts(s, w);
    MoveKeepsPlaces(s, s', t, Some(AtEntry(w)));
    MoveKeepsAffinity(s, s', t, Some(AtEntry(w)));
  }

  // ----- Entry -----

  /** The runner's own changes to its task's thread, lock and run state. */
  lemma RunnerSetsKeepsInv(s: State, w: ThreadId, use: Option<ThreadId>, lock: bool)
    requires Inv(s) && w < |s.threads| && InEntry(s.threads[w].pc) && s.threads[w].pc.task in s.tasks
    requires use == None || use == Some(w)
    ensures Inv(SetTask(s, s.threads[w].pc.task, s.tasks[s.threads[w].pc.task].(fUseThisThread := use, fWriteLock := lock)))
  {
    var t := s.threads[w].pc.task;
    OnlyPlace(s, t, AtEntry(w));
    SetTaskKeepsInv(s, t, s.tasks[t].(fUseThisThread := use, fWriteLock := lock));
  }

  lemma StartRunKeepsInv(s: State, w: ThreadId)
    requires Inv(s) && RunEnabled(s, StartRun(w))
    ensures Inv(ApplyStartRun(s, w))
  {
    var t := s.threads[w].pc.task;
    RunnerSetsKeepsInv(s, w, None, s.tasks[t].fWriteLock);
    SetPcKeepsInv(SetTask(s, t, s.tasks[t].(fUseThisThread := None)), w, ApplyStartRun(s, w).threads[w].pc);
  }

  /** What Run may call on its task. */
  lemma RunCallKeepsInv(s: State, step: Step)
    requires Inv(s) && (step.ForceSameThread? || step.CallLocked?) && RunEnabled(s, step)
    ensures Inv(ApplyRun(s, step))
  {
    RunnerSetsKeepsInv(s, step.w, Some(step.w), step.CallLocked? || s.tasks[s.threads[step.w].pc.task].fWriteLock);
  }

  /** The lock's state does not matter for where tasks are. */
  lemma MutexKeepsInv(s: State, mutex: RW.State)
    requires Inv(s)
    ensures Inv(s.(mutex := mutex))
  {
    var s' := s.(mutex := mutex);
    assert forall u, p :: At(s', u, p) <==> At(s, u, p);
    SamePlacesKeepPlaces(s, s');
    SamePlacesKeepAffinity(s, s');
  }

  lemma LockKeepsInv(s: State, w: ThreadId, call: RW.Step)
    requires Inv(s) && HoldsTask(s, w) && (s.threads[w].pc.Locking? || s.threads[w].pc.InLock?)
    requires RW.Enabled(s.mutex, call) && call.t == w
    ensures Inv(ApplyLock(s, w, call))
  {
    MutexKeepsInv(s, RW.Apply(s.mutex, call));
    SetPcKeepsInv(s.(mutex := RW.Apply(s.mutex, call)), w, ApplyLock(s, w, call).threads[w].pc);
  }

  lemma UnlockKeepsInv(s: State, w: ThreadId, chosen: ThreadId)
    requires Inv(s) && LockEnabled(s, UnlockMutex(w, chosen))
    ensures Inv(ApplyUnlock(s, w, chosen))
  {
    var mutex := RW.Apply(s.mutex, UnlockCall(s, w, chosen));
    MutexKeepsInv(s, mutex);
    SetPcKeepsInv(s.(mutex := mutex), w, Returned(s.threads[w].pc.task, s.threads[w].pc.timeout));
  }

  lemma GlobalUnlockKeepsInv(s: State, w: ThreadId, chosen: ThreadId)
    requires Inv(s) && LockEnabled(s, GlobalUnlock(w, chosen))
    ensures Inv(ApplyGlobalUnlock(s, w, chosen))
  {
    var t := s.threads[w].pc.task;
    if s.tasks[t].fWriteLock {
      var mutex := RW.Apply(s.mutex, UnlockCall(s, w, chosen));
      MutexKeepsInv(s, mutex);
      SetTaskKeepsInv(s.(mutex := mutex), t, s.tasks[t].(fWriteLock := false));
    }
  }

  lemma ReadEventsKeepsInv(s: State, w: ThreadId)
    requires Inv(s) && RunEnabled(s, ReadEvents(w))
    ensures Inv(ApplyReadEvents(s, w))
  {
    var pc := ApplyReadEvents(s, w).threads[w].pc;
    ReadIsStillSet(s.tasks[pc.task].fEvents);
    SetPcKeepsInv(s, w, pc);
  }

  lemma SubKeepsFlags(task: Task, events: Word)
    requires StillSet(events, task.fEvents) && PendingIsAlive(task)
    ensures IsAlive(task.(fEvents := Sub(task.fEvents, events))) == IsAlive(task)
    ensures PendingIsAlive(task.(fEvents := Sub(task.fEvents, events)))
  {
    SubKeepsAlive(task.fEvents, events);
    if task.fEvents & KALIVE_OFF == 0 {
      SubAddsNothing(task.fEvents, events);
    }
  }

  /** A thread at work on its task gives it new event bits. */
  lemma RunnerSetsEvents(s: State, w: ThreadId, task: Task)
    requires Inv(s) && HoldsTask(s, w) && s.threads[w].pc.Running?
    requires task == s.tasks[s.threads[w].pc.task].(fEvents := task.fEvents)
    requires IsAlive(task) == IsAlive(s.tasks[s.threads[w].pc.task]) && PendingIsAlive(task)
    ensures Inv(SetTask(s, s.threads[w].pc.task, task))
  {
    var t := s.threads[w].pc.task;
    OnlyPlace(s, t, AtEntry(w));
    NobodyReads(s, w);
    SetTaskKeepsInv(s, t, task);
  }

  lemma SubEventsKeepsInv(s: State, w: ThreadId)
    requires Inv(s) && RunEnabled(s, SubEvents(w))
    ensures Inv(ApplySubEvents(s, w))
  {
    var s' := ApplySubEvents(s, w);
    var t := s.threads[w].pc.task;
    SubKeepsFlags(s.tasks[t], s.threads[w].pc.events);
    SetPcKeepsInv(s, w, s'.threads[w].pc);
    RunnerSetsEvents(SetPc(s, w, s'.threads[w].pc), w, s'.tasks[t]);
  }

  lemma EndRunKeepsInv(s: State, w: ThreadId, timeout: int)
    requires Inv(s) && RunEnabled(s, EndRun(w, timeout))
    ensures Inv(ApplyEndRun(s, w, timeout))
  {
    var Running(t, mode) := s.threads[w].pc;
    var task := if mode == RW.Write then s.tasks[t].(fWriteLock := false) else s.tasks[t];
    SetTaskKeepsInv(s, t, task);
    SetPcKeepsInv(SetTask(s, t, task), w, Leaving(t, mode, timeout));
  }

  /** The task to delete is in no heap and in no queue, so both removals find nothing. */
  lemma DeleteRemovesNothing(s: State, w: ThreadId)
    requires Inv(s) && LeaveEnabled(s, Delete(w))
    ensures !HasItem(s.threads[w].fHeap, s.threads[w].pc.task)
    ensures RemoveItem(s.threads[w].fHeap, s.threads[w].pc.task) == s.threads[w].fHeap
    ensures forall v :: 0 <= v < |s.threads| ==> s.threads[w].pc.task !in s.threads[v].fTaskQueue
    ensures ApplyDelete(s, w) == SetPc(s, w, Waiting).(tasks := s.tasks - {s.threads[w].pc.task})
  {
    var t := s.threads[w].pc.task;
    assert At(s, t, AtEntry(w));
    if HasItem(s.threads[w].fHeap, t) { OnePlace(s, t, AtEntry(w), InHeap(w)); }
    assert ThreadInv(s.threads[w], s.clock);
    RemoveItemExact(s.threads[w].fHeap, t);
    forall v | 0 <= v < |s.threads|
      ensures t !in s.threads[v].fTaskQueue && Without(s.threads[v].fTaskQueue, t) == s.threads[v].fTaskQueue
    {
      if t in s.threads[v].fTaskQueue { OnePlace(s, t, AtEntry(w), InQueue(v)); }
      WithoutAbsent(s.threads[v].fTaskQueue, t);
    }
    var threads := SetPc(s, w, Waiting).threads;
    assert RemoveEverywhere(threads, t) == threads;
  }

  /** A thread drops the task it had in its loop, which is then no longer scheduled. */
  lemma LeaveEntryMoves(s: State, w: ThreadId, tasks: map<TaskId, Task>)
    requires w < |s.threads| && InEntry(s.threads[w].pc)
    requires OnlyAt(s, s.threads[w].pc.task, Some(AtEntry(w)))
    requires forall u :: u != s.threads[w].pc.task ==> (u in tasks <==> u in s.tasks) && (u in tasks ==> tasks[u] == s.tasks[u])
    requires s.threads[w].pc.task in tasks ==> !IsAlive(tasks[s.threads[w].pc.task])
    ensures OnlyMoves(s, SetPc(s, w, Waiting).(tasks := tasks), s.threads[w].pc.task, None)
  {
    var s' := SetPc(s, w, Waiting).(tasks := tasks);
    var t := s.threads[w].pc.task;
    forall u, p
      ensures At(s', u, p) <==> u != t && At(s, u, p)
    {
      assert At(s, t, p) <==> p == AtEntry(w);
    }
  }

  lemma DeleteKeepsInv(s: State, w: ThreadId)
    requires Inv(s) && LeaveEnabled(s, Delete(w))
    ensures Inv(ApplyDelete(s, w))
  {
    DeleteRemovesNothing(s, w);
    var t := s.threads[w].pc.task;
    var s' := ApplyDelete(s, w);
    OnlyPlace(s, t, AtEntry(w));
    LeaveEntryMoves(s, w, s'.tasks);
    MoveKeepsPlaces(s, s', t, None);
    MoveKeepsAffinity(s, s', t, None);
    DeleteParts(s, w);
  }

  lemma DeleteParts(s: State, w: ThreadId)
    requires PartsInv(s) && w < |s.threads| && s.threads[w].pc.Returned?
    ensures PartsInv(SetPc(s, w, Waiting).(tasks := s.tasks - {s.threads[w].pc.task}))
  {
  }

  lemma RetireParts(s: State, w: ThreadId)
    requires PartsInv(s) && LeaveEnabled(s, CompareAndStore(w)) && s.tasks[s.threads[w].pc.task].fEvents == KALIVE
    requires OnlyAt(s, s.threads[w].pc.task, Some(AtEntry(w)))
    ensures PartsInv(ApplyCompareAndStore(s, w))
  {
    var t := s.threads[w].pc.task;
    var s1 := SetTask(s, t, s.tasks[t].(fEvents := 0));
    NobodyReads(s, w);
    SetTaskKeepsReads(s, t, s.tasks[t].(fEvents := 0));
    assert ThreadInv(s.threads[w], s.clock);
    SetThreadKeepsParts(s1, w, s.threads[w].(pc := Waiting));
  }

  /** No thread but the one that has the task in its loop reads its events. */
  lemma NobodyReads(s: State, w: ThreadId)
    requires w < |s.threads| && InEntry(s.threads[w].pc) && !s.threads[w].pc.Reading?
    requires OnlyAt(s, s.threads[w].pc.task, Some(AtEntry(w)))
    ensures forall v :: 0 <= v < |s.threads| && s.threads[v].pc.Reading? ==> s.threads[v].pc.task != s.threads[w].pc.task
  {
    forall v | 0 <= v < |s.threads| && s.threads[v].pc.Reading?
      ensures s.threads[v].pc.task != s.threads[w].pc.task
    {
      assert At(s, s.threads[w].pc.task, AtEntry(v)) ==> v == w;
    }
  }

  lemma RetireKeepsInv(s: State, w: ThreadId)
    requires Inv(s) && LeaveEnabled(s, CompareAndStore(w)) && s.tasks[s.threads[w].pc.task].fEvents == KALIVE
    ensures Inv(ApplyCompareAndStore(s, w))
  {
    var t := s.threads[w].pc.task;
    var s' := ApplyCompareAndStore(s, w);
    OnlyPlace(s, t, AtEntry(w));
    LeaveEntryMoves(s, w, s'.tasks);
    MoveKeepsPlaces(s, s', t, None);
    MoveKeepsAffinity(s, s', t, None);
    RetireParts(s, w);
  }

  lemma CompareAndStoreKeepsInv(s: State, w: ThreadId)
    requires Inv(s) && LeaveEnabled(s, CompareAndStore(w))
    ensures Inv(ApplyCompareAndStore(s, w))
  {
    var t := s.threads[w].pc.task;
    if s.tasks[t].fEvents == KALIVE {
      RetireKeepsInv(s, w);
    } else {
      SetPcKeepsInv(s, w, Got(t));
    }
  }

  lemma InsertTimerMoves(s: State, w: ThreadId)
    requires LeaveEnabled(s, InsertTimer(w)) && DistinctItems(s.threads[w].fHeap)
    requires OnlyAt(s, s.threads[w].pc.task, Some(AtEntry(w))) && Scheduled(s, s.threads[w].pc.task)
    ensures OnlyMoves(s, ApplyInsertTimer(s, w), s.threads[w].pc.task, Some(InHeap(w)))
  {
    var s' := ApplyInsertTimer(s, w);
    var Returned(t, timeout) := s.threads[w].pc;
    assert !At(s, t, InHeap(w));
    InsertItems(s.threads[w].fHeap, Entry(s.clock + timeout, t));
    forall u, p
      ensures At(s', u, p) <==> if u == t then p == InHeap(w) else At(s, u, p)
    {
      assert At(s, t, p) <==> p == AtEntry(w);
    }
  }

  lemma InsertTimerParts(s: State, w: ThreadId)
    requires PartsInv(s) && LeaveEnabled(s, InsertTimer(w)) && !HasItem(s.threads[w].fHeap, s.threads[w].pc.task)
    ensures PartsInv(ApplyInsertTimer(s, w))
  {
    var x := Entry(s.clock + s.threads[w].pc.timeout, s.threads[w].pc.task);
    assert ThreadInv(s.threads[w], s.clock);
    InsertItems(s.threads[w].fHeap, x);
    InsertKeepsOrder(s.threads[w].fHeap, x);
    SetThreadKeepsParts(s, w, ApplyInsertTimer(s, w).threads[w]);
  }

  lemma InsertTimerKeepsInv(s: State, w: ThreadId)
    requires Inv(s) && LeaveEnabled(s, InsertTimer(w))
    ensures Inv(ApplyInsertTimer(s, w))
  {
    var s' := ApplyInsertTimer(s, w);
    var h := s.threads[w].fHeap;
    var Returned(t, timeout) := s.threads[w].pc;
    assert ThreadInv(s.threads[w], s.clock);
    OnlyPlace(s, t, AtEntry(w));
    assert !At(s, t, InHeap(w));
    InsertTimerMoves(s, w);
    InsertTimerParts(s, w);
    MoveKeepsPlaces(s, s', t, Some(InHeap(w)));
    MoveKeepsAffinity(s, s', t, Some(InHeap(w)));
  }

  lemma SetIdleKeepsInv(s: State, w: ThreadId)
    requires Inv(s) && LeaveEnabled(s, SetIdle(w))
    ensures Inv(ApplySetIdle(s, w))
  {
    var t := s.threads[w].pc.task;
    assert ThreadInv(s.threads[w], s.clock);
    assert At(s, t, InHeap(w));
    OnePlace(s, t, InHeap(w), InHeap(w));
    OrOnAliveKeepsInv(s, t, KIDLE_EVENT);
    SetPcKeepsInv(SetTask(s, t, s.tasks[t].(fEvents := Or(s.tasks[t].fEvents, KIDLE_EVENT))), w, Waiting);
  }

  // ----- All steps -----

  lemma OuterStepKeepsInv(s: State, step: Step)
    requires Inv(s) && IsOuterStep(step) && OuterEnabled(s, step)
    ensures Inv(ApplyOuter(s, step))
  {
    match step
    case Create(t) => CreateKeepsInv(s, t);
    case SetDefaultThread(t, thread) => SetTaskKeepsInv(s, t, s.tasks[t].(fDefaultThread := thread));
    case SetThreadPicker(t, picker) => SetTaskKeepsInv(s, t, s.tasks[t].(pickerToUse := picker));
    case Tick(delta) => TickKeepsInv(s, delta);
  }

  lemma SignalStepKeepsInv(s: State, step: Step)
    requires Inv(s) && IsSignalStep(step) && SignalEnabled(s, step)
    ensures Inv(ApplySignal(s, step))
  {
    match step
    case SignalOr(id, t, events) => SignalOrKeepsInv(s, id, t, events);
    case SignalTest(id) => SignalTestKeepsInv(s, id);
    case SignalDefault(id) => SignalDefaultKeepsInv(s, id);
    case SignalPick(id) => SignalPickKeepsInv(s, id);
    case SignalEnQueue(id) => EnQueueKeepsInv(s, id);
  }

  lemma WaitStepKeepsInv(s: State, step: Step)
    requires Inv(s) && IsWaitStep(step) && WaitEnabled(s, step)
    ensures Inv(ApplyWait(s, step))
  {
    match step
    case ReadClock(w) => SetPcKeepsInv(s, w, Peeking(s.clock));
    case TakeTimer(w) => TakeTimerKeepsInv(s, w);
    case StartBlocking(w) => SetPcKeepsInv(s, w, Blocking);
    case DeQueue(w) => if s.threads[w].fTaskQueue == [] { SetPcKeepsInv(s, w, Waiting); } else { DeQueueKeepsInv(s, w); }
  }

  lemma GetEventsKeepsInv(s: State, step: Step)
    requires Inv(s) && (step.ReadEvents? || step.SubEvents?) && RunEnabled(s, step)
    ensures Inv(ApplyRun(s, step))
  {
    match step
    case ReadEvents(w) => ReadEventsKeepsInv(s, w);
    case SubEvents(w) => SubEventsKeepsInv(s, w);
  }

  lemma RunStepKeepsInv(s: State, step: Step)
    requires Inv(s) && IsRunStep(step) && RunEnabled(s, step)
    ensures Inv(ApplyRun(s, step))
  {
    if step.ReadEvents? || step.SubEvents? {
      GetEventsKeepsInv(s, step);
    } else if step.ForceSameThread? || step.CallLocked? {
      RunCallKeepsInv(s, step);
    } else {
      match step
      case StartRun(w) => StartRunKeepsInv(s, w);
      case EndRun(w, timeout) => EndRunKeepsInv(s, w, timeout);
    }
  }

  lemma LockStepKeepsInv(s: State, step: Step)
    requires Inv(s) && IsLockStep(step) && LockEnabled(s, step)
    ensures Inv(ApplyLockStep(s, step))
  {
    match step
    case LockMutex(w) => LockKeepsInv(s, w, LockCall(s, w));
    case RetestMutex(w) => LockKeepsInv(s, w, RW.Retest(w));
    case WakeUp(w) => MutexKeepsInv(s, RW.Apply(s.mutex, RW.SpuriousWake(w)));
    case GlobalUnlock(w, chosen) => GlobalUnlockKeepsInv(s, w, chosen);
    case UnlockMutex(w, chosen) => UnlockKeepsInv(s, w, chosen);
  }

  lemma LeaveStepKeepsInv(s: State, step: Step)
    requires Inv(s) && IsLeaveStep(step) && LeaveEnabled(s, step)
    ensures Inv(ApplyLeave(s, step))
  {
    match step
    case Delete(w) => DeleteKeepsInv(s, w);
    case CompareAndStore(w) => CompareAndStoreKeepsInv(s, w);
    case InsertTimer(w) => InsertTimerKeepsInv(s, w);
    case SetIdle(w) => SetIdleKeepsInv(s, w);
  }

  /** Every step, by whatever thread or signaller and in whatever order, keeps the invariant. */
  lemma StepKeepsInv(s: State, step: Step)
    requires Inv(s) && Enabled(s, step)
    ensures Inv(Apply(s, step))
  {
    if IsOuterStep(step) {
      OuterStepKeepsInv(s, step);
    } else if IsSignalStep(step) {
      SignalStepKeepsInv(s, step);
    } else if IsWaitStep(step) {
      WaitStepKeepsInv(s, step);
    } else if IsRunStep(step) {
      RunStepKeepsInv(s, step);
    } else if IsLockStep(step) {
      LockStepKeepsInv(s, step);
    } else {
      LeaveStepKeepsInv(s, step);
    }
  }
}
