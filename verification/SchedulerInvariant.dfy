/** What every step of the task scheduler keeps. */
module SchedulerInvariant {
  import opened Atomic
  import opened HeapOrder
  import opened Sequences
  import opened Wrappers
  import opened Scheduler

  /** The places a scheduled task can be in. */
  datatype Place =
    | AtSignal(id: SignalId)   // a signaller between its atomic_or and its EnQueue
    | InQueue(w: ThreadId)
    | InHeap(w: ThreadId)
    | AtEntry(w: ThreadId)     // in the Entry loop of a task thread

  ghost predicate At(s: State, t: TaskId, p: Place) {
    match p
    case AtSignal(id) => id in s.signals && s.signals[id].task == t
    case InQueue(w) => w < |s.threads| && t in s.threads[w].fTaskQueue
    case InHeap(w) => w < |s.threads| && HasItem(s.threads[w].fHeap, t)
    case AtEntry(w) => w < |s.threads| && InEntry(s.threads[w].pc) && s.threads[w].pc.task == t
  }

  ghost predicate Scheduled(s: State, t: TaskId) { t in s.tasks && IsAlive(s.tasks[t]) }

  /** own gives the one place of every scheduled task, and no other task has a place. */
  ghost predicate Placed(s: State, own: map<TaskId, Place>) {
    && (forall t, p :: At(s, t, p) ==> t in own && own[t] == p)
    && (forall t :: t in own ==> At(s, t, own[t]))
    && (forall t :: t in own <==> Scheduled(s, t))
  }

  ghost predicate ThreadInv(th: Thread, clock: int) {
    && Distinct(th.fTaskQueue)
    && DistinctItems(th.fHeap)
    && MinOrdered(th.fHeap)
    && (th.pc.Peeking? ==> th.pc.now <= clock)
    && (th.pc.Inserted? ==> HasItem(th.fHeap, th.pc.task))
  }

  ghost predicate ThreadsInv(s: State) {
    forall w :: 0 <= w < |s.threads| ==> ThreadInv(s.threads[w], s.clock)
  }

  /** The events have been read from the word and are still set in it; kAlive is not among them. */
  ghost predicate StillSet(events: Word, word: Word) {
    events & word == events && events & KALIVE == 0
  }

  /** What a thread has read for its task is still set. */
  ghost predicate ReadsInv(s: State) {
    forall w :: 0 <= w < |s.threads| && s.threads[w].pc.Reading? && s.threads[w].pc.task in s.tasks ==>
      StillSet(s.threads[w].pc.events, s.tasks[s.threads[w].pc.task].fEvents)
  }

  ghost predicate SignalsInv(s: State) {
    forall id :: id in s.signals && s.signals[id].Picked? ==> s.signals[id].thread < |s.threads|
  }

  /** A pending event means the task is scheduled. */
  ghost predicate PendingIsAlive(task: Task) { task.fEvents & KALIVE_OFF != 0 ==> IsAlive(task) }

  ghost predicate TasksInv(s: State) {
    forall t :: t in s.tasks ==>
      && ThreadOk(s, s.tasks[t].fUseThisThread)
      && ThreadOk(s, s.tasks[t].fDefaultThread)
      && PendingIsAlive(s.tasks[t])
  }

  /** A task that asked for a thread is on its way to that thread or on it, and is not given its default one. */
  ghost predicate Affine(s: State, use: Option<ThreadId>, p: Place) {
    use.Some? ==>
      && (p.AtSignal? && p.id in s.signals ==> SignalIsAffine(s.signals[p.id], use.value))
      && (!p.AtSignal? ==> use.value == p.w)
  }

  ghost predicate SignalIsAffine(sig: SignalPc, use: ThreadId) {
    !sig.HasDefault? && (sig.Picked? ==> use == sig.thread)
  }

  ghost predicate AffinityInv(s: State) {
    forall t, p :: At(s, t, p) && t in s.tasks ==> Affine(s, s.tasks[t].fUseThisThread, p)
  }

  /** Every scheduled task has one place, every other task none. */
  ghost predicate PlacesInv(s: State) {
    exists own :: Placed(s, own)
  }

  /** What holds of each thread, signaller and task on its own. */
  ghost predicate PartsInv(s: State) {
    PoolOk(s) && ThreadsInv(s) && ReadsInv(s) && SignalsInv(s) && TasksInv(s)
  }

  ghost predicate Inv(s: State) {
    PartsInv(s) && AffinityInv(s) && PlacesInv(s)
  }

  // ----- Words -----

  lemma OrSetsAlive(e: Word, x: Word)
    ensures Or(e, Or(x, KALIVE)) & KALIVE != 0
  {
  }

  lemma OrKeepsAlive(e: Word, x: Word)
    requires e & KALIVE != 0
    ensures Or(e, x) & KALIVE != 0
  {
  }

  lemma OrKeepsRead(e: Word, x: Word, ev: Word)
    requires StillSet(ev, e)
    ensures StillSet(ev, Or(e, x))
  {
  }

  lemma ReadIsStillSet(e: Word)
    ensures StillSet(e & KALIVE_OFF, e)
  {
  }

  lemma SubKeepsAlive(e: Word, ev: Word)
    requires ev & e == ev && ev & KALIVE == 0
    ensures Sub(e, ev) & KALIVE == e & KALIVE
  {
    SubClearsBits(e, ev);
    assert (e & !ev) & KALIVE == e & KALIVE;
  }

  lemma SubAddsNothing(e: Word, ev: Word)
    requires ev & e == ev && e & KALIVE_OFF == 0
    ensures Sub(e, ev) & KALIVE_OFF == 0
  {
    SubClearsBits(e, ev);
    assert (e & !ev) & KALIVE_OFF == 0;
  }

  // ----- Placement under a change -----

  /** The places of t are exactly the one given, or none. */
  ghost predicate OnlyAt(s: State, t: TaskId, place: Option<Place>) {
    forall p :: At(s, t, p) <==> place == Some(p)
  }

  /** At most t moves: to the given place, or out of every place. */
  ghost predicate OnlyMoves(s: State, s': State, t: TaskId, place: Option<Place>) {
    && (forall u, p :: At(s', u, p) <==> if u == t then place == Some(p) else At(s, u, p))
    && (forall u :: Scheduled(s', u) <==> if u == t then place.Some? else Scheduled(s, u))
  }

  lemma MoveKeepsPlaced(s: State, s': State, own: map<TaskId, Place>, t: TaskId, place: Option<Place>)
    requires Placed(s, own) && OnlyMoves(s, s', t, place)
    ensures Placed(s', if place.Some? then own[t := place.value] else own - {t})
  {
    var own' := if place.Some? then own[t := place.value] else own - {t};
    forall u, p | At(s', u, p)
      ensures u in own' && own'[u] == p
    {
      if u != t { assert At(s, u, p); }
    }
    forall u | u in own'
      ensures At(s', u, own'[u])
    {
      if u != t { assert At(s, u, own[u]); }
    }
  }

  lemma MoveKeepsPlaces(s: State, s': State, t: TaskId, place: Option<Place>)
    requires PlacesInv(s) && OnlyMoves(s, s', t, place)
    ensures PlacesInv(s')
  {
    var own :| Placed(s, own);
    MoveKeepsPlaced(s, s', own, t, place);
  }

  lemma MoveKeepsAffinity(s: State, s': State, t: TaskId, place: Option<Place>)
    requires AffinityInv(s) && OnlyMoves(s, s', t, place)
    requires forall u :: u != t && u in s'.tasks ==> u in s.tasks && s'.tasks[u] == s.tasks[u]
    requires forall id :: id in s'.signals && s'.signals[id].task != t ==> id in s.signals && s'.signals[id] == s.signals[id]
    requires place.Some? && t in s'.tasks ==> Affine(s', s'.tasks[t].fUseThisThread, place.value)
    ensures AffinityInv(s')
  {
    forall u, p | At(s', u, p) && u in s'.tasks
      ensures Affine(s', s'.tasks[u].fUseThisThread, p)
    {
      if u != t { assert At(s, u, p); }
    }
  }

  lemma SetThreadKeepsParts(s: State, w: ThreadId, th: Thread)
    requires PartsInv(s) && w < |s.threads| && ThreadInv(th, s.clock) && !th.pc.Reading?
    ensures PartsInv(SetThread(s, w, th))
  {
  }

  lemma OnePlace(s: State, t: TaskId, p: Place, q: Place)
    requires PlacesInv(s) && At(s, t, p) && At(s, t, q)
    ensures p == q && Scheduled(s, t)
  {
    var own :| Placed(s, own);
  }

  lemma OnlyPlace(s: State, t: TaskId, p: Place)
    requires PlacesInv(s) && At(s, t, p)
    ensures OnlyAt(s, t, Some(p)) && Scheduled(s, t)
  {
    var own :| Placed(s, own);
  }

  lemma NotScheduledNowhere(s: State, t: TaskId)
    requires PlacesInv(s) && !Scheduled(s, t)
    ensures OnlyAt(s, t, None)
  {
    var own :| Placed(s, own);
  }

  /** No place and no alive bit changes. */
  ghost predicate SamePlaces(s: State, s': State) {
    && (forall t, p :: At(s', t, p) <==> At(s, t, p))
    && (forall t :: Scheduled(s', t) <==> Scheduled(s, t))
  }

  lemma SamePlacesKeepPlaces(s: State, s': State)
    requires PlacesInv(s) && SamePlaces(s, s')
    ensures PlacesInv(s')
  {
    var own :| Placed(s, own);
    assert Placed(s', own);
  }

  lemma SamePlacesKeepAffinity(s: State, s': State)
    requires AffinityInv(s) && SamePlaces(s, s')
    requires s'.signals == s.signals
    requires forall t :: t in s'.tasks ==> t in s.tasks && s'.tasks[t].fUseThisThread == s.tasks[t].fUseThisThread
    ensures AffinityInv(s')
  {
    forall u, p | At(s', u, p) && u in s'.tasks
      ensures Affine(s', s'.tasks[u].fUseThisThread, p)
    {
      assert At(s, u, p);
    }
  }

  // ----- Changes of one task record -----

  lemma SetTaskKeepsReads(s: State, t: TaskId, task: Task)
    requires ReadsInv(s) && t in s.tasks
    requires forall w :: 0 <= w < |s.threads| && s.threads[w].pc.Reading? && s.threads[w].pc.task == t ==>
      StillSet(s.threads[w].pc.events, task.fEvents)
    ensures ReadsInv(SetTask(s, t, task))
  {
  }

  lemma SetTaskKeepsAffinity(s: State, t: TaskId, task: Task)
    requires AffinityInv(s) && t in s.tasks
    requires forall p :: At(s, t, p) ==> Affine(s, task.fUseThisThread, p)
    ensures AffinityInv(SetTask(s, t, task))
  {
    var s' := SetTask(s, t, task);
    forall u, p | At(s', u, p) && u in s'.tasks
      ensures Affine(s', s'.tasks[u].fUseThisThread, p)
    {
      assert At(s, u, p);
    }
  }

  lemma SetTaskKeepsPlaces(s: State, t: TaskId, task: Task)
    requires PlacesInv(s) && t in s.tasks && IsAlive(task) == IsAlive(s.tasks[t])
    ensures PlacesInv(SetTask(s, t, task))
  {
    var s' := SetTask(s, t, task);
    assert forall u, p :: At(s', u, p) <==> At(s, u, p);
    SamePlacesKeepPlaces(s, s');
  }

  lemma SetTaskKeepsInv(s: State, t: TaskId, task: Task)
    requires Inv(s) && t in s.tasks
    requires IsAlive(task) == IsAlive(s.tasks[t])
    requires ThreadOk(s, task.fUseThisThread) && ThreadOk(s, task.fDefaultThread) && PendingIsAlive(task)
    requires forall w :: 0 <= w < |s.threads| && s.threads[w].pc.Reading? && s.threads[w].pc.task == t ==>
      StillSet(s.threads[w].pc.events, task.fEvents)
    requires forall p :: At(s, t, p) ==> Affine(s, task.fUseThisThread, p)
    ensures Inv(SetTask(s, t, task))
  {
    SetTaskKeepsReads(s, t, task);
    SetTaskKeepsAffinity(s, t, task);
    SetTaskKeepsPlaces(s, t, task);
  }

  // ----- Changes of one program counter -----

  lemma SetPcKeepsPlaces(s: State, w: ThreadId, pc: WorkerPc)
    requires PlacesInv(s) && AffinityInv(s) && w < |s.threads|
    requires InEntry(pc) == InEntry(s.threads[w].pc)
    requires InEntry(pc) ==> pc.task == s.threads[w].pc.task
    ensures PlacesInv(SetPc(s, w, pc)) && AffinityInv(SetPc(s, w, pc))
  {
    var s' := SetPc(s, w, pc);
    assert forall u, p :: At(s', u, p) <==> At(s, u, p);
    SamePlacesKeepPlaces(s, s');
    SamePlacesKeepAffinity(s, s');
  }

  /** A thread's program counter moves without taking up or letting go of a task. */
  lemma SetPcKeepsInv(s: State, w: ThreadId, pc: WorkerPc)
    requires Inv(s) && w < |s.threads|
    requires InEntry(pc) == InEntry(s.threads[w].pc)
    requires InEntry(pc) ==> pc.task == s.threads[w].pc.task
    requires pc.Peeking? ==> pc.now <= s.clock
    requires !pc.Inserted?
    requires pc.Reading? && pc.task in s.tasks ==> StillSet(pc.events, s.tasks[pc.task].fEvents)
    ensures Inv(SetPc(s, w, pc))
  {
    SetPcKeepsPlaces(s, w, pc);
  }

  /** A signaller that already owns its task goes on to its next step. */
  lemma SetSignalKeepsInv(s: State, id: SignalId, sig: SignalPc)
    requires Inv(s) && id in s.signals && sig.task == s.signals[id].task
    requires sig.Picked? ==> sig.thread < |s.threads|
    requires sig.task in s.tasks && s.tasks[sig.task].fUseThisThread.Some?
      ==> SignalIsAffine(sig, s.tasks[sig.task].fUseThisThread.value)
    ensures Inv(SetSignal(s, id, sig))
  {
    var s' := SetSignal(s, id, sig);
    assert forall u, p :: At(s', u, p) <==> At(s, u, p);
    SamePlacesKeepPlaces(s, s');
    forall u, p | At(s', u, p) && u in s'.tasks
      ensures Affine(s', s'.tasks[u].fUseThisThread, p)
    {
      assert At(s, u, p);
    }
  }

  // ----- Steps that move no task -----

  lemma CreateKeepsInv(s: State, t: TaskId)
    requires Inv(s) && OuterEnabled(s, Create(t))
    ensures Inv(ApplyOuter(s, Create(t)))
  {
    var s' := ApplyOuter(s, Create(t));
    assert forall u, p :: At(s', u, p) <==> At(s, u, p);
    SamePlacesKeepPlaces(s, s');
    forall w | 0 <= w < |s.threads| && s.threads[w].pc.Reading? && s.threads[w].pc.task == t
      ensures false
    {
      OnePlace(s, t, AtEntry(w), AtEntry(w));
    }
    forall u, p | At(s', u, p) && u in s'.tasks
      ensures Affine(s', s'.tasks[u].fUseThisThread, p)
    {
      assert At(s, u, p);
    }
  }

  lemma TickKeepsInv(s: State, delta: nat)
    requires Inv(s)
    ensures Inv(ApplyOuter(s, Tick(delta)))
  {
    var s' := ApplyOuter(s, Tick(delta));
    assert forall u, p :: At(s', u, p) <==> At(s, u, p);
    SamePlacesKeepPlaces(s, s');
    SamePlacesKeepAffinity(s, s');
  }
}
