/** The lock around Run: what the task threads do on sMutexRW, and when a Run under its write lock is alone. */
module SchedulerLock {
  import opened HeapOrder
  import opened Wrappers
  import opened Scheduler
  import opened SchedulerInvariant
  import opened SchedulerSteps
  import opened SchedulerEffects
  import opened SchedulerTheorems
  import RW = OSMutexRW

  // ----- The scheduler as a user of the lock -----

  datatype Role = Outside | Trying(mode: RW.Mode) | Inside(mode: RW.Mode)

  function RoleOf(pc: WorkerPc): Role {
    match pc
    case InLock(_, mode) => Trying(mode)
    case Running(_, mode) => Inside(mode)
    case Reading(_, mode, _) => Inside(mode)
    case Leaving(_, mode, _) => Inside(mode)
    case _ => Outside
  }

  /** A thread behind its locker holds the lock, or has given it back by GlobalUnlock. */
  predicate RoleOk(role: Role, pc: RW.Pc) {
    match role
    case Outside => pc.Idle?
    case Trying(mode) => pc == RW.Asleep(mode) || pc == RW.Awake(mode)
    case Inside(mode) => pc == RW.Holding(mode) || pc.Idle?
  }

  ghost predicate LocksInv(s: State) {
    && |s.mutex.pcs| == |s.threads|
    && forall w :: 0 <= w < |s.threads| ==> RoleOk(RoleOf(s.threads[w].pc), s.mutex.pcs[w])
  }

  /** What a step does on the lock: one critical section at most. */
  function MutexCall(s: State, step: Step): (call: Option<RW.Step>)
    requires IsLockStep(step) && LockEnabled(s, step)
  {
    match step
    case LockMutex(w) => Some(LockCall(s, w))
    case RetestMutex(w) => Some(RW.Retest(w))
    case WakeUp(w) => Some(RW.SpuriousWake(w))
    case GlobalUnlock(w, chosen) =>
      if s.tasks[s.threads[w].pc.task].fWriteLock then Some(UnlockCall(s, w, chosen)) else None
    case UnlockMutex(w, chosen) => Some(UnlockCall(s, w, chosen))
  }

  ghost predicate CallIs(before: RW.State, call: Option<RW.Step>, after: RW.State) {
    match call
    case None => after == before
    case Some(c) => RW.Enabled(before, c) && after == RW.Apply(before, c)
  }

  lemma LockCallIs(s: State, step: Step)
    requires IsLockStep(step) && !IsUnlock(step) && LockEnabled(s, step)
    ensures CallIs(s.mutex, MutexCall(s, step), ApplyLockStep(s, step).mutex)
  {
    match step
    case LockMutex(_) =>
    case RetestMutex(_) =>
    case WakeUp(_) =>
  }

  lemma UnlockCallIs(s: State, step: Step)
    requires IsUnlock(step) && LockEnabled(s, step)
    ensures CallIs(s.mutex, MutexCall(s, step), ApplyLockStep(s, step).mutex)
  {
    match step
    case GlobalUnlock(_, _) =>
    case UnlockMutex(_, _) =>
  }

  ghost predicate OwnRoleOk(s: State, w: ThreadId, pc: WorkerPc, mutex: RW.State) {
    |mutex.pcs| == |s.threads| && w < |mutex.pcs| && RoleOk(RoleOf(pc), mutex.pcs[w])
  }

  lemma LockRoleOk(s: State, step: Step)
    requires LocksInv(s) && (step.LockMutex? || step.RetestMutex?) && LockEnabled(s, step)
    ensures OwnRoleOk(s, step.w, PcAfterLock(s, step), RW.Apply(s.mutex, MutexCall(s, step).value))
  {
    assert RoleOk(RoleOf(s.threads[step.w].pc), s.mutex.pcs[step.w]);
    RW.OthersStayOrWake(s.mutex, MutexCall(s, step).value);
    RW.AskerWaitsOrHolds(s.mutex, MutexCall(s, step).value);
  }

  lemma WakeUpRoleOk(s: State, w: ThreadId)
    requires LocksInv(s) && LockEnabled(s, WakeUp(w))
    ensures OwnRoleOk(s, w, s.threads[w].pc, RW.Apply(s.mutex, RW.SpuriousWake(w)))
  {
    assert RoleOk(RoleOf(s.threads[w].pc), s.mutex.pcs[w]);
  }

  lemma UnlockRoleOk(s: State, step: Step)
    requires LocksInv(s) && IsUnlock(step) && LockEnabled(s, step) && MutexCall(s, step).Some?
    ensures OwnRoleOk(s, step.w, PcAfterLock(s, step), RW.Apply(s.mutex, MutexCall(s, step).value))
  {
    assert RoleOk(RoleOf(s.threads[step.w].pc), s.mutex.pcs[step.w]);
    RW.OthersStayOrWake(s.mutex, MutexCall(s, step).value);
    RW.UnlockerIsIdle(s.mutex, MutexCall(s, step).value);
  }

  lemma LockStepRoleOk(s: State, step: Step)
    requires LocksInv(s) && IsLockStep(step) && LockEnabled(s, step) && MutexCall(s, step).Some?
    ensures OwnRoleOk(s, step.w, PcAfterLock(s, step), RW.Apply(s.mutex, MutexCall(s, step).value))
  {
    if IsUnlock(step) {
      UnlockRoleOk(s, step);
    } else if step.WakeUp? {
      WakeUpRoleOk(s, step.w);
    } else {
      LockRoleOk(s, step);
    }
  }

  /** The other threads keep their roles when one of them uses the lock. */
  lemma CallKeepsLocks(s: State, s': State, call: RW.Step, pc: WorkerPc, heap: Heap<TaskId>)
    requires LocksInv(s) && RW.Enabled(s.mutex, call)
    requires OneMoves(s, s', call.t, pc, heap) && s'.mutex == RW.Apply(s.mutex, call)
    requires OwnRoleOk(s, call.t, pc, s'.mutex)
    ensures LocksInv(s')
  {
    RW.OthersStayOrWake(s.mutex, call);
    forall v | 0 <= v < |s'.threads|
      ensures RoleOk(RoleOf(s'.threads[v].pc), s'.mutex.pcs[v])
    {
      assert RoleOk(RoleOf(s.threads[v].pc), s.mutex.pcs[v]);
    }
  }

  lemma NoCallKeepsLocks(s: State, s': State, w: ThreadId, pc: WorkerPc, heap: Heap<TaskId>)
    requires LocksInv(s) && OneMoves(s, s', w, pc, heap) && s'.mutex == s.mutex
    requires RoleOf(pc) == RoleOf(s.threads[w].pc)
    ensures LocksInv(s')
  {
    forall v | 0 <= v < |s'.threads|
      ensures RoleOk(RoleOf(s'.threads[v].pc), s'.mutex.pcs[v])
    {
      assert RoleOk(RoleOf(s.threads[v].pc), s.mutex.pcs[v]);
    }
  }

  lemma StayKeepsLocks(s: State, s': State)
    requires LocksInv(s) && ThreadsStay(s, s')
    ensures LocksInv(s')
  {
    forall v | 0 <= v < |s'.threads|
      ensures RoleOk(RoleOf(s'.threads[v].pc), s'.mutex.pcs[v])
    {
      assert RoleOk(RoleOf(s.threads[v].pc), s.mutex.pcs[v]);
    }
  }

  lemma OtherStepKeepsRole(s: State, step: Step)
    requires OfThread(step) && !IsLockStep(step) && Enabled(s, step)
    ensures RoleOf(PcAfter(s, step)) == RoleOf(s.threads[step.w].pc)
  {
  }

  lemma LockStepCall(s: State, step: Step)
    requires IsLockStep(step) && LockEnabled(s, step)
    ensures CallIs(s.mutex, MutexCall(s, step), ApplyLockStep(s, step).mutex)
  {
    if IsUnlock(step) { UnlockCallIs(s, step); } else { LockCallIs(s, step); }
  }

  lemma LockStepKeepsLocks(s: State, step: Step)
    requires LocksInv(s) && IsLockStep(step) && LockEnabled(s, step)
    ensures LocksInv(ApplyLockStep(s, step))
  {
    var s', heap := ApplyLockStep(s, step), s.threads[step.w].fHeap;
    LockStepCall(s, step);
    if IsUnlock(step) { UnlockMoves(s, step); } else { LockMoves(s, step); }
    match MutexCall(s, step)
    case None => NoCallKeepsLocks(s, s', step.w, PcAfterLock(s, step), heap);
    case Some(call) =>
      LockStepRoleOk(s, step);
      CallKeepsLocks(s, s', call, PcAfterLock(s, step), heap);
  }

  lemma StepKeepsLocks(s: State, step: Step)
    requires LocksInv(s) && Enabled(s, step)
    ensures LocksInv(Apply(s, step))
  {
    if !OfThread(step) {
      StepStays(s, step);
      StayKeepsLocks(s, Apply(s, step));
    } else if IsLockStep(step) {
      LockStepKeepsLocks(s, step);
    } else {
      StepMoves(s, step);
      OtherStepKeepsRole(s, step);
      NoCallKeepsLocks(s, Apply(s, step), step.w, PcAfter(s, step), HeapAfter(s, step));
    }
  }

  // ----- Every run -----

  function CallOf(s: State, step: Step): Option<RW.Step>
    requires Enabled(s, step)
  {
    if IsLockStep(step) then MutexCall(s, step) else None
  }

  /** What a run of the scheduler does on the lock. */
  function MutexRun(s: State, run: seq<Step>): seq<RW.Step>
    requires ValidRun(s, run)
    decreases |run|
  {
    if run == [] then []
    else
      var rest := MutexRun(Apply(s, run[0]), run[1..]);
      match CallOf(s, run[0])
      case None => rest
      case Some(call) => [call] + rest
  }

  lemma StepCalls(s: State, step: Step)
    requires Enabled(s, step)
    ensures CallIs(s.mutex, CallOf(s, step), Apply(s, step).mutex)
  {
    if IsLockStep(step) {
      LockStepCall(s, step);
    } else if OfThread(step) {
      StepMoves(s, step);
    } else {
      StepStays(s, step);
    }
  }

  /** Every run of the scheduler is, on its lock, a run of the lock. */
  lemma {:induction false} RunOnMutex(s: State, run: seq<Step>)
    requires ValidRun(s, run)
    ensures RW.ValidRun(s.mutex, MutexRun(s, run))
    ensures RW.After(s.mutex, MutexRun(s, run)) == After(s, run).mutex
    decreases |run|
  {
    if run != [] {
      StepCalls(s, run[0]);
      RunOnMutex(Apply(s, run[0]), run[1..]);
      match CallOf(s, run[0])
      case None =>
      case Some(call) => RW.RunCons(s.mutex, call, MutexRun(Apply(s, run[0]), run[1..]));
    }
  }

  lemma {:induction false} RunKeepsLocks(s: State, run: seq<Step>)
    requires LocksInv(s) && ValidRun(s, run)
    ensures LocksInv(After(s, run))
    decreases |run|
  {
    if run != [] {
      StepKeepsLocks(s, run[0]);
      RunKeepsLocks(Apply(s, run[0]), run[1..]);
    }
  }

  /** What each thread does on the lock is what it is about in Entry. */
  lemma ReachableLocks(s: State)
    requires Reachable(s)
    ensures LocksInv(s)
  {
    var s0: State, run: seq<Step> :| Initial(s0) && ValidRun(s0, run) && After(s0, run) == s;
    RunKeepsLocks(s0, run);
  }

  // ----- Running alone -----

  predicate InRun(pc: WorkerPc) { pc.Running? || pc.Reading? }

  /** Two threads in Run, one of them under the write lock. */
  predicate Clash(a: WorkerPc, b: WorkerPc) { InRun(a) && InRun(b) && (a.mode == RW.Write || b.mode == RW.Write) }

  /** A Run under the write lock is alone. */
  ghost predicate Apart(s: State) {
    forall v, w :: 0 <= v < |s.threads| && 0 <= w < |s.threads| && v != w ==> !Clash(s.threads[v].pc, s.threads[w].pc)
  }

  /** The thread has given the lock back by GlobalUnlock and is still in Run, or on its way out of it. */
  predicate GaveBack(s: State, v: ThreadId) {
    v < |s.threads| && v < |s.mutex.pcs| && RoleOf(s.threads[v].pc).Inside? && s.mutex.pcs[v].Idle?
  }

  /** The step is a grant of the lock: its thread begins Run. */
  predicate EntersRun(s: State, step: Step)
    requires Enabled(s, step)
  {
    (step.LockMutex? || step.RetestMutex?) && PcAfterLock(s, step).Running?
  }

  /** The lock is granted beside a Run that has given it back, and one of the two is a Run under the write lock. */
  ghost predicate Intrudes(s: State, step: Step)
    requires Enabled(s, step)
  {
    EntersRun(s, step) && exists v: ThreadId :: GaveBack(s, v) && Clash(s.threads[v].pc, PcAfterLock(s, step))
  }

  lemma NoEntryKeepsApart(s: State, step: Step)
    requires Apart(s) && Enabled(s, step) && !EntersRun(s, step)
    ensures Apart(Apply(s, step))
  {
    if OfThread(step) {
      StepMoves(s, step);
      NoEntryNoRun(s, step);
    } else {
      StepStays(s, step);
    }
  }

  lemma NoEntryNoRun(s: State, step: Step)
    requires OfThread(step) && Enabled(s, step) && !EntersRun(s, step)
    ensures InRun(PcAfter(s, step)) ==> InRun(s.threads[step.w].pc) && s.threads[step.w].pc.mode == PcAfter(s, step).mode
  {
    if IsWaitStep(step) {
    } else if IsRunStep(step) {
    } else if IsLockStep(step) {
    }
  }

  /** Whoever the new Run would clash with has no lock any more. */
  lemma ClashGaveBack(s: State, step: Step, v: ThreadId)
    requires LocksInv(s) && Enabled(s, step) && EntersRun(s, step) && v < |s.threads| && v != step.w
    requires RW.Exclusive(RW.Apply(s.mutex, MutexCall(s, step).value)) && Clash(s.threads[v].pc, PcAfterLock(s, step))
    ensures GaveBack(s, v)
  {
    var call := MutexCall(s, step).value;
    assert RoleOk(RoleOf(s.threads[v].pc), s.mutex.pcs[v]);
    if !s.mutex.pcs[v].Idle? {
      LockRoleOk(s, step);
      RW.OthersStayOrWake(s.mutex, call);
      RW.HoldersAreReaders(RW.Apply(s.mutex, call), v, step.w);
    }
  }

  /** Only thread w begins a Run, and it clashes with nobody. */
  lemma EntryKeepsApart(s: State, s': State, w: ThreadId, pc: WorkerPc, heap: Heap<TaskId>)
    requires Apart(s) && OneMoves(s, s', w, pc, heap)
    requires forall v :: 0 <= v < |s.threads| && v != w ==> !Clash(s.threads[v].pc, pc)
    ensures Apart(s')
  {
    forall v, u | 0 <= v < |s'.threads| && 0 <= u < |s'.threads| && v != u
      ensures !Clash(s'.threads[v].pc, s'.threads[u].pc)
    {
      assert !Clash(s.threads[v].pc, s.threads[u].pc);
    }
  }

  lemma EntryKeepsApartIff(s: State, step: Step)
    requires LocksInv(s) && Apart(s) && Enabled(s, step) && EntersRun(s, step)
    requires RW.Exclusive(RW.Apply(s.mutex, MutexCall(s, step).value))
    ensures Apart(Apply(s, step)) <==> !Intrudes(s, step)
  {
    var s', pc := Apply(s, step), PcAfterLock(s, step);
    StepMoves(s, step);
    if v: ThreadId :| GaveBack(s, v) && Clash(s.threads[v].pc, pc) {
      assert Clash(s'.threads[v].pc, s'.threads[step.w].pc);
    } else {
      forall v | 0 <= v < |s.threads| && v != step.w
        ensures !Clash(s.threads[v].pc, pc)
      {
        if Clash(s.threads[v].pc, pc) { ClashGaveBack(s, step, v); }
      }
      EntryKeepsApart(s, s', step.w, pc, s.threads[step.w].fHeap);
    }
  }

  /** While the lock works, a step puts a Run beside a locked one exactly when it intrudes on a Run that has
      called GlobalUnlock. */
  lemma StepKeepsApartIff(s: State, step: Step)
    requires LocksInv(s) && Apart(s) && Enabled(s, step) && RW.Exclusive(Apply(s, step).mutex)
    ensures Apart(Apply(s, step)) <==> !Intrudes(s, step)
  {
    if EntersRun(s, step) {
      LockStepCall(s, step);
      EntryKeepsApartIff(s, step);
    } else {
      NoEntryKeepsApart(s, step);
    }
  }

  ghost predicate AllApart(s: State, run: seq<Step>)
    requires ValidRun(s, run)
    decreases |run|
  {
    Apart(s) && (run != [] ==> AllApart(Apply(s, run[0]), run[1..]))
  }

  ghost predicate NeverIntrudes(s: State, run: seq<Step>)
    requires ValidRun(s, run)
    decreases |run|
  {
    run != [] ==> !Intrudes(s, run[0]) && NeverIntrudes(Apply(s, run[0]), run[1..])
  }

  ghost predicate MutexGuarded(s: State, run: seq<Step>)
    requires ValidRun(s, run)
  {
    RW.ValidRun(s.mutex, MutexRun(s, run)) && RW.AllGuarded(s.mutex, MutexRun(s, run))
  }

  lemma GuardedHead(s: State, run: seq<Step>)
    requires RW.Inv(s.mutex) && ValidRun(s, run) && run != [] && MutexGuarded(s, run)
    ensures RW.Inv(Apply(s, run[0]).mutex) && MutexGuarded(Apply(s, run[0]), run[1..])
  {
    StepCalls(s, run[0]);
    RunOnMutex(Apply(s, run[0]), run[1..]);
    match CallOf(s, run[0])
    case None =>
    case Some(call) =>
      RW.RunCons(s.mutex, call, MutexRun(Apply(s, run[0]), run[1..]));
      RW.GuardedStepKeepsInv(s.mutex, call);
  }

  lemma {:induction false} ApartFrom(s: State, run: seq<Step>)
    requires LocksInv(s) && RW.Inv(s.mutex) && Apart(s) && ValidRun(s, run) && MutexGuarded(s, run)
    ensures AllApart(s, run) <==> NeverIntrudes(s, run)
    decreases |run|
  {
    if run != [] {
      GuardedHead(s, run);
      StepKeepsLocks(s, run[0]);
      StepKeepsApartIff(s, run[0]);
      if Apart(Apply(s, run[0])) {
        ApartFrom(Apply(s, run[0]), run[1..]);
      }
    }
  }

  lemma InitialLocks(s: State)
    requires Initial(s)
    ensures LocksInv(s) && RW.Inv(s.mutex) && Apart(s)
  {
    RW.InitialInv(s.mutex);
  }

  /** The lock stays sound and every Run under its write lock is alone, throughout a run, exactly when on the lock the
      run never grants a write request to a second writer and never unlocks for somebody else, and no Run begins
      beside one that has called GlobalUnlock, with one of the two under the write lock. */
  lemma LockedRunsAloneIff(s: State, run: seq<Step>)
    requires Initial(s) && ValidRun(s, run)
    ensures RW.ValidRun(s.mutex, MutexRun(s, run))
    ensures RW.AllSound(s.mutex, MutexRun(s, run)) && AllApart(s, run) <==> MutexGuarded(s, run) && NeverIntrudes(s, run)
  {
    RunOnMutex(s, run);
    InitialLocks(s);
    RW.SoundIff(s.mutex, MutexRun(s, run));
    if MutexGuarded(s, run) {
      ApartFrom(s, run);
    }
  }

  // ----- Without GlobalUnlock -----

  ghost predicate NobodyGaveBack(s: State) { forall v :: 0 <= v < |s.threads| ==> !GaveBack(s, v) }

  /** A GlobalUnlock that finds fWriteLock set. */
  predicate UnlocksEarly(s: State, step: Step)
    requires Enabled(s, step)
  {
    step.GlobalUnlock? && MutexCall(s, step).Some?
  }

  ghost predicate NeverUnlocksEarly(s: State, run: seq<Step>)
    requires ValidRun(s, run)
    decreases |run|
  {
    run != [] ==> !UnlocksEarly(s, run[0]) && NeverUnlocksEarly(Apply(s, run[0]), run[1..])
  }

  lemma OtherStepGivesNothingBack(s: State, step: Step)
    requires LocksInv(s) && NobodyGaveBack(s) && Enabled(s, step) && CallOf(s, step).None?
    ensures NobodyGaveBack(Apply(s, step))
  {
    StepCalls(s, step);
    if !OfThread(step) {
      StepStays(s, step);
    } else {
      StepMoves(s, step);
      if !IsLockStep(step) { OtherStepKeepsRole(s, step); }
    }
    forall v | 0 <= v < |s.threads|
      ensures !GaveBack(Apply(s, step), v)
    {
      assert !GaveBack(s, v);
    }
  }

  lemma LockStepGivesNothingBack(s: State, step: Step)
    requires LocksInv(s) && NobodyGaveBack(s) && IsLockStep(step) && LockEnabled(s, step)
    requires MutexCall(s, step).Some? && !step.GlobalUnlock?
    ensures NobodyGaveBack(ApplyLockStep(s, step))
    ensures !MutexCall(s, step).value.ExtraUnlock?
  {
    var s', call := ApplyLockStep(s, step), MutexCall(s, step).value;
    LockStepCall(s, step);
    if IsUnlock(step) { UnlockMoves(s, step); } else { LockMoves(s, step); }
    RW.OthersStayOrWake(s.mutex, call);
    forall v | 0 <= v < |s.threads| && v != step.w
      ensures !GaveBack(s', v)
    {
      assert !GaveBack(s, v);
    }
    OwnLockStays(s, step);
  }

  /** The thread of such a step has the lock when it enters Run, and gives it back when it leaves. */
  lemma OwnLockStays(s: State, step: Step)
    requires LocksInv(s) && NobodyGaveBack(s) && IsLockStep(step) && LockEnabled(s, step)
    requires MutexCall(s, step).Some? && !step.GlobalUnlock?
    ensures !MutexCall(s, step).value.ExtraUnlock?
    ensures RoleOf(PcAfterLock(s, step)).Inside? ==> RW.Apply(s.mutex, MutexCall(s, step).value).pcs[step.w].Holding?
  {
    assert !GaveBack(s, step.w) && RoleOk(RoleOf(s.threads[step.w].pc), s.mutex.pcs[step.w]);
    RW.OthersStayOrWake(s.mutex, MutexCall(s, step).value);
  }

  lemma ConsBalanced(call: RW.Step, rest: seq<RW.Step>)
    requires RW.Balanced(rest) && !call.ExtraUnlock?
    ensures RW.Balanced([call] + rest)
  {
  }

  lemma {:induction false} QuietRunIsBalanced(s: State, run: seq<Step>)
    requires LocksInv(s) && NobodyGaveBack(s) && ValidRun(s, run) && NeverUnlocksEarly(s, run)
    ensures RW.Balanced(MutexRun(s, run)) && NeverIntrudes(s, run)
    decreases |run|
  {
    if run != [] {
      StepKeepsLocks(s, run[0]);
      match CallOf(s, run[0])
      case None =>
        OtherStepGivesNothingBack(s, run[0]);
        QuietRunIsBalanced(Apply(s, run[0]), run[1..]);
      case Some(call) =>
        LockStepGivesNothingBack(s, run[0]);
        QuietRunIsBalanced(Apply(s, run[0]), run[1..]);
        ConsBalanced(call, MutexRun(Apply(s, run[0]), run[1..]));
    }
  }

  /** Without such a GlobalUnlock, and with write requests that do not overlap, every Run under the write lock is
      alone and the lock is sound. */
  lemma QuietRunsAlone(s: State, run: seq<Step>)
    requires Initial(s) && ValidRun(s, run) && NeverUnlocksEarly(s, run)
    requires RW.ValidRun(s.mutex, MutexRun(s, run)) && RW.WritesDoNotOverlap(s.mutex, MutexRun(s, run))
    ensures RW.AllSound(s.mutex, MutexRun(s, run)) && AllApart(s, run)
  {
    InitialLocks(s);
    QuietRunIsBalanced(s, run);
    RW.NoOverlapIsGuarded(s.mutex, MutexRun(s, run));
    LockedRunsAloneIff(s, run);
  }

  // ----- A run in which GlobalUnlock lets others in -----

  /** Three threads with three tasks, where they are, and the lock. */
  ghost predicate Scene(s: State, tasks: seq<TaskId>, pcs: seq<WorkerPc>, mutex: RW.State) {
    |s.threads| == 3 && |pcs| == 3 && s.mutex == mutex && Known(s, tasks) && Places(s, pcs)
  }

  ghost predicate Known(s: State, tasks: seq<TaskId>) { |tasks| == 3 && forall w :: 0 <= w < 3 ==> tasks[w] in s.tasks }

  ghost predicate Places(s: State, pcs: seq<WorkerPc>)
    requires |s.threads| == 3 && |pcs| == 3
  {
    forall w :: 0 <= w < 3 ==> s.threads[w].pc == pcs[w]
  }

  lemma StaysKnown(s: State, step: Step, tasks: seq<TaskId>)
    requires Known(s, tasks) && Enabled(s, step) && !step.Delete?
    ensures Known(Apply(s, step), tasks)
  {
    forall w | 0 <= w < 3
      ensures tasks[w] in Apply(s, step).tasks
    {
      StepEffect(s, step, tasks[w]);
    }
  }

  /** What a step that deletes no task makes of the scene. */
  lemma NextScene(s: State, step: Step, tasks: seq<TaskId>, pcs: seq<WorkerPc>, mutex: RW.State)
    requires Scene(s, tasks, pcs, s.mutex) && Enabled(s, step) && OfThread(step) && !step.Delete?
    requires Apply(s, step).mutex == mutex
    ensures Scene(Apply(s, step), tasks, pcs[step.w := PcAfter(s, step)], mutex)
  {
    StepMoves(s, step);
    StaysKnown(s, step, tasks);
  }

  /** What the first thread's Unlock does, by a writer and by a thread that has unlocked before. */
  lemma FirstUnlock(s: State)
    requires s.mutex == RW.Three(RW.Holding(RW.Write), RW.Idle, RW.Idle, -1)
          || s.mutex == RW.Three(RW.Idle, RW.Holding(RW.Read), RW.Idle, 1)
    ensures RW.Enabled(s.mutex, UnlockCall(s, 0, 0))
    ensures RW.Apply(s.mutex, UnlockCall(s, 0, 0))
         == if s.mutex.pcs[0].Idle? then RW.Three(RW.Idle, RW.Holding(RW.Read), RW.Idle, 0)
            else RW.Three(RW.Idle, RW.Idle, RW.Idle, 0)
  {
    RW.WriterComesAndGoes();
    RW.ReaderLosesLock();
  }

  /** The first thread, in a Run under the write lock, gives the lock back. */
  lemma WriterGivesBack(s: State, tasks: seq<TaskId>, pcs: seq<WorkerPc>)
    requires Scene(s, tasks, pcs, RW.Three(RW.Holding(RW.Write), RW.Idle, RW.Idle, -1))
    requires pcs[0] == Running(tasks[0], RW.Write) && s.tasks[tasks[0]].fWriteLock
    ensures Enabled(s, GlobalUnlock(0, 0))
    ensures Scene(Apply(s, GlobalUnlock(0, 0)), tasks, pcs, RW.Three(RW.Idle, RW.Idle, RW.Idle, 0))
  {
    FirstUnlock(s);
    UnlockCallIs(s, GlobalUnlock(0, 0));
    NextScene(s, GlobalUnlock(0, 0), tasks, pcs, RW.Three(RW.Idle, RW.Idle, RW.Idle, 0));
    assert pcs[0 := pcs[0]] == pcs;
  }

  /** The second one begins its Run under the read lock. */
  lemma ReaderGetsIn(s: State, tasks: seq<TaskId>, pcs: seq<WorkerPc>)
    requires Scene(s, tasks, pcs, RW.Three(RW.Idle, RW.Idle, RW.Idle, 0)) && pcs[1] == Locking(tasks[1], RW.Read)
    ensures Enabled(s, LockMutex(1))
    ensures Scene(Apply(s, LockMutex(1)), tasks, pcs[1 := Running(tasks[1], RW.Read)],
                  RW.Three(RW.Idle, RW.Holding(RW.Read), RW.Idle, 1))
  {
    RW.ReaderLosesLock();
    LockCallIs(s, LockMutex(1));
    NextScene(s, LockMutex(1), tasks, pcs, RW.Three(RW.Idle, RW.Holding(RW.Read), RW.Idle, 1));
  }

  lemma WriterEnds(s: State, tasks: seq<TaskId>, pcs: seq<WorkerPc>, mutex: RW.State)
    requires Scene(s, tasks, pcs, mutex) && pcs[0] == Running(tasks[0], RW.Write)
    ensures Enabled(s, EndRun(0, 0))
    ensures Scene(Apply(s, EndRun(0, 0)), tasks, pcs[0 := Leaving(tasks[0], RW.Write, 0)], mutex)
  {
    RunMoves(s, EndRun(0, 0));
    NextScene(s, EndRun(0, 0), tasks, pcs, mutex);
  }

  /** The first one's locker unlocks again: this takes the lock from the second. */
  lemma WriterUnlocksAgain(s: State, tasks: seq<TaskId>, pcs: seq<WorkerPc>)
    requires Scene(s, tasks, pcs, RW.Three(RW.Idle, RW.Holding(RW.Read), RW.Idle, 1))
    requires pcs[0] == Leaving(tasks[0], RW.Write, 0)
    ensures Enabled(s, UnlockMutex(0, 0))
    ensures Scene(Apply(s, UnlockMutex(0, 0)), tasks, pcs[0 := Returned(tasks[0], 0)],
                  RW.Three(RW.Idle, RW.Holding(RW.Read), RW.Idle, 0))
  {
    FirstUnlock(s);
    UnlockCallIs(s, UnlockMutex(0, 0));
    NextScene(s, UnlockMutex(0, 0), tasks, pcs, RW.Three(RW.Idle, RW.Holding(RW.Read), RW.Idle, 0));
  }

  /** So the third gets the write lock beside it. */
  lemma OtherWriterGetsIn(s: State, tasks: seq<TaskId>, pcs: seq<WorkerPc>)
    requires Scene(s, tasks, pcs, RW.Three(RW.Idle, RW.Holding(RW.Read), RW.Idle, 0))
    requires pcs[2] == Locking(tasks[2], RW.Write)
    ensures Enabled(s, LockMutex(2))
    ensures Scene(Apply(s, LockMutex(2)), tasks, pcs[2 := Running(tasks[2], RW.Write)],
                  RW.Three(RW.Idle, RW.Holding(RW.Read), RW.Holding(RW.Write), -1))
  {
    RW.WriterJoinsReader();
    LockCallIs(s, LockMutex(2));
    NextScene(s, LockMutex(2), tasks, pcs, RW.Three(RW.Idle, RW.Holding(RW.Read), RW.Holding(RW.Write), -1));
  }

  lemma LastAct(s: State, tasks: seq<TaskId>, pcs: seq<WorkerPc>)
    requires Scene(s, tasks, pcs, RW.Three(RW.Idle, RW.Holding(RW.Read), RW.Idle, 1))
    requires pcs[0] == Leaving(tasks[0], RW.Write, 0) && pcs[1] == Running(tasks[1], RW.Read)
    requires pcs[2] == Locking(tasks[2], RW.Write)
    ensures var run := [UnlockMutex(0, 0)] + [LockMutex(2)];
      ValidRun(s, run) && BothRun(After(s, run))
  {
    WriterUnlocksAgain(s, tasks, pcs);
    var s1 := Apply(s, UnlockMutex(0, 0));
    OtherWriterGetsIn(s1, tasks, pcs[0 := Returned(tasks[0], 0)]);
    RunCons(s1, LockMutex(2), []);
    RunCons(s, UnlockMutex(0, 0), [LockMutex(2)]);
  }

  /** The second and the third thread are in Run at once, the third one under the write lock. */
  ghost predicate BothRun(s: State) {
    |s.threads| == 3 && Clash(s.threads[1].pc, s.threads[2].pc)
  }

  lemma MiddleAct(s: State, tasks: seq<TaskId>, pcs: seq<WorkerPc>)
    requires Scene(s, tasks, pcs, RW.Three(RW.Idle, RW.Holding(RW.Read), RW.Idle, 1))
    requires pcs[0] == Running(tasks[0], RW.Write) && pcs[1] == Running(tasks[1], RW.Read)
    requires pcs[2] == Locking(tasks[2], RW.Write)
    ensures !Apart(s)
    ensures var run := [EndRun(0, 0)] + ([UnlockMutex(0, 0)] + [LockMutex(2)]);
      ValidRun(s, run) && BothRun(After(s, run))
  {
    assert Clash(s.threads[0].pc, s.threads[1].pc);
    WriterEnds(s, tasks, pcs, s.mutex);
    LastAct(Apply(s, EndRun(0, 0)), tasks, pcs[0 := Leaving(tasks[0], RW.Write, 0)]);
    RunCons(s, EndRun(0, 0), [UnlockMutex(0, 0)] + [LockMutex(2)]);
  }

  lemma FirstAct(s: State, tasks: seq<TaskId>, pcs: seq<WorkerPc>)
    requires Scene(s, tasks, pcs, RW.Three(RW.Idle, RW.Idle, RW.Idle, 0))
    requires pcs[0] == Running(tasks[0], RW.Write) && pcs[1] == Locking(tasks[1], RW.Read)
    requires pcs[2] == Locking(tasks[2], RW.Write)
    ensures ValidRun(s, [LockMutex(1)]) && !Apart(After(s, [LockMutex(1)]))
    ensures var run := [LockMutex(1)] + ([EndRun(0, 0)] + ([UnlockMutex(0, 0)] + [LockMutex(2)]));
      ValidRun(s, run) && BothRun(After(s, run))
  {
    ReaderGetsIn(s, tasks, pcs);
    var s1 := Apply(s, LockMutex(1));
    MiddleAct(s1, tasks, pcs[1 := Running(tasks[1], RW.Read)]);
    RunCons(s, LockMutex(1), []);
    RunCons(s, LockMutex(1), [EndRun(0, 0)] + ([UnlockMutex(0, 0)] + [LockMutex(2)]));
  }

  lemma FirstRunIsAlone(s: State, tasks: seq<TaskId>, pcs: seq<WorkerPc>)
    requires Scene(s, tasks, pcs, s.mutex)
    requires pcs == [Running(tasks[0], RW.Write), Locking(tasks[1], RW.Read), Locking(tasks[2], RW.Write)]
    ensures Apart(s)
  {
  }

  /** A task calls GlobalUnlock in a Run under the write lock. A reader begins beside it; and when it returns, the
      second Unlock takes the lock from this reader, so that another writer begins beside the reader. */
  lemma GlobalUnlockLetsIn(s: State, tasks: seq<TaskId>, pcs: seq<WorkerPc>)
    requires Scene(s, tasks, pcs, RW.Three(RW.Holding(RW.Write), RW.Idle, RW.Idle, -1))
    requires pcs == [Running(tasks[0], RW.Write), Locking(tasks[1], RW.Read), Locking(tasks[2], RW.Write)]
    requires s.tasks[tasks[0]].fWriteLock
    ensures Apart(s)
    ensures var run := [GlobalUnlock(0, 0)] + [LockMutex(1)];
      ValidRun(s, run) && !Apart(After(s, run))
    ensures var run := [GlobalUnlock(0, 0)] + ([LockMutex(1)] + ([EndRun(0, 0)] + ([UnlockMutex(0, 0)] + [LockMutex(2)])));
      ValidRun(s, run) && BothRun(After(s, run))
  {
    FirstRunIsAlone(s, tasks, pcs);
    WriterGivesBack(s, tasks, pcs);
    FirstAct(Apply(s, GlobalUnlock(0, 0)), tasks, pcs);
    RunCons(s, GlobalUnlock(0, 0), [LockMutex(1)]);
    RunCons(s, GlobalUnlock(0, 0), [LockMutex(1)] + ([EndRun(0, 0)] + ([UnlockMutex(0, 0)] + [LockMutex(2)])));
  }

  lemma RunCons(s: State, step: Step, rest: seq<Step>)
    requires Enabled(s, step) && ValidRun(Apply(s, step), rest)
    ensures ValidRun(s, [step] + rest) && After(s, [step] + rest) == After(Apply(s, step), rest)
  {
    assert ([step] + rest)[1..] == rest;
  }

  // ----- Which lock the next Run takes -----

  /** The thread is in a Run of the task under the write lock, or about to be. */
  predicate InLockedRun(pc: WorkerPc, t: TaskId) {
    (pc.Locking? || pc.InLock? || InRun(pc)) && pc.mode == RW.Write && pc.task == t
  }

  ghost predicate SomeLockedRun(s: State, t: TaskId) {
    exists w :: 0 <= w < |s.threads| && InLockedRun(s.threads[w].pc, t)
  }

  /** The next Run of the task is to be under the write lock: fWriteLock is set, and not on account of a Run under
      the write lock that will clear it. */
  ghost predicate LocksNext(s: State, t: TaskId) {
    t in s.tasks && s.tasks[t].fWriteLock && !SomeLockedRun(s, t)
  }

  /** What a step makes of it: CallLocked asks for it, in vain in a Run that is itself under the write lock, and
      GlobalUnlock takes it back. */
  predicate Requests(s: State, step: Step, t: TaskId, locked: bool)
    requires Enabled(s, step)
  {
    if step.CallLocked? && Subject(s, step) == Some(t) then s.threads[step.w].pc.mode == RW.Read
    else if step.GlobalUnlock? && Subject(s, step) == Some(t) then false
    else locked
  }

  lemma OtherPcKeepsLockedRun(s: State, step: Step, t: TaskId)
    requires OfThread(step) && Enabled(s, step) && !StartsRun(s, step, t) && !step.EndRun?
    ensures InLockedRun(PcAfter(s, step), t) == InLockedRun(s.threads[step.w].pc, t)
  {
    if IsRunStep(step) {
      RunPcKeepsLockedRun(s, step, t);
    } else if IsLockStep(step) {
      LockPcKeepsLockedRun(s, step, t);
    }
  }

  lemma RunPcKeepsLockedRun(s: State, step: Step, t: TaskId)
    requires IsRunStep(step) && RunEnabled(s, step) && !StartsRun(s, step, t) && !step.EndRun?
    ensures InLockedRun(PcAfterRun(s, step), t) == InLockedRun(s.threads[step.w].pc, t)
  {
  }

  lemma LockPcKeepsLockedRun(s: State, step: Step, t: TaskId)
    requires IsLockStep(step) && LockEnabled(s, step)
    ensures InLockedRun(PcAfterLock(s, step), t) == InLockedRun(s.threads[step.w].pc, t)
  {
  }

  lemma MoveKeepsLockedRun(s: State, s': State, t: TaskId, w: ThreadId, pc: WorkerPc, heap: Heap<TaskId>)
    requires OneMoves(s, s', w, pc, heap) && InLockedRun(pc, t) == InLockedRun(s.threads[w].pc, t)
    ensures SomeLockedRun(s', t) == SomeLockedRun(s, t)
  {
    if v :| 0 <= v < |s.threads| && InLockedRun(s.threads[v].pc, t) { assert InLockedRun(s'.threads[v].pc, t); }
    if v :| 0 <= v < |s.threads| && InLockedRun(s'.threads[v].pc, t) { assert InLockedRun(s.threads[v].pc, t); }
  }

  lemma StayKeepsLockedRun(s: State, s': State, t: TaskId)
    requires ThreadsStay(s, s')
    ensures SomeLockedRun(s', t) == SomeLockedRun(s, t)
  {
    if v :| 0 <= v < |s.threads| && InLockedRun(s.threads[v].pc, t) { assert InLockedRun(s'.threads[v].pc, t); }
    if v :| 0 <= v < |s.threads| && InLockedRun(s'.threads[v].pc, t) { assert InLockedRun(s.threads[v].pc, t); }
  }

  lemma StepKeepsLockedRun(s: State, step: Step, t: TaskId)
    requires Enabled(s, step) && !StartsRun(s, step, t)
    requires !(step.EndRun? && InLockedRun(s.threads[step.w].pc, t))
    ensures SomeLockedRun(Apply(s, step), t) == SomeLockedRun(s, t)
  {
    if !OfThread(step) {
      StepStays(s, step);
      StayKeepsLockedRun(s, Apply(s, step), t);
    } else {
      StepMoves(s, step);
      if !step.EndRun? { OtherPcKeepsLockedRun(s, step, t); }
      MoveKeepsLockedRun(s, Apply(s, step), t, step.w, PcAfter(s, step), HeapAfter(s, step));
    }
  }

  /** The thread that has the task in its loop is the only one that can be in a Run of it. */
  lemma HolderIsInLockedRun(s: State, w: ThreadId)
    requires Inv(s) && HoldsTask(s, w)
    ensures SomeLockedRun(s, s.threads[w].pc.task) <==> InLockedRun(s.threads[w].pc, s.threads[w].pc.task)
  {
    var t := s.threads[w].pc.task;
    OnlyPlace(s, t, AtEntry(w));
    if v :| 0 <= v < |s.threads| && InLockedRun(s.threads[v].pc, t) { assert At(s, t, AtEntry(v)); }
  }

  /** The end of a Run under the write lock clears fWriteLock. */
  lemma LockedRunEnds(s: State, step: Step, t: TaskId)
    requires Enabled(s, step) && step.EndRun? && InLockedRun(s.threads[step.w].pc, t) && t in s.tasks
    ensures !LocksNext(s, t) && !LocksNext(Apply(s, step), t)
  {
    StepOwn(s, step, t);
  }

  lemma CallRequests(s: State, w: ThreadId)
    requires Inv(s) && Enabled(s, CallLocked(w))
    ensures LocksNext(Apply(s, CallLocked(w)), s.threads[w].pc.task) <==> s.threads[w].pc.mode == RW.Read
  {
    StepOwn(s, CallLocked(w), s.threads[w].pc.task);
    StepKeepsLockedRun(s, CallLocked(w), s.threads[w].pc.task);
    HolderIsInLockedRun(s, w);
  }

  lemma OtherStepRequests(s: State, step: Step, t: TaskId)
    requires Enabled(s, step) && t in s.tasks && !Deletes(s, step, t) && !StartsRun(s, step, t)
    requires !(step.EndRun? && InLockedRun(s.threads[step.w].pc, t)) && !(step.CallLocked? && Subject(s, step) == Some(t))
    ensures LocksNext(Apply(s, step), t) == Requests(s, step, t, LocksNext(s, t))
  {
    StepOwn(s, step, t);
    StepKeepsLockedRun(s, step, t);
  }

  lemma StepRequests(s: State, step: Step, t: TaskId)
    requires Inv(s) && Enabled(s, step) && t in s.tasks && !Deletes(s, step, t) && !StartsRun(s, step, t)
    ensures LocksNext(Apply(s, step), t) == Requests(s, step, t, LocksNext(s, t))
  {
    if step.EndRun? && InLockedRun(s.threads[step.w].pc, t) {
      LockedRunEnds(s, step, t);
    } else if step.CallLocked? && Subject(s, step) == Some(t) {
      CallRequests(s, step.w);
    } else {
      OtherStepRequests(s, step, t);
    }
  }

  /** The next Run of the task in the run is under the write lock as requested by then, unless it is deleted first. */
  ghost predicate NextRunLocked(s: State, run: seq<Step>, t: TaskId, locked: bool)
    requires ValidRun(s, run)
    decreases |run|
  {
    run != [] && !Deletes(s, run[0], t) ==>
      if StartsRun(s, run[0], t) then PcAfter(s, run[0]) == Locking(t, if locked then RW.Write else RW.Read)
      else NextRunLocked(Apply(s, run[0]), run[1..], t, Requests(s, run[0], t, locked))
  }

  /** The next Run of a task is under the write lock exactly when the last CallLocked was in a Run under the read
      lock and no GlobalUnlock came after it. */
  lemma {:induction false} CallLockedHolds(s: State, run: seq<Step>, t: TaskId)
    requires Inv(s) && ValidRun(s, run) && t in s.tasks
    ensures NextRunLocked(s, run, t, LocksNext(s, t))
    decreases |run|
  {
    if run != [] && !Deletes(s, run[0], t) {
      if StartsRun(s, run[0], t) {
        HolderIsInLockedRun(s, run[0].w);
      } else {
        StepKeepsInv(s, run[0]);
        StepOwn(s, run[0], t);
        StepRequests(s, run[0], t);
        CallLockedHolds(Apply(s, run[0]), run[1..], t);
      }
    }
  }

  // ----- Nobody is stuck -----

  predicate StepBySignal(step: Step, id: SignalId) { IsSignalStep(step) && !step.SignalOr? && step.id == id }

  ghost predicate SignalCanMove(s: State, id: SignalId) { exists step :: StepBySignal(step, id) && Enabled(s, step) }

  ghost predicate ThreadCanMove(s: State, w: ThreadId) {
    exists step :: OfThread(step) && step.w == w && Enabled(s, step)
  }

  /** A signaller that has won, and every task thread, always has a next step: nothing they refer to has been
      deleted, a thread asleep in the lock can wake by its timeout, and a lock given back twice can still be
      unlocked. */
  lemma NobodyIsStuck(s: State)
    requires Reachable(s)
    ensures forall id :: id in s.signals ==> SignalCanMove(s, id)
    ensures forall w :: 0 <= w < |s.threads| ==> ThreadCanMove(s, w)
  {
    ReachableInv(s);
    ReachableLocks(s);
    forall id | id in s.signals
      ensures SignalCanMove(s, id)
    {
      SignalMoves(s, id);
    }
    forall w | 0 <= w < |s.threads|
      ensures ThreadCanMove(s, w)
    {
      ThreadMoves(s, w);
    }
  }

  lemma SignalMoves(s: State, id: SignalId)
    requires Inv(s) && id in s.signals
    ensures SignalCanMove(s, id)
  {
    OnlyPlace(s, s.signals[id].task, AtSignal(id));
    var step := match s.signals[id]
      case Won(_) => SignalTest(id)
      case HasDefault(_) => SignalDefault(id)
      case Defaulted(_) => SignalPick(id)
      case Picked(_, _) => SignalEnQueue(id);
    assert StepBySignal(step, id) && Enabled(s, step);
  }

  /** The waiting writer an Unlock signals, if there is one. */
  lemma UnlockIsEnabled(s: State, w: ThreadId) returns (chosen: ThreadId)
    requires w < |s.mutex.pcs| && (s.mutex.pcs[w].Idle? || s.mutex.pcs[w].Holding?)
    ensures RW.Enabled(s.mutex, UnlockCall(s, w, chosen))
  {
    chosen := 0;
    if RW.Asleep(RW.Write) in s.mutex.pcs {
      chosen :| chosen < |s.mutex.pcs| && s.mutex.pcs[chosen] == RW.Asleep(RW.Write);
    }
  }

  /** At the locker's calls. */
  lemma LockUserMoves(s: State, w: ThreadId)
    requires LocksInv(s) && HoldsTask(s, w)
    requires s.threads[w].pc.Locking? || s.threads[w].pc.InLock? || s.threads[w].pc.Leaving?
    ensures ThreadCanMove(s, w)
  {
    var pc := s.threads[w].pc;
    assert RoleOk(RoleOf(pc), s.mutex.pcs[w]);
    var chosen := 0;
    if pc.Leaving? { chosen := UnlockIsEnabled(s, w); }
    var step := match pc
      case Locking(_, _) => LockMutex(w)
      case InLock(_, _) => if s.mutex.pcs[w].Asleep? then WakeUp(w) else RetestMutex(w)
      case Leaving(_, _, _) => UnlockMutex(w, chosen);
    assert OfThread(step) && step.w == w && Enabled(s, step);
  }

  /** Elsewhere in Entry. */
  lemma EntryMoves(s: State, w: ThreadId)
    requires HoldsTask(s, w) && !s.threads[w].pc.Locking? && !s.threads[w].pc.InLock? && !s.threads[w].pc.Leaving?
    ensures ThreadCanMove(s, w)
  {
    var step := match s.threads[w].pc
      case Got(_) => StartRun(w)
      case Running(_, _) => EndRun(w, 0)
      case Reading(_, _, _) => SubEvents(w)
      case Returned(_, timeout) => if timeout < 0 then Delete(w) else if timeout == 0 then CompareAndStore(w) else InsertTimer(w);
    assert OfThread(step) && step.w == w && Enabled(s, step);
  }

  lemma WaiterMoves(s: State, w: ThreadId)
    requires w < |s.threads| && !InEntry(s.threads[w].pc)
    requires s.threads[w].pc.Inserted? ==> s.threads[w].pc.task in s.tasks
    ensures ThreadCanMove(s, w)
  {
    var th := s.threads[w];
    var step := match th.pc
      case Waiting => ReadClock(w)
      case Peeking(_) => if TimerDue(th) then TakeTimer(w) else StartBlocking(w)
      case Blocking => DeQueue(w)
      case Inserted(_) => SetIdle(w);
    assert OfThread(step) && step.w == w && Enabled(s, step);
  }

  lemma ThreadMoves(s: State, w: ThreadId)
    requires Inv(s) && LocksInv(s) && w < |s.threads|
    ensures ThreadCanMove(s, w)
  {
    var pc := s.threads[w].pc;
    if InEntry(pc) {
      OnlyPlace(s, pc.task, AtEntry(w));
      if pc.Locking? || pc.InLock? || pc.Leaving? { LockUserMoves(s, w); } else { EntryMoves(s, w); }
    } else {
      assert ThreadInv(s.threads[w], s.clock);
      if pc.Inserted? { OnlyPlace(s, pc.task, InHeap(w)); }
      WaiterMoves(s, w);
    }
  }
}
