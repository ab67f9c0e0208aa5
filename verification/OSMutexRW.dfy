/** OSMutexRW.h and OSMutexRW.cpp. Every method holds fInternalLock except while it waits on a condition,
    so a lock call is one critical section up to its first wait and one more after each wake-up. */
module OSMutexRW {

  datatype Lock = Lock(fState: int, fWriteWaiters: int, fReadWaiters: int, fActiveReaders: int)

  predicate WaitingWriters(l: Lock) { l.fWriteWaiters > 0 }
  predicate Active(l: Lock) { l.fState != 0 }
  predicate ActiveReaders(l: Lock) { l.fState > 0 }
  predicate ActiveWriter(l: Lock) { l.fState < 0 }

  datatype Mode = Read | Write

  /** The test of the wait loop. */
  predicate MustWait(l: Lock, m: Mode) {
    match m
    case Read => ActiveWriter(l) || WaitingWriters(l)
    case Write => ActiveReaders(l)
  }

  function AddWaiter(l: Lock, m: Mode): Lock {
    match m
    case Read => l.(fReadWaiters := l.fReadWaiters + 1)
    case Write => l.(fWriteWaiters := l.fWriteWaiters + 1)
  }

  /** What follows the wait loop. */
  function Acquire(l: Lock, m: Mode): Lock {
    match m
    case Read => l.(fReadWaiters := l.fReadWaiters - 1, fState := l.fState + 1, fActiveReaders := l.fState + 1)
    case Write => l.(fWriteWaiters := l.fWriteWaiters - 1, fState := -1, fActiveReaders := -1)
  }

  datatype Wake = WakeNobody | WakeWriter | WakeReaders

  function Release(l: Lock): (r: (Lock, Wake)) {
    if ActiveWriter(l) then
      (l.(fState := 0, fActiveReaders := 0), if WaitingWriters(l) then WakeWriter else WakeReaders)
    else
      var state := l.fState - 1;
      if state > 0 then (l.(fState := state, fActiveReaders := state), WakeNobody)
      else (l.(fState := 0, fActiveReaders := 0), WakeWriter)
  }

  predicate TryFails(l: Lock, m: Mode) {
    match m
    case Read => ActiveWriter(l) || WaitingWriters(l)
    case Write => Active(l) || WaitingWriters(l)
  }

  class MutexRW {
    var fState: int
    var fWriteWaiters: int
    var fReadWaiters: int
    var fActiveReaders: int

    function Snapshot(): Lock
      reads this
    {
      Lock(fState, fWriteWaiters, fReadWaiters, fActiveReaders)
    }

    constructor ()
      ensures Snapshot() == Lock(0, 0, 0, 0)
    {
      fState, fWriteWaiters, fReadWaiters, fActiveReaders := 0, 0, 0, 0;
    }

    /** LockRead up to its first wait, or to its end when it need not wait. */
    method LockRead() returns (waits: bool)
      modifies this
      ensures var l := AddWaiter(old(Snapshot()), Read);
        waits == MustWait(l, Read) && Snapshot() == if waits then l else Acquire(l, Read)
    {
      fReadWaiters := fReadWaiters + 1;
      waits := LockReadAfterWait();
    }

    /** LockRead from one test of its wait loop to the next wait or to its end. */
    method LockReadAfterWait() returns (waits: bool)
      modifies this
      ensures waits == MustWait(old(Snapshot()), Read)
      ensures Snapshot() == if waits then old(Snapshot()) else Acquire(old(Snapshot()), Read)
    {
      waits := fState < 0 || fWriteWaiters > 0;
      if !waits {
        fReadWaiters := fReadWaiters - 1;
        fState := fState + 1;
        fActiveReaders := fState;
      }
    }

    method LockWrite() returns (waits: bool)
      modifies this
      ensures var l := AddWaiter(old(Snapshot()), Write);
        waits == MustWait(l, Write) && Snapshot() == if waits then l else Acquire(l, Write)
    {
      fWriteWaiters := fWriteWaiters + 1;
      waits := LockWriteAfterWait();
    }

    method LockWriteAfterWait() returns (waits: bool)
      modifies this
      ensures waits == MustWait(old(Snapshot()), Write)
      ensures Snapshot() == if waits then old(Snapshot()) else Acquire(old(Snapshot()), Write)
    {
      waits := fState > 0;
      if !waits {
        fWriteWaiters := fWriteWaiters - 1;
        fState := -1;
        fActiveReaders := fState;
      }
    }

    /** Returns which condition is signalled or broadcast. */
    method Unlock() returns (wake: Wake)
      modifies this
      ensures (Snapshot(), wake) == Release(old(Snapshot()))
    {
      wake := WakeNobody;
      if fState < 0 {
        fState := 0;
        wake := if fWriteWaiters > 0 then WakeWriter else WakeReaders;
      } else {
        fState := fState - 1;
        if !(fState > 0) {
          fState := 0;
          wake := WakeWriter;
        }
      }
      fActiveReaders := fState;
    }

    /** Neither attempt ever waits: the nested lock call passes its loop test at once. */
    method TryLockWrite() returns (ok: bool)
      modifies this
      ensures ok == !TryFails(old(Snapshot()), Write)
      ensures Snapshot() == if ok then Acquire(AddWaiter(old(Snapshot()), Write), Write) else old(Snapshot())
    {
      ok := false;
      if !(fState != 0) && !(fWriteWaiters > 0) {
        var waits := LockWrite();
        assert !waits;
        ok := true;
      }
    }

    method TryLockRead() returns (ok: bool)
      modifies this
      ensures ok == !TryFails(old(Snapshot()), Read)
      ensures Snapshot() == if ok then Acquire(AddWaiter(old(Snapshot()), Read), Read) else old(Snapshot())
    {
      ok := false;
      if !(fState < 0) && !(fWriteWaiters > 0) {
        var waits := LockRead();
        assert !waits;
        ok := true;
      }
    }
  }

  // ----- Any number of threads on one lock -----

  type ThreadId = nat

  datatype Pc =
    | Idle
    | Asleep(mode: Mode)    // waiting on its condition
    | Awake(mode: Mode)     // woken, about to take fInternalLock and test again
    | Holding(mode: Mode)

  datatype State = State(lock: Lock, pcs: seq<Pc>)

  datatype Step =
    | LockCall(t: ThreadId, mode: Mode)
    | TryLockCall(t: ThreadId, mode: Mode)
    | Retest(t: ThreadId)
    | UnlockCall(t: ThreadId, chosen: ThreadId)   // chosen: the waiting writer a signal wakes
    | SpuriousWake(t: ThreadId)                   // a spurious or timed-out wake-up
    | ExtraUnlock(t: ThreadId, chosen: ThreadId)  // Unlock by a thread that does not hold the lock

  predicate Enabled(s: State, step: Step) {
    && step.t < |s.pcs|
    && match step
       case LockCall(t, _) => s.pcs[t].Idle?
       case TryLockCall(t, _) => s.pcs[t].Idle?
       case Retest(t) => s.pcs[t].Awake?
       case UnlockCall(t, chosen) =>
         s.pcs[t].Holding? && (Asleep(Write) in s.pcs ==> chosen < |s.pcs| && s.pcs[chosen] == Asleep(Write))
       case SpuriousWake(t) => s.pcs[t].Asleep?
       case ExtraUnlock(t, chosen) =>
         s.pcs[t].Idle? && (Asleep(Write) in s.pcs ==> chosen < |s.pcs| && s.pcs[chosen] == Asleep(Write))
  }

  function WakeAll(pcs: seq<Pc>, m: Mode): (r: seq<Pc>)
    ensures |r| == |pcs|
    ensures forall i :: 0 <= i < |pcs| ==> r[i] == if pcs[i] == Asleep(m) then Awake(m) else pcs[i]
  {
    seq(|pcs|, i requires 0 <= i < |pcs| => if pcs[i] == Asleep(m) then Awake(m) else pcs[i])
  }

  function Wakened(pcs: seq<Pc>, wake: Wake, chosen: ThreadId): (r: seq<Pc>)
    ensures |r| == |pcs|
  {
    match wake
    case WakeNobody => pcs
    case WakeWriter => if chosen < |pcs| && pcs[chosen] == Asleep(Write) then pcs[chosen := Awake(Write)] else pcs
    case WakeReaders => WakeAll(pcs, Read)
  }

  /** One test of the wait loop by a thread already counted as a waiter. */
  function Attempt(s: State, t: ThreadId, m: Mode): State
    requires t < |s.pcs|
  {
    if MustWait(s.lock, m) then s.(pcs := s.pcs[t := Asleep(m)])
    else State(Acquire(s.lock, m), s.pcs[t := Holding(m)])
  }

  function Apply(s: State, step: Step): State
    requires Enabled(s, step)
  {
    match step
    case LockCall(t, m) => Attempt(s.(lock := AddWaiter(s.lock, m)), t, m)
    case TryLockCall(t, m) => if TryFails(s.lock, m) then s else Attempt(s.(lock := AddWaiter(s.lock, m)), t, m)
    case Retest(t) => Attempt(s, t, s.pcs[t].mode)
    case UnlockCall(t, chosen) =>
      var (lock, wake) := Release(s.lock);
      State(lock, Wakened(s.pcs[t := Idle], wake, chosen))
    case SpuriousWake(t) => s.(pcs := s.pcs[t := Awake(s.pcs[t].mode)])
    case ExtraUnlock(_, chosen) =>
      var (lock, wake) := Release(s.lock);
      State(lock, Wakened(s.pcs, wake, chosen))
  }

  predicate Initial(s: State) {
    s.lock == Lock(0, 0, 0, 0) && forall t :: 0 <= t < |s.pcs| ==> s.pcs[t] == Idle
  }

  predicate ValidRun(s: State, run: seq<Step>)
    decreases |run|
  {
    run == [] || (Enabled(s, run[0]) && ValidRun(Apply(s, run[0]), run[1..]))
  }

  function After(s: State, run: seq<Step>): State
    requires ValidRun(s, run)
    decreases |run|
  {
    if run == [] then s else After(Apply(s, run[0]), run[1..])
  }

  function Count(pcs: seq<Pc>, pc: Pc): nat {
    if pcs == [] then 0 else (if pcs[0] == pc then 1 else 0) + Count(pcs[1..], pc)
  }

  lemma {:induction false} CountUpdate(pcs: seq<Pc>, t: nat, new': Pc, pc: Pc)
    requires t < |pcs|
    ensures Count(pcs[t := new'], pc) + (if pcs[t] == pc then 1 else 0) == Count(pcs, pc) + (if new' == pc then 1 else 0)
  {
    if t == 0 {
      assert pcs[0 := new'][1..] == pcs[1..];
    } else {
      CountUpdate(pcs[1..], t - 1, new', pc);
      assert pcs[t := new'][1..] == pcs[1..][t - 1 := new'];
    }
  }

  lemma {:induction false} CountZero(pcs: seq<Pc>, pc: Pc)
    ensures Count(pcs, pc) == 0 <==> pc !in pcs
  {
    if pcs != [] {
      CountZero(pcs[1..], pc);
      assert pcs == [pcs[0]] + pcs[1..];
    }
  }

  function Woken(pcs: seq<Pc>, m: Mode, pc: Pc): nat {
    if pc == Asleep(m) then 0
    else if pc == Awake(m) then Count(pcs, pc) + Count(pcs, Asleep(m))
    else Count(pcs, pc)
  }

  lemma {:induction false} CountWakeAll(pcs: seq<Pc>, m: Mode, pc: Pc)
    ensures Count(WakeAll(pcs, m), pc) == Woken(pcs, m, pc)
  {
    if pcs != [] {
      CountWakeAll(pcs[1..], m, pc);
      assert WakeAll(pcs, m)[1..] == WakeAll(pcs[1..], m);
    }
  }

  // ----- The invariant -----

  /** A writer holds the lock alone. */
  ghost predicate Exclusive(s: State) {
    Count(s.pcs, Holding(Write)) == 0 || (Count(s.pcs, Holding(Write)) == 1 && Count(s.pcs, Holding(Read)) == 0)
  }

  /** fState is -1 for one writer and otherwise the number of readers. */
  ghost predicate StateExact(s: State) {
    s.lock.fState == if Count(s.pcs, Holding(Write)) > 0 then -1 else Count(s.pcs, Holding(Read))
  }

  ghost predicate CountersExact(s: State) {
    && s.lock.fWriteWaiters == Waiters(s.pcs, Write)
    && s.lock.fReadWaiters == Waiters(s.pcs, Read)
    && s.lock.fActiveReaders == s.lock.fState
  }

  /** Whoever sleeps has someone to wake it: a writer asleep on a lock that is free has a woken writer before
      it, and a reader asleep has a writer that holds the lock or waits for it. */
  ghost predicate WakeUpsPending(s: State) {
    && (Count(s.pcs, Asleep(Write)) > 0 && s.lock.fState == 0 ==> Count(s.pcs, Awake(Write)) > 0)
    && (Count(s.pcs, Asleep(Read)) > 0 ==> s.lock.fState < 0 || s.lock.fWriteWaiters > 0)
  }

  ghost predicate Inv(s: State) {
    Exclusive(s) && StateExact(s) && CountersExact(s) && WakeUpsPending(s)
  }

  /** The step takes the lock for writing. */
  predicate TakesWrite(s: State, step: Step)
    requires Enabled(s, step)
  {
    match step
    case LockCall(_, m) => m == Write && !MustWait(s.lock, Write)
    case TryLockCall(_, m) => m == Write && !TryFails(s.lock, Write)
    case Retest(t) => s.pcs[t].mode == Write && !MustWait(s.lock, Write)
    case _ => false
  }

  /** The step does not take the lock for writing while a writer holds it, and does not give back a lock that
      somebody else holds. */
  predicate Guarded(s: State, step: Step)
    requires Enabled(s, step)
  {
    !(TakesWrite(s, step) && ActiveWriter(s.lock)) && !(step.ExtraUnlock? && Active(s.lock))
  }

  /** Nobody unlocks without holding the lock. */
  predicate Balanced(run: seq<Step>) { forall i :: 0 <= i < |run| ==> !run[i].ExtraUnlock? }

  /** The lock excludes, and its state says so. */
  ghost predicate Sound(s: State) { Exclusive(s) && StateExact(s) }

  // ----- Every step -----

  /** One thread went from one program counter to another, counted over all of them. */
  ghost predicate Shifted(before: seq<Pc>, after: seq<Pc>, old': Pc, new': Pc) {
    && CountShifts(before, after, old', new', Asleep(Read))
    && CountShifts(before, after, old', new', Asleep(Write))
    && CountShifts(before, after, old', new', Awake(Read))
    && CountShifts(before, after, old', new', Awake(Write))
    && CountShifts(before, after, old', new', Holding(Read))
    && CountShifts(before, after, old', new', Holding(Write))
  }

  ghost predicate CountShifts(before: seq<Pc>, after: seq<Pc>, old': Pc, new': Pc, pc: Pc) {
    Count(after, pc) + (if old' == pc then 1 else 0) == Count(before, pc) + (if new' == pc then 1 else 0)
  }

  lemma CountUpdates(pcs: seq<Pc>, t: nat, new': Pc)
    requires t < |pcs|
    ensures Shifted(pcs, pcs[t := new'], pcs[t], new')
  {
    CountUpdate(pcs, t, new', Asleep(Read));
    CountUpdate(pcs, t, new', Asleep(Write));
    CountUpdate(pcs, t, new', Awake(Read));
    CountUpdate(pcs, t, new', Awake(Write));
    CountUpdate(pcs, t, new', Holding(Read));
    CountUpdate(pcs, t, new', Holding(Write));
  }

  /** A thread that is counted as a waiter and about to test the loop condition. */
  function Queued(s: State, t: ThreadId, m: Mode): State
    requires t < |s.pcs|
  {
    State(AddWaiter(s.lock, m), s.pcs[t := Awake(m)])
  }

  lemma QueuedKeepsInv(s: State, t: ThreadId, m: Mode)
    requires Inv(s) && t < |s.pcs| && s.pcs[t].Idle?
    ensures Inv(Queued(s, t, m))
  {
    CountUpdates(s.pcs, t, Awake(m));
  }

  lemma AttemptKeepsInv(s: State, t: ThreadId)
    requires Inv(s) && t < |s.pcs| && s.pcs[t].Awake?
    requires MustWait(s.lock, s.pcs[t].mode) || s.pcs[t].mode == Read || !ActiveWriter(s.lock)
    ensures Inv(Attempt(s, t, s.pcs[t].mode))
  {
    var m := s.pcs[t].mode;
    CountUpdates(s.pcs, t, if MustWait(s.lock, m) then Asleep(m) else Holding(m));
  }

  /** A second writer that takes the lock holds it together with the first. */
  lemma AttemptBreaksExclusion(s: State, t: ThreadId)
    requires Inv(s) && t < |s.pcs| && s.pcs[t].Awake? && s.pcs[t].mode == Write
    requires ActiveWriter(s.lock)
    ensures Count(Attempt(s, t, Write).pcs, Holding(Write)) == 2
  {
    CountUpdates(s.pcs, t, Holding(Write));
  }

  function Waiters(pcs: seq<Pc>, m: Mode): nat { Count(pcs, Asleep(m)) + Count(pcs, Awake(m)) }

  lemma CountWakeWriter(pcs: seq<Pc>, chosen: nat)
    requires Asleep(Write) in pcs ==> chosen < |pcs| && pcs[chosen] == Asleep(Write)
    ensures var r := Wakened(pcs, WakeWriter, chosen);
      && (Count(pcs, Asleep(Write)) > 0 ==> Count(r, Awake(Write)) > 0)
      && Waiters(r, Write) == Waiters(pcs, Write) && Count(r, Asleep(Write)) <= Count(pcs, Asleep(Write))
      && Count(r, Asleep(Read)) == Count(pcs, Asleep(Read)) && Count(r, Awake(Read)) == Count(pcs, Awake(Read))
      && Count(r, Holding(Read)) == Count(pcs, Holding(Read)) && Count(r, Holding(Write)) == Count(pcs, Holding(Write))
  {
    CountZero(pcs, Asleep(Write));
    if chosen < |pcs| && pcs[chosen] == Asleep(Write) {
      CountUpdates(pcs, chosen, Awake(Write));
    }
  }

  lemma CountWakeReaders(pcs: seq<Pc>)
    ensures var r := WakeAll(pcs, Read);
      && Count(r, Asleep(Read)) == 0 && Count(r, Awake(Read)) == Waiters(pcs, Read)
      && Count(r, Asleep(Write)) == Count(pcs, Asleep(Write)) && Count(r, Awake(Write)) == Count(pcs, Awake(Write))
      && Count(r, Holding(Read)) == Count(pcs, Holding(Read)) && Count(r, Holding(Write)) == Count(pcs, Holding(Write))
  {
    CountWakeAll(pcs, Read, Asleep(Read));
    CountWakeAll(pcs, Read, Awake(Read));
    CountWakeAll(pcs, Read, Asleep(Write));
    CountWakeAll(pcs, Read, Awake(Write));
    CountWakeAll(pcs, Read, Holding(Read));
    CountWakeAll(pcs, Read, Holding(Write));
  }

  lemma UnlockKeepsInv(s: State, t: ThreadId, chosen: ThreadId)
    requires Inv(s) && Enabled(s, UnlockCall(t, chosen))
    ensures Inv(Apply(s, UnlockCall(t, chosen)))
  {
    var pcs := s.pcs[t := Idle];
    CountUpdates(s.pcs, t, Idle);
    match s.pcs[t].mode {
      case Read => CountZero(s.pcs, Holding(Read));
      case Write => CountZero(s.pcs, Holding(Write));
    }
    var (lock, wake) := Release(s.lock);
    if wake == WakeWriter {
      assert Asleep(Write) in pcs ==> Asleep(Write) in s.pcs;
      CountWakeWriter(pcs, chosen);
    } else if wake == WakeReaders {
      CountWakeReaders(pcs);
    }
  }

  lemma SpuriousKeepsInv(s: State, t: ThreadId)
    requires Inv(s) && Enabled(s, SpuriousWake(t))
    ensures Inv(Apply(s, SpuriousWake(t)))
  {
    CountUpdates(s.pcs, t, Awake(s.pcs[t].mode));
  }

  lemma QueuedAttempt(s: State, t: ThreadId, m: Mode)
    requires t < |s.pcs|
    ensures Attempt(Queued(s, t, m), t, m) == Attempt(s.(lock := AddWaiter(s.lock, m)), t, m)
  {
  }

  /** On a free lock an Unlock too many only wakes a waiting writer. */
  lemma ExtraUnlockKeepsInv(s: State, t: ThreadId, chosen: ThreadId)
    requires Inv(s) && Enabled(s, ExtraUnlock(t, chosen)) && !Active(s.lock)
    ensures Inv(Apply(s, ExtraUnlock(t, chosen)))
  {
    CountWakeWriter(s.pcs, chosen);
  }

  /** On a lock that is held it leaves a state that does not say who holds it. */
  lemma ExtraUnlockIsUnsound(s: State, t: ThreadId, chosen: ThreadId)
    requires Inv(s) && Enabled(s, ExtraUnlock(t, chosen)) && Active(s.lock)
    ensures !StateExact(Apply(s, ExtraUnlock(t, chosen)))
  {
    var (lock, wake) := Release(s.lock);
    if wake == WakeWriter {
      CountWakeWriter(s.pcs, chosen);
    } else if wake == WakeReaders {
      CountWakeReaders(s.pcs);
    }
  }

  lemma GuardedStepKeepsInv(s: State, step: Step)
    requires Inv(s) && Enabled(s, step) && Guarded(s, step)
    ensures Inv(Apply(s, step))
  {
    match step
    case LockCall(t, m) =>
      QueuedAttempt(s, t, m);
      QueuedKeepsInv(s, t, m);
      AttemptKeepsInv(Queued(s, t, m), t);
    case TryLockCall(t, m) =>
      if !TryFails(s.lock, m) {
        QueuedAttempt(s, t, m);
        QueuedKeepsInv(s, t, m);
        AttemptKeepsInv(Queued(s, t, m), t);
      }
    case Retest(t) => AttemptKeepsInv(s, t);
    case UnlockCall(t, chosen) => UnlockKeepsInv(s, t, chosen);
    case SpuriousWake(t) => SpuriousKeepsInv(s, t);
    case ExtraUnlock(t, chosen) => ExtraUnlockKeepsInv(s, t, chosen);
  }

  lemma UnguardedStepIsUnsound(s: State, step: Step)
    requires Inv(s) && Enabled(s, step) && !Guarded(s, step)
    ensures !Sound(Apply(s, step))
  {
    if step.ExtraUnlock? {
      ExtraUnlockIsUnsound(s, step.t, step.chosen);
    } else {
      UnguardedStepBreaksExclusion(s, step);
    }
  }

  lemma UnguardedStepBreaksExclusion(s: State, step: Step)
    requires Inv(s) && Enabled(s, step) && !Guarded(s, step) && !step.ExtraUnlock?
    ensures Count(Apply(s, step).pcs, Holding(Write)) == 2
  {
    match step
    case LockCall(t, m) =>
      QueuedAttempt(s, t, m);
      QueuedKeepsInv(s, t, m);
      AttemptBreaksExclusion(Queued(s, t, m), t);
    case Retest(t) => AttemptBreaksExclusion(s, t);
  }

  // ----- Who gets the lock -----

  /** The step is one test of whether its thread gets the lock. */
  predicate Asks(step: Step) { step.LockCall? || step.TryLockCall? || step.Retest? }

  /** What the thread of the step asks for. */
  function Asked(s: State, step: Step): Mode
    requires Asks(step) && Enabled(s, step)
  {
    match step
    case LockCall(_, m) => m
    case TryLockCall(_, m) => m
    case Retest(t) => s.pcs[t].mode
  }

  /** No writer holds the lock or waits for it. */
  ghost predicate NoWriter(s: State) { Count(s.pcs, Holding(Write)) == 0 && Waiters(s.pcs, Write) == 0 }

  /** A reader gets the lock exactly when no writer holds it or waits for it; a writer exactly when no reader holds
      it, and by an attempt only when nobody holds it and no writer waits. */
  lemma GrantedIff(s: State, step: Step)
    requires Inv(s) && Enabled(s, step) && Asks(step)
    ensures Asked(s, step) == Read ==>
      (Apply(s, step).pcs[step.t] == Holding(Read) <==> NoWriter(s))
    ensures Asked(s, step) == Write ==>
      (Apply(s, step).pcs[step.t] == Holding(Write)
       <==> Count(s.pcs, Holding(Read)) == 0 && (step.TryLockCall? ==> NoWriter(s)))
  {
  }

  /** Whoever holds the lock for reading after the step held it before. */
  ghost predicate NoNewReader(s: State, s': State) {
    |s'.pcs| == |s.pcs| && forall t :: 0 <= t < |s.pcs| && s'.pcs[t] == Holding(Read) ==> s.pcs[t] == Holding(Read)
  }

  /** While a writer waits, no thread gets the lock for reading. */
  lemma WriterGoesFirst(s: State, step: Step)
    requires Inv(s) && Enabled(s, step) && Waiters(s.pcs, Write) > 0
    ensures NoNewReader(s, Apply(s, step))
    ensures Count(Apply(s, step).pcs, Holding(Read)) <= Count(s.pcs, Holding(Read))
  {
    OthersStayOrWake(s, step);
    if Asks(step) {
      GrantedIff(s, step);
    }
    FewerHold(s.pcs, Apply(s, step).pcs, Holding(Read));
  }

  lemma {:induction false} FewerHold(before: seq<Pc>, after: seq<Pc>, pc: Pc)
    requires |after| == |before| && forall t :: 0 <= t < |before| && after[t] == pc ==> before[t] == pc
    ensures Count(after, pc) <= Count(before, pc)
  {
    if before != [] {
      FewerHold(before[1..], after[1..], pc);
    }
  }

  /** What a step of another thread may do to a thread: wake it. */
  predicate StaysOrWakes(before: Pc, after: Pc) { after == before || (before.Asleep? && after == Awake(before.mode)) }

  lemma OthersStayOrWake(s: State, step: Step)
    requires Enabled(s, step)
    ensures |Apply(s, step).pcs| == |s.pcs|
    ensures forall v :: 0 <= v < |s.pcs| && v != step.t ==> StaysOrWakes(s.pcs[v], Apply(s, step).pcs[v])
  {
  }

  /** A thread that asks for the lock or tests again waits asleep or has it. */
  lemma AskerWaitsOrHolds(s: State, step: Step)
    requires Enabled(s, step) && (step.LockCall? || step.Retest?)
    ensures var m := if step.LockCall? then step.mode else s.pcs[step.t].mode;
      Apply(s, step).pcs[step.t] == Asleep(m) || Apply(s, step).pcs[step.t] == Holding(m)
  {
  }

  lemma UnlockerIsIdle(s: State, step: Step)
    requires Enabled(s, step) && (step.UnlockCall? || step.ExtraUnlock?)
    ensures Apply(s, step).pcs[step.t] == Idle
  {
  }

  /** Two threads that hold an exclusive lock are both readers. */
  lemma HoldersAreReaders(s: State, v: ThreadId, w: ThreadId)
    requires Exclusive(s) && v < |s.pcs| && w < |s.pcs| && v != w && s.pcs[v].Holding? && s.pcs[w].Holding?
    ensures s.pcs[v].mode == Read && s.pcs[w].mode == Read
  {
    CountZero(s.pcs, Holding(Write));
    CountZero(s.pcs, Holding(Read));
    if s.pcs[v] == s.pcs[w] {
      CountTwo(s.pcs, v, w);
    }
  }

  lemma CountTwo(pcs: seq<Pc>, v: nat, w: nat)
    requires v < |pcs| && w < |pcs| && v != w && pcs[v] == pcs[w]
    ensures Count(pcs, pcs[v]) >= 2
  {
    var other := if pcs[v] == Idle then Holding(Read) else Idle;
    CountUpdate(pcs, v, other, pcs[v]);
    assert pcs[v := other][w] == pcs[v];
    CountZero(pcs[v := other], pcs[v]);
  }

  // ----- Every run -----

  ghost predicate AllExclusive(s: State, run: seq<Step>)
    requires ValidRun(s, run)
    decreases |run|
  {
    Exclusive(s) && (run != [] ==> AllExclusive(Apply(s, run[0]), run[1..]))
  }

  ghost predicate AllSound(s: State, run: seq<Step>)
    requires ValidRun(s, run)
    decreases |run|
  {
    Sound(s) && (run != [] ==> AllSound(Apply(s, run[0]), run[1..]))
  }

  /** Every step of the run is guarded. */
  ghost predicate AllGuarded(s: State, run: seq<Step>)
    requires ValidRun(s, run)
    decreases |run|
  {
    run != [] ==> Guarded(s, run[0]) && AllGuarded(Apply(s, run[0]), run[1..])
  }

  /** At every moment of the run at most one thread waits for or holds the lock for writing. */
  ghost predicate WritesDoNotOverlap(s: State, run: seq<Step>)
    requires ValidRun(s, run)
    decreases |run|
  {
    && Count(s.pcs, Asleep(Write)) + Count(s.pcs, Awake(Write)) + Count(s.pcs, Holding(Write)) <= 1
    && (run != [] ==> WritesDoNotOverlap(Apply(s, run[0]), run[1..]))
  }

  lemma InitialInv(s: State)
    requires Initial(s)
    ensures Inv(s)
  {
    CountZero(s.pcs, Asleep(Read));
    CountZero(s.pcs, Asleep(Write));
    CountZero(s.pcs, Awake(Read));
    CountZero(s.pcs, Awake(Write));
    CountZero(s.pcs, Holding(Read));
    CountZero(s.pcs, Holding(Write));
  }

  /** The lock stays sound throughout a run exactly when the run never grants a write request while a writer
      holds the lock, and never unlocks a lock for somebody else. */
  lemma {:induction false} SoundIff(s: State, run: seq<Step>)
    requires Inv(s) && ValidRun(s, run)
    ensures AllSound(s, run) <==> AllGuarded(s, run)
    decreases |run|
  {
    if run != [] {
      if Guarded(s, run[0]) {
        GuardedStepKeepsInv(s, run[0]);
        SoundIff(Apply(s, run[0]), run[1..]);
      } else {
        UnguardedStepIsUnsound(s, run[0]);
      }
    }
  }

  /** When everybody unlocks what it holds, the lock excludes throughout a run exactly when the run never grants
      a write request while a writer holds the lock: LockWrite waits for readers only. */
  lemma {:induction false} ExclusionIff(s: State, run: seq<Step>)
    requires Inv(s) && ValidRun(s, run) && Balanced(run)
    ensures AllExclusive(s, run) <==> AllGuarded(s, run)
    decreases |run|
  {
    if run != [] {
      if Guarded(s, run[0]) {
        GuardedStepKeepsInv(s, run[0]);
        ExclusionIff(Apply(s, run[0]), run[1..]);
      } else {
        UnguardedStepBreaksExclusion(s, run[0]);
      }
    }
  }

  /** In such a run the state word, the counters and the pending wake-ups are exact at the end. */
  lemma {:induction false} GuardedRunKeepsInv(s: State, run: seq<Step>)
    requires Inv(s) && ValidRun(s, run) && AllGuarded(s, run)
    ensures Inv(After(s, run))
    decreases |run|
  {
    if run != [] {
      GuardedStepKeepsInv(s, run[0]);
      GuardedRunKeepsInv(Apply(s, run[0]), run[1..]);
    }
  }

  /** At every moment of the run some writer waits. */
  ghost predicate WriterAlwaysWaits(s: State, run: seq<Step>)
    requires ValidRun(s, run)
    decreases |run|
  {
    Waiters(s.pcs, Write) > 0 && (run != [] ==> WriterAlwaysWaits(Apply(s, run[0]), run[1..]))
  }

  /** Readers that come and go cannot keep a writer out: as long as some writer waits, the readers are those that
      held the lock when it came, and fewer and fewer. */
  lemma {:induction false} WriterIsNotKeptOut(s: State, run: seq<Step>)
    requires Inv(s) && ValidRun(s, run) && AllGuarded(s, run) && WriterAlwaysWaits(s, run)
    ensures NoNewReader(s, After(s, run))
    ensures Count(After(s, run).pcs, Holding(Read)) <= Count(s.pcs, Holding(Read))
    decreases |run|
  {
    if run != [] {
      WriterGoesFirst(s, run[0]);
      GuardedStepKeepsInv(s, run[0]);
      WriterIsNotKeptOut(Apply(s, run[0]), run[1..]);
    }
  }

  /** Write requests that do not overlap are enough. */
  lemma {:induction false} NoOverlapIsGuarded(s: State, run: seq<Step>)
    requires Inv(s) && ValidRun(s, run) && WritesDoNotOverlap(s, run) && Balanced(run)
    ensures AllGuarded(s, run)
    decreases |run|
  {
    if run != [] {
      if !Guarded(s, run[0]) {
        UnguardedStepBreaksExclusion(s, run[0]);
      }
      GuardedStepKeepsInv(s, run[0]);
      NoOverlapIsGuarded(Apply(s, run[0]), run[1..]);
    }
  }

  /** What a user of the lock may rely on after any run without overlapping write requests. */
  lemma LockIsCorrect(s: State, run: seq<Step>)
    requires Initial(s) && ValidRun(s, run) && WritesDoNotOverlap(s, run) && Balanced(run)
    ensures Exclusive(After(s, run)) && StateExact(After(s, run)) && CountersExact(After(s, run))
    ensures After(s, run).lock.fState == 0 && SomebodyWaits(After(s, run)) ==> SomebodyIsWoken(After(s, run))
  {
    InitialInv(s);
    NoOverlapIsGuarded(s, run);
    GuardedRunKeepsInv(s, run);
    var e := After(s, run);
    if e.lock.fState == 0 && SomebodyWaits(e) {
      FreeMeansWakeUpPending(e);
    }
  }

  ghost predicate SomebodyWaits(s: State) {
    exists t :: 0 <= t < |s.pcs| && (s.pcs[t].Asleep? || s.pcs[t].Awake?)
  }

  ghost predicate SomebodyIsWoken(s: State) {
    exists t :: 0 <= t < |s.pcs| && s.pcs[t].Awake?
  }

  /** Whenever the lock is free and somebody waits, somebody has been woken. */
  lemma FreeMeansWakeUpPending(s: State)
    requires Inv(s) && s.lock.fState == 0 && SomebodyWaits(s)
    ensures SomebodyIsWoken(s)
  {
    var t :| 0 <= t < |s.pcs| && (s.pcs[t].Asleep? || s.pcs[t].Awake?);
    CountZero(s.pcs, Asleep(Read));
    CountZero(s.pcs, Asleep(Write));
    CountZero(s.pcs, Awake(Write));
    if s.pcs[t].Asleep? {
      match s.pcs[t].mode {
        case Read => assert s.pcs[t] == Asleep(Read);
        case Write => assert s.pcs[t] == Asleep(Write);
      }
    }
  }

  /** A Try call returns at once in every state whatever: it never leaves its thread waiting. */
  lemma TryNeverWaits(s: State, t: ThreadId, m: Mode)
    requires Enabled(s, TryLockCall(t, m))
    ensures Apply(s, TryLockCall(t, m)).pcs[t] == if TryFails(s.lock, m) then Idle else Holding(m)
  {
  }

  /** Three threads: what each has done, and the lock's state word. */
  function Three(a: Pc, b: Pc, c: Pc, fState: int): State { State(Lock(fState, 0, 0, fState), [a, b, c]) }

  lemma WriterComesAndGoes()
    ensures Enabled(Three(Idle, Idle, Idle, 0), LockCall(0, Write))
    ensures Apply(Three(Idle, Idle, Idle, 0), LockCall(0, Write)) == Three(Holding(Write), Idle, Idle, -1)
    ensures Enabled(Three(Holding(Write), Idle, Idle, -1), UnlockCall(0, 0))
    ensures Apply(Three(Holding(Write), Idle, Idle, -1), UnlockCall(0, 0)) == Three(Idle, Idle, Idle, 0)
  {
    var held := Three(Holding(Write), Idle, Idle, -1);
    assert Wakened([Idle, Idle, Idle], WakeReaders, 0) == [Idle, Idle, Idle];
    assert held.pcs[0 := Idle] == [Idle, Idle, Idle];
  }

  lemma ReaderLosesLock()
    ensures Enabled(Three(Idle, Idle, Idle, 0), LockCall(1, Read))
    ensures Apply(Three(Idle, Idle, Idle, 0), LockCall(1, Read)) == Three(Idle, Holding(Read), Idle, 1)
    ensures Enabled(Three(Idle, Holding(Read), Idle, 1), ExtraUnlock(0, 0))
    ensures Apply(Three(Idle, Holding(Read), Idle, 1), ExtraUnlock(0, 0)) == Three(Idle, Holding(Read), Idle, 0)
    ensures !Guarded(Three(Idle, Holding(Read), Idle, 1), ExtraUnlock(0, 0))
  {
  }

  lemma WriterJoinsReader()
    ensures Enabled(Three(Idle, Holding(Read), Idle, 0), LockCall(2, Write))
    ensures Apply(Three(Idle, Holding(Read), Idle, 0), LockCall(2, Write))
         == Three(Idle, Holding(Read), Holding(Write), -1)
  {
  }

  /** A writer that unlocks twice: its second Unlock takes the lock from a reader, and a second writer gets in
      beside this reader. */
  lemma TwoUnlocks(s: State)
    requires s == Three(Idle, Idle, Idle, 0)
    ensures Initial(s)
    ensures var run := [LockCall(0, Write)] + ([UnlockCall(0, 0)] + ([LockCall(1, Read)] + ([ExtraUnlock(0, 0)] + [LockCall(2, Write)])));
      ValidRun(s, run) && After(s, run).pcs == [Idle, Holding(Read), Holding(Write)] && !AllGuarded(s, run)
  {
    var last := [LockCall(2, Write)];
    WriterComesAndGoes();
    ReaderLosesLock();
    WriterJoinsReader();
    assert last == last + [];
    RunCons(Three(Idle, Holding(Read), Idle, 0), LockCall(2, Write), []);
    RunCons(Three(Idle, Holding(Read), Idle, 1), ExtraUnlock(0, 0), last);
    RunCons(s, LockCall(1, Read), [ExtraUnlock(0, 0)] + last);
    RunCons(Three(Holding(Write), Idle, Idle, -1), UnlockCall(0, 0), [LockCall(1, Read)] + ([ExtraUnlock(0, 0)] + last));
    RunCons(s, LockCall(0, Write), [UnlockCall(0, 0)] + ([LockCall(1, Read)] + ([ExtraUnlock(0, 0)] + last)));
  }

  lemma RunCons(s: State, step: Step, rest: seq<Step>)
    requires Enabled(s, step) && ValidRun(Apply(s, step), rest)
    ensures ValidRun(s, [step] + rest) && After(s, [step] + rest) == After(Apply(s, step), rest)
    ensures AllGuarded(s, [step] + rest) <==> Guarded(s, step) && AllGuarded(Apply(s, step), rest)
  {
    assert ([step] + rest)[1..] == rest;
  }

  /** Two overlapping write requests: both threads hold the lock for writing. */
  lemma TwoWriters(s: State)
    requires Initial(s) && |s.pcs| == 2
    ensures var run := [LockCall(0, Write), LockCall(1, Write)];
      ValidRun(s, run) && After(s, run).pcs == [Holding(Write), Holding(Write)] && !AllGuarded(s, run)
  {
    var run := [LockCall(0, Write), LockCall(1, Write)];
    var s1 := Apply(s, run[0]);
    assert run[1..] == [LockCall(1, Write)] && run[1..][1..] == [];
    assert s1.pcs == [Holding(Write), Idle];
    var s2 := Apply(s1, run[1]);
    assert s2.pcs == [Holding(Write), Holding(Write)];
    assert After(s2, []) == s2 && After(s1, run[1..]) == s2;
  }
}
