/** OSRef.h and OSRef.cpp: the table of counted references. Every call holds fMutex except while UnRegister
    waits, so a call is one critical section, and UnRegister one more after each wake-up. */
module OSRef {
  import opened Wrappers
  import opened Sequences
  import opened HashOrder
  import opened OSHashTable

  type Byte = b: int | 0 <= b < 256
  type Text = s: seq<Byte> | |s| < 0x1_0000_0000

  /** Length times the sum of five characters, as a UInt32. */
  function HashString(s: Text): (h: nat)
    ensures h < 0x1_0000_0000
  {
    if s == [] then 0
    else
      var quarterLen := |s| / 4;
      (|s| * (s[0] as int + s[quarterLen] as int + s[quarterLen * 2] as int + s[quarterLen * 3] as int + s[|s| - 1] as int))
        % 0x1_0000_0000
  }

  /** The five places are 0, a quarter, a half and three quarters of the length, and the last one. */
  lemma HashOfEight()
    ensures HashString([1, 2, 3, 4, 5, 6, 7, 8]) == 8 * (1 + 3 + 5 + 7 + 8)
  {
  }

  // ----- What a critical section does -----

  /** The table, newest first, and the reference count of everything. */
  datatype Refs<R> = Refs(table: seq<R>, counts: multiset<R>)

  function Count<R>(s: Refs<R>, r: R): nat {
    s.counts[r]
  }

  function Found<R>(table: seq<R>, key: R -> Text, k: Text): (r: Option<R>) {
    if table == [] then None else if key(table[0]) == k then Some(table[0]) else Found(table[1..], key, k)
  }

  function Resolved<R>(s: Refs<R>, key: R -> Text, k: Text): (Refs<R>, Option<R>) {
    match Found(s.table, key, k)
    case None => (s, None)
    case Some(r) => (s.(counts := s.counts + multiset{r}), Some(r))
  }

  /** False is EPERM. */
  function Registered<R>(s: Refs<R>, key: R -> Text, r: R): (Refs<R>, bool) {
    if key(r) == [] || Found(s.table, key, key(r)).Some? then (s, false)
    else (s.(table := [r] + s.table), true)
  }

  function RegisteredOrResolved<R>(s: Refs<R>, key: R -> Text, r: R): (Refs<R>, Option<R>) {
    var (s', found) := Resolved(s, key, key(r));
    if found.Some? then (s', found) else (s.(table := [r] + s.table), None)
  }

  /** The test of the wait loop. */
  predicate MustWait<R>(s: Refs<R>, r: R, refCount: nat) { Count(s, r) > refCount }

  /** What follows the wait loop. */
  function Removed<R(==)>(s: Refs<R>, r: R): Refs<R> {
    s.(table := Without(s.table, r))
  }

  function Released<R>(s: Refs<R>, r: R): Refs<R>
    requires Count(s, r) > 0
  {
    s.(counts := s.counts - multiset{r})
  }

  function Swapped<R(==)>(s: Refs<R>, key: R -> Text, r: R): Refs<R> {
    match Found(s.table, key, key(r))
    case None => s
    case Some(old_) => s.(table := [r] + Without(s.table, old_))
  }

  // ----- Runs -----

  /** A thread in the wait loop of UnRegister, on the condition of the reference. */
  datatype Wait<R> = Wait(r: R, refCount: nat, awake: bool)

  /** The table with what its callers hold and the threads that wait in UnRegister. */
  datatype State<R> = State(refs: Refs<R>, held: multiset<R>, waiting: map<int, Wait<R>>)

  datatype Step<R> =
    | DoRegister(r: R)
    | DoRegisterOrResolve(r: R)
    | DoResolve(k: Text)
    | DoRelease(r: R, chosen: int)                       // chosen: the thread the signal wakes
    | DoUnRegister(thread: int, r: R, refCount: nat)
    | DoSpuriousWake(thread: int)
    | DoRetest(thread: int)                              // a woken thread tests its loop condition
    | DoTryUnRegister(thread: int, r: R, refCount: nat)
    | DoSwap(r: R)

  /** The thread waits on the reference and is asleep, or has been woken. */
  predicate Waits<R(==)>(s: State<R>, thread: int, r: R, awake: bool) {
    thread in s.waiting && s.waiting[thread].r == r && s.waiting[thread].awake == awake
  }

  ghost predicate SomeWaits<R>(s: State<R>, r: R, awake: bool) { exists thread :: Waits(s, thread, r, awake) }

  ghost predicate Enabled<R>(s: State<R>, step: Step<R>) {
    match step
    case DoRelease(r, chosen) =>
      s.held[r] > 0 && Count(s.refs, r) > 0 && (SomeWaits(s, r, false) ==> Waits(s, chosen, r, false))
    case DoSpuriousWake(thread) => thread in s.waiting && !s.waiting[thread].awake
    case DoRetest(thread) => thread in s.waiting && s.waiting[thread].awake
    case DoUnRegister(thread, _, _) => thread !in s.waiting
    case DoTryUnRegister(thread, _, _) => thread !in s.waiting
    case _ => true
  }

  function Hold<R>(s: State<R>, next: (Refs<R>, Option<R>)): State<R> {
    s.(refs := next.0, held := if next.1.Some? then s.held + multiset{next.1.value} else s.held)
  }

  /** One critical section of UnRegister: it waits, or it removes and returns. */
  function UnRegister<R(==)>(s: State<R>, thread: int, r: R, refCount: nat): State<R> {
    if MustWait(s.refs, r, refCount) then s.(waiting := s.waiting[thread := Wait(r, refCount, false)])
    else s.(refs := Removed(s.refs, r), waiting := s.waiting - {thread})
  }

  function Woken<R>(waiting: map<int, Wait<R>>, thread: int): map<int, Wait<R>> {
    if thread in waiting then waiting[thread := waiting[thread].(awake := true)] else waiting
  }

  /** Signal wakes one of the threads asleep on the reference, if there is one. */
  function Signalled<R(==)>(s: State<R>, r: R, chosen: int): map<int, Wait<R>> {
    if Waits(s, chosen, r, false) then Woken(s.waiting, chosen) else s.waiting
  }

  function Next<R(==)>(s: State<R>, key: R -> Text, step: Step<R>): State<R>
    requires Enabled(s, step)
  {
    match step
    case DoRegister(r) => s.(refs := Registered(s.refs, key, r).0)
    case DoRegisterOrResolve(r) => Hold(s, RegisteredOrResolved(s.refs, key, r))
    case DoResolve(k) => Hold(s, Resolved(s.refs, key, k))
    case DoRelease(r, chosen) =>
      State(Released(s.refs, r), s.held - multiset{r}, Signalled(s, r, chosen))
    case DoUnRegister(thread, r, refCount) => UnRegister(s, thread, r, refCount)
    case DoSpuriousWake(thread) => s.(waiting := Woken(s.waiting, thread))
    case DoRetest(thread) => UnRegister(s, thread, s.waiting[thread].r, s.waiting[thread].refCount)
    case DoTryUnRegister(thread, r, refCount) =>
      if MustWait(s.refs, r, refCount) then s else UnRegister(s, thread, r, refCount)
    case DoSwap(r) => s.(refs := Swapped(s.refs, key, r))
  }

  /** What a step hands to its caller as resolved. */
  function Returns<R(==)>(s: State<R>, key: R -> Text, step: Step<R>): Option<R> {
    match step
    case DoRegisterOrResolve(r) => RegisteredOrResolved(s.refs, key, r).1
    case DoResolve(k) => Resolved(s.refs, key, k).1
    case _ => None
  }

  ghost predicate UniqueKeys<R(!new)>(table: seq<R>, key: R -> Text) {
    forall i, j :: 0 <= i < j < |table| ==> key(table[i]) != key(table[j])
  }

  /** Counts are what is held, and what is held is in the table. */
  ghost predicate RefsInv<R(!new)>(refs: Refs<R>, held: multiset<R>, key: R -> Text) {
    && UniqueKeys(refs.table, key)
    && (forall r :: Count(refs, r) == held[r])
    && (forall r :: held[r] > 0 ==> r in refs.table)
  }

  ghost predicate Inv<R(!new)>(s: State<R>, key: R -> Text) { RefsInv(s.refs, s.held, key) }

  /** The step takes a reference out of the table that someone holds. */
  predicate RemovesHeld<R(==)>(s: State<R>, key: R -> Text, step: Step<R>) {
    match step
    case DoUnRegister(_, r, refCount) => 0 < Count(s.refs, r) <= refCount
    case DoTryUnRegister(_, r, refCount) => 0 < Count(s.refs, r) <= refCount
    case DoRetest(thread) =>
      thread in s.waiting && 0 < Count(s.refs, s.waiting[thread].r) <= s.waiting[thread].refCount
    case DoSwap(r) =>
      var was := Found(s.refs.table, key, key(r));
      was.Some? && was.value != r && Count(s.refs, was.value) > 0
    case _ => false
  }

  lemma {:induction false} FoundIs<R>(table: seq<R>, key: R -> Text, k: Text)
    ensures Found(table, key, k).Some? ==> Found(table, key, k).value in table && key(Found(table, key, k).value) == k
    ensures Found(table, key, k).None? ==> forall r :: r in table ==> key(r) != k
  {
    if table != [] {
      FoundIs(table[1..], key, k);
    }
  }

  lemma ConsUnique<R(!new)>(r: R, table: seq<R>, key: R -> Text)
    ensures UniqueKeys([r] + table, key) <==> UniqueKeys(table, key) && forall x :: x in table ==> key(x) != key(r)
  {
    var t := [r] + table;
    assert t[1..] == table;
    if UniqueKeys(t, key) {
      forall i, j | 0 <= i < j < |table| ensures key(table[i]) != key(table[j]) {
        assert key(t[i + 1]) != key(t[j + 1]);
      }
      forall x | x in table ensures key(x) != key(r) {
        var i :| 0 <= i < |table| && table[i] == x;
        assert key(t[0]) != key(t[i + 1]);
      }
    }
  }

  lemma {:induction false} WithoutKeepsUnique<R(!new)>(table: seq<R>, key: R -> Text, r: R)
    requires UniqueKeys(table, key)
    ensures UniqueKeys(Without(table, r), key)
  {
    if table != [] {
      assert table == [table[0]] + table[1..];
      ConsUnique(table[0], table[1..], key);
      WithoutMembers(table[1..], r);
      WithoutKeepsUnique(table[1..], key, r);
      ConsUnique(table[0], Without(table[1..], r), key);
    }
  }

  lemma RemoveKeepsInvIff<R(!new)>(refs: Refs<R>, held: multiset<R>, key: R -> Text, r: R)
    requires RefsInv(refs, held, key)
    ensures RefsInv(Removed(refs, r), held, key) <==> Count(refs, r) == 0
  {
    WithoutKeepsUnique(refs.table, key, r);
    WithoutMembers(refs.table, r);
  }

  lemma AddKeepsInv<R(!new)>(refs: Refs<R>, held: multiset<R>, key: R -> Text, r: R)
    requires RefsInv(refs, held, key) && Found(refs.table, key, key(r)).None?
    ensures RefsInv(refs.(table := [r] + refs.table), held, key)
  {
    FoundIs(refs.table, key, key(r));
    ConsUnique(r, refs.table, key);
  }

  lemma ResolveKeepsInv<R(!new)>(s: State<R>, key: R -> Text, k: Text)
    requires Inv(s, key)
    ensures Inv(Hold(s, Resolved(s.refs, key, k)), key)
  {
    FoundIs(s.refs.table, key, k);
  }

  lemma RegisterOrResolveKeepsInv<R(!new)>(s: State<R>, key: R -> Text, r: R)
    requires Inv(s, key)
    ensures Inv(Hold(s, RegisteredOrResolved(s.refs, key, r)), key)
  {
    if Found(s.refs.table, key, key(r)).Some? {
      ResolveKeepsInv(s, key, key(r));
    } else {
      AddKeepsInv(s.refs, s.held, key, r);
    }
  }

  lemma ReleaseKeepsInv<R(!new)>(refs: Refs<R>, held: multiset<R>, key: R -> Text, r: R)
    requires RefsInv(refs, held, key) && held[r] > 0
    ensures RefsInv(Released(refs, r), held - multiset{r}, key)
  {
  }

  lemma UnRegisterKeepsInvIff<R(!new)>(s: State<R>, key: R -> Text, thread: int, r: R, refCount: nat)
    requires Inv(s, key)
    ensures Inv(UnRegister(s, thread, r, refCount), key) <==> !(0 < Count(s.refs, r) <= refCount)
  {
    RemoveKeepsInvIff(s.refs, s.held, key, r);
  }

  lemma SwapKeepsInvIff<R(!new)>(s: State<R>, key: R -> Text, r: R)
    requires Inv(s, key)
    ensures Inv(s.(refs := Swapped(s.refs, key, r)), key) <==> !RemovesHeld(s, key, DoSwap(r))
  {
    FoundIs(s.refs.table, key, key(r));
    match Found(s.refs.table, key, key(r))
    case None =>
    case Some(was) =>
      UniqueIsOnly(s.refs.table, key, was);
      WithoutMembers(s.refs.table, was);
      WithoutKeepsUnique(s.refs.table, key, was);
      ConsUnique(r, Without(s.refs.table, was), key);
  }

  lemma UniqueIsOnly<R(!new)>(table: seq<R>, key: R -> Text, r: R)
    requires UniqueKeys(table, key) && r in table
    ensures forall x :: x in table && key(x) == key(r) ==> x == r
  {
  }

  /** Exactly the steps that take a held reference out of the table break the invariant. */
  lemma StepKeepsInvIff<R(!new)>(s: State<R>, key: R -> Text, step: Step<R>)
    requires Inv(s, key) && Enabled(s, step)
    ensures Inv(Next(s, key, step), key) <==> !RemovesHeld(s, key, step)
  {
    match step
    case DoRegister(r) =>
      if Registered(s.refs, key, r).1 {
        AddKeepsInv(s.refs, s.held, key, r);
      }
    case DoRegisterOrResolve(r) =>
      RegisterOrResolveKeepsInv(s, key, r);
    case DoResolve(k) =>
      ResolveKeepsInv(s, key, k);
    case DoRelease(r, _) =>
      ReleaseKeepsInv(s.refs, s.held, key, r);
    case DoUnRegister(thread, r, refCount) =>
      UnRegisterKeepsInvIff(s, key, thread, r, refCount);
    case DoTryUnRegister(thread, r, refCount) =>
      UnRegisterKeepsInvIff(s, key, thread, r, refCount);
    case DoSpuriousWake(_) =>
    case DoRetest(thread) =>
      UnRegisterKeepsInvIff(s, key, thread, s.waiting[thread].r, s.waiting[thread].refCount);
    case DoSwap(r) =>
      SwapKeepsInvIff(s, key, r);
  }

  // ----- What holds in every run -----

  function Start<R>(): State<R> { State(Refs([], multiset{}), multiset{}, map[]) }

  /** A run: the states one after another, by enabled steps. */
  ghost predicate IsRun<R(!new)>(key: R -> Text, states: seq<State<R>>, steps: seq<Step<R>>) {
    && |states| == |steps| + 1
    && states[0] == Start()
    && forall i :: 0 <= i < |steps| ==> Enabled(states[i], steps[i]) && states[i + 1] == Next(states[i], key, steps[i])
  }

  /** No step up to the end takes a held reference out of the table. */
  ghost predicate Guarded<R(!new)>(key: R -> Text, states: seq<State<R>>, steps: seq<Step<R>>, end: nat)
    requires end <= |steps| <= |states|
  {
    forall i :: 0 <= i < end ==> !RemovesHeld(states[i], key, steps[i])
  }

  /** The invariant holds throughout exactly the guarded runs. */
  lemma {:induction false} RunKeepsInvIff<R(!new)>(key: R -> Text, states: seq<State<R>>, steps: seq<Step<R>>, end: nat)
    requires IsRun(key, states, steps) && end <= |steps|
    ensures (forall i :: 0 <= i <= end ==> Inv(states[i], key)) <==> Guarded(key, states, steps, end)
  {
    if end > 0 {
      RunKeepsInvIff(key, states, steps, end - 1);
      assert Guarded(key, states, steps, end)
        <==> Guarded(key, states, steps, end - 1) && !RemovesHeld(states[end - 1], key, steps[end - 1]);
      assert Enabled(states[end - 1], steps[end - 1]) && states[end - 1 + 1] == Next(states[end - 1], key, steps[end - 1]);
      if Inv(states[end - 1], key) {
        StepKeepsInvIff(states[end - 1], key, steps[end - 1]);
      }
    }
  }

  /** A step that neither swaps nor removes at another count than 0. */
  predicate Plain<R>(step: Step<R>) {
    match step
    case DoSwap(_) => false
    case DoUnRegister(_, _, refCount) => refCount == 0
    case DoTryUnRegister(_, _, refCount) => refCount == 0
    case _ => true
  }

  /** Every waiting thread waits for count 0. */
  ghost predicate ZeroLimits<R(!new)>(s: State<R>) {
    forall thread :: thread in s.waiting ==> s.waiting[thread].refCount == 0
  }

  lemma PlainStep<R(!new)>(s: State<R>, key: R -> Text, step: Step<R>)
    requires ZeroLimits(s) && Enabled(s, step) && Plain(step)
    ensures ZeroLimits(Next(s, key, step)) && !RemovesHeld(s, key, step)
  {
  }

  /** The waiting threads of a run of such steps wait for count 0, so such a run is guarded. */
  lemma {:induction false} PlainRunKeepsInv<R(!new)>(key: R -> Text, states: seq<State<R>>, steps: seq<Step<R>>, end: nat)
    requires IsRun(key, states, steps) && end <= |steps|
    requires forall i :: 0 <= i < |steps| ==> Plain(steps[i])
    ensures Guarded(key, states, steps, end)
    ensures Inv(states[end], key) && ZeroLimits(states[end])
  {
    if end > 0 {
      PlainRunKeepsInv(key, states, steps, end - 1);
      StepOf(key, states, steps, end - 1);
      PlainStep(states[end - 1], key, steps[end - 1]);
      StepKeepsInvIff(states[end - 1], key, steps[end - 1]);
    }
  }

  lemma StepOf<R(!new)>(key: R -> Text, states: seq<State<R>>, steps: seq<Step<R>>, i: nat)
    requires IsRun(key, states, steps) && i < |steps|
    ensures Enabled(states[i], steps[i]) && states[i + 1] == Next(states[i], key, steps[i])
  {
  }

  /** What the invariant means: counts are exact, and a held reference is still the one its key resolves to. */
  lemma InvMeans<R(!new)>(s: State<R>, key: R -> Text, r: R)
    requires Inv(s, key)
    ensures Count(s.refs, r) == s.held[r]
    ensures Count(s.refs, r) > 0 ==> Resolved(s.refs, key, key(r)).1 == Some(r)
    ensures Resolved(s.refs, key, key(r)).1 == Some(r) <==> r in s.refs.table
  {
    FoundIs(s.refs.table, key, key(r));
    if r in s.refs.table {
      UniqueIsOnly(s.refs.table, key, r);
    }
  }

  /** TryUnRegister calls UnRegister only where it does not wait, and says whether it removed. */
  lemma TryNeverWaits<R(!new)>(s: State<R>, key: R -> Text, thread: int, r: R, refCount: nat)
    requires thread !in s.waiting
    ensures var s' := Next(s, key, DoTryUnRegister(thread, r, refCount));
            && s'.waiting == s.waiting
            && s'.refs.counts == s.refs.counts
            && (if Count(s.refs, r) > refCount then s' == s else r !in s'.refs.table)
  {
    WithoutMembers(s.refs.table, r);
    assert s.waiting - {thread} == s.waiting;
  }

  // ----- The table as a map from keys to references -----

  /** The reference that the key resolves to. */
  function Bound<R>(s: State<R>, key: R -> Text, k: Text): Option<R> { Resolved(s.refs, key, k).1 }

  /** Every key but this one resolves as before. */
  ghost predicate OthersBound<R(!new)>(s: State<R>, s': State<R>, key: R -> Text, but: Text) {
    forall k :: k != but ==> Bound(s', key, k) == Bound(s, key, k)
  }

  lemma {:induction false} FoundWithout<R>(table: seq<R>, key: R -> Text, x: R, k: Text)
    requires key(x) != k
    ensures Found(Without(table, x), key, k) == Found(table, key, k)
  {
    if table != [] {
      FoundWithout(table[1..], key, x, k);
    }
  }

  lemma ConsBinds<R(!new)>(s: State<R>, s': State<R>, key: R -> Text, r: R)
    requires s'.refs.table == [r] + s.refs.table
    ensures Bound(s', key, key(r)) == Some(r) && OthersBound(s, s', key, key(r))
  {
    assert s'.refs.table[1..] == s.refs.table;
  }

  /** Register succeeds exactly for a key that is not empty and not taken; then the key resolves to the reference. */
  lemma RegisterBinds<R(!new)>(s: State<R>, key: R -> Text, r: R)
    ensures var s' := Next(s, key, DoRegister(r));
            && (Registered(s.refs, key, r).1 <==> key(r) != [] && Bound(s, key, key(r)) == None)
            && (if Registered(s.refs, key, r).1
                then Bound(s', key, key(r)) == Some(r) && OthersBound(s, s', key, key(r)) && s'.refs.counts == s.refs.counts
                else s' == s)
  {
    if Registered(s.refs, key, r).1 {
      ConsBinds(s, Next(s, key, DoRegister(r)), key, r);
    }
  }

  /** After RegisterOrResolve the key resolves to what was returned, counted up by one, or to the reference itself
      when nothing was returned. */
  lemma RegisterOrResolveBinds<R(!new)>(s: State<R>, key: R -> Text, r: R)
    ensures var s', found := Next(s, key, DoRegisterOrResolve(r)), Returns(s, key, DoRegisterOrResolve(r));
            && found == Bound(s, key, key(r))
            && Bound(s', key, key(r)) == Some(if found.Some? then found.value else r)
            && OthersBound(s, s', key, key(r))
            && (forall x :: Count(s'.refs, x) == Count(s.refs, x) + if found == Some(x) then 1 else 0)
            && (forall x :: s'.held[x] == s.held[x] + if found == Some(x) then 1 else 0)
  {
    if Bound(s, key, key(r)).None? {
      ConsBinds(s, Next(s, key, DoRegisterOrResolve(r)), key, r);
    }
  }

  /** Resolve returns the reference of the key, counts it up by one, and changes nothing else. */
  lemma ResolveCounts<R(!new)>(s: State<R>, key: R -> Text, k: Text)
    ensures var s', found := Next(s, key, DoResolve(k)), Returns(s, key, DoResolve(k));
            && found == Bound(s, key, k) && s'.refs.table == s.refs.table
            && (found.Some? ==> key(found.value) == k && found.value in s.refs.table)
            && (found.None? ==> forall r :: r in s.refs.table ==> key(r) != k)
            && (forall x :: Count(s'.refs, x) == Count(s.refs, x) + if found == Some(x) then 1 else 0)
  {
    FoundIs(s.refs.table, key, k);
  }

  /** Once UnRegister has returned, the key of a reference that was in the table resolves to nothing. */
  lemma UnRegisterUnbinds<R(!new)>(s: State<R>, key: R -> Text, thread: int, r: R, refCount: nat)
    requires Inv(s, key) && thread !in s.waiting
    ensures var s' := Next(s, key, DoUnRegister(thread, r, refCount));
            && (thread in s'.waiting <==> Count(s.refs, r) > refCount)
            && s'.refs.counts == s.refs.counts && OthersBound(s, s', key, key(r))
            && Bound(s', key, key(r))
               == if thread !in s'.waiting && r in s.refs.table then None else Bound(s, key, key(r))
  {
    var s' := Next(s, key, DoUnRegister(thread, r, refCount));
    if Count(s.refs, r) <= refCount {
      forall k | k != key(r)
        ensures Bound(s', key, k) == Bound(s, key, k)
      {
        FoundWithout(s.refs.table, key, r, k);
      }
      if r in s.refs.table {
        UniqueIsOnly(s.refs.table, key, r);
        WithoutMembers(s.refs.table, r);
        FoundIs(s'.refs.table, key, key(r));
      } else {
        WithoutAbsent(s.refs.table, r);
      }
    }
  }

  /** After Swap a key that was taken resolves to the new reference; otherwise nothing has changed. */
  lemma SwapBinds<R(!new)>(s: State<R>, key: R -> Text, r: R)
    ensures var s' := Next(s, key, DoSwap(r));
            && s'.refs.counts == s.refs.counts
            && (if Bound(s, key, key(r)).None? then s' == s
                else Bound(s', key, key(r)) == Some(r) && OthersBound(s, s', key, key(r)))
  {
    var s' := Next(s, key, DoSwap(r));
    if Bound(s, key, key(r)).Some? {
      var was := Bound(s, key, key(r)).value;
      FoundIs(s.refs.table, key, key(r));
      assert s'.refs.table[1..] == Without(s.refs.table, was);
      forall k | k != key(r)
        ensures Bound(s', key, k) == Bound(s, key, k)
      {
        FoundWithout(s.refs.table, key, was, k);
      }
    }
  }

  /** A step may bring the reference into the table. */
  predicate Brings<R(==)>(step: Step<R>, r: R) {
    step == DoRegister(r) || step == DoRegisterOrResolve(r) || step == DoSwap(r)
  }

  lemma OutStaysOut<R(!new)>(s: State<R>, key: R -> Text, step: Step<R>, r: R)
    requires r !in s.refs.table && Enabled(s, step) && !Brings(step, r)
    ensures r !in Next(s, key, step).refs.table
    ensures Returns(s, key, step) != Some(r)
  {
    match step
    case DoRegister(x) =>
    case DoRegisterOrResolve(x) =>
      FoundIs(s.refs.table, key, key(x));
    case DoResolve(k) =>
      FoundIs(s.refs.table, key, k);
    case DoRelease(_, _) =>
    case DoUnRegister(_, x, _) =>
      WithoutMembers(s.refs.table, x);
    case DoTryUnRegister(_, x, _) =>
      WithoutMembers(s.refs.table, x);
    case DoSpuriousWake(_) =>
    case DoRetest(thread) =>
      WithoutMembers(s.refs.table, s.waiting[thread].r);
    case DoSwap(x) =>
      FoundIs(s.refs.table, key, key(x));
      if Found(s.refs.table, key, key(x)).Some? {
        WithoutMembers(s.refs.table, Found(s.refs.table, key, key(x)).value);
      }
  }

  /** A reference out of the table, unregistered or never in, is handed to nobody until it is brought in. */
  lemma {:induction false} NeverResolvedAgain<R(!new)>(
      key: R -> Text, states: seq<State<R>>, steps: seq<Step<R>>, r: R, from: nat, to: nat)
    requires IsRun(key, states, steps) && from <= to < |steps|
    requires r !in states[from].refs.table
    requires forall i :: from <= i <= to ==> !Brings(steps[i], r)
    ensures r !in states[to + 1].refs.table
    ensures Returns(states[to], key, steps[to]) != Some(r)
  {
    if from < to {
      NeverResolvedAgain(key, states, steps, r, from, to - 1);
    }
    OutStaysOut(states[to], key, steps[to], r);
  }

  /** Once UnRegister at count 0 has returned, nobody holds the reference. */
  lemma UnRegisteredIsFree<R(!new)>(s: State<R>, key: R -> Text, step: Step<R>, thread: int, r: R)
    requires Inv(s, key) && Enabled(s, step)
    requires step == DoUnRegister(thread, r, 0) || (step == DoRetest(thread) && s.waiting[thread].r == r && s.waiting[thread].refCount == 0)
    ensures var s' := Next(s, key, step);
            if s.held[r] > 0 then s'.refs == s.refs else r !in s'.refs.table && s'.held[r] == 0
  {
    WithoutMembers(s.refs.table, r);
  }

  /** Swap takes out a reference that is still held. */
  lemma SwapStrandsHolders(key: int -> Text)
    requires key(1) == key(2) && key(1) != []
    ensures var states := [
              Start(),
              OneFree(map[]),
              OneHeld(map[]),
              State(Refs([2], multiset{1}), multiset{1}, map[])];
            IsRun(key, states, [DoRegister(1), DoResolve(key(1)), DoSwap(2)]) && !Inv(states[3], key)
  {
    OneIsHeld(key);
    OneIsSwapped(key);
    var s: State<int> := State(Refs([2], multiset{1}), multiset{1}, map[]);
    assert s.held[1] > 0 && 1 !in s.refs.table;
  }

  lemma OneIsSwapped(key: int -> Text)
    requires key(1) == key(2)
    ensures Next(OneHeld(map[]), key, DoSwap(2)) == State(Refs([2], multiset{1}), multiset{1}, map[])
  {
    assert Found([1], key, key(2)) == Some(1);
  }

  // ----- Lost wake-ups -----

  /** A thread asleep although its limit is met. */
  predicate MetAsleep<R(==)>(s: State<R>, thread: int, r: R) {
    Waits(s, thread, r, false) && !MustWait(s.refs, r, s.waiting[thread].refCount)
  }

  /** For every thread asleep although its limit is met, one on the same reference has been woken. */
  ghost predicate WakeUpsPending<R(!new)>(s: State<R>) {
    forall thread, r :: MetAsleep(s, thread, r) ==> SomeWaits(s, r, true)
  }

  /** The last woken thread of a reference tests again while one asleep has its limit met. */
  ghost predicate LosesWakeUp<R(!new)>(s: State<R>, step: Step<R>) {
    && step.DoRetest? && step.thread in s.waiting
    && var r := s.waiting[step.thread].r;
       && (forall thread :: Waits(s, thread, r, true) ==> thread == step.thread)
       && (exists thread :: MetAsleep(s, thread, r))
  }

  /** What one thread waiting for the reference does to the others: nothing. */
  ghost predicate OthersWait<R(!new)>(s: State<R>, s': State<R>, thread: int) {
    forall other :: other != thread ==>
      (other in s'.waiting <==> other in s.waiting) && (other in s.waiting ==> s'.waiting[other] == s.waiting[other])
  }

  lemma RetestKeepsWakeUpsIff<R(!new)>(s: State<R>, key: R -> Text, thread: int)
    requires WakeUpsPending(s) && Enabled(s, DoRetest(thread))
    ensures WakeUpsPending(Next(s, key, DoRetest(thread))) <==> !LosesWakeUp(s, DoRetest(thread))
  {
    var s', r := Next(s, key, DoRetest(thread)), s.waiting[thread].r;
    assert OthersWait(s, s', thread);
    assert forall x :: !Waits(s', thread, x, true) && !MetAsleep(s', thread, x);
    assert forall t, x :: MetAsleep(s', t, x) <==> MetAsleep(s, t, x);
    if LosesWakeUp(s, DoRetest(thread)) {
      var t :| MetAsleep(s, t, r);
      assert MetAsleep(s', t, r);
      if SomeWaits(s', r, true) {
        var v :| Waits(s', v, r, true);
        assert Waits(s, v, r, true);
      }
    } else {
      forall t, x | MetAsleep(s', t, x)
        ensures SomeWaits(s', x, true)
      {
        var u :| Waits(s, u, x, true);
        if x == r {
          var v :| Waits(s, v, r, true) && v != thread;
          assert Waits(s', v, x, true);
        } else {
          assert Waits(s', u, x, true);
        }
      }
    }
  }

  lemma ReleaseKeepsWakeUps<R(!new)>(s: State<R>, key: R -> Text, r: R, chosen: int)
    requires WakeUpsPending(s) && Enabled(s, DoRelease(r, chosen))
    ensures WakeUpsPending(Next(s, key, DoRelease(r, chosen)))
  {
    var s' := Next(s, key, DoRelease(r, chosen));
    assert OthersWait(s, s', chosen);
    forall t, x | MetAsleep(s', t, x)
      ensures SomeWaits(s', x, true)
    {
      assert Waits(s, t, x, false);
      if x == r {
        assert Waits(s', chosen, r, true);
      } else {
        assert MetAsleep(s, t, x);
        var u :| Waits(s, u, x, true);
        assert Waits(s', u, x, true);
      }
    }
  }

  /** A thread that comes to UnRegister, or wakes for no reason. */
  lemma OneWaiterKeepsWakeUps<R(!new)>(s: State<R>, s': State<R>, thread: int)
    requires WakeUpsPending(s) && s'.refs.counts == s.refs.counts && OthersWait(s, s', thread)
    requires forall r :: Waits(s, thread, r, true) ==> Waits(s', thread, r, true)
    requires forall r :: !MetAsleep(s', thread, r)
    ensures WakeUpsPending(s')
  {
    forall t, x | MetAsleep(s', t, x)
      ensures SomeWaits(s', x, true)
    {
      assert MetAsleep(s, t, x);
      var u :| Waits(s, u, x, true);
      assert Waits(s', u, x, true);
    }
  }

  /** Nobody comes or goes, and no count falls. */
  lemma SameWaitersKeepWakeUps<R(!new)>(s: State<R>, s': State<R>)
    requires WakeUpsPending(s) && s'.waiting == s.waiting && forall r :: Count(s.refs, r) <= Count(s'.refs, r)
    ensures WakeUpsPending(s')
  {
    forall t, x | MetAsleep(s', t, x)
      ensures SomeWaits(s', x, true)
    {
      assert MetAsleep(s, t, x);
      var u :| Waits(s, u, x, true);
      assert Waits(s', u, x, true);
    }
  }

  lemma UnRegisterKeepsWakeUps<R(!new)>(s: State<R>, thread: int, r: R, refCount: nat)
    requires WakeUpsPending(s) && thread !in s.waiting
    ensures WakeUpsPending(UnRegister(s, thread, r, refCount))
  {
    OneWaiterKeepsWakeUps(s, UnRegister(s, thread, r, refCount), thread);
  }

  /** Exactly such a retest loses a wake-up. */
  lemma StepKeepsWakeUpsIff<R(!new)>(s: State<R>, key: R -> Text, step: Step<R>)
    requires WakeUpsPending(s) && Enabled(s, step)
    ensures WakeUpsPending(Next(s, key, step)) <==> !LosesWakeUp(s, step)
  {
    match step
    case DoRegister(_) => SameWaitersKeepWakeUps(s, Next(s, key, step));
    case DoRegisterOrResolve(_) => SameWaitersKeepWakeUps(s, Next(s, key, step));
    case DoResolve(_) => SameWaitersKeepWakeUps(s, Next(s, key, step));
    case DoRelease(r, chosen) => ReleaseKeepsWakeUps(s, key, r, chosen);
    case DoUnRegister(thread, r, refCount) => UnRegisterKeepsWakeUps(s, thread, r, refCount);
    case DoTryUnRegister(thread, r, refCount) => UnRegisterKeepsWakeUps(s, thread, r, refCount);
    case DoSpuriousWake(thread) => OneWaiterKeepsWakeUps(s, Next(s, key, step), thread);
    case DoRetest(thread) => RetestKeepsWakeUpsIff(s, key, thread);
    case DoSwap(_) => SameWaitersKeepWakeUps(s, Next(s, key, step));
  }

  ghost predicate KeepsWakeUps<R(!new)>(states: seq<State<R>>, steps: seq<Step<R>>, end: nat)
    requires end <= |steps| <= |states|
  {
    forall i :: 0 <= i < end ==> !LosesWakeUp(states[i], steps[i])
  }

  /** Throughout a run a wake-up is pending for every thread asleep with its limit met, exactly when no woken thread,
      the last one of its reference, tests again while such a thread is asleep: Release signals one thread only. */
  lemma {:induction false} RunKeepsWakeUpsIff<R(!new)>(
      key: R -> Text, states: seq<State<R>>, steps: seq<Step<R>>, end: nat)
    requires IsRun(key, states, steps) && end <= |steps|
    ensures (forall i :: 0 <= i <= end ==> WakeUpsPending(states[i])) <==> KeepsWakeUps(states, steps, end)
  {
    if end > 0 {
      RunKeepsWakeUpsIff(key, states, steps, end - 1);
      assert KeepsWakeUps(states, steps, end)
        <==> KeepsWakeUps(states, steps, end - 1) && !LosesWakeUp(states[end - 1], steps[end - 1]);
      StepOf(key, states, steps, end - 1);
      if WakeUpsPending(states[end - 1]) {
        StepKeepsWakeUpsIff(states[end - 1], key, steps[end - 1]);
      }
    }
  }

  /** No two threads wait on one reference. */
  ghost predicate OneWaiterEach<R(!new)>(s: State<R>) {
    forall t, u :: t in s.waiting && u in s.waiting && s.waiting[t].r == s.waiting[u].r ==> t == u
  }

  /** With one waiting thread for each reference no wake-up is lost. */
  lemma OneWaiterLosesNothing<R(!new)>(s: State<R>, step: Step<R>)
    requires OneWaiterEach(s) && Enabled(s, step)
    ensures !LosesWakeUp(s, step)
  {
    if step.DoRetest? {
      assert forall t :: !Waits(s, t, s.waiting[step.thread].r, false);
    }
  }

  lemma {:induction false} OneWaiterRunKeepsWakeUps<R(!new)>(
      key: R -> Text, states: seq<State<R>>, steps: seq<Step<R>>, end: nat)
    requires IsRun(key, states, steps) && end <= |steps|
    requires forall i :: 0 <= i <= end ==> OneWaiterEach(states[i])
    ensures WakeUpsPending(states[end])
  {
    forall i | 0 <= i < end
      ensures !LosesWakeUp(states[i], steps[i])
    {
      StepOf(key, states, steps, i);
      OneWaiterLosesNothing(states[i], steps[i]);
    }
    RunKeepsWakeUpsIff(key, states, steps, end);
  }

  /** Reference 1 is held once, or by nobody. */
  function OneHeld(waiting: map<int, Wait<int>>): State<int> { State(Refs([1], multiset{1}), multiset{1}, waiting) }

  function OneFree(waiting: map<int, Wait<int>>): State<int> { State(Refs([1], multiset{}), multiset{}, waiting) }

  function Sleeper(awake: bool): Wait<int> { Wait(1, 0, awake) }

  lemma OneIsHeld(key: int -> Text)
    requires key(1) != []
    ensures Next(Start(), key, DoRegister(1)) == OneFree(map[])
    ensures Next(OneFree(map[]), key, DoResolve(key(1))) == OneHeld(map[])
  {
    assert Found([], key, key(1)).None?;
    assert Found([1], key, key(1)) == Some(1);
  }

  lemma ThreadsFallAsleep(key: int -> Text)
    ensures Next(OneHeld(map[]), key, DoUnRegister(7, 1, 0)) == OneHeld(map[7 := Sleeper(false)])
    ensures Next(OneHeld(map[7 := Sleeper(false)]), key, DoUnRegister(8, 1, 0))
         == OneHeld(map[7 := Sleeper(false), 8 := Sleeper(false)])
  {
    assert map[][7 := Sleeper(false)] == map[7 := Sleeper(false)];
    assert map[7 := Sleeper(false)][8 := Sleeper(false)] == map[7 := Sleeper(false), 8 := Sleeper(false)];
  }

  lemma FirstIsWoken(key: int -> Text)
    ensures Enabled(OneHeld(map[7 := Sleeper(false), 8 := Sleeper(false)]), DoRelease(1, 7))
    ensures Next(OneHeld(map[7 := Sleeper(false), 8 := Sleeper(false)]), key, DoRelease(1, 7))
         == OneFree(map[7 := Sleeper(true), 8 := Sleeper(false)])
  {
    assert map[7 := Sleeper(false), 8 := Sleeper(false)][7 := Sleeper(true)] == map[7 := Sleeper(true), 8 := Sleeper(false)];
    assert Waits(OneHeld(map[7 := Sleeper(false), 8 := Sleeper(false)]), 7, 1, false);
  }

  lemma FirstReturns(key: int -> Text)
    ensures Next(OneFree(map[7 := Sleeper(true), 8 := Sleeper(false)]), key, DoRetest(7))
         == State(Refs([], multiset{}), multiset{}, map[8 := Sleeper(false)])
  {
    assert map[7 := Sleeper(true), 8 := Sleeper(false)] - {7} == map[8 := Sleeper(false)];
  }

  lemma SecondSleeps()
    ensures var s := State(Refs([], multiset{}), multiset{}, map[8 := Sleeper(false)]);
            MetAsleep(s, 8, 1) && !WakeUpsPending(s)
  {
    var s: State<int> := State(Refs([], multiset{}), multiset{}, map[8 := Sleeper(false)]);
    assert MetAsleep(s, 8, 1);
    assert forall t :: !Waits(s, t, 1, true);
  }

  /** Two threads asleep in UnRegister of one reference, held once: Release wakes the first, which returns, and
      nobody is left to wake the second. */
  lemma SecondSleeperIsLost(key: int -> Text)
    requires key(1) != []
    ensures var states := [
              Start(),
              OneFree(map[]),
              OneHeld(map[]),
              OneHeld(map[7 := Sleeper(false)]),
              OneHeld(map[7 := Sleeper(false), 8 := Sleeper(false)]),
              OneFree(map[7 := Sleeper(true), 8 := Sleeper(false)]),
              State(Refs([], multiset{}), multiset{}, map[8 := Sleeper(false)])];
            && IsRun(key, states, [DoRegister(1), DoResolve(key(1)), DoUnRegister(7, 1, 0), DoUnRegister(8, 1, 0),
                                   DoRelease(1, 7), DoRetest(7)])
            && MetAsleep(states[6], 8, 1) && !WakeUpsPending(states[6])
  {
    OneIsHeld(key);
    ThreadsFallAsleep(key);
    FirstIsWoken(key);
    FirstReturns(key);
    SecondSleeps();
  }

  // ----- The class -----

  /** What an entry keeps beside its key and its link: fRefCount. */
  type OSRef = HashEntry<Text, nat>

  ghost function KeyOf(): OSRef -> Text { (r: OSRef) => r.key }

  lemma {:induction false} FoundIsNewest(table: seq<OSRef>, k: Text)
    ensures Found(table, KeyOf(), k) == if Newest(table, k) == null then None else Some(Newest(table, k))
  {
    if table != [] {
      FoundIsNewest(table[1..], k);
    }
  }

  class OSRefTable {
    const fTable: OSHashTable<Text, nat>
    ghost var World: set<OSRef>          // every reference the table has met
    ghost var Counts: multiset<OSRef>    // each as often as its count says

    ghost predicate Valid()
      reads this, fTable, fTable.fHashTable, fTable.Entries`fNextHashEntry, World`value
    {
      && fTable.Valid()
      && (forall r :: r in fTable.Entries ==> r in World)
      && (forall r :: r in World ==> r.value == Counts[r])
      && (forall r :: r in Counts ==> r in World)
    }

    ghost function Snapshot(): Refs<OSRef>
      reads this, fTable
    {
      Refs(fTable.Entries, Counts)
    }

    /** The reference was met before, or is new and counts 0; it is in no other table's chain. */
    ghost predicate MayAdd(ref: OSRef)
      reads this, ref, fTable
    {
      && (ref !in World ==> ref.value == 0)
      && (ref !in fTable.Entries ==> ref.fNextHashEntry == null)
    }

    constructor (tableSize: nat)
      requires tableSize > 0
      ensures Valid() && Snapshot() == Refs([], multiset{}) && World == {} && fresh(fTable) && fresh(fTable.fHashTable)
    {
      fTable := new OSHashTable<Text, nat>(tableSize, (s: Text) => HashString(s));
      World, Counts := {}, multiset{};
    }

    method Resolve(k: Text) returns (ref: HashEntry?<Text, nat>)
      requires Valid()
      modifies this`Counts, World`value
      ensures Valid()
      ensures Resolved(old(Snapshot()), KeyOf(), k) == (Snapshot(), if ref == null then None else Some(ref))
    {
      ref := fTable.Map(k);
      FoundIsNewest(fTable.Entries, k);
      if ref != null {
        NewestIs(fTable.Entries, k);
        ref.value := ref.value + 1;
        Counts := Counts + multiset{ref};
      }
    }

    /** Returns the reference whose condition is signalled. */
    method Release(ref: OSRef) returns (signalled: OSRef)
      requires Valid() && ref in World && ref.value > 0
      modifies this`Counts, ref`value
      ensures Valid() && Snapshot() == Released(old(Snapshot()), ref)
      ensures signalled == ref
    {
      ref.value := ref.value - 1;
      Counts := Counts - multiset{ref};
      signalled := ref;
    }

    method Add(ref: OSRef)
      requires Valid() && MayAdd(ref) && ref !in fTable.Entries
      modifies this`World, fTable`fNumEntries, fTable`Entries, fTable.fHashTable, ref`fNextHashEntry
      ensures Valid() && World == old(World) + {ref}
      ensures Snapshot() == Refs([ref] + old(fTable.Entries), old(Counts))
    {
      fTable.Add(ref);
      World := World + {ref};
    }

    /** False is EPERM. */
    method Register(ref: OSRef) returns (ok: bool)
      requires Valid() && MayAdd(ref)
      modifies this`World, fTable`fNumEntries, fTable`Entries, fTable.fHashTable, ref`fNextHashEntry
      ensures Valid() && Registered(old(Snapshot()), KeyOf(), ref) == (Snapshot(), ok)
    {
      if ref.key == [] {
        return false;
      }
      var duplicateRef := fTable.Map(ref.key);
      FoundIsNewest(fTable.Entries, ref.key);
      if duplicateRef != null {
        return false;
      }
      NewestIs(fTable.Entries, ref.key);
      Add(ref);
      ok := true;
    }

    method RegisterOrResolve(ref: OSRef) returns (duplicateRef: HashEntry?<Text, nat>)
      requires Valid() && MayAdd(ref)
      modifies this`World, this`Counts, World`value
      modifies fTable`fNumEntries, fTable`Entries, fTable.fHashTable, ref`fNextHashEntry
      ensures Valid()
      ensures RegisteredOrResolved(old(Snapshot()), KeyOf(), ref)
           == (Snapshot(), if duplicateRef == null then None else Some(duplicateRef))
    {
      FoundIsNewest(fTable.Entries, ref.key);
      NewestIs(fTable.Entries, ref.key);
      duplicateRef := Resolve(ref.key);
      if duplicateRef == null {
        Add(ref);
      }
    }

    /** One critical section of UnRegister, from entry or from a wake-up: it has to wait, or it removes. */
    method UnRegister(ref: OSRef, refCount: nat) returns (waits: bool)
      requires Valid() && ref in World
      modifies fTable`fNumEntries, fTable`Entries, fTable.fHashTable, fTable.Entries`fNextHashEntry
      ensures Valid() && waits == MustWait(old(Snapshot()), ref, refCount)
      ensures Snapshot() == if waits then old(Snapshot()) else Removed(old(Snapshot()), ref)
    {
      waits := ref.value > refCount;
      if !waits {
        RemoveRef(ref);
      }
    }

    method RemoveRef(ref: OSRef)
      requires Valid()
      modifies fTable`fNumEntries, fTable`Entries, fTable.fHashTable, fTable.Entries`fNextHashEntry
      ensures Valid() && Snapshot() == Removed(old(Snapshot()), ref)
      ensures ref in old(fTable.Entries) ==> ref.fNextHashEntry == null
    {
      fTable.Remove(ref);
      WithoutMembers(old(fTable.Entries), ref);
    }

    /** The inner UnRegister never has to wait. */
    method TryUnRegister(ref: OSRef, refCount: nat) returns (done: bool)
      requires Valid() && ref in World
      modifies fTable`fNumEntries, fTable`Entries, fTable.fHashTable, fTable.Entries`fNextHashEntry
      ensures Valid() && done == !MustWait(old(Snapshot()), ref, refCount)
      ensures Snapshot() == if done then Removed(old(Snapshot()), ref) else old(Snapshot())
    {
      if ref.value > refCount {
        return false;
      }
      var waits := UnRegister(ref, refCount);
      assert !waits;
      done := true;
    }

    method Swap(newRef: OSRef)
      requires Valid() && MayAdd(newRef)
      requires newRef in fTable.Entries ==> Newest(fTable.Entries, newRef.key) == newRef
      modifies this`World, fTable`fNumEntries, fTable`Entries, fTable.fHashTable
      modifies fTable.Entries`fNextHashEntry, newRef`fNextHashEntry
      ensures Valid() && Snapshot() == Swapped(old(Snapshot()), KeyOf(), newRef)
    {
      var oldRef := fTable.Map(newRef.key);
      FoundIsNewest(fTable.Entries, newRef.key);
      if oldRef != null {
        WithoutMembers<OSRef>(fTable.Entries, oldRef);
        RemoveRef(oldRef);
        Add(newRef);
      }
    }
  }
}
