# Verified models of the Darwin server base and its JSON library

The streaming server base `CommonUtilitiesLib` (task scheduler, timer heap, queues, read-write lock, hash and
reference tables, file block cache, MD5, Base64, URL codec) and the JSON library under `src/json`, modelled in
Dafny and proved. `dafny verify dfyconfig.toml` checks everything.

How to read the project:

- **Scheduler** (`Scheduler*.dfy`, `Atomic.dfy`). Any number of `Signal` calls and all task threads run at once.
  A step has one access to memory that others may change meanwhile, or is one critical section: the `atomic_or`,
  the test of the default thread, its second read, the pick and the `EnQueue` of `Signal`, the plain read and the
  `atomic_sub` of `GetEvents`, the compare-and-store, the heap insert and extract, each turn in the lock are all
  separate steps. `fUseThisThread` and `fWriteLock` are changed by the holder of the task only (proved as
  `OnlyHolderWrites`), and a heap by its thread only, so accesses to them share a step with what follows.
  `SchedulerInvariant` and `SchedulerSteps` show that every step keeps one invariant, `SchedulerEffects` what a step
  leaves alone. `SchedulerTheorems` says what this means for whole runs, `SchedulerOutcomes` what a return value of
  `Run` leads to, `SchedulerChoice` which thread a signal chooses, and `SchedulerLock` composes the scheduler with the
  read-write lock around `Run`.
- **Heap and queue** (`HeapOrder.dfy`, `OSHeap.dfy`, `OSQueue.dfy`). The classes work in place; their contracts tie
  them to functions on sequences, about which the order theorems are proved. The scheduler uses the same functions.
- **Read-write lock** (`OSMutexRW.dfy`). A wait is release, wake-up (also a spurious one), test again.
  `LockWrite` does not wait for a writer, and anybody may call `Unlock`, so exclusion has an exact condition.
- **Hash table and reference table** (`OSHashTable.dfy`, `OSRef.dfy`). Chains refine one sequence, newest first.
  The reference table's calls are critical sections; runs interleave them with waiting threads, which sleep until a
  signal or for no reason wake up.
- **File block cache** (`LruOrder.dfy`, `OSFileSource.dfy`). The map keeps a ghost log of requests; its queue is
  always what the least-recently-used rule leaves of the log, and every buffer holds its block.
- **MD5, Base64, URLs** (`Md5.dfy`, `Base64.dfy`, `StringTranslator.dfy`). The loops are proved against
  specifications on sequences; round trips and exact acceptance are lemmas about these.
- **JSON** (`Json*.dfy`). `Tokens` gives the lexemes of a value and `Spells` the texts that spell them out.
  `JsonGrammar` says what the reader makes of any text, error recovery included; the class `Reader` refines it. Both
  printers produce texts that spell out their value, and reading any such text restores it. `JsonDecoding` holds
  escapes and comments against RFC 8259 and RFC 3629.
- `Wrappers.dfy` and `Sequences.dfy` hold what several of these share.

Where the code differs from what its comments or assertions suggest, the model follows the code: `badTokenType` in
`readArray` is never true, so any token separates array items; `LockWrite` lets a second writer in; after
`GlobalUnlock` the locker unlocks again; `Release` wakes one of several waiting threads; the dot count of `DecodeURL`
survives a raw question mark; `EncodeURL` writes a character below 16 as one digit and a NUL, and a NUL behind the last
code.

## Model

| member | source | states |
|---|---|---|
| Atomic.AtomicWord.AtomicAdd | EasyDarwin-master/EasyDarwin-master/CommonUtilitiesLib/atomic.cpp:32-37 | adds modulo 2^32 and returns the new value |
| Atomic.AtomicWord.AtomicSub | EasyDarwin-master/EasyDarwin-master/CommonUtilitiesLib/atomic.cpp:39-42 | subtracts modulo 2^32 and returns the new value |
| Atomic.AtomicWord.AtomicOr | EasyDarwin-master/EasyDarwin-master/CommonUtilitiesLib/atomic.cpp:44-52 | sets bits and returns the old value |
| Atomic.AtomicWord.CompareAndStore | EasyDarwin-master/EasyDarwin-master/CommonUtilitiesLib/atomic.cpp:54-65 | stores exactly when the word holds the expected value, and says so |
| Atomic.SubClearsBits | EasyDarwin-master/EasyDarwin-master/CommonUtilitiesLib/atomic.cpp:39-42 | subtracting a subset of the set bits is and-not: no borrow reaches another bit |
| SchedulerSteps.StepKeepsInv | EasyDarwin-master/EasyDarwin-master/CommonUtilitiesLib/Task.cpp:84-356 | every step of every signaller and task thread keeps the whole scheduler invariant |
| SchedulerSteps.SignalStepKeepsInv | EasyDarwin-master/EasyDarwin-master/CommonUtilitiesLib/Task.cpp:93-153 | the five steps of Signal, from its atomic_or to its EnQueue, keep the invariant |
| SchedulerSteps.WaitStepKeepsInv | EasyDarwin-master/EasyDarwin-master/CommonUtilitiesLib/Task.cpp:317-356 | the steps of WaitForTask keep the invariant |
| SchedulerSteps.RunStepKeepsInv | EasyDarwin-master/EasyDarwin-master/CommonUtilitiesLib/Task.cpp:84-91 | the start and the end of Run and what a task does in it, among it both halves of GetEvents, keep the invariant |
| SchedulerSteps.LockStepKeepsInv | EasyDarwin-master/EasyDarwin-master/CommonUtilitiesLib/Task.cpp:161-238 | the calls on the read-write lock around Run, and GlobalUnlock in it, keep the invariant |
| SchedulerSteps.LeaveStepKeepsInv | EasyDarwin-master/EasyDarwin-master/CommonUtilitiesLib/Task.cpp:244-292 | deletion, compare-and-store and the timer insertion keep the invariant |
| SchedulerEffects.StepEffect | EasyDarwin-master/EasyDarwin-master/CommonUtilitiesLib/Task.cpp:84-292 | a step changes the record of no task but its own, and that one in the one way given for the step |
| SchedulerEffects.StepMoves | EasyDarwin-master/EasyDarwin-master/CommonUtilitiesLib/Task.cpp:161-356 | a step of a thread moves no other thread and changes no other timer heap, and only the lock calls touch the lock |
| SchedulerTheorems.ReachableInv | EasyDarwin-master/EasyDarwin-master/CommonUtilitiesLib/Task.cpp:93-356 | the invariant holds in every state that any run from an idle pool reaches |
| SchedulerTheorems.ExactlyOnePlace | EasyDarwin-master/EasyDarwin-master/CommonUtilitiesLib/Task.cpp:93-315 | a live task has kAlive exactly when it is with a signaller, in a queue, in a heap or in an Entry loop, and never in two of these |
| SchedulerTheorems.RunIsExclusive | EasyDarwin-master/EasyDarwin-master/CommonUtilitiesLib/Task.cpp:210-238 | no two threads are in Run of one task, and a running task is in no queue or heap and with no signaller |
| SchedulerTheorems.QueueAndHeapUse | EasyDarwin-master/EasyDarwin-master/CommonUtilitiesLib/Task.cpp:119-151 | EnQueue only meets elements that are in no queue, and the removals at deletion find nothing |
| SchedulerTheorems.PendingIsScheduled | EasyDarwin-master/EasyDarwin-master/CommonUtilitiesLib/Task.cpp:273-282 | a pending event implies that the task is in exactly one place |
| SchedulerTheorems.GetEventsIsAndNot | EasyDarwin-master/EasyDarwin-master/CommonUtilitiesLib/Task.cpp:84-91 | the read and the later subtraction clear exactly the returned events, whatever came between, and leave kAlive |
| SchedulerTheorems.RetiredOnlyWhenIdle | EasyDarwin-master/EasyDarwin-master/CommonUtilitiesLib/Task.cpp:273-282 | only compare_and_store takes a task out of scheduling, and only with no event pending |
| SchedulerTheorems.StepKeepsEvent | EasyDarwin-master/EasyDarwin-master/CommonUtilitiesLib/Task.cpp:84-104 | the only step that clears a pending event of a live task is the subtraction that returns it |
| SchedulerTheorems.NoEventLost | EasyDarwin-master/EasyDarwin-master/CommonUtilitiesLib/Task.cpp:84-104 | over every run a pending event stays pending until a GetEvents returns it or the task is deleted |
| SchedulerTheorems.SignalIsDelivered | EasyDarwin-master/EasyDarwin-master/CommonUtilitiesLib/Task.cpp:93-104 | each event bit a Signal call sends is returned by a later GetEvents, or still pending, or the task was deleted, over every run |
| SchedulerTheorems.TimersInOrder | EasyDarwin-master/EasyDarwin-master/CommonUtilitiesLib/Task.cpp:317-327 | every timer heap is min-ordered; the timer a thread takes was due when it read the clock, is the earliest in its heap, and exactly this one leaves it |
| SchedulerTheorems.BlocksOnlyWhenNothingIsDue | EasyDarwin-master/EasyDarwin-master/CommonUtilitiesLib/Task.cpp:321-327 | a thread that has read the clock takes a timer exactly when one in its heap is due, and goes to block exactly when none is |
| SchedulerOutcomes.RunEndsAs | EasyDarwin-master/EasyDarwin-master/CommonUtilitiesLib/Task.cpp:244-290 | over every run from the return of Run on: a negative timeout deletes the task; a positive one leaves it in the heap of its thread, and nowhere else, for the time of the insertion plus the timeout; with 0 it is out of every place with its word 0, if the word was exactly kAlive, and otherwise about to run again on this thread |
| SchedulerOutcomes.GetEventsReturnsAll | EasyDarwin-master/EasyDarwin-master/CommonUtilitiesLib/Task.cpp:84-91 | over every run GetEvents returns every event that is pending when it begins |
| SchedulerOutcomes.TimerNotEarly | EasyDarwin-master/EasyDarwin-master/CommonUtilitiesLib/Task.cpp:244-327 | over every run from the return of Run on: a task whose Run returned a positive timeout is not deleted before its next Run, and that is on the same thread, not before the clock has advanced by the timeout, and with kIdleEvent pending |
| SchedulerTheorems.ForceSameThreadHolds | EasyDarwin-master/EasyDarwin-master/CommonUtilitiesLib/Task.h:119-129 | from a call of ForceSameThread or CallLocked on: the next Run of the task is on the same thread, by whatever way it is rescheduled |
| SchedulerChoice.ForceLastsOneRun | EasyDarwin-master/EasyDarwin-master/CommonUtilitiesLib/Task.cpp:219-220 | from the start of a Run on, over every run, the task has no thread of its own until it asks for one again or a signal gives it its default one |
| SchedulerChoice.SignalChoosesThread | EasyDarwin-master/EasyDarwin-master/CommonUtilitiesLib/Task.cpp:103-152 | over every run a Signal that schedules a task puts it at the end of the queue of the thread it forced, or else of its default thread, or else of a thread of its picker's class |
| SchedulerChoice.SettersSet | EasyDarwin-master/EasyDarwin-master/CommonUtilitiesLib/Task.cpp:169-172 | the picker and the default thread are what their setters were given |
| SchedulerChoice.PicksInTurnIff | EasyDarwin-master/EasyDarwin-master/CommonUtilitiesLib/Task.cpp:124-135 | one pick takes the next thread of the class after the one before it, exactly when the 32-bit counter does not wrap or the class size divides 2^32 |
| SchedulerChoice.FirstComeFirstServed | EasyDarwin-master/EasyDarwin-master/CommonUtilitiesLib/Task.cpp:119-151 | over every run a task with i others before it in a queue is taken by its thread after exactly these |
| SchedulerTheorems.OnlyHolderWrites | EasyDarwin-master/EasyDarwin-master/CommonUtilitiesLib/Task.cpp:105-106 | fUseThisThread and fWriteLock of a task are changed only by whoever holds it: the signaller that won it or the thread that has it in Entry |
| SchedulerLock.ReachableLocks | EasyDarwin-master/EasyDarwin-master/CommonUtilitiesLib/Task.cpp:219-238 | what each thread is about in Entry is what it does on the lock: outside, waiting in it, or behind its locker, where it holds it or has given it back |
| SchedulerLock.RunOnMutex | EasyDarwin-master/EasyDarwin-master/CommonUtilitiesLib/Task.cpp:161-238 | every run of the scheduler is, on sMutexRW, a run of the lock, so all that is proved of the lock holds of it |
| SchedulerLock.StepKeepsApartIff | EasyDarwin-master/EasyDarwin-master/CommonUtilitiesLib/Task.cpp:219-238 | while the lock excludes, a step puts a Run beside one under the write lock exactly when it grants the lock beside a Run that called GlobalUnlock, one of the two under the write lock |
| SchedulerLock.LockedRunsAloneIff | EasyDarwin-master/EasyDarwin-master/CommonUtilitiesLib/Task.cpp:161-238 | over every run: the lock stays sound and every Run under the write lock is alone exactly when no write request is granted to a second writer, nobody unlocks for somebody else, and no Run begins in this way beside one that called GlobalUnlock |
| SchedulerLock.QuietRunsAlone | EasyDarwin-master/EasyDarwin-master/CommonUtilitiesLib/Task.cpp:219-238 | with no GlobalUnlock that finds the flag set, and with write requests that do not overlap, every Run under the write lock is alone |
| SchedulerLock.CallLockedHolds | EasyDarwin-master/EasyDarwin-master/CommonUtilitiesLib/Task.h:125-128 | over every run the next Run of a task is under the write lock exactly when its last CallLocked was made in a Run under the read lock and no GlobalUnlock came after it |
| SchedulerLock.GlobalUnlockLetsIn | EasyDarwin-master/EasyDarwin-master/CommonUtilitiesLib/Task.cpp:161-167 | a run in which GlobalUnlock lets a reader in beside a locked Run, and the second Unlock at its end lets another writer in beside that reader |
| SchedulerLock.NobodyIsStuck | EasyDarwin-master/EasyDarwin-master/CommonUtilitiesLib/Task.cpp:93-356 | no signaller or thread refers to a deleted task or to a lock it cannot use, so each has a next step it can take |
| OSHeap.OSHeap.Insert | EasyDarwin-master/EasyDarwin-master/CommonUtilitiesLib/OSHeap.cpp:50-102 | the in-place insertion is the sift-up insertion of the sequence, and marks the element a member |
| OSHeap.OSHeap.Extract | EasyDarwin-master/EasyDarwin-master/CommonUtilitiesLib/OSHeap.cpp:104-157 | the in-place extraction at an index is the sift-down extraction of the sequence, and clears the mark |
| OSHeap.OSHeap.ExtractMin | EasyDarwin-master/EasyDarwin-master/CommonUtilitiesLib/OSHeap.h:63-63 | returns the first entry and leaves the sequence extracted at 1; null on an empty heap |
| OSHeap.OSHeap.PeekMin | EasyDarwin-master/EasyDarwin-master/CommonUtilitiesLib/OSHeap.h:56-56 | the first entry, or null on an empty heap |
| OSHeap.OSHeap.Remove | EasyDarwin-master/EasyDarwin-master/CommonUtilitiesLib/OSHeap.cpp:159-179 | removes exactly the element if it is a member, and does nothing otherwise |
| OSHeap.OSHeap.Grow | EasyDarwin-master/EasyDarwin-master/CommonUtilitiesLib/OSHeap.cpp:52-70 | doubling the array keeps the contents |
| HeapOrder.InsertAdds | EasyDarwin-master/EasyDarwin-master/CommonUtilitiesLib/OSHeap.cpp:50-102 | insertion adds exactly its entry to the multiset |
| HeapOrder.InsertKeepsOrder | EasyDarwin-master/EasyDarwin-master/CommonUtilitiesLib/OSHeap.cpp:72-102 | insertion keeps the heap min-ordered |
| HeapOrder.ExtractRemoves | EasyDarwin-master/EasyDarwin-master/CommonUtilitiesLib/OSHeap.cpp:104-157 | extraction removes exactly the entry asked for, at any index |
| HeapOrder.ExtractMinIsLeast | EasyDarwin-master/EasyDarwin-master/CommonUtilitiesLib/OSHeap.cpp:104-157 | the extracted minimum is at most every other entry and what is left is min-ordered |
| HeapOrder.ExtractBreaksOnlyEdgeAbove | EasyDarwin-master/EasyDarwin-master/CommonUtilitiesLib/OSHeap.cpp:104-157 | after extraction at any index every edge is ordered but possibly the one above the hole; that one breaks exactly when the hole is not the root or the last slot and the last leaf is below the parent of the hole |
| HeapOrder.OrderCanBreak | EasyDarwin-master/EasyDarwin-master/CommonUtilitiesLib/OSHeap.cpp:104-157 | an ordered heap of seven values that is out of order after an extraction at position 4 |
| HeapOrder.RemoveItemExact | EasyDarwin-master/EasyDarwin-master/CommonUtilitiesLib/OSHeap.cpp:159-179 | removal takes out exactly the entry of its item and leaves all others with their values; an absent item changes nothing |
| HeapOrder.DrainSorts | EasyDarwin-master/EasyDarwin-master/CommonUtilitiesLib/OSHeap.cpp:104-157 | draining a heap yields a sorted permutation of it |
| HeapOrder.HeapSort | EasyDarwin-master/EasyDarwin-master/CommonUtilitiesLib/OSHeap.cpp:50-157 | inserting anything and draining it is a sorted permutation of the input |
| OSQueue.OSQueue.EnQueue | EasyDarwin-master/EasyDarwin-master/CommonUtilitiesLib/OSQueue.cpp:42-54 | the ring stays well linked both ways and its members are the old ones and the new one last; a member stays where it is |
| OSQueue.OSQueue.DeQueue | EasyDarwin-master/EasyDarwin-master/CommonUtilitiesLib/OSQueue.cpp:56-70 | takes out the oldest member, null exactly when empty |
| OSQueue.OSQueue.Remove | EasyDarwin-master/EasyDarwin-master/CommonUtilitiesLib/OSQueue.cpp:72-84 | takes out exactly the element if it is a member of this queue, and nothing otherwise |
| OSQueue.OSQueue.GetHead | EasyDarwin-master/EasyDarwin-master/CommonUtilitiesLib/OSQueue.h:80-80 | the oldest member or null |
| OSQueue.OSQueue.GetTail | EasyDarwin-master/EasyDarwin-master/CommonUtilitiesLib/OSQueue.h:81-81 | the newest member or null |
| OSQueue.OSQueueIter.Next | EasyDarwin-master/EasyDarwin-master/CommonUtilitiesLib/OSQueue.cpp:221-227 | moves on by one member towards the newest |
| QueueOrder.FirstInFirst | EasyDarwin-master/EasyDarwin-master/CommonUtilitiesLib/OSQueue.cpp:42-54 | elements enqueued one after the other are queued in the order they came |
| OSQueue.Walk | EasyDarwin-master/EasyDarwin-master/CommonUtilitiesLib/OSQueue.cpp:221-227 | the iterator visits every member once, from oldest to newest |
| Sequences.WithoutIsSplice | EasyDarwin-master/EasyDarwin-master/CommonUtilitiesLib/OSQueue.cpp:72-84 | removal from a queue without duplicates is cutting the member out of the sequence |
| OSMutexRW.MutexRW.LockRead | EasyDarwin-master/EasyDarwin-master/CommonUtilitiesLib/OSMutexRW.cpp:59-86 | a reader is counted as a waiter and waits exactly for a writer active or waiting |
| OSMutexRW.MutexRW.LockReadAfterWait | EasyDarwin-master/EasyDarwin-master/CommonUtilitiesLib/OSMutexRW.cpp:71-86 | after each wake-up it tests again, and otherwise adds a reader |
| OSMutexRW.MutexRW.LockWrite | EasyDarwin-master/EasyDarwin-master/CommonUtilitiesLib/OSMutexRW.cpp:88-115 | a writer is counted as a waiter and waits exactly for readers, not for a writer |
| OSMutexRW.MutexRW.LockWriteAfterWait | EasyDarwin-master/EasyDarwin-master/CommonUtilitiesLib/OSMutexRW.cpp:102-115 | after each wake-up it tests again, and otherwise sets the state to -1 |
| OSMutexRW.MutexRW.Unlock | EasyDarwin-master/EasyDarwin-master/CommonUtilitiesLib/OSMutexRW.cpp:117-150 | the state it leaves and whom it wakes, for a reader and a writer |
| OSMutexRW.MutexRW.TryLockWrite | EasyDarwin-master/EasyDarwin-master/CommonUtilitiesLib/OSMutexRW.cpp:153-165 | succeeds exactly when nobody is active and no writer waits, and then holds the lock |
| OSMutexRW.MutexRW.TryLockRead | EasyDarwin-master/EasyDarwin-master/CommonUtilitiesLib/OSMutexRW.cpp:167-179 | succeeds exactly when no writer is active or waiting, and then holds the lock |
| OSMutexRW.GrantedIff | EasyDarwin-master/EasyDarwin-master/CommonUtilitiesLib/OSMutexRW.cpp:59-179 | a reader gets the lock exactly when no writer holds it or waits for it; a writer exactly when no reader holds it, and by an attempt only when nobody holds it and no writer waits |
| OSMutexRW.WriterGoesFirst | EasyDarwin-master/EasyDarwin-master/CommonUtilitiesLib/OSMutexRW.cpp:71-76 | while a writer waits, no step gives a thread the lock for reading |
| OSMutexRW.WriterIsNotKeptOut | EasyDarwin-master/EasyDarwin-master/CommonUtilitiesLib/OSMutexRW.cpp:59-150 | over every guarded run in which some writer always waits, the readers at the end are among those at the start |
| OSMutexRW.SoundIff | EasyDarwin-master/EasyDarwin-master/CommonUtilitiesLib/OSMutexRW.cpp:59-179 | over every run, also with an Unlock by somebody who does not hold the lock: it excludes and its state says so exactly when it grants no write request while a writer is active and no such Unlock meets a lock that is held |
| OSMutexRW.ExclusionIff | EasyDarwin-master/EasyDarwin-master/CommonUtilitiesLib/OSMutexRW.cpp:59-179 | when everybody unlocks only what it holds, a run excludes throughout exactly when it grants no write request while a writer is active |
| OSMutexRW.GuardedRunKeepsInv | EasyDarwin-master/EasyDarwin-master/CommonUtilitiesLib/OSMutexRW.cpp:59-179 | in such a run state word, waiter counters and pending wake-ups are exact |
| OSMutexRW.NoOverlapIsGuarded | EasyDarwin-master/EasyDarwin-master/CommonUtilitiesLib/OSMutexRW.cpp:88-115 | write requests that do not overlap are enough |
| OSMutexRW.LockIsCorrect | EasyDarwin-master/EasyDarwin-master/CommonUtilitiesLib/OSMutexRW.cpp:59-150 | after any run without overlapping write requests a writer is alone, the state is -1 or the number of readers, the counters are exact, and a free lock with a waiter has a wake-up pending |
| OSMutexRW.FreeMeansWakeUpPending | EasyDarwin-master/EasyDarwin-master/CommonUtilitiesLib/OSMutexRW.cpp:117-150 | whenever the lock is free and somebody waits, somebody has been woken |
| OSMutexRW.TryNeverWaits | EasyDarwin-master/EasyDarwin-master/CommonUtilitiesLib/OSMutexRW.cpp:153-179 | a Try call returns at once in every state |
| OSMutexRW.TwoWriters | EasyDarwin-master/EasyDarwin-master/CommonUtilitiesLib/OSMutexRW.cpp:102-102 | two overlapping write requests both hold the lock |
| OSMutexRW.TwoUnlocks | EasyDarwin-master/EasyDarwin-master/CommonUtilitiesLib/OSMutexRW.cpp:117-150 | a run in which a second Unlock takes the lock from a reader, and a writer gets in beside the reader |
| HashOrder.MaskTest | EasyDarwin-master/EasyDarwin-master/CommonUtilitiesLib/OSHashTable.h:56-60 | the test of the constructor finds exactly the powers of two |
| HashOrder.MaskIsMod | EasyDarwin-master/EasyDarwin-master/CommonUtilitiesLib/OSHashTable.h:121-127 | for a power of two the masked hash is the hash modulo the size |
| OSHashTable.OSHashTable.IndexIsMod | EasyDarwin-master/EasyDarwin-master/CommonUtilitiesLib/OSHashTable.h:121-127 | by mask or by modulo, the index is the hash modulo the size |
| OSHashTable.OSHashTable.Add | EasyDarwin-master/EasyDarwin-master/CommonUtilitiesLib/OSHashTable.h:68-75 | the entry becomes the newest of the table; every chain stays linked to null |
| OSHashTable.OSHashTable.Remove | EasyDarwin-master/EasyDarwin-master/CommonUtilitiesLib/OSHashTable.h:76-97 | exactly the entry is taken out, and an absent one changes nothing |
| OSHashTable.OSHashTable.Map | EasyDarwin-master/EasyDarwin-master/CommonUtilitiesLib/OSHashTable.h:98-109 | finds the newest entry with the key, through one chain |
| OSHashTable.NewestIs | EasyDarwin-master/EasyDarwin-master/CommonUtilitiesLib/OSHashTable.h:98-109 | this entry has no newer one with the key; null exactly when no entry has the key |
| OSHashTable.NewestInChain | EasyDarwin-master/EasyDarwin-master/CommonUtilitiesLib/OSHashTable.h:98-109 | one chain is enough to search |
| HashOrder.ChainWithout | EasyDarwin-master/EasyDarwin-master/CommonUtilitiesLib/OSHashTable.h:76-97 | removing from the table is removing from every chain |
| HashOrder.ChainsHoldAll | EasyDarwin-master/EasyDarwin-master/CommonUtilitiesLib/OSHashTable.h:131-167 | the chains together hold every entry as often as the table does |
| OSHashTable.OSHashTableIter.Next | EasyDarwin-master/EasyDarwin-master/CommonUtilitiesLib/OSHashTable.h:146-156 | moves on by one entry of what is still to be visited |
| OSHashTable.OSHashTableIter.First | EasyDarwin-master/EasyDarwin-master/CommonUtilitiesLib/OSHashTable.h:138-145 | everything is still to be visited |
| OSHashTable.Walk | EasyDarwin-master/EasyDarwin-master/CommonUtilitiesLib/OSHashTable.h:131-167 | the iterator visits exactly the fNumEntries entries, each once |
| OSRef.HashString | EasyDarwin-master/EasyDarwin-master/CommonUtilitiesLib/OSRef.cpp:37-55 | the hash is a UInt32 and reads only within the string |
| OSRef.HashOfEight | EasyDarwin-master/EasyDarwin-master/CommonUtilitiesLib/OSRef.cpp:52-55 | the five places of a string of eight characters and the factor of its length |
| OSRef.OSRefTable.Register | EasyDarwin-master/EasyDarwin-master/CommonUtilitiesLib/OSRef.cpp:57-88 | enters the reference unless its key is empty or taken |
| OSRef.OSRefTable.RegisterOrResolve | EasyDarwin-master/EasyDarwin-master/CommonUtilitiesLib/OSRef.cpp:91-112 | enters the reference, or resolves and returns the one that has its key |
| OSRef.OSRefTable.UnRegister | EasyDarwin-master/EasyDarwin-master/CommonUtilitiesLib/OSRef.cpp:114-133 | one critical section: waits while the count is above the limit, otherwise removes |
| OSRef.OSRefTable.TryUnRegister | EasyDarwin-master/EasyDarwin-master/CommonUtilitiesLib/OSRef.cpp:135-145 | removes exactly when the count is not above the limit, and its inner UnRegister never waits |
| OSRef.OSRefTable.Resolve | EasyDarwin-master/EasyDarwin-master/CommonUtilitiesLib/OSRef.cpp:148-162 | finds the reference of a key and counts it up |
| OSRef.OSRefTable.Release | EasyDarwin-master/EasyDarwin-master/CommonUtilitiesLib/OSRef.cpp:164-175 | counts down and signals the condition of this reference |
| OSRef.OSRefTable.Swap | EasyDarwin-master/EasyDarwin-master/CommonUtilitiesLib/OSRef.cpp:177-196 | puts the new reference in place of the one with its key, or does nothing |
| OSRef.RegisterBinds | EasyDarwin-master/EasyDarwin-master/CommonUtilitiesLib/OSRef.cpp:57-88 | Register succeeds exactly for a key that is not empty and resolves to nothing; then the key resolves to the reference, every other key as before, and no count changes |
| OSRef.RegisterOrResolveBinds | EasyDarwin-master/EasyDarwin-master/CommonUtilitiesLib/OSRef.cpp:91-112 | afterwards the key resolves to what was returned, counted up by one, or to the reference itself when nothing was; every other key and count is as before |
| OSRef.ResolveCounts | EasyDarwin-master/EasyDarwin-master/CommonUtilitiesLib/OSRef.cpp:148-162 | Resolve returns a reference with the key, if there is one in the table, and counts it up by one |
| OSRef.UnRegisterUnbinds | EasyDarwin-master/EasyDarwin-master/CommonUtilitiesLib/OSRef.cpp:114-133 | UnRegister waits exactly above the limit; otherwise the key of a reference that was in the table resolves to nothing, and every other key as before |
| OSRef.SwapBinds | EasyDarwin-master/EasyDarwin-master/CommonUtilitiesLib/OSRef.cpp:177-196 | a key that was taken resolves to the new reference, every other key as before; a free key changes nothing |
| OSRef.StepKeepsInvIff | EasyDarwin-master/EasyDarwin-master/CommonUtilitiesLib/OSRef.cpp:57-196 | a call keeps counts, keys and membership in order exactly when it does not remove a held reference |
| OSRef.RunKeepsInvIff | EasyDarwin-master/EasyDarwin-master/CommonUtilitiesLib/OSRef.cpp:57-196 | over every run the same: in order throughout exactly when no held reference is removed |
| OSRef.PlainRunKeepsInv | EasyDarwin-master/EasyDarwin-master/CommonUtilitiesLib/OSRef.cpp:57-175 | runs without Swap and with removals at count 0 are such runs, whatever threads wait and wake |
| OSRef.InvMeans | EasyDarwin-master/EasyDarwin-master/CommonUtilitiesLib/OSRef.cpp:148-175 | a count is the number of outstanding resolves, and a reference with positive count is what its key resolves to |
| OSRef.TryNeverWaits | EasyDarwin-master/EasyDarwin-master/CommonUtilitiesLib/OSRef.cpp:135-145 | TryUnRegister puts no thread to sleep in any state |
| OSRef.NeverResolvedAgain | EasyDarwin-master/EasyDarwin-master/CommonUtilitiesLib/OSRef.cpp:114-162 | a reference out of the table is handed to nobody until it is registered again |
| OSRef.UnRegisteredIsFree | EasyDarwin-master/EasyDarwin-master/CommonUtilitiesLib/OSRef.cpp:114-133 | when UnRegister at count 0 has returned, nobody holds the reference |
| OSRef.SwapStrandsHolders | EasyDarwin-master/EasyDarwin-master/CommonUtilitiesLib/OSRef.cpp:177-196 | a run in which Swap takes out a held reference |
| OSRef.StepKeepsWakeUpsIff | EasyDarwin-master/EasyDarwin-master/CommonUtilitiesLib/OSRef.cpp:114-175 | a call leaves a woken thread for every thread asleep with its limit met, exactly when it is not the retest of the last woken thread of a reference on which such a thread is asleep |
| OSRef.RunKeepsWakeUpsIff | EasyDarwin-master/EasyDarwin-master/CommonUtilitiesLib/OSRef.cpp:114-175 | over every run the same: a wake-up is pending throughout exactly when there is no such retest |
| OSRef.OneWaiterRunKeepsWakeUps | EasyDarwin-master/EasyDarwin-master/CommonUtilitiesLib/OSRef.cpp:114-175 | with one waiting thread for each reference none is lost |
| OSRef.SecondSleeperIsLost | EasyDarwin-master/EasyDarwin-master/CommonUtilitiesLib/OSRef.cpp:174-174 | a run with two threads asleep on one reference: the one signal of Release wakes the first, which returns, and nobody is left to wake the second |
| OSFileSource.FileBlockPool.GetBufferElement | EasyDarwin-master/EasyDarwin-master/CommonUtilitiesLib/OSFileSource.cpp:155-185 | a new buffer below the maximum, otherwise the oldest one |
| OSFileSource.FileBlockPool.MarkUsed | EasyDarwin-master/EasyDarwin-master/CommonUtilitiesLib/OSFileSource.cpp:143-153 | the buffer becomes the newest |
| OSFileSource.FileBlockPool.IncMaxBuffers | EasyDarwin-master/EasyDarwin-master/CommonUtilitiesLib/OSFileSource.h:82-82 | the maximum grows by the increment |
| OSFileSource.FileBlockPool.DecMaxBuffers | EasyDarwin-master/EasyDarwin-master/CommonUtilitiesLib/OSFileSource.h:83-83 | the maximum shrinks by the increment and never to 0 |
| OSFileSource.FileMap.DeleteOldBuffs | EasyDarwin-master/EasyDarwin-master/CommonUtilitiesLib/OSFileSource.cpp:255-264 | the oldest buffers go until there are at most the maximum |
| OSFileSource.FileMap.GetBuffer | EasyDarwin-master/EasyDarwin-master/CommonUtilitiesLib/OSFileSource.cpp:266-310 | after any history the queue is what LRU leaves of the requests; filling is asked for exactly on a miss; the count is the queue length and at most the maximum |
| OSFileSource.FileMap.SlotHoldsIff | EasyDarwin-master/EasyDarwin-master/CommonUtilitiesLib/OSFileSource.cpp:266-310 | slot i holds a buffer exactly when it is queued with array index i |
| LruOrder.CachedIsRecent | EasyDarwin-master/EasyDarwin-master/CommonUtilitiesLib/OSFileSource.cpp:143-310 | whatever the maxima were, what is cached are the most recently requested distinct indices |
| LruOrder.CachedIsLastN | EasyDarwin-master/EasyDarwin-master/CommonUtilitiesLib/OSFileSource.cpp:143-310 | with a constant maximum m it is all of the m most recent |
| LruOrder.HitIff | EasyDarwin-master/EasyDarwin-master/CommonUtilitiesLib/OSFileSource.cpp:266-297 | with a constant maximum m a request hits exactly when fewer than m other indices were requested since the last request of its index |
| OSFileSource.OSFileSource.FillBuffer | EasyDarwin-master/EasyDarwin-master/CommonUtilitiesLib/OSFileSource.cpp:378-391 | the buffer holds its block, cut off at the end of the file |
| OSFileSource.OSFileSource.ReadFromPos | EasyDarwin-master/EasyDarwin-master/CommonUtilitiesLib/OSFileSource.cpp:561-594 | delivers the bytes of the file at the position, and their number |
| OSFileSource.OSFileSource.ReadFromCache | EasyDarwin-master/EasyDarwin-master/CommonUtilitiesLib/OSFileSource.cpp:409-531 | delivers the same bytes and number, across blocks, across the end of the file and on block boundaries |
| OSFileSource.OSFileSource.ReadBlocks | EasyDarwin-master/EasyDarwin-master/CommonUtilitiesLib/OSFileSource.cpp:455-512 | the copying loop, on every cache state |
| OSFileSource.OSFileSource.CopyBlock | EasyDarwin-master/EasyDarwin-master/CommonUtilitiesLib/OSFileSource.cpp:455-512 | one turn copies what the block has of the bytes still wanted |
| OSFileSource.TurnAdvances | EasyDarwin-master/EasyDarwin-master/CommonUtilitiesLib/OSFileSource.cpp:455-512 | after a turn the cursor is at the next block or everything there is has been read |
| OSFileSource.OSFileSource.Read | EasyDarwin-master/EasyDarwin-master/CommonUtilitiesLib/OSFileSource.cpp:396-406 | after every history of reads and changes of the maximum, with or without the cache: the bytes and number of a direct positional read |
| OSFileSource.OSFileSource.IncMaxBuffers | EasyDarwin-master/EasyDarwin-master/CommonUtilitiesLib/OSFileSource.h:191-191 | keeps the cache in order |
| OSFileSource.OSFileSource.DecMaxBuffers | EasyDarwin-master/EasyDarwin-master/CommonUtilitiesLib/OSFileSource.h:192-192 | keeps the cache in order |
| Md5.Context.Update | EasyDarwin-master/EasyDarwin-master/CommonUtilitiesLib/md5.c:144-178 | the context of a message becomes the context of the message followed by the input |
| Md5.Context.TransformAll | EasyDarwin-master/EasyDarwin-master/CommonUtilitiesLib/md5.c:157-172 | the state is folded over every full block, and the tail is what is left |
| Md5.Context.CountUp | EasyDarwin-master/EasyDarwin-master/CommonUtilitiesLib/md5.c:152-155 | the two-word bit count is 8 times the length modulo 2^64 |
| Md5.Context.Final | EasyDarwin-master/EasyDarwin-master/CommonUtilitiesLib/md5.c:184-206 | returns the digest of sections 3.1 to 3.5 of RFC 1321 and clears the context |
| Md5.InitialBytes | EasyDarwin-master/EasyDarwin-master/CommonUtilitiesLib/md5.c:132-135 | the initial state is the byte table of section 3.3 of RFC 1321 |
| Md5.PaddingBytes | EasyDarwin-master/EasyDarwin-master/CommonUtilitiesLib/md5.c:189-199 | behind the message come one byte 0x80, zeros, and in eight bytes, low-order byte first, its number of bits modulo 2^64 |
| Md5.WordsAreLittle | EasyDarwin-master/EasyDarwin-master/CommonUtilitiesLib/md5.c:301-312 | words are written low-order byte first |
| Md5.FoldIsChain | EasyDarwin-master/EasyDarwin-master/CommonUtilitiesLib/md5.c:144-178 | whole blocks are transformed one after the other, the first one first |
| Md5.Resume | EasyDarwin-master/EasyDarwin-master/CommonUtilitiesLib/md5.c:144-178 | folding a message cut anywhere is folding it whole |
| Md5.CountAdds | EasyDarwin-master/EasyDarwin-master/CommonUtilitiesLib/md5.c:152-155 | the carry between the count words is right for every count |
| Md5.PadLenIsLeast | EasyDarwin-master/EasyDarwin-master/CommonUtilitiesLib/md5.c:194-196 | the padding is the shortest to 56 modulo 64, at least one byte |
| Md5.PaddedShape | EasyDarwin-master/EasyDarwin-master/CommonUtilitiesLib/md5.c:189-199 | the padded message is whole blocks, starts with the message and ends with its bit count |
| Md5.PaddedInjective | EasyDarwin-master/EasyDarwin-master/CommonUtilitiesLib/md5.c:189-199 | messages below 2^61 bytes have different padded forms |
| Md5.Encode | EasyDarwin-master/EasyDarwin-master/CommonUtilitiesLib/md5.c:301-312 | the little-endian bytes of the words |
| Md5.Decode | EasyDarwin-master/EasyDarwin-master/CommonUtilitiesLib/md5.c:316-324 | the words of little-endian bytes |
| Md5.DecodeEncode | EasyDarwin-master/EasyDarwin-master/CommonUtilitiesLib/md5.c:301-324 | decoding undoes encoding |
| Md5.EncodeDecode | EasyDarwin-master/EasyDarwin-master/CommonUtilitiesLib/md5.c:301-324 | encoding undoes decoding |
| Md5.GuardIsExact | EasyDarwin-master/EasyDarwin-master/CommonUtilitiesLib/md5.c:166-167 | the loop test goes on exactly while a whole block is left, as long as the 32-bit counter does not wrap |
| Md5.ShortEnough | EasyDarwin-master/EasyDarwin-master/CommonUtilitiesLib/md5.c:166-167 | updates of at most 2^32 - 64 bytes never wrap it |
| Md5.WrapReadsPast | EasyDarwin-master/EasyDarwin-master/CommonUtilitiesLib/md5.c:166-167 | when it would wrap, the test passes with less than a block left |
| Md5.WrapHappens | EasyDarwin-master/EasyDarwin-master/CommonUtilitiesLib/md5.c:166-167 | an update of 2^32 - 1 bytes at buffer position 1 wraps it |
| Md5.HashChunks | EasyDarwin-master/EasyDarwin-master/CommonUtilitiesLib/md5.c:128-206 | however a message is cut into updates, the digest is that of the message |
| Base64.RoundTrip | EasyDarwin-master/EasyDarwin-master/CommonUtilitiesLib/base64.c:126-209 | decoding the encoding of any bytes gives the bytes, for any table pair that is inverse |
| Base64.TablesInverse | EasyDarwin-master/EasyDarwin-master/CommonUtilitiesLib/base64.c:84-172 | the two tables of the source are |
| Base64.Alphabet | EasyDarwin-master/EasyDarwin-master/CommonUtilitiesLib/base64.c:171-172 | the characters of the encoder are those of table 1 of RFC 4648 |
| Base64.OnlyAlphabet | EasyDarwin-master/EasyDarwin-master/CommonUtilitiesLib/base64.c:90-109 | the decoder takes a character for x below 64 exactly when the encoder writes it for x, and every other character for 64 |
| Base64.SextetsJoin | EasyDarwin-master/EasyDarwin-master/CommonUtilitiesLib/base64.c:186-203 | the four 6-bit groups one after the other are the three octets one after the other |
| Base64.Vectors | EasyDarwin-master/EasyDarwin-master/CommonUtilitiesLib/base64.c:179-209 | three of the test vectors in section 10 of RFC 4648 |
| Base64.EncodedLength | EasyDarwin-master/EasyDarwin-master/CommonUtilitiesLib/base64.c:174-177 | the length function is exact and the text is whole groups of four |
| Base64.LengthsAgree | EasyDarwin-master/EasyDarwin-master/CommonUtilitiesLib/base64.c:111-172 | the decoded length of an encoding is the length of the input |
| Base64.Base64encode | EasyDarwin-master/EasyDarwin-master/CommonUtilitiesLib/base64.c:179-209 | writes the padded form of section 4 of RFC 4648 and a NUL, and returns the length with it |
| Base64.Base64decode | EasyDarwin-master/EasyDarwin-master/CommonUtilitiesLib/base64.c:126-172 | writes what the leading run of alphabet characters decodes to and a NUL, and returns its length |
| Base64.Base64decode_len | EasyDarwin-master/EasyDarwin-master/CommonUtilitiesLib/base64.c:111-124 | the room it asks for exceeds what is decoded |
| Base64.EncodeThenDecode | EasyDarwin-master/EasyDarwin-master/CommonUtilitiesLib/base64.c:126-209 | the two calls one after the other return the input |
| StringTranslator.DecodeURLInto | EasyDarwin-master/EasyDarwin-master/CommonUtilitiesLib/StringTranslator.cpp:42-147 | the loop over the destination writes the specified text, stays within inDestLen and never backs up before its start |
| StringTranslator.PutInto | EasyDarwin-master/EasyDarwin-master/CommonUtilitiesLib/StringTranslator.cpp:96-131 | one character with the backing up over dot segments |
| StringTranslator.PutTracks | EasyDarwin-master/EasyDarwin-master/CommonUtilitiesLib/StringTranslator.cpp:96-131 | the buffer and dot count are what the segments read so far call for |
| StringTranslator.DecodeURLExactly | EasyDarwin-master/EasyDarwin-master/CommonUtilitiesLib/StringTranslator.cpp:42-147 | for every source, cut at its first raw question mark: exactly which are accepted and what is written |
| StringTranslator.CodeDecodes | EasyDarwin-master/EasyDarwin-master/CommonUtilitiesLib/StringTranslator.cpp:66-86 | a percent sign and two hexadecimal digits, each in lower or in upper case, stand for their octet |
| StringTranslator.MalformedCode | EasyDarwin-master/EasyDarwin-master/CommonUtilitiesLib/StringTranslator.cpp:66-86 | a percent sign without two hexadecimal digits is refused |
| StringTranslator.XDigitIs | EasyDarwin-master/EasyDarwin-master/CommonUtilitiesLib/StringTranslator.cpp:66-86 | the hexadecimal digits are the 22 characters of both cases |
| StringTranslator.DecodeURLIsClean | EasyDarwin-master/EasyDarwin-master/CommonUtilitiesLib/StringTranslator.cpp:42-147 | without a raw question mark: the percent-decoded text of section 2.1 of RFC 3986 with every dot segment dropped, or emptied if last |
| StringTranslator.DecodedLengthFits | EasyDarwin-master/EasyDarwin-master/CommonUtilitiesLib/StringTranslator.cpp:58-61 | a destination as long as the decoded text always has the room |
| StringTranslator.CleanSegments | EasyDarwin-master/EasyDarwin-master/CommonUtilitiesLib/StringTranslator.cpp:96-145 | what is written has no dot segment, and is the input exactly when the input has none |
| StringTranslator.SegmentsOfFlat | EasyDarwin-master/EasyDarwin-master/CommonUtilitiesLib/StringTranslator.cpp:96-131 | cutting into segments undoes joining them |
| StringTranslator.FlatSegments | EasyDarwin-master/EasyDarwin-master/CommonUtilitiesLib/StringTranslator.cpp:96-131 | joining undoes cutting, and no segment holds a slash |
| StringTranslator.QueryIsKeptIff | EasyDarwin-master/EasyDarwin-master/CommonUtilitiesLib/StringTranslator.cpp:69-70 | path and query come out side by side exactly when no dot segment is pending at the question mark |
| StringTranslator.DotsBeforeQuery | EasyDarwin-master/EasyDarwin-master/CommonUtilitiesLib/StringTranslator.cpp:143-145 | a source whose query loses a character |
| StringTranslator.CopiedIs | EasyDarwin-master/EasyDarwin-master/CommonUtilitiesLib/StringTranslator.cpp:177-216 | which characters are copied as they are |
| StringTranslator.EncodeURL | EasyDarwin-master/EasyDarwin-master/CommonUtilitiesLib/StringTranslator.cpp:149-227 | writes the coded source, or exactly as many whole codes as fit; behind the room it changes one byte, to NUL, exactly when a code of a character from 16 on ends with the room |
| StringTranslator.SpaceOverruns | EasyDarwin-master/EasyDarwin-master/CommonUtilitiesLib/StringTranslator.cpp:209-209 | a space coded into three bytes is such a case |
| StringTranslator.EncodedDecodes | EasyDarwin-master/EasyDarwin-master/CommonUtilitiesLib/StringTranslator.cpp:149-227 | the code of a source percent-decodes to it exactly when it has no NUL, TAB, CR or LF |
| StringTranslator.EncodeThenDecode | EasyDarwin-master/EasyDarwin-master/CommonUtilitiesLib/StringTranslator.cpp:42-227 | decoding undoes encoding exactly on sources that start with a slash and have none of these and no dot segment |
| JsonValue.PutKeepsOrder | src/json/json_value.cpp:1022-1042 | putting a member keeps the keys in strcmp order, makes its value the one found under its key, and keeps every member under another key |
| JsonValue.PutLast | src/json/json_value.cpp:1022-1042 | a key above all others goes to the end |
| JsonReader.Reader.parse | src/json/json_reader.cpp:150-189 | does what the grammar functions say; terminates on every document; cursor in the document, one node left; false exactly when errors_ is not empty, strict or not |
| JsonReader.Reader.readValue | src/json/json_reader.cpp:194-242 | the same for one value, with the node stack back at its entry depth |
| JsonReader.Reader.readObject | src/json/json_reader.cpp:479-535 | the member loop with its recovery |
| JsonReader.Reader.readArray | src/json/json_reader.cpp:538-577 | the item loop; the test for a bad token never holds |
| JsonReader.Reader.readToken | src/json/json_reader.cpp:273-345 | the next token, with its place in the document |
| JsonReader.Reader.recoverFromError | src/json/json_reader.cpp:773-787 | skips to the token, and ends on every document |
| JsonReader.Reader.decodeNumber | src/json/json_reader.cpp:581-616 | the value or the error of the text |
| JsonReader.Reader.readDigits | src/json/json_reader.cpp:601-608 | the digit loop never wraps 32 bits |
| JsonReader.Reader.decodeStringTo | src/json/json_reader.cpp:657-701 | the decoded characters or the error of the text |
| JsonReader.Reader.decodeUnicodeCodePoint | src/json/json_reader.cpp:703-731 | code points and surrogate pairs, read only within the token |
| JsonGrammar.ReadValue | src/json/json_reader.cpp:194-242 | success exactly without errors, and a success consumes a token |
| JsonGrammar.ReadMembers | src/json/json_reader.cpp:479-535 | the same for the member loop |
| JsonGrammar.ReadItems | src/json/json_reader.cpp:550-575 | the same for the item loop |
| JsonGrammar.ParseTokens | src/json/json_reader.cpp:171-188 | false exactly with errors, strict or not |
| JsonDecoding.WritesUtf8 | src/json/json_reader.cpp:69-106 | every code point up to 0x10FFFF is written in UTF-8, in its shortest form: a separate reader of section 3 of RFC 3629 gives it back |
| JsonDecoding.EscapeReads | src/json/json_reader.cpp:703-758 | an escape with four hexadecimal digits in either case stands for its code point below 0x10000, and that of a surrogate pair for every code point from there on |
| JsonDecoding.AcuteE | src/json/json_reader.cpp:80-85 | the escape of a small e with an acute accent is the bytes C3 A9 |
| JsonDecoding.ShortEscapeReads | src/json/json_reader.cpp:673-693 | the eight short escapes of RFC 8259, the solidus among them; every other one is an error |
| JsonDecoding.WordsAre | src/json/json_reader.cpp:316-327 | the three words |
| JsonDecoding.PunctuationIs | src/json/json_reader.cpp:282-333 | the six punctuation characters |
| JsonDecoding.CommentEndsFirst | src/json/json_reader.cpp:425-435 | a C comment ends at the first end there is, and not at all without one |
| JsonDecoding.LineEndsFirst | src/json/json_reader.cpp:438-448 | a line comment ends with its line or with the text |
| JsonDecoding.CStyleIsSkipped | src/json/json_reader.cpp:245-257 | a C comment in front of a document makes no difference where comments are allowed, and is an error elsewhere |
| JsonDecoding.LineIsSkipped | src/json/json_reader.cpp:245-257 | and so does a line comment |
| JsonRoundTrip.QuotedDecodes | src/json/json_reader.cpp:657-701 | decoding undoes quoting for every string without a NUL |
| JsonRoundTrip.StringEndOfEscaped | src/json/json_reader.cpp:463-476 | the scanner stops exactly at the quote that ends a quoted string |
| JsonRoundTrip.DecimalReads | src/json/json_reader.cpp:596-608 | printed digits read back as the number exactly below ten times the threshold |
| JsonRoundTrip.IntegerDecodesIff | src/json/json_reader.cpp:581-616 | a printed integer is decoded to itself exactly from -2147483639 to 4294967289 |
| JsonRoundTrip.SpellsLexed | src/json/json_reader.cpp:273-345 | the tokens of a text that spells out lexemes are theirs, whatever the space between |
| JsonRoundTrip.ReadEmitted | src/json/json_reader.cpp:194-577 | reading the lexemes of any value, its members in any order and under repeated keys, gives what its numbers scan to, and on success stops right behind them |
| JsonRoundTrip.GotIsNormIff | src/json/json_reader.cpp:194-616 | with members in the order of their keys, what is read is the value, small unsigned made signed and absent slots made null, exactly when every number in it survives |
| JsonRoundTrip.ParsedMembers | src/json/json_reader.cpp:479-535 | an object that is parsed successfully, its members in any order and under repeated keys, holds exactly the keys of the document, in their order, each with the value that comes last |
| JsonRoundTrip.ParseSpelledIff | src/json/json_reader.cpp:150-189 | any text that spells out a value is parsed to it exactly when its integers are from -2147483639 to 4294967289 and its doubles survive scanning, and a strict reader also wants an array or object |
| JsonRoundTrip.ParsedAlike | src/json/json_reader.cpp:150-189 | two texts that spell out one value are parsed alike, doubles and all |
| JsonRoundTrip.SpellsOne | src/json/json_writer.cpp:207-258 | a text spells out at most one value |
| JsonRoundTrip.NormKeepsTokens | src/json/json_writer.cpp:207-258 | what is read back prints as what was printed |
| JsonText.SpellsAppend | src/json/json_writer.cpp:207-258 | printed texts can be put one after the other unless two numbers would run together |
| JsonWriter.uintToString | src/json/json_writer.cpp:30-40 | the decimal digits, written backwards within the buffer |
| JsonWriter.valueToString | src/json/json_writer.cpp:42-64 | the decimal text of a 32-bit integer |
| JsonWriter.valueToQuotedString | src/json/json_writer.cpp:111-172 | the quoted text up to the first NUL, by either path |
| JsonWriter.FastWriter.write | src/json/json_writer.cpp:197-204 | the lexemes of the value one after the other, and a newline |
| JsonWriter.FastWriter.writeValue | src/json/json_writer.cpp:207-258 | appends the lexemes of the value |
| JsonWriter.FastSpells | src/json/json_writer.cpp:197-258 | this document spells out the value, with or without the YAML colon |
| JsonStyledWriter.StyledWriter.write | src/json/json_writer.cpp:276-287 | the document spells out the value, and the indentation is back where it was |
| JsonStyledWriter.StyledWriter.writeValue | src/json/json_writer.cpp:290-348 | spells out the value in the document or as one child string |
| JsonStyledWriter.StyledWriter.writeArrayValue | src/json/json_writer.cpp:351-401 | spells out the array; its assertion of one child string for each item holds |
| JsonStyledWriter.StyledWriter.isMultineArray | src/json/json_writer.cpp:404-432 | several lines exactly for many items, an item with something in it, or a long line; single-line arrays have exactly one child string for each item, each spelling it out |
| JsonPrintAndParse.FastRoundTrip | src/json/json_reader.cpp:150-577 | print with FastWriter and parse: the value, under exactly this condition |
| JsonPrintAndParse.StyledRoundTrip | src/json/json_reader.cpp:150-577 | print with StyledWriter and parse: the value, under exactly this condition |
| JsonPrintAndParse.PrintersAgree | src/json/json_writer.cpp:197-480 | both printers spell out the same lexemes, and both documents parse alike |

## Left out

Hypotheses and simplifications:

- Shared memory is sequentially consistent, and each atomic operation and critical section is one step.
- Scheduler: the pool is running with threads of both classes, the picker is one of the two known ones, no `Signal` begins on a deleted task, and the task name check of `Valid` passes. `SetThreadPicker` while a `Signal` is picking is one step before or after it.
- Scheduler: the clock never goes back. `OS::Milliseconds` reads the time of day, which may; the timer results hold for runs in which it does not.
- Scheduler: shutdown of the pool (`RemoveThreads`), `ThreadYield`, task names and debug printing. The heap and queue removals made on deletion are modelled as if always made.
- Timer values, heap sizes, queue lengths and reference counts are unbounded numbers; they do not wrap. The event word, the pickers, the MD5 words, hash values and the digits of `decodeNumber` are 32 bits wide.
- `OSHeap`: an element is in at most one heap, as its callers arrange; `SanityCheck` and `Test` are not part of this model.
- `OSQueue_Blocking`: the condition is modelled in the scheduler as an empty-handed return that may always happen.
- OSRef: the object pointer and the debug-only membership flag. Which of the threads asleep on a reference its signal reaches is a parameter of the step.
- OSFileSource.FileMap: its pool keeps the queue as a sequence with the operations proved for the ring in `OSQueue`; the element links inside the buffers are not repeated there.
- OSFileSource: one unchanged file, a cache allocated once with positive block size, positions and lengths that do not wrap, reads that succeed, block indices below 2^31 and a maximum that does not wrap. `Set` to another file, failing reads and the block size arithmetic of `AllocateBufferMap` are not part of this model.
- Md5: the block transform is an arbitrary function of state and block; the round constants and rounds are not part of this model.
- StringTranslator: `DecodePath` does nothing where the path delimiter is a slash.
- StringTranslator: a negative length argument.
- JSON comments are skipped and not collected, so printing and reading them is not covered; `StyledStreamWriter` does the same as `StyledWriter` on a stream.
- JSON doubles: a double is the text that prints for it, and scanning a text for a double gives an arbitrary result. Infinities and NaNs, which print as words, are excluded by `Shown`.
- JSON error locations and `getFormatedErrorMessages`.
- JSON array sizes times 3 and line lengths are unbounded numbers.
- JsonStyledWriter.StyledWriter.write: which spaces and line breaks stand between the lexemes of a whole document is not stated; `writeIndent` and `isMultineArray` say it for one step.

Parts of the repository that would add easier members or depend on the operating system:

- Sockets, the select shim, listeners, the UDP pool, `OS.cpp`, threads, `daemon.c`.
- `TimeoutTask`, `IdleTask`, `OSBufferPool`, `SVector`, `PLDoubleLinkedList`, `QueryParamList`, `SDPUtils`, `StringParser`, `StringFormatter`, `DateTranslator`, `getopt`, `GetWord`.
- The declared XML parser, the batch allocator and the camera programs.
