# ARMSX3 utilities, modelled and proved in Dafny

This project models the self-contained core under `Utilities/` of ARMSX3: its locks, lock-free
containers, allocators for generated code, buffers, streams and codecs. `dafny verify dfyconfig.toml`
proves everything.

## How the code is modelled

**Code that several threads run** (`SharedMutex`, `Semaphore`, `CondVariable`, `RingBufferThreads`,
`LockFreeQueue`, `LockFreeBunch`, `JitMemory`) is a transition system; `SharedMutexProgress`,
`SemaphoreProgress`, `CondVariableDelivery` and `CondVariableProgress` are about runs of it. Each has a
module of calls (`SharedMutexCalls`, `SemaphoreCalls`, `CondVariableCalls`, `RingBufferCalls`,
`LockFreeQueueCalls`, `LockFreeBunchCalls`, `JitMemoryCalls`): an observer that knows what each thread was
called for and sees what it comes back with, over every run. A thread's program counter holds
the values it has loaded; one step is one atomic access of one thread, so every interleaving of any
length is covered. A compare-and-swap may lose and is then tried again; spinning is a choice that can go
either way at every step. A futex wait sleeps only while the word has the value the thread saw, a
notify_one wakes one sleeper if there is one, and a sleeper may wake for no reason. Fields that exist only
to state a property (what was pushed, who registered when) are commented as such. The results are about every
reachable state, or about every step from one.

**Code that updates an object** is a class whose methods follow the source and are proved against functions:
`RingBuffer.SimpleRingbuf`, `MemoryManager.Region`, `AddressRange.AddressRangeVector`,
`GatherStream.Gathered`; loops without an object (`Crc`, `Base57`, `ParentDir`) are methods with loops.

**Supporting modules**: `Threads` counts threads by role, `Nodes` holds what the two lock-free lists share,
`Word32` is wrapping 32-bit arithmetic, `Align` is the power-of-two rounding of the allocators, `Bits` are words
as sequences of bits, `Arithmetic` are the minimum and facts about division.

## Main results

1. `shared_mutex`: mutual exclusion, the word as an exact sum, exactly one hand-off in flight, every
   hand-off completes under every schedule of the threads that are at it, refinement of an abstract
   readers-writer lock operation by operation, and every call comes back with what it was made for.
2. `simple_ringbuf`: with a writer and a reader that copy outside their compare-and-swap, every step is a step of
   a bounded queue; whole runs are first in, first out, and do what was called for, each call once.
3. `lf_queue`: every item is delivered exactly once and in order although nodes are deleted and their addresses used
   again, and a pop_all comes back with the whole list; `push_if` of `lf_bunch`: every item was accepted against
   every older one, and one that is refused was refused by one of the list.
4. CRC: the table form equals the bit form for all parameters; both are polynomial division over GF(2); a CRC can
   be resumed at any split, exactly when a finite test of the parameters passes.
5. Semaphore and condition variable: conservation, no lost wake-up, a waiter served and registrants released
   under every schedule, and exactly whom a notify_one can wake.
6. Both allocators of generated code: disjoint, aligned, committed blocks; where they do not keep that, the
   exact condition.
7. Address sets, gathered streams, base57 and parent paths: each equals a simple reference object, with the exact
   condition where it does not.

Some properties one would expect do not hold of the code. Each has inputs that show it and an
if-and-only-if:

| expectation | where it fails | holds exactly when |
|---|---|---|
| merging a range gives the union | a range at the top of the address space merged with one at 0 becomes the whole space (`WrapExample`) | no range touches the new one by wrapping only (`AddressRangeVector.Merge`) |
| a gathered stream reads like the concatenation | a fragment after an empty one reads as nothing (`NothingThere`) | no empty fragment but the first precedes a non-empty one (`GatherExactly`) |
| base57 decoding inverts encoding | a last group of fewer than 8 bytes is rounded down (`DecodeEncode`) | the length is a multiple of 8 (`RoundTripExactly`) |
| blocks of `MemoryManager1` are committed | alignment of 512 KiB or more inside the first page (`WideExample`) | as `CommittedExactly` says |
| blocks of `MemoryManager1` stay in their region | between 256 and 512 MiB the offset wraps or runs over (`RegionExample`) | the new position is at most 256 MiB (`FitsExactly`) |
| a CRC can be resumed | bits above the width in the initial value or the final xor (`SomeDirt`, `DirtShows`) | those bits are not seen below the width by the end (`SplitExactly`), for all splits a finite test (`ResumesExactly`) |
| a wake of notify_one reaches a thread that was waiting | a later waiter takes it (`NotifyOneCanGoToLaterWaiter`) | no wait() registers between the signal and the wake (`NotifyOneGoesToEarlierExactly`) |
| `try_post` keeps the value at most Max | it accepts a value of exactly Max (`TryPostAttains`) | the value found is not Max (`TryPostBound`) |
| a served block is committed although an earlier commit was refused | the position has moved past the refused pages (`FailedCommitIsNotRetried`, `FailedCommitExample`) | as `ServedCommittedExactly` says |
| a sleeping consumer is woken by a push | the push that began the list does not notify (`QuietPushStrands`) | the push is one with Notify (`StrandedExactly`); no other step strands it (`StrandsExactly`) |
| `check_consistency` accepts what the operations leave | the whole space cut in the middle (`CutBreaksCheck`) | exclude: the set does not keep both ends and get or have a gap (`AddressRangeVector.Exclude`); merge: it does not hold both ends with a gap left, or, if it wraps, every range touches (`AddressRangeVector.Merge`) |
| an exhausted code allocator stays exhausted, and its blocks are disjoint | a size whose 64-bit sums wrap to below the limit (`SlipExample`) | no request slips so (`JitMemory.ExhaustedForGood`, `JitMemory.InvStep`) |
| ring buffer counters may wrap at 2^64 | sizes that do not divide 2^64 (`LastPushFails`) | the size divides the range (`CounterWrapExactly`, `PushWrapsExactly`) |

## Model

| member | source | states |
|---|---|---|
| SharedMutex.MutualExclusion | Utilities/mutex.h:31-161 | in every reachable state a writer excludes every other writer and every reader |
| SharedMutex.WordIsSum | Utilities/mutex.h:10-17 | the word is readers + 2^14 (writer + waiting) + 2^30 signal, no field carries into the next, and no ensure() has failed |
| SharedMutex.HandOffNeverLost | Utilities/mutex.cpp:46-160 | while threads wait exactly one of these is true: readers hold, a writer holds, one signal is in the word, one thread is about to post it; and a signal always has an awake waiter or a wake on its way |
| SharedMutexProgress.HandOffCompletes | Utilities/mutex.cpp:46-160 | from every reachable state in which threads wait and nobody holds the mutex, whatever the order in which threads awake inside imp_signal and imp_wait go on, and with nothing but their steps (no new call, no sleeper that wakes unwoken): one of them can go on while the mutex is free, there are at most 6 n + 1 steps with n threads, and then a thread that waited is the writer |
| SharedMutexProgress.OwnStepAdvances | Utilities/mutex.cpp:57-85 | whichever of these threads goes on, it gets the mutex or the rank falls, and nobody new waits |
| SharedMutex.RefinesLock | Utilities/mutex.h:31-161 | every step of every interleaving does to an abstract readers-writer lock what its access is for: a failed attempt and every other access changes nothing, an attempt that succeeds only adds its thread, unlock and unlock_shared only remove it, upgrade and downgrade only move it |
| SharedMutexCalls.CallsComeBackRight | Utilities/mutex.h:31-161 | over every run, lock and lock_upgrade come back only as the writer, lock_shared only as a reader, a try call with what it asked for or what it had, lock_unlock and the unlocks without |
| SharedMutexCalls.LockAtOnceExactly | Utilities/mutex.h:86-99 | try_lock, and lock at its first access, take the mutex exactly if nobody holds it or waits |
| SharedMutexCalls.LockSharedAtOnceExactly | Utilities/mutex.h:31-47 | try_lock_shared with no access in between, and lock_shared, enter exactly if nobody writes or waits and there is room for a reader |
| SharedMutexCalls.UpgradeAtOnceExactly | Utilities/mutex.h:132-146 | try_lock_upgrade and lock_upgrade likewise, exactly if the thread is the only reader |
| SharedMutexCalls.LockRoundExactly | Utilities/mutex.cpp:87-112 | a round of the spin loop of lock, and its first two accesses, take the mutex exactly if it is free or a signal is out |
| SharedMutexCalls.LockSharedRoundExactly | Utilities/mutex.cpp:5-30 | a round of the spin loop of lock_shared exactly if a reader may enter or a signal is out |
| SharedMutexCalls.UpgradeRoundExactly | Utilities/mutex.cpp:137-147 | a round of the spin loop of lock_upgrade exactly if there is one reader |
| SharedMutexCalls.SpinsBeforeQueueing | Utilities/mutex.cpp:5-193 | a call joins the queue only once its spin loop is over |
| SharedMutexCalls.LockUnlockFinds | Utilities/mutex.cpp:162-182 | lock_unlock comes back from its loop exactly if nobody reads and a signal is out or fewer threads hold or wait than at its last look |
| SharedMutexCalls.OwnStepsEnd | Utilities/mutex.cpp:5-193 | a call whose spin loops are over is at most six of its own steps from its end or from imp_wait, whatever the others do |
| SharedMutex.InvStep | Utilities/mutex.cpp:5-193 | every step of every thread keeps the invariant on the word and the roles of the threads |
| SharedMutex.Fields | Utilities/mutex.h:10-17 | what the code's mask tests say about the holders and waiters |
| SharedMutex.OverflowExactly | Utilities/mutex.cpp:5-193 | the overflow checks fire exactly with all 65535 places taken; the path without a check then carries into the signal |
| SharedMutexCalls.UnderflowExactly | Utilities/mutex.cpp:5-135 | on which words the underflow checks fire |
| SharedMutex.Enqueue | Utilities/mutex.cpp:32-44 | adding c_one takes the free mutex or joins the queue, and cannot overflow |
| SharedMutex.UpgradeOrEnqueue | Utilities/mutex.cpp:137-160 | adding c_one - 1 makes the only reader the writer and any other reader a waiter |
| SharedMutex.LeaveShared | Utilities/mutex.cpp:46-55 | the last reader out, and no other, owes a signal, exactly when threads wait |
| SharedMutex.LeaveExclusive | Utilities/mutex.cpp:125-135 | the writer owes a signal exactly when threads wait |
| Semaphore.Conservation | Utilities/sema.h:30-65 | as long as no ensure() has failed, in every reachable state the value is initial + posts - takes and the waiter field counts the registered threads |
| SemaphoreCalls.CallsConserve | Utilities/sema.h:30-67 | conservation over calls: the value, the waits that have come back and the try_waits that said yes are the initial value, the posts and the try_posts that said yes, over every run without a failed ensure() |
| SemaphoreCalls.AnswersExactly | Utilities/sema.h:42-67 | try_wait says yes exactly on a value other than 0, try_post exactly on one up to Max, and the value changes exactly then |
| SemaphoreCalls.PostWakesExactly | Utilities/sema.cpp:62-70 | a post goes on to wake exactly if more threads are registered than there were units |
| SemaphoreCalls.WaitAtOnce | Utilities/sema.h:30-40 | wait with a unit there and no access in between takes it at once |
| SemaphoreCalls.SpinRoundExactly | Utilities/sema.cpp:5-17 | a round of the spin loop takes a unit exactly if there is one, and a call registers only once its loop is over |
| SemaphoreCalls.OwnStepsEnd | Utilities/sema.cpp:5-60 | a call whose spin loop is over is at most three of its own steps from its end or from being registered |
| Semaphore.FailsExactly | Utilities/sema.cpp:62-70 | the first ensure() to fail is that of imp_post, exactly on a post to a value of 65535 |
| Semaphore.NoLostWakeup | Utilities/sema.cpp:5-70 | min(value, registered) is at most the awake plus the pending wakes, in every reachable state in which no ensure() has failed |
| SemaphoreProgress.WaiterServed | Utilities/sema.cpp:5-70 | from every reachable state with a unit and a registered thread and no failed ensure(), whatever the order in which awake registered threads and threads about to notify go on, and with nothing but their steps: one of them can go on until a unit is taken, there are at most 2 n steps with n threads, and the unit goes to a thread that waited |
| SemaphoreProgress.OwnStepAdvances | Utilities/sema.cpp:20-70 | whichever of these threads goes on, it takes a unit or the rank falls |
| Semaphore.TryPostBound | Utilities/sema.cpp:72-97 | try_post keeps the value at most Max + 1, and at most Max exactly unless it finds Max |
| Semaphore.TryPostRun | Utilities/sema.cpp:72-97 | over every run posted to by try_post(max) alone, from a value of at most max + 1, the value stays at most max + 1 and the invariant, under which no ensure() has failed, is kept |
| Semaphore.TryPostAttains | Utilities/sema.cpp:72-97 | a run that attains max + 1 |
| Semaphore.WaitCheckExactly | Utilities/sema.cpp:5-60 | the check in imp_wait fails exactly on 65535 waiters and value 0 |
| Semaphore.InvStep | Utilities/sema.cpp:5-97 | every step keeps the invariant, but for a post that overflows, which trips the ensure() |
| CondVariable.WaitersCounted | Utilities/cond.h:20-34 | the waiter field counts the threads between registration and cleanup, and the word is 0 exactly when there are none |
| CondVariable.StaleWaiterCannotSleep | Utilities/cond.cpp:5-25 | a thread that registered before an accepted wake cannot fall asleep on its stale value |
| CondVariable.SaturationReleasesAll | Utilities/cond.cpp:27-55 | with signals used up, every registered thread is awake for good or being woken by a notify_all |
| CondVariable.NotifyAllReleasesAll | Utilities/cond.cpp:27-55 | no thread that registered before a delivered notify_all is asleep |
| CondVariable.FlushedRecords | Utilities/cond.cpp:46-50 | what is recorded as flushed covers exactly the delivered notify_alls |
| CondVariableCalls.CallsComeBackRight | Utilities/cond.h:20-92 | over every run, wait comes back unregistered only for want of room, and registered only after it slept or the word changed; a notify comes back without a signal only if nobody was registered or there was no room, and with one, notify_all has woken all who slept, notify_one exactly one if there was one, or all with the last signal |
| CondVariableDelivery.NotifyOneCanGoToLaterWaiter | Utilities/cond.cpp:27-55 | a run in which a notify_one wakes a thread that registered after it while an earlier one sleeps on |
| CondVariableDelivery.ClosedIsEarlier | Utilities/cond.cpp:27-55 | if no wait() registers between the signal and the wake, whoever can be woken registered before the signal |
| CondVariableDelivery.OpenIsLater | Utilities/cond.cpp:27-55 | if a thread is idle and there is room, it can register, sleep and be the one woken |
| CondVariableDelivery.AgainIsLater | Utilities/cond.cpp:5-55 | in any case a thread that is registered can leave, register again, sleep and be the one woken |
| CondVariableDelivery.NotifyOneGoesToEarlierExactly | Utilities/cond.cpp:27-55 | from every reachable state in which a notify_one is accepted, over all runs up to its wake: the wake surely goes to an earlier registrant exactly when registrations are kept out |
| CondVariableProgress.WakeReleases | Utilities/cond.cpp:5-55 | from every reachable state in which a wake is accepted, whatever the order in which threads inside calls go on, and with nothing but their steps: they take at most 2 n steps with n threads, and when none is left a thread that was registered at the signal has left the wait, or all of them after a notify_all |
| CondVariableProgress.OwnStepAdvances | Utilities/cond.cpp:5-55 | whichever of these threads goes on, the rank falls |
| CondVariable.InvStep | Utilities/cond.cpp:5-55 | every step keeps the invariant |
| RingBufferThreads.StepRefines | Utilities/simple_ringbuf.cpp:117-202 | every step of writer or reader is a step of the bounded queue: a committed pop has copied the front as of its commit, and copying changes nothing queued |
| RingBufferCalls.WriterDoesItsCalls | Utilities/simple_ringbuf.cpp:117-168 | over every run, the operations the writer commits are its calls, in order, with their own data, force and count, each exactly once, but for the one under way |
| RingBufferCalls.ReaderDoesItsCalls | Utilities/simple_ringbuf.cpp:128-202 | the same for the reader |
| RingBufferCalls.WriterAdvances | Utilities/simple_ringbuf.cpp:117-168 | the writer left alone commits within twice the buffer size of steps |
| RingBufferCalls.ReaderAdvances | Utilities/simple_ringbuf.cpp:128-202 | the same for the reader |
| RingBufferThreads.FirstInFirstOut | Utilities/simple_ringbuf.cpp:136-202 | over any interleaving without flushes, received bytes followed by queued bytes are the sent bytes in order |
| RingBufferThreads.FromTheStart | Utilities/simple_ringbuf.cpp:3-6 | every run from a new buffer keeps the invariant, and without flushes received and queued bytes are the sent ones |
| RingBuffer.UsedPlusFree | Utilities/simple_ringbuf.cpp:91-107 | used and free are always the buffer size less one |
| RingBuffer.PushEffect | Utilities/simple_ringbuf.cpp:136-168 | writing behind the queue and advancing the write counter appends |
| RingBuffer.PopEffect | Utilities/simple_ringbuf.cpp:170-202 | advancing the read counter drops the oldest bytes |
| RingBuffer.DropLastEffect | Utilities/simple_ringbuf.cpp:117-126 | adding buf_size - n to the write counter drops the newest n bytes |
| RingBuffer.CounterWrapExactly | Utilities/simple_ringbuf.cpp:91-107 | a counter that wraps keeps every slot in place exactly when the size divides its range |
| RingBuffer.PushWrapsExactly | Utilities/simple_ringbuf.cpp:136-168 | for sizes of at least 2, pushes act as those of the queue for all counter values, the wrapping ones included, exactly when the size divides the range |
| RingBuffer.WrappedPushEffect | Utilities/simple_ringbuf.cpp:136-168 | with such a size, a push whose counter wraps appends |
| RingBuffer.WrappedPopEffect | Utilities/simple_ringbuf.cpp:170-202 | a pop whose counter wraps drops the oldest bytes |
| RingBuffer.WrappedDropLastEffect | Utilities/simple_ringbuf.cpp:117-126 | a flush whose counter wraps drops the newest bytes |
| RingBuffer.SimpleRingbuf.SetBufSize | Utilities/simple_ringbuf.cpp:109-115 | the queue is emptied and has the new capacity |
| RingBuffer.SimpleRingbuf.GetSizes | Utilities/simple_ringbuf.cpp:75-107 | the three sizes are those of the queue |
| RingBuffer.SimpleRingbuf.WriterFlush | Utilities/simple_ringbuf.cpp:117-126 | the newest min(used, cnt) bytes are dropped |
| RingBuffer.SimpleRingbuf.ReaderFlush | Utilities/simple_ringbuf.cpp:128-134 | the oldest min(used, cnt) bytes are dropped |
| RingBuffer.SimpleRingbuf.Push | Utilities/simple_ringbuf.cpp:136-168 | all of the data or nothing, or with force as much as fits, is appended through the two-part copy |
| RingBuffer.SimpleRingbuf.Pop | Utilities/simple_ringbuf.cpp:170-202 | the front is taken, all that was asked or nothing, or with force as much as there is, through the two-part copy |
| Crc.Reflect | Utilities/CRC.h:523-534 | the loop mirrors the lowest bits |
| Crc.CalculateRemainder | Utilities/CRC.h:605-707 | the bit loops compute the remainder function, for all three register layouts |
| Crc.InitTable | Utilities/CRC.h:396-426 | every entry is the remainder of its byte |
| Crc.CalculateRemainderByTable | Utilities/CRC.h:720-766 | the table loops compute the table remainder function |
| CrcTable.TableRemainderMatches | Utilities/CRC.h:720-766 | table and bit remainders finalize to the same CRC for every message, start and parameter set |
| CrcTable.TableMatchesBits | Utilities/CRC.h:438-513 | the table forms of Calculate equal the bit forms, from the start and resumed |
| CrcDivision.RegisterIsRemainder | Utilities/CRC.h:605-707 | the reference register holds the remainder of polynomial division over GF(2) |
| CrcDivision.CalculateMeaning | Utilities/CRC.h:438-445 | without bits above the width, Calculate is the output of the reference register fed with the message |
| CrcResume.CalculateMeaningAlways | Utilities/CRC.h:438-445 | for every parameter set, it is that together with what the bits above the width have become |
| CrcDivision.UndoGivesRegister | Utilities/CRC.h:546-592 | UndoFinalize inverts Finalize on the register |
| CrcDivision.ResumeConcat | Utilities/CRC.h:458-467 | resuming from the CRC of a prefix gives the CRC of the whole, for every split |
| CrcDivision.ResumeFullWidth | Utilities/CRC.h:458-467 | a CRC whose type has no bits above the width, such as CRC-32, can be resumed at every split |
| CrcDivision.ResumeConcatByTable | Utilities/CRC.h:502-513 | the same with the table |
| CrcResume.SplitExactly | Utilities/CRC.h:458-467 | with reflected input, of any width: a split is resumed rightly exactly if the bits above the width that resuming gets wrong after the first part are not seen below the width after the second; this depends on the lengths only |
| CrcResume.DirtShows | Utilities/CRC.h:605-707 | for widths of at least 8 each such bit is seen after some number of further bytes |
| CrcResume.SomeDirt | Utilities/CRC.h:546-592 | parameters that are not resumable have such bits at once or after one byte |
| CrcResume.ResumesExactly | Utilities/CRC.h:458-467 | for every parameter set: all splits work exactly when, with reflected input, such bits are never seen; and it is enough to look at lengths of up to digits / 8 + 1 bytes |
| CrcResume.WideResumesExactly | Utilities/CRC.h:458-467 | for widths of at least 8 that is exactly when, with reflected input, the initial value and, with reflected output too, the final xor have no bits above the width |
| LockFreeQueue.InvStep | Utilities/lockless.h:385-507 | no step touches a deleted node, and every step keeps the invariant |
| LockFreeQueue.NoDanglingAccess | Utilities/lockless.h:385-507 | no thread touches a deleted node in any reachable state, although addresses are used again |
| LockFreeQueue.ExactlyOnce | Utilities/lockless.h:402-507 | in every reachable state, what the consumers have got and still hold in their nodes, batch after batch, followed by what the list holds, is what was pushed, in order |
| LockFreeQueueCalls.CallsComeBackRight | Utilities/lockless.h:402-507 | over every run, a push comes back having pushed its item once, and having sent a wake if it was to; a pop_all with the whole of one batch in push order, or with nothing if the list was empty at one of its accesses; a wait if the list was not empty or it slept; a notify having sent a wake unless the list was empty |
| LockFreeQueueCalls.PopAllAlone | Utilities/lockless.h:402-424 | from every reachable state, pop_all left alone takes all that is queued, in order, within 2 n + 1 steps for n items, and leaves the list empty |
| LockFreeQueueCalls.ExchangeEnds | Utilities/lockless.h:402-424 | in every reachable state the exchange of pop_all ends the call on an empty list and otherwise has the whole list |
| LockFreeQueueCalls.PushAlone | Utilities/lockless.h:473-491 | from every reachable state, push left alone appends its item with its second access and is told whether the list was empty |
| LockFreeQueue.EachNodeOnce | Utilities/lockless.h:402-507 | no node is held twice, or held and queued |
| LockFreeQueue.BatchesInOrder | Utilities/lockless.h:402-424 | each pop_all yields its batch in push order, and exactly the first push of a batch was told the queue was empty |
| LockFreeQueue.WaiterNotStranded | Utilities/lockless.h:450-499 | a consumer asleep on a list that a notifying push began has a wake on its way |
| LockFreeQueue.QuietPushStrands | Utilities/lockless.h:473-491 | a run in which a push without Notify leaves the consumer asleep |
| LockFreeQueue.StrandedExactly | Utilities/lockless.h:450-499 | from every reachable state in which the consumer sleeps on an empty list and nobody is about to wake it, a push leaves it so on a list exactly if its argument Notify is false |
| LockFreeQueue.StrandsExactly | Utilities/lockless.h:450-499 | of all steps of all threads in all reachable states, exactly the committing step of such a push strands the consumer |
| LockFreeQueue.RescuedExactly | Utilities/lockless.h:450-499 | a stranded consumer stays so exactly until it wakes unwoken, the list is taken, or notify() is called; further pushes do not help |
| LockFreeQueue.HeadFlagMatches | Utilities/lockless.h:385-400 | is_non_null always matches the pointer |
| LockFreeBunch.InvStep | Utilities/lockless.h:546-592 | every step keeps the invariant and touches no deleted node |
| LockFreeBunch.AcceptedAgainstAllOlder | Utilities/lockless.h:563-592 | every item of push_if was accepted against every older item, although retries look only at newer ones |
| LockFreeBunchCalls.CallsComeBackRight | Utilities/lockless.h:546-592 | over every run, a push comes back with its item in the list once, a push_if likewise or with nothing, and then its predicate rejects the item against one of the list |
| LockFreeBunchCalls.PushAlone | Utilities/lockless.h:546-592 | from every reachable state, push and push_if left alone add the item exactly if none of the list speaks against it |
| LockFreeBunch.ListOnlyGrows | Utilities/lockless.h:546-592 | nodes in the list stay there unchanged |
| Align.MaskIsAlignUp | rpcs3/util/asm.hpp:446-452 | the mask of the source is the arithmetic rounding on powers of two, wrapping included |
| Align.AlignUpSpec | rpcs3/util/asm.hpp:446-452 | without wrapping it is the least multiple from the value on |
| Align.AlignUpWrapped | rpcs3/util/asm.hpp:446-452 | when the sum wraps it is 0 |
| JitMemory.ReserveSpec | Utilities/JITASM.cpp:160-187 | unless it slips (its sums wrap to below the limit), a reservation is aligned, at or above the position, below 1 GiB, and moves the position past it, or marks the counter exhausted |
| JitMemory.ReserveExactly | Utilities/JITASM.cpp:160-187 | with q the least multiple from the position on and z the least from q + size on, a block is reserved exactly if z is at most 1 GiB (or it slips); then it is at q, the position becomes z, and commits go to the mark or the end of the page of z |
| JitMemoryCalls.AllocateExactly | Utilities/JITASM.cpp:160-187 | from every reachable state, an allocation that does not slip reserves exactly that block or marks the allocator exhausted, and changes nothing else |
| JitMemoryCalls.CallsComeBackRight | Utilities/JITASM.cpp:142-215 | over every run in which no block slips, an allocation comes back with nothing only once one has failed, and otherwise with a reserved block of its own size and alignment, aligned and committed |
| JitMemoryCalls.OwnStepsEnd | Utilities/JITASM.cpp:195-215 | a call that has its block comes back within three of its own steps |
| JitMemoryCalls.CommitsExactly | Utilities/JITASM.cpp:195-200 | memory is committed only by such a call, from the mark it found to the end of its last page |
| JitMemory.ReserveSoundExactly | Utilities/JITASM.cpp:160-187 | for every size and every power of two, a reservation fails or ends past its block exactly unless it slips |
| JitMemory.InvStep | Utilities/JITASM.cpp:142-215 | every step of every allocating thread, with any size, keeps the invariant exactly unless it reserves a block that slips |
| JitMemory.BlocksDisjoint | Utilities/JITASM.cpp:142-215 | in every run in which no block slips, all blocks are aligned, below 1 GiB and pairwise disjoint |
| JitMemory.ReturnedIsCommitted | Utilities/JITASM.cpp:195-215 | in every such run, everything below the acknowledged mark and every returned block is committed |
| JitMemory.ExhaustedForGood | Utilities/JITASM.cpp:160-187 | after one failure a later allocation of something fails exactly unless it slips; one of size 0 fails or is put at the very end |
| JitMemory.SlipExample | Utilities/JITASM.cpp:160-187 | at the limit, a request for 2^64 less the limit slips: it is reserved and the position becomes 0 |
| JitMemory.ReturnedInRange | Utilities/JITASM.cpp:211-214 | the last ensure() fails exactly for an empty block at the very end |
| MemoryManager.SupportedExactly | Utilities/JITLLVM.cpp:293-303 | the size tests refuse exactly size 0, sizes above 256 MiB and alignments above 2 MiB |
| MemoryManager.OutOfMemoryExactly | Utilities/JITLLVM.cpp:314-323 | the wrapping test throws exactly past 512 MiB |
| MemoryManager.Placed | Utilities/JITLLVM.cpp:305-312 | the block is at the first aligned address from the position on, and the position moves to the first aligned one after it |
| MemoryManager.FitsExactly | Utilities/JITLLVM.cpp:312-361 | the block is in the region and past all others exactly when the new position is at most 256 MiB |
| MemoryManager.CommitsJoin | Utilities/JITLLVM.cpp:328-359 | the one or two commits of a call join without gap or overlap |
| MemoryManager.JoinsApart | Utilities/JITLLVM.cpp:328-359 | spans that join share no byte: no page is committed twice |
| MemoryManager.JoinedStep | Utilities/JITLLVM.cpp:328-359 | with alignments below 512 KiB the committed part is exactly from 0 to the frontier |
| MemoryManager.BackedStep | Utilities/JITLLVM.cpp:328-359 | every served request of any alignment keeps the pages the position has reached committed |
| MemoryManager.CommittedExactly | Utilities/JITLLVM.cpp:293-361 | if all commits are granted, the block is wholly committed exactly if its alignment is below 512 KiB, it is the first, it starts past the first page, or the first request was aligned so |
| MemoryManager.ServedCommittedExactly | Utilities/JITLLVM.cpp:325-361 | whatever commits were refused before: the block is wholly committed exactly if that holds and none of its bytes is in a refused span that no granted one makes up for; with alignments below 512 KiB, exactly if it meets no refused span |
| MemoryManager.ThoseApart | Utilities/JITLLVM.cpp:328-359 | when the spans asked for join, as they do with alignments below 512 KiB, no byte is both in a granted and in a refused one |
| MemoryManager.WideAfterNarrow | Utilities/JITLLVM.cpp:330-359 | after a first request of lesser alignment, a block aligned to 512 KiB or more that starts in the first page is not committed |
| MemoryManager.WideExample | Utilities/JITLLVM.cpp:330-359 | 16 bytes aligned to 16, then 16 bytes aligned to 512 KiB: the second block is not committed |
| MemoryManager.RegionExample | Utilities/JITLLVM.cpp:312-361 | a request at 256 MiB is served, at offset 0 |
| MemoryManager.FailedCommitIsNotRetried | Utilities/JITLLVM.cpp:325-346 | after a refused commit, later blocks in the same quarter page are not committed |
| MemoryManager.FailedCommitExample | Utilities/JITLLVM.cpp:325-346 | 16 bytes whose commit is refused, then 16 more: nothing is committed for these, and byte 16 is not |
| MemoryManager.Region.CommitPages | Utilities/JITLLVM.cpp:328-359 | the two branches make the commits of the specification, or a proper prefix when one is refused |
| MemoryManager.Region.Take | Utilities/JITLLVM.cpp:325-361 | a served request: new position, commits asked for and granted, block, all that is kept, and exactly when the block is committed, whatever was refused before |
| MemoryManager.Region.Allocate | Utilities/JITLLVM.cpp:293-361 | which requests are refused, throw or are served, and exactly when the block is committed, whatever was refused before |
| AddressRange.TouchesExactly | Utilities/address_range.h:138-143 | touches is nearness, or one range ending at the top and the other starting at 0 |
| AddressRange.MinMaxIgnoresInvalid | Utilities/address_range.h:182-188 | get_min_max with an invalid range is the other one, and invalid with two |
| AddressRange.HullExact | Utilities/address_range.h:182-188 | the repeated min/max holds just what its parts hold, unless a part touches by wrapping only |
| AddressRange.MergedOutcome | Utilities/address_range.h:307-363 | merging into ranges that touch gives the union and keeps separation, exactly unless one touches by wrapping only |
| AddressRange.AddedOutcome | Utilities/address_range.h:348-363 | adding a range that touches nothing, in a free slot or at the end, gives the union |
| AddressRange.WrapExample | Utilities/address_range.h:138-143 | a vector and a range that touch by wrapping only |
| AddressRange.CutOutcome | Utilities/address_range.h:395-448 | cutting one slot removes exactly the excluded addresses of it |
| AddressRange.AddressRangeVector.CutSlot | Utilities/address_range.h:409-448 | a range that overlaps is dropped, shortened or cut in two, its tail going to a free slot met before or to the end |
| AddressRange.WrapsExactly | Utilities/address_range.h:138-143 | a separated vector touches a range by wrapping only exactly if the two hold one end of the space each and leave an address out |
| AddressRange.AddressRangeVector.Merge | Utilities/address_range.h:307-363 | the new set is the union exactly unless a range touches by wrapping only, when it is the whole space; what stays in place, and when the vector grows; and the result passes check_consistency exactly if, wrapping, every range touches, and otherwise the set did not hold both ends of the space with a gap left |
| AddressRange.AddressRangeVector.MergeAll | Utilities/address_range.h:365-371 | merging a vector gives the union exactly if no range closes the space round when its turn comes, or the union is the whole space; if none closes it, the result passes check_consistency exactly if the union does not hold both ends with a gap |
| AddressRange.AddressRangeVector.Exclude | Utilities/address_range.h:374-454 | the new set is the difference, ranges stay separated, and ranges that do not overlap stay in place; the result passes check_consistency exactly unless both ends of the space stay in the set and there is a gap |
| AddressRange.AddressRangeVector.ExcludeAll | Utilities/address_range.h:456-462 | excluding a vector gives the difference of both, and passes check_consistency exactly unless both ends stay and there is a gap |
| AddressRange.AddressRangeVector.CheckConsistency | Utilities/address_range.h:466-493 | the nested loops find whether two valid ranges touch |
| AddressRange.ConsistentExactly | Utilities/address_range.h:466-493 | the answer is yes exactly for separated vectors that are not at both ends of the space in different ranges |
| AddressRange.PassesExactly | Utilities/address_range.h:466-493 | of separated vectors, exactly those pass whose set does not hold both ends of the space with a gap between |
| AddressRange.WrappedPasses | Utilities/address_range.h:307-363 | after a merge that wraps, exactly if every range touched |
| AddressRange.CutBreaksCheck | Utilities/address_range.h:424-452 | cutting the whole space in the middle leaves a vector that check_consistency rejects, as it does every separated vector of that set |
| GatherStream.EndsRegular | Utilities/File.cpp:2541-2550 | the map then takes each fragment's end to its own index |
| GatherStream.WrongIndex | Utilities/File.cpp:2541-2550 | after a stretch of empty fragments the map gives the index of the first of them |
| GatherStream.GatherMatches | Utilities/File.cpp:2576-2612 | the loop gives the bytes of the concatenation, by seek and read or by positional reads, wherever the fragments' own positions are |
| GatherStream.ReadMatches | Utilities/File.cpp:2576-2646 | a read at any position gives the bytes of the concatenation |
| GatherStream.NothingThere | Utilities/File.cpp:2576-2646 | reading the fragment after an inner empty one gives nothing |
| GatherStream.GatherExactly | Utilities/File.cpp:2541-2646 | all reads are those of the concatenation exactly when no empty fragment but the first precedes a non-empty one |
| GatherStream.SeekMatches | Utilities/File.cpp:2653-2668 | a seek lands where exact arithmetic says, or fails when that is not a signed 64-bit offset |
| GatherStream.RunMatches | Utilities/File.cpp:2576-2668 | any sequence of reads, positional reads and seeks has the outcomes it has on the concatenation |
| GatherStream.Gathered.Read | Utilities/File.cpp:2576-2612 | the loop refines the specification, moves past what was read and leaves the rest of the buffer |
| GatherStream.Gathered.ReadAt | Utilities/File.cpp:2614-2646 | the same at any offset, without moving anything |
| GatherStream.Gathered.Seek | Utilities/File.cpp:2653-2668 | the position moves, or the call fails and nothing changes |
| Base57.DigitOfLetter | Utilities/StrFmt.cpp:199-251 | the digit of the d-th letter is d |
| Base57.LetterOfDigit | Utilities/StrFmt.cpp:199-251 | a character with a digit is the letter of that digit |
| Base57.OverflowExactly | Utilities/StrFmt.cpp:262-278 | the two overflow tests reject exactly the sums of 2^64 or more |
| Base57.ReadGroup | Utilities/StrFmt.cpp:181-280 | the inner loop gives the group's number exactly if all characters are digits and it is below 2^64 |
| Base57.FromString | Utilities/StrFmt.cpp:174-298 | the loops compute the decoding, and nothing for an invalid text |
| Base57.PutGroup | Utilities/StrFmt.cpp:159-168 | the letters of a group are written, cut off at the end of the text |
| Base57.TailIsLeast | Utilities/StrFmt.cpp:133-137 | the table of tail sizes is the least number of digits that tells all byte strings of that length apart |
| Base57.Format | Utilities/StrFmt.cpp:127-172 | the loops append the encoding |
| Base57.DecodeEncode | Utilities/StrFmt.cpp:127-298 | decoding an encoding gives the whole groups and, for a short last group, 8 bytes of its number rounded down |
| Base57.CutMeaning | Utilities/StrFmt.cpp:127-172 | rounded down to a multiple of the power of 57 that was cut off |
| Base57.RoundTripExactly | Utilities/StrFmt.cpp:127-298 | decoding inverts encoding exactly for whole groups |
| Base57.EncodeInjective | Utilities/StrFmt.cpp:127-172 | different byte strings of any lengths have different texts |
| Base57.ReEncode | Utilities/StrFmt.cpp:127-298 | a text of whole groups that decodes is the encoding of what it decodes to |
| ParentDir.GetParentDir | Utilities/File.cpp:908-957 | the loop ends on every path and computes the parent function |
| ParentDir.PrefixOrRoot | Utilities/File.cpp:908-957 | the result is a prefix of the path or "/" |
| ParentDir.Composes | Utilities/File.cpp:908-957 | stripping a + b levels is stripping a and then b |
| ParentDir.ParentComponents | Utilities/File.cpp:908-957 | the components left are those left by stripping components, where "." counts for nothing, ".." for one more, and a relative path keeps its first |

## Left out

- Memory orders weaker than sequential consistency, spin counts and timeouts: steps are interleaved, and spinning ends at any time.
- The `_hle` variants of the mutex calls: they make the same accesses with a hint for hardware lock elision.
- SharedMutex.InvStep: for at most 65535 threads, the number the word has room for; OverflowExactly says what happens at that bound.
- SharedMutexProgress.HandOffCompletes: while it lasts, only the threads in the middle of the hand-off go on; a thread outside may take the signal first, and then holds the mutex.
- Semaphore.InvStep: for at most 65534 threads; WaitCheckExactly says what happens at that bound.
- Semaphore.Conservation: up to the first failed ensure(), which ends the program; FailsExactly says when that comes.
- Semaphore.NoLostWakeup: likewise up to the first failed ensure().
- RingBufferThreads.StepRefines: counters do not wrap at 2^64 while two threads are at work; a compare-and-swap could then find counters that have come round. Copying and moving the buffer object are not modelled.
- LockFreeQueue.WaiterNotStranded: for one waiting consumer, as the class is meant for; `pop_all_reversed`, `apply` and moving are not modelled.
- CrcDivision.CalculateMeaning: for an initial value without bits above the width; CalculateMeaningAlways has the rest.
- CrcResume.DirtShows: for widths of at least 8, where the dirt comes down before it is carried out; below, ResumesExactly is the condition.
- CrcResume.WideResumesExactly: likewise.
- AddressRange.AddressRangeVector.MergeAll: says nothing of check_consistency after a range has closed the space round.
- `lf_array` and `lf_fifo`: they hand out places, and leave it to the element to say when it is filled or done; what they are for shows only together with an element type.
- JitMemory.InvStep: alignments are powers of two, as the callers pass; systems that overcommit, where nothing is committed, are not modelled.
- JitMemory.BlocksDisjoint: for runs in which no block slips; InvStep says that one that slips breaks it at once.
- MemoryManager.Region.Allocate: alignments are powers of two, as the callers pass.
- MemoryManager.FailedCommitIsNotRetried: for requests in the same quarter page; ServedCommittedExactly has the rest.
- `findSymbol`, code generation and the other methods of the memory manager: calls into LLVM.
- `address_range_vector::contains` and `inside`, page rounding and distances of `address_range`: they only read, so the set a vector stands for does not depend on them; `contains` also computes the reverse of its comment.
- GatherStream.Gathered.Read: fragments are byte strings that read in full; errors and short reads of real files are not modelled. The total size is below 2^63. The ordered map of fragment ends is a sequence in key order.
- Base57: characters outside ASCII are not digits; the alphabet string is written in pieces.
- ParentDir.GetParentDir: the delimiter is "/" only; on Windows it is also "\\". Levels are not bounded by 32 bits.
- The rest of `Utilities/File.cpp` and `Utilities/StrFmt.cpp`, and the 128-bit decimal output of `Utilities/cfmt.h`: I/O and formatting.
- The emulator, the user interface, configuration loading and thread start-up: they are not self-contained.
