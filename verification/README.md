# Proofs about an OS/161 kernel tree

This project models four parts of the kernel and its support code in Dafny and proves properties of the models:

* **Multiword arithmetic** (`Bits`, `Digits`, `AlgorithmD`, `QDivRem`, `MulDi3`, `SignedDiv`). Unsigned 64-bit division is Knuth's Algorithm D (The Art of Computer Programming, volume 2, section 4.3.1) in base 2^16, written with the arrays, the moving pointers and the in-place loops of the source. Its central theorem is stated for any base and any number of digits. Multiplication is the two-level split of section 4.3.3 with its carries and borrows by hand. `limits.h` defines no `UINT_MAX`, so a digit is a whole `unsigned int`; that every stored digit is below 2^16 is proved, not given by truncation.
* **The thread system** (`Scheduler`, `Migration`, `ThreadList`, `Spl`, `LockOrder`) and what sits on it (`Semaphore`, `CondVar`, `RwLock`). Protocols are step machines: a state, a set of enabled steps, an invariant kept by each step, and theorems about every state of every run over any number of CPUs and threads. Each thread has a mark for "registers saved". The linked list and the single-pass migration are imperative.
* **The kmalloc subpage allocator** (`Kmalloc`, `Allocations`, `Subpages`, `Pagerefs`). The machine has one step for each stretch under `kmalloc_spinlock` and one for each call of the page allocator, so that calls interleave wherever the lock is dropped. `alloc_kpages` is a contract: zero, or pages that are aligned and not in use; asked for no pages, any aligned address, with nothing reserved, as both page allocators of the tree do. `Allocations` says what each step, and each whole call, does to the blocks clients have. `Subpages` has the same sections as loops over lists and memory, each proved equal to the function the machine uses; `Pagerefs` has the bitmaps.
* **printf, snprintf, atoi** (`Printf`, `Formats`, `Atoi`) and **uiomove** (`Uio`). `Formats` says what is printed in terms of the output alone: numerals by the values of their characters, fields by width, alignment and fill, formats piece by piece.

`Collections` holds what the modules share.

Conventions. Machine words are integers with explicit reduction modulo 2^32 or 2^64. An assertion (`KASSERT`) in the source is an obligation: in this tree a failing one prints and execution goes on (kern/lib/kprintf.c, lines 211-219), so its condition is proved where it can be, and is otherwise a demand on callers. I/O, clocks and the machine-dependent test-and-set, context switch and idle instruction are steps or parameters; memory is sequentially consistent. The CPU recorded as a lock's or reader's holder is kept as a CPU, as in the source; that a release is made by the thread that acquired, on the same CPU, is a demand on callers.

Some properties one might expect do not hold of the code; each comes with the exact condition under which it does, for all inputs or runs, and with a failing case.

* A field printed with both `-` and `0` is padded with zeros on the right, unlike section 7.19.6.1 of ISO C99. `Atoi.RoundTrip` says when atoi still returns the number; `Atoi.RoundTripFails` is a case where it does not.
* The assertion in V holds if and only if the count was below 2^32 - 1, and the count is the initial value plus the V's less the P's if and only if that sum is below 2^32 (`Semaphore.AssertionsInside`, `Semaphore.SemaphoreTheorem`, `Semaphore.AssertionFails`).
* The assertion in freepageref that a root without a page has no pageref in use holds if and only if every root before that of the pageref has a page. It fails without any failed allocation when 256 calls wait for the page of one root (`Kmalloc.FreepagerefTheorem`, `Kmalloc.FreepagerefAssertionFails`).
* uiomove moves min(n, uio_resid) bytes if and only if n is at most uio_resid or uio_resid is where a buffer ends, as when it is the total of them. Otherwise uio_resid wraps, and it moves min(n, total) bytes and panics if n is more than the total (`Uio.TransferExact`, `Uio.RunExact`, `Uio.TransferPast`). uiomovezeros also stops at a multiple of sixteen (`Uio.ZerosExact`).
* A multi-page request that is not refused brings an allocation of that size if and only if the size is at most 2^32 - 4096. Above, the number of pages wraps to none, and kmalloc returns an address with no page behind it, which later allocations overlap (`Kmalloc.RoundedEnough`, `Kmalloc.BigRequest`, `Kmalloc.RoundedFails`, `Kmalloc.HollowOverlaps`).

## Model

| member | source | states |
|---|---|---|
| Bits.HalfWordMacros | src/common/gcc-millicode/longlong.h:110-112 | the half-word macros, used as arithmetic below, are the shifts, masks and ors they are written as |
| AlgorithmD.TrialDigitIsCloseAbove | src/common/gcc-millicode/qdivrem.c:185-210 | for any base and any number of digits, a quotient of the leading three digits by the leading two, capped at base - 1, is the true digit or one more |
| AlgorithmD.EstimateDigit | src/common/gcc-millicode/qdivrem.c:193-210 | step D3, with the jump into its loop, computes that capped quotient, in at most two corrections and without losing a bit |
| AlgorithmD.BorrowOfIsMask | src/common/gcc-millicode/qdivrem.c:220 | the borrow is the masked complement of the high half |
| AlgorithmD.SubtractDigit | src/common/gcc-millicode/qdivrem.c:218-220 | one digit and its borrow stay below 2^16 and account exactly for the subtraction, despite 32-bit wrap-around |
| AlgorithmD.SubtractDigitsValue | src/common/gcc-millicode/qdivrem.c:217-221 | all digits together are u - qhat * v, less the borrow out |
| AlgorithmD.SubtractMultiple | src/common/gcc-millicode/qdivrem.c:217-221 | the loop of step D4 in place, touching only its n digits |
| AlgorithmD.SubtractTopValue | src/common/gcc-millicode/qdivrem.c:217-223 | with the top digit: the difference, or its complement exactly when the subtraction borrowed |
| AlgorithmD.MultiplySubtract | src/common/gcc-millicode/qdivrem.c:217-230 | step D4 and the test of D5 in place |
| AlgorithmD.AddDigitsValue | src/common/gcc-millicode/qdivrem.c:232-236 | the digits added back are u + v, less the carry out |
| AlgorithmD.AddDivisor | src/common/gcc-millicode/qdivrem.c:232-236 | the loop of step D6 in place |
| AlgorithmD.AddTopValue | src/common/gcc-millicode/qdivrem.c:232-237 | with the top digit: the sum, its final carry dropped |
| AlgorithmD.AddBack | src/common/gcc-millicode/qdivrem.c:231-238 | step D6 in place |
| AlgorithmD.ReduceDigitExact | src/common/gcc-millicode/qdivrem.c:217-239 | if qhat is the true digit or one more, D5 sees a borrow exactly when it is one more, and one add-back leaves old - digit * v |
| AlgorithmD.QuotientDigit | src/common/gcc-millicode/qdivrem.c:193-239 | one turn of the loop in place yields the true quotient digit and the remainder, given a normalised divisor and a smaller leading part |
| AlgorithmD.LongDivision | src/common/gcc-millicode/qdivrem.c:177-240 | for every m and n, dividend = quotient * divisor + remainder with the remainder below the divisor, every digit stored below 2^16 |
| AlgorithmD.ShiftJoinIsBitwise | src/common/gcc-millicode/qdivrem.c:276-277 | the arithmetic form of a shifted digit is the shift, mask and or of the source |
| AlgorithmD.ShlDigitsValue | src/common/gcc-millicode/qdivrem.c:270-279 | shifting digits left multiplies the number by the power of two |
| AlgorithmD.Shl | src/common/gcc-millicode/qdivrem.c:270-279 | the shift in place |
| AlgorithmD.Denormalise | src/common/gcc-millicode/qdivrem.c:248-254 | the shift back of the remainder in place |
| QDivRem.DivideByDigit | src/common/gcc-millicode/qdivrem.c:128-148 | the unrolled division by one digit gives quotient and remainder |
| QDivRem.NormalisingShift | src/common/gcc-millicode/qdivrem.c:169-171 | the shift count makes the leading digit at least half the base, without overflow |
| QDivRem.Normalise | src/common/gcc-millicode/qdivrem.c:169-175 | step D1 multiplies both operands by the same power of two and loses nothing |
| QDivRem.SkipDivisorZeros | src/common/gcc-millicode/qdivrem.c:123-150 | dropping leading zero digits keeps the divisor's value |
| QDivRem.ExtractRemainder | src/common/gcc-millicode/qdivrem.c:242-258 | undoing the normalisation gives the remainder back, as one 64-bit number |
| QDivRem.DivideDigits | src/common/gcc-millicode/qdivrem.c:163-262 | the Algorithm D path from digits to quotient and remainder |
| QDivRem.DivideLong | src/common/gcc-millicode/qdivrem.c:157-262 | the same after skipping the dividend's zeros |
| QDivRem.Divide | src/common/gcc-millicode/qdivrem.c:67-263 | for all 64-bit u and v on every path: v = 0 is the only trap, otherwise u = q * v + r with 0 <= r < v, and r is stored when asked for |
| SignedDiv.Divide | src/common/gcc-millicode/divdi3.c:44-62 | division truncates toward zero for all operands, wrapping only for the most negative number over -1 |
| SignedDiv.Remainder | src/common/gcc-millicode/moddi3.c:45-62 | the remainder is smaller than the divisor in magnitude and has the dividend's sign, for all operands |
| SignedDiv.SignedQuotient | src/common/gcc-millicode/divdi3.c:44-62 | putting the signs back on the unsigned result gives the truncated quotient and its remainder |
| SignedDiv.QuotientAndRemainderAgree | src/common/gcc-millicode/moddi3.c:45-62 | (a / b) * b + a % b = a, section 6.5.5 of ISO C99 |
| MulDi3.AddShifted | src/common/gcc-millicode/muldi3.c:223-232 | adding a word shifted by sixteen, with the carry seen as a wrapped sum, is addition modulo 2^64 |
| MulDi3.SubtractShifted | src/common/gcc-millicode/muldi3.c:218-222 | subtracting, with the borrow seen as a wrapped difference, likewise |
| MulDi3.KaratsubaSplit | src/common/gcc-millicode/muldi3.c:56-75 | the product from three half-size products |
| MulDi3.LMulQ | src/common/gcc-millicode/muldi3.c:183-241 | the exact product of any two 32-bit numbers although partial sums wrap |
| MulDi3.MultiplyWords | src/common/gcc-millicode/muldi3.c:124-158 | the cross terms combine to the product modulo 2^64 |
| MulDi3.Multiply | src/common/gcc-millicode/muldi3.c:99-164 | a * b modulo 2^64 for all signed operands, the most negative included |
| Scheduler.KeepStep | src/kern/thread/thread.c:297-971 | every step of switch, sleep, wake, fork, exit, reap, idle and migration keeps the invariant; a forking thread can be preempted and migrated between making its child and queueing it |
| Scheduler.RunInv | src/kern/thread/thread.c:583-749 | so it holds in every state of every run from boot, for any number of CPUs |
| Scheduler.ExactlyOnePlace | src/kern/thread/thread.c:618-663 | each live thread is in exactly one place and there once, no thread is current on two CPUs, and a run queue holds only threads whose t_cpu is its CPU |
| Scheduler.DispatchIsSafe | src/kern/thread/thread.c:664-739 | a dispatched thread has its registers saved or never left this CPU, and is current nowhere else |
| Scheduler.ZombieIsGone | src/kern/thread/thread.c:297-308 | a thread being destroyed has been switched away from and is nobody's current thread |
| Scheduler.DestroyedOnce | src/kern/thread/thread.c:266-308 | a zombie is destroyed once, and only after its CPU switched away |
| Scheduler.IdleCpuIsWoken | src/kern/thread/thread.c:453-483 | an idle CPU with work queued always has an interrupt on its way |
| Scheduler.MigrationNeverRunsDry | src/kern/thread/thread.c:896-911 | the removals at both lists never find them empty, whatever other CPUs add meanwhile |
| Scheduler.MovingTheCurrentThreadIsUnsafe | src/kern/thread/thread.c:911-937 | why the current thread is set back: moved, it would be queued elsewhere with its registers unsaved |
| Scheduler.SwitchOutTheorem | src/kern/thread/thread.c:618-643 | at every yield, sleep and exit of every run the current thread, and nobody else, goes from its CPU to the end of the run queue, of the channel it sleeps on, or of the zombies, with the state that belongs there; no other list changes |
| Scheduler.SwitchInTheorem | src/kern/thread/thread.c:662-740 | the first of the run queue becomes the current thread, alone on its CPU, with the registers of the one before it saved |
| Scheduler.WakeTheorem | src/kern/thread/thread.c:453-560 | the first sleeper of a channel is taken in hand; who is in hand, or newly forked, goes ready to the end of the run queue of its own t_cpu, which is interrupted if idle |
| Scheduler.MigrateTheorem | src/kern/thread/thread.c:896-967 | victims come from the end of the own queue, the current thread goes to the back of them, any other to the end of the other CPU's queue with t_cpu changed, the rest back |
| Scheduler.OthersTheorem | src/kern/thread/thread.c:299-308 | reaping removes the first zombie for good; no other step changes any list |
| Scheduler.LeavesOnlyBy | src/kern/thread/thread.c:1021-1096 | a thread leaves a list in one way only: a channel as the first of it at a wakeup of that channel, the hand at make_runnable, a run queue as the first at a dispatch or the last at a migration, and so on |
| Scheduler.StaysUntilTaken | src/kern/thread/thread.c:1021-1063 | between a state of a run in which a thread is on a list and a later one in which it is not there is such a step; so a sleeper stays on its channel until a wakeup of that channel takes it as the first |
| Scheduler.SurplusTheorem | src/kern/thread/thread.c:876-954 | a CPU with less than an even share of the threads it counted, rounded up, does nothing; otherwise it takes exactly its surplus as victims and sends at most that many, whatever happens elsewhere meanwhile |
| Migration.RunQueues.CountThreads | src/kern/thread/thread.c:877-887 | the counting loop |
| Migration.RunQueues.TakeVictims | src/kern/thread/thread.c:894-901 | the victims are the end of the own queue, in order |
| Migration.RunQueues.SendOne | src/kern/thread/thread.c:910-951 | one victim goes to the other CPU, or to the back if it is the current thread |
| Migration.RunQueues.Fill | src/kern/thread/thread.c:909-952 | one other queue is filled up to the share at most, in order, and its CPU interrupted if idle |
| Migration.RunQueues.Distribute | src/kern/thread/thread.c:903-954 | over all CPUs everything to be sent is sent |
| Migration.EnoughCapacity | src/kern/thread/thread.c:889-954 | the other queues together can take all that is above an even share |
| Migration.DivRoundUpIsDivision | src/kern/thread/thread.c:889 | the share is the quotient rounded up |
| Migration.FinishMigration | src/kern/thread/thread.c:956-969 | putting the rest back completes the picture below |
| Migration.RunQueues.ConsiderMigration | src/kern/thread/thread.c:868-971 | with otherwise unchanging queues: the multiset of threads is kept, the current thread stays, the own queue ends with DIVROUNDUP(total, CPUs) threads and one more exactly if the current thread was a victim, no other queue rises above its old length or the share, and exactly the idle receivers are interrupted |
| ThreadList.InsertAfterNode | src/kern/thread/threadlist.c:105-120 | four pointer writes insert into the chain |
| ThreadList.InsertBeforeNode | src/kern/thread/threadlist.c:125-140 | likewise before a node |
| ThreadList.Unlink | src/kern/thread/threadlist.c:145-157 | the neighbours close up and the node points nowhere |
| ThreadList.ThreadList.AddHead | src/kern/thread/threadlist.c:162-170 | refines prepending |
| ThreadList.ThreadList.AddTail | src/kern/thread/threadlist.c:172-180 | refines appending |
| ThreadList.ThreadList.RemHead | src/kern/thread/threadlist.c:182-198 | refines taking the first, null exactly when empty, the node unlinked |
| ThreadList.ThreadList.RemTail | src/kern/thread/threadlist.c:200-216 | refines taking the last |
| ThreadList.ThreadList.InsertAfter | src/kern/thread/threadlist.c:218-224 | refines insertion behind an element |
| ThreadList.ThreadList.InsertBefore | src/kern/thread/threadlist.c:226-232 | refines insertion before an element |
| ThreadList.ThreadList.Remove | src/kern/thread/threadlist.c:234-240 | refines deletion |
| ThreadList.ThreadList.IsEmpty | src/kern/thread/threadlist.c:91-97 | tl_count is zero exactly when the list is empty |
| ThreadList.ThreadList.Forward | src/kern/include/threadlist.h:94-97 | the forward walk visits the sequence |
| ThreadList.ThreadList.Backward | src/kern/include/threadlist.h:99-102 | the backward walk visits it reversed |
| ThreadList.WakeAll | src/kern/thread/thread.c:1068-1096 | all sleepers are made runnable in the order in which they went to sleep |
| Spl.Interrupts.SplRaise | src/kern/thread/spl.c:86-104 | interrupts go off on the first raise |
| Spl.Interrupts.SplLower | src/kern/thread/spl.c:106-124 | and on again on the last lower |
| Spl.Interrupts.Splx | src/kern/thread/spl.c:131-160 | changes the level and the count with it, returning the old level |
| Spl.KeepStep | src/kern/thread/thread.c:583-788 | every raise, lower, spinlock operation, fork and stage of a switch, early returns included, keeps the accounting |
| Spl.KeepIdle | src/kern/thread/thread.c:592-603 | thread_switch called in the idle loop leaves level, count and everything else as they were |
| Spl.AccountingTheorem | src/kern/thread/spl.c:60-160 | in every state of every run the count is the level plus the releases owed, interrupts are on exactly when it is zero and never with a spinlock held, and every switched-out or fresh thread has exactly two |
| Spl.SwitchTheorem | src/kern/thread/thread.c:592-772 | c_spinlocks is one at every switch, and the assertions of every release in thread_switch and thread_startup hold on whichever CPU the thread comes back |
| Spl.SpinlocksExclude | src/kern/thread/spinlock.c:74-134 | of two CPUs counted for a spinlock at most one has it |
| Spl.SplxTheorem | src/kern/thread/spl.c:131-160 | splx sets the level asked for, the count changes by the difference, and setting the old level again undoes it, as lowering undoes raising |
| Spl.CodeStepTheorem | src/kern/thread/spinlock.c:74-134 | what splx, acquiring, getting and releasing a spinlock do to the level, the count, c_spinlocks and the holder |
| Spl.SwitchStepTheorem | src/kern/thread/thread.c:592-749 | what each stage of thread_switch does: which spinlock comes or goes, how often the level is then counted, and that at the switch the outgoing thread keeps the level it is to restore and the incoming one brings its own |
| Spl.LevelTheorem | src/kern/thread/thread.c:592-749 | in every run a thread leaves thread_switch at the level it entered it with, on whichever CPU, and a forked thread starts at the low level |
| Semaphore.KeepStep | src/kern/thread/synch.c:89-136 | every step of P and V, one memory access at a time, keeps the invariant |
| Semaphore.SemaphoreTheorem | src/kern/thread/synch.c:89-136 | in every run the count is initial + V's - P's modulo 2^32, exactly so if and only if that sum is below 2^32, and sleepers are never left beside more units than threads on their way to look |
| Semaphore.QuiescentMeansEmpty | src/kern/thread/synch.c:104-119 | when everyone is asleep or elsewhere, a sleeper means a count of zero |
| Semaphore.AssertionsInside | src/kern/thread/synch.c:119-132 | the assertion in P never fails, the one in V holds if and only if the count was below 2^32 - 1 |
| Semaphore.AssertionFails | src/kern/thread/synch.c:124-136 | one V on a semaphore created with 2^32 - 1 fails it and leaves a count of zero |
| Semaphore.LockTheorem | src/kern/thread/synch.c:184-215 | when only holders release, lock_count plus holders is one in every run, hence mutual exclusion |
| Semaphore.CallTheorem | src/kern/thread/synch.c:89-136 | every P that returns has taken one unit, once, from a positive count; every V has added one and then taken the first sleeper, if any, off the channel to look again, once each; neither keeps the spinlock |
| Semaphore.CountTheorem | src/kern/thread/synch.c:89-136 | the count is the initial one plus the additions less the takings among the steps so far, modulo 2^32 |
| Semaphore.ChannelTheorem | src/kern/thread/thread.c:1021-1063 | sleepers queue up behind each other and only a V takes one off, the first |
| Semaphore.KeepLock | src/kern/thread/synch.c:201-225 | and lock_do_i_hold is true at every release |
| CondVar.KeepStep | src/kern/thread/synch.c:272-322 | every step of wait, signal and broadcast keeps the invariant |
| CondVar.NoWakeInGap | src/kern/thread/synch.c:272-290 | while a waiter has given up the lock and is not yet on the channel, it has cv_lock and nobody is at wchan_wakeone or wchan_wakeall |
| CondVar.QueuedBeforeAnyWake | src/kern/thread/synch.c:272-322 | between giving up the lock and any later wake the waiter has been on the channel |
| CondVar.WakersMissNobody | src/kern/thread/synch.c:292-322 | a waker finds on the channel exactly those who gave up the lock and have not been woken; signal wakes the longest waiting, broadcast all |
| CondVar.OneSpinlockAtSleep | src/kern/thread/thread.c:1021-1034 | whoever sleeps has the CV's spinlock and no other |
| CondVar.CountTheorem | src/kern/thread/synch.c:279-288 | cv_count is the number of threads between its increment and decrement |
| CondVar.WaitCallTheorem | src/kern/thread/synch.c:272-290 | cv_wait returns holding the lock, having given it up, then gone to the end of the channel, then been taken off it by a waker |
| CondVar.WakeCallTheorem | src/kern/thread/synch.c:292-322 | cv_signal and cv_broadcast return holding the lock, having given it up and then taken the first waiter, or all, off the channel, once |
| CondVar.LockCallTheorem | src/kern/thread/synch.c:184-225 | lock_acquire returns holding the lock, lock_release without it |
| RwLock.Lock.AcquireRead | src/kern/thread/synch.c:368-376 | the READ section: the reader goes in if and only if no writer is in and not both a writer waits and a reader is in. Its slot search is unbounded: the first free slot, or, when the table is full, the word behind it, which is writer_holder |
| RwLock.Lock.AcquireWrite | src/kern/thread/synch.c:377-386 | the WRITE section: the writer goes in if and only if nobody is in, and is counted as waiting until then |
| RwLock.Lock.ReleaseRead | src/kern/thread/synch.c:397-406 | the slot search of the READ release and whether it matched; without a match the word behind the table is cleared and the count decremented all the same |
| RwLock.Lock.ReleaseWrite | src/kern/thread/synch.c:407-410 | the WRITE release, and whether the holder matched |
| RwLock.KeepStep | src/kern/thread/synch.c:366-417 | every section, improper modes included, keeps the invariant |
| RwLock.ExclusionTheorem | src/kern/thread/synch.c:366-417 | in every run with matched releases a writer is alone, and reader_count is the number of readers and of occupied slots |
| RwLock.NobodySleepsNeedlessly | src/kern/thread/synch.c:370-381 | a reader sleeps only while a writer is in, or one waits and a reader is in; a writer only while somebody is in |
| RwLock.ReleasesMatch | src/kern/thread/synch.c:397-410 | the assertions of rwlock_release hold and the slot search of rwlock_acquire ends |
| RwLock.ReadersRise | src/kern/thread/synch.c:370-373 | with a writer waiting the reader count rises only from zero to one |
| RwLock.ReadersStayFew | src/kern/thread/synch.c:370-384 | so once at most one it stays so for as long as a writer waits |
| RwLock.ReadTestTheorem | src/kern/thread/synch.c:368-376 | at every test of a reader in every run: it is in afterwards if and only if no writer was in and not both a writer waited and a reader was in, in one slot that was free; otherwise it is last on the channel |
| RwLock.WriteTestTheorem | src/kern/thread/synch.c:377-386 | a writer is in afterwards if and only if nobody was, and no longer waiting; otherwise it is waiting and last on the channel |
| RwLock.ReleaseTheorem | src/kern/thread/synch.c:391-417 | a release takes its thread out, empties one slot of its CPU or the writer's place, and makes every sleeper test again; with an improper mode only the latter |
| RwLock.ReadersTogether | src/kern/thread/synch.c:368-376 | for every n up to 1000 a run with n readers inside at once |
| LockOrder.PathRanked | src/kern/thread/synch.c:272-322 | every path through the thread and synchronisation code takes spinlocks in rank order and ends with none |
| LockOrder.CvWaitRanked | src/kern/thread/synch.c:272-290 | in particular cv_wait, which nests three |
| LockOrder.NoWaitCycle | src/kern/thread/thread.c:1050-1063 | no state of any run has a circle of CPUs waiting for each other's spinlocks |
| LockOrder.NoDeadlock | src/kern/thread/thread.c:609-636 | while any CPU is inside such a path, some CPU can take its next step |
| LockOrder.WakeUnder | src/kern/thread/synch.c:124-136 | V, lock_release and rwlock_release take the run queue locks of those they wake under their own spinlock |
| LockOrder.CvWakeUnder | src/kern/thread/synch.c:292-322 | likewise cv_signal and cv_broadcast under cv_lock |
| LockOrder.SleepHandsOver | src/kern/thread/thread.c:609-636 | a sleeper lets go of the channel's spinlock only with its run queue lock in hand |
| LockOrder.CvWaitHandsOver | src/kern/thread/synch.c:272-290 | so does cv_wait, which also releases the lock under cv_lock |
| Kmalloc.KeepStep | src/kern/vm/kmalloc.c:219-1231 | every section and every call of the page allocator keeps the invariant, however calls interleave |
| Kmalloc.PartitionTheorem | src/kern/vm/kmalloc.c:875-1157 | in every run the blocks of a heap page are its free list, as linked in memory, without repetition and nfree long, and its live blocks, of which there is at least one |
| Kmalloc.LiveBlocksTheorem | src/kern/vm/kmalloc.c:875-1019 | live subpage blocks are disjoint, aligned, on a page not given back and at least as large as asked for |
| Kmalloc.BigTheorem | src/kern/vm/kmalloc.c:1182-1204 | in every state of every run a multi-page allocation is disjoint from every other and from every heap page, covers the size asked for with less than a page more, and that size is at most 2^32 - 4096 |
| Kmalloc.BigRequest | src/kern/vm/kmalloc.c:1182-1204 | a request that is not refused brings such an allocation if and only if the size is at most 2^32 - 4096; otherwise an address is returned and no page taken |
| Kmalloc.RoundedEnough | src/kern/vm/kmalloc.c:1187-1189 | the pages asked for cover the size with less than a page more, if and only if the size is at most 2^32 - 4096; otherwise none are asked for |
| Kmalloc.RoundedFails | src/kern/vm/kmalloc.c:1187-1189 | at 2^32 - 4095 none are asked for |
| Kmalloc.HollowOverlaps | src/kern/vm/kmalloc.c:1182-1204 | a run in which that request gets the address of a page and the next subpage allocation, of any size, a live block on it |
| Kmalloc.FrameTheorem | src/kern/vm/kmalloc.c:999-1135 | free-list links and deadbeef fills never touch a live subpage block |
| Kmalloc.BigFrameTheorem | src/kern/vm/kmalloc.c:999-1135 | nor a multi-page allocation |
| Kmalloc.FreshBlockTheorem | src/kern/vm/kmalloc.c:921-954 | an address handed out is not live already |
| Kmalloc.PageReturnTheorem | src/kern/vm/kmalloc.c:1134-1148 | a page goes back to the page allocator only when no block on it is live |
| Kmalloc.LastBlock | src/kern/vm/kmalloc.c:1135-1145 | a page leaves the lists only when the block being freed was its only live one |
| Kmalloc.AllFree | src/kern/vm/kmalloc.c:1135-1138 | nfree reaches the number of blocks exactly when no block is live |
| Kmalloc.DoallocTheorem | src/kern/vm/kmalloc.c:923-943 | the assertions of doalloc in every run: offset and link are on the page, and nfree is left positive exactly when there is a link |
| Kmalloc.FreshDoalloc | src/kern/vm/kmalloc.c:999-1009 | likewise on a page just set up, where no block links to itself and the list starts at the last block |
| Kmalloc.KfreeTheorem | src/kern/vm/kmalloc.c:1077-1135 | the assertions of subpage_kfree and kfree in every run: a live pointer is at a block's start, is not the head of its free list, and nfree does not exceed the block count; any other is page-aligned |
| Kmalloc.FreeDispatch | src/kern/vm/kmalloc.c:1219-1231 | kfree finds a subpage pointer on its own page and a multi-page pointer on none |
| Kmalloc.ListsTheorem | src/kern/vm/kmalloc.c:341-347 | allbase is exactly the disjoint union of the sizebases lists |
| Kmalloc.PagerefTheorem | src/kern/vm/kmalloc.c:219-299 | no pageref is handed out while on the lists or with another call, although the lock is dropped in the middle |
| Kmalloc.FreepagerefTheorem | src/kern/vm/kmalloc.c:304-337 | whenever kfree gives a pageref up: its bit is set, no other page holds its address, and the assertion about roots without a page holds if and only if there is none below |
| Kmalloc.FreepagerefAssertionFails | src/kern/vm/kmalloc.c:314-321 | for any size, a run without a failed allocation in which the search passes a root with no page and 256 pagerefs in use |
| Kmalloc.RootsAfterRef | src/kern/vm/kmalloc.c:266-290 | taking the first unused pageref keeps it so that a root without a page, below one with a used pageref, is full |
| Kmalloc.FreshThreaded | src/kern/vm/kmalloc.c:990-1009 | the loop over a fresh page builds a free list of all its blocks |
| Kmalloc.Packed | src/kern/vm/kmalloc.c:157-159 | page address and block type can be taken out of the word they are packed in |
| Allocations.MallocTheorem | src/kern/vm/kmalloc.c:904-954 | at every request of every run: if some page of the smallest fitting size has a free block, the call is over, exactly one block has become live, the first free one of the first such page, for the size asked, and that page's nfree is one less; otherwise nothing has become live and the call goes for a page |
| Allocations.PageStepTheorem | src/kern/vm/kmalloc.c:956-975 | without a heap page the call is over with nothing; with one it goes on; the answer for a root's page is kept |
| Allocations.PagerefStepTheorem | src/kern/vm/kmalloc.c:979-986 | at the first unused pageref the call ends with its block if the root has its page, else goes for that page; with none left it gives its page back |
| Allocations.RootStepTheorem | src/kern/vm/kmalloc.c:221-252 | back under the lock the call ends with its block, unless there is still no page for the root, and a second page for it is given back before |
| Allocations.ReturnStepTheorem | src/kern/vm/kmalloc.c:241-249 | the second page is not in use afterwards, nor the page of a call that gave up |
| Allocations.KmallocCallTheorem | src/kern/vm/kmalloc.c:876-1019 | from call to return, however threads interleave: a request not served at once brings nothing until it returns, and then exactly one new block for the size asked, or nothing, when there was no page for it |
| Allocations.FreeTheorem | src/kern/vm/kmalloc.c:1027-1157 | freeing a live pointer ends that block and no other and fills it but for its link; the page has one more free block, first on its list, unless it was the last, and then the pageref is off the lists and unused and the call has the page to give back |
| Allocations.BigFreeTheorem | src/kern/vm/kmalloc.c:1220-1231 | freeing a multi-page allocation ends it alone and gives back its pages |
| Allocations.OtherStepTheorem | src/kern/vm/kmalloc.c:1182-1204 | a multi-page request that is refused changes nothing; otherwise exactly its pages are taken |
| Subpages.FindBlockType | src/kern/vm/kmalloc.c:852-868 | the smallest block type that fits |
| Subpages.Allocator.Pop | src/kern/vm/kmalloc.c:923-943 | taking the first free block is the machine's step |
| Subpages.Allocator.TryMalloc | src/kern/vm/kmalloc.c:904-954 | the search of the size list finds the first page with a free block and takes from it |
| Subpages.Allocator.ThreadPage | src/kern/vm/kmalloc.c:999-1007 | the loop threading a fresh page |
| Subpages.Allocator.SetUp | src/kern/vm/kmalloc.c:990-1015 | a fresh page joins both lists |
| Subpages.Allocator.FillDeadbeef | src/kern/vm/kmalloc.c:44-54 | fills its words and nothing else |
| Subpages.Allocator.Kfree | src/kern/vm/kmalloc.c:1025-1157 | subpage_kfree is the machine's step: not found, inside a block (panic), page emptied or not |
| Subpages.Allocator.Drop | src/kern/vm/kmalloc.c:823-846 | unlinks one pageref from a list |
| Subpages.TryMallocIsStep | src/kern/vm/kmalloc.c:904-954 | whenever a client may call, that section can run and leaves the heap of the machine's step; the pointer it returns is live then and was not before |
| Subpages.SetUpIsStep | src/kern/vm/kmalloc.c:990-1019 | so does setting up a page and taking its first block |
| Subpages.KfreeIsStep | src/kern/vm/kmalloc.c:1027-1157 | so does subpage_kfree, which then does not panic, and asks for a page to be given back exactly if the machine's call has it |
| Pagerefs.SetBit | src/kern/vm/kmalloc.c:281-283 | or-ing in a clear bit adds one to the population |
| Pagerefs.ClearBit | src/kern/vm/kmalloc.c:328-330 | and-ing with the complement clears the bit |
| Pagerefs.FirstClear | src/kern/vm/kmalloc.c:280-293 | the shifting loop finds the lowest clear bit of a word that is not full; the assertion behind it is not reached |
| Pagerefs.PickRoot | src/kern/vm/kmalloc.c:266-270 | a root is skipped only if all of its pagerefs are in use |
| Pagerefs.Root.Alloc | src/kern/vm/kmalloc.c:275-290 | marks the first free pageref and no other; numinuse stays the population of the bitmap |
| Pagerefs.Root.Free | src/kern/vm/kmalloc.c:325-333 | unmarks it, likewise |
| Pagerefs.PopulationCounts | src/kern/vm/kmalloc.c:195-199 | the population numinuse keeps is the number of pagerefs marked |
| Pagerefs.AllocRef | src/kern/vm/kmalloc.c:266-290 | the search over roots, words and bits marks the lowest unused pageref of all, the one the machine takes; it gives up only when all are in use |
| Pagerefs.FindRoot | src/kern/vm/kmalloc.c:314-324 | freepageref's search stops at the root whose page holds the address, and whether its assertion held on the way |
| Pagerefs.FreeRef | src/kern/vm/kmalloc.c:304-337 | unmarks exactly that pageref, and the assertion held exactly as the machine says |
| Printf.NumberFits | src/common/libc/printf/__printf.c:76-84 | any 64-bit number in base 8, 10 or 16 fits NUMBER_BUF_SIZE with its NUL |
| Printf.Convert | src/common/libc/printf/__printf.c:425-462 | the loop writes the digits from the end of the buffer and never before its start |
| Printf.Snp.Send | src/common/libc/printf/snprintf.c:73-93 | keeps the longest prefix that fits and writes nothing behind it |
| Printf.Pf.Modifier | src/common/libc/printf/__printf.c:180-233 | one modifier character, a leading zero told from a zero in the width |
| Printf.Pf.GetNum | src/common/libc/printf/__printf.c:240-311 | the magnitude and sign of an argument of each size, the least number included |
| Printf.Pf.PrintStuff | src/common/libc/printf/__printf.c:366-404 | padding goes where the flags say |
| Printf.Pf.PrintNum | src/common/libc/printf/__printf.c:414-491 | sign, base prefix and digits in a field |
| Printf.Pf.Send | src/common/libc/printf/__printf.c:496-563 | one character of the format: what is printed, the next state, the argument taken |
| Printf.VPrintf | src/common/libc/printf/__printf.c:570-592 | a whole format sends exactly its output and counts it |
| Printf.VSnprintf | src/common/libc/printf/snprintf.c:98-142 | for any length: the (len - 1)-prefix of the output and a NUL, nothing else touched, the full length returned, section 7.19.6.5 of ISO C99 |
| Formats.DigitsTheorem | src/common/libc/printf/__printf.c:425-462 | for every base from 2 to 16 the digits printed are characters 0 to 9 and a to f of values below the base, by position they have the number's value, and zero is not in front of another number |
| Formats.NumeralTheorem | src/common/libc/printf/__printf.c:425-462 | and no other string is such a numeral of that value |
| Formats.ModifiersTheorem | src/common/libc/printf/__printf.c:168-233 | for every string of modifiers: the width is the number its digits spell, zeros fill if they begin with one, # and - count wherever they are, and the l's after the last z choose between long and long long |
| Formats.NumberShows | src/common/libc/printf/__printf.c:240-349 | %d, %u, %o, %x and %p under any modifiers show the argument, signed or not, of its size, in base 10, 10, 8, 16 and 16, with the sign and with 0 or 0x in front where # or p asks for it |
| Formats.FieldShows | src/common/libc/printf/__printf.c:366-404 | any conversion: what it stands for, filled to the width behind, in front, or between prefix and body; %s and %c with NULL and NUL; other letters themselves |
| Formats.Pieces | src/common/libc/printf/__printf.c:496-563 | every format is plain text and conversions, and perhaps an unfinished conversion at its end |
| Formats.FormatTheorem | src/common/libc/printf/__printf.c:496-592 | the output of every format is that of its pieces in order, each conversion with the next argument, and of an unfinished one nothing |
| Atoi.Parsed | src/common/libc/stdlib/atoi.c:49-101 | atoi, blanks, sign, digits and 32-bit wrap-around, against its specification |
| Atoi.ParseShape | src/common/libc/stdlib/atoi.c:56-100 | blanks, a sign, digits and anything else are read as the decimal value modulo 2^32, section 7.20.1.2 of ISO C99 |
| Atoi.ParseTheorem | src/common/libc/stdlib/atoi.c:56-100 | of every string, read as spaces and tabs, -, + or no sign, digits and the rest, atoi is the int congruent modulo 2^32 to the number the digits spell, negated after -; 0 without digits |
| Atoi.EveryString | src/common/libc/stdlib/atoi.c:56-100 | every string can be so read |
| Atoi.ZerosMatter | src/common/libc/printf/__printf.c:400-403 | zeros behind a number that is not zero always change the int that is read |
| Atoi.RoundTrip | src/common/libc/printf/__printf.c:366-404 | for every int and every string of modifiers, atoi of snprintf's %d is the number if and only if not both - and 0 were given with a field wider than a number that is not zero |
| Atoi.RoundTripFails | src/common/libc/printf/__printf.c:400-403 | %-05d prints 7 as 70000, which atoi reads as 70000 |
| Uio.MoveChunk | src/kern/lib/uio.c:83-115 | one copy, in either direction, user or kernel, and the cursor's advance |
| Uio.Move | src/kern/lib/uio.c:41-119 | for every uio: the bytes that the loop comes to, in order across any split into buffers, with the buffers, the 32-bit uio_resid, the offset and the panic it ends with; a fault exactly when an address it would touch is bad |
| Uio.RunRest | src/kern/lib/uio.c:58-116 | the buffers left are exactly the addresses not yet visited, and uio_resid has gone down by the bytes moved, modulo 2^32 |
| Uio.RunExact | src/kern/lib/uio.c:58-116 | min(n, uio_resid) bytes are moved if a buffer ends at uio_resid, else min(n, total); the call panics if and only if no buffer ends there and n is more than the total |
| Uio.TransferExact | src/kern/lib/uio.c:58-116 | min(n, uio_resid) bytes are moved if and only if n is at most uio_resid or a buffer ends there, and never fewer |
| Uio.TransferPast | src/kern/lib/uio.c:58-116 | five bytes of buffer and a uio_resid of three: a request for five moves five, one for ten moves five and panics |
| Uio.MoveMore | src/kern/lib/uio.c:58-116 | moving k bytes and then more is moving all of them |
| Uio.MoveCompose | src/kern/lib/uio.c:41-119 | moving a and then b is moving a followed by b, also past the end of the buffers |
| Uio.StoreThenLoad | src/kern/lib/uio.c:82-104 | data moved out to buffers that do not overlap is read back unchanged |
| Uio.TargetsTheorem | src/kern/lib/uio.c:58-80 | byte i of buffer j comes after all bytes of the buffers before it |
| Uio.MovedTheorem | src/kern/lib/uio.c:82-104 | moving in, byte i of the kernel's stretch becomes the one at the i-th address; moving out, the i-th address gets byte i, unless a later address is the same; nothing else changes |
| Uio.MoveZeros | src/kern/lib/uio.c:121-145 | for every uio, calls for sixteen zeros at a time have the effect of one move of as many zeros as they come to, with their faults and panics |
| Uio.ZerosExact | src/kern/lib/uio.c:121-145 | they come to min(n, uio_resid) if a buffer ends at uio_resid or it is a multiple of sixteen within the buffers, else min(n, total), and panic exactly in the latter case for n above the total |
| Uio.Cursor.constructor | src/kern/lib/uio.c:151-164 | uio_kinit sets up a cursor over one kernel buffer |

## Left out

- Semaphore: the calls' check that they are not made in an interrupt handler, and creation and destruction.
- RwLock: steps are whole sections under rwlock_lock, not single accesses; at most 1000 readers at a time are demanded in the run theorems, and the slot table starts empty.
- RwLock.Lock.AcquireRead: a reader who finds writer_holder taken too, and would search further through memory, is excluded.
- CondVar: waiting inside lock_acquire is one step here; module Semaphore takes it apart.
- Scheduler: stack-guard checks, process attachment, address-space activation and failures of thread_fork before the thread is queued; a wakeup's choice of channel and lock is a parameter of the step.
- Spl: code before the first CPU exists, where the calls do nothing; spinlocks taken by interrupt handlers in the idle loop; that a thread entering thread_switch to sleep has no spinlock but the channel's is demanded of callers, and proved of cv_wait in CondVar.
- LockOrder: the paths are listed by hand from the source; spinlocks of other subsystems are not ranked, and interrupt handlers that take spinlocks in the idle loop are not steps.
- Kmalloc: memory of a fresh page is as it was (the deadbeef fill of fresh pages is off by default); guard bands, labels and the slow checks, all off by default; that an address returned with no page behind it is neither freed nor written through is demanded of clients; the bit of a pageref whose page could not be allocated stays set, as in the source, so bits in use can exceed pagerefs in use.
- Kmalloc.KeepStep: has the pageref bitmaps as a set; Pagerefs proves that the words are that set.
- Subpages: page lists are sequences, so links between pageref structures are not modelled.
- Uio.Move: the kernel's buffer and the memory of the iovecs are separate arrays, so overlapping memmove is not modelled; a uio with no buffer at all but a uio_resid above zero, where the source reads past its array, is excluded; offsets do not overflow.
- Printf: arguments are read from an unending list, so a missing argument is not modelled; field widths do not overflow an int; other output functions than snprintf's.
- bswap64 and TLB shootdown queueing: not modelled.
- vfs_biglock and lock_do_i_hold as statements about threads: the recorded holder is a CPU, so two threads of one CPU pass the test; that releases are made by the acquiring thread on its CPU is demanded instead.
- The rest of the VFS layer, address spaces, program loading, consoles and boot: mostly calls into drivers and other parts that would have to be parameters.
- Thread panic and shutdown, and liveness (that a woken thread eventually runs): not modelled.
