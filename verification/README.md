# htsynch: verified models of the synchronisation primitives

A Dafny 4.11 project that models the hyper-threading synchronisation primitives of this repository
and proves what they guarantee. Every protocol is a state machine whose steps are single
instructions of single threads; every theorem is about every schedule. `dafny verify dfyconfig.toml`
checks everything.

| file | what it models |
|---|---|
| `Traces.dfy`, `Options.dfy`, `Division.dfy` | runs under a schedule, invariants, liveness under weak fairness, run bounds, counting and summing over threads; optional values; remainders |
| `Monitor.dfy` | the MONITOR/MWAIT sleep call, one sleeper with any number of notifiers, and the disabled version without the inner check |
| `SpinLocks.dfy` | the decrement and exchange spin locks, for any number of threads |
| `BarrierSpec.dfy` | what a barrier may do, independent of its construction; all three barriers refine it |
| `MwaitBarrier.dfy`, `MwaitBarrierSafety.dfy`, `MwaitBarrierLiveness.dfy`, `MwaitBarrierLimit.dfy`, `MwaitBarrierRounds.dfy`, `MwaitBarrierObject.dfy` | the MWAIT barrier: code and invariant, what it keeps and when its calls return for any number of threads, why it is for two, what single instructions do and a round takes, and the object updated in place |
| `TwoPackages.dfy` | two MWAIT barriers on one shared page, four threads |
| `LockedBarrier.dfy` | the sense-reversing barrier that counts under a lock |
| `LockFreeBarrier.dfy`, `LockFreeBarrierProgress.dfy` | the sense-reversing barrier that increments atomically and reads again: safe, and exactly when it deadlocks |
| `Alignment.dfy`, `KmemMapper.dfy` | rounding addresses up, and the driver's page, cells and page flags |
| `Timers.dfy` | the two-limb cycle timer against the 64-bit one |

## How the model is built

- Each protocol has a `State`, a function `Next` that executes one instruction, and a class with the
  shared words as fields, whose `Step` is proved to do in place what `Next` does. The theorems are
  about `Next` and about runs of it.
- Memory is sequentially consistent and a read always sees the last write; one instruction is one
  atomic action. A plain `++x` is a read and a separate write. `local_irq_disable`, `monitor` and
  `local_irq_enable` are one action.
- A CPU's monitor is a latch: `monitor` arms it, a store to the same 64-byte line or an interrupt
  fires it, `mwait` blocks only while it is armed. Interrupts may come at any moment and without
  bound, so every spurious wake-up is covered. A store also fires the storing CPU's own latch, which
  is rearmed before it is used again.
- Threads make `calls` calls each, for every value of `calls`; a barrier is initialised for as many
  threads as use it. `arrived` and `passed` count a thread's arrivals and completed calls. They and
  the other counters (`rounds`, `wins`, `notifies`, `resets`, `merged`, `fails`) are bookkeeping
  that no instruction reads.
- Lock words are signed 32-bit and wrap; `gathered` is unsigned 32-bit and wraps; timer limbs are
  32-bit words. The sense barriers' counter is an unbounded integer, and is proved to stay between
  0 and the number of threads.

## Where the code falls short of a barrier's promise

- **The MWAIT barrier is for two threads.** With more it still releases nobody early, but the first
  sleeper to wake can reset the cell before another looks, and the lock is then never released.
  `CanFinishIffNotStranded` says from which reachable states all calls can still return, and
  `AtMostTwoThreads` that all reachable states can if and only if there are at most two threads (or
  no calls).
- **The lock-free sense barrier can deadlock when it is reused.** Two threads can both read a full
  counter, and the second reset can erase an arrival of the next round. It never releases a thread
  early. `CanFinishIffLive` says from which reachable states it can still finish, and
  `DeadlockFreeIffSingleUse` that all reachable states can if and only if there is at most one
  thread or at most one call.
- **The disabled sleep loop loses wake-ups**, exactly because it lacks the check between `monitor`
  and `mwait`: `LostWakeupIffUnchecked`.
- **The decrement locks count their failed attempts in a 32-bit word.** They exclude, and behave like
  a mutex, if and only if at most 2^31 + 1 threads use them: `LockExcludesIffFits`,
  `LockIsMutexIffFits`. What is stated of the MWAIT barrier, whose lock is one of them, is for so many
  threads; `mwait_barrier_init` takes the number as a signed int, which is less.
- **The spin locks starve.** Under a fair schedule somebody acquires the lock again and again
  (`SomebodyAcquires`), but everybody does, under every fair schedule, if and only if at most one
  thread uses it: `NobodyStarvesIffAlone`.
- **Unloading the driver clears the flag of its page**, also if the page was reserved before:
  `LoadThenUnload`.

## Model

| member | source | states |
|---|---|---|
| OneSleeper.LostWakeupIffUnchecked | mwmon-2.6.24.2-twopackages.patch:282-304 | a sleeper that is notified and yet blocked with its monitor armed is reachable, over all interleavings of stores, interrupts and instructions, if and only if the check between `monitor` and `mwait` is missing |
| OneSleeper.NotifiedBeforeArming | mwmon-2.6.13.1-twopackages.patch:423-450 | from every state about to arm, a notification that comes just before strands the sleeper without the inner check, and takes it to the reset with the check |
| OneSleeper.UncheckedStrands | mwmon-2.6.13.1-twopackages.patch:423-450 | the disabled loop can reach the stranded state |
| OneSleeper.StrandedStays | mwmon-2.6.13.1-twopackages.patch:423-450 | a sleeper so stranded makes no progress however often it runs, unless another store or an interrupt comes |
| OneSleeper.MonitorBeforeMwait | mwmon-2.6.24.2-twopackages.patch:285-297 | along every run of both variants, a sleeper about to execute `mwait` or stopped in it has executed `monitor` since its last `mwait`, which uses it up; outside the call its monitor is not armed |
| OneSleeper.WokenIff | mwmon-2.6.24.2-twopackages.patch:296-297 | a stopped sleeper goes on to the test of the cell if and only if a store or an interrupt has come in the meantime |
| OneSleeper.SpuriousWakeSleepsAgain | mwmon-2.6.24.2-twopackages.patch:285-297 | woken by an interrupt and not notified, a sleeper sets up its monitor and stops again without returning |
| OneSleeper.CallStops | mwmon-2.6.24.2-twopackages.patch:285-297 | a call that finds the cell not notified stops at its fourth instruction, with its monitor armed |
| OneSleeper.CallConsumesPending | mwmon-2.6.13.1-twopackages.patch:423-478 | a call that finds a notification resets the cell and returns without stopping, the disabled version without executing `monitor` |
| OneSleeper.NotificationsBalance | mwmon-2.6.13.1-twopackages.patch:454-487 | along every run, notifications equal sleep returns plus merged notifications plus the pending one, and only a notified sleeper is about to reset the cell |
| OneSleeper.ReturnsNeedNotifications | mwmon-2.6.13.1-twopackages.patch:454-487 | over any stretch of any run, returns are at most the notifications of that stretch plus the one pending at its start |
| OneSleeper.NotifiedSleeperReturns | mwmon-2.6.24.2-twopackages.patch:282-304 | once notified, a sleeper returns within three of its own instructions, whatever stores and interrupts intervene |
| OneSleeper.SleepCell.StepSleeper | mwmon-2.6.13.1-twopackages.patch:454-478 | one instruction of the sleep call, in place |
| OneSleeper.SleepCell.Notify | mwmon-2.6.13.1-twopackages.patch:480-487 | the notifier's store sets the cell and fires an armed monitor |
| OneSleeper.SleepCell.Execute | mwmon-2.6.13.1-twopackages.patch:454-487 | any interleaving run in place keeps the balance of notifications |
| SpinLocks.Dec32IsDecl | mwait_barrier/synch.h:48-97 | the modelled decrement is subtraction modulo 2^32 on signed words; the zero test and the sign test are those of its result |
| SpinLocks.LoopTestIsAttempt | mwait_barrier/synch.h:48-141 | an exchange acquires on the free word only; each spin loop is left for exactly the words an attempt would acquire, as far as a lock within its bound holds them |
| SpinLocks.StepIsMutexStep | mwait_barrier/synch.h:48-141 | every instruction of every lock form is a step of one abstract mutex on the threads' program points, and keeps the word's meaning |
| SpinLocks.FreeLockInTwo | mwait_barrier/synch.h:48-141 | a thread that finds the lock free acquires it with one attempt, and releasing it leaves all as it was |
| SpinLocks.TakenLockOnce | mwait_barrier/synch.h:48-141 | a thread that finds the lock taken makes one attempt, which lowers a decrement lock's word by one, and then only looks for as long as it is taken |
| SpinLocks.LockIsMutexIffFits | kernel_monitor_user_notification_with_mmap/spin.c:51-130 | a lock form behaves as the abstract mutex under every schedule if and only if it is an exchange lock or is used by at most 2^31 + 1 threads |
| SpinLocks.CrowdBreaksMutex | mwait_barrier/synch.h:48-97 | with more threads than that, one schedule wraps the word to 2^31 - 1 while thread 0 is inside, which lets the spinners out of their loop, and one brings a second thread inside, for the zero test as for the sign test |
| SpinLocks.LockExcludesIffFits | mwait_barrier/synch.h:48-141 | a lock form never lets two threads inside, under every schedule, if and only if it is an exchange lock or is used by at most 2^31 + 1 threads |
| SpinLocks.ExclusionAndWord | mwait_barrier/synch.h:64-97 | at most one holder; the word is the free value exactly when there is none; while held, a decrement lock's word is minus the failed attempts of this hold, fewer than the threads |
| SpinLocks.SignTestIsZeroTest | mwait_barrier/synch.h:48-97 | the sign test and the zero test give the same run under every schedule |
| SpinLocks.AnyoneCanAcquire | kernel_monitor_user_notification_with_mmap/spin.c:51-130 | no reachable state is stuck: from each, every thread can still acquire the lock |
| SpinLocks.SomebodyAcquires | mwait_barrier/synch.h:48-141 | for every form, under every schedule fair to the threads and from any time on, a later step acquires the lock |
| SpinLocks.NobodyStarvesIffAlone | mwait_barrier/synch.h:48-141 | for every form and number of threads: every thread acquires the lock again and again under every fair schedule if and only if there is at most one thread |
| SpinLocks.FairnessMayStarve | mwait_barrier/synch.h:48-141 | for every number of threads from two on, a schedule fair to all of them under which only thread 0 ever acquires the lock |
| SpinLocks.SpinLock.Step | mwait_barrier/synch.h:81-97 | one instruction of a thread that locks and unlocks, in place |
| SpinLocks.SpinLock.Execute | mwait_barrier/synch.h:48-97 | any schedule in place is the run of `Next`, with at most one thread inside |
| BarrierSpec.RunsStayInStep | mwait_barrier/synch.h:229-286 | along every run the barrier specification allows, completed calls differ by at most one and nobody completes a call that somebody has not begun; the `NoEarlyReturn` of all three barriers comes from it |
| BarrierSpec.TraceIsRun | mwait_barrier/synch.h:229-286 | a protocol whose every step from an invariant state is one the specification allows has only runs of the specification |
| MwaitBarrier.InvStep | mwait_barrier/mwait_barrier.c:37-87 | for any number of threads the lock word can count, every instruction and interrupt keeps the lock exclusive or left to the last leaver, `gathered` equal to the threads that are in, and the cell notified from the notification to the first reset |
| MwaitBarrierSafety.NoEarlyReturn | mwait_barrier/mwait_barrier.c:37-87 | for so many threads, any calls and any schedule: no thread returns from call k before all have arrived in call k, and completed calls differ by at most one |
| MwaitBarrierSafety.RunRefinesSpec | mwait_barrier/mwait_barrier.c:37-87 | what every run shows of its arrivals and returns is a run of the barrier specification |
| MwaitBarrierSafety.LockIsHandedOver | mwait_barrier/mwait_barrier.c:42-85 | as long as somebody is inside a call that all have entered, the lock is taken, every attempt at it fails, and no step but the last leaver's unlock frees it or ends that time; then every thread has completed the round |
| MwaitBarrierSafety.OneWinnerPerRound | mwait_barrier/mwait_barrier.c:83-85 | `atomic_dec_and_test` has been true exactly once per round completed by all or about to be unlocked, and one thread at most is about to unlock |
| MwaitBarrierSafety.IncrementIsUndisturbed | mwait_barrier/mwait_barrier.c:46-83 | the plain increment overlaps no other access that writes `gathered`, so it adds exactly one, and the decrement never wraps |
| MwaitBarrierSafety.NotificationsStayInRound | mwait_barrier/mwait_barrier.c:59-72 | a free lock finds every round so far with one notification and one reset by each other thread, and the cell at its original value if and only if there are two threads or more or no round yet; a notified cell means that the present round has had no reset |
| MwaitBarrierLiveness.MeasureStep | mwait_barrier/mwait_barrier.c:37-87 | no event, spurious wake-ups included, takes the system further from completing all calls, and exactly the instructions of threads that neither spin in vain nor sleep un-notified take it closer |
| MwaitBarrierLiveness.FineStep | mwmon-2.6.24.2-twopackages.patch:282-304 | every instruction of any thread, also of a sleeper not notified, changes nothing at all or lowers a measure, which an interrupt raises by at most 5 |
| MwaitBarrierLiveness.RunsAreShort | mwait_barrier/test_barriers.c:100-156 | any run, fair or not, has at most n(c+1)(6n+50)(6n+1) instructions that change anything, and 5 more with each interrupt, for n threads and c calls |
| MwaitBarrierLiveness.SomeThreadAdvances | mwait_barrier/mwait_barrier.c:37-87 | no reachable unfinished state is stuck, unless a sleeper is stranded |
| MwaitBarrierLiveness.CanFinishIffNotStranded | mwait_barrier/mwait_barrier.c:59-85 | from a reachable state of n threads all calls can still return if and only if no sleeper has missed a notification that another consumed |
| MwaitBarrierLiveness.StrandedForever | mwait_barrier/mwait_barrier.c:72-85 | once a sleeper has missed it, no schedule completes the calls |
| MwaitBarrierLiveness.TwoAreNotStranded | mwait_barrier/mwait_barrier.c:16-24 | with at most two threads no sleeper misses a notification |
| MwaitBarrierLiveness.EveryFairRunSettles | mwait_barrier/mwait_barrier.c:37-87 | for n threads, every schedule that runs each again and again, with any interrupts, completes all calls or strands a sleeper |
| MwaitBarrierLiveness.EveryFairRunFinishes | mwait_barrier/test_barriers.c:100-156 | for two threads, under every such schedule, all calls return |
| MwaitBarrierLimit.AtMostTwoThreads | mwait_barrier/mwait_barrier.c:16-24 | every reachable state can complete all calls if and only if there are at most two threads or no calls |
| MwaitBarrierLimit.OneResetStrands | mwait_barrier/mwait_barrier.c:59-72 | for every number of threads from three on, a schedule strands a sleeper |
| MwaitBarrierObject.Barrier.constructor | mwait_barrier/mwait_barrier.c:26-32 | the initial object, with a free lock and nobody gathered |
| MwaitBarrierObject.Barrier.AtomicDecAndTest | mwait_barrier/synch.h:19-28 | decrements the unsigned word and reports whether it became zero |
| MwaitBarrierObject.Barrier.StepSleep | mwmon-2.6.24.2-twopackages.patch:282-304 | one instruction inside the sleep call, in place |
| MwaitBarrierObject.Barrier.Step | mwait_barrier/mwait_barrier.c:37-87 | one instruction of one thread, in place |
| MwaitBarrierObject.Barrier.Execute | mwait_barrier/mwait_barrier.c:37-87 | any schedule in place is the run of `Next`, keeps the invariant and releases nobody early |
| MwaitBarrierRounds.MonitorBeforeMwait | mwmon-2.6.24.2-twopackages.patch:285-297 | along every run of the barrier, a thread about to execute `mwait` or stopped in it has executed `monitor` since its last `mwait` |
| MwaitBarrierRounds.WokenIff | mwmon-2.6.24.2-twopackages.patch:296-297 | a stopped thread goes on to the test of the cell if and only if, in the meantime, its CPU has taken an interrupt or a thread has stored to the cell |
| MwaitBarrierRounds.AttemptDecrements | mwait_barrier/synch.h:81-97 | along every run an attempt at the lock lowers its word by one and succeeds exactly if it was 1; the spin loop only looks, and is left exactly if the word is 1 |
| MwaitBarrierRounds.OneWordAtATime | mwait_barrier/mwait_barrier.c:37-87 | no event changes two of the lock word, `gathered` and the cell |
| MwaitBarrierRounds.IncrementIsTwoAccesses | mwait_barrier/mwait_barrier.c:46 | apart from the atomic decrement no instruction both reads and writes `gathered` |
| MwaitBarrierRounds.WordWraps | mwait_barrier/synch.h:19-28 | the increment and the decrement of `gathered` wrap at 32 bits |
| MwaitBarrierRounds.RoundsInTurn | mwait_barrier/mwait_barrier.c:37-87 | one after the other, two threads complete every round in six, three, seven and five instructions: the first arrives, stops, the second notifies and returns, the first resets, unlocks and returns |
| MwaitBarrierRounds.AloneInEight | mwait_barrier/mwait_barrier.c:37-87 | a thread alone completes a call in exactly eight instructions |
| TwoPackages.RunProjects | mwait_barrier/mwait_barrier.c:37-143 | every run of the joint system projects to a run of each barrier alone, with the other package's stores to a shared line felt as spurious wake-ups; event for event when the cells are in different lines |
| TwoPackages.IndependentIffLineApart | kmem_mapper_module/kmem_mapper.c:191-192 | along all runs from the initialised barriers, stores of one package stay unseen by the other's monitors if and only if the cells are at least 64 bytes apart (or nobody calls) |
| TwoPackages.OneByteAtATime | mwait_barrier/mwait_barrier.c:59-115 | an action changes no byte of the page but its own package's cell |
| TwoPackages.DriverPageIsPlaced | kmem_mapper_module/kmem_mapper.c:191-192 | the page the driver prepares, wherever its block lies, meets the conditions of the joint results, and its two packages are independent |
| TwoPackages.NoEarlyReturnOnEither | mwait_barrier/mwait_barrier.c:93-143 | the two-thread guarantee holds for each package of the joint system, wherever in the page the second cell lies |
| TwoPackages.EveryFairJointRunFinishes | mwait_barrier/test_barriers_2packages.c:325-369 | under every schedule fair to the four threads all their calls return, wherever the second cell lies |
| LockedBarrier.InvStep | kernel_monitor_user_notification_with_mmap/spin.c:206-218 | every instruction keeps the lock exclusive, the counter equal to the open round's arrivals and every thread within one round |
| LockedBarrier.NoEarlyReturn | kernel_monitor_user_notification_with_mmap/spin.c:206-218 | for any threads, calls and schedule: nobody leaves round k before all have entered it, and all are within one round |
| LockedBarrier.CounterAndFlag | kernel_monitor_user_notification_with_mmap/spin.c:148-218 | while the lock is free the counter is the number of arrivals in the open round, which is not full; the flag is the sense of the last complete round |
| LockedBarrier.RunRefinesSpec | kernel_monitor_user_notification_with_mmap/spin.h:273-285 | what every run shows of its arrivals and returns is a run of the barrier specification |
| LockedBarrier.SenseAndRelease | kernel_monitor_user_notification_with_mmap/spin.c:206-218 | a thread turns its sense round before it takes the lock; the flag changes only under the lock, with the counter reset and everybody arrived |
| LockedBarrier.AttemptOrLook | kernel_monitor_user_notification_with_mmap/spin.c:51-84 | along every run an attempt leaves the lock taken and succeeds exactly if it was free; the spin loop only looks, and is left exactly when the lock is free |
| LockedBarrier.IncrementIsTwoAccesses | kernel_monitor_user_notification_with_mmap/spin.c:211 | no instruction both reads and writes the counter |
| LockedBarrier.FirstWaits | kernel_monitor_user_notification_with_mmap/spin.c:206-218 | with two threads, the first to arrive waits after exactly six instructions, the lock free again |
| LockedBarrier.SecondResets | kernel_monitor_user_notification_with_mmap/spin.c:206-218 | the second then has the counter full after five, and reset after six |
| LockedBarrier.BothReturn | kernel_monitor_user_notification_with_mmap/spin.c:206-218 | it releases the round with its seventh, still holding the lock, and returns at its ninth; the first returns at its next, and the barrier rests as before the round |
| LockedBarrier.MeasureStep | kernel_monitor_user_notification_with_mmap/spin.c:51-84 | every instruction either changes nothing or lowers a measure of the work left |
| LockedBarrier.SomeThreadAdvances | kernel_monitor_user_notification_with_mmap/spin.c:206-218 | no reachable unfinished state is stuck |
| LockedBarrier.EveryFairRunFinishes | kernel_monitor_user_notification_with_mmap/spin.c:206-218 | under every fair infinite schedule every call of every thread returns |
| LockedBarrier.RunsAreShort | kernel_monitor_user_notification_with_mmap/spin.c:51-84 | any run, fair or not, has at most n(c+1)(3n+50) steps that change anything, for n threads and c calls |
| LockedBarrier.SpinBarrier.constructor | kernel_monitor_user_notification_with_mmap/spin.c:148-159 | the initial barrier and senses |
| LockedBarrier.SpinBarrier.Step | kernel_monitor_user_notification_with_mmap/spin.c:206-218 | one instruction of one thread, in place |
| LockedBarrier.SpinBarrier.Execute | kernel_monitor_user_notification_with_mmap/spin.c:206-218 | any schedule in place is the run of `Next` and keeps the invariant |
| LockFreeBarrier.InvStep | mwait_barrier/synch.h:272-286 | every instruction keeps the counter within the open round's arrivals, lets only a full round be closed, and leaves a full counter somebody to notice it |
| LockFreeBarrier.NoEarlyReturn | mwait_barrier/synch.h:272-286 | for any threads, calls and schedule: no thread is released before all have arrived, in spite of the separate read |
| LockFreeBarrier.CounterAndFlag | mwait_barrier/synch.h:239-286 | the counter never exceeds the open round's arrivals; a late store of the flag changes nothing; a store that releases finds every thread arrived |
| LockFreeBarrier.RunRefinesSpec | mwait_barrier/synch.h:272-286 | what every run shows of its arrivals and returns is a run of the barrier specification |
| LockFreeBarrier.SenseAndRelease | mwait_barrier/synch.h:272-286 | a thread turns its sense round when it calls; a store that changes the flag finds the counter reset and everybody arrived |
| LockFreeBarrier.ResetIsSeparate | mwait_barrier/synch.h:281-283 | apart from the atomic increment no instruction both reads and writes the counter |
| LockFreeBarrier.FirstWaits | mwait_barrier/synch.h:272-286 | with two threads, the first to arrive waits after exactly three instructions |
| LockFreeBarrier.SecondReleases | mwait_barrier/synch.h:272-286 | the second resets the counter at its fourth, releases and returns at its fifth; the first returns at its next, and the barrier rests as before the round |
| LockFreeBarrier.SpinBarrier.constructor | mwait_barrier/synch.h:239-251 | the initial barrier and senses |
| LockFreeBarrier.SpinBarrier.Step | mwait_barrier/synch.h:272-286 | one instruction of one thread, in place |
| LockFreeBarrier.SpinBarrier.Execute | mwait_barrier/synch.h:272-286 | any schedule in place is the run of `Next` and keeps the invariant |
| LockFreeBarrierProgress.RunsAreShort | mwait_barrier/synch.h:272-286 | any run, fair or not, deadlocked or not, has at most 5nc steps that change anything, for n threads and c calls |
| LockFreeBarrierProgress.CanFinishIffLive | mwait_barrier/synch.h:281-285 | from a reachable state all calls can still complete if and only if no arrival of the open round has been erased by a late reset or is about to be |
| LockFreeBarrierProgress.DoomedStep | mwait_barrier/synch.h:281-285 | a lost arrival stays lost, and the round stays open for ever |
| LockFreeBarrierProgress.TwoReadersDoom | mwait_barrier/synch.h:276-285 | with two threads or more and two calls or more, a state with two threads past reading a full counter is reachable, and four steps of one of them leave the other with a late reset that dooms the next round |
| LockFreeBarrierProgress.DeadlockFreeIffSingleUse | mwait_barrier/synch.h:272-286 | every reachable state can complete all calls if and only if there is at most one thread or at most one call |
| LockFreeBarrierProgress.EveryFairRunSettles | mwait_barrier/synch.h:272-286 | every fair run completes all calls or loses an arrival |
| LockFreeBarrierProgress.EveryFairRunFinishesIfSingleUse | mwait_barrier/synch.h:272-286 | with one thread or one call, every fair run completes all calls |
| Alignment.AndBits | user_monitor_user_notification/thread_test_umon_unot.c:48 | the modelled `&` is the product bit by bit |
| Alignment.NotBits | user_monitor_user_notification/thread_test_umon_unot.c:48 | the modelled `~` turns every bit of the word |
| Alignment.SignExtendKeepsNumber | mwmon-2.6.13.1-twopackages.patch:391-404 | widening an int keeps the number it stands for |
| Alignment.AndMask | user_monitor_user_notification/thread_test_umon_unot.c:48 | anding with a mask of high bits subtracts the remainder by the power of two, for words of any width |
| Alignment.AlignUpIsLeastMultiple | user_monitor_user_notification/thread_test_umon_unot.c:48 | the rounding expression is the least multiple of the alignment at or above the address, for every power of two, if the addition stays in the address space |
| Alignment.AlignUpReachesIffFits | user_monitor_user_notification/thread_test_umon_unot.c:48 | the result is at or above the address if and only if the addition stays in the address space; otherwise it is 0 |
| Alignment.IntMaskIsWordMask | mwmon-2.6.13.1-twopackages.patch:391-404 | a mask computed from a signed int alignment and widened is the mask of full width |
| Alignment.AllocateAligned | mwmon-2.6.13.1-onepackageonly.patch:286-299 | allocation failure is passed on; otherwise the aligned block lies inside the size + alignment - 1 bytes allocated |
| KmemMapper.PagesAndLines | kmem_mapper_module/kmem_mapper.c:210-215 | a byte lies in the 4096-byte page and the 64-byte line it is numbered to |
| KmemMapper.PagesHoldArea | kmem_mapper_module/kmem_mapper.c:210-215 | the pages of the area are exactly those that hold one of its 4096 bytes |
| KmemMapper.LayoutIsSafe | kmem_mapper_module/kmem_mapper.c:177-230 | for every block address the page lies inside the block; the second cell, 512 bytes on, and the shared long, 128 bytes on, lie inside that page; they and the first cell are in three different 64-byte lines |
| KmemMapper.Driver.ResetBytes | kmem_mapper_module/kmem_mapper.c:69-72 | exactly the first ten bytes of each cell get the original value, every other byte keeps its own |
| KmemMapper.Driver.ReservePages | kmem_mapper_module/kmem_mapper.c:210-215 | reserves exactly the pages of the area |
| KmemMapper.Driver.ReleasePages | kmem_mapper_module/kmem_mapper.c:247-251 | releases exactly the pages of the area |
| KmemMapper.Driver.Init | kmem_mapper_module/kmem_mapper.c:177-238 | a refused allocation returns -1 and changes nothing, the pointers included; otherwise the pointers, the bytes and the page flags are set, and both cells hold the original value |
| KmemMapper.Driver.LoadThenUnload | kmem_mapper_module/kmem_mapper.c:210-251 | a refused load changes nothing; a load and unload leave the page flags as they were if and only if the page was not reserved before, and otherwise clear its flag |
| Timers.SubBorrowValue | mwait_barrier/btimer_rdtsc32.h:76-77 | subtract and subtract-with-borrow compute the difference modulo 2^64 |
| Timers.AddCarryValue | mwait_barrier/btimer_rdtsc32.h:78-79 | add and add-with-carry compute the sum modulo 2^64 |
| Timers.LimbTimerRefines | mwait_barrier/btimer_rdtsc32.h:59-84 | under every sequence of operations the limb timer holds the 64-bit timer's start and total, and its loop count modulo 2^32 |
| Timers.Total64IsSpent | mwait_barrier/btimer_rdtsc64.h:60-78 | the 64-bit total is the sum of the measured intervals modulo 2^64 |
| Timers.TimersMeasure | mwait_barrier/btimer_rdtsc32.h:59-84 | both totals are the sum of the stop-start intervals since the last clear, modulo 2^64 and exactly when it is a 64-bit number |
| Timers.LoopsCountStops | mwait_barrier/btimer_rdtsc64.h:60-78 | after every sequence of operations the loop count is the number of stops since the last clear (and what was there before, without a clear) modulo 2^64, and the readings are those of the last start and the last stop |
| Timers.LimbLoopsCountStops | mwait_barrier/btimer_rdtsc32.h:59-84 | the same of the limb timer, its loop count modulo 2^32 |
| Timers.OneInterval | mwait_barrier/btimer_rdtsc32.h:59-84 | after a clear, a start and a stop both totals are the difference of the two readings modulo 2^64, and both loop counts are 1 |
| Timers.CycleTimer32.StopTimer | mwait_barrier/btimer_rdtsc32.h:73-84 | the four limb instructions and the loop count, in place |
| Timers.CycleTimer32.Execute | mwait_barrier/btimer_rdtsc32.h:59-84 | any sequence of operations in place leaves the time spent in the total |
| Timers.CycleTimer64.StopTimer | mwait_barrier/btimer_rdtsc64.h:73-78 | adds the last interval to the total, in place |
| Timers.CycleTimer64.Execute | mwait_barrier/btimer_rdtsc64.h:60-78 | any sequence of operations in place leaves the time spent in the total |

## Left out

- MwaitBarrierSafety.NoEarlyReturn: does not cover more than 2^31 + 1 threads, for which the barrier's lock does not exclude (`LockExcludesIffFits`); the number that `mwait_barrier_init` is given is a signed int, so every number it can be given is covered.
- TwoPackages.RunProjects: the joint system is modelled on values, because its threads run the code that `MwaitBarrierObject` models in place; aliasing of the mapped page by kernel and user addresses is not modelled.
- Weak memory ordering, and a compiler that keeps a non-volatile field in a register between two reads.
- `spin_barrier` without a local sense: its comment says that it can deadlock across successive calls.
- The `cpuhalt` and IPI variants of the sense barrier: the same counter code, with waits that rely on timer interrupts.
- The `_ineq` spin loops: their two tests disagree.
- `sys_mwmon_mmap_spin_while_greater`: it does not use the cell to decide when to return.
- Other kernel entry points: `sys_cpu_halt`, `sys_mwmon_kernel_init`, `sys_mwmon_kernel_finalize`, freeing of memory, device registration, `remap_pfn_range`, `virt_to_kseg`.
- `sys_mwmon_user_sleep`: the same loop as the modelled sleep call on another address.
- The unused barrier fields `left` and `curr_event`.
- System call tables and macros, affinity, CPU topology, workloads, timer averages and printing, benchmark scripts and results.
- Time-stamp counters are read as 64-bit numbers; that they increase is not assumed, and the clock rate is not modelled.
