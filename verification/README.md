# Verified models of fio's coordination and data-structure code

This project models the parts of fio 3.35 whose correctness rests on an argument rather than on
reading one function, together with the threaded ray tracer c-ray 1.1, and proves what these parts
are for. Each module models one source file or a part of it; `dafny verify dfyconfig.toml` checks all of them.

Three kinds of module:

- **Protocols** (`FileLock`, `Semaphore`, `FlowControl` and the modules about it, `Scheduler`, the
  second half of `ParallelRender`, and `ParallelRuns`). A state, program counters, and a `Step` function
  with one step per access to shared data that other threads can interleave with. `Exec` runs a sequence
  of steps; the theorems hold of every state any sequence reaches, for any number of threads or jobs.
  Beside the step function stands the imperative code, as a class whose methods are proved to take
  exactly these steps and to keep the invariant.
- **What callers get** (`FileLockCalls`, `SemaphoreCalls`, `FlowEvents`, `SchedulerPasses`, and the last
  parts of `EtaRequests` and `Scheduler`). The same runs told from the calls and events in them: what a call
  has achieved when it returns, which weight a job has, which answers a sum holds. These theorems compare
  the state with the run, not with the step function.
- **Sequential code** (`FList`, `Fifo`, `FileHash`, `TraceMerge`, `EtaRequests`, `CpuClock`,
  `DedupeSeeds`, `StatusString`, `JobTable`). Classes, arrays and loops in the shape of the C code,
  proved against functions or closed forms whose own properties are lemmas.

`Wrappers` holds an option type and facts about finite collections, `Bits` powers of two, masks and
quotients.

## What is modelled

- `FileLock`: 1024 reference-counted lock slots keyed by a hash under one global lock; lock, trylock
  and unlock interleave, including the back-off when the table is full and the re-check of a trylock
  that lost a race. `Disciplined` is the rule for callers: a thread unlocks only a name it holds.
  `FileLockCalls` proves what each call brings its caller.
- `Semaphore`: value, waiters, a condition variable that is signalled only when the value was 0,
  spurious wakeups and timeouts. `SemaphoreCalls` proves what each call does with a unit or a timeout.
- `FlowControl`, `FlowRuns`, `FlowProgress`, `FlowShare`, `FlowCalls`, `FlowEvents`: jobs of one flow
  group share a counter; reading the counter, the comparison and the two increments are separate steps of
  concurrently running jobs, and so are the parts of joining and leaving that others can see.
- `JobTable`, `Scheduler`, `SchedulerPasses`: acceptance of `wait_for`, and the loop that creates, starts
  and reaps jobs while the jobs change state by themselves.
- `CpuClock`: the fixed-point constants and the conversion of cycles to nanoseconds, on 64-bit words.
- `TraceMerge`: the k-way merge over cursors compacted in place, from opening the logs to the
  output.
- `FList`: the intrusive circular list, pointer by pointer.
- `EtaRequests`: the fan-out of a status request to all clients and the counted fan-in, with
  timeouts and removals.
- `Fifo`: the byte ring, with 32-bit indices that wrap.
- `FileHash`: the index of files by name.
- `ParallelRender`, `ParallelRuns`: the partition of scanlines, the start barrier, the workers' writes,
  and the length of every run.
- `DedupeSeeds`: the seeds of the dedupe working set.
- `StatusString`: the run-length printer of the status line.

## What the proofs found

Some intended properties hold only under a condition, which is stated and proved exact, or shown to
be needed by a concrete run:

- `fio_sem_up` signals only at value 0. That never loses a wakeup in binary use, but a counting use
  can. The file locks use it as a binary semaphore: a slot's is only raised from 0
  (`FileLock.SlotUpsAreBinary`), the global one only by its owner (`FileLock.GlobalUpsAreBinary`). The
  exact condition for an up to be safe is `Semaphore.SafeUp` (`UpLosesIffUnsafe`,
  `CountingUseLosesWakeups`).
- From a lock table in order, callers that keep to their rule after an unlock can still come to hold one
  name twice if and only if that unlock found a slot its thread does not hold
  (`FileLock.UnlockBreaksExclusionIff`, with `FileLock.UnlockKeepsIff` on the invariant and a whole run
  in `FileLock.UnlockOfOthersBreaksExclusion`). `fio_trylock_file` can block
  (`FileLock.TrylockCanBlock`), exactly while another call has the slot it decided to take
  (`FileLock.GrabBlocksIff`).
- A trylock fails only for a reason: the table was full, or the name was taken and then, at the re-check,
  still wanted (`FileLockCalls.TrylockReturns`). A lock call that went to sleep for want of a slot waits for
  a free slot even if its name has got one meanwhile (`FileLockCalls.SleeperAlone`).
- The assert in `flow_put` holds if and only if no member began to leave between its two increments
  since the group was made (`FlowRuns.AssertIff`); a job killed there trips it
  (`FlowProgress.HalfExitTripsAssert`).
- `run_threads` can return if and only if no set of jobs wait for each other
  (`Scheduler.FinishesIffNoKnot`). Accepted tables with names unique apart from clones have no such set
  (`Scheduler.AcceptedNeverHangs`); the parser accepts a table with a repeated name that has one, and
  on which the scheduler hangs (`Scheduler.DuplicateNamesDeadlock`).
- A stonewall is a barrier in every run if and only if no job before it is held up by later jobs
  (`Scheduler.StonewallIff` has the exact form). Accepted tables with unique names meet the condition;
  an accepted table with a repeated name breaks the barrier (`Scheduler.OvertakingBreaksBarrier`).
- A log whose last record is incomplete is not an error: the test for the end of the file comes before
  the one for a short read, whose error return can therefore not be reached by a truncated file. The
  torn record is merged (`TraceMerge.CutIff`, `TraceMerge.CutLogDeliversTorn`).
- A log with nothing to merge gives its cursor slot to the next log, and with it its scalar, its
  iteration count and its length, so that the next log's times are shifted (`TraceMerge.OwnSlotIff`,
  `TraceMerge.UnshiftedIff`, `TraceMerge.GivenUpLogShiftsTimes`).
- Scaling in 64 bits keeps every sorted log with times up to a limit in order if and only if the product
  of the limit wraps no more often than that of time 0 (`TraceMerge.WrapIff`; `TraceMerge.FitsIff` for
  slots whose shift does not wrap by itself). `TraceMerge.WrapBreaksOrder` is a log that comes out
  unsorted.
- Every job has the same pages, whatever the generator and the seeds, if and only if the number of jobs
  divides the page count (`DedupeSeeds.SamePagesIff`).
- The byte ring's masks work if and only if its size is a power of two (`Fifo.MaskIffPow2`).
- A status request made while a connected client is idle never reports
  (`EtaRequests.IdleClientSilences`); `FiresExactlyOnce` is the exact condition.

## Model

| member | source | states |
|---|---|---|
| FileLock.Find | fio-3.35/filelock.c:119-131 | The lookup returns an active slot of the hash if there is one, and nothing only if there is none. |
| FileLock.StepInv | fio-3.35/filelock.c:133-246 | Every step of every thread in lock, trylock and unlock keeps the invariant: active and free slots partition the table, active hashes are distinct, references and semaphores count their threads, the global lock is held by the one thread in a critical section. |
| FileLock.ExecInv | fio-3.35/filelock.c:133-246 | The invariant holds after any interleaving of disciplined calls. |
| FileLock.ReferenceInv | fio-3.35/filelock.c:175-179 | Counting another reference to a found slot keeps the invariant. |
| FileLock.TakeFreeInv | fio-3.35/filelock.c:133-166 | Taking the first free slot for a hash that is not active keeps the partition and the distinct hashes. |
| FileLock.RaceDropInv | fio-3.35/filelock.c:194-206 | A trylock that gives up leaves a slot that still has a reference. |
| FileLock.UnlockFinds | fio-3.35/filelock.c:225-236 | The slot an unlock finds is the one its thread holds. |
| FileLock.UnlinkInv | fio-3.35/filelock.c:238-241 | A slot goes back to the free list only when no thread holds or is acquiring it, and the invariant stays. |
| FileLock.MutualExclusion | fio-3.35/filelock.c:168-213 | In every interleaving at most one thread holds a name. |
| FileLock.ReferencesExact | fio-3.35/filelock.c:133-246 | In every interleaving a slot is active or free and not both, its references are its holders plus the threads acquiring it, and no two active slots have the same hash. |
| FileLock.ExitAssert | fio-3.35/filelock.c:98-117 | When no thread holds a name or is in a call, the active list is empty, as the exit assert needs, and every slot is free. |
| FileLock.WaitsForSomeone | fio-3.35/filelock.c:168-246 | In every reachable state, whoever holds what, if a thread inside a call cannot run, then the owner of the global lock can, or nobody owns it and the thread waits for a slot that some thread holds. |
| FileLock.NoDeadlock | fio-3.35/filelock.c:168-246 | If no thread can run, every thread inside a call waits for a slot that some thread holds. |
| FileLock.OwnerRuns | fio-3.35/filelock.c:175-246 | The thread in a critical section never blocks, so the global lock is given back. |
| FileLock.RaceWinnerSeesFree | fio-3.35/filelock.c:194-206 | A racing trylock that is the only reference left sees a free slot. |
| FileLock.SlotUpsAreBinary | fio-3.35/filelock.c:234-237 | A slot's semaphore is only ever raised from 0. |
| FileLock.GlobalUpsAreBinary | fio-3.35/filelock.c:175-246 | The global lock changes hands exactly when a thread enters or leaves a critical section, and a thread that leaves one and raises it is its owner. |
| FileLock.UnlockBreaksExclusionIff | fio-3.35/filelock.c:225-246 | The callers' rule is exact: from a table in order, some disciplined run after an unlock's lookup has two threads hold one name if and only if the lookup found a slot the thread does not hold. |
| FileLock.UnlockKeepsIff | fio-3.35/filelock.c:225-246 | Dropping a reference keeps the table in order if and only if no slot has the hash or the thread holds that slot. |
| FileLock.GrabBlocksIff | fio-3.35/filelock.c:205-211 | A trylock that has decided to take the slot blocks exactly while another call holds it or is about to release it. |
| FileLock.UnlockOfOthersBreaksExclusion | fio-3.35/filelock.c:225-246 | Without the callers' rule two threads can hold one name. |
| FileLock.TrylockCanBlock | fio-3.35/filelock.c:191-211 | A disciplined run in which a trylock ends up blocked on the slot's semaphore. |
| FileLock.LockTable.constructor | fio-3.35/filelock.c:70-96 | Initialization gives the initial state, all slots free and unlocked. |
| FileLock.LockTable.Call | fio-3.35/filelock.c:215-232 | A call begins; an unlock is only of a name its thread holds. |
| FileLock.LockTable.Run | fio-3.35/filelock.c:168-246 | The code at a thread's program counter does exactly its step and keeps the invariant. |
| FileLock.LockTable.HashFind | fio-3.35/filelock.c:119-131 | The loop over the active list finds what the lookup function says. |
| FileLock.LockTable.HashGet | fio-3.35/filelock.c:133-166 | Returns the active slot of the hash, else the first free slot, newly active under the hash with no references, else nothing; after a retry the free slot goes back when the hash has appeared. |
| FileLock.LockTable.LockSection | fio-3.35/filelock.c:168-184 | The locked part of a lock call is its step. |
| FileLock.LockTable.RaceSection | fio-3.35/filelock.c:194-206 | The locked re-check of a trylock is its step. |
| FileLock.LockTable.Unreference | fio-3.35/filelock.c:225-236 | The locked part of an unlock up to the reference count is its step. |
| FileLock.LockTable.PutSlot | fio-3.35/filelock.c:238-245 | Giving a slot back after the last reference is its step. |
| FileLockCalls.LockReturnsHolding | fio-3.35/filelock.c:168-189 | In every interleaving a plain lock call that has returned has brought its thread the name, by one slot it did not hold before. |
| FileLockCalls.TrylockReturns | fio-3.35/filelock.c:168-213 | A trylock that has returned has brought its thread the name; or what the thread holds is unchanged, and during the call the table was full, or the name was taken and later held or being acquired. |
| FileLockCalls.UnlockReturns | fio-3.35/filelock.c:225-246 | An unlock that has returned has given up the name and nothing else. |
| FileLockCalls.LockAlone | fio-3.35/filelock.c:133-213 | While no other thread runs, a lock or trylock gets the name, by its slot if that is free, or if it has none by the first free slot; otherwise a trylock leaves everything as it was, and a plain lock blocks on the slot or sleeps for want of one. |
| FileLockCalls.UnlockAlone | fio-3.35/filelock.c:225-246 | An unlock while no other thread runs takes one reference off and raises the semaphore; the name can then be had at once by the same slot, which is the first free one if nobody else references it. |
| FileLockCalls.SleeperAlone | fio-3.35/filelock.c:52-68 | A call asleep for want of a slot sleeps on while no slot is free, and otherwise gets the name exactly if its slot is not taken. |
| Semaphore.StepInv | fio-3.35/fio_sem.c:86-180 | Every step keeps: value is initial plus ups minus downs, never negative, and waiters counts the threads inside a wait. |
| Semaphore.CountsExact | fio-3.35/fio_sem.c:86-180 | The counts hold after any interleaving, for every use. |
| Semaphore.CoveredStep | fio-3.35/fio_sem.c:86-180 | A step keeps enough woken threads on their way for the units available if and only if it is not an unsafe up. |
| Semaphore.NoLostWakeup | fio-3.35/fio_sem.c:149-180 | In binary use, whenever a unit is available and a thread sleeps, some woken thread has yet to take the mutex. |
| Semaphore.Drain | fio-3.35/fio_sem.c:149-163 | With more units than woken threads, letting the woken threads run strands a sleeper. |
| Semaphore.LossIffUncovered | fio-3.35/fio_sem.c:86-180 | A wakeup can be lost without a further up if and only if somebody sleeps and more units are available than woken threads. |
| Semaphore.UpLosesIffUnsafe | fio-3.35/fio_sem.c:165-180 | After an up a wakeup can be lost if and only if the value was not 0, somebody slept, and not more threads were woken than units available. |
| Semaphore.CountingUseLosesWakeups | fio-3.35/fio_sem.c:165-180 | Two sleepers and two ups reach a lost wakeup. |
| Semaphore.Sem.constructor | fio-3.35/fio_sem.c:39-53 | A new semaphore has its initial value and no waiters. |
| Semaphore.Sem.Down | fio-3.35/fio_sem.c:149-163 | A turn of the wait loop is its step; it ends, with one unit taken, exactly when the value is not 0, and otherwise sleeps without a timeout. |
| Semaphore.Sem.DownTimeout | fio-3.35/fio_sem.c:86-131 | A turn of the timed wait loop is its step; it ends with a unit or with a confirmed timeout, never both, and otherwise sleeps with a timeout. |
| Semaphore.Sem.Trylock | fio-3.35/fio_sem.c:133-147 | Takes a unit exactly when the value is not 0, and reports busy otherwise. |
| Semaphore.Sem.Up | fio-3.35/fio_sem.c:165-180 | Raises the value and wakes a sleeper exactly when the value was 0 and threads wait; keeps the sleepers covered exactly when the up is safe. |
| SemaphoreCalls.TimeoutIffTimed | fio-3.35/fio_sem.c:86-163 | After any run, a sleeping thread can be woken by a timeout exactly if its last call is the timed down, which then returns without a unit. |
| SemaphoreCalls.TurnTakesUnit | fio-3.35/fio_sem.c:86-163 | After any run, a call or a turn of its wait loop that finds a unit takes one and returns, unless its wait has timed out; one that finds none returns only as a trylock or timed out. |
| SemaphoreCalls.UnitsConserved | fio-3.35/fio_sem.c:86-180 | After any run the value is the initial value, plus the calls of up, minus the calls that have ended with a unit. |
| SemaphoreCalls.AlwaysPossible | fio-3.35/fio_sem.c:86-180 | A thread outside can make every call, a woken one can go on, and a sleeping one can be woken. |
| FlowControl.MembersPositive | fio-3.35/flow.c:25-28 | For a member whose weight has been added, at any moment, both divisors of the check are positive. |
| FlowControl.JoinInv | fio-3.35/flow.c:57-93 | Taking a reference keeps the groups in order, the new member's weight still missing. |
| FlowControl.ThresholdInv | fio-3.35/flow.c:17-55 | Reading the counter, the comparison, and each of the two increments keep the groups in order. |
| FlowControl.ExitInv | fio-3.35/flow.c:95-130 | So does each step of leaving: taking the counter off, taking the weight off, and giving up the reference. |
| FlowControl.ExecInv | fio-3.35/flow.c:17-130 | Between any two steps of any run a group's total weight is the sum of the weights added and not taken off, and its references count its members. |
| FlowRuns.CounterRun | fio-3.35/flow.c:17-130 | Along any run the shared counter is 1 plus the members' increments plus the exits between two increments since the group was made. |
| FlowRuns.Conservation | fio-3.35/flow.c:17-130 | The two together, after any run from no groups, with the intermediate states of joins and exits. |
| FlowRuns.AssertIff | fio-3.35/flow.c:95-113 | When the last member leaves, the assert holds if and only if, since the group was made, no member began to leave between its two increments. |
| FlowProgress.HalfExitTripsAssert | fio-3.35/flow.c:105-109 | A run in which it fails: a job leaves between its two increments. |
| FlowProgress.ExceededProduct | fio-3.35/flow.c:25-36 | The comparison of the two ratios is a comparison of integer products. |
| FlowProgress.SomeMemberPasses | fio-3.35/flow.c:25-52 | In a live group some member is not at a check, or a check made now lets it go on to its increments. |
| FlowProgress.MemberSteps | fio-3.35/flow.c:17-130 | Every member always has a step. |
| FlowShare.ShareStep | fio-3.35/flow.c:17-55 | A step leaves every member at most one increment above its share, and not above it while between its increments. |
| FlowShare.SharesForever | fio-3.35/flow.c:17-55 | This holds along any run with fixed membership. |
| FlowShare.AtLeastShare | fio-3.35/flow.c:17-55 | A member is at most n increments below its share, for n members. |
| FlowShare.ProportionalShare | fio-3.35/flow.c:17-55 | From zero, with n fixed members in any interleaving, each counter is between w*F/W - n and w*F/W + 1. |
| FlowCalls.PassingInv | fio-3.35/flow.c:17-55 | The steps of an uninterrupted call leave a job over its share alone and otherwise raise both counters. |
| FlowCalls.FlowTable.constructor | fio-3.35/flow.c:132-148 | Jobs that are in no group start with no groups. |
| FlowCalls.FlowTable.ThresholdExceeded | fio-3.35/flow.c:17-55 | Stalls exactly when the job is over its share, and otherwise raises both counters by one. |
| FlowCalls.FlowTable.InitJob | fio-3.35/flow.c:57-122 | The job is a member with exactly the weight asked for and its counter at 0; the group, made with its counter at 1 if it is new, gains that weight and one reference; nothing else changes. These are the two steps of a join. |
| FlowCalls.FlowTable.ExitJob | fio-3.35/flow.c:95-130 | Leaves the group: the three steps of an exit, with what the assert sees. |
| FlowCalls.JoinSteps | fio-3.35/flow.c:57-122 | The two steps of an uninterrupted join have this effect. |
| FlowEvents.LedgerExact | fio-3.35/flow.c:17-130 | After any run a job is in the group it last joined, with the weight it asked for, unless it has left since, and its counter is the number of its increments since. |
| FlowEvents.SharesOfAsked | fio-3.35/flow.c:17-55 | Proportional share from the calls alone: with F - 1 increments by members whose weights asked for add up to W, each has made between w*F/W - n and w*F/W + 1. |
| FlowEvents.LockExcludes | fio-3.35/flow.c:95-113 | While a job is leaving with the lock held no other job joins or begins to leave a group. |
| JobTable.CheckWaitees | fio-3.35/init.c:1398-1410 | Counts the jobs of a name, clones not included. |
| JobTable.WaitForOkCheck | fio-3.35/init.c:1412-1438 | Accepts no wait, or a wait for exactly one other job known so far. |
| JobTable.RefusedIff | fio-3.35/init.c:1412-1438 | A wait is refused exactly if it is for the job itself, or no job or several have the name, clones not counted. |
| JobTable.AcceptedWaitsEarlier | fio-3.35/init.c:1398-1438 | With names unique apart from clones, accepted waits point only to earlier jobs, clones included. |
| Scheduler.WaitsStep | fio-3.35/backend.c:2432-2447 | A created job's waitees have exited: kept by every step, creation included. |
| Scheduler.FruitlessStep | fio-3.35/backend.c:2406-2449 | A pass that has created nothing so far has passed over only jobs that wait for others not created. |
| Scheduler.StepInv | fio-3.35/backend.c:2397-2571 | For any table, every step of the scheduler and of the jobs keeps exact counters, honoured waits, and what the pass has established. |
| Scheduler.ExecInv | fio-3.35/backend.c:2397-2571 | The invariant holds after any run. |
| Scheduler.CountersExact | fio-3.35/backend.c:2397-2571 | nr_started counts exactly the created unreleased jobs, nr_running the released unreaped ones, todo the unreleased ones. |
| Scheduler.StonewallIff | fio-3.35/backend.c:2426-2436 | For any table, a stonewall job is a barrier in every run if and only if nothing before it is held up by it or by later jobs, or those held up and all from it on wait for each other. |
| Scheduler.TightKept | fio-3.35/backend.c:2426-2436 | Under that condition, if a job from the barrier on has been created, every job before the barrier has been reaped. |
| Scheduler.LooseBreaks | fio-3.35/backend.c:2426-2436 | Otherwise some run creates a job from the barrier on while one before it is not even created. |
| Scheduler.StonewallPhases | fio-3.35/backend.c:2426-2430 | With waits only for earlier jobs, if a stonewall job stands between job i and a created job j, or is j, then job i has been reaped, has been through its setup, and has ended by itself or been killed. |
| Scheduler.EarlierHoldsUpNothing | fio-3.35/init.c:1412-1438 | Waits that point only to earlier jobs hold nothing up at a barrier. |
| Scheduler.OvertakingAccepted | fio-3.35/init.c:1412-1438 | The parser accepts a table in which a job before a stonewall waits for a name that is used again behind it. |
| Scheduler.OvertakingBreaksBarrier | fio-3.35/backend.c:2426-2436 | On that table the stonewall job can be created while a job before it is not. |
| Scheduler.WaitForHonoured | fio-3.35/backend.c:2432-2436 | When a job has been created, every job of its waitee's name has exited, and its ending is in the run. |
| Scheduler.LowestJobPasses | fio-3.35/backend.c:2426-2436 | With waits only for earlier jobs and nothing started or running, the next job not created passes both gates. |
| Scheduler.PassStartsSomething | fio-3.35/backend.c:2406-2508 | Without jobs knotted by their waits, a pass never ends with jobs left to create and nothing started or running. |
| Scheduler.FinishedMeansAllReaped | fio-3.35/backend.c:2397-2571 | The launcher returns only when every job has been reaped, and every job it was to create has been through its setup and has ended. |
| Scheduler.EventsTell | fio-3.35/backend.c:2053-2143 | A job counts as exited, killed or reaped exactly if it has ended in the run, and as set up exactly if it has finished its setup. |
| Scheduler.TightHasEnded | fio-3.35/backend.c:2426-2436 | Every job before a tight barrier has ended once a job from the barrier on has been created. |
| SchedulerPasses.PassStartsAll | fio-3.35/backend.c:2503-2562 | A pass starts all it has created: when jobs are released each created one has finished its setup, and when jobs are reaped or a pass begins none is created and unreleased. |
| SchedulerPasses.ReapLoop | fio-3.35/backend.c:2053-2160 | A reaping loop that no job disturbs reaps exactly the jobs that have exited or been killed. |
| SchedulerPasses.ReleaseLoop | fio-3.35/backend.c:2546-2560 | A starting loop that no job disturbs starts exactly the jobs that are set up. |
| SchedulerPasses.JobsMove | fio-3.35/backend.c:2053-2143 | A job can finish its setup exactly while created, and end or be killed exactly while it runs. |
| Scheduler.Launcher.constructor | fio-3.35/backend.c:2349-2397 | The loop is reached with nothing started or running, and todo counting the jobs to create. |
| Scheduler.Launcher.WaiteeIsRunning | fio-3.35/backend.c:2279-2301 | True exactly if some other-named job of the waitee's name is before its exit. |
| Scheduler.Launcher.ScanOne | fio-3.35/backend.c:2406-2449 | The loop body is the step of the creating loop. |
| Scheduler.Launcher.ReleaseOne | fio-3.35/backend.c:2546-2560 | The loop body is the step of the starting loop. |
| Scheduler.Launcher.ReapOne | fio-3.35/backend.c:2053-2160 | The loop body is the step of the reaping loop. |
| Scheduler.Launcher.Go | fio-3.35/backend.c:2397-2571 | The launcher's code takes exactly its step and keeps the invariant. |
| Scheduler.DuplicateAccepted | fio-3.35/init.c:1412-1438 | The parser accepts a table in which a second job has the name of a waitee. |
| Scheduler.KnotNeverFinishes | fio-3.35/backend.c:2397-2571 | Jobs of which each waits for another of them are never created, and the launcher never returns. |
| Scheduler.CanStop | fio-3.35/backend.c:2397-2571 | From any state in order some continuation ends with the launcher returning, or in a pass in which the jobs left wait for each other. |
| Scheduler.CanFinish | fio-3.35/backend.c:2397-2571 | Without knotted jobs it ends with the launcher returning. |
| Scheduler.FinishesIffNoKnot | fio-3.35/backend.c:2397-2571 | The launcher can return if and only if no jobs of the table are knotted by their waits. |
| Scheduler.EarlierTiesNoKnot | fio-3.35/init.c:1412-1438 | Waits that point only to earlier jobs tie no knot. |
| Scheduler.AcceptedNeverHangs | fio-3.35/backend.c:2397-2571 | On an accepted table with names unique apart from clones, every reachable state can go on until the launcher returns. |
| Scheduler.DuplicateNamesDeadlock | fio-3.35/backend.c:2397-2571 | On the accepted table with a repeated name it never returns, and the two jobs are never created. |
| CpuClock.RangeExact | fio-3.35/gettime.c:314-315 | The rates whose ticks in an hour fit 64 bits are exactly those up to 5124095576030 per millisecond. |
| CpuClock.ShiftIsLargest | fio-3.35/gettime.c:320-331 | clock_shift is the largest s with 2^s * 10^6 <= max_mult * cycles_per_msec. |
| CpuClock.MultBounds | fio-3.35/gettime.c:332 | clock_mult is the rate 2^s * 10^6 / c rounded down and does not exceed max_mult. |
| CpuClock.CalibrationFits | fio-3.35/gettime.c:314-359 | No intermediate value of the calibration exceeds 64 bits. |
| CpuClock.NoOverflow | fio-3.35/gettime.c:354-355 | Neither a masked tick count nor 2^max_cycles_shift times the multiplier exceeds 64 bits. |
| CpuClock.Monotone | fio-3.35/gettime.c:203-206 | The converted time is monotone, also across every multiple of 2^max_cycles_shift. |
| CpuClock.FixedPointError | fio-3.35/gettime.c:203-206 | The conversion in fixed point is never late and at most the number of multiples plus one short. |
| CpuClock.Accuracy | fio-3.35/gettime.c:203-206 | The result never exceeds t*10^6/c and falls short by at most t/2^clock_shift + (t >> max_cycles_shift) + 1. |
| CpuClock.NoWrap | fio-3.35/gettime.c:203-206 | The sum does not wrap while the exact time fits 64 bits. |
| CpuClock.ShiftsToOne | fio-3.35/gettime.c:325-329 | The shift loop computes the integer logarithm. |
| CpuClock.LowBits | fio-3.35/gettime.c:357-359 | The mask loop gives 2^k - 1. |
| CpuClock.Clock.Calibrate | fio-3.35/gettime.c:308-368 | For every rate in range the stored constants are the derived ones, computed without overflow. |
| CpuClock.Clock.GetTime | fio-3.35/gettime.c:202-208 | For t cycles from the start to now on a clock that wraps at 2^64, seconds and nanoseconds are the conversion of t modulo 2^64, and accurate while the exact time of t fits 64 bits. |
| TraceMerge.ScaleMonotone | fio-3.35/blktrace.c:694 | Scaling keeps the order of times whose products wrap equally often. |
| TraceMerge.ScaleDrops | fio-3.35/blktrace.c:694 | A time at which the product wraps once more comes out earlier than the time before it. |
| TraceMerge.KeptSorted | fio-3.35/blktrace.c:686-694 | Non-decreasing kept records stay so when scaled, as long as their products wrap equally often. |
| TraceMerge.WrapIff | fio-3.35/blktrace.c:694 | All logs in order with times up to a limit stay in order when scaled, if and only if the limit's product wraps no more often than that of time 0. |
| TraceMerge.FitsIff | fio-3.35/blktrace.c:694 | With a shift that does not wrap by itself this is exactly when the limit's product fits 64 bits. |
| TraceMerge.TornSorted | fio-3.35/blktrace.c:672-694 | A log contributes in order if and only if its scaled records are in order and its torn record is not earlier than the last of them. |
| TraceMerge.OrderlySorted | fio-3.35/blktrace.c:672-694 | It does so whenever its kept times do not decrease, their products wrap equally often, and a torn record does not show an earlier time. |
| TraceMerge.WrapBreaksOrder | fio-3.35/blktrace.c:694 | With a product that wraps they need not. |
| TraceMerge.FindEarliest | fio-3.35/blktrace.c:628-641 | Returns the first of the cursors with the earliest record. |
| TraceMerge.ReadTrace | fio-3.35/blktrace.c:660-697 | Moves a cursor to its next kept record, shifted and scaled; an incomplete last record is delivered as it is; at the end the cursor's length is set if it was 0. |
| TraceMerge.FinishFile | fio-3.35/blktrace.c:643-658 | The last active cursor takes the finished one's slot; a slot that is the last keeps its cursor with one more iteration counted. |
| TraceMerge.RoundGot | fio-3.35/blktrace.c:773-790 | A round whose log goes on keeps what is delivered, the order, and the cursors in step with their logs. |
| TraceMerge.RoundEof | fio-3.35/blktrace.c:773-790 | So does a round that finishes a log and overwrites its cursor; the remaining records decrease. |
| TraceMerge.NextRecord | fio-3.35/blktrace.c:773-790 | The loop body writes the earliest record and advances or finishes its cursor. |
| TraceMerge.MergeFiles | fio-3.35/blktrace.c:773-790 | The merge loop ends with every log delivered in its order, and in order of time if every log is. |
| TraceMerge.OpenLogs | fio-3.35/blktrace.c:744-771 | Succeeds exactly if every file holds a complete record, and leaves one cursor for each log with anything to merge, in consecutive slots, scaled and shifted by what earlier logs left in the slot. |
| TraceMerge.OpenNext | fio-3.35/blktrace.c:746-770 | The set-up loop's body: a log opens in the next slot, or gives it up with its iteration count and length changed. |
| TraceMerge.MergeLogs | fio-3.35/blktrace.c:706-790 | Merges exactly if every file holds a complete record; the output is each log's contribution in its own order and nothing else, is sorted whenever every log's kept times do not decrease, their products wrap equally often and a torn record shows no earlier time, and is so if and only if every log's scaled records are sorted and no torn record is earlier than those before it; it is just the kept records if and only if no log is cut short. |
| TraceMerge.CutIff | fio-3.35/blktrace.c:672-675 | The output holds just the kept records if and only if no log ends in an incomplete record. |
| TraceMerge.PayloadsDelivered | fio-3.35/blktrace.c:660-704 | What the kept records of a log carry besides their times comes out unchanged and in the log's order. |
| TraceMerge.CutLogDeliversTorn | fio-3.35/blktrace.c:672-675 | A log cut short in its second record contributes the torn record too, unscaled. |
| TraceMerge.Permutation | fio-3.35/blktrace.c:773-790 | Each record occurs in the output as often as in its log. |
| TraceMerge.OwnSlotIff | fio-3.35/blktrace.c:746-770 | A log is opened in its own slot, and so scaled by its own entry, if and only if every earlier log has something to merge. |
| TraceMerge.UnshiftedIff | fio-3.35/blktrace.c:643-694 | Nothing is added to a log's times if and only if every log that gave up its slot ends at time 0; what is added is the number of times the slot was given up times the first end time that is not 0. |
| TraceMerge.GivenUpLogShiftsScalars | fio-3.35/blktrace.c:746-770 | Two logs, the first with nothing to merge, where the second is scaled by the first's entry. |
| TraceMerge.GivenUpLogShiftsTimes | fio-3.35/blktrace.c:643-694 | Two logs, the first with nothing to merge and ending at time 500, where the second's time 100 comes out as 600. |
| FList.Node.constructor | fio-3.35/flist.h:30-32 | An initialized head is an empty list. |
| FList.ListUnique | fio-3.35/flist.h:182-183 | A head determines the nodes of its list. |
| FList.Insert | fio-3.35/flist.h:40-48 | The four assignments put a node between the two parts of a ring. |
| FList.AddBetween | fio-3.35/flist.h:40-48 | So a node is inserted between two consecutive ones of a list. |
| FList.Add | fio-3.35/flist.h:58-62 | Adding is prepending. |
| FList.AddTail | fio-3.35/flist.h:64-68 | Adding at the tail is appending. |
| FList.Unlink | fio-3.35/flist.h:77-82 | The two assignments close the ring over the node between them. |
| FList.Cut | fio-3.35/flist.h:90-105 | A node's two neighbours are the ends of the ring without it. |
| FList.Del | fio-3.35/flist.h:90-95 | Deleting removes exactly the node, whose pointers become null. |
| FList.DelInit | fio-3.35/flist.h:101-105 | Deleting leaves the node an empty list itself, also when it was one. |
| FList.Empty | fio-3.35/flist.h:111-114 | True exactly for the empty list. |
| FList.Relink | fio-3.35/flist.h:116-128 | The four assignments thread a chain between the two parts of a ring. |
| FList.SpliceBetween | fio-3.35/flist.h:116-128 | A non-empty list is inserted at any position of another. |
| FList.Splice | fio-3.35/flist.h:130-135 | Splicing concatenates in front. |
| FList.SpliceTail | fio-3.35/flist.h:137-142 | Splicing at the tail concatenates behind. |
| FList.SpliceTailInit | fio-3.35/flist.h:144-151 | Likewise, and the source is a valid empty list. |
| FList.SpliceInit | fio-3.35/flist.h:153-160 | Likewise in front, and the source is a valid empty list. |
| FList.ForEach | fio-3.35/flist.h:182-183 | The traversal visits exactly the nodes of the list, in order. |
| EtaRequests.AnswerInv | fio-3.35/client.c:1367-1385 | An answer finds its record allocated and its assert true, and keeps the invariant. |
| EtaRequests.TimeoutInv | fio-3.35/client.c:2003-2029 | So does a timeout. |
| EtaRequests.RemoveInv | fio-3.35/client.c:303-329 | So does the removal of a client, in flight or not. |
| EtaRequests.AskCounts | fio-3.35/client.c:1960-1990 | Every client is skipped, asked, or neither, and nr_clients counts them all. |
| EtaRequests.DecTimesResult | fio-3.35/client.c:1992-1995 | Counting down for the skipped clients leaves the rest outstanding, or fires when none is left. |
| EtaRequests.RequestInv | fio-3.35/client.c:1960-1998 | A new request keeps the invariant: its record counts the asked clients and those neither asked nor skipped. |
| EtaRequests.FiresExactlyOnce | fio-3.35/client.c:273-282 | After any run of events the callback of a request has fired at most once, with the total of the jobs in the answers to it in that run, and has fired if and only if a client was connected, all were asked or skipped, and every asked one has answered, timed out or gone. |
| EtaRequests.RequestAsks | fio-3.35/client.c:1960-1998 | A request counts all connected clients and the idle ones; exactly the running clients that owe nothing come to owe it, with a reply outstanding if the command was sent. |
| EtaRequests.EventSettles | fio-3.35/client.c:303-329 | Nothing but a client's own answer, timeout or removal settles what it owes. |
| EtaRequests.AnswersRun | fio-3.35/client.c:1367-1385 | The recorded sum of a request is the total of the jobs in the answers of clients whose reply to it was outstanding. |
| EtaRequests.FlightsAreLive | fio-3.35/client.c:1367-1385 | No client ever points to a freed record. |
| EtaRequests.IdleClientSilences | fio-3.35/client.c:1973-1983 | A request made while a connected client is idle never fires. |
| EtaRequests.PastStays | fio-3.35/client.c:1960-2029 | Later events do not change whom a request counted. |
| EtaRequests.EmptyInv | fio-3.35/client.c:1960-1998 | Before any client has connected everything is in order, so the runs above start from an allowed state. |
| EtaRequests.ClientTable.DecJobsEta | fio-3.35/client.c:273-282 | Counts down an allocated record; at zero fires and frees it. |
| EtaRequests.ClientTable.AskAll | fio-3.35/client.c:1965-1990 | The loop asks the running idle clients and counts those already in flight. |
| EtaRequests.ClientTable.CountDown | fio-3.35/client.c:1992-1995 | The loop counts down once for each skipped client and stops when the record is gone. |
| EtaRequests.ClientTable.RequestClientEtas | fio-3.35/client.c:1960-1998 | The whole request is its event and keeps the invariant. |
| EtaRequests.ClientTable.HandleEta | fio-3.35/client.c:1367-1385 | Handling an answer is its event and touches only allocated records. |
| EtaRequests.ClientTable.HandleCmdTimeout | fio-3.35/client.c:2003-2029 | Handling a timeout is its event and touches only allocated records. |
| EtaRequests.ClientTable.RemoveClient | fio-3.35/client.c:303-329 | Removing a client is its event and touches only allocated records. |
| Fifo.WrapSlot | fio-3.35/fifo.c:57-58 | An index that has wrapped at 2^32 still points to the same slot of a power-of-two buffer. |
| Fifo.MaskIffPow2 | fio-3.35/fifo.c:57-58 | Masking with size - 1 gives the indices of one turn different slots if and only if the size is a power of two. |
| Fifo.Advance | fio-3.35/fifo.c:57-92 | Advancing a wrapping index by at most one turn advances its masked slot around the buffer. |
| Fifo.PutView | fio-3.35/fifo.c:56-61 | The two copies of a put queue the bytes behind those already there, across the buffer's end. |
| Fifo.GetView | fio-3.35/fifo.c:92 | Advancing the out index drops the oldest bytes only. |
| Fifo.Ring.constructor | fio-3.35/fifo.c:29-42 | For any size a ring of that size; for a power of two it is in order and empty. |
| Fifo.Ring.Put | fio-3.35/fifo.c:50-71 | Appends the longest prefix that fits and returns its length; what was got, followed by what is queued, stays what was put. |
| Fifo.Ring.Get | fio-3.35/fifo.c:73-98 | Removes the longest available prefix up to the length asked, and copies it out if a buffer is given; nothing is lost, repeated or reordered. |
| Fifo.ApplyKeeps | fio-3.35/fifo.c:50-98 | One put or get, as the ring's methods record it, keeps the bytes delivered followed by those queued equal to the bytes accepted. |
| Fifo.NothingLost | fio-3.35/fifo.c:50-98 | So does any run of them. |
| Fifo.RunGrows | fio-3.35/fifo.c:50-98 | A run grows at its end by one put or get on the queue it has left. |
| FileHash.Bucket | fio-3.35/filehash.c:22-25 | The bucket number is the hash modulo 512, for every hash value. |
| FileHash.AddLists | fio-3.35/filehash.c:91-95 | Appending a new file to its bucket adds it to the map. |
| FileHash.RemoveLists | fio-3.35/filehash.c:43-47 | A hashed file is in the bucket of its name, and unlinking it removes it from the map. |
| FileHash.LookupIs | fio-3.35/filehash.c:52-68 | The search of one bucket agrees with the map. |
| FileHash.Index.constructor | fio-3.35/filehash.c:126-137 | The new index is the empty map. |
| FileHash.Index.Lookup | fio-3.35/filehash.c:52-68 | Finds exactly the map's entry. |
| FileHash.Index.Add | fio-3.35/filehash.c:80-99 | Returns the map's file as alias exactly when an unhashed file's name is present, adds it when absent, and does nothing to a hashed file. |
| FileHash.Index.Hash | fio-3.35/filehash.c:92-95 | A new file gets its flag and goes to the end of its bucket. |
| FileHash.Index.Remove | fio-3.35/filehash.c:39-50 | Removes exactly the file's own entry if it is hashed, and ignores any other file. |
| ParallelRender.Owner | c-ray-1.1/c-ray-mt.c:262-275 | Every scanline has an owner. |
| ParallelRender.Partition | c-ray-1.1/c-ray-mt.c:262-275 | Every scanline of the picture belongs to exactly one thread and no thread has any other, however the boundaries were rounded. |
| ParallelRender.ExactBoundaries | c-ray-1.1/c-ray-mt.c:262-275 | In exact arithmetic the boundaries meet that condition. |
| ParallelRender.BuildTable | c-ray-1.1/c-ray-mt.c:262-275 | The loop computes boundary i as i*yres/threads rounded down, and gives the rest to the last thread. |
| ParallelRender.RenderScanline | c-ray-1.1/c-ray-mt.c:308-331 | Finishes every pixel of its scanline and spoils no finished one. |
| ParallelRender.ThreadFunc | c-ray-1.1/c-ray-mt.c:656-671 | Finishes every pixel of its range and spoils none; over the whole picture it is the sequential renderer. |
| ParallelRender.MainInv | c-ray-1.1/c-ray-mt.c:262-288 | Every step of main keeps the invariant. |
| ParallelRender.WorkerInv | c-ray-1.1/c-ray-mt.c:656-671 | Every step of a worker keeps it. |
| ParallelRender.ParallelIsSequential | c-ray-1.1/c-ray-mt.c:262-288 | Every interleaving ends with the sequential picture. |
| ParallelRender.RangesReadAfterFixUp | c-ray-1.1/c-ray-mt.c:275-283 | No worker reads its range before the last count is fixed up. |
| ParallelRender.NoRace | c-ray-1.1/c-ray-mt.c:656-671 | No two workers write the same pixel, and none writes outside the frame buffer. |
| ParallelRender.NoDeadlock | c-ray-1.1/c-ray-mt.c:279-287 | Until all threads are joined, some thread can run. |
| ParallelRuns.RunsEndTogether | c-ray-1.1/c-ray-mt.c:262-288 | Every interleaving ends, and after the same number of steps: 4 for each thread, 4 more, one for each pixel and one for each scanline; the runs of that length are exactly those in which main has joined all threads. |
| ParallelRuns.RunCounts | c-ray-1.1/c-ray-mt.c:656-671 | Every step of main or of a worker is one of the steps its thread has left. |
| DedupeSeeds.InitSeeds | fio-3.35/dedupe.c:45-68 | Entry i is the closed form: with global dedupe job (b + i/p) mod N's seed advanced k*(i mod p) times, so the array is the working set of the theorems below; otherwise the job's own seed advanced k*i times. |
| DedupeSeeds.PagesRoundDown | fio-3.35/dedupe.c:47 | The pages of a seed are the page count divided by the number of jobs, rounded down, and at least 1. |
| DedupeSeeds.NextEntry | fio-3.35/dedupe.c:48-65 | The next entry starts the next job's seed or advances the current one. |
| DedupeSeeds.NextState | fio-3.35/dedupe.c:48-65 | The same for both modes. |
| DedupeSeeds.CountingPages | fio-3.35/dedupe.c:45-68 | With a generator that counts, page i is k*i steps from the job's own seed, or with global dedupe k*(i mod p) steps from the seed of the job whose turn it is. |
| DedupeSeeds.WorkingSetIsBlocks | fio-3.35/dedupe.c:47-68 | A working set of m*p pages is the blocks of m consecutive jobs. |
| DedupeSeeds.SameBlocks | fio-3.35/dedupe.c:60-65 | A whole turn from any job on has the same pages. |
| DedupeSeeds.SamePages | fio-3.35/dedupe.c:31-68 | When the number of jobs divides the page count, every job's working set is the same multiset. |
| DedupeSeeds.SamePagesIff | fio-3.35/dedupe.c:31-68 | Every job's working set is the same multiset for every generator and seeds if and only if the number of jobs divides the page count. |
| StatusString.RunLength | fio-3.35/eta.c:25-29 | Runs are maximal. |
| StatusString.DecimalValue | fio-3.35/eta.c:30 | A printed number reads back as itself. |
| StatusString.DecodeRunsOf | fio-3.35/eta.c:22-31 | The runs with their commas decode to the string. |
| StatusString.Lossless | fio-3.35/eta.c:19-35 | Decoding the condensed string gives back the original, for every input. |
| StatusString.CondensedShort | fio-3.35/eta.c:19-35 | A non-empty string of length m is condensed to at most 5m - 1 characters. |
| StatusString.ScanRun | fio-3.35/eta.c:26-29 | The inner loop measures the maximal run. |
| StatusString.PrintRun | fio-3.35/eta.c:22-31 | The loop body prints one run. |
| StatusString.UpdateCondensedStr | fio-3.35/eta.c:19-35 | Writes the condensed string and its terminator, within five characters for each of the input's and one more. |

## Left out

- Concurrent code is interleaved at the steps of the `Step` functions; the classes beside them run one
  step at a time and do not model two threads inside one method.
- Lists inside the modules other than `FList` are sequences; `FList` proves the pointer operations.
- Unsigned wrap-around of reference counts, semaphore values, flow weights and counters, and the
  scheduler's counters is not modelled; the clock, the trace scaling and the byte ring do model it.
- Floating point: the flow ratios and the scanline steps are exact reals; the partition theorem
  covers any rounding that keeps the boundaries in order and the last start within the picture.
- Allocation failures, and their error paths, in all modules.
- `FileLock`: the hash of a name is a parameter, and two names with one hash share a slot, as in the
  code; the fork-shared memory behind the table is not part of the model.
- Scheduler.FinishesIffNoKnot: says that a returning continuation exists, in which created jobs get
  initialized and running jobs end; it does not bound when they do.
- FileLockCalls.LockReturnsHolding: says what a call that has returned has brought, not when a waiting call
  gets its turn. The return value is not part of the state; a slot counts as held when its call succeeds.
- FileLock.NoDeadlock: says what a thread that cannot run waits for, not that the scheduler is fair to all.
- `Semaphore`: clocks; a timeout may happen at any time while a timed wait sleeps.
- `FlowControl`: the sleep and quiesce of a stalled job; a job leaves only after it has joined, as both
  calls are made by one thread.
- FlowShare.ProportionalShare: counts an increment of the shared counter as the member's own from
  that moment, since the two increments are separate steps.
- `Scheduler`: start delays, jobs terminated before creation, startup timeouts, jobs that exit before
  they are seen initialized, forced reaping of stuck jobs, and the rates.
- FileHash.Index.Add: the test of the hashed flag before the lock is taken is not raced with other
  threads, and a file's name does not change while it is known to the index.
- `FileHash`: the bloom filter and the hash function.
- `CpuClock`: the measuring loop and the trimmed mean; the handling of a wrapping cycle counter.
- CpuClock.Clock.Calibrate: for rates from 1 to 5124095576030 per millisecond, above which the code's
  max_ticks overflows.
- `TraceMerge`: several iterations of a log, read errors, byte swapping, the PDU, the magic number, the
  return value when a file is no block trace, and the parsing of the parameter lists; reading a record
  is reading it into the cursor, the evident intent of a call that passes the address of a pointer.
- TraceMerge.OpenLogs: cursor fields that the code leaves uninitialized (iteration, length and the first
  record's time) count as zero.
- TraceMerge.WrapIff: for scaling percentages that are not negative, as are the other lemmas on the order
  of scaled times and the sufficient condition in MergeLogs; negative ones turn the order around. The
  merge itself is modelled for any, and so is the exact condition for its output to be sorted.
- TraceMerge.UnshiftedIff: the product that is added is not reduced modulo 2^64; the scaled time is.
- `EtaRequests`: sockets, messages and their parsing, the give-up after repeated timeouts (it appears
  as a removal), and what the summed fields of an answer are.
- Fifo.Ring.constructor: for a size that is not a power of two, which the code's masks cannot handle,
  promises nothing about the ring's contents.
- DedupeSeeds.InitSeeds: for at least one unique page; with none, the code writes past an empty
  allocation. The generator and the computation of the page and advancement counts are parameters.
- `ParallelRender`: what a pixel's colour is.
- `eta.c` and `client.c` beyond the functions listed; the I/O engines, verification, the GTK front
  end, option conversion, and the other benchmarks and scripts of the repository.
