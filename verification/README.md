# HellfireOS in Dafny

A model of the parts of HellfireOS whose correctness is not obvious, with
proofs. Loops and state that the C code changes in place are methods over
arrays, sequences and fields; each is proved against a specification function
or predicate, and the laws are lemmas about those. Concurrent code is a state
machine whose steps are the atomic sections or single loads and stores.

| files | part of the system |
|---|---|
| `Queue.dfy` | the ring buffer that all kernel queues are |
| `Sequences.dfy`, `Arithmetic.dfy` | facts about sequences without repetition and about division |
| `Tasks.dfy`, `SchedulerSpec.dfy`, `TaskOpsSpec.dfy` | kernel state, what the scheduler passes and task operations compute, and what they keep |
| `Scheduler.dfy`, `SimpleSchedulers.dfy`, `TaskOps.dfy` | the same in place, over the queues and the TCB table |
| `KernelSteps.dfy`, `TaskStates.dfy`, `KernelRuns.dfy` | one kernel operation or tick, what it does to the states of the tasks and who gets the processor, and runs of them |
| `ProportionalShare.dfy`, `RateMonotonic.dfy` | laws of the two scheduler levels over whole runs |
| `NewTasks.dfy` | that a spawned task meets what these laws ask for |
| `FilterLock.dfy` | the software mutex, one load or store at a time |
| `Semaphores.dfy`, `SemaphoreSets.dfy` | one semaphore, and tasks that use several |
| `ReadersWriters.dfy`, `BoundedBuffer.dfy` | two protocols built on them |
| `LazyHeap.dfy`, `FreeListHeap.dfy` | the allocators MEM_ALLOC 3 and MEM_ALLOC 1, headers in memory |
| `NocMessages.dfy`, `NocWaits.dfy`, `NocReceive.dfy`, `NocDelivery.dfy` | sending messages over the network-on-chip; waiting for packets, receiving, and what is delivered |
| `NocBuffers.dfy` | where the packet buffers are |
| `MergeSort.dfy` | the in-place list sort of CoreMark |
| `ClusterMap.dfy`, `Uhfs.dfy` | the cluster map of the file system: what it means, and its blocks on disk |
| `SoftArithmetic.dfy`, `InternetChecksum.dfy` | software multiply and divide, checksums |

`dafny verify dfyconfig.toml` checks everything.

## How the code is read

- Pointers into `krnl_tcb` are indices; a `panic` is an assertion that its
  guard is false, or an outcome where a caller can reach it.
- `_di`/`_ei` sections are atomic; `mtx` sections are not modelled as such.
- What comes from outside is a parameter: random numbers, memory for stacks
  and queues, routing words, the order in which tasks and interrupts run.
- Task ids, priorities, capacities, deadlines, delays, sizes and checksums
  have the widths of the source and wrap explicitly. The counters `rtjobs`,
  `bgjobs` and `deadline_misses` and the counts of semaphores are unbounded.
- `x & (w - 1)` and `x & ~(w - 1)` for the power of two w are remainder and
  multiple; `|` of disjoint bits is addition.

Where the code differs from its documentation or from what one expects, the
model follows the code:

- `hf_kill` sets the id to -1 before it compares it with `hf_selfid()`
  (sys/kernel/task.c:424-484), so a task that kills itself does not yield.
- `hf_spawn` leaves the flag `critical` as the last task in the slot left it
  (`SpawnedBestEffort`).
- `process_delay_queue` does not reset the state of a task whose delay is
  over; it becomes running when it is scheduled.
- `hf_priorityset(0, 255)` takes the idle task out of the best effort search.
  With no other task ready the search then leaves `krnl_task2` NULL and the
  kernel follows it (`IdleAtLowest`). `SetPrioritySearch` says exactly when the
  call does this harm. No run excludes it: a run that follows the NULL pointer
  ends as `Crashed`.
- `hf_semwait` and `hf_condwait` block the calling task without the test for id
  0 that `hf_block` has. If it is the idle task, which runs `app_main`, the
  search can fail too (`IdleWaits`, exactly when: `BlockSearch`).
- The filter lock indexes `waiting` up to MAX_TASKS - 1, but
  sys/include/mutex.h:15 gives it one slot less. The model has MAX_TASKS slots.
- MEM_ALLOC 3 writes a wrong size into the remainder of a split
  (sys/lib/malloc.c:404-406). It is even, and every free size is recomputed
  from addresses before it is compared. The search starts from `last_free`, so
  earlier holes are not used until the next `hf_free`. Requests above
  0xfffffff4 wrap around.
- MEM_ALLOC 1 wraps around for requests near 4 GiB (`PoolTestExact`), and if
  `base` lay right behind the heap, releasing the last block would merge with
  it (`MergeTestExact`); `HfMalloc` and `Heap` exclude exactly these. Its
  `hf_free` does not add to `krnl_free`.
- `hf_send` and `hf_recv` touch one byte more than the size of a message of
  odd size, so buffers have an even size. An empty message is one packet.
- A packet buffer is lost in exactly five ways, each with a run that shows it:
  a packet is handed to a task without a queue (`LateDeliveryLeaks` for a queue
  just destroyed, `PortZeroLeaks` for port 0, which matches the first entry that
  nobody has taken, `NullQueueLeaks` after a failed `hf_comm_create`); a task is
  killed while `hf_recv` holds a packet; the queue is emptied after `hf_recv` has
  found it not empty, so that NULL is taken for a packet; `hf_comm_create`
  stores its queue over one that holds packets, because another call for the
  same task was faster; a packet arrives between the test and the `hf_free` of
  `hf_queue_destroy`.
- `hf_recv` gives up on a packet after `NOC_PACKET_SLOTS << 3` turns and takes
  whatever is at the head. Its error then tells a wrong sequence number, but
  not a packet of another channel: `ForeignPacketReturned` is a call that
  returns wrong bytes and no error, `QueuedExactly` says when that cannot
  happen. On an empty queue, and for a first packet, it waits for ever; the
  model ends with `Hangs`.
- `core_list_mergesort` mentions the empty list in a comment but writes
  through a NULL tail for it; the list is not empty in the model.
- `__udivmodsi4` with a divisor of zero gives quotient 0 (1 for 0 / 0) and
  the dividend as remainder, and the signed functions follow it;
  `__divsi3(-2^31, -1)` gives -2^31.

## Model

| member | source | states |
|---|---|---|
| `Queues.Queue.constructor` | sys/lib/queue.c:30-47 | an empty queue that holds up to `size` elements in size + 1 slots |
| `Queues.Queue.AddTail` | sys/lib/queue.c:87-99 | the sequence gets the element at its end, or ERROR and no change when it is full |
| `Queues.Queue.RemHead` | sys/lib/queue.c:108-119 | the first element leaves; NULL exactly for the empty queue |
| `Queues.Queue.Get` | sys/lib/queue.c:149-157 | element i of the sequence, whatever the position of head and tail |
| `Queues.Queue.Set` | sys/lib/queue.c:168-174 | exactly element i changes, or ERROR |
| `Queues.Queue.Swap` | sys/lib/queue.c:185-195 | exactly elements i and j change places, or ERROR |
| `Tasks.PartitionFits` | sys/lib/queue.c:87-99 | a partition of live tasks over the three queues never needs more than MAX_TASKS slots in all: the CANT_PLACE panics |
| `SchedulerSpec.DelayStepPartition` | sys/kernel/scheduler.c:25-44 | counting down one delayed task keeps each live task in exactly one queue, once |
| `SchedulerSpec.BestExact` | sys/kernel/scheduler.c:193-214 | the search leaves krnl_task2 NULL if and only if no task of the queue is ready with a remaining priority below 255 |
| `SchedulerSpec.SearchExact` | sys/kernel/scheduler.c:180-220 | sched_priorityrr has a task to return if and only if one in the run queue is ready and critical or has a remaining priority below 255 |
| `TaskOpsSpec.RemoveAt` | sys/kernel/task.c:455-471 | swapping an entry down to the head and removing the head deletes that entry and keeps the order of the others |
| `TaskOpsSpec.RemoveMultiset` | sys/kernel/task.c:455-471 | deletion takes one occurrence away and nothing else |
| `TaskOpsSpec.SpawnKeeps` | sys/kernel/task.c:225-285 | a spawned task joins exactly one queue, and there is room for it |
| `TaskOpsSpec.KillKeeps` | sys/kernel/task.c:424-484 | a killed task leaves every queue; the partition and the idle task stay |
| `TaskOpsSpec.DelayKeeps` | sys/kernel/task.c:498-547 | a delayed task is in the delay queue only, and there is room for it |
| `TaskOpsSpec.SetPriorityKeeps` | sys/kernel/task.c:160-179 | setting any priority of any task keeps the kernel invariant |
| `TaskOpsSpec.SetPrioritySearch` | sys/kernel/task.c:160-179 | after hf_priorityset the search fails if and only if the idle task got 255, is not critical, and no other best effort task is ready below 255 or critical |
| `TaskOpsSpec.IdleAtLowest` | sys/kernel/task.c:160-179 | the failing input: with the idle task alone, hf_priorityset(0, 255) leaves the search without a task |
| `TaskOpsSpec.BlockSearch` | sys/sync/semaphore.c:81-99 | after a wait the search fails if and only if no other best effort task is ready below 255 or critical |
| `TaskOpsSpec.IdleWaits` | sys/sync/semaphore.c:81-99 | the failing input: the idle task, alone in the run queue, waits |
| `TaskOpsSpec.InvEnablesSchedulers` | sys/kernel/scheduler.c:180-278 | the kernel invariant gives both scheduler passes what they rely on |
| `TaskOpsSpec.PriorityRRKeeps` | sys/kernel/scheduler.c:180-220 | the best effort pass keeps the kernel invariant |
| `TaskOpsSpec.RmaKeeps` | sys/kernel/scheduler.c:236-278 | the real time pass keeps the kernel invariant |
| `TaskOpsSpec.RmaSearch` | sys/kernel/scheduler.c:82-114 | the real time pass does not change whether the best effort search finds a task |
| `TaskOpsSpec.DelayStepsKeep` | sys/kernel/scheduler.c:25-44 | ageing any number of delayed tasks keeps the kernel invariant |
| `TaskOpsSpec.RunPickKeeps` | sys/kernel/scheduler.c:101-104 | the processor goes to a live task, and the invariant is kept |
| `Scheduler.Kernel.ProcessDelayQueue` | sys/kernel/scheduler.c:25-44 | in place: each delayed task is counted down once, those that reach 0 move to the queue of their kind; no panic |
| `Scheduler.Kernel.RunQueueNext` | sys/kernel/scheduler.c:46-53 | the head of the run queue moves to its tail and becomes krnl_task; no panic |
| `Scheduler.Kernel.RtQueueNext` | sys/kernel/scheduler.c:55-62 | the same for the RT queue |
| `Scheduler.Kernel.SchedPriorityRR` | sys/kernel/scheduler.c:180-220 | in place, the loops compute PriorityRR: the first critical ready task, or the least remaining priority, whose value is subtracted from the others; no task if and only if the search fails |
| `Scheduler.Kernel.SortByPeriod` | sys/kernel/scheduler.c:246-254 | the exchange sort over the queue permutes it into period order and leaves a sorted queue alone |
| `Scheduler.Kernel.AccountTick` | sys/kernel/scheduler.c:256-267 | one turn of the queue accounts each task once and gives the tick to the first eligible one; the order survives |
| `Scheduler.Kernel.SchedRma` | sys/kernel/scheduler.c:236-278 | in place, the whole real time pass is Rma: sorted, accounted, and 0 or the picked task returned |
| `SimpleSchedulers.SchedRR` | sys/kernel/scheduler.c:130-140 | the loop ends, at the first task to come to the head that is not blocked |
| `SimpleSchedulers.RoundRobinPick` | sys/kernel/scheduler.c:130-140 | the first task of the queue that is not blocked runs, and goes to the tail with the blocked ones before it; only its job counter changes |
| `SimpleSchedulers.SchedLottery` | sys/kernel/scheduler.c:152-165 | the loop ends, and passes over exactly random() % krnl_tasks tasks that are not blocked |
| `SimpleSchedulers.TurnAt` | sys/kernel/scheduler.c:46-53 | n turns are one rotation by n modulo the length of the queue |
| `SimpleSchedulers.KernelDraws` | sys/kernel/scheduler.c:130-165 | the kernel invariant rules out the panics of both schedulers, and while the idle task is not blocked there is a task to pick, so their loops end |
| `SimpleSchedulers.DrawnKeeps` | sys/kernel/scheduler.c:130-165 | a pick of either scheduler is live and keeps the kernel invariant |
| `TaskOps.RunRemove` | sys/kernel/task.c:463-471 | the search and swap-down loops delete the task from the run queue, the others keep their order |
| `TaskOps.RtRemove` | sys/kernel/task.c:455-462 | the same for the RT queue |
| `TaskOps.HfSpawn` | sys/kernel/task.c:225-285 | each outcome: bad parameters, table full, no memory, or spawned in the first free slot, field by field: capacity_rem is the capacity, deadline_rem the deadline, both priorities 100, idle, no delay, counters 0; other tasks are untouched |
| `TaskOps.HfBlock` | sys/kernel/task.c:336-367 | each outcome of blocking a task; the table is the old one but for that state |
| `TaskOps.HfResume` | sys/kernel/task.c:381-412 | each outcome of resuming a task; the table is the old one but for that state |
| `TaskOps.HfPrioritySet` | sys/kernel/task.c:160-179 | each outcome; both priorities of that task are set and nothing else |
| `TaskOps.HfKill` | sys/kernel/task.c:424-484 | panics if and only if the victim is delayed; otherwise its slot is free and idle with id -1, it is off its queue, and nothing else changes |
| `TaskOps.HfDelay` | sys/kernel/task.c:498-547 | panics if and only if the task is already delayed; otherwise it is delayed for that many ticks, last in the delay queue and off its own, and nothing else changes |
| `TaskOps.HfYield` | sys/kernel/task.c:292-323 | the best effort pick, which was not blocked, runs; the task that yields is ready if it was running and stays as it is if it was not; no other task changes its state; a NULL task is followed if and only if the search fails; there are always tasks left |
| `TaskOps.DispatchIsr` | sys/kernel/scheduler.c:82-114 | a tick: nothing while krnl_schedule is 0; else delay queue, real time pass, and the best effort pass only if the first picks nobody, with the same effect on the states as hf_yield; a NULL task is followed if and only if that search fails; there are always tasks left |
| `TaskStates.PassStates` | sys/kernel/scheduler.c:94-105 | a yield or tick leaves a blocked task blocked and gives the processor to one that was not blocked, which is running then; the task that loses it is ready if it was running; no other state, nor any id, priority, period, capacity or deadline changes |
| `TaskStates.OpStates` | sys/kernel/task.c:160-547 | the state that every other operation gives to every task |
| `TaskStates.BestEffortPick` | sys/kernel/scheduler.c:180-220 | the whole best effort pass: after one turn the first critical task that is not blocked runs, loses the flag and goes to the tail; without one the first with the least remaining priority starts over and exactly the others in the queue are charged with that |
| `TaskStates.TickPicks` | sys/kernel/scheduler.c:100-103 | a tick gives the processor to a real time task of least period among those queued or just due, not blocked and with capacity left; to a best effort task only if there is none |
| `KernelRuns.Boot` | sys/kernel/main.c:122-152 | the invariant holds when the kernel starts |
| `KernelSteps.OpKeeps` | sys/kernel/task.c:160-547 | every operation, tick, wait and wake-up keeps the kernel invariant; the idle task stays pickable unless it gets priority 255 or waits |
| `KernelSteps.IdleNeverFails` | sys/kernel/task.c:160-547 | no operation runs into a NULL task while the idle task is not blocked and has a priority below 255 |
| `KernelSteps.TickFailsExact` | sys/kernel/scheduler.c:82-114 | whether the search of a tick fails is the same for every outcome of its real time pass |
| `KernelRuns.Execute` | sys/kernel/task.c:160-547 | any operation, tick, wait or wake-up: it panics exactly where a delayed task is killed or delayed, follows NULL exactly where the search fails, and otherwise does its step and keeps the invariant |
| `KernelRuns.Run` | sys/kernel/task.c:160-547 | every sequence of these passes through the states that the steps say, keeps the invariant in each, ends early only by those two, and never by NULL unless the idle task got priority 255 or waited |
| `KernelSteps.DelayStepsCount` | sys/kernel/scheduler.c:25-44 | after n turns exactly the first n delayed tasks are one tick nearer, and exactly those due have left the queue |
| `KernelSteps.TickCountsDown` | sys/kernel/scheduler.c:82-114 | a whole tick takes exactly one from a delay; the schedulers do not touch it |
| `KernelSteps.OpDelay` | sys/kernel/task.c:160-547 | no operation but a tick changes the delay of a delayed task |
| `KernelRuns.DelayIsExact` | sys/kernel/task.c:498-547 | a delay of d lasts exactly d ticks, whatever other operations and ticks the run has |
| `KernelRuns.DelayLasts` | sys/kernel/task.c:498-547 | hf_delay(id, d) in any run: the task is delayed, and in the delay queue for exactly d ticks |
| `KernelRuns.OneTaskRuns` | sys/kernel/scheduler.c:94-105 | in every state of every run only the task that has the processor is running |
| `KernelRuns.WaitsUntilWoken` | sys/kernel/scheduler.c:82-114 | a blocked task stays blocked and gets the processor in no tick or yield of any run until it is woken, resumed, killed or delayed by id |
| `KernelRuns.WaiterStaysAway` | sys/sync/semaphore.c:81-99 | a task that waits and then yields, or is preempted before it yields, is not on the processor until it is named so |
| `ProportionalShare.StepEffect` | sys/kernel/scheduler.c:180-220 | a call gives the pick its full priority back and takes its remaining priority off everybody else |
| `ProportionalShare.RunAligned` | sys/kernel/scheduler.c:180-220 | (picks + 1) * priority - priority_rem is the same for all tasks after every call of every run |
| `ProportionalShare.ShareLaw` | sys/kernel/scheduler.c:180-220 | the picks of two tasks, weighted with their priorities, never differ by more than the larger priority |
| `ProportionalShare.ShareNoWrap` | sys/kernel/scheduler.c:207-212 | the 8-bit subtraction of remaining priorities never wraps |
| `ProportionalShare.TotalPicksCount` | sys/kernel/scheduler.c:180-220 | every call picks exactly one task of the set |
| `ProportionalShare.NoStarvation` | sys/kernel/scheduler.c:180-220 | no task waits longer than a fixed number of calls, computed from the priorities |
| `NewTasks.SpawnedBestEffort` | sys/kernel/task.c:245-258 | a spawned best effort task joins a set from which ShareRun can start, if and only if its slot was not left critical |
| `RateMonotonic.SomeoneRuns` | sys/kernel/scheduler.c:256-275 | work conservation: if a task is eligible, one at least as far ahead runs |
| `RateMonotonic.HighestRateRuns` | sys/kernel/scheduler.c:236-278 | the tick goes to an eligible task of least period, and to nobody only if no task is eligible |
| `RateMonotonic.TickSorts` | sys/kernel/scheduler.c:246-254 | the queue is in period order after every tick, and once sorted keeps its order |
| `RateMonotonic.AccountingLaw` | sys/kernel/scheduler.c:256-275 | deadline_misses counts exactly the closed windows with unspent capacity; jobs are capacity times windows less what was not spent; for every capacity, period and deadline |
| `RateMonotonic.JobBound` | sys/kernel/scheduler.c:256-275 | at most `capacity` jobs per window, with equality exactly if no window was missed |
| `RateMonotonic.WindowLaw` | sys/kernel/scheduler.c:261-265 | how many windows have closed, and what is left of the open one, is a function of deadline, period and the number of ticks alone, for every task and run; a deadline of 0 wraps around |
| `NewTasks.SpawnedRealTime` | sys/kernel/task.c:245-258 | a spawned real time task is at the start of a window that its deadline closes; it meets the hypothesis of AccountingLaw, and that of the guarantee on deadline_rem if and only if the deadline is the period |
| `NewTasks.SpawnedJobs` | sys/kernel/scheduler.c:256-275 | jobs and misses of a spawned task after n ticks: at most `capacity` jobs in each window opened by the clock, and exactly that if and only if no deadline was missed |
| `NewTasks.SpawnedInWindow` | sys/kernel/task.c:245-258 | spawning tasks with their periods as deadlines keeps the whole RT queue in what RateMonotonicGuarantee asks for |
| `RateMonotonic.SupplyTick` | sys/kernel/scheduler.c:256-275 | what a task can still run in the rest of a window does not grow, and shrinks by one when it runs |
| `RateMonotonic.OnTimeTick` | sys/kernel/scheduler.c:236-278 | a tick keeps the slack of a task that meets its bound, and adds no miss |
| `RateMonotonic.RateMonotonicGuarantee` | sys/kernel/scheduler.c:236-278 | if C_i plus the sum over the tasks ahead of (ceil(P_i / P_j) + 1) * C_j is at most P_i, task i never misses a deadline, in any run in which it is not blocked, whatever the tasks behind it do |
| `FilterLock.StepInv` | sys/sync/mutex.c:84-103 | every single load or store of every task keeps the invariant |
| `FilterLock.FilterLaw` | sys/sync/mutex.c:84-95 | at most MAX_TASKS - l tasks are past level l |
| `FilterLock.MutualExclusion` | sys/sync/mutex.c:84-103 | at most one task is between hf_mtxlock and hf_mtxunlock, for any number of tasks and any interleaving |
| `FilterLock.NoDeadlock` | sys/sync/mutex.c:84-95 | in no reachable state do all tasks that want the lock spin |
| `FilterLock.FilterMutex.StoreLevel` | sys/sync/mutex.c:90 | the store to level[] is that step of the state machine |
| `FilterLock.FilterMutex.StoreWaiting` | sys/sync/mutex.c:91 | the store to waiting[] is that step |
| `FilterLock.FilterMutex.LoadLevel` | sys/sync/mutex.c:93 | the first load of the spin condition is that step |
| `FilterLock.FilterMutex.LoadWaiting` | sys/sync/mutex.c:93 | the second load of the spin condition is that step |
| `FilterLock.FilterMutex.Unlock` | sys/sync/mutex.c:97-103 | the store of hf_mtxunlock is that step |
| `Semaphores.WaitOk` | sys/sync/semaphore.c:81-99 | a wait keeps: queue length = max(0, -count), queued tasks distinct |
| `Semaphores.PostOk` | sys/sync/semaphore.c:110-125 | a post keeps it, cannot panic, and wakes the head of the queue exactly if somebody waits |
| `Semaphores.Semaphore.SemWait` | sys/sync/semaphore.c:81-99 | in place: the caller is queued exactly if the count gets negative, and there is room |
| `Semaphores.Semaphore.SemPost` | sys/sync/semaphore.c:110-125 | in place: the head is taken off exactly if the count was negative |
| `Semaphores.StepLaw` | sys/sync/semaphore.c:81-125 | waits, posts, yields and ticks, also between _ei and hf_yield, keep the law; neither panic is possible |
| `SemaphoreSets.WaitKeeps` | sys/sync/semaphore.c:81-99 | with any set of semaphores, after a wait each queue still holds exactly the tasks that wait for it |
| `SemaphoreSets.PostKeeps` | sys/sync/semaphore.c:110-125 | the same after a post and the wake-up it causes |
| `SemaphoreSets.PostWakes` | sys/sync/semaphore.c:110-125 | a post cannot panic, and wakes the first waiting task exactly if the count was negative |
| `Semaphores.RunLaw` | sys/sync/semaphore.c:81-125 | in every reachable state count = initial + posts - waits, the queued tasks are the blocked ones, and wake-ups are FIFO with none lost |
| `Semaphores.SemaphoreBound` | sys/sync/semaphore.c:81-125 | never more returns from hf_semwait than the initial value and the posts allow |
| `ReadersWriters.StepInv` | app/readers_writers/readers_writers.c:9-51 | every step of a reader or writer keeps the bookkeeping of rc and w_db |
| `ReadersWriters.PostDb` | app/readers_writers/readers_writers.c:16-25 | w_db is held by one writer, or by the readers exactly while rc says so |
| `ReadersWriters.ReadersWritersSafe` | app/readers_writers/readers_writers.c:9-51 | for any number of readers and writers and any interleaving a writer writes alone, and no hf_sempost panics |
| `BoundedBuffer.StepInv` | app/sem_test1/sem_test1.c:10-38 | every step keeps the count of tokens, indices and histories |
| `BoundedBuffer.PutIsSafe` | app/sem_test1/sem_test1.c:15-19 | a put goes to the slot after the last item and overwrites nothing unread |
| `BoundedBuffer.GetIsNext` | app/sem_test1/sem_test1.c:29-33 | a get reads the oldest item that was not read |
| `BoundedBuffer.BoundedBufferFifo` | app/sem_test1/sem_test1.c:10-38 | in every run what was taken is a prefix of what was put, at most N items are stored, and one task is inside m |
| `BoundedBuffer.NoDeadlock` | app/sem_test1/sem_test1.c:10-38 | with a producer and a consumer some task is never waiting |
| `LazyHeap.FitTestExact` | sys/lib/malloc.c:390 | the 32-bit fit test is the intended one for exactly the requests up to 0xfffffff4 |
| `LazyHeap.MergeKeeps` | sys/lib/malloc.c:384-389 | coalescing keeps the tiling, the live blocks and the free byte count |
| `LazyHeap.SplitKeeps` | sys/lib/malloc.c:399-408 | a split keeps the tiling, adds one live block, and takes its bytes from the free count |
| `LazyHeap.ReleaseKeeps` | sys/lib/malloc.c:356-366 | a release keeps the tiling and takes one live block away |
| `LazyHeap.BlocksDisjoint` | sys/lib/malloc.c:356-413 | blocks do not overlap and lie inside the heap |
| `LazyHeap.SplitStored` | sys/lib/malloc.c:401-407 | the remainder of a split is stored well although its size word is wrong, and no live payload is touched |
| `LazyHeap.Conservation` | sys/lib/malloc.c:356-413 | free and used bytes always make up the heap |
| `LazyHeap.Heap.constructor` | sys/lib/malloc.c:415-429 | one free block up to the sentinel |
| `LazyHeap.Heap.Coalesce` | sys/lib/malloc.c:386-389 | the run becomes one block whose size is computed from addresses, never from a stale word |
| `LazyHeap.Heap.Sweep` | sys/lib/malloc.c:376-394 | the loop ends, at the first run from last_free on that fits, or at the sentinel if none does; live blocks and payloads stay |
| `LazyHeap.Heap.HfMalloc` | sys/lib/malloc.c:368-413 | first fit over coalesced runs from last_free on; NULL if and only if no such run fits; live blocks and payloads stay; krnl_free drops by size + 8; last_free is the block handed out, and stays when NULL is returned |
| `LazyHeap.Heap.HfFree` | sys/lib/malloc.c:356-366 | exactly that block is free again, the others are untouched, krnl_free grows by size + 8, and the next search starts from the front |
| `LazyHeap.Heap.FreeThenMalloc` | sys/lib/malloc.c:356-413 | hf_malloc after hf_free gives NULL if and only if no run of free blocks of the whole heap fits; never for a request that fits the released block, and then at or before that block |
| `LazyHeap.Heap.FreeCounter` | sys/lib/malloc.c:356-430 | krnl_free is the heap less what is in use |
| `FreeListHeap.PoolTestExact` | sys/lib/malloc.c:197-214 | the 32-bit size computation and pool test are right for exactly the requests that do not wrap around |
| `FreeListHeap.MergeTestExact` | sys/lib/malloc.c:165-167 | the merge test finds a free neighbour and nothing else, except if `base` lies right behind the pool |
| `FreeListHeap.BreakAt` | sys/lib/malloc.c:160-163 | the search loop of free2 stops exactly at the free block before the released one, wherever `base` lies |
| `FreeListHeap.LinkedStored` | sys/lib/malloc.c:165-177 | linking and merging leaves the circular list in address order |
| `FreeListHeap.GiveBackNoPair` | sys/lib/malloc.c:165-177 | no two free neighbours stay unmerged |
| `FreeListHeap.TilesDisjoint` | sys/lib/malloc.c:153-246 | blocks do not overlap and lie inside the pool |
| `FreeListHeap.Heap.Search` | sys/lib/malloc.c:160-163 | the loop ends, at the predecessor of the block |
| `FreeListHeap.Heap.Free2` | sys/lib/malloc.c:153-180 | the block and its free neighbours become one list element |
| `FreeListHeap.Heap.Morecore` | sys/lib/malloc.c:189-207 | the pool grows if and only if there is room, and then a block that is large enough is in the list |
| `FreeListHeap.Heap.FirstFit` | sys/lib/malloc.c:223-245 | the loop ends after at most two rounds; NULL if and only if nothing fits and the pool cannot grow; otherwise the tail of the first block that fits after freep, around the circle, and freep moves in front of it |
| `FreeListHeap.Heap.HfMalloc` | sys/lib/malloc.c:209-246 | a new live block apart from all others, of the least number of quantas that holds the size and a header, cut from the first one that fits after freep; the pool grows only if nothing fits; payloads stay |
| `FreeListHeap.Heap.HfFree` | sys/lib/malloc.c:182-187 | exactly that block leaves the live ones; payloads stay; freep is the free block before it |
| `NocMessages.HfSend` | drivers/noc/noc.c:381-427 | as many packets as the message needs, each with the routing word, its length, source and target port, size, sequence number and channel, and with its share of the bytes or the filler; a task without a queue gets an error |
| `NocMessages.CountBounds` | drivers/noc/noc.c:318-319 | every packet but the last is full and the last one reaches the end of the message |
| `NocReceive.Receiver.Isr` | drivers/noc/noc.c:103-135 | a well formed packet to the port of the task goes to the tail of the receive queue in a free buffer, or is dropped exactly if there is no buffer or no room; the packet in the hand of hf_recv stays |
| `NocReceive.Receiver.Look` | drivers/noc/noc.c:295-307 | one poll: the wanted packet at the head is found, or the queue is turned, while packets arrive in between |
| `NocWaits.NearTurns` | drivers/noc/noc.c:333-347 | a turn brings a wanted packet nearer to the head, so the cap on turns is not reached for one that comes in time |
| `NocWaits.MatchArrives` | drivers/noc/noc.c:103-135 | a moment at which no packet of the channel is dropped leaves a wanted packet in its place, or still due |
| `NocReceive.Receiver.WaitFirst` | drivers/noc/noc.c:295-307 | the wait for the first packet ends with it at the head, and only hangs if nothing more arrives and it is not there |
| `NocReceive.Receiver.WaitNext` | drivers/noc/noc.c:333-347 | the wait for a later packet never gives up on one that comes within 14 * NOC_PACKET_SLOTS moments if none of the channel is dropped, nor on one that is the next to come at all; it only hangs on an empty queue when nothing more arrives |
| `NocReceive.Receiver.Assemble` | drivers/noc/noc.c:295-364 | the loops end; as many packets as the first one says are taken, their payloads are in the buffer, and the error tells exactly whether their numbers are in sequence |
| `NocDelivery.StillDue` | drivers/noc/noc.c:312-350 | a packet that was due when the call started is still due when its wait starts |
| `NocReceive.JoinedMessage` | drivers/noc/noc.c:321-358 | the payloads of the packets of a message, one after the other, are the message |
| `NocReceive.Receiver.HfRecv` | drivers/noc/noc.c:285-365 | every packet that came in is in the queue or was taken, and all buffers are back; what is returned are the packets taken; each wait finds its packet if that comes in time; packets that come in order are taken in order; a task without a queue gets an error |
| `NocDelivery.SequenceDelivers` | drivers/noc/noc.c:285-365 | round trip: if the packets on the channel are those of one message and the ones taken are in sequence, exactly the bytes sent are returned |
| `NocDelivery.TimelyReturns` | drivers/noc/noc.c:285-365 | if no packet of the channel is dropped and each one comes within 14 * NOC_PACKET_SLOTS moments from the start of its wait, the call returns and takes them in sequence, however long the message |
| `NocDelivery.DueReturns` | drivers/noc/noc.c:285-365 | the same if all come within 14 * NOC_PACKET_SLOTS moments from the start of the call |
| `NocDelivery.QueuedExactly` | drivers/noc/noc.c:285-365 | when nothing arrives during the call, it returns the packets in sequence if and only if each of them is in the queue |
| `NocDelivery.NextDelivers` | drivers/noc/noc.c:285-365 | if the packets of a message are the next to come and none is dropped, the message is delivered, whatever its length and whenever they come, and all later packets are untouched |
| `NocDelivery.ReceiveLoop` | app/noc_test/noc_test.c:32-38 | messages on the only channel in use are received completely and in order, unless a packet is dropped |
| `NocDelivery.ForeignTaken` | drivers/noc/noc.c:333-353 | with packet 1 and a foreign packet numbered 2 in the queue, hf_recv takes both and reports no error |
| `NocDelivery.ForeignPacketReturned` | drivers/noc/noc.c:333-353 | a concrete call that returns the bytes 1, 2, 9, 9 for the message 1, 2, 3, 4 and no error |
| `NocBuffers.StepConserves` | drivers/noc/noc.c:103-365 | an event keeps every packet buffer in exactly one place if and only if it is none of the five: packet for a task without a queue, kill of a task inside hf_recv, remhead on a queue emptied after the check, queue stored over one with packets, queue freed with a packet in it |
| `NocBuffers.IgnoredResultsAreOk` | drivers/noc/noc.c:226-228 | the addtail calls whose results are ignored never fail |
| `NocBuffers.CreatePlaces` | drivers/noc/noc.c:176-204 | hf_comm_create keeps every buffer in its place if and only if it does not overwrite a queue with packets |
| `NocBuffers.NoLeaks` | drivers/noc/noc.c:62-365 | from boot on, over every interleaving of single tests and stores without one of the five, no buffer leaks |
| `NocBuffers.UndeliverableWhere` | drivers/noc/noc.c:103-204 | unless a failed hf_comm_create has stored NULL over a queue, a packet has no queue to go to only if its port is 0 or the queue has been freed |
| `NocBuffers.ArrivalQueued` | drivers/noc/noc.c:103-135 | a packet of the right length to the port of a live task takes the first free buffer to the tail of the queue of that task and changes nothing else |
| `NocBuffers.ArrivalDropped` | drivers/noc/noc.c:103-135 | without a free buffer, with a wrong length, for no task, a dead task or a full queue, the packet is dropped and its buffer is free again |
| `NocBuffers.MessageQueued` | drivers/noc/noc.c:103-135 | with what HfSend promises of them, the packets of a message come to the queue of the task on the target port in order, as long as there are buffers and room |
| `NocBuffers.LateDeliveryLeaks` | drivers/noc/noc.c:226-235 | a run in which a packet arrives while hf_comm_destroy is half done, and its buffer is lost |
| `NocBuffers.PortZeroLeaks` | drivers/noc/noc.c:117-126 | a run in which a packet to port 0 is lost |
| `NocBuffers.NullQueueLeaks` | drivers/noc/noc.c:180-204 | a run in which a failed hf_comm_create stores NULL over a queue, and the next packet is lost |
| `NocBuffers.OverwrittenQueueLeaks` | drivers/noc/noc.c:180-204 | a run in which two calls of hf_comm_create for one task race, and a queue with a packet is overwritten |
| `NocBuffers.FreedQueueLeaks` | sys/lib/queue.c:56-65 | a run in which a packet arrives between the test and the hf_free of hf_queue_destroy |
| `NocBuffers.KilledReceiverLeaks` | drivers/noc/noc.c:309-330 | a run in which the receiver is killed with a packet in hand |
| `NocBuffers.DrainedQueueLeaks` | drivers/noc/noc.c:295-311 | a run in which the queue is drained after the check, and NULL is taken for a packet |
| `MergeSort.MergeSorted` | app/coremark/core_list_join.c:454-478 | merging two sorted runs gives a sorted and stable run |
| `MergeSort.PassRuns` | app/coremark/core_list_join.c:439-482 | a pass turns sorted runs of length insize into sorted runs of twice the length |
| `MergeSort.MergePair` | app/coremark/core_list_join.c:442-478 | the relinking loops compute the merge of two neighbouring runs in memory |
| `MergeSort.SortPass` | app/coremark/core_list_join.c:433-484 | one pass over the list in memory, ended by NULL |
| `MergeSort.CoreListMergesort` | app/coremark/core_list_join.c:426-496 | for every total preorder and list that is not empty: the same nodes, sorted and stable; the three loops end; other nodes are untouched |
| `MergeSort.SortedAndStable` | app/coremark/core_list_join.c:463-465 | the order means: never greater, and equivalent elements as they were |
| `ClusterMap.AllocChains` | fs/uhfs.c:39-42 | a new chain of one block; every used block stays on exactly one chain; the free count drops by 1 |
| `ClusterMap.ExtendChains` | fs/uhfs.c:474-479 | a free block linked behind a chain; every used block stays on exactly one chain; the free count drops by 1 |
| `ClusterMap.FreeChains` | fs/uhfs.c:892-904 | a freed chain is gone, the others stay; the free count grows by its length |
| `Uhfs.StoreEntry` | fs/uhfs.c:39-42 | a store to an entry changes the entry of one block, and neither map links nor fixed entries |
| `Uhfs.TestsExact` | fs/uhfs.c:202-220 | the 32-bit tests of hf_mkfs are right for every block of the volume if and only if NoWrap holds of its size |
| `Uhfs.Volume.FillCmb` | fs/uhfs.c:202-213 | a new map block: link to the next one, free entries exactly for the blocks that the disk has |
| `Uhfs.Volume.MakeRegions` | fs/uhfs.c:193-222 | the loop ends; every map block is made and every other block cleared |
| `Uhfs.Volume.MakeRoot` | fs/uhfs.c:225-236 | the root takes block 2 and nothing else changes |
| `Uhfs.Volume.HfMkfs` | fs/uhfs.c:193-240 | after formatting a data block is free if and only if it is not the root; the root is a chain of one block; the other blocks are as they should be |
| `Uhfs.Volume.HfGetFree` | fs/uhfs.c:322-347 | the number of free data blocks, -1 if not mounted; nothing on the disk changes |
| `Uhfs.Volume.GetFreeBlock` | fs/uhfs.c:11-45 | the lowest free block becomes the end of a chain; 0 if and only if none is free |
| `Uhfs.Volume.NewChain` | fs/uhfs.c:419-427 | a new file or directory: one chain more, one free block less, other data blocks untouched |
| `Uhfs.Volume.ExtendChain` | fs/uhfs.c:460-482 | the chain gets one more block at its end although its map block may have been rewritten meanwhile |
| `Uhfs.Volume.SetEntry` | fs/uhfs.c:684-689 | one entry is read and replaced |
| `Uhfs.Volume.FreeChain` | fs/uhfs.c:892-904 | the loop ends and frees exactly the blocks of the chain |
| `SoftArithmetic.MulSI3` | lib/libc/libc.c:600-610 | the product modulo 2^32 |
| `SoftArithmetic.Carries` | lib/libc/libc.c:617-628 | no carry between the 16-bit halves is lost |
| `SoftArithmetic.MulDSI3` | lib/libc/libc.c:612-631 | the exact 64-bit product |
| `SoftArithmetic.MulDI3` | lib/libc/libc.c:633-644 | the signed product: within 64 bits, and congruent to the product modulo 2^64 |
| `SoftArithmetic.DivideRound` | lib/libc/libc.c:654-661 | one round of the division keeps dividend = quotient * divisor + remainder |
| `SoftArithmetic.UDivModSI4` | lib/libc/libc.c:646-665 | quotient or remainder for every divisor, and what a divisor of zero gives; both loops end |
| `SoftArithmetic.TruncLaw` | lib/libc/libc.c:667-706 | the truncated quotient and its remainder make up the dividend, the remainder has its sign |
| `SoftArithmetic.DivSI3` | lib/libc/libc.c:667-687 | the truncated quotient if and only if not -2^31 / -1, and what a divisor of zero gives |
| `SoftArithmetic.ModSI3` | lib/libc/libc.c:689-706 | the remainder with the sign of the dividend, the dividend itself for a divisor of zero |
| `SoftArithmetic.UDivModDI4` | lib/libc/libc.c:787-812 | 64-bit quotient and remainder for every divisor that is not zero; both loops end |
| `InternetChecksum.FoldsToAllOnes` | net/ustack/ip.c:17-18 | folding gives 0xffff exactly for positive multiples of 0xffff |
| `InternetChecksum.IpChksum` | net/ustack/ip.c:10-20 | the folded sum; 0xffff if and only if the header verifies |
| `InternetChecksum.SetChecksum` | net/ustack/ip.c:111-114 | the two bytes stored make the header verify |
| `InternetChecksum.IpOut` | net/ustack/ip.c:89-114 | every header built passes the checks of ip_in, the rest of the packet is untouched |
| `InternetChecksum.ReplyVerifies` | net/ustack/icmp.c:15-24 | the updated checksum verifies if and only if the request's did, for any payload length |
| `InternetChecksum.IcmpEchoReply` | net/ustack/icmp.c:10-37 | in place: the type is that of a reply, the checksum has grown by 0x800 in one's complement and verifies if and only if it did, every other byte of the message is as it was, and the header for the sender is rebuilt; -1 and no change for other messages |

## Left out

- Context save and restore, stacks and their magic words, timers, device drivers, register access: hardware.
- MEM_ALLOC 0 and MEM_ALLOC 2, `hf_calloc`, `hf_realloc`: MEM_ALLOC 0 reads through NULL when memory is exhausted, MEM_ALLOC 2 sweeps like the allocator that is modelled.
- Queues.Queue.constructor: the two NULL returns when `hf_malloc` fails.
- `hf_queue_remtail`: it reads past the last element and has no caller in the kernel.
- `tsl` and the hardware mutex: one atomic instruction.
- Fairness and liveness of the spin lock and of the applications beyond the absence of deadlock: they need assumptions about the scheduler.
- Semaphores whose waiters are resumed, killed or delayed by others: the law does not hold there.
- Calls through a NULL or freed queue pointer, which `hf_comm_destroy` does not clear: `hf_recv` after another task's `hf_comm_destroy`, a second `hf_comm_destroy` for the same task, `hf_comm_destroy` before `hf_comm_create`. (`hf_comm_create` after `hf_comm_destroy` finds the pointer and gives up, as in the model.)
- NocMessages.HfSend: the network interface that the packets are written to is not part of this model.
- NocReceive.Receiver.Isr: malformed packets and packets for other tasks during a call are in `NocBuffers` only; they take no room in this queue, but those for other tasks take buffers from the pool.
- NocDelivery.ReceiveLoop: the network in between, and a message that starts on the channel while another one is not complete.
- Two senders that share one channel to one port: their packets cannot be told apart.
- ProportionalShare.ShareLaw: blocked tasks and calls of `hf_priorityset` inside a run are excluded; line 211 of sys/kernel/scheduler.c can wrap for a blocked task.
- LazyHeap.Heap.HfMalloc: requests above 0xfffffff4 are excluded (`FitTestExact`).
- FreeListHeap.Heap.HfMalloc: requests that wrap around are excluded (`PoolTestExact`).
- Uhfs.Volume.HfMkfs: disks of at least 3 blocks, the block size is the sector size, and volumes on which a 32-bit product wraps are excluded by exactly `NoWrap` (`TestsExact`); the return codes of lines 145-164 are not modelled.
- Directory entries, path lookup, file data and the stubs of the file operations: the path search keeps the parent's map block when it descends.
- Other functions of CoreMark's lists, `__moddi3`, the 64-bit shifts, soft float and fixed point.
- SoftArithmetic.UDivModDI4: a divisor of zero divides by zero in the source too and is excluded.
- MergeSort.CoreListMergesort: the comparator does not change the data that it compares.
- `ip_in`'s dispatch and the self-configuration by ping, ARP, UDP and the link layers.
- InternetChecksum.IpOut: netif_send is not part of this model.
