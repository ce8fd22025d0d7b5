# Verified models of an xv6 with pluggable schedulers

A Dafny model of the parts of this xv6 kernel and of its user programs whose correctness depends on
invariants over whole runs, and proofs of those invariants. The kernel is the single-device teaching
kernel with scheduling classes (`simple`, FIFO, RR, MLFQ); the configured class, MLFQ, is the one
modelled.

Each cluster has the same two layers.

- **Values.** Datatypes, functions and lemmas: what an operation does to a sequence, a map or a state, and
  what every run of such operations keeps.
- **In place.** Classes with the fields of the C code (node pools, links, bitmaps, rings, buffers) and
  methods with its loops. The postcondition of an operation that is a step of some run equates the new
  abstract state with that step, so the run theorems apply to it.

| cluster | files |
|---|---|
| run queues and the process life cycle on one CPU | `ProcTable`, `RunQueue`, `RunQueueClass`, `SchedSpec`, `SchedProofs`, `SchedRuns`, `SchedPanics`, `SchedKills`, `SchedLevels`, `SchedWaking`, `SchedForks`, `SchedSinking`, `SchedSlices`, `SchedReaping`, `Scheduler` |
| load balancing over all CPUs | `BalanceSpec`, `LoadBalance` |
| blocks, files and the image builder | `FsSpec`, `FsWrite`, `FsTrunc`, `FileSystem`, `FsRuns`, `FsFiles`, `Mkfs`, `MkfsMain` |
| directories, paths, link counts | `Directory`, `Paths`, `LinkSpec`, `LinkProofs`, `LinkRuns`, `LinkExact`, `LinkLeaks`, `LinkTidy`, `LinkRefs` |
| buffer cache and disk queue | `BioSpec`, `BioHolds`, `BufCache` |
| kernel and user memory allocators | `KallocSpec`, `Kalloc`, `Umalloc`, `UserHeap` |
| shell parser | `ShellSpec`, `ShellProofs`, `ShellRenders`, `Shell` |
| regular expressions | `Grep` |
| pipes | `PipeSpec`, `PipeRuns`, `PipeRing` |
| console input | `ConsoleSpec`, `ConsoleEdits`, `Console` |
| shared by several | `Lists`, `Words`, `Options` |

`dafny verify dfyconfig.toml` checks all of it.

## How the code was rendered

- Pointers into a pool or table are indices, -1 for null. Structures that are updated in place are `seq` or
  `map` fields that methods reassign; buffers of fixed size are arrays.
- Unsigned arithmetic that can wrap is written with `% 0x1_0000_0000`; other counters are unbounded.
- A section of kernel code under a lock is one step; a process that sleeps inside a call takes one step up
  to the sleep and goes on with another step when it is awake. On one CPU `sleep` runs from its first lock
  to the context switch without interruption.
- Calls of `panic` are results: a flag, -1, or a separate constructor. Where the code cannot reach a panic,
  that is proved.
- Disk requests complete; `sbrk` either fails or returns memory the process did not have before.

## Where the code does not do what its callers might expect

Each of these is stated as an exact condition.

- `yield_proc_fifo` on two or more nodes leaves the tail pointing at the head, so that no list remains
  (`NodePool.YieldFifoBreaks`). `yield_proc` reaches it exactly when the first two levels are empty
  (`Scheduler.Cpu.YieldProc`). On one CPU that does not happen: it is called while the idle process runs, and
  then the second and third level are empty, before and after the load balancing of that tick. With several
  CPUs it does: an idle CPU that `load_balance_MLFQ` has given two or more processes at the third level and none
  above breaks that list in the same tick (`LoadBalance.Machine.IdleTick`, `LoadBalance.TickBreaksExactly`,
  `LoadBalance.BreaksOnTick`). Third levels that long do come about (`SchedSinking.ThirdLevelFills`).
- `dequeue_proc_fifo` does not move the tail pointer: the list survives exactly when the process was not the
  tail of a longer list (`NodePool.DequeueFifo`). Its callers remove the head.
- The scheduler panics exactly when the first process exits, when `kill` finds its target asleep, or with
  "zombie exit" (`SchedRuns.PanicsExactly`). `kill` takes the pid of an idle process like any other, and a
  killed idle process is made to exit at its next trap; from then on the CPU panics as soon as it has nothing
  else to run. That panic can still be reached, with no further `kill`, exactly in the runs in which the idle
  process has been killed (`SchedPanics.CanPanicExactly`, `SchedPanics.KilledIdlePanics`).
- `allocproc` does not clear the mark of a killed process. A child is born killed exactly if some `kill` found
  its slot after the last process in it was alive, such as an unused slot by its pid 0
  (`SchedKills.BornKilledExactly`, `SchedKills.BornKilled`).
- A tick of the idle process balances the top level with itself and then rotates it: of two or more processes that
  became runnable meanwhile the first one is put behind all others (`SchedLevels.IdleTickOrder`).
- `balloc` looks at all bits of the last bitmap block: it returns a block below the size of the disk exactly
  when one is free there (`FsRuns.BallocWithinDisk`, `FsRuns.BallocBeyondDisk`).
- `itrunc` does not free the indirect block itself (`FsTrunc.FreedExactly`, `FsTrunc.IndirectLeaks`).
- Rounding up the size of the root directory in mkfs makes a hole exactly when the size was a multiple of the
  block size already. So the disk mkfs makes of some files satisfies the kernel's invariant exactly when their
  number plus two is not a multiple of 32 (`MkfsMain.Build`); with thirty files it does not
  (`MkfsMain.BuildThirty`).
- `kfree` notices only that its first byte is free; any other overlap with a free run ruins the list, even
  leaving aside that the junk fill writes over its links (`KallocSpec.KfreeSoundExactly`,
  `KallocSpec.OverlapUnnoticed`).
- `malloc` hands out too little for the last seven sizes of 32 bits, and asks `sbrk` for nothing for the eight
  before them (`Umalloc.UnitsExactly`). It then frees a block into its list that lies wholly beyond the memory of
  the process (`UserHeaps.MorecoreExactly`).
- A killed writer that still has more than 512 bytes for a pipe fills it and fails without waking a sleeping
  reader (`PipeRuns.StepAlert`, `PipeRuns.LostWakeup`).
- While `iput` is freeing an inode, `ialloc` can already find it free on disk; `iget` then returns the slot
  that is marked as read with type 0, and `create` enters a name for an inode that stays free
  (`LinkProofs.CreateExactly`, `LinkRuns.StaleCreate`).
- The entries of a removed directory are lost when it is freed, its ".." always among them: the parent, and
  every file made in it after its removal, keeps a link too many. Without the race just described nothing else
  makes a link count differ from the number of names and calls under way (`LinkExact.StepExact`, `LinkExact.RunCounts`,
  `LinkExact.RootDrifts`, `LinkExact.RemovedDirectoryLoses`). An inode that has lost a name this way is never
  freed (`LinkLeaks.NeverFreed`), so an inode that nobody names or uses any more is leaked exactly if it has
  (`LinkLeaks.LeaksExactly`). A directory that once held another one is (`LinkLeaks.RemovedParentLeaks`). Unlink
  takes away only empty directories, so as long as nothing is entered into a directory whose own name is gone, a
  ".." is all that is lost: files have exact counts and do not leak, and a directory's count exceeds its names by
  exactly the number of directories within it that were removed (`LinkTidy.DriftsExactly`, `LinkTidy.FilesExact`,
  `LinkTidy.LeaksAreParents`).

## Model

| member | source | states |
|---|---|---|
| `NodePool.EnqueueRing` | sched_RR.c:18-39 | the pointer updates turn the ring into the same ring with the process appended, the node taken from the free list, and pool and free list stay a partition of the nodes |
| `NodePool.DequeueRing` | sched_RR.c:41-65 | unlinking the k-th node leaves exactly the other processes in order, also when it was the head or the only one |
| `NodePool.RotateRing` | sched_RR.c:67-70 | moving the entry pointer is rotation of the queue |
| `NodePool.EnqueueFifo` | sched_fifo.c:14-31 | the list with the process appended at its tail |
| `NodePool.DequeueFifo` | sched_fifo.c:33-51 | the k-th node leaves; the result is a list again if and only if it was not the tail of a longer list, and always is once the tail pointer is moved |
| `NodePool.YieldFifoBreaks` | sched_fifo.c:53-62 | on two or more nodes no list from head to tail remains, whatever sequences are proposed for it |
| `RunQueues.RunQueue.constructor` | proc.c:668-685 | all nodes free, the queue empty, valid both as ring and as list |
| `RunQueues.RunQueue.EnqueueRR` | sched_RR.c:18-39 | contents grow by the process at the end; a fresh slice only if it comes from another queue |
| `RunQueues.RunQueue.DequeueRR` | sched_RR.c:41-65 | the first occurrence of the process leaves, the others keep their order; the last node leaves when the process is not there; the ring stays valid if and only if it was there or is not the only one |
| `RunQueues.RunQueue.YieldRR` | sched_RR.c:67-70 | contents are rotated |
| `RunQueues.RunQueue.EnqueueFifo` | sched_fifo.c:14-31 | contents grow by the process at the end, its slice untouched |
| `RunQueues.RunQueue.DequeueFifo` | sched_fifo.c:33-51 | the first occurrence leaves, or the tail when there is none; the list stays valid if and only if the node was not the tail of a longer list |
| `RunQueues.RunQueue.YieldFifo` | sched_fifo.c:53-62 | at most one node: nothing changes; more: no valid list is left |
| `RunQueues.RunQueue.Pick` | sched_RR.c:72-77 | the first of the contents, null for an empty queue |
| `RunQueues.RunQueue.GetProcRR` | sched_RR.c:128-153 | the ring keeps its head and the larger half, the other half is returned in order, at most NPROC/2 processes, the panic is not reached |
| `RunQueues.RunQueue.GetProcFifo` | sched_fifo.c:110-132 | the same for the list, with the tail pointer moved when needed |
| `SchedProofs.PickHighest` | sched_MLFQ.c:33-40 | the pick is the head of the highest non-empty level, the idle process only if all are empty |
| `SchedProofs.TickIdleKeeps` | trap.c:104-115 | a tick of the idle process, the balancing of the CPU with itself and then yield, keeps the kernel invariant |
| `SchedProofs.ShuffledSame` | sched_MLFQ.c:75-115 | a queue balanced with itself holds the same processes, once each |
| `SchedProofs.TickUserKeeps` | sched_MLFQ.c:42-73 | a tick of a user process, with or without demotion, keeps the kernel invariant |
| `SchedProofs.AllocatedKeeps` | proc.c:97-117 | allocproc keeps the kernel invariant, pids stay distinct |
| `SchedProofs.AdoptedKeeps` | proc.c:174-223 | linking the half-made child to its parent keeps it |
| `SchedProofs.AbandonedKeeps` | proc.c:174-223 | giving the child up for want of memory keeps it |
| `SchedProofs.ForkedKeeps` | sysproc.c:10-25 | making the child runnable keeps it |
| `SchedProofs.SleptKeeps` | proc.c:405-451 | sleep up to its context switch keeps it, with no zombie child for a process that sleeps in wait |
| `SchedProofs.WokenKeeps` | proc.c:455-465 | wakeup1 keeps it: every sleeper on the channel enters the top level once |
| `SchedProofs.ExitKeeps` | proc.c:513-555 | exit keeps it: orphans go to a live init, waiting parents are awake |
| `SchedProofs.IdleGoneKeeps` | proc.c:513-555 | the exit of a killed idle process while another is runnable keeps the invariant |
| `SchedProofs.ReapedKeeps` | proc.c:559-599 | reaping a zombie keeps it |
| `SchedRuns.StepKeeps` | proc.c:346-599 | every event that does not panic, the forced exit of a killed idle process and the balancing of an idle tick included, keeps the whole invariant: queues hold exactly the runnable non-idle processes, once each, on the queue they name; only the current process runs and heads its queue; slices, parents, waiters, forks and pids are in order |
| `SchedRuns.StateAfter` | proc.c:320-599 | the invariant in every state that any sequence of events from boot leads to |
| `SchedWaking.WakeupExactly` | proc.c:455-484 | wakeup(b) can come after any run: exactly the processes asleep on b become runnable, each once at the end of the top level in table order, with a slice of 20 unless it was their queue before; queues, records and CPU are otherwise unchanged |
| `SchedWaking.SleepStep` | proc.c:403-437 | sleep(a): the current process, and no other, sleeps on a and leaves the head of its queue; the head of the highest non-empty level runs |
| `SchedWaking.WaitStep` | proc.c:559-599 | wait frees the first zombie child in table order; without one it fails if killed or childless, and otherwise sleeps on its own slot |
| `SchedWaking.ExitStep` | proc.c:513-555 | exit, record by record: the caller is a zombie, its children are init's, who sleeps in wait for it is runnable, and so is init if it inherits a zombie; who was queued keeps its place before those |
| `SchedWaking.SleeperStep` | proc.c:403-599 | a sleeper becomes runnable on the top level if and only if the event wakes its channel: a wakeup of it, the exit of a child, or for init an exit that leaves it a zombie; otherwise nothing of it but its parent changes |
| `SchedWaking.SleepsOnward` | proc.c:403-599 | in every run a sleeper is asleep on its channel in every state from some point on if and only if no event since then wakes that channel |
| `SchedWaking.SleepsUntilWakeup` | proc.c:403-484 | in every run a process that called sleep(a) sleeps on a up to the first wakeup(a), which is possible at any time and makes it runnable on the top level |
| `SchedForks.ForkWhole` | sysproc.c:10-25 | a fork after any run: the first unused slot is a runnable child of the caller at the end of the top level, with a full slice and the next pid, and no other part of the state differs |
| `SchedForks.ForkUndone` | proc.c:174-223 | a fork that fails for want of memory leaves the state as it was but for the pid it used up |
| `SchedForks.ForkFull` | proc.c:97-117 | without an unused slot it changes nothing |
| `SchedForks.ChanExactly` | proc.c:403-451 | in every run the channel of a process is that of the sleep or wait it has not come out of, and otherwise none |
| `Lists.Pigeonhole` | proc.c:668-697 | a queue of distinct processes never outgrows the pool of NPROC nodes |
| `SchedRuns.PanicsExactly` | proc.c:488-555 | in a reachable state an event panics if and only if the first process exits, kill finds its target asleep, a killed idle process exits with nothing queued, or after that exit the only process left gives up the CPU |
| `SchedPanics.DoomedStep` | trap.c:98-102 | an event leaves the idle process killed or exited if and only if it was so before or kill names it |
| `SchedPanics.OtherPanics` | proc.c:488-555 | in every run without a kill of the idle process an event panics if and only if the first process exits or kill finds its target asleep |
| `SchedPanics.CanPanicExactly` | proc.c:513-555 | a run can be continued without any kill to the panic "zombie exit" if and only if the idle process has been killed in it |
| `SchedPanics.KilledIdlePanics` | trap.c:98-102 | a run of three events after which the idle process has to exit and the kernel panics |
| `SchedKills.UnmarkedStep` | proc.c:488-508 | only live processes stay marked as killed, except if and only if kill finds a slot that is not alive |
| `SchedKills.SlotStep` | proc.c:488-508 | after any event a slot is marked as killed if and only if kill has just found it, or it was marked and its process has not exited; one without a living process if and only if kill has just found it or it was so before |
| `SchedKills.KillStep` | proc.c:488-508 | kill marks the first slot with the pid, whatever its state, and changes nothing else |
| `SchedKills.BornUnkilled` | proc.c:97-117 | a child has the mark its slot had |
| `SchedKills.UnmarkedRun` | proc.c:97-117 | in every run without a kill that finds such a slot none of them is marked |
| `SchedKills.KilledExactly` | proc.c:488-555 | in every run a process is marked as killed if and only if some kill found its slot since the slot's last exit |
| `SchedKills.MarkedExactly` | proc.c:488-508 | in every run a slot without a living process is marked if and only if some kill found it since its last process was alive |
| `SchedKills.BornKilledExactly` | sysproc.c:10-25 | in every run the child of a fork is killed at birth if and only if some kill found its slot since the last process in it was alive |
| `SchedKills.BornKilled` | proc.c:488-508 | a run of five events that ends with a runnable child born killed |
| `SchedRuns.BootKeeps` | proc.c:256-338 | the state userinit and runIdle leave satisfies the invariant |
| `SchedLevels.TickAdvances` | sched_MLFQ.c:42-73 | a tick received takes one from the slice, the last one of a level moves the process down with a full slice |
| `SchedLevels.UserTickOrder` | sched_MLFQ.c:42-73 | the last tick of a slice on an upper level takes the process from the head of its level to the end of the next one, and the head of the highest non-empty level runs; any other tick changes no queue |
| `SchedLevels.IdleTickOrder` | trap.c:104-115 | the order of the top level after an idle tick and who runs then: with n queued the half behind the head changes places with the rest, the head goes to the end; no other record changes |
| `SchedLevels.StepSteady` | sched_MLFQ.c:42-73 | no event but its own ticks changes level or slice of a process that does not stop running |
| `SchedLevels.LevelFollowsTicks` | sched_MLFQ.c:42-73 | in every run a process that has not slept since its fork is on level 1 below 20 received ticks, level 2 from 20 to 519, level 3 from 520 on |
| `SchedSinking.Sink` | sched_MLFQ.c:42-73 | from any state whose current process is the pick, ticks alone bring every runnable process to the third level |
| `SchedSinking.ThirdLevelFills` | sched_MLFQ.c:42-73 | for every number of processes that fits the table, a run that ends with all of them on the third level |
| `SchedSlices.SleepGivesNoSlice` | sched_RR.c:18-39 | in every run a process on the top level, however often it sleeps and wakes, has used up exactly the ticks it received |
| `SchedReaping.ExitsAndReapsBalance` | proc.c:513-599 | in every run the exited pids are the reaped ones and those of the zombies, each once: no child is reaped twice or lost |
| `Scheduler.Cpu.constructor` | proc.c:50-92 | pinit: an unused table and empty queues |
| `Scheduler.Cpu.Enqueue` | proc.c:687-697 | the process joins the level, with the slice rule of its class |
| `Scheduler.Cpu.DequeueProc` | proc.c:699-707 | the first occurrence of the process leaves the queue it names, or the last node; nothing happens for the idle process or without a queue; valid afterwards if and only if it was neither a strange only node nor the tail of a longer third level |
| `Scheduler.Cpu.YieldProc` | sched_MLFQ.c:23-31 | the highest non-empty level is rotated; valid afterwards if and only if a level above the third is non-empty or the third has at most one process |
| `Scheduler.Cpu.PickNextProc` | proc.c:716-725 | the choice of the value-level pick |
| `Scheduler.Cpu.LoadBalance` | sched_MLFQ.c:75-115 | on one CPU every level is balanced with itself and no record changes |
| `Scheduler.Cpu.Schedule` | proc.c:346-372 | a current process that is not runnable leaves its queue, then the pick runs; a panic if and only if that is an idle process that has exited |
| `Scheduler.Cpu.TimerTick` | trap.c:104-115 | refines the tick event, load balancing of an idle CPU included, without a panic |
| `Scheduler.Cpu.ProcTick` | sched_MLFQ.c:42-73 | refines the tick of a process that is not idle, without a panic |
| `Scheduler.Cpu.AllocProc` | proc.c:97-117 | the lowest unused slot, with the next pid and no queue |
| `Scheduler.Cpu.CopyprocAlloc` | proc.c:174-223 | refines the allocation event of a fork |
| `Scheduler.Cpu.CopyprocAdopt` | proc.c:174-223 | refines the event that sets the parent |
| `Scheduler.Cpu.CopyprocFail` | proc.c:174-223 | refines the failing fork |
| `Scheduler.Cpu.ForkFinishes` | sysproc.c:10-25 | refines the end of a fork and returns the child's pid; enqueue_proc finds a node |
| `Scheduler.Cpu.SleepOn` | proc.c:405-451 | refines sleep; a panic if and only if nothing but an exited idle process is left to run |
| `Scheduler.Cpu.Wakeup1` | proc.c:455-465 | refines wakeup, in table order |
| `Scheduler.Cpu.Wakeup` | proc.c:467-484 | refines the wakeup event, which never panics |
| `Scheduler.Cpu.KillPid` | proc.c:488-508 | refines kill; a panic if and only if the target is asleep, 0 if and only if the pid is in the table |
| `Scheduler.Cpu.WaitScan` | proc.c:559-599 | refines one scan of wait: the pid of the first zombie child, -1 without children or when killed, otherwise sleep; panics exactly as the event does |
| `Scheduler.Cpu.ExitProc` | proc.c:513-555 | refines exit of a user process and of a killed idle process; panics exactly as the event does |
| `Scheduler.Cpu.PassChildren` | proc.c:513-555 | the loop over the table hands over exactly the children and wakes init once a zombie is among them |
| `Scheduler.Cpu.BootUp` | proc.c:256-338 | from pinit's state to the boot state of the runs |
| `BalanceSpec.SplitConserves` | sched_RR.c:128-153 | what is kept and what is moved together are the queue; head and larger half stay |
| `BalanceSpec.SplitExactly` | sched_RR.c:128-153 | the queue is its head, then the half that is moved, then the rest of what is kept |
| `BalanceSpec.BalancedConserves` | sched_MLFQ.c:75-115 | the multiset of processes queued at a level over all CPUs is the same afterwards, also for a CPU that balances with itself |
| `BalanceSpec.BalancedFits` | sched_MLFQ.c:75-115 | with every process queued once, the receiving queue has a node for each process moved |
| `LoadBalance.Machine.Busiest` | sched_MLFQ.c:75-90 | the first CPU with the largest total load, none if nothing is queued |
| `LoadBalance.Machine.Balance` | sched_MLFQ.c:75-115 | at every level half of the busiest CPU's queue goes to this CPU in order, all queues valid; a moved process names the queue it was put on, with the slice rule of its class, and no other record changes |
| `LoadBalance.Machine.YieldProc` | sched_MLFQ.c:23-31 | yield_proc on the queues of a CPU: valid afterwards if and only if it does not come to a third level of two or more |
| `LoadBalance.Machine.IdleTick` | trap.c:104-115 | balancing then yielding on an idle CPU: valid afterwards if and only if the queues before the tick do not say otherwise |
| `LoadBalance.TickBreaksExactly` | sched_MLFQ.c:75-115 | yielding breaks the third level after balancing if and only if, before it, this CPU had nothing above the third level, neither had the busiest one more than one process each there, and the third level comes to two or more |
| `LoadBalance.TickBreaksWhenEmpty` | sched_MLFQ.c:75-115 | for an idle CPU with nothing queued: if and only if the busiest CPU has at most one process on each upper level and four or more on the third |
| `LoadBalance.IdleTickBreaks` | sched_MLFQ.c:23-31 | two CPUs and four processes on which it happens |
| `LoadBalance.FourOnSecond` | proc.c:50-92 | the queues of two CPUs brought into that state by enqueueing |
| `LoadBalance.BreaksOnTick` | trap.c:104-115 | the idle tick on them leaves no valid queues |
| `LoadBalance.LoadBalanceConserves` | sched_MLFQ.c:75-115 | level by level nothing is lost or queued twice on the machine |
| `FsSpec.WordWritten` | fs.c:318-357 | storing an address in an indirect block changes that word and no other |
| `FsSpec.AttachAddr` | fs.c:318-357 | putting a free block into one slot of one inode changes no other address of any inode; a fresh indirect block reads as empty because free blocks are zero |
| `FsSpec.AttachKeeps` | fs.c:318-357 | ownership is kept: addresses distinct, marked in use, outside the metadata; free blocks zero |
| `FsSpec.AttachBytes` | fs.c:318-357 | no byte of any file below its end changes |
| `FsWrite.MappedKeeps` | fs.c:318-357 | bmap with allocation keeps ownership and contents and extends the file's blocks by exactly one position |
| `FsWrite.ChunkKeeps` | fs.c:428-458 | one round of writei overwrites or extends exactly its range of the file's byte sequence |
| `FsWrite.WrittenKeeps` | fs.c:428-458 | all rounds together: the byte sequence is overwritten from the offset on, nothing of other files changes |
| `FsTrunc.TruncatedKeeps` | fs.c:360-387 | itrunc keeps ownership and leaves the freed blocks zero |
| `FsTrunc.TruncatedOthers` | fs.c:360-387 | the file is empty, every other file keeps its blocks and bytes |
| `FsTrunc.FreedOne` | fs.c:80-98 | the block of each slot is still in use when it is freed: "freeing free block" is not reached |
| `FsTrunc.FreedExactly` | fs.c:360-387 | of all blocks the file had, each is free and zero afterwards if and only if it is not the indirect block |
| `FsTrunc.IndirectLeaks` | fs.c:360-387 | the indirect block stays marked although no inode refers to it |
| `FileSystems.FileSystem.Balloc` | fs.c:54-77 | the lowest clear bit is set and returned; none only if there is none |
| `FileSystems.FileSystem.Bfree` | fs.c:80-98 | the block is zeroed and its bit cleared; the panic exactly on a clear bit |
| `FileSystems.FileSystem.Bmap` | fs.c:318-357 | without allocation the address or none, with it the value-level mapping; panics out of range, or with no block left |
| `FileSystems.FileSystem.Readi` | fs.c:401-425 | exactly the slice of the file's byte sequence, clipped to its end; -1 beyond it or on wrap-around |
| `FileSystems.FileSystem.Writei` | fs.c:428-458 | refines the value-level write of the clipped range, with a panic if and only if it runs out of blocks; all else unchanged, no holes, and the disk copy of the inode equals the cached one although it is written only when the file grows |
| `FileSystems.FileSystem.Iupdate` | fs.c:291-307 | the cached inode goes to disk and nothing else changes |
| `FileSystems.FileSystem.Itrunc` | fs.c:360-387 | refines truncation: each data block freed once |
| `FsRuns.OpKeeps` | fs.c:266-458 | every write, truncation, inode allocation and update keeps ownership, zeroed free blocks and files without holes |
| `FsRuns.Final` | fs.c:54-458 | so does every run of them |
| `FsRuns.UntouchedFile` | fs.c:401-458 | a file keeps its contents byte for byte through any run of operations on other files |
| `FsFiles.OpRefines` | fs.c:266-458 | every operation on blocks, bitmap and inodes is the plain operation on a table of files, each a type, a link count and a byte sequence |
| `FsFiles.RunRefines` | fs.c:54-458 | so is every run of them: all files after it are what the same operations make of plain byte sequences |
| `FsRuns.BallocWithinDisk` | fs.c:54-77 | the block is below the size of the disk if and only if one there is free |
| `FsRuns.BallocBeyondDisk` | fs.c:54-77 | with 1024 blocks all in use the result is block 1024 |
| `MkfsImage.LayoutDisjoint` | fs.h:17-47 | dinodes and bitmap bits have distinct places behind the superblock and below the data |
| `MkfsImage.BumpLowest` | mkfs.c:220-285 | counting up is what the kernel's allocator would do |
| `MkfsImage.Mkfs.constructor` | mkfs.c:76-92 | the empty image is sound, the start of every run |
| `MkfsImage.Mkfs.Ialloc` | mkfs.c:206-218 | the next inode, with one link, and soundness |
| `MkfsImage.Mkfs.Iappend` | mkfs.c:238-285 | appending is the kernel's write at the end of the file, the same disk state; it fails if and only if that write does; at most two blocks are taken for each block touched |
| `MkfsImage.Mkfs.WriteBitmap` | mkfs.c:220-234 | the bitmap blocks hold exactly the bits below the counter |
| `MkfsImage.Mkfs.Finish` | mkfs.c:135-142 | the end of main: the kernel's disk is the image with the root size rounded, clear bits and zero blocks beyond its end, none if and only if 512 blocks are in use; it is sound if and only if the root size was not a multiple of the block size |
| `MkfsImage.PaddedKeeps` | fs.c:54-77 | whole bitmap blocks instead of the blocks of the image change neither ownership nor holes |
| `MkfsImage.PaddedBytes` | fs.c:54-77 | nor any byte of a file |
| `MkfsImage.RootRounding` | mkfs.c:135-140 | the rounded size is without a hole if and only if the size was not a multiple of the block size |
| `MkfsImage.RoundedSound` | mkfs.c:135-142 | the condition of Finish on values |
| `MkfsImage.WholeRootFails` | mkfs.c:135-142 | an image of thirty files that is sound before the rounding and not after it |
| `MkfsMain.Copy` | mkfs.c:129-130 | a file copied 512 bytes at a time is there byte for byte, the other files unchanged |
| `MkfsMain.AddFile` | mkfs.c:107-133 | inode, root entry and data of one file more, all earlier ones unchanged |
| `MkfsMain.Build` | mkfs.c:53-145 | main: the disk holds the root directory with an entry for every file and the files byte for byte; it satisfies the kernel's invariant if and only if the number of files plus two is not a multiple of 32; no failure when there is room |
| `MkfsMain.BuildThirty` | mkfs.c:135-142 | with the built-in sizes, thirty empty files give a disk that does not |
| `Directories.Strncmp` | string.c:51-59 | 0 if and only if the prefixes up to n characters or NUL are equal |
| `Directories.Strncpy` | string.c:61-72 | the field has the same prefix, padded with NULs |
| `Directories.Bound` | fs.c:503-530 | an entry for a new name adds exactly that name to the map, names stay unique |
| `Directories.Unbound` | sysfile.c:164-207 | a zeroed entry takes exactly its name away |
| `Directories.Directory.Lookup` | fs.c:471-500 | the map's value for the name cut at DIRSIZ, none if and only if it is absent |
| `Directories.Directory.Link` | fs.c:503-530 | -1 if and only if the name is there, a panic if and only if it is not and the directory is full at its largest size, otherwise the map with the name added; the directory grows only when it has no free entry |
| `Directories.Directory.Clear` | sysfile.c:164-207 | the map without the name |
| `Paths.ComponentsWritten` | fs.c:545-568 | the components of a path are the names in it, whatever slashes are before, between and after them |
| `Paths.Skipelem` | fs.c:545-568 | the first component cut at DIRSIZ, and a path with the remaining ones; none exactly for a path of slashes |
| `Paths.ResolvedExactly` | fs.c:573-609 | the result is an inode j if and only if a trail of directories leads to it, each naming the next by the next component; for the parent all components but the last, to a directory |
| `Paths.Walker.Namei` | fs.c:573-609 | the fold of lookups over the components, all but the last for the parent; one reference more on the result and none elsewhere, on every exit |
| `LinkSpec.WithEntry` | fs.c:503-530 | one entry changes, the first free one, or one is appended |
| `LinkProofs.FreesUnnamed` | fs.c:236-255 | iput frees only an inode that no other directory names, never the root |
| `LinkProofs.PutKeeps` | fs.c:236-255 | iput, freeing or not, keeps the invariant: counts cover names, no name dangles, references keep inodes alive |
| `LinkProofs.LinkIncKeeps` | sysfile.c:110-146 | the increment of link keeps it |
| `LinkProofs.LinkAddKeeps` | sysfile.c:110-146 | the new entry of link keeps it |
| `LinkProofs.DecKeeps` | sysfile.c:110-207 | taking a link back, after a failed link or an unlink, keeps it |
| `LinkProofs.UnlinkClearKeeps` | sysfile.c:164-207 | clearing the entry keeps it |
| `LinkProofs.CreateExactly` | sysfile.c:209-256 | create keeps it if and only if the inode ialloc found has no reference left |
| `LinkProofs.CreateFailKeeps` | sysfile.c:209-256 | a create that fails on an existing name keeps it |
| `LinkProofs.StepKeeps` | sysfile.c:110-256 | every step keeps it, with that one exception |
| `LinkProofs.NeverPanics` | sysfile.c:164-207 | "unlink: nlink < 1" is not reached, and every decrement finds a link |
| `LinkRuns.ImageOk` | mkfs.c:94-142 | the image mkfs writes satisfies it |
| `LinkRuns.LinksSafe` | sysfile.c:110-256 | at every point of every run without that exception: at least as many links as names, no dangling name, no panic |
| `LinkRuns.StaleCreate` | fs.c:236-288 | a run that ends with a dangling name |
| `LinkExact.StepCounts` | sysfile.c:110-256 | every step adds to the surplus of links of any inode, file or directory, exactly the number of its names lost with a freed directory |
| `LinkExact.StepExact` | sysfile.c:110-256 | every step keeps the link count of any inode, file or directory, equal to its names and the calls under way, except if and only if iput frees a removed directory that has an entry for it |
| `LinkExact.RunExact` | sysfile.c:110-256 | so does every run without that exception |
| `LinkExact.RunCounts` | sysfile.c:110-256 | after every run the surplus of an inode in use is the number of names it has lost; a free inode has lost none |
| `LinkExact.RemovedDirectoryLoses` | sysfile.c:164-256 | a run after which a file has one link and no name |
| `LinkExact.RootDrifts` | sysfile.c:164-256 | a run after which the root keeps the link for the ".." of a directory that is gone |
| `LinkExact.ImageExact` | mkfs.c:94-142 | the image of mkfs starts with exact counts, the root included |
| `LinkLeaks.StepReclaimable` | fs.c:236-255 | an inode in use without links is always referred to and cached, so that the last iput frees it |
| `LinkLeaks.NoneForgotten` | fs.c:236-255 | in every run an inode without links and references is free |
| `LinkLeaks.LeaksExactly` | fs.c:236-255 | in every run an inode without names and references is still in use if and only if names of it were lost with a freed directory |
| `LinkLeaks.NeverFreed` | fs.c:236-255 | an inode with a surplus keeps it through every run and is never freed |
| `LinkLeaks.RemovedParentLeaks` | sysfile.c:164-256 | a run that leaves a directory in use that nobody names or refers to |
| `LinkTidy.TidyStep` | sysfile.c:149-207 | every step that enters nothing into a directory whose own name is gone leaves directories without a name empty and every parent a directory |
| `LinkTidy.LosesDotDot` | sysfile.c:164-207 | in such a state exactly one name is lost with a freed directory, its ".." |
| `LinkTidy.DriftsExactly` | sysfile.c:164-256 | in every such run from mkfs's image the surplus of links of an inode in use is exactly the number of directories within it that were removed and freed |
| `LinkTidy.FilesExact` | sysfile.c:110-256 | in every such run the link count of a file is exactly its names and the calls under way |
| `LinkTidy.LeaksAreParents` | fs.c:236-255 | in every such run an inode without names and references is still in use if and only if a directory within it was freed |
| `LinkRefs.RefsExact` | fs.c:147-255 | in every run the references to an inode are those taken by iget of the root or of an entry, idup and create, less those dropped by iput |
| `LinkRefs.KindExact` | sysfile.c:209-256 | in every run an inode is of the kind it was last created with, or free if an iput has freed it since |
| `LinkRuns.Isdirempty` | sysfile.c:149-162 | true if and only if nothing follows the dots |
| `LinkRuns.Dirlink` | fs.c:503-530 | the entry goes to the first free place |
| `LinkRuns.Ialloc` | fs.c:266-288 | the lowest free inode, none only if there is none |
| `BioSpec.GotKeeps` | bio.c:59-92 | bget returns a buffer nobody else holds; if it is valid it holds what is on the disk |
| `BioSpec.GotExactly` | bio.c:59-92 | bget told from the buffers alone: a free buffer for the sector is taken as it is; none is returned if and only if one for it is busy, or there is none and all are busy; otherwise the free buffer released longest ago, and no other, is made one for the sector, not valid |
| `BioSpec.VictimOldest` | bio.c:59-92 | a miss reuses the buffer released longest ago among those not in use |
| `BioSpec.StepKeeps` | bio.c:59-136 | no two buffers for one sector, the queue and flags in order, clean buffers equal to the disk, the list a permutation ordered by last release |
| `BioSpec.StateAfter` | bio.c:38-136 | in every state any run leads to |
| `BioSpec.StampsAre` | bio.c:117-136 | in every run the stamps that order the list are the times of the last brelse of each buffer |
| `BioSpec.RequestAdvances` | ide.c:90-115 | an interrupt finishes the first request and moves the others up by one; no event changes a queued buffer otherwise |
| `BioSpec.RequestStarts` | ide.c:120-150 | bread and bwrite put their buffer behind all others in the queue |
| `BioSpec.ReadCompletes` | bio.c:95-104 | in every run, once the disk has interrupted for all requests before it and once more, the buffer of a bread holds what is on the disk and is off the queue |
| `BioSpec.WriteCompletes` | bio.c:107-114 | likewise the disk then holds at that sector the data bwrite was given |
| `BioHolds.BusyExactly` | bio.c:59-136 | in every run a buffer is busy if and only if a bget has returned it since it was last released |
| `BioHolds.WrittenReachesDisk` | bio.c:95-136 | in every run what the holder of a buffer writes into it and hands to bwrite is on the disk at its sector once the requests up to it are done, whatever others do meanwhile |
| `BioSpec.DiskIsLatest` | ide.c:90-150 | in every run the disk holds, sector by sector, what the latest completed bwrite was given |
| `BioSpec.BreadYieldsLatest` | bio.c:95-104 | what bread hands out is the data of the latest bwrite to that sector, or the initial contents |
| `BufCaches.BufferCache.constructor` | bio.c:38-54 | binit: the list links all buffers in both directions |
| `BufCaches.BufferCache.Bget` | bio.c:59-92 | refines bget, hit, busy hit and miss; a panic if and only if no buffer is for the sector and all are busy; the buffer returned is the one `BioSpec.GotExactly` tells from the buffers |
| `BufCaches.BufferCache.FindHit` | bio.c:59-92 | the walk from the front finds the first buffer for the sector |
| `BufCaches.BufferCache.FindVictim` | bio.c:59-92 | the walk from the back finds the last buffer not in use |
| `BufCaches.BufferCache.Brelse` | bio.c:117-136 | refines the release: the buffer moves to the front |
| `BufCaches.BufferCache.Enqueue` | ide.c:120-150 | the walk along qnext appends at the end of the disk queue |
| `BufCaches.BufferCache.BreadStart` | bio.c:95-104 | refines the start of a read |
| `BufCaches.BufferCache.BwriteStart` | bio.c:107-114 | refines the start of a write |
| `BufCaches.BufferCache.IdeIntr` | ide.c:90-115 | refines the completion of the head request |
| `KallocSpec.CanonicalUnique` | kalloc.c:13-24 | a sorted, coalesced list is determined by the set of free bytes |
| `KallocSpec.InsertedKeeps` | kalloc.c:44-84 | freeing a range with no free byte adds exactly it and keeps the list sorted and coalesced |
| `KallocSpec.PanicsExactly` | kalloc.c:44-84 | kfree panics if and only if its first byte is free |
| `KallocSpec.KfreeSoundExactly` | kalloc.c:44-84 | when it does not panic, the list stays canonical if and only if the range held no free byte |
| `KallocSpec.OverlapUnnoticed` | kalloc.c:44-84 | two pages of which the second is free: no panic, and the list is ruined |
| `KallocSpec.TakenKeeps` | kalloc.c:89-116 | kalloc takes exactly the bytes it returns from the free ones |
| `KallocSpec.KallocFailsExactly` | kalloc.c:89-116 | it fails if and only if no n contiguous bytes are free |
| `KallocSpec.FirstFit` | kalloc.c:89-116 | the block is at the end of the lowest stretch of free bytes with room for it: the byte after it is not free, and from any lower address with room all bytes up to it are |
| `KallocSpec.KfreeUndoesKalloc` | kalloc.c:44-116 | kfree of what kalloc returned restores the very same list |
| `KallocSpec.PartitionKept` | kalloc.c:44-116 | in every run of allocations and frees live blocks and free runs partition the memory |
| `KallocSpec.AllFreed` | kalloc.c:25-38 | once all is freed, in any order, the list is the one run kinit made |
| `Kalloc.PageAllocator.Kfree` | kalloc.c:44-84 | the junk fill and the pointer-to-pointer walk refine insertion; panics if and only if the length is bad or the first byte is free |
| `Kalloc.PageAllocator.KallocBytes` | kalloc.c:89-116 | refines first fit from the end of a run |
| `Umalloc.InsertedIs` | umalloc.c:24-44 | joining a block with its neighbours is the same insertion as in the kernel's list |
| `Umalloc.StopsAt` | umalloc.c:24-44 | the two exit conditions of free's search hold at the predecessor of the block and nowhere else on the ring |
| `Umalloc.FreeRelinks` | umalloc.c:24-44 | the four assignments relink the ring around the joined block |
| `Umalloc.UnitsExactly` | umalloc.c:63-90 | the units hold the payload if and only if the sum does not wrap, and fit a request to sbrk if and only if they are not 2^29 |
| `Umalloc.CarvedOk` | umalloc.c:63-90 | taking units off the end of any block keeps the list canonical and takes exactly those units |
| `UserHeaps.UserHeap.Free` | umalloc.c:24-44 | the block joins the circular, sorted, coalesced list; live blocks and free ones still partition the memory from sbrk |
| `UserHeaps.UserHeap.Morecore` | umalloc.c:46-61 | the new memory, at least PAGE units, joins the list, or nothing changes and 0 is returned |
| `UserHeaps.MorecoreExactly` | umalloc.c:46-61 | what morecore frees and what sbrk has added agree, the memory still a partition, if and only if the units are not 2^29 |
| `UserHeaps.UserHeap.Malloc` | umalloc.c:63-90 | terminates; 0 if and only if no block fits and sbrk fails; otherwise a new live block of the right size; sbrk is used once and only if nothing fits |
| `ShellProofs.RoundTrip` | sh.c:264-445 | parsing the printed text of any printable command gives the command back |
| `ShellProofs.ParsedExactly` | sh.c:326-445 | the commands parsecmd can return are exactly the printable ones: non-empty words without symbols, at most nine, the two kinds of redirection |
| `ShellRenders.RendersExactly` | sh.c:264-445 | for every line and every command: parsecmd gives the line that command if and only if the line is a way to write it, with any white space between tokens, either output arrow, and redirections before, between or after the words |
| `ShellRenders.LineParsed` | sh.c:343-358 | every such text, followed by the end of the line or a closing parenthesis, is read as its command and what follows is left |
| `ShellRenders.FoundLine` | sh.c:343-358 | whatever is accepted is such a text of the command returned, followed by what is left |
| `ShellProofs.LineShow` | sh.c:343-358 | a list, background job or pipeline comes back at its precedence, and what follows is left over |
| `ShellProofs.PipeShow` | sh.c:360-371 | the same for pipelines |
| `ShellProofs.ExecShow` | sh.c:398-445 | the same for simple commands and blocks with their redirections |
| `ShellParser.Parser.Gettoken` | sh.c:264-307 | the token of the grammar, its kind, and for a word the span of exactly that word |
| `ShellParser.Parser.Peek` | sh.c:309-319 | white space is skipped and the next character compared |
| `ShellParser.Parser.Parseredirs` | sh.c:373-396 | refines the grammar's redirections, innermost first |
| `ShellParser.Parser.Parseexec` | sh.c:414-445 | refines simple commands: words stored in the exec node while redirections are put around it |
| `ShellParser.Parser.Parseblock` | sh.c:398-412 | refines blocks |
| `ShellParser.Parser.Parsepipe` | sh.c:360-371 | refines pipelines |
| `ShellParser.Parser.Parseline` | sh.c:343-358 | refines lines; the mutual recursion terminates |
| `ShellParser.Parser.Nulterminate` | sh.c:448-492 | a NUL at the end of every word of the command and nowhere else |
| `ShellParser.Parser.Parsecmd` | sh.c:326-341 | the words read back from the buffer as C strings form the command the line is a way to write; a panic if and only if it is no way to write any command |
| `ShellParser.WordReads` | sh.c:448-492 | cutting off other words does not disturb a word |
| `Grep.Match` | grep.c:71-81 | true if and only if the text is in the language of the pattern, anchored by a leading '^' |
| `Grep.MatchHere` | grep.c:84-95 | true if and only if some prefix of the text is a word of the pattern, the whole text for a final '$' |
| `Grep.MatchStar` | grep.c:98-105 | true if and only if the rest matches after some number of characters that suit c |
| `Grep.HereStar` | grep.c:98-105 | the language of a star followed by a pattern, one prefix at a time |
| `Grep.PlainMatches` | grep.c:71-105 | a pattern without special characters matches exactly the texts it occurs in |
| `Grep.WholeLine` | grep.c:71-105 | between ^ and $ it matches exactly itself |
| `Grep.StarLine` | grep.c:84-105 | ^c*$ matches exactly the texts of c alone, and with a dot for c every text |
| `PipeSpec.WriteRunStream` | pipe.c:77-97 | pipewrite appends, in order, as many bytes as fit, across wrap-around of the indices; how it ends |
| `PipeSpec.DrainStream` | pipe.c:99-120 | piperead delivers the next bytes of the stream, as many as there are up to n |
| `PipeSpec.ReadRunStream` | pipe.c:99-120 | how piperead ends, told from the stream: asleep or failed if and only if nothing is left and the write end is open; otherwise with the next bytes up to n, none at the end of the stream |
| `PipeRuns.StateAfter` | pipe.c:60-120 | in every interleaving the bytes delivered are a prefix of the bytes stored |
| `PipeRuns.StreamGrows` | pipe.c:60-120 | what is stored or delivered stays so |
| `PipeRuns.ReadGives` | pipe.c:99-120 | a section of piperead in any interleaving: asleep or failed with nothing changed, or the next bytes are delivered and no writer sleeps |
| `PipeRuns.WriteGives` | pipe.c:77-97 | a section of pipewrite: as many bytes as there is room for join the stream; with bytes left the writer sleeps where it stopped, or fails; unless it fails no reader sleeps |
| `PipeRuns.WriterInOrder` | pipe.c:77-97 | in every run a writer has put exactly the bytes of its buffer up to where it stands into the stream, in order, however often it slept |
| `PipeRuns.EndOfStream` | pipe.c:60-120 | in every run after the write end is closed the stream does not change, and no read sleeps or fails: each delivers the next bytes, at the end none |
| `PipeRuns.BrokenPipe` | pipe.c:60-97 | in every run after the read end is closed nothing is delivered, and no write sleeps: each ends in its next section |
| `PipeRuns.KilledAre` | pipe.c:77-120 | in every run the processes whose reads and writes fail as killed are those that were killed |
| `PipeRuns.StepAlert` | pipe.c:60-120 | after a step every sleeping reader has an empty ring and every sleeping writer a full one, unless and only unless a killed writer with more than 512 bytes left meets a sleeping reader |
| `PipeRuns.NeverBothAsleep` | pipe.c:60-120 | without kills a reader and a writer never sleep at once |
| `PipeRuns.LostWakeup` | pipe.c:77-97 | a run in which a reader sleeps on although bytes are there |
| `PipeRing.Ring.Write` | pipe.c:77-97 | refines the section of pipewrite on the array |
| `PipeRing.Ring.Read` | pipe.c:99-120 | refines the section of piperead; asleep, failed or the next bytes of the stream exactly as `PipeSpec.ReadRunStream` says |
| `PipeRing.Ring.Close` | pipe.c:60-75 | one end is closed, readers or writers are woken accordingly, and the page is freed when both are closed |
| `ConsoleSpec.ReadRunData` | console.c:235-271 | a read gets exactly the committed input it consumes, in order, without end-of-file marks, at most one line; out of input a killed reader fails and another sleeps |
| `ConsoleSpec.EofExactly` | console.c:253-261 | an end-of-file mark is consumed only by a reader with nothing yet, and otherwise left for the next read |
| `ConsoleSpec.Final` | console.c:196-271 | in every interleaving of keys and reads the readers have got exactly the committed input consumed so far |
| `ConsoleEdits.BackspaceUndoes` | console.c:214-219 | backspace undoes an ordinary key, and does nothing on an empty line |
| `ConsoleEdits.LineSurvives` | console.c:196-233 | for every sequence of keys that ends no line, the line is what survives of the keys: each backspace erases the last one not yet erased, control-U all |
| `ConsoleEdits.LineCommits` | console.c:196-233 | with a newline or control-D exactly the surviving keys are committed, in order, with the terminator |
| `ConsoleEdits.FullCommits` | console.c:220-229 | the key that fills the ring commits the line, and from then on keys are lost until something is read |
| `ConsoleEdits.KillForgets` | console.c:207-213 | after any keys that commit nothing control-U leaves an empty line and all else as before them |
| `Consoles.Console.Intr` | console.c:196-233 | the ring follows the line editor for every sequence of keys; a reader is woken if and only if something was committed |
| `Consoles.Console.Kill` | console.c:207-213 | control-U removes the whole uncommitted line |
| `Consoles.Console.Read` | console.c:235-271 | refines a section of console_read |

## Left out

- Boot code, interrupt controllers, port I/O, segments, page-less address spaces: device registers and assembly.
- Several CPUs inside sleep and exit: the runs are those of one CPU; over several CPUs the idle tick is proved as a step of its own.
- The idle process runs its own loop only: it takes no system calls, so it exits only when it has been killed.
- A process inside fork does nothing else until the fork is over.
- `load_balance_RR`, `load_balance_fifo` and sched.c: the same argument for classes that are not configured.
- RunQueues.RunQueue.DequeueFifo: not for a single node that is not the process, where the code dereferences a null pointer.
- RunQueues.RunQueue.DequeueRR: not on an empty ring, where the code dereferences a null pointer.
- Scheduler.Cpu.DequeueProc: not where the queue operations above dereference a null pointer.
- RunQueues.RunQueue.GetProcRR: the unused read of the head's successor on an empty ring is not made.
- FileSystems.FileSystem.Writei: for offsets up to the end of the file, which is where all callers write; devices are dispatched elsewhere and not modelled.
- FileSystems.FileSystem.Readi: for files and directories; devices are dispatched elsewhere.
- FsRuns.Final: each operation is one step; writes of different processes do not interleave block by block.
- MkfsMain.Build: for at most as many files as there are inodes; the code does not check that.
- MkfsImage.Mkfs.Iappend: stops at the end of the image, where the code goes on and is stopped by the assertion at the end of main if the image has 512 blocks or more.
- Dinodes, bitmap and superblock as typed records in their blocks: only the block-index arithmetic of the layout is modelled.
- Paths.Walker.Namei: over a file system that does not change during the walk; what other processes may do in between is covered by the link-count runs.
- LinkRuns.LinksSafe: link counts do not wrap at 16 bits, the inode cache has a slot for every inode, names are abstracted to positions, and a create runs from ialloc to its last dirlink as one step because it holds both locks; the sections of link, unlink and create are steps on values, not methods that update inodes in place.
- UserHeaps.UserHeap.Malloc: for the eight sizes whose units are 2^29 only when sbrk fails or a block fits; otherwise the header is written beyond the memory of the process, see `UserHeaps.MorecoreExactly`.
- IDE error returns and disk probing: every request completes.
- Kalloc.PageAllocator.Kfree: not for a range that begins outside free memory and runs into it, where the fill writes over links; `KallocSpec.KfreeSoundExactly` says that the list is ruined even without the fill.
- runcmd and the rest of the shell, grep's read loop, printf, exec, user programs: plumbing around the modelled cores.
- The walk that frees files and pipes on failed allocation in pipe.c and sysfile.c.
- Consoles.Console.Intr: characters are integers; the truncation to a C char is not modelled, nor is screen output.
