# Verified model of the YasSenOS-V2 kernel

YasSenOS-V2 is a teaching kernel in Rust for one x86-64 CPU. This project models its process manager, its
semaphores, its address spaces, its ELF loader, its line editor and three of its concurrent user programs in
Dafny 4.11, and proves what they promise over whole runs.

Everything the kernel does on behalf of a process runs with interrupts off, so one system call, page fault or
clock tick is one atomic step. User programs are interleaved anywhere between two such steps. Arithmetic wraps
at 2^64 as in the release profile that the build scripts use; process ids have 16 bits.

How the files hang together:

- `Semaphores.dfy`: kernel semaphores and the set that holds them, and their refinement of an integer.
- `Scheduler.dfy`: the process manager as a state machine of atomic steps. `SchedulerInvariant.dfy`,
  `SchedulerRuns.dfy`, `SchedulerContexts.dfy` and `SchedulerFairness.dfy` prove what every run keeps,
  `SchedulerAnswers.dfy` what system calls answer and leave behind, and `SchedulerKills.dfy` what becomes of a process
  that is killed while it waits.
- `ProcessManagement.dfy`: the same manager as an object that is updated in place, proved against the state machine.
- `Frames.dfy`: the frame allocator. `Paging.dfy` is the mapper with its intermediate tables, and the loops that
  map and unmap ranges; `PageTables.dfy` is the object form.
- `Stacks.dfy`, `Heaps.dfy`, `Families.dfy`: user stacks, the shared heap, and families of processes that share one
  page table. `Faults.dfy` tells when page faults are served, and `Searches.dfy` when fork finds a slot.
- `PhysicalMemory.dfy` holds bytes; `AddressSpaces.dfy` holds the objects `Stack`, `Heap` and `ProcessVm` of the
  source, and `Relatives.dfy` shows that the address spaces of relatives, as objects, are a family.
- `ElfLoader.dfy` and `ElfPrograms.dfy`: one segment, and all segments of a file.
- `Forks.dfy`: the two returns of fork, registers and memory together.
- `Input.dfy`: the line editor with its UTF-8 decoder.
- `Common.dfy`: options, words, and sequences without duplicates.
- `Counting.dfy`, `WaitQueues.dfy`, `MessageQueue.dfy`, `Fish.dfy`, `Counter.dfy`: the user programs.

Where the source changes state in place, the model is a class whose methods are proved equal to functions on
values. Theorems about runs are proved on those functions.

Some of what one would expect of the kernel is false of its code. Each case has an exact condition:

- A process that is killed while it waits stays on its list. Nothing goes wrong until somebody answers that list;
  the answer makes the dead process ready, and mere clock ticks then stop the kernel
  (`SchedulerKills.KilledWaiterStopsKernelIffAnswered`, and from boot
  `SchedulerKills.KillThenSignalStopsTheKernel`).
- Killing a dead process once more replaces its exit code; otherwise the code stays for ever
  (`SchedulerAnswers.ExitCodeAfter`).
- Creating or removing a semaphore forgets those who wait on it (`Semaphores.WaitersAreForgotten`).
- A page fault on a stack that cannot be served stops the kernel (pkg/kernel/src/interrupt/exception.rs:144-150). It
  is served exactly when the pages between are unmapped and there are frames (`Stacks.FaultIsServedIff`). A fork
  that tries the slot of a shallower stack leaves stray pages there, and a later fault in that slot is refused with
  frames to spare (`Faults.RefusedFault`). Without such forks and without failed growths, frames are all that
  matters (`Faults.FaultsAreServed`).
- The search of fork for a free slot stops the kernel unless, going down by slots, it meets a free one before a range
  that cannot be formed, with frames for it and for what the failed tries take (`Searches.SearchReturnsIff`,
  `Searches.ForkReturnsIff`). So it stops whenever no frame is free (`Searches.NoFramesStopTheKernel`), and a process
  that keeps forking stops the kernel (`Searches.ForkingStopsTheKernel`).
- The child's stack lies below its parent's exactly when the parent has no more children than slots below it. With one
  child more the kernel stops, with still more the search starts among the kernel's addresses, and beyond those it
  stops again (`Stacks.ForkGoesBelowIff`). For the first stack these are 0x4000 children
  (`Searches.ManyChildrenStopTheKernel`) and 0x4001 (`Searches.ChildAboveItsParent`).
- `brk` computes an unsigned difference, so a shrinking call moves the end and unmaps nothing
  (`Heaps.ShrinkKeepsExactOnSamePage`). A failing call keeps what it had mapped (`Heaps.FailedBrkKeepsExact`,
  `Heaps.FailedBrkLeavesPage`).
- A failed try of fork to map a stack may leave pages behind (`Stacks.FailedTryKeepsMap`, `Faults.StrayPages`).
- The ELF loader is right for every content of the file only for segments that are aligned in memory and in the
  file (`ElfPrograms.RightForAllFilesIffAligned`), and it maps one page too many for some
  (`ElfPrograms.ExtraPage`). A file that cannot be loaded stops the kernel; exactly those that fit can be
  (`ElfPrograms.MapProgramIff`), and a segment that starts on the page too many of another never does
  (`ElfPrograms.ExtraPageCollides`). The pages too many are not recorded, so that the exit of the last member leaves
  exactly them behind (`ElfPrograms.ExitUndoesLoading`, `ElfPrograms.NothingIsLeftIff`).
- The line editor takes exactly the well-formed UTF-8 sequences for what they are
  (`Input.AcceptsRightIffWellFormed`), and stops the kernel exactly on surrogates and on code points beyond the last
  one (`Input.StopsIffBad`).
- A semaphore signal adds one exactly when the counter is not full (`Semaphores.SignalAddsOneUnlessFull`).

The comment above the slot constants of the stacks speaks of 0x2000 (4096) threads and of two initial frames; the
constants give 8192 slots and one frame, and the model follows the constants
(pkg/kernel/src/proc/vm/stack.rs:14-31).

## Model

| member | source | states |
|---|---|---|
| `Semaphores.SemaphoreSet.Insert` | pkg/kernel/src/proc/sync.rs:78-84 | replaces the semaphore of the key by one with the value asked for and no waiters, and answers whether the key was new; no other key changes |
| `Semaphores.SemaphoreSet.Remove` | pkg/kernel/src/proc/sync.rs:86-92 | afterwards the key is gone and no other has changed; answers whether it existed |
| `Semaphores.SemaphoreSet.Wait` | pkg/kernel/src/proc/sync.rs:95-107 | the set and the answer follow the transition function of a set of semaphores |
| `Semaphores.SemaphoreSet.Signal` | pkg/kernel/src/proc/sync.rs:110-122 | the set and the answer follow the transition function of a set of semaphores |
| `Semaphores.AnswersLikeAnInteger` | pkg/kernel/src/proc/sync.rs:43-69 | count minus queue length is an integer: a wait lowers it by one and blocks exactly at or below zero, a signal wakes exactly below zero |
| `Semaphores.SignalAddsOneUnlessFull` | pkg/kernel/src/proc/sync.rs:59-69 | a signal raises the integer by one if and only if the 64-bit counter is not full or somebody waits |
| `Semaphores.StepRefinesInteger` | pkg/kernel/src/proc/sync.rs:95-122 | one operation on any key moves the integer of a given key as it should, and who is woken or blocked leaves or joins its queue |
| `Semaphores.TraceRefinesInteger` | pkg/kernel/src/proc/sync.rs:43-122 | over every trace between creation and removal the integer is initial + signals - waits, count and queue are never both non-zero, and blocked pids are woken in arrival order |
| `Semaphores.CreatedRefinesInteger` | pkg/kernel/src/proc/sync.rs:31-36 | from the creation of a key on, whatever had it before, the integer is value + signals - waits, woken followed by queued pids are the blocked ones in order, and the creation changes no other key |
| `Semaphores.RemovedIsGone` | pkg/kernel/src/proc/sync.rs:86-92 | until a removed key is created again it is missing: waits, signals and removals answer so and change nothing, nobody blocks or is woken, and the removal changes no other key |
| `Semaphores.WaitersAreForgotten` | pkg/kernel/src/proc/sync.rs:78-92 | creating or removing an existing key means that no later signal wakes those who waited, whatever happens to the key, unless they wait again |
| `WaitQueues.Enqueue` | pkg/kernel/src/proc/sync.rs:43-53 | a blocking wait keeps the queue equal to the blocked processes, once each |
| `WaitQueues.Dequeue` | pkg/kernel/src/proc/sync.rs:59-69 | a waking signal takes a blocked process out and keeps the same |
| `MessageQueue.Exclusive` | pkg/app/mq/src/main.rs:27-51 | two children are never both between the wait and the signal of MUTEX |
| `MessageQueue.StepKeepsInv` | pkg/app/mq/src/main.rs:27-51 | every step of every child or of the parent keeps tokens, queue contents, history and waiting lists in agreement, and does work |
| `MessageQueue.WriteQueueStep` | pkg/app/mq/src/main.rs:32-46 | the write of a child goes to the queue it has read, and keeps what was sent equal to what was taken followed by the queue |
| `MessageQueue.NoDeadlock` | pkg/app/mq/src/main.rs:27-84 | for any SIZE of at least one and balanced roles, if nobody can move then all children have exited and been waited for |
| `MessageQueue.RunKeepsInv` | pkg/app/mq/src/main.rs:27-84 | the invariant holds after every schedule, and each step lowers the remaining work |
| `MessageQueue.Safety` | pkg/app/mq/src/main.rs:27-84 | under every schedule the queue never exceeds SIZE, no consumer pops an empty queue, MUTEX excludes, and each producer's messages are sent in order |
| `MessageQueue.Completion` | pkg/app/mq/src/main.rs:27-84 | every schedule is finite, and when it cannot go on the queue is empty and every message was taken once, in push order |
| `MessageQueue.AlternatingChildrenAreBalanced` | pkg/app/mq/src/main.rs:62-75 | the program's own mix of children, for any number of pairs and rounds, meets the premise of the theorems |
| `MessageQueue.CallsMakeInit` | pkg/app/mq/src/main.rs:58-60 | the three `init` calls, on any semaphore set, make the semaphores with which the theorems start |
| `Fish.WithoutTurnBlocks` | pkg/app/fish/src/main.rs:12-74 | a child without the turn can only block |
| `Fish.OwnerMoves` | pkg/app/fish/src/main.rs:16-70 | the owner of the turn always finds its tokens and prints its character once |
| `Fish.PassedKeepsInv` | pkg/app/fish/src/main.rs:26-63 | the last operation of a turn hands the one token to the next child, blocked or not |
| `Fish.RunKeepsInv` | pkg/app/fish/src/main.rs:12-104 | after every schedule there is one turn token and the output is what the turns so far have printed |
| `Fish.NoDeadlock` | pkg/app/fish/src/main.rs:12-104 | somebody can move until all children have left their loops and been waited for |
| `Fish.FishSwim` | pkg/app/fish/src/main.rs:12-104 | for every limit and schedule the output is a prefix of "><>_" over and over, the number of steps is bounded, and the end has one whole fish per round |
| `Fish.CallsMakeInit` | pkg/app/fish/src/main.rs:79-82 | the four `init` calls, on any semaphore set, make the semaphores with which the theorems start |
| `Counter.Exclusive` | pkg/app/counter/src/main.rs:86-105 | the spin lock and the semaphore both exclude |
| `Counter.AcquireKeepsInv` | pkg/lib/src/sync.rs:19-26 | acquiring keeps the invariant, with the store after the compare-exchange as a step of its own |
| `Counter.ReleaseKeepsInv` | pkg/lib/src/sync.rs:28-31 | releasing keeps the invariant and wakes the first waiter of the semaphore form |
| `Counter.NoDeadlock` | pkg/app/counter/src/main.rs:86-131 | somebody can do more than spin until all are done |
| `Counter.MovesAreBounded` | pkg/app/counter/src/main.rs:86-131 | only finitely many steps of a schedule are more than spinning |
| `Counter.CounterIsExact` | pkg/app/counter/src/main.rs:86-131 | for N processes with K non-atomic increments each, every interleaving under either lock ends with the counter at N*K, as an isize |
| `Counter.CallMakesInit` | pkg/app/counter/src/main.rs:60-61 | the call of `sys_new_sem`, on any semaphore set, makes the semaphore with which the theorems start |
| `Scheduler.Ascending` | pkg/kernel/src/proc/manager.rs:244-246 | the pids of an ordered set come out once each, smallest first |
| `SchedulerInvariant.SwitchNextSettles` | pkg/kernel/src/proc/manager.rs:103-125 | from any state between saving and switching, `switch_next` finds a ready process and ends in the invariant |
| `SchedulerInvariant.WakeKeepsBase` | pkg/kernel/src/proc/manager.rs:193-202 | waking a blocked process that has left its list keeps the table, the queue and the lists sound |
| `SchedulerInvariant.KillKeepsInv` | pkg/kernel/src/proc/manager.rs:230-249 | killing a process that is enlisted nowhere keeps the invariant, or prepares the switch when it was the current one |
| `SchedulerInvariant.WaitPidKeepsInv` | pkg/kernel/src/proc/mod.rs:99-110 | waiting for a pid answers at once or enlists the caller in one place |
| `SchedulerInvariant.SemWaitKeepsInv` | pkg/kernel/src/proc/mod.rs:199-217 | a semaphore wait answers at once or enlists the caller in one place |
| `SchedulerInvariant.SemSignalKeepsInv` | pkg/kernel/src/proc/mod.rs:219-231 | a signal raises the count or moves one process from its list to the ready queue |
| `SchedulerInvariant.ForkKeepsInv` | pkg/kernel/src/proc/mod.rs:64-77 | fork adds a process with a new pid and queues both, keeping everything else sound |
| `SchedulerInvariant.SpawnKeepsInv` | pkg/kernel/src/proc/manager.rs:137-165 | spawn adds a ready process with a new pid and a semaphore set of its own |
| `SchedulerInvariant.StepKeepsInv` | pkg/kernel/src/proc/mod.rs:55-255 | every atomic step keeps the invariant, so none panics, as long as no enlisted process is killed and pids last |
| `SchedulerInvariant.BootIsInv` | pkg/kernel/src/proc/manager.rs:34-47 | the invariant holds when only the kernel runs |
| `SchedulerRuns.RunKeepsInv` | pkg/kernel/src/proc/mod.rs:55-255 | the invariant holds after every run of admissible steps |
| `SchedulerRuns.Partition` | pkg/kernel/src/proc/manager.rs:73-249 | in every reachable state each process is exactly one of current and unqueued, ready and queued once, blocked and enlisted at most once, or dead; every queued pid exists and the kernel is current or queued |
| `SchedulerRuns.SwitchNextTakesFirstReady` | pkg/kernel/src/proc/manager.rs:103-125 | `switch_next` takes the first ready process, drops exactly what stood before it, and touches no other process |
| `SchedulerRuns.WakeAllEffect` | pkg/kernel/src/proc/manager.rs:244-248 | waking a list gives each member the answer and one place at the end of the queue, in order |
| `SchedulerRuns.KillEffect` | pkg/kernel/src/proc/manager.rs:230-249 | kill records the code, empties the waiting list of the pid and answers everyone on it with the code |
| `SchedulerRuns.OthersAfterStep` | pkg/kernel/src/proc/mod.rs:55-255 | what a step does to a process that is not current: nothing, or waking with its answer, or killing; and if it is chosen, exactly its saved context is restored |
| `SchedulerRuns.DeadForever` | pkg/kernel/src/proc/process.rs:199-204 | a dead process stays dead through every run |
| `SchedulerRuns.ExitWakesAllWaiters` | pkg/kernel/src/proc/manager.rs:230-249 | the step that kills a process records its code and leaves all its waiters current or queued, off every list, with that code as answer, so no exit wake-up is lost; by `Partition` nobody waits for the dead |
| `SchedulerContexts.LeavesCpu` | pkg/kernel/src/proc/manager.rs:90-101 | a process that leaves the CPU is saved with its registers, ready, blocked in the right list, or dead |
| `SchedulerContexts.NobodyElseEnlists` | pkg/kernel/src/proc/mod.rs:55-255 | only the current process ever enlists itself |
| `SchedulerContexts.ReadyResumes` | pkg/kernel/src/proc/process.rs:176-189 | a ready process resumes with exactly the context that was saved, whatever happens in between |
| `SchedulerContexts.BlockedResumes` | pkg/kernel/src/proc/process.rs:164-189 | a blocked process resumes with its saved context and, in rax, zero from a semaphore or the exit code of the process it waited for |
| `SchedulerContexts.ContextSurvives` | pkg/kernel/src/proc/manager.rs:90-125 | over every run the context a process is restored with is the one it left with, except rax, which only fork and wake-up change, to known values |
| `SchedulerFairness.MovesForward` | pkg/kernel/src/proc/manager.rs:53-56 | no step moves a ready process back in the queue, and each switch moves it forward |
| `SchedulerFairness.ReadyRunsSoon` | pkg/kernel/src/proc/manager.rs:103-125 | a ready process at index i becomes current within i + 1 switches unless it is killed |
| `SchedulerFairness.ForkReturnsTwice` | pkg/kernel/src/proc/process.rs:88-115 | the forking step never goes on with the parent, so the parent gets the child's pid through its saved rax, while the child has a new pid, rax zero, the moved stack pointer, the parent's other registers and semaphores, and no children, ticks or exit code |
| `SchedulerAnswers.CallAnswers` | pkg/kernel/src/proc/mod.rs:99-255 | a call that does not switch leaves its caller on the CPU and changes nothing of it but rax, which is the pid of the new process, the exit code, or zero or one as the key existed; a signal that wakes and a kill leave rax alone |
| `SchedulerAnswers.CallBlocksIff` | pkg/kernel/src/proc/mod.rs:99-217 | a semaphore wait blocks and leaves the CPU if and only if the key exists and its integer is not positive, a wait for a process if and only if it has no exit code |
| `SchedulerAnswers.SpawnStarts` | pkg/kernel/src/proc/manager.rs:137-165 | a spawned process has a new pid, stands ready at the end of the queue with exactly the registers of its entry, and has an empty semaphore set that nobody else has; nothing else changes and the caller goes on with the pid |
| `SchedulerAnswers.SpawnedStartsAtEntry` | pkg/kernel/src/proc/manager.rs:150-155 | over every run, the first time it is current its registers are exactly those of its entry |
| `SchedulerAnswers.ExitCodeAfter` | pkg/kernel/src/proc/process.rs:199-204 | over every run the exit code of a dead process is what it was, or 0xdead if and only if it was killed once more or had that code |
| `SchedulerAnswers.WaitingForTheDead` | pkg/kernel/src/proc/mod.rs:99-110 | any time after a death, waiting for the dead process stays on the CPU, changes nothing but rax, and answers its exit code |
| `SchedulerAnswers.ExitCodeComesBack` | pkg/lib/src/syscall.rs:56-58 | read as an isize, the answer is the exit code, negative ones included |
| `SchedulerAnswers.SetsFollowTrace` | pkg/kernel/src/proc/mod.rs:199-255 | over every run of the kernel each semaphore set is what the calls of those who share it make of it, in order |
| `SchedulerAnswers.SemaphoreSinceCreation` | pkg/kernel/src/proc/mod.rs:199-255 | over every run of the kernel after the creating call, as long as nobody who shares the set creates or removes the key, the semaphore is value + signals - waits, and its queue is who was blocked and not woken, in order |
| `SchedulerAnswers.TalliesAfterStep` | pkg/kernel/src/proc/process.rs:88-124 | a fork adds one child to the forking process, leaving the CPU alive adds one tick, and nobody else's tallies change |
| `SchedulerAnswers.ChildrenAreForks` | pkg/kernel/src/proc/process.rs:88-115 | over every run the number of children, which chooses the slot of the next child's stack, is the number of forks |
| `SchedulerKills.HarmlessUntilAnswered` | pkg/kernel/src/proc/manager.rs:230-249 | for every run in which nobody answers the list of a process killed while it waited, the kernel goes on as if it were not on the list, and does not panic |
| `SchedulerKills.AnswerRevives` | pkg/kernel/src/proc/manager.rs:193-202 | any step that answers the list, a signal with the process at the head or a death for which it waits, makes the dead process ready and queued without an address space |
| `SchedulerKills.SwitchReaches` | pkg/kernel/src/proc/manager.rs:103-125 | a switch that reaches such a process panics, any other moves it forward |
| `SchedulerKills.TicksReach` | pkg/kernel/src/proc/mod.rs:55-62 | from index i of the queue, at most i + 1 clock ticks later the kernel has panicked |
| `SchedulerKills.KilledWaiterStopsKernelIffAnswered` | pkg/kernel/src/proc/manager.rs:193-249 | for a process killed at any place and any continuation that has not answered it, the next step lets clock ticks stop the kernel if and only if it answers that place |
| `SchedulerKills.KilledSelfWaiterStopsKernel` | pkg/kernel/src/proc/manager.rs:230-249 | a process that waits for itself is revived by its own kill |
| `SchedulerKills.KillThenSignalStopsTheKernel` | pkg/kernel/src/proc/manager.rs:193-249 | a run from boot: spawn, fork, a child that blocks, a kill, a signal and two ticks, after which the kernel has panicked |
| `ProcessManagement.ProcessManager.SaveCurrent` | pkg/kernel/src/proc/manager.rs:90-101 | the object form of saving the registers of the current process |
| `ProcessManagement.ProcessManager.SwitchNext` | pkg/kernel/src/proc/manager.rs:103-125 | the popping loop equals the recursive `switch_next` of the state machine, panics included |
| `ProcessManagement.ProcessManager.WakeUp` | pkg/kernel/src/proc/manager.rs:193-202 | the object form of waking one process |
| `ProcessManagement.ProcessManager.WakeWaiters` | pkg/kernel/src/proc/manager.rs:244-246 | the loop over a waiting set equals waking its members in ascending order |
| `ProcessManagement.ProcessManager.Kill` | pkg/kernel/src/proc/manager.rs:230-249 | the object form of kill with all wake-ups |
| `ProcessManagement.ProcessManager.Switch` | pkg/kernel/src/proc/mod.rs:55-62 | a clock tick follows the state machine |
| `ProcessManagement.ProcessManager.Fork` | pkg/kernel/src/proc/mod.rs:64-77 | fork follows the state machine |
| `ProcessManagement.ProcessManager.Spawn` | pkg/kernel/src/proc/manager.rs:137-165 | spawn follows the state machine; the new process is last in the queue with the registers of its entry, and the caller gets its pid |
| `ProcessManagement.ProcessManager.ProcessExit` | pkg/kernel/src/proc/mod.rs:91-97 | exit follows the state machine |
| `ProcessManagement.ProcessManager.SysKill` | pkg/kernel/src/proc/mod.rs:128-138 | kill follows the state machine, for the caller itself and for others; the kernel is refused |
| `ProcessManagement.ProcessManager.WaitPid` | pkg/kernel/src/proc/mod.rs:99-110 | waiting for a pid follows the state machine; for a process with an exit code nothing changes but rax, which is the code |
| `ProcessManagement.ProcessManager.SemWait` | pkg/kernel/src/proc/mod.rs:199-217 | a semaphore wait follows the state machine, missing keys included |
| `ProcessManagement.ProcessManager.SemSignal` | pkg/kernel/src/proc/mod.rs:219-231 | a signal follows the state machine, missing keys included |
| `ProcessManagement.ProcessManager.NewSem` | pkg/kernel/src/proc/mod.rs:233-243 | creating a semaphore follows the state machine; it has the value asked for and no waiters |
| `ProcessManagement.ProcessManager.RemoveSem` | pkg/kernel/src/proc/mod.rs:245-255 | removing a semaphore follows the state machine |
| `ProcessManagement.ProcessManager.Perform` | pkg/kernel/src/proc/mod.rs:55-255 | any step of the object is the step of the state machine, and an admissible one keeps the invariant |
| `Frames.FrameAllocator.AllocateFrame` | pkg/kernel/src/memory/frames.rs:57-64 | recycled frames come first and do not raise the counter; a failed call does |
| `Frames.FrameAllocator.DeallocateFrame` | pkg/kernel/src/memory/frames.rs:68-72 | the frame is pushed on the recycle list and the counter falls, wrapping |
| `Frames.AllocateTakes` | pkg/kernel/src/memory/frames.rs:57-64 | an allocation takes one free frame out, and fails if and only if none is free |
| `Frames.DeallocateGives` | pkg/kernel/src/memory/frames.rs:68-72 | giving back a frame that is not free makes exactly it free |
| `Frames.FreedComesFirst` | pkg/kernel/src/memory/frames.rs:57-72 | the frame freed last is handed out next, and the allocator is then as before but for the counter |
| `Frames.FreshFramesInOrder` | pkg/kernel/src/memory/frames.rs:57-64 | with nothing to recycle any number of allocations hands out the frames in the order of the memory map and then none |
| `Frames.FrameIterIsExact` | pkg/kernel/src/memory/frames.rs:75-85 | the iterator yields exactly the frames of the conventional regions |
| `Frames.FrameIterHasNoDuplicates` | pkg/kernel/src/memory/frames.rs:75-85 | each comes once when regions do not overlap |
| `Frames.CallKeepsPartition` | pkg/kernel/src/memory/frames.rs:56-73 | every call keeps remaining, recycled and outstanding frames a partition of the usable ones |
| `Frames.FramesArePartitioned` | pkg/kernel/src/memory/frames.rs:56-85 | from boot on, over any trace that frees outstanding frames only, the partition holds, no outstanding frame is handed out, and `used` is outstanding minus reuses plus failures modulo 2^64 |
| `PageTables.PageTable.MapRange` | pkg/elf/src/lib.rs:97-130 | the loop follows the function on values, including the pages and frames that a failure leaves behind |
| `PageTables.PageTable.UnmapRange` | pkg/elf/src/lib.rs:152-176 | the loop follows the function on values and stops at the first unmapped page |
| `Paging.MapToEffect` | pkg/elf/src/lib.rs:119-126 | mapping one page keeps every frame in one place, changes no other mapping, and refuses exactly mapped pages |
| `Paging.TablesAreShared` | pkg/elf/src/lib.rs:119-126 | two pages have a table in common if and only if they lie in the same 512, 512^2 or 512^3 pages of its level |
| `Paging.MapRangeEffect` | pkg/elf/src/lib.rs:97-130 | success maps exactly the range and failure exactly a prefix of it, to frames that were free; nothing else changes |
| `Paging.MapRangeRefused` | pkg/elf/src/lib.rs:118-127 | a range whose first page is mapped changes nothing and loses one frame |
| `Paging.MapRangeSucceeds` | pkg/elf/src/lib.rs:97-130 | a range can be mapped if and only if all its pages are unmapped and there is a frame for each page and each missing table, and it takes exactly that many |
| `Paging.MapRangeSplits` | pkg/elf/src/lib.rs:118-127 | mapping a range is mapping its front and then its rest |
| `Paging.OutOfFrames` | pkg/elf/src/lib.rs:119-121 | a range that fails for want of frames leaves none |
| `Paging.MapRangeStopsAt` | pkg/elf/src/lib.rs:97-130 | a range that meets a mapped page keeps exactly the pages before it and loses one frame |
| `Paging.UnmapRangeEffect` | pkg/elf/src/lib.rs:152-176 | unmapping a mapped range removes exactly it and frees exactly its frames |
| `Stacks.FaultIsBelowStack` | pkg/kernel/src/proc/vm/stack.rs:109-126 | on a fault at an unmapped address of the slot the page count of `grow_stack` is positive and does not underflow |
| `Stacks.GrowKeepsLive` | pkg/kernel/src/proc/vm/stack.rs:117-153 | a grown stack reaches the faulting page, keeps its end, is fully mapped with the right usage, and its new pages are writable, and open to the user exactly if the fault was the user's |
| `Stacks.FaultIsElsewhereIff` | pkg/kernel/src/proc/vm/stack.rs:91-115 | a fault is passed on, with nothing changed, if and only if its address is outside of the 4 GiB below the end of the stack |
| `Stacks.FaultIsServedIff` | pkg/kernel/src/proc/vm/stack.rs:91-153 | a fault in the slot of the stack is served if and only if no page from the faulting one to the stack is mapped and there are frames for them and their tables |
| `Stacks.CleanUpIsOnce` | pkg/kernel/src/proc/vm/stack.rs:204-225 | a stack that was cleaned up is empty, and a second clean-up does nothing |
| `Stacks.FindSlotEffect` | pkg/kernel/src/proc/vm/stack.rs:163-167 | the search ends whole slots below its start, in pages that were not mapped before, and changes no mapping |
| `Stacks.SearchStaysInHalf` | pkg/kernel/src/proc/vm/stack.rs:163-167 | the search of a live stack that goes on never passes address zero: the kernel stops there |
| `Stacks.FindSlotTakesFirstFree` | pkg/kernel/src/proc/vm/stack.rs:163-167 | when the tried slots hold a page at the start of the range the search ends at the first free slot, each failed try costing one frame and nothing else |
| `Stacks.FailedTryKeepsMap` | pkg/kernel/src/proc/vm/stack.rs:163-167 | a failed try leaves the page map as it was if and only if the first page was mapped already or could not get its frames |
| `Stacks.ForkedStackIsLive` | pkg/kernel/src/proc/vm/stack.rs:155-182 | the child's stack is live, has the parent's size and is apart from it by whole slots; it lies below when the parent has no more children than slots below it |
| `Stacks.ForkGoesBelowIff` | pkg/kernel/src/proc/vm/stack.rs:155-167 | for stacks of the lower half and every number of children: a child's stack is below the parent's if and only if there are no more children than slots below it, in the upper half if and only if there are at least two more; with exactly one more, and with 0x8001 or more, the kernel stops |
| `Stacks.FirstTryIs` | pkg/kernel/src/proc/vm/stack.rs:163 | where the search starts for every number of children, and for which of them the range there can be formed |
| `Searches.NoFramesStopTheKernel` | pkg/kernel/src/proc/vm/stack.rs:163-167 | without a free frame the search stops the kernel, from wherever it starts |
| `Searches.SearchEndsAt` | pkg/kernel/src/proc/vm/stack.rs:163-167 | where the first free range is k slots down, the search ends there if and only if there are frames for it and for the gaps that the failed tries fill, and it takes exactly these |
| `Searches.SearchReturnsIff` | pkg/kernel/src/proc/vm/stack.rs:163-167 | the search returns if and only if there is such a first free range, with all above it formable, and its frames |
| `Searches.SearchReturnsIffFree` | pkg/kernel/src/proc/vm/stack.rs:163-167 | with four frames for each page of each try, it returns if and only if some range in reach is wholly unmapped |
| `Searches.ForkReturnsIff` | pkg/kernel/src/proc/vm/stack.rs:155-182 | so fork of a live stack returns if and only if the search from its first try does; otherwise the kernel stops |
| `Searches.ManyChildrenStopTheKernel` | pkg/kernel/src/proc/vm/stack.rs:163-167 | a failing input: the first stack with 0x4000 children, whatever is mapped |
| `Searches.ChildAboveItsParent` | pkg/kernel/src/proc/vm/stack.rs:163-167 | with 0x4001 children, four frames and an unmapped page at the end of the last slot that can be formed, the child's stack is there, above its parent's |
| `Searches.FamilyForkReturnsIff` | pkg/kernel/src/proc/vm/stack.rs:155-182 | the condition decides in every reachable family |
| `Searches.ForkingStopsTheKernel` | pkg/kernel/src/proc/process.rs:206-212 | in every sound family a process that forks again and again stops the kernel, after at most as many forks as there are free frames and with at most as many children as slots up to its own |
| `Stacks.ForkedPointer` | pkg/kernel/src/proc/vm/stack.rs:83-89 | adding the wrapped offset puts a stack pointer at the same place of the child's stack |
| `Heaps.BrkGrows` | pkg/kernel/src/proc/vm/heap.rs:50-104 | a successful call that does not shrink maps exactly the missing pages and moves no mapping |
| `Heaps.BrkSucceedsIff` | pkg/kernel/src/proc/vm/heap.rs:50-104 | a call succeeds if and only if the address is within the 4 GiB of the heap, both ends included, and it does not grow the heap or the missing pages are unmapped and there are frames; a failure keeps the end |
| `Heaps.QueryAnswersGrantedEnd` | pkg/kernel/src/proc/vm/heap.rs:50-104 | after calls of any kind and outcome, a query changes nothing and answers the last address that was answered, and the user can write everywhere below it |
| `Heaps.BrkKeepsExact` | pkg/kernel/src/proc/vm/heap.rs:50-104 | such a call keeps the mapped heap equal to the pages up to the end |
| `Heaps.ShrinkKeepsExactOnSamePage` | pkg/kernel/src/proc/vm/heap.rs:70-97 | a shrinking call succeeds and unmaps nothing, so that exactness survives if and only if both ends are on one page |
| `Heaps.FailedBrkKeepsExact` | pkg/kernel/src/proc/vm/heap.rs:88-92 | a failing call keeps exactness if and only if there were no frames even for the first page and its tables |
| `Heaps.FailedBrkLeavesPage` | pkg/kernel/src/proc/vm/heap.rs:88-92 | a failing input: frames for the first page only |
| `Heaps.CleanUpUnmapsHeap` | pkg/kernel/src/proc/vm/heap.rs:106-126 | the clean-up unmaps exactly the heap and resets the end |
| `Heaps.HeapStaysExact` | pkg/kernel/src/proc/vm/heap.rs:50-104 | over every run of successful non-shrinking calls the mapped heap is none at the base and otherwise exactly the pages through the end, and mapped pages keep their frames |
| `Families.OneStackPerSlot` | pkg/kernel/src/proc/vm/stack.rs:12-31 | each 4 GiB slot holds at most one live stack |
| `Families.StepKeepsInv` | pkg/kernel/src/proc/vm/mod.rs:107-161 | fork, fault, brk with any outcome, death and foreign allocations keep every frame in one place and every owned page mapped with one owner |
| `Families.RunKeepsInv` | pkg/kernel/src/proc/vm/mod.rs:107-161 | so in every reachable family; in particular no frame is freed twice and live stacks end on slot boundaries and are fully mapped |
| `Families.DeathGivesBack` | pkg/kernel/src/proc/vm/mod.rs:135-161 | a death never fails to clean up; it unmaps and frees exactly its own stack, and for the last member also the heap, and the code if it loaded it |
| `Families.UnmapCodeEffect` | pkg/kernel/src/proc/vm/mod.rs:149-152 | disjoint code ranges are all unmapped |
| `Families.SharedPagesStay` | pkg/kernel/src/proc/vm/mod.rs:135-152 | through every run heap and code pages keep their frames while any sharer lives |
| `Families.HeapAndCodeAreShared` | pkg/kernel/src/proc/vm/mod.rs:107-122 | heap and code pages are such shared pages |
| `Families.FaultsNeverUnderflow` | pkg/kernel/src/proc/vm/stack.rs:91-126 | in every reachable family the range that a fault in the slot of a stack asks for is not empty, and the subtraction of pages does not underflow |
| `Families.FamilyIsBorn` | pkg/kernel/src/proc/vm/mod.rs:88-105 | mapped, disjoint code and a first stack make a sound family of one |
| `Faults.SlotBelongsToStack` | pkg/kernel/src/proc/vm/stack.rs:12-31 | in a tidy family, where all mapped pages of the stack area are on live stacks, every mapped page of a live stack's slot belongs to that stack |
| `Faults.TidyFaultIsServedIff` | pkg/kernel/src/proc/vm/stack.rs:91-153 | in a tidy family a fault anywhere in the slot of a stack is served if and only if there are frames for it |
| `Faults.RunStaysTidy` | pkg/kernel/src/proc/vm/mod.rs:107-161 | families stay tidy through every run whose forks meet only slots of stacks at least as deep and whose growths do not fail |
| `Faults.FaultsAreServed` | pkg/kernel/src/interrupt/exception.rs:138-152 | so after every such run a fault anywhere in the slot of a stack is served if and only if there are frames |
| `Faults.BornIsTidy` | pkg/kernel/src/proc/vm/mod.rs:88-105 | a freshly loaded process is tidy |
| `Faults.StrayPages` | pkg/kernel/src/proc/vm/stack.rs:163-167 | a failing input: a try over a one-page stack leaves two pages below it |
| `Faults.RefusedFault` | pkg/kernel/src/interrupt/exception.rs:138-152 | from any tidy family of one with a hundred frames, two forks and a fault lead to a fault that is refused although its frames are there |
| `Families.FamilyHeapStaysExact` | pkg/kernel/src/proc/vm/heap.rs:50-126 | through every family run with stacks above the heap and no shrinking or failing brk the heap's area is mapped exactly as the shared end says |
| `PhysicalMemory.CloneRange` | pkg/kernel/src/proc/vm/stack.rs:189-198 | the word-by-word copy makes every target page equal to its source page and changes no other byte |
| `AddressSpaces.UserStack.Init` | pkg/kernel/src/proc/vm/stack.rs:76-81 | the first page of the stack is mapped below the top of the area |
| `AddressSpaces.UserStack.GrowStack` | pkg/kernel/src/proc/vm/stack.rs:117-153 | growing follows the function on values; an error leaves the stack's range as it was |
| `AddressSpaces.UserStack.HandlePageFault` | pkg/kernel/src/proc/vm/stack.rs:91-107 | for any stack and address, the kernel's included, follows the function on values; a live stack passes on exactly the faults outside of its slot |
| `AddressSpaces.UserStack.Fork` | pkg/kernel/src/proc/vm/stack.rs:155-182 | the retry loop and the copy together: the found slot is that of the search function and holds a copy of the parent's pages |
| `AddressSpaces.UserStack.CleanUp` | pkg/kernel/src/proc/vm/stack.rs:204-225 | the stack's pages are unmapped and its usage reset |
| `AddressSpaces.UserHeap.Fork` | pkg/kernel/src/proc/vm/heap.rs:43-48 | the copy shares the end address |
| `AddressSpaces.UserHeap.Brk` | pkg/kernel/src/proc/vm/heap.rs:50-104 | brk on the shared end follows the function on values for every argument |
| `AddressSpaces.UserHeap.CleanUp` | pkg/kernel/src/proc/vm/heap.rs:106-126 | the swap of the end and the unmapping follow the function on values |
| `AddressSpaces.ProcessVm.LoadElf` | pkg/kernel/src/proc/vm/mod.rs:88-105 | succeeds if and only if the program and the first stack page fit, else the kernel stops; on success every aligned segment reads as the file says, every segment has the access its header asks for and is open to the user, the page of the initial stack pointer is writable, the recorded code is that of the segments, and the objects are a sound family of one |
| `AddressSpaces.ProcessVm.Fork` | pkg/kernel/src/proc/vm/mod.rs:107-122 | the child shares page table, reference count and heap, records no code, reads in its stack what the parent reads in its own, and disturbs no mapped byte |
| `AddressSpaces.ProcessVm.Brk` | pkg/kernel/src/proc/vm/mod.rs:80-86 | brk goes to the shared heap |
| `AddressSpaces.ProcessVm.HandlePageFault` | pkg/kernel/src/proc/vm/mod.rs:124-129 | faults go to the stack, with every outcome |
| `AddressSpaces.ProcessVm.CleanUp` | pkg/kernel/src/proc/vm/mod.rs:135-161 | stack first; heap and recorded code only for the last user of the table; an error ends it |
| `AddressSpaces.ProcessVm.Drop` | pkg/kernel/src/proc/vm/mod.rs:193-199 | dropping cleans up and then gives up one share of the page table |
| `Relatives.Fork` | pkg/kernel/src/proc/vm/mod.rs:107-122 | on objects that are a family, fork is the family's step, and the kernel stops if and only if the search does |
| `Relatives.Fault` | pkg/kernel/src/proc/vm/mod.rs:124-129 | a page fault of a member is the family's step |
| `Relatives.Break` | pkg/kernel/src/proc/vm/mod.rs:80-86 | brk of a member is the family's step, on the end that all members share |
| `Relatives.Death` | pkg/kernel/src/proc/process.rs:199-204 | dropping a member's address space never fails and gives back exactly what the family's death gives back |
| `Relatives.StepStaysInMemory` | pkg/kernel/src/proc/vm/mod.rs:107-161 | no step reaches a frame outside of memory |
| `Relatives.PerformAll` | pkg/kernel/src/proc/vm/mod.rs:107-161 | through every run the objects are the family of the state machine: the reference count is the number of live members, table and heap end are shared, and the invariant holds |
| `AddressSpaces.ForkCopiesStack` | pkg/kernel/src/proc/vm/stack.rs:155-198 | at every address moved by the stack offset the child reads what its parent read, and every address that could be read before reads the same |
| `ElfLoader.LoadSegment` | pkg/elf/src/lib.rs:319-439 | maps exactly as mapping the segment's pages as one range does, with the same error; the new pages are writable, executable and open to the user exactly as the header and the caller ask, and hold the file bytes and then zeros; a failure leaves a prefix of them; no frame in use changes; success reports the range |
| `ElfLoader.LoadFilePages` | pkg/elf/src/lib.rs:350-406 | the loop over the file's pages maps as one range does, and fills each page |
| `ElfLoader.MapZeroPages` | pkg/elf/src/lib.rs:408-435 | the loop over the zero pages maps as one range does, and fills each page |
| `ElfPrograms.LoadElf` | pkg/elf/src/lib.rs:292-316 | succeeds if and only if all ranges can be computed, are unmapped and disjoint, and there are frames for them and their tables; then all segments are in memory at once, each with the access its header asks for, their pages are all that was mapped, and the ranges are reported in order; on any outcome earlier mappings and contents stay |
| `ElfPrograms.LoadedProgramIsProtected` | pkg/elf/src/lib.rs:326-346 | every page of every loaded segment is writable if and only if the segment is, closed to execution if and only if the segment is not executable, and open to the user as asked |
| `ElfPrograms.MapProgramIff` | pkg/elf/src/lib.rs:292-439 | mapping the segments in turn succeeds under exactly that condition, and takes exactly those frames and makes exactly those tables |
| `ElfPrograms.ProgramAndStackIff` | pkg/kernel/src/proc/vm/mod.rs:88-105 | program and first stack are mapped if and only if the page is free beside the program and there are frames for both |
| `ElfPrograms.ExtraPageCollides` | pkg/elf/src/lib.rs:408-435 | a failing input: a segment with a zero part that ends on a page boundary where another one starts; such a file never loads |
| `ElfPrograms.AlignedFileIsComplete` | pkg/app/config/app.ld:6-29 | files whose loaded segments are aligned, as the linker script makes them, have all bytes that the loader reads |
| `ElfPrograms.AlignedReads` | pkg/elf/src/lib.rs:319-439 | a placed aligned segment reads as its file bytes and then zeros to its memory size |
| `ElfPrograms.LoadedProgramReads` | pkg/elf/src/lib.rs:292-439 | after loading, this holds for every aligned segment |
| `ElfPrograms.ExtraPage` | pkg/elf/src/lib.rs:408-438 | a segment of any alignment gets the pages of its reported range, which is all it touches, plus one at its end exactly when it has a zero part and ends on a page boundary |
| `ElfPrograms.LoadedByteIsRead` | pkg/elf/src/lib.rs:356-406 | the byte function of the next rows is what a process reads once the byte's own page is loaded, for segments of any alignment |
| `ElfPrograms.LoadedPage` | pkg/elf/src/lib.rs:356-406 | loading a segment loads that page |
| `ElfPrograms.RightForAllFilesIffAligned` | pkg/elf/src/lib.rs:330-406 | the file part comes out right for all contents of the file if and only if address and offset are page-aligned |
| `ElfPrograms.TailIsDropped` | pkg/elf/src/lib.rs:361-366 | a segment that starts inside a page has a byte near its end that reads as zero whatever the file holds |
| `ElfPrograms.LoadedProgramStartsFamily` | pkg/kernel/src/proc/vm/mod.rs:88-105 | any loaded program with its first stack is a family in which each page has one owner and each frame is accounted for |
| `ElfPrograms.ExitUndoesLoading` | pkg/kernel/src/proc/vm/mod.rs:88-161 | loading a program and exiting as the last member leaves the page map as it was, plus exactly the pages too many |
| `ElfPrograms.NothingIsLeftIff` | pkg/kernel/src/proc/vm/mod.rs:135-161 | there are none if and only if no loaded segment has a zero part that ends on a page boundary |
| `Forks.ForkReturnsTwiceOnEqualStacks` | pkg/kernel/src/proc/process.rs:206-236 | fork returns the pid in the parent and zero in the child; other registers agree, the child's stack pointer is at the same place of its stack, and above it both read what the parent read before |
| `Input.InputBuffer.PushKey` | pkg/kernel/src/drivers/input.rs:10-14 | a key is appended, or dropped when 128 are queued |
| `Input.InputBuffer.ToUtf8` | pkg/kernel/src/drivers/input.rs:61-81 | pops as many keys as the first byte asks for and assembles the code point |
| `Input.InputBuffer.ReadLine` | pkg/kernel/src/drivers/input.rs:29-55 | the editor's loop follows the function on key sequences and leaves the unread keys |
| `Input.DecodesWhatWasEncoded` | pkg/kernel/src/drivers/input.rs:57-81 | the decoder inverts the encoding of section 3 of RFC 3629 for every scalar value |
| `Input.AcceptsRightIffWellFormed` | pkg/kernel/src/drivers/input.rs:43-81 | for every first byte, what the editor makes of a sequence is the character it encodes if and only if it is well formed by section 4 of RFC 3629 |
| `Input.NoCharacterIffBad` | pkg/kernel/src/drivers/input.rs:44-47 | it is no character if and only if the bytes give a surrogate, in three or four bytes, or a code point beyond the last one |
| `Input.StopsIffBad` | pkg/kernel/src/drivers/input.rs:29-55 | the editor stops the kernel if and only if such bytes come before the return key, whatever was typed and erased |
| `Input.LineIsWhatWasTyped` | pkg/kernel/src/drivers/input.rs:29-55 | for any typing and erasing, the line at the return key is the edited text and exactly the sent bytes are consumed |
| `Input.TextComesBack` | pkg/kernel/src/drivers/input.rs:29-55 | every scalar sequence without CR, BS and DEL comes back as it was sent |

## Left out

- Hardware and foreign code: interrupt controllers, serial port, descriptor tables, inline assembly, CR3 loads and UEFI boot services.
- The bits inside page tables: the mapper is a map from pages to frames with explicit intermediate tables; huge pages, TLB flushes and canonicity of addresses other than those of new stacks are not modelled. For new stacks the library's arithmetic is taken to wrap on addition and to stop on a subtraction below zero and on addresses that are not canonical.
- `mapper.clean_up` and the freeing of the level-4 frame at the last death: library code; table frames stay with the family.
- `clone_level_4`: a new family starts from any sound page map.
- `map_elf`, `unmap_elf`, `map_segment`, `unmap_segment`, `map_physical_memory`: used by no kernel path.
- The kernel's own stack and heap: stack invariants are for user stacks, because the kernel's range is a page shorter than its usage says.
- `dinner`: its main never creates the chopstick semaphores.
- Shell, configuration parsing, logging, process lists, file descriptors, environment variables and printing, except what `fish` prints.
- Weak memory orderings and several CPUs: one CPU with sequentially consistent steps.
- The debug assertions, which the release build leaves out; the one on the stack offset contradicts the code.
- Parent links and names of processes.
- ElfLoader.LoadSegment: for segments whose bytes lie inside the file, as all aligned ones do; the code would read behind it.
- Stacks.FindSlotTakesFirstFree: for slots whose first page is mapped; `Searches.SearchReturnsIff` covers the others.
- Families.RunKeepsInv: the heap end may move through any calls of `brk`, but exactness of the heap is stated for successful non-shrinking calls only, because it is false for the others.
- SchedulerAnswers.SpawnStarts: the registers of the entry are a parameter; the instruction pointer and the selectors are among the other registers.
- SchedulerInvariant.StepKeepsInv: for fewer than 65535 processes and kills of processes that are enlisted nowhere; `KilledWaiterStopsKernelIffAnswered` tells what happens after other kills.
- ProcessManagement.ProcessManager.Fork: the stack offset is a parameter of the manager; `Forks.ForkReturnsTwiceOnEqualStacks` puts in the one that the address space computes.
- Counter.CounterIsExact: the parents that fork and wait are not modelled, only the incrementing processes.
