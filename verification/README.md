# Dafny model of the kernel and the shell

A Dafny model of six parts of the system, with the fixed-capacity code proved
against simple specifications, and properties of those specifications proved
over all inputs and all runs.

1. **Cooperative scheduler and process lifecycle** (`Process`, `Scheduler`,
   `SchedulerState`, `SchedulerCore`, and the proofs `SchedulerRuns`,
   `SchedulerSafety`, `SchedulerExit`, `SchedulerTheorems`). Two slot tables, and
   steps yield, spawn-and-wait, exit, chdir and environment changes. A ghost
   observer numbers process instances, notes what each blocked thread awaits, and
   keeps a log, so that statements about identity survive the reuse of slots. The
   invariant is one chain of user processes, each thread blocked on the next; the
   theorems are stated without it.
2. **Physical memory** (`Allocator`, `OwnedPages`). A table of intervals as a set
   of addresses, and of pages.
3. **Page tables and program loading** (`Words`, `Paging`, `PagingState`,
   `KernelMaps`, `Elf`, `UserImage`, `Segments`, `Startup`, `Loader`, `Program`,
   `LoadAndRun`, `LoadNeeds`, `Executables`). Four-level tables in flat memory
   (Intel SDM, Volume 3A, section 4.5); an address space is judged only by the page
   walk. The argument block travels from the parent's library through the kernel to
   the child's. `Executables` says all of it again of the bytes of an executable
   file (System V gABI, chapters 4 and 5).
   `LoadAndRun` ties what the loader guarantees to what the scheduler's runs
   assume of it; `LoadNeeds` says, in terms of file, arguments and free pages only,
   when a load completes.
4. **Runs over real memory** (`World`, `Sealing`, `Isolation`, `LoadOrder`,
   `Slack`). The scheduler's machine together with all bytes of memory: a spawn
   loads its file into the pages that are free then, and user code stores wherever
   its own page tables let it. Processes are isolated over every run, and where
   memory at boot is not too fragmented no capacity assertion is ever met, however
   many programs come and go, but for what failed loads lose.
5. **Paths and FAT32** (`Paths`, `Survivors`, `ShellPaths`, `PathSearch`,
   `ShortNames`, `Fat32`, `FatLayout`). Path normalization as a fold over a stack,
   in the kernel and again in the shell, and what it comes to as the names that no
   later `..` takes away; cluster chains as sequences of sectors, directories as
   sequences of entries (Microsoft FAT32 specification, FAT Data Structure and FAT
   Directory Structure), and where on a partition they lie. The device is a function
   from a sector number to 512 bytes or nothing.
6. **The `lash` front end** (`Quoting`, `Tokens`, `Writing`, `Shell`). Two
   quote-aware automata over one line, lines as one writes them, and the flat loop
   over `&&`, `||` and `;` against the tree it evaluates.

`Environment` models the environment block, `Prelude` bytes, options, results and
the alignment helpers.

Code that changes things in place is a class or a method over arrays whose
contract ties the new state to a function of the old one; the properties are
lemmas about these functions. Capacity assertions of the source are outcomes: an
`ok` that is false, `CapacityExhausted` or `Panicked`, each with the exact
condition: a table has one entry for each maximal run of free pages
(`TableHasRanges`), so the condition speaks of free sets only (`Releasable`,
`Overflows`). `SchedulerCore` runs over that table and over memory; the runs of
`SchedulerRuns` and `World` go on only where no capacity assertion fails, and
`ReleasesNeverFail` says when none does. Integers are unbounded; where the source
checks a 64-bit overflow the model has the check, and shifts and masks of words are
divisions and remainders.

Where code and comments or specification differ, the model follows the code:

- A directory that fills its last cluster has no end marker; listing it and
  looking up an absent name in it end with FileNotFound, from the end of the
  chain (`FailedListing`, `FindInDirectory`; `FullDirectoryExists` is such a
  volume on a device that mounts).
- Serialized empty arguments are accepted by the library and refused by the
  kernel (`TailRoundTrip`, `EmptyArgumentIsRefused`).
- A 4 KiB mapping below an address that a 2 MiB mapping covers takes the mapped
  memory for a page table, reports success and changes no translation
  (`Map4kUnderHuge`).
- A trimmed segment can end in a backslash that the scan accepted because it
  escaped a space; tokenizing then reports a trailing backslash
  (`TrimmedSegmentParses`, `TrimmingCanBreak`).

## Model

| member | source | states |
|---|---|---|
| `SchedulerTheorems.RunKeeps` | kernel/kernel/src/scheduler/core.rs:12-97 | After any sequence of yields, spawns, exits, chdirs and environment changes from boot, the invariant holds: the user processes form one chain, each link but the last is blocked on the next one, everything else is a kernel thread, and pages, instances and statuses are accounted for. |
| `SchedulerTheorems.StepKeeps` | kernel/kernel/src/scheduler/core.rs:40-97 | One step of any kind, from any state with the invariant, ends in a state with the invariant. |
| `SchedulerTheorems.NothingPanics` | kernel/kernel/src/scheduler/state.rs:384-406 | In every reachable state, whatever the running code asks for meets the assumptions behind the `expect`s on ids, and the next state is reachable again. |
| `SchedulerTheorems.OneThreadRuns` | kernel/kernel/src/scheduler/state.rs:118-315 | In every reachable state exactly the current thread is Running, every live thread has a live process, at most 9 of the 12 thread slots are taken, and the active address space is that of the current thread. |
| `SchedulerTheorems.NoWaitCycle` | kernel/kernel/src/scheduler/state.rs:250-271 | In every reachable state no path of "is blocked until the process of" returns to where it began. |
| `SchedulerTheorems.BlockedIsRegistered` | kernel/kernel/src/scheduler/state.rs:191-192 | No wakeup is lost: a blocked thread is the registered waiter of the live process it waits for, has no status yet, and that process is the very instance it spawned. |
| `SchedulerTheorems.ExitResumesWaiter` | kernel/kernel/src/scheduler/state.rs:273-315 | An exit makes the waiter current with exactly the status passed, and the waiter is the thread that spawned this instance; the process without a waiter is the bootstrap process and its exit ends the run. |
| `SchedulerTheorems.WaitsReturnTheirChild` | kernel/kernel/src/scheduler/core.rs:54-66 | Over every run, with slots reused: each wait returns `Some` of the status that the very instance it spawned had passed to exit; instances are spawned once and exit at most once. |
| `SchedulerTheorems.PagesArePartitioned` | kernel/kernel/src/memory/types.rs:85-116 | In every reachable state each page of the allocator is free, lost by a failed load, or owned by exactly one live user process, and the active root is not free. |
| `SchedulerTheorems.MatchedSpawnAndExitRestoreMemory` | kernel/kernel/src/scheduler/services.rs:61-115 | When a wait is about to return, however much ran in between, the free pages are those from before its spawn, less what failed loads lost since. |
| `SchedulerTheorems.ProcessesStayInheritable` | kernel/kernel/src/scheduler/services.rs:205-220 | In every reachable state each user process has a cwd in normal form, a well-formed environment and three open standard streams. |
| `SchedulerTheorems.SpawnRefusedIffFull` | kernel/kernel/src/scheduler/state.rs:118-219 | In every run a spawn is refused if and only if all 8 process slots are taken, and then nothing has changed; in particular the branch that undoes a stored child is never taken. |
| `SchedulerTheorems.YieldAdvances` | kernel/kernel/src/scheduler/state.rs:221-248 | A yield makes the eligible thread `t` current or leaves it eligible and strictly fewer slots away. |
| `SchedulerTheorems.EligibleThreadRuns` | kernel/kernel/src/scheduler/state.rs:331-354 | A thread that is not idle and can run does run within its distance plus one yields, and within MAX_THREADS. |
| `SchedulerTheorems.EligibleThreadRunsAmidst` | kernel/kernel/src/scheduler/core.rs:40-97 | In any run of yields and of steps that stay on the CPU (chdir, environment changes, a wait's return, a refused spawn), an eligible thread has run once the yields outnumber its distance. |
| `SchedulerTheorems.RunOfYields` | kernel/kernel/src/scheduler/core.rs:40-50 | A run of yields changes the scheduler tables exactly as the repeated switch does, so fairness holds of runs. |
| `SchedulerTheorems.BootIsGood` | kernel/kernel/src/main.rs:68-96 | The boot configuration has the invariant. |
| `SchedulerTheorems.CreateBootProcesses` | kernel/kernel/src/main.rs:68-84 | Creates the kernel process, and the bootstrap process with three terminal streams and PATH. |
| `SchedulerTheorems.BootScheduler` | kernel/kernel/src/main.rs:68-96 | The boot sequence leaves exactly the two processes and three threads, and enters the terminal thread. |
| `SchedulerTheorems.BootedIs` | kernel/kernel/src/main.rs:68-96 | That state, field by field: the kernel process without streams; the bootstrap program with its root and pages, in "/", with PATH set and its streams at the terminal, whose exit shuts the system down; the terminal thread on the CPU, the program thread and the idle thread. |
| `SchedulerCore.BootKernel` | kernel/kernel/src/main.rs:68-96 | Boot in place, over real memory: the system starts if and only if the load of the bootstrap program completes, and what is left then is the machine from which the runs start, with that program, over memory as the load left it. |
| `SchedulerCore.Core.YieldNow` | kernel/kernel/src/scheduler/core.rs:40-50 | In place: the machine after a yield step. |
| `SchedulerCore.Core.SpawnUserProcess` | kernel/kernel/src/scheduler/services.rs:61-115 | In place, over the allocator's table and memory: the path is resolved from the parent's cwd, then the file is read, then loaded; the answer is that of the load as a function of memory, which `Worlds.SpawnIsAnswered` spells out, the machine takes the spawn step with exactly this load, and memory is what the load left; what the child starts with, `Worlds.SpawnedChildIsTheFile` and `SpawnedChildInherits` say. A path or file that is refused changes nothing. The capacity assertion fails exactly when giving pages back takes more intervals than the table has. |
| `SchedulerCore.LoadProgram` | kernel/kernel/src/memory/loader.rs:21-112 | In place: the result is that of the load as a function of memory: done with the file's program (root, entry, stack top, owned pages), failed with every recorded page free again, or stuck exactly when those pages are not releasable; frames and free pages are those it leaves. |
| `SchedulerCore.Core.StartExecutable` | kernel/kernel/src/scheduler/services.rs:91-102 | In place: from the file on, with the answer determined: InvalidExecutable exactly when the load fails and its pages can be given back. |
| `SchedulerCore.Core.StartProgram` | kernel/kernel/src/scheduler/services.rs:104-115 | In place: the program becomes a child the parent waits for, or its pages are released and the answer is ResourceUnavailable; the assertion fails exactly when they are not releasable. |
| `SchedulerCore.Core.StartChild` | kernel/kernel/src/scheduler/services.rs:104-115 | In place: the stored child is noted and the parent blocks on it. |
| `SchedulerCore.ReleaseFrames` | kernel/kernel/src/memory/types.rs:108-116 | In place: the pages are free again, or the capacity assertion fails, exactly when they are not releasable. |
| `SchedulerCore.Core.StartWait` | kernel/kernel/src/scheduler/core.rs:54-60 | In place: the current thread is blocked and the successor's address space is active. |
| `SchedulerCore.Core.FinishWait` | kernel/kernel/src/scheduler/core.rs:62-66 | In place: takes and returns the wait result. |
| `SchedulerCore.Core.ExitCurrentProcess` | kernel/kernel/src/scheduler/core.rs:70-97 | In place, over the allocator's table: the machine afterwards is that of the exit step; the capacity assertion fails exactly when the pages of the exiting process are not releasable, and shutdown releases none. |
| `SchedulerCore.Core.Leave` | kernel/kernel/src/scheduler/core.rs:70-97 | In place: the tables after the exit transition, and the system is down when no thread follows. |
| `SchedulerCore.Core.Enter` | kernel/kernel/src/scheduler/core.rs:77-80 | In place: the next address space is active before the pages of the exiting process are released. |
| `SchedulerCore.Core.Chdir` | kernel/kernel/src/scheduler/services.rs:205-220 | In place: accepted exactly when the path resolves within 256 bytes to a directory; then the cwd of the current process is that path and nothing else changes, and otherwise nothing does. Which path that is, `Survivors.NormalizedIsWhatSurvives` says. |
| `SchedulerCore.Core.SetEnv` | kernel/kernel/src/scheduler/services.rs:173-184 | In place: the current process has the new bindings and nothing else changes, or it is said why not and nothing changes at all. |
| `SchedulerCore.Core.UnsetEnv` | kernel/kernel/src/scheduler/services.rs:187-202 | In place: the current process has the bindings without the key and nothing else changes, and the answer is whether the key was bound; an unacceptable key changes nothing. |
| `Worlds.SpawnedChildIsTheFile` | kernel/kernel/src/scheduler/services.rs:61-115 | Over every run with memory: when a spawn leaves its parent waiting, the child in the first free slots has root, pages, entry and stack top of the complete load of the file (which `Programs.SegmentBytesArrive` and `ArgumentsArrive` read back), and memory is what this load left. |
| `Worlds.SpawnedChildInherits` | kernel/kernel/src/scheduler/state.rs:146-170 | Over every run with memory: that child starts with its parent's cwd, environment and stdin; its stdout and stderr are null sinks when it is silent, and its parent's objects when it is not. |
| `Worlds.SpawnIsAnswered` | kernel/kernel/src/scheduler/services.rs:91-115 | Over every run with memory: a spawn waits exactly when the file loads and one of the 8 process slots is free; a file that does not load is InvalidExecutable, a full table ResourceUnavailable, and the capacity assertion fails exactly when the pages to give back are not releasable. |
| `Worlds.WorldRunIsRun` | kernel/kernel/src/scheduler/core.rs:12-97 | A run with real memory, in which every spawn loads a file into the pages free at that moment and user code stores through its page tables, is a run of the scheduler, so all theorems about runs hold of it. |
| `Isolation.UserReachesOwnPages` | kernel/kernel/src/memory/loader.rs:33-104 | In every reachable state whatever user code of a process can reach through the page walk lies in a page that this process owns, that is not free, that no other process owns, and that is a page table of no process. |
| `Isolation.OthersAreUntouched` | kernel/kernel/src/memory/loader.rs:33-104 | Whoever takes a step, whether it loads, releases, switches or stores: every translation and every byte that another process reads stay as they were. |
| `Isolation.WaitingParentKeepsItsMemory` | kernel/kernel/src/scheduler/core.rs:54-66 | Between a spawn and the return of its wait, whatever ran, no translation of the parent changed and no byte that it reads. |
| `Isolation.WorldRunKeeps` | kernel/kernel/src/memory/loader.rs:33-104 | Over every run with memory, the scheduler's invariant holds and every live process owns its page tables and all that user code reaches through them, different pages in different frames. |
| `Slack.ReleasesNeverFail` | kernel/kernel/src/memory/allocator.rs:123-162 | While the free pages at boot have at least two maximal runs less than the table has entries, less one more for each page that failed loads lost, no spawn and no exit of any run meets the capacity assertion. |
| `Slack.LossIsBounded` | kernel/kernel/src/memory/types.rs:108-116 | Over every run at most two pages are lost for each failed load. |
| `Slack.WorldRunIsSlim` | kernel/kernel/src/memory/allocator.rs:27-44 | Over every run the free pages have no more maximal runs than at boot, plus one for each lost page, and each child still owns exactly the lowest pages of the free set at its spawn. |
| `Slack.ExitRestores` | kernel/kernel/src/scheduler/services.rs:61-115 | When a child has the CPU, the free pages and its own together are the free pages at its spawn, less what was lost since. |
| `SchedulerStates.SchedulerState.TryCreateProcess` | kernel/kernel/src/scheduler/state.rs:73-96 | Takes the first free process slot, or changes nothing. |
| `SchedulerStates.SchedulerState.TryCreateThread` | kernel/kernel/src/scheduler/state.rs:98-116 | Takes the first free thread slot, or changes nothing. |
| `SchedulerStates.SchedulerState.SpawnChildProcess` | kernel/kernel/src/scheduler/state.rs:118-219 | Stores child and thread with the parent as waiter, or hands the program back whole with the tables as before, also from the branch that undoes a stored child. The stored child has its parent's cwd, environment and stdin, and null sinks for its output when it is silent, its parent's streams otherwise. |
| `SchedulerStates.SchedulerState.RemoveCurrent` | kernel/kernel/src/scheduler/state.rs:273-290 | The exiting process gives up its waiter, and it leaves the tables with its thread. |
| `SchedulerStates.SchedulerState.PrepareSwitch` | kernel/kernel/src/scheduler/state.rs:221-248 | Performs the switch transition in place and keeps all ids live. |
| `SchedulerStates.SchedulerState.PrepareWaitForChild` | kernel/kernel/src/scheduler/state.rs:250-271 | Blocks the current thread first, then enters the successor; None when there is no successor. |
| `SchedulerStates.SchedulerState.PrepareExitCurrentProcess` | kernel/kernel/src/scheduler/state.rs:273-315 | Removes thread and process and enters the waiter with its status, or shuts down, or enters the next runnable thread. |
| `SchedulerStates.SchedulerState.NextRunnableThread` | kernel/kernel/src/scheduler/state.rs:317-329 | The chosen thread can run, no eligible thread is nearer behind the current slot, and idle is chosen only when no other thread is eligible. |
| `SchedulerStates.SchedulerState.NextNonIdleRunnableThread` | kernel/kernel/src/scheduler/state.rs:331-354 | The scan by offset finds the first eligible slot. |
| `SchedulerStates.SchedulerState.Start` | kernel/kernel/src/scheduler/core.rs:12-25 | Enters the first runnable thread, or halts. |
| `SchedulerStates.SchedulerState.TakeWaitResult` | kernel/kernel/src/scheduler/core.rs:62-66 | Takes the status out of the current thread. |
| `SchedulerStates.SchedulerState.SetProcessEnv` | kernel/kernel/src/scheduler/bootstrap.rs:37-48 | Sets a variable of one process. |
| `SchedulerStates.SchedulerState.RemoveProcessEnv` | kernel/kernel/src/scheduler/services.rs:187-202 | Removes a variable of one process and says whether it was set. |
| `SchedulerStates.SchedulerState.SetProcessCwd` | kernel/kernel/src/process.rs:185-193 | Stores a path as cwd exactly when it starts with a slash and has at most 256 bytes; nothing else changes. |
| `Scheduling.NextIsNearest` | kernel/kernel/src/scheduler/state.rs:317-354 | The scan chooses the nearest eligible thread in cyclic order; None means that no thread at all can run. |
| `Scheduling.SwitchTells` | kernel/kernel/src/scheduler/state.rs:221-248 | What a switch changes: the thread that leaves is blocked or stays ready, as asked, the one that enters is on the CPU, nothing else moves; and nothing at all exactly when no other thread can run and the current one may stay. |
| `Scheduling.ExitTells` | kernel/kernel/src/scheduler/state.rs:273-315 | What an exit changes: process and thread are gone; shutdown leaves no current thread; otherwise the waiter is entered with the status, or without a waiter the next thread that can run; the pages to release are those of the process. |
| `Scheduling.NextIsUpwards` | kernel/kernel/src/scheduler/state.rs:317-354 | Counting up from the slot behind the current one, modulo 12, the chosen thread is the first that is present, not blocked and not idle. |
| `Scheduling.ChildInheritsFrom` | kernel/kernel/src/scheduler/state.rs:146-170 | A child record that could be made has its parent's cwd, environment and streams, the last two replaced by null sinks if and only if it is silent. |
| `SchedulerSafety.OfferedIsSafe` | kernel/kernel/src/scheduler/state.rs:118-406 | In a state with the invariant, no request that can be made breaks the assumptions of the transition that serves it. |
| `SchedulerSafety.FewThreads` | kernel/kernel/src/scheduler/state.rs:98-116 | At most 2 + 7 thread slots are taken while the invariant holds. |
| `SchedulerSafety.FinisherIsTail` | kernel/kernel/src/scheduler/core.rs:62-66 | A thread that leaves `wait_for_child` is the deepest of the chain and was woken by its own child's exit. |
| `SchedulerSafety.SpawnFailsOnlyWhenFull` | kernel/kernel/src/scheduler/state.rs:118-219 | With the invariant, inheriting cannot fail and a thread slot is free, so only a full process table refuses a spawn. |
| `SchedulerSafety.RefusedSpawnChangesNothing` | kernel/kernel/src/scheduler/services.rs:104-112 | A refused spawn gives every page back and leaves the machine as it was. |
| `SchedulerSafety.SpawnKeeps` | kernel/kernel/src/scheduler/services.rs:61-115 | A spawn, refused or not, keeps the invariant. |
| `SchedulerExit.ExitKeeps` | kernel/kernel/src/scheduler/core.rs:70-97 | An exit keeps the invariant, or ends the run. |
| `SchedulerExit.ExitShape` | kernel/kernel/src/scheduler/state.rs:273-315 | The exit of a child is one update of the tables, after which its parent runs. |
| `SchedulerExit.HistoryAfterExit` | kernel/kernel/src/scheduler/state.rs:273-315 | No instance exits twice. |
| `Processes.FreshChildInheritsStdio` | kernel/kernel/src/process.rs:125-140 | A process with three open streams hands them to any fresh child: the same objects, or null sinks for the output of a silent child. |
| `Processes.FreshChildBindsStdio` | kernel/kernel/src/process.rs:78-94 | Three objects installed in a fresh handle table resolve as stdin, stdout and stderr. |
| `Environments.Environment.Set` | kernel/kernel/src/env.rs:38-56 | Inserts at the end or replaces in place; a failed call changes nothing and says why. |
| `Environments.Environment.Remove` | kernel/kernel/src/env.rs:59-73 | Removes the binding and keeps the order of the others; false when it was not set. |
| `Environments.Environment.ShiftLeft` | kernel/kernel/src/env.rs:65-71 | The shifting loop moves every later binding one slot down. |
| `Environments.Environment.Get` | kernel/kernel/src/env.rs:76-80 | Answers with the value bound to the key, or rejects the key. |
| `Environments.Environment.Clear` | kernel/kernel/src/env.rs:83-90 | Forgets every binding. |
| `Environments.Environment.InheritInto` | kernel/kernel/src/env.rs:93-101 | Never fails; the child ends with exactly the parent's bindings, whatever it held, and the parent is unchanged. |
| `Environments.Environment.FindIndex` | kernel/kernel/src/env.rs:103-112 | The position of a key, when it is bound. |
| `Environments.Environment.WriteListingInto` | kernel/kernel/src/env.rs:116-140 | Succeeds if and only if the whole listing fits; then writes it and nothing behind it. |
| `Environments.OperationsRefineMap` | kernel/kernel/src/env.rs:38-90 | After any sequence of set, remove and clear, keys are unique and the variables are those of an abstract map under the same operations, where a set fails if and only if the key is empty, has a `=` or more than 32 bytes, the value has more than 128, or a new key would be the 17th. |
| `Environments.SetRefinesMap` | kernel/kernel/src/env.rs:38-56 | A set fails exactly when it fails on the map, with the same error, and otherwise does what it does on the map. |
| `Environments.RemoveRefinesMap` | kernel/kernel/src/env.rs:59-73 | The same for remove, and it reports whether the map had the key. |
| `Environments.OrderIsInsertionOrder` | kernel/kernel/src/env.rs:38-90 | No operation reorders two bindings that survive it. |
| `Environments.InheritCopies` | kernel/kernel/src/env.rs:93-101 | Setting the bindings one by one in an empty block copies every well-formed block exactly. |
| `Environments.ListingReadsBack` | kernel/kernel/src/env.rs:116-140 | The listing, cut at newlines and each line at its first `=`, gives the bindings back in order, when no key or value has a newline in it. |
| `Environments.EnvEntry.SetPair` | kernel/kernel/src/env.rs:167-171 | The stored entry reads back as the key and value given. |
| `Environments.EnvEntry.SetValue` | kernel/kernel/src/env.rs:173-176 | The entry reads back with the new value, whatever longer value it held. |
| `Allocators.PhysicalAllocator.InsertRange` | kernel/kernel/src/memory/allocator.rs:123-162 | Set union of addresses in a table that stays sorted, disjoint and nowhere adjacent; the capacity assertion fails exactly when the table is full and nothing adjoins. |
| `Allocators.PhysicalAllocator.ReserveRange` | kernel/kernel/src/memory/allocator.rs:74-121 | Set difference of addresses in such a table; the capacity assertion fails exactly when a full table would have to split a region. |
| `Allocators.PhysicalAllocator.AllocateContiguousPages` | kernel/kernel/src/memory/allocator.rs:46-63 | None if and only if n is 0 or no n consecutive pages are free; otherwise the lowest such run, and exactly its addresses leave the free set. |
| `Allocators.PhysicalAllocator.AllocatePage` | kernel/kernel/src/memory/allocator.rs:27-44 | The lowest free page, or None if and only if there is none. |
| `Allocators.PhysicalAllocator.FreeContiguousPages` | kernel/kernel/src/memory/allocator.rs:65-72 | Exactly the run joins the free set, under the same capacity condition as the insertion. |
| `Allocators.PhysicalAllocator.RemoveRegion` | kernel/kernel/src/memory/allocator.rs:164-174 | The regions behind the index move one slot down. |
| `Allocators.PhysicalAllocator.InsertRegion` | kernel/kernel/src/memory/allocator.rs:154-161 | The regions from the index on move one slot up. |
| `Allocators.PhysicalAllocator.SplitAt` | kernel/kernel/src/memory/allocator.rs:109-118 | A region becomes its parts below and above the reserved range. |
| `Allocators.PhysicalAllocator.Take` | kernel/kernel/src/memory/allocator.rs:27-63 | The first pages of one region leave the free set; a used-up region leaves the table. |
| `Allocators.CanonicalIsUnique` | kernel/kernel/src/memory/allocator.rs:123-162 | Two canonical tables of the same addresses are the same table: coalescing leaves no choice. |
| `Allocators.StretchInOneRegion` | kernel/kernel/src/memory/allocator.rs:123-162 | A contiguous free stretch lies in one region, so looking at regions one at a time misses no run. |
| `Allocators.NoRunBelow` | kernel/kernel/src/memory/allocator.rs:46-63 | When the first regions are too small, no run starts below the next one: first fit is lowest fit. |
| `Allocators.MergeDone` | kernel/kernel/src/memory/allocator.rs:149-161 | The coalesced region goes where the table stays canonical, and adds exactly the inserted addresses. |
| `PageOwnership.OwnedPages.Push` | kernel/kernel/src/memory/types.rs:98-106 | Appends one page, or refuses a full list. |
| `PageOwnership.OwnedPages.Release` | kernel/kernel/src/memory/types.rs:108-116 | Every owned page is in the free set again; the capacity assertion fails if and only if, after some of the pages, the free set has more maximal runs than the table has entries. |
| `PageOwnership.OwnedPages.Drain` | kernel/kernel/src/memory/loader.rs:98-103 | The list leaves its owner, which is empty afterwards. |
| `PageOwnership.TableHasRanges` | kernel/kernel/src/memory/allocator.rs:123-162 | A sorted, disjoint, nowhere adjacent table has exactly one entry for each maximal run of free pages, so its length depends on the free set alone. |
| `PageOwnership.PageAllocated` | kernel/kernel/src/memory/allocator.rs:27-44 | On whole pages: exactly the lowest free page left the free set. |
| `PageOwnership.RunIsPages` | kernel/kernel/src/memory/allocator.rs:46-63 | In an aligned table a run of n pages is free if and only if each of its pages is. |
| `PageOwnership.FreePage` | kernel/kernel/src/memory/allocator.rs:65-72 | Freeing one page, on the set of pages: the page joins it, and the capacity assertion fails if and only if the set would then have more maximal runs than the table has entries. |
| `PageOwnership.InitializeAllocator` | kernel/kernel/src/memory/kernel.rs:134-172 | The free set becomes the usable memory from 16 MiB on without the kernel image, and the identity-mapped window covers it; without usable memory it fails; a region whose end passes 64 bits wraps around, or ends the boot where overflow is checked, exactly when one is met before the table overflows; the capacity assertion fails if and only if the usable pages of some examined beginning of the map, or those without the kernel image, have more maximal runs than the table has entries. |
| `PageOwnership.AddUsable` | kernel/kernel/src/memory/kernel.rs:142-160 | One region of the map: its usable part joins the free set, with the same exact condition. |
| `PageOwnership.UsableIsWhatTheMapSays` | kernel/kernel/src/memory/kernel.rs:142-160 | Where no region runs past 64 bits, usable memory is exactly the addresses from 16 MiB on of usable regions, each from its start over its page count of 4 KiB pages. |
| `Paging.Map4kWorks` | kernel/kernel/src/memory/paging.rs:65-75 | On success exactly the page of `virt` translates differently, to `phys` with the requested rights; on failure no translation changes; tables stay pairwise distinct frames of a tree, pages are conserved, and at most one is in flight. |
| `Paging.Map4kUnderHuge` | kernel/kernel/src/memory/paging.rs:65-115 | With a 2 MiB mapping in the way, which the code takes for a page table: it succeeds, no translation changes, and so the request is met if and only if the page already leads there. |
| `Paging.Map2mWorks` | kernel/kernel/src/memory/paging.rs:54-63 | The same for a 2 MiB region without a page table below it. |
| `Paging.EnsureTableWorks` | kernel/kernel/src/memory/paging.rs:87-115 | The entry leads to a table afterwards, and no translation changes, also when an existing entry is opened for user code. |
| `Paging.MapPagesWorks` | kernel/kernel/src/memory/paging.rs:39-52 | A range of 4 KiB pages leads to itself with the given rights; outside nothing changes; a failure leaves a mapped prefix. |
| `Paging.MapHugesWorks` | kernel/kernel/src/memory/paging.rs:24-37 | The same with 2 MiB mappings. |
| `Paging.EmptyRoot` | kernel/kernel/src/memory/allocator.rs:196-208 | A zeroed root outside the free set translates nothing and is a sound tree. |
| `Paging.UserBitAbove` | kernel/kernel/src/memory/paging.rs:94-101 | Opening an intermediate entry for user code changes no translation, because nothing below a closed entry was a user page. |
| `Paging.IndexSplit` | kernel/kernel/src/memory/util.rs:3-17 | The four table indexes and the offset determine an address and are determined by it. |
| `Words.ByteOfWord` | libs/lzutil/src/lib.rs:15-25 | Byte i of a stored number is its digit of weight 256 to the i: least significant byte first. |
| `Paging.WalkAfterPage` | kernel/kernel/src/memory/paging.rs:65-75 | A last-level entry decides its own page and no other. |
| `Paging.WalkAfterHuge` | kernel/kernel/src/memory/paging.rs:54-63 | A 2 MiB entry decides its own region and no other. |
| `Paging.WalkAfterTable` | kernel/kernel/src/memory/paging.rs:104-114 | Hanging a zeroed table below an absent entry changes no translation. |
| `PagingStates.PhysicalMemory.AllocatePage` | kernel/kernel/src/memory/allocator.rs:27-44 | The lowest free page, zeroed, or None if and only if none is free. |
| `PagingStates.AddressSpaceBuilder.EnsureTable` | kernel/kernel/src/memory/paging.rs:87-115 | In place, on memory, free pages and owned pages together: the state and result of the step the lemmas are about. |
| `PagingStates.AddressSpaceBuilder.EnsurePageDirectory` | kernel/kernel/src/memory/paging.rs:77-80 | In place: the directory on the way to `virt`. |
| `PagingStates.AddressSpaceBuilder.EnsurePageTable` | kernel/kernel/src/memory/paging.rs:82-85 | In place: the page table on the way to `virt`. |
| `PagingStates.AddressSpaceBuilder.Map4k` | kernel/kernel/src/memory/paging.rs:65-75 | In place: the mapping `Map4kWorks` is about. |
| `PagingStates.AddressSpaceBuilder.Map2m` | kernel/kernel/src/memory/paging.rs:54-63 | In place: the mapping `Map2mWorks` is about. |
| `PagingStates.AddressSpaceBuilder.MapIdentity4kRange` | kernel/kernel/src/memory/paging.rs:39-52 | In place: the loop `MapPagesWorks` is about. |
| `PagingStates.AddressSpaceBuilder.MapIdentity2mRange` | kernel/kernel/src/memory/paging.rs:24-37 | In place: the loop `MapHugesWorks` is about. |
| `KernelMaps.MapSharedWorks` | kernel/kernel/src/memory/kernel.rs:109-132 | The shared kernel context in a fresh root, address by address: the physical window and the framebuffer lead to themselves, writable; the pages of recorded ranges lead to themselves with the right of the last range that has them; nothing else is mapped, and nothing for user code; pages are conserved up to one in flight. |
| `KernelMaps.FramebufferIsShared` | kernel/kernel/src/memory/kernel.rs:119-127 | Every page of the framebuffer is mapped writable, whether the window has it or not, but for pages of recorded ranges. |
| `KernelMaps.ReplayWorks` | kernel/kernel/src/memory/kernel.rs:205-217 | Replaying maps the pages of every recorded range to themselves, with the right of the last range that has them, changes no other translation, and opens nothing for user code. |
| `KernelMaps.SharedMappings.Record` | kernel/kernel/src/memory/kernel.rs:174-203 | The request is covered afterwards; it is refused if and only if it is not covered yet and the list is full; a covered request is not recorded again. |
| `KernelMaps.MapSharedKernelContext` | kernel/kernel/src/memory/kernel.rs:109-132 | In place: the sequence `MapSharedWorks` is about. |
| `KernelMaps.ReplaySharedKernelMappings` | kernel/kernel/src/memory/kernel.rs:205-217 | In place: the loop `ReplayWorks` is about. |
| `Elf.ParsedTableFits` | libs/elf/src/lib.rs:179-191 | A parsed header promises a program header table inside the file. |
| `Elf.HeaderReadsBack` | libs/elf/src/lib.rs:151-200 | A file that starts with an ELF64 header for this machine, its fields laid out little-endian at the offsets of the gABI, parses to exactly these fields, if and only if the table they describe lies in the file. |
| `Elf.OnlyLaidHeadersParse` | libs/elf/src/lib.rs:151-200 | Whatever parses is such a file. |
| `Elf.EntryReadsBack` | libs/elf/src/lib.rs:56-100 | An entry of the program header table, laid out field by field at its place in the table, is parsed to exactly p_type, p_flags, p_offset, p_vaddr, p_filesz and p_memsz. |
| `Elf.ProgramHeaderIter.Next` | libs/elf/src/lib.rs:56-71 | Over such a table, yields every entry once, in order, and then nothing. |
| `UserImages.CopyWorks` | kernel/kernel/src/memory/loader.rs:259-283 | A copy succeeds if and only if every page of the range is recorded; then the range reads as copied and all else as before. |
| `UserImages.CopyStaysInside` | kernel/kernel/src/memory/loader.rs:259-283 | A copy writes recorded frames only, also when it fails halfway. |
| `UserImages.CopyKeepsImage` | kernel/kernel/src/memory/loader.rs:259-283 | Copying into recorded pages changes neither tables nor rights. |
| `UserImages.MapFreshWorks` | kernel/kernel/src/memory/loader.rs:73-78 | A fresh page is mapped for user code with its right, reads as zero, and is owned; on failure at most the leaf and a table are neither free nor owned. |
| `UserImages.MapPagesFromWorks` | kernel/kernel/src/memory/loader.rs:71-80 | Mapping a page range records exactly its missing pages; on failure at most two pages are in flight. |
| `Segments.LoadSegmentWorks` | kernel/kernel/src/memory/loader.rs:46-83 | One segment: bounds are checked first; on success the image holds it on top of the earlier ones. |
| `Segments.LoadSegmentsWorks` | kernel/kernel/src/memory/loader.rs:40-84 | The loading loop: on success the recorded pages are those the segments cover, with the right of the first segment covering each, and every byte is that of the last file range covering it, or zero. |
| `Segments.StackWorks` | kernel/kernel/src/memory/loader.rs:86-94 | The stack pages are mapped writable on top of the segments, or at most two pages are in flight. |
| `Segments.RangeErrorIsBounds` | kernel/kernel/src/memory/loader.rs:46-83 | UserImageOutOfRange is reported for a segment if and only if its bounds check fails: the copy, which has the same error, finds every page. |
| `Segments.FilePartIsPresent` | kernel/kernel/src/memory/loader.rs:82-83 | After a segment's pages are mapped, the copy of its file bytes misses none. |
| `Segments.LoadedSegmentsFit` | kernel/kernel/src/memory/loader.rs:46-83 | Every segment of a successful load is sound and its file part lies in the file. |
| `Segments.PeekIsRead` | kernel/kernel/src/memory/loader.rs:259-283 | What the loader wrote through frames is what user code reads through the page walk. |
| `Sealing.StoreWorks` | kernel/kernel/src/memory/loader.rs:86-104 | A store of user code through its page tables: no translation changes, the byte reads back, no other byte the program reads changes, and no page it does not own. |
| `Sealing.SealedAgrees` | kernel/kernel/src/memory/loader.rs:33-104 | Who writes none of a program's pages changes no translation and no byte of it. |
| `Loader.UserPageMap.Find` | kernel/kernel/src/memory/loader.rs:285-297 | The first record of a page. |
| `Loader.UserPageMap.Insert` | kernel/kernel/src/memory/loader.rs:243-257 | Appends a record, or refuses a full map. |
| `Loader.UserPageMap.CopyInto` | kernel/kernel/src/memory/loader.rs:259-283 | In place: the page-by-page copy. |
| `Loader.AllocateAndMap` | kernel/kernel/src/memory/loader.rs:74-75 | In place: a zeroed page, mapped; the page is lost to both sets when mapping fails. |
| `Loader.RecordPage` | kernel/kernel/src/memory/loader.rs:76-77 | In place: recorded first, then owned, each with its capacity error. |
| `Loader.MapFreshPage` | kernel/kernel/src/memory/loader.rs:73-78 | In place: allocate, map, record, own. |
| `Loader.MapSegmentPages` | kernel/kernel/src/memory/loader.rs:71-80 | In place: the page loop of a segment. |
| `Loader.MapStack` | kernel/kernel/src/memory/loader.rs:86-94 | In place: the stack loop, which looks up no page, equals the loop that does, because no segment reaches the stack. |
| `Loader.LoadOneSegment` | kernel/kernel/src/memory/loader.rs:46-83 | In place: one PT_LOAD header. |
| `Loader.LoadAllSegments` | kernel/kernel/src/memory/loader.rs:40-84 | In place: the loop over the program headers. |
| `Loader.WriteStartupArguments` | kernel/kernel/src/memory/loader.rs:118-152 | In place, with the pointers in an array of 33: strings, argc, pointers and the null word at the places of the layout. |
| `Loader.WriteArgumentStrings` | kernel/kernel/src/memory/loader.rs:124-135 | In place: every string and its NUL at the running cursor, and where each went. |
| `Startup.SerializeSpawnArgs` | libs/liblazer/src/process.rs:66-82 | Succeeds if and only if no argument contains NUL and all of them fit; then exactly the NUL-terminated arguments are written. |
| `Startup.SplitArguments` | kernel/kernel/src/memory/loader.rs:161-190 | In place, into the array of 32 arguments: the splitting loop, with its limit and its three reasons to refuse. |
| `Startup.TailRoundTrip` | kernel/kernel/src/memory/loader.rs:161-190 | The kernel recovers exactly the arguments the parent serialized, if and only if all are non-empty UTF-8 and there are at most 31. |
| `Startup.UnterminatedTailIsRefused` | kernel/kernel/src/memory/loader.rs:161-190 | A tail whose last byte is not NUL is refused, so the tails accepted are serialized arguments. |
| `Startup.EmptyArgumentIsRefused` | kernel/kernel/src/memory/loader.rs:161-190 | One empty argument is serialized by the library and refused by the kernel. |
| `Startup.PrepareStartupLayout` | kernel/kernel/src/memory/loader.rs:192-226 | In place: the sizes and the checked subtractions; what they come to is `LayoutIsTightest`. |
| `Startup.LayoutIsTightest` | kernel/kernel/src/memory/loader.rs:192-226 | A layout is found if and only if some 16-byte aligned stack pointer in the 16 stack pages leaves room above it for argc, a pointer for each argument, the null word and all strings; it is then the highest such, with the strings against the stack top. |
| `Startup.LayoutIsDisjoint` | kernel/kernel/src/memory/loader.rs:192-226 | The words lie below the strings, the strings end at the stack top, nothing leaves the stack, and the stack pointer is 16-byte aligned. |
| `Startup.SmallArgumentsFit` | kernel/kernel/src/memory/loader.rs:192-226 | Up to 32 arguments of up to 60 KiB always fit. |
| `Startup.WriteBlockWorks` | kernel/kernel/src/memory/loader.rs:118-152 | All writes succeed on a mapped stack, and none overwrites another. |
| `Startup.BlockIsReadable` | kernel/kernel/src/memory/loader.rs:118-152 | User code, reading through the page walk, finds argc, the pointers, a null word, and at each pointer its string. |
| `Startup.CStringLen` | libs/liblazer/src/runtime.rs:75-84 | The length of a NUL-terminated string in memory. |
| `Startup.Args.constructor` | libs/liblazer/src/runtime.rs:27-34 | The iterator starts at the word behind argc. |
| `Startup.Args.Next` | libs/liblazer/src/runtime.rs:46-57 | Yields the arguments of the block in order and then nothing; one that is not UTF-8 ends the iteration. |
| `Programs.BuildProgramWorks` | kernel/kernel/src/memory/loader.rs:33-104 | A load from a fresh root: user code reaches exactly the pages that a segment or the stack covers, each owned, writable exactly for the stack and where the first covering segment is; all other pages lead where the shared kernel context says, for the kernel only; segment bytes and startup block read as specified; on failure at most two pages are in flight. |
| `Programs.WholeLoadWorks` | kernel/kernel/src/memory/loader.rs:21-112 | A load from any set of free pages writes none but these; on success the program is complete, and always at most two pages are neither free nor owned. |
| `Programs.BuildImage` | kernel/kernel/src/memory/loader.rs:37-104 | In place: everything after the root page. |
| `Programs.TakeRoot` | kernel/kernel/src/memory/loader.rs:34-35 | In place: the root page is taken, zeroed and owned first. |
| `Programs.LoadInto` | kernel/kernel/src/memory/loader.rs:33-104 | In place: state and result are those of the load as a function of memory, with every page accounted for. |
| `Programs.LoadUserProgram` | kernel/kernel/src/memory/loader.rs:21-112 | In place: parse errors and bad entry points change nothing; a completed load hands over what `LoadInto` built; a failed one reports its error, with every recorded page free again and at most two lost; the capacity assertion fails if and only if the pages of a failed load are not releasable. Which files load, byte by byte, and what then is where: `Executables.LaidFileLoads`, `LaidBytesArrive`, `LaidRightsArrive`. |
| `Programs.SegmentBytesArrive` | kernel/kernel/src/memory/loader.rs:40-84 | After a completed load whose segments share no byte, whether or not they share pages: every byte of a segment, read by user code through the page walk, is the file's byte below its file size, which is in the file, and zero from there to its memory size; `Executables.LaidBytesArrive` says it of the fields as laid out in the file. |
| `Executables.LaidIsParsed` | libs/elf/src/lib.rs:56-100 | Headers laid out in the file are the table that is parsed, and those of type PT_LOAD, in order, the segments that are loaded. |
| `Executables.LaidBytesArrive` | kernel/kernel/src/memory/loader.rs:40-84 | After a completed load of a file with these headers laid out in it, whose PT_LOAD ranges share no byte: user code reads at p_vaddr + i the file's byte at p_offset + i below p_filesz, and zero from there to p_memsz. |
| `Executables.LaidRightsArrive` | kernel/kernel/src/memory/loader.rs:61-80 | After a completed load: user code reaches exactly the pages that some PT_LOAD header or the 16 stack pages touch, and may write exactly the stack and the pages whose first PT_LOAD header in table order has PF_W; other pages lead where the shared kernel context says. |
| `Executables.LaidFileLoads` | kernel/kernel/src/memory/loader.rs:21-112 | A file with these headers laid out in it loads if and only if the entry lies from 4 to 8 MiB, each PT_LOAD header lies in the image area with p_filesz at most p_memsz and its bytes in the file, the arguments split and fit, at most 128 pages are touched, and root, tables and pages are at most 176 and at most those free. |
| `Executables.OnlyLaidFilesLoad` | kernel/kernel/src/memory/loader.rs:21-112 | Whatever loads is a file with a header and a table of headers laid out in it. |
| `Programs.DisjointContent` | kernel/kernel/src/memory/loader.rs:40-84 | The same of the image bytes: with byte-disjoint segments the last file range covering a byte is that of its own segment. |
| `Programs.ArgumentsArrive` | kernel/kernel/src/memory/loader.rs:118-226 | A completed load with a serialized tail leaves a block with exactly argv0 and the arguments, all non-empty NUL-free UTF-8. |
| `Programs.CollectArguments` | libs/liblazer/src/runtime.rs:46-57 | Iterating to the end over such a block collects exactly its arguments. |
| `Programs.AcceptedArgumentsFit` | libs/liblazer/src/process.rs:66-82 | Arguments that fit the 512-byte buffer, at most 31 of them, with an argv0 of at most 256 bytes, are never refused by the kernel for size. |
| `Programs.ReleaseAccounts` | kernel/kernel/src/memory/loader.rs:106-108 | Releasing what is owned leaves only the pages in flight outside the free set. |
| `LoadAndRun.CompletedLoadMayStart` | kernel/kernel/src/memory/loader.rs:98-103 | What a completed load hands over is what the scheduler's runs assume of one: distinct pages that were free, the root among them. |
| `LoadAndRun.FailedLoadLosesTwo` | kernel/kernel/src/memory/types.rs:108-116 | What a failed load leaves is what the runs assume: the free set less at most two pages. |
| `LoadAndRun.AttemptMayRun` | kernel/kernel/src/memory/loader.rs:21-112 | Every attempt at a load, parse errors included, is one the runs allow; it writes only pages that were free, and one that completes is the complete program of the file. |
| `LoadNeeds.WholeLoadFits` | kernel/kernel/src/memory/loader.rs:33-104 | A load completes if and only if: every header is accepted and every segment in bounds, the arguments split and fit, at most 128 user pages, and the pages needed (root, the tables for everything mapped, the user pages) are at most 176 and at most those free; an error names a condition that fails. |
| `LoadNeeds.AttemptFits` | kernel/kernel/src/memory/loader.rs:21-112 | A file loads if and only if its header parses, its entry is a user address, and `LoadFits` holds; `Executables.LaidFileLoads` says it of the bytes of the file. |
| `LoadNeeds.MapSharedNeeds` | kernel/kernel/src/memory/kernel.rs:109-132 | In a fresh root the shared kernel context takes exactly one page for each table on the way to the addresses it maps; when it fails, these are more than are free, or more than the list of owned pages takes. |
| `LoadOrder.WholeLoadOrdered` | kernel/kernel/src/memory/allocator.rs:27-44 | A load, completed or failed, takes the lowest free pages, and every beginning of its list of owned pages is a set of lowest pages but for at most one; a completed load owns exactly the pages it took. |
| `Paths.NormalizePath` | kernel/kernel/src/storage/path.rs:6-42 | In place: fails or writes exactly the rendered stack that folding the components gives, which is what `Survivors.NormalizedIsWhatSurvives` says. |
| `Paths.NormalizePathParts` | kernel/kernel/src/storage/path.rs:44-91 | In place: one source folded onto the stack held in buffer and component starts; what the fold leaves, `Survivors.ResolvedIsWhatSurvives` says without it. |
| `Paths.NormalizedIsNormalForm` | kernel/kernel/src/storage/path.rs:6-42 | Whatever is returned is the rendering of a stack of proper components within the limits. |
| `Paths.Idempotent` | kernel/kernel/src/storage/path.rs:6-42 | Normalizing a normalized path gives it back, from any cwd. |
| `Paths.Composes` | kernel/kernel/src/storage/path.rs:6-42 | Resolving b from the resolution of a is resolving a/b, failures included. |
| `Survivors.NormalizedIsWhatSurvives` | kernel/kernel/src/storage/path.rs:6-42 | From the components of cwd and path alone: the result is the names that survive, each behind a slash, or "/" when none does; a name survives when no stretch right behind it has more ".." than names. It fails exactly for the empty path and when a name, with the survivors before it, would be the 65th or would not fit the buffer. |
| `Survivors.ResolvedIsWhatSurvives` | kernel/kernel/src/storage/path.rs:44-91 | The same within any limits, so of the shell too. |
| `Survivors.ParentDropsLast` | kernel/kernel/src/storage/path.rs:56-62 | From any directory ".." is the directory above it, and from "/" it is "/". |
| `Survivors.DownAndUp` | kernel/kernel/src/storage/path.rs:56-75 | Into a component that fits and out again with ".." leads back. |
| `Survivors.SplitJoins` | kernel/kernel/src/storage/path.rs:44-54 | The components are the path cut at its slashes: joined again they give it back, and none has a slash. |
| `ShellPaths.NormalizeCommandPath` | user/lash/src/paths.rs:39-121 | In place: the shell's normalizer computes the same fold with a byte limit only, so `Survivors.ResolvedIsWhatSurvives` holds of it. |
| `ShellPaths.ShellRefinesKernel` | user/lash/src/paths.rs:39-121 | Whenever the kernel resolves with a 256-byte buffer, the shell gives the same bytes. |
| `ShellPaths.KernelFailsOnlyOnComponents` | kernel/kernel/src/storage/path.rs:44-91 | When only the shell resolves, the kernel stopped at a 65th component. |
| `ShellPaths.PopSegment` | user/lash/src/paths.rs:81-93 | Walking back to the slash drops exactly the last component of a rendered path. |
| `ShellPaths.PushSegment` | user/lash/src/paths.rs:95-112 | Separator and segment extend the rendered path by exactly one component, if and only if the result has at most 256 bytes. |
| `PathSearches.WithPathCandidates` | user/lash/src/paths.rs:161-202 | In place: visits exactly the absolute entries of PATH, with the command appended, in order, until the visitor returns or a candidate does not fit. |
| `PathSearches.BuildPathCandidate` | user/lash/src/paths.rs:144-159 | entry/command, or an error if and only if it does not fit. |
| `PathSearches.EntriesJoin` | user/lash/src/paths.rs:161-202 | The entries are the path cut at its colons: joined again they give it back. |
| `PathSearches.CandidatesAreAbsolute` | user/lash/src/paths.rs:161-202 | The candidates are the entries that start with a slash, all of them, each once and in order, with a slash and the command behind. |
| `PathSearches.SearchStopsFirst` | user/lash/src/paths.rs:161-202 | Candidates behind the one that returns are never visited, and those before it are visited as if it were not there. |
| `PathSearches.SearchTells` | user/lash/src/paths.rs:161-202 | From what its visits report: a search ends with an error at the first candidate of more than 385 bytes, with the value of the first visit that returns one, and otherwise with a match if and only if some visit reported one; each visit sees the world the one before it left. |
| `PathSearches.TokensNeverOverflow` | user/lash/src/paths.rs:144-159 | With a PATH of 128 and a command of 256 bytes, the candidate buffer is never too small. |
| `Fat32s.ReadFile` | kernel/kernel/src/storage/fat32.rs:95-130 | Ends on every chain, cyclic ones included; succeeds if and only if the buffer is large enough and every sector the size calls for is there; then the buffer starts with the chain's sectors cut at the size, and ceil(size / cluster bytes) clusters were entered; otherwise the error is that of the first missing sector. Where these sectors are on the device, `FatLayouts.StoredFileIsRead` says. |
| `Fat32s.ListDirectory` | kernel/kernel/src/storage/fat32.rs:132-191 | Where the scan ends: succeeds if and only if the end marker is met and all names before it fit; then the buffer holds the visible names in disk order, each with a newline; otherwise the first obstacle is reported. Which bytes on the device these entries are, `FatLayouts.StoredDirectoryLists` says. |
| `Fat32s.ListingEndsIfAnswered` | kernel/kernel/src/storage/fat32.rs:132-191 | A scan of a directory ends whenever a right answer to it exists, so what ListDirectory requires excludes only the scans the source never leaves. |
| `Fat32s.ListSector` | kernel/kernel/src/storage/fat32.rs:150-184 | One sector's entries are listed behind what is already there. |
| `Fat32s.ListCluster` | kernel/kernel/src/storage/fat32.rs:142-189 | The sectors of one cluster: a final answer, or the listing up to the next cluster. |
| `Fat32s.FindInDirectory` | kernel/kernel/src/storage/fat32.rs:193-247 | Where the scan ends: returns the first visible entry with the short name; an error means no entry before the end marker, or before the first unreadable sector, has it. Which bytes on the device this entry is, `FatLayouts.StoredEntryIsFound` says. |
| `Fat32s.LookupEndsIfAnswered` | kernel/kernel/src/storage/fat32.rs:193-247 | A lookup ends whenever a right answer to it exists. |
| `Fat32s.FindInSector` | kernel/kernel/src/storage/fat32.rs:208-240 | The same within one sector. |
| `Fat32s.FindInCluster` | kernel/kernel/src/storage/fat32.rs:201-245 | The same within one cluster. |
| `Fat32s.ListedIsFound` | kernel/kernel/src/storage/fat32.rs:132-247 | Looking up the displayed name of any visible well-formed entry before the end marker succeeds, with the first entry of that very name. |
| `Fat32s.LineIsListed` | kernel/kernel/src/storage/fat32.rs:132-191 | Every visible entry before the end marker has its line in the listing. |
| `Fat32s.FailedLookup` | kernel/kernel/src/storage/fat32.rs:193-247 | A failed lookup means that no entry the scan could reach has the name. |
| `Fat32s.FailedListing` | kernel/kernel/src/storage/fat32.rs:132-191 | A failed listing means there is no end marker, or too much before it. |
| `Fat32s.FullDirectoryFails` | kernel/kernel/src/storage/fat32.rs:132-191 | A directory that fills its clusters to the last entry cannot be listed into any buffer: behind the last entry the end of the chain is FileNotFound. |
| `Fat32s.FullDirectoryExists` | kernel/kernel/src/storage/fat32.rs:296-313 | Such a device, boot sector included: it mounts, its root has one sector of sixteen visible files, and into a buffer with room for all names the only right answer is FileNotFound. |
| `Fat32s.LookupIsDetermined` | kernel/kernel/src/storage/fat32.rs:193-247 | Two lookups of one name in one directory cannot differ, errors included. |
| `Fat32s.ListingIsDetermined` | kernel/kernel/src/storage/fat32.rs:132-191 | Two listings of one directory into buffers of one size cannot differ, errors included. |
| `Fat32s.ResolutionIsDetermined` | kernel/kernel/src/storage/fat32.rs:249-280 | The volume determines what a path names, errors included. |
| `Fat32s.AcyclicScanStops` | kernel/kernel/src/storage/fat32.rs:296-313 | On an acyclic chain every listing and every lookup ends, because each cluster is inside the partition. |
| `Fat32s.ResolveAbsolute` | kernel/kernel/src/storage/fat32.rs:249-280 | Where the lookups on the way end: PathNotAbsolute without a leading slash, the root for slashes alone; otherwise each component is looked up in the directory before it, and only the last may be a file. |
| `Fat32s.WalkEndsIfAnswered` | kernel/kernel/src/storage/fat32.rs:249-280 | The lookups on the way end whenever the path has a right answer; chains that are not on the way do not matter. |
| `Fat32s.OpenAbsolute` | kernel/kernel/src/storage/fat32.rs:79-86 | The file the path names; a directory is refused. |
| `Fat32s.EnsureDir` | kernel/kernel/src/storage/fat32.rs:88-93 | Accepts exactly paths that name a directory. |
| `Fat32s.ReadDir` | kernel/kernel/src/storage/fat32.rs:132-191 | The listing of the directory the path names, where lookups and listing end; a file is refused. |
| `Fat32s.MountReadsBack` | kernel/kernel/src/storage/fat32.rs:26-77 | Mounting a formatted boot sector gives back its geometry, with the data behind reserved sectors and FATs, if and only if no count is zero and the total of sectors fits the partition; otherwise InvalidFat32BootSector. |
| `Fat32s.OnlyFormattedMounts` | kernel/kernel/src/storage/fat32.rs:26-77 | Whatever mounts is the boot sector of some geometry: 512-byte sectors, no root entries, no 16-bit FAT size. |
| `FatLayouts.TableWordMeans` | kernel/kernel/src/storage/fat32.rs:296-313 | The table entry of cluster c is the four bytes at 4c mod 512 of sector start + reserved + 4c / 512 of the device: its low 28 bits are the next cluster, unless they are below 2 or 0xffffff7 (InvalidFat32BootSector) or from 0xffffff8 on (FileNotFound). |
| `FatLayouts.ChainReads` | kernel/kernel/src/storage/fat32.rs:282-313 | Sector by sector, a chain that is stored in clusters c0 to cn, each in the sectors from start + reserved + fats * sectorsPerFat + (c - 2) * sectorsPerCluster on, is read as the bytes stored there. |
| `FatLayouts.StoredFileReads` | kernel/kernel/src/storage/fat32.rs:95-130 | A file stored in such a chain is read as the bytes of its clusters, one behind the other, cut at its size. |
| `FatLayouts.ChainStopsThere` | kernel/kernel/src/storage/fat32.rs:296-313 | Where the table ends the chain, a sector behind it is FileNotFound. |
| `FatLayouts.EntryReads` | kernel/kernel/src/storage/fat32.rs:228-238 | A directory entry laid out byte by byte is read as its first cluster, from two halves, its size, and whether it is a directory. |
| `FatLayouts.StoredEntryIsFound` | kernel/kernel/src/storage/fat32.rs:193-247 | In a directory stored in a chain, a component names the first entry in disk order that has its short name and is neither deleted, a volume label nor part of a long name. |
| `FatLayouts.StoredDirectoryLists` | kernel/kernel/src/storage/fat32.rs:132-191 | A directory stored in a chain is listed as the upper-case components its entries are for, a line each, in disk order, without deleted entries, labels, long names and the two dot entries; its end is where an entry starts with 0. |
| `FatLayouts.StoredPathResolves` | kernel/kernel/src/storage/fat32.rs:249-280 | From directory to directory as they are stored, a path names the entry its components lead to. |
| `FatLayouts.StoppedPathFails` | kernel/kernel/src/storage/fat32.rs:249-280 | A path with a component that is no short name is InvalidShortName; one that leads to a name its directory does not have, or on through a file, is FileNotFound. |
| `FatLayouts.ComponentsAre` | kernel/kernel/src/storage/fat32.rs:249-280 | A path is cut at every slash, and empty pieces are dropped. |
| `FatLayouts.ComponentsOfNormal` | kernel/kernel/src/storage/fat32.rs:249-280 | The components of a normalized path are those that normalizing left. |
| `FatLayouts.StoredFileIsRead` | kernel/kernel/src/storage/fat32.rs:26-130 | From boot sector to bytes: a partition that holds a file under a path mounts, the path names the file, and reading it gives the bytes stored in its clusters. |
| `Fat32s.FullDeviceMounts` | kernel/kernel/src/storage/fat32.rs:26-77 | The device of the full root directory, mounted from its boot sector, is exactly its volume. |
| `ShortNames.MakeName` | kernel/kernel/src/storage/fat32.rs:334-358 | In place: the padded upper-case name of a valid component, or a refusal; which, `MadeFromNames` and `OnlyNamesAreMade` say. |
| `ShortNames.MadeFromNames` | kernel/kernel/src/storage/fat32.rs:334-358 | A base of 1 to 8 and an extension of up to 3 characters, a dot between them when there is an extension, make the 11-byte name with both in upper case, filled up with spaces. |
| `ShortNames.OnlyNamesAreMade` | kernel/kernel/src/storage/fat32.rs:334-358 | Nothing else has a short name. |
| `ShortNames.LegalIsNormalized` | kernel/kernel/src/storage/fat32.rs:399-406 | The characters allowed are the printable ASCII ones without the 16 that the FAT specification excludes and the space; only a to z change, to upper case. |
| `ShortNames.DisplayName` | kernel/kernel/src/storage/fat32.rs:360-393 | In place: base and extension without padding, with a dot when there is an extension. |
| `ShortNames.DisplayOfMade` | kernel/kernel/src/storage/fat32.rs:334-393 | What a component was encoded to displays as the component in upper case. |
| `ShortNames.MadeOfDisplay` | kernel/kernel/src/storage/fat32.rs:334-393 | Encoding the displayed name of a well-formed entry gives the entry's name again. |
| `Quoting.ScanSegments` | user/lash/src/lib.rs:252-340 | In place: segments and operators, or the error, as the scan finds them, within 32 segments. |
| `Quoting.SegmentScan.PushSegment` | user/lash/src/lib.rs:75-97 | Appends a segment, or refuses the 33rd segment or 32nd operator. |
| `Quoting.TrimSpacesRange` | user/lash/src/lib.rs:342-354 | The range without surrounding spaces. |
| `Quoting.AcceptedScan` | user/lash/src/lib.rs:252-340 | An accepted line is tiled by its segments and operators; the automaton is Unquoted at every boundary; no unquoted operator was overlooked; no segment is blank. |
| `Writing.LineReadsBack` | user/lash/src/lib.rs:252-340 | Any 1 to 32 commands, each of words written with bare bytes, backslashes and both kinds of quotes, with `&&`, `\|\|` and `;` between them: the scan finds exactly these operators, and tokenizing what is between them gives exactly the words meant. A 33rd command is refused. |
| `Writing.EmptySegments` | user/lash/src/lib.rs:252-340 | A blank line is nothing; an operator with nothing in front of it or nothing behind it is InvalidSyntax. |
| `Writing.UnclosedLines` | user/lash/src/lib.rs:252-340 | A quote that is not closed and a backslash at the very end are their errors, of the scan and of the tokenizer alike. |
| `Writing.OperatorIsItsText` | user/lash/src/lib.rs:271-300 | An operator is seen exactly where two ampersands, two bars or a semicolon stand. |
| `Tokens.Parse` | user/lash/src/lib.rs:109-213 | In place: the tokens laid one behind the other in the storage, or the error. |
| `Tokens.TokenizedCommand.Token` | user/lash/src/lib.rs:219-223 | Cuts exactly token i out of the storage. |
| `Tokens.TokenizedCommand.StartToken` | user/lash/src/lib.rs:225-232 | Opens a token, or refuses the 17th. |
| `Tokens.TokenizedCommand.FinishToken` | user/lash/src/lib.rs:234-241 | Closes the open token. |
| `Tokens.TokenizedCommand.PushTokenByte` | user/lash/src/lib.rs:243-249 | Appends a byte, or refuses the 257th. |
| `Tokens.ParseAgrees` | user/lash/src/lib.rs:109-213 | The parser gives up for capacity or agrees with one without limits. |
| `Tokens.FittingIsParsed` | user/lash/src/lib.rs:109-213 | At most 16 tokens of at most 256 bytes are never refused for capacity. |
| `Tokens.LexFollowsModes` | user/lash/src/lib.rs:109-213 | Tokenizing fails exactly where the scan's automaton does: the two automata stay in step. |
| `Tokens.UntrimmedSegmentParses` | user/lash/src/lib.rs:252-340 | A segment of an accepted line, before trimming, can fail to tokenize only for capacity. |
| `Tokens.TrimmedSegmentParses` | user/lash/src/lib.rs:342-354 | After trimming the only other failure is TrailingBackslash, exactly when an unquoted backslash escaped the first space trimmed from the end. |
| `Tokens.TrimmingCanBreak` | user/lash/src/lib.rs:342-354 | A line of three bytes, a, backslash, space: the scan accepts it, the whole segment tokenizes, the trimmed one does not. |
| `Tokens.QuotingRoundTrip` | user/lash/src/lib.rs:109-213 | Any words, empty ones and special bytes included, can be quoted so that the parser recovers exactly them, within its capacities. |
| `Writing.WordsReadBack` | user/lash/src/lib.rs:109-213 | Words written in any mixture of bare bytes, backslashes and quotes, with any spaces between, before and behind them, are read back as the words meant. |
| `Shells.ExecuteLine` | user/lash/src/shell.rs:44-85 | In place: the flat loop gives the world, the status and the executed segments that evaluating the left-associated tree gives; 1 for a parse error, 0 for an empty line. Which segments run, `SegmentRuns` says. |
| `Shells.ExecuteSegment` | user/lash/src/shell.rs:87-125 | In place: parse errors are status 1, no tokens status 0, `exit` leaves the shell, an empty name is not found. |
| `Shells.SegmentRuns` | user/lash/src/shell.rs:64-84 | The first segment runs; any other runs behind `&&` if and only if the last status is 0, behind `\|\|` if and only if it is not, behind `;` always, and never once the shell has left; a segment that does not run changes nothing, the status neither. |
| `Shells.AllAnd` | user/lash/src/shell.rs:70-74 | With `&&` throughout, the segments up to the first with a status other than 0 run, and the status is the last one run. |
| `Shells.AllOr` | user/lash/src/shell.rs:70-74 | With `\|\|` throughout, those up to the first with status 0. |
| `Shells.AllSequence` | user/lash/src/shell.rs:70-74 | With `;` throughout, all of them, up to an exit. |
| `Shells.LeftTreeReads` | user/lash/src/shell.rs:64-84 | The tree has the segments as leaves, the operators between them, and leans left. |
| `Shells.LeftLeaningIsUnique` | user/lash/src/shell.rs:64-84 | No other left-leaning tree has these leaves and operators. |
| `Shells.EqualPrecedenceIsUsual` | user/lash/src/shell.rs:64-84 | Reading `;` as binding less than `&&` and `\|\|` gives the same executions and status. |
| `Shells.MayRebracket` | user/lash/src/shell.rs:64-84 | Brackets may move right behind `;` and between equal operators, for every command behaviour. |
| `Shells.MustNotRebracket` | user/lash/src/shell.rs:64-84 | Behind `&&` or `\|\|` with a different operator following, they may not, for any command behaviour. |
| `Shells.ExitEnds` | user/lash/src/shell.rs:104-105 | Once the shell has left, the rest of the line changes nothing. |

## Left out

- Assembly, register contents, trap frames, kernel stacks, GDT, IDT and TSS: activating an address space and switching contexts is one atomic step.
- Hardware and its drivers (AHCI, PCI, serial, keyboard, console, framebuffer, power), the UEFI loader, GPT, image scripts.
- Terminal and keyboard ring buffers, buffer validation and syscall status codes: only easy members.
- UTF-8: an abstract predicate on byte sequences where the code rejects invalid text, and assumed where the source's types guarantee it.
- Records that the source keeps inside array slots (processes, threads, environment entries, page records) are values stored in arrays; sharing between them cannot occur in the source either.
- Which physical pages a file buffer occupies while its file is loaded, and their release: reading a file is an oracle of the load, and the free pages of a load are those left to it.
- SchedulerRuns: a load inside a run is any result `LoadAndRun` shows the loader can have, and a step that trips a capacity assertion ends the kernel and is no step of a run; in the runs of `World` the load is that of a file.
- Slack.ReleasesNeverFail: the pages of file buffers are not modelled, so neither is the gap one makes in the free pages during a load, nor its release.
- Worlds.WorldRunIsRun: the shared kernel mappings and the predicate for UTF-8 are fixed during a run (`Setting`); stores of the kernel into buffers of user code count as stores of the running process; the source checks such a buffer by its addresses only, so a kernel store into a read-only user page is not modelled.
- SchedulerCore.Core.SpawnUserProcess: reading the file is a parameter that answers with contents or with a spawn error, so which storage error becomes which spawn error is not modelled.
- SchedulerTheorems.EligibleThreadRuns: fairness is stated over yields, and with steps in between that stay on the CPU (`EligibleThreadRunsAmidst`); across completed spawns and exits it does not hold in general, because both enter a chosen thread directly.
- Fat32s.ListDirectory: requires that the scan ends, which holds exactly when a right answer exists (`ListingEndsIfAnswered`) and always on acyclic chains; on a cyclic chain without an end marker the source does not end.
- Fat32s.FindInDirectory: requires that this lookup ends, exactly when it has a right answer.
- Fat32s.ResolveAbsolute: requires that the lookups on the way end, exactly when the path has a right answer.
- Fat32s.MountReadsBack: does not model 64-bit overflow in the sum of start, reserved sectors and FATs.
- KernelMaps.MapSharedWorks: requires recorded 4 KiB ranges to keep clear of the 2 MiB window, which the table code does not check.
- Paging.Map4kWorks: requires addresses below 2^48 and that no huge mapping lies on the way, which the code does not test; what happens below a 2 MiB mapping is `Map4kUnderHuge`, and the code never makes 1 GiB mappings.
- Paging.EnsureTableWorks: the entry must be absent or a table, as for `Map4kWorks`.
- Paging.MapPagesWorks: the range must keep clear of 2 MiB mappings, as for `Map4kWorks`.
- PageOwnership.InitializeAllocator: requires regions that start on page boundaries below 2^64, as firmware reports them, and rounds the window end up without a 64-bit limit.
- Shells.ExecuteLine: what a command does to the world is a parameter, and so is printing; interactive mode changes only what is printed.
- The shell's built-in commands, its line editor and the reporting of spawn errors.
