# Verified model of the kernel, its library and three programs

This project models the hard parts of four programs and proves properties of them:
the JOS kernel with its user library (`3-sched`), a prime sieve of processes
(`1-fork`), a shell (`2-shell`) and a file system over a fixed inode table (`4-fs`).
Check it with `dafny verify dfyconfig.toml`.

State that the programs change in place is a class whose methods are proved against
functions on values; protocols between processors or processes are machines whose
steps may interleave in any order. The theorems are about those functions and about
whole runs.

| file | what it models |
|---|---|
| `Mmu.dfy` | 32-bit paging words and addresses (Intel SDM volume 3A, section 4.3) |
| `Paging.dfy`, `EnvVm.dfy`, `PageCalls.dfy` | physical memory, two-level page tables, reference counts, the free list; the life of an address space; the page system calls |
| `MemoryRuns.dfy` | these operations in any order and number |
| `Contents.dfy` | what pages hold over whole runs |
| `Pmap.dfy` | the same operations on arrays and a threaded list, as `kern/pmap.c` and `kern/env.c` run it |
| `CowFork.dfy`, `ForkLib.dfy` | copy-on-write fork against a machine in which every page is private; `pgfault`, `duppage` and `fork` |
| `CowPages.dfy` | the copy-on-write machine on those page tables, call by call |
| `Smp.dfy` | traps, the kernel lock, dispatching and destroying on any number of CPUs |
| `Sched.dfy` | both schedulers, bounded waiting |
| `ExcStack.dfy` | page fault frames on bytes and the unwinding code instruction by instruction |
| `Ipc.dfy` | message passing |
| `EnvIds.dfy` | environment identifiers and the environment free list |
| `Stab.dfy` | the binary search over debug entries |
| `Printf.dfy`, `Formats.dfy`, `Strings.dfy` | formatted output, `strtol`, `vsnprintf`; what directives mean; `memmove` |
| `Sieve.dfy` | the process network of the prime sieve |
| `Shell.dfy` | the line parser on its buffer, and the wiring of descriptors |
| `Fs.dfy` | the inode table |

## How to read the invariants

- Memory is `Mem(words, refs, free)`. `Paging.Inv` says, for a set of managed frames
  and a set of page directories: each count equals the number of entries and roots
  that name the frame, the free list holds each uncounted frame once unless it is in
  the caller's hand, and page tables belong to one directory entry each. `Slot` names
  the three kinds of reference. Only user-half entries are counted, as in the kernel.
- In `CowFork`, `Private` is the machine in which every environment owns its pages.
  The window of a page is the time between the two `sys_page_map` calls of `duppage`;
  an `Instant` says at which of the two that machine copies the page. With
  `ByWritable`, the second for a page that has PTE_W and the first for any other, the
  two machines never part. With `AtRemark`, always the second, they may.
- In `Smp`, a hazard is a system call that the protocol cannot stand. The guards of
  `Run` are visible in the arguments and in the state before the call.
- In `CowPages`, `Models` says that each environment of that machine has a page
  directory of its own, whose words say what the machine's mappings say.
- In `Sched`, `Waits` says that an environment is RUNNABLE all along a trace; being
  dispatched would end it. `Calls` counts the calls whose caller is not RUNNABLE itself.
- In `Stab`, `Straight` says that the search, once it has met the address and goes on for
  its successor, does not take an entry for the successor for the address.
- In `Formats`, a directive is its parts; `FormatOf` writes it out and `Means` says what
  text it stands for, without reference to the printer.
- In `ExcStack`, `live` is the ghost stack of faults being handled, each with the
  number of unwinding instructions done.

## Where code and comments differ

The model follows the code.

- `3-sched/kern/syscall.c:233-234` asks to free the page when `page_insert` fails;
  `env_page_alloc` (line 57) does not. `PageCalls.LeakExactly` says exactly when a
  frame is lost.
- `3-sched/kern/syscall.c:259` promises -E_INVAL for an inappropriate `perm`, but
  `sys_page_map` (lines 264-290) never calls `check_perm`: bits 12 and up of the
  argument reach the page table entry. `PageCalls.EnvPageMapExact` says exactly when
  that does no harm, `PageCalls.WidePermBreaks` gives a call where it does.
- `3-sched/kern/pmap.c:633-635` lets a user program access what lies below ULIM; the
  code (line 649) refuses ranges that pass UTOP.
- `3-sched/lib/fork.c:21-29` announces a panic on a write fault to a page that is not
  copy-on-write; the test combines two masks with `&` and never fires, so the handler
  copies any page it is called for.
- `3-sched/kern/syscall.c:415-417` raises the receiving flag before looking at the
  destination, and refuses destinations at or above UTOP, which the comment above
  allows as "no page".
- `3-sched/kern/syscall.c:331` promises permissions of 0 when no page was transferred;
  the code leaves the old ones when the receiver named address 0 and the sender offers a
  page (`Ipc.Kernel.SysIpcTrySend`, `Ipc.StalePermission`).
- `3-sched/kern/syscall.c:349-350` promises -E_INVAL for a source page that is not mapped;
  the code reads an uninitialised pointer, and may leave an empty page with the receiver
  before it fails (`PageCalls.SendUnmappedFails`).
- `3-sched/kern/pmap.c:646` rounds up in 32 bits, so that a range that wraps around is
  tested in part (`Pmap.EndPageCoversIff`).
- `3-sched/kern/sched.c:77-79` says that the scan starts just after the last
  environment; it starts at it. `Sched.CallerChosenIff` says what follows.
- `3-sched/sched.md` says that boosts restore the highest priority; the code adds one
  on every call from the twentieth on.
- `3-sched/kern/sched.c:129-130` uses an identifier as an array index. Whether the
  chosen environment is demoted is a free choice in the model.
- `3-sched/kern/kdebug.c:41-43` says that left is greater than right when no entry
  contains the address; that is so when the type is absent, not when all its entries
  are above the address (`Stab.AllAbove`).
- `1-fork/primes.c:107-108` waits for a child; the first process has two, and the
  generator may be the one, so that it may end before the last primes are printed
  (`Sieve.FirstMayEndEarly`).
- `4-fs/fisopfs.c:350` frees the inode of one name of a file; the link counts of the
  other names stay (`Fs.UnlinkKeepsCount`).
- `3-sched/lib/printfmt.c:111` calls `-` a flag to pad on the right; for numbers the
  code pads on the left, with the character `-`.

## Model

| member | source | states |
|---|---|---|
| `Mmu.PgaddrInverse` | 3-sched/inc/mmu.h:29-42 | PGADDR of the PDX, PTX and PGOFF of a 32-bit address is the address |
| `Mmu.PgaddrSplits` | 3-sched/inc/mmu.h:29-42 | PDX, PTX and PGOFF of PGADDR are its three parts |
| `Mmu.PteWordFields` | 3-sched/kern/pmap.c:501-502 | the permissions are recovered from a page table entry for any 32-bit `perm`, and the frame if and only if the bits of `perm` above the low twelve are bits of the frame number |
| `Mmu.OrBits` | 3-sched/kern/pmap.c:501-502 | the bitwise or that builds the entry has exactly the bits of its operands |
| `Mmu.AllowsBits` | 3-sched/kern/pmap.c:655-656 | the mask test of `user_mem_check` holds if and only if the present bit and every bit asked for are set |
| `Paging.InsertRefines` | 3-sched/kern/pmap.c:489-505 | for any `perm`, `page_insert` is an update of one entry of the flat map; it keeps the whole accounting if and only if `perm` keeps the frame number, as any below 4096 does; a failed one changes nothing at all |
| `Paging.InsertCounts` | 3-sched/kern/pmap.c:489-505 | the exact change of every reference count made by a successful `page_insert`: the new frame, the one mapped there before, a new page table |
| `Paging.ReinsertOnlyPermissions` | 3-sched/kern/pmap.c:476-480 | inserting a page where it already is changes that one entry and no count and no free list |
| `Paging.InsertKeepsContents` | 3-sched/kern/pmap.c:489-505 | `page_insert` writes into no data frame |
| `Paging.RemoveInv` | 3-sched/kern/pmap.c:549-568 | `page_remove` keeps the accounting |
| `Paging.RemoveMaps` | 3-sched/kern/pmap.c:549-568 | `page_remove` deletes one entry of the flat map and frames all others |
| `Paging.WalkInv` | 3-sched/kern/pmap.c:412-429 | a walk that creates a page table keeps the accounting |
| `Paging.WalkMaps` | 3-sched/kern/pmap.c:412-429 | a walk that creates a page table changes no mapping |
| `Paging.WalkEntry` | 3-sched/kern/pmap.c:418-421 | the directory entry for a new page table names it and allows what any page below it may; the table is empty and has one reference |
| `Paging.MappedIsData` | 3-sched/kern/pmap.c:412-429 | a user mapping never names a page table or a directory |
| `Paging.Conservation` | 3-sched/kern/pmap.c:346-388 | frames free, in hand and referenced add up to the frames of the allocator |
| `Paging.UserStoreHarmless` | 3-sched/kern/pmap.c:489-505 | a user store through a mapping changes no translation and no count |
| `Paging.AllocInv` | 3-sched/kern/pmap.c:346-360 | `page_alloc` moves the head of the free list, zeroed, into the caller's hand |
| `EnvVm.SetupInv` | 3-sched/kern/env.c:161-195 | `env_setup_vm` adds an empty user half rooted at a new directory with count 1 |
| `EnvVm.SetupMaps` | 3-sched/kern/env.c:161-195 | `env_setup_vm` leaves every other address space as it was |
| `EnvVm.SetupKernelHalf` | 3-sched/kern/env.c:185-193 | the new directory is the kernel's above UTOP but for the entry at UVPT, which maps it to itself for reading |
| `EnvVm.TearEntry` | 3-sched/kern/env.c:438-442 | one `page_remove` of the inner loop of `env_free` |
| `EnvVm.TearTable` | 3-sched/kern/env.c:444-446 | the release of one page table |
| `EnvVm.TearRoot` | 3-sched/kern/env.c:449-452 | the release of the directory leaves exactly the other environments' memory |
| `EnvVm.FreedExactly` | 3-sched/kern/env.c:412-458 | every frame loses one count per mapping the environment had of it, page tables and directory included, and becomes free exactly when nobody else refers to it |
| `EnvVm.FreeEnvFrees` | 3-sched/kern/env.c:429-452 | the two loops and the release of the directory leave exactly the other environments' memory, and free the directory |
| `PageCalls.EnvPageAllocExact` | 3-sched/kern/syscall.c:46-58 | `env_page_alloc` maps the head of the free list or changes no mapping; which error when; what is left in hand |
| `PageCalls.GoodPermIff` | 3-sched/kern/syscall.c:46-51 | `check_perm` accepts exactly the words with PTE_P and PTE_U and no bit but PTE_W and the three available ones besides |
| `PageCalls.WithUserPresentIsOr` | 3-sched/kern/syscall.c:380 | `perm` with PTE_U and PTE_P or-ed in |
| `PageCalls.LeakExactly` | 3-sched/kern/syscall.c:46-58 | a frame is lost if and only if it was the last free one and the address needs a page table |
| `PageCalls.LeakHappens` | 3-sched/kern/syscall.c:226-245 | a memory for which the accounting holds, in which the call fails with -E_NO_MEM and the free frame is gone, so that it holds no more, against the comment at line 233 |
| `PageCalls.EnvPageMapExact` | 3-sched/kern/syscall.c:61-73 | for any `perm`: exactly when `env_page_map` succeeds; a failure changes nothing; a success writes one entry, and shares the frame and keeps the accounting if and only if `perm` keeps the frame number |
| `PageCalls.WidePermBreaks` | 3-sched/kern/syscall.c:264-290 | a mapping call that succeeds with a `perm` of 4096 and more, after which the accounting does not hold, against the comment at line 259 |
| `PageCalls.SendSucceeds` | 3-sched/kern/syscall.c:371-390 | for any `perm` and a mapped source page, when the page-carrying half of a send succeeds, by the checks and the number of free frames |
| `PageCalls.SendUnmappedFails` | 3-sched/kern/syscall.c:371-390 | for a source page that is not mapped the send fails whatever the kernel reads through its uninitialised pointer; exactly when the receiver is left with an empty page instead of its own; the accounting, up to the leak |
| `PageCalls.SendSameMap` | 3-sched/kern/syscall.c:371-390 | a successful page send has the mappings of one `page_insert` of the sender's frame, up to the choice of the page table's frame |
| `PageCalls.SendSameCounts` | 3-sched/kern/syscall.c:371-390 | and its reference counts, although it allocates and discards a frame and the receiver may already map the page there |
| `MemoryRuns.NextInv` | 3-sched/kern/syscall.c:226-311 | creating and freeing environments and allocating, mapping, unmapping, sending and writing pages keep the accounting, for mappings that keep the frame number; sends of unmapped pages included |
| `MemoryRuns.MemoryConserved` | 3-sched/kern/pmap.c:346-388 | after any sequence of these operations the accounting holds, and the frames that are free or referenced are all of the allocator's but one for each call in the leak case |
| `MemoryRuns.NothingLeftBehind` | 3-sched/kern/env.c:412-458 | once every environment is gone all frames are free but the leaked ones |
| `MemoryRuns.SharedIsCounted` | 3-sched/kern/pmap.c:489-505 | after any sequence of these operations a frame that two entries name has a count of at least two and is not free |
| `Contents.NewPageIsZero` | 3-sched/kern/syscall.c:53 | a page that `env_page_alloc` maps holds zeros only, whoever had its frame before |
| `Contents.MapShows` | 3-sched/kern/syscall.c:61-73 | a mapping that `env_page_map` makes shows the words of the source page |
| `Contents.SendShows` | 3-sched/kern/syscall.c:382-391 | a page that is sent arrives with the words that the sender reads |
| `Contents.FreeKeeps` | 3-sched/kern/env.c:429-452 | `env_free` changes no word of a page of another environment |
| `Contents.NextPage` | 3-sched/kern/syscall.c:226-311 | a page that an operation does not remap stays where it is, and its words change by a write to its frame only |
| `Contents.PageIsItsWrites` | 3-sched/kern/pmap.c:489-505 | over every run, for as long as an entry is not remapped, its page holds its old words with the writes to its frame done in order, and nothing else |
| `Pmap.Memory.PageInit` | 3-sched/kern/pmap.c:291-332 | the free list holds exactly the pages outside page 0, the start-up code, the hole and the kernel image |
| `Pmap.Memory.PageAlloc` | 3-sched/kern/pmap.c:346-360 | pops the head of the list, or fails on an empty one, and zeroes on request |
| `Pmap.Memory.PageFree` | 3-sched/kern/pmap.c:366-377 | pushes the page; its two panics are the preconditions |
| `Pmap.Memory.PageDecref` | 3-sched/kern/pmap.c:383-388 | counts down and frees at zero |
| `Pmap.Memory.PgdirWalk` | 3-sched/kern/pmap.c:412-429 | returns the page table of the address, creating it on request |
| `Pmap.Memory.PageLookup` | 3-sched/kern/pmap.c:518-532 | is a lookup in the flat map |
| `Pmap.Memory.PageRemove` | 3-sched/kern/pmap.c:549-568 | refines `Paging.Remove` |
| `Pmap.Memory.PageInsert` | 3-sched/kern/pmap.c:489-505 | refines `Paging.Insert` for any `perm`; fails exactly when no page table can be had |
| `Pmap.Memory.EnvSetupVm` | 3-sched/kern/env.c:161-195 | refines `EnvVm.Setup`, or fails on an empty free list |
| `Pmap.Memory.ClearTable` | 3-sched/kern/env.c:438-442 | the inner loop of `env_free` empties one page table and does nothing else |
| `Pmap.Memory.DropTableAt` | 3-sched/kern/env.c:431-446 | one turn of the outer loop releases one page table with all it maps |
| `Pmap.Memory.EnvFree` | 3-sched/kern/env.c:429-452 | the nested loops compute `EnvVm.FreeEnv` and leave the memory `FreedExactly` speaks of |
| `Pmap.Memory.EnvPageAlloc` | 3-sched/kern/syscall.c:46-58 | refines `PageCalls.EnvPageAlloc`, error codes included |
| `Pmap.Memory.EnvPageMap` | 3-sched/kern/syscall.c:61-73 | refines `PageCalls.EnvPageMap`, error codes included |
| `Pmap.Memory.SendPage` | 3-sched/kern/syscall.c:371-390 | refines `PageCalls.SendReading`, error codes included, for any source page |
| `Pmap.Memory.UserMemCheck` | 3-sched/kern/pmap.c:643-664 | for any `va` and `len`: succeeds exactly when the end, rounded up in 32 bits, is at most UTOP and every page before it has all bits asked for; otherwise names the first bad address, or the start of the range when that passes UTOP |
| `Pmap.EndPageCoversIff` | 3-sched/kern/pmap.c:646 | the pages tested are all those of a non-empty range if and only if rounding up its end does not wrap around |
| `CowFork.NextInv` | 3-sched/lib/fork.c:15-96 | every step of every handler and every fork keeps the sharing invariant |
| `CowFork.NextAgrees` | 3-sched/lib/fork.c:15-96 | every step keeps the machine equal to the one with private pages; only a re-marking that is to copy needs the child's page to be the parent's still |
| `CowFork.CowRefinesDeepCopy` | 3-sched/lib/fork.c:207-251 | over every interleaving of writes, faults, forks, allocations and exits, a running program reads in each page what deep copies would have put there, each copy taken between the two calls of its `duppage`: at the second if the page was writable, else at the first |
| `CowFork.WritableMeansPrivate` | 3-sched/lib/fork.c:15-96 | in every reachable state a frame mapped writable by a program that is in no handler and no fork has no other mapping |
| `CowFork.CowRefinesCopyAtRemark` | 3-sched/lib/fork.c:80-87 | copies may all be taken at the second call for runs in which each page is writable when `duppage` reaches it or takes no fault of its owner until `duppage` is done with it |
| `CowFork.RemarkAgreesIff` | 3-sched/lib/fork.c:80-87 | a second call that is to copy agrees with the deep copy if and only if the child's page still has the parent's content |
| `CowFork.CopyAtRemarkFailsIff` | 3-sched/lib/fork.c:80-87 | taking the copy at the second call is wrong for some continuation if and only if `duppage` finds the page copy-on-write and not writable |
| `CowFork.FaultInWindowDiverges` | 3-sched/lib/fork.c:80-87 | the events of such a continuation: a fault of the parent between the two calls, and a write |
| `CowFork.DivergenceFromBoot` | 3-sched/lib/fork.c:207-251 | such a state is reached from the start, by a program that forks twice |
| `ForkLib.Library.PgFault` | 3-sched/lib/fork.c:15-48 | the faulting page becomes a private writable copy and nothing else changes |
| `ForkLib.Library.DupPage` | 3-sched/lib/fork.c:62-96 | one `sys_page_map` for a read-only page, two for any other |
| `ForkLib.Library.DupPages` | 3-sched/lib/fork.c:225-237 | the loop over the pages below UTOP maps exactly the parent's pages into the child, but the exception stack |
| `ForkLib.Library.Fork` | 3-sched/lib/fork.c:207-251 | the child has the parent's pages and contents and an empty exception stack of its own; the parent keeps its contents |
| `CowPages.StepCarries` | 3-sched/lib/fork.c:15-96 | every step of the copy-on-write machine is what `env_page_alloc`, `env_page_map`, `page_remove`, `env_setup_vm` and `env_free` do to page tables and counts: the words go on saying what the machine says, and the accounting holds |
| `CowPages.OnlyMemoryFails` | 3-sched/lib/fork.c:36-48 | none of the calls of `pgfault`, `duppage` and `fork` fails a check: one fails if and only if there are fewer free frames than its page and a missing page table need |
| `CowPages.FreeIsFresh` | 3-sched/kern/pmap.c:346-360 | the head of the free list is a frame that no mapping names, as the machine asks of a new frame |
| `CowPages.RunProjects` | 3-sched/lib/fork.c:207-251 | a run over page tables is a run of the machine, so that what `CowFork` proves holds of it |
| `CowPages.WritableCountsOne` | 3-sched/lib/fork.c:15-96 | over every run from boot, a page table entry with PTE_W of a program in no handler and no fork names a frame whose reference count is exactly one |
| `Smp.LockStepKeeps` | 3-sched/kern/spinlock.c:61-124 | the half-steps of acquiring and releasing keep mutual exclusion and the recorded owner |
| `Smp.NextInv` | 3-sched/kern/trap.c:244-300 | every step that is no hazard keeps the protocol invariant |
| `Smp.StepSafeIff` | 3-sched/kern/env.c:465-535 | a step keeps the invariant if and only if it is none of three hazards: a status set, a receive completed, or a second destroy, of an environment running elsewhere |
| `Smp.HazardBreaks` | 3-sched/kern/syscall.c:165-185 | after a hazard another CPU runs an environment that is neither RUNNING nor DYING |
| `Smp.HazardReached` | 3-sched/kern/syscall.c:165-185 | a guarded run of two CPUs from boot up to a hazard |
| `Smp.SecondDestroyReached` | 3-sched/kern/env.c:466-482 | a guarded run from boot, with one destroy of an environment running elsewhere, up to a second one |
| `Smp.ReceiveHazardReached` | 3-sched/kern/syscall.c:412-425 | a run from boot, guarded but for one receive with an invalid destination, up to a send to an environment running elsewhere |
| `Smp.ReceiversBlockedIff` | 3-sched/kern/syscall.c:412-425 | flagged receivers stay blocked if and only if receives have a valid destination and nobody wakes a receiver by hand |
| `Smp.BlockedSendsSafe` | 3-sched/kern/syscall.c:392-398 | a send to a blocked receiver is no hazard |
| `Smp.LockFreeMeansConsistent` | 3-sched/kern/trap.c:256-300 | whenever the kernel lock is free, an environment is RUNNING or DYING if and only if it is current on some CPU, and then on one only |
| `Smp.LockExclusive` | 3-sched/kern/spinlock.c:61-124 | at most one CPU holds the lock, and neither self-check of the lock can fail |
| `Smp.StepOutcome` | 3-sched/kern/syscall.c:135-185 | what each step does to the environment it is about: a new child is NOT_RUNNABLE, a destroyed environment free or DYING, a receiver blocked, one that is sent to RUNNABLE, a DYING one freed at its next trap |
| `Smp.StatusTurns` | 3-sched/kern/env.c:466-535 | no step changes a status in any other way |
| `Smp.FlagTurns` | 3-sched/kern/syscall.c:392-415 | the receiving flag is raised by a receive of the environment itself, and lowered by a send or a new environment in its slot, only |
| `Smp.ChildSleeps` | 3-sched/kern/syscall.c:135-163 | over every run, a new child is current on no CPU and may be scheduled by none until its status is set to RUNNABLE |
| `Smp.DestroyedIsGone` | 3-sched/kern/env.c:466-482 | over every run, a destroyed environment is never scheduled and makes no system call until its slot is reused; the CPU that still runs it frees it when it traps |
| `Smp.HolderAdvances` | 3-sched/kern/trap.c:244-300 | a CPU that has the kernel lock can always go on, and releases it after six steps of its own at most, unless it stops in the monitor |
| `Smp.NothingRunnable` | 3-sched/kern/sched.c:141-201 | with nothing RUNNABLE, sched_yield resumes a RUNNING caller, enters the monitor if every environment is free or blocked, and halts with no current environment otherwise |
| `Smp.TailResumesIff` | 3-sched/kern/trap.c:295-301 | the tail of trap resumes the current environment if and only if it is RUNNING |
| `Sched.BestIsNearest` | 3-sched/kern/sched.c:89-126 | the scan finds the nearest runnable slot going round, under priorities the nearest one of the highest priority, or none if nothing is runnable |
| `Sched.NextValid` | 3-sched/kern/sched.c:47-56 | priorities stay in 0..5 through boosts, demotions, `sys_set_priority` and `env_alloc` |
| `Sched.YieldRunsOne` | 3-sched/kern/sched.c:68-148 | a call leaves at most one environment RUNNING, the current one; who changes status; halting only when nothing is runnable or running |
| `Sched.NothingToRun` | 3-sched/kern/sched.c:141-201 | with nothing RUNNABLE a call changes no status: it resumes a RUNNING caller, enters the monitor if all are free or blocked, and halts with no current environment otherwise |
| `Sched.EventOutcome` | 3-sched/kern/env.c:225-245 | between two calls a status is set, taken or freed of one slot only, and an environment that is freed is current no more |
| `Sched.PriorityTurns` | 3-sched/kern/sched.c:47-56 | the only events that change a priority, and by how much: `sys_set_priority` of a program for itself, downwards; `env_alloc`; boosts and demotions of the priority scheduler |
| `Sched.PriorityIsSet` | 3-sched/kern/syscall.c:434-443 | `sys_set_priority` is obeyed if and only if the priority is from 0 on, below the highest and not above the old one; a new environment inherits |
| `Sched.PickIsBetween` | 3-sched/kern/sched.c:69-139 | the choice lies between start and any runnable environment of the highest priority, and strictly nearer unless the caller is runnable |
| `Sched.RoundRobinBound` | 3-sched/kern/sched.c:89-95 | over every trace, a runnable environment waits fewer than NENV * (d + 1) calls by callers that are not RUNNABLE, d of them entered without a current environment |
| `Sched.PrioritiesBound` | 3-sched/kern/sched.c:108-139 | over every trace, a runnable environment waits fewer than BOOST_INTERVAL + MAX_PRIORITY + NENV * (d + 1) such calls, whatever is demoted and whatever the others do |
| `Sched.CallerChosenIff` | 3-sched/kern/sched.c:72-95 | round-robin chooses the caller if and only if the caller is RUNNABLE, as the scan starts at it and not after it |
| `Sched.SelfishCallerStarves` | 3-sched/kern/sched.c:74-95 | so a running environment can keep any other one waiting for any number of calls it makes as RUNNABLE, the ones the bounds do not count |
| `Sched.Scheduler.BoostAllEnvs` | 3-sched/kern/sched.c:47-56 | adds one to every priority below 5 of a slot that is not free |
| `Sched.Scheduler.FindRunnable` | 3-sched/kern/sched.c:89-95 | the round-robin scan finds `Sched.Pick` |
| `Sched.Scheduler.FindBestPriority` | 3-sched/kern/sched.c:113-126 | the priority scan with its running best finds `Sched.Pick` |
| `Sched.Scheduler.Dispatch` | 3-sched/kern/env.c:499-523 | `env_run`: the old current environment becomes RUNNABLE if it was RUNNING, the new one RUNNING |
| `Sched.Scheduler.Yield` | 3-sched/kern/sched.c:68-148 | one call of `sched_yield` with either scheduler |
| `Sched.Scheduler.AnyAlive` | 3-sched/kern/sched.c:162-168 | the test before halting |
| `ExcStack.UnwindRestores` | 3-sched/lib/pfentry.S:67-91 | the twelve instructions restore all general registers, flags, stack pointer and instruction pointer of the frame, and write only the scratch word and the frame's esp |
| `ExcStack.PageFaultFrame` | 3-sched/kern/trap.c:346-377 | the handler writes the frame and, in the recursive case, the scratch word, and nothing else |
| `ExcStack.DestroyedIff` | 3-sched/kern/trap.c:343-346 | a user fault is fatal if and only if there is no upcall or no writable exception stack |
| `ExcStack.EntersUpcall` | 3-sched/kern/trap.c:348-376 | any other one branches to the upcall with the fault address and the error code on top of the exception stack, and every other register as it was; in the recursive case the word above the frame is zero |
| `ExcStack.PanicsIff` | 3-sched/kern/trap.c:372-373 | the kernel panics if and only if a recursive fault leaves no room for a frame and a scratch word |
| `ExcStack.ReturnRestores` | 3-sched/lib/pfentry.S:74-91 | the pops at the end restore exactly the state of the innermost fault and keep all outer ones, wherever those were in their unwinding |
| `ExcStack.StepKeeps` | 3-sched/lib/pfentry.S:67-72 | each of the five instructions before the pops does its part and disturbs no outer fault |
| `ExcStack.FramesDisjoint` | 3-sched/kern/trap.c:363-370 | frames and scratch words of nested faults are disjoint, at any depth |
| `ExcStack.FaultIsTransparent` | 3-sched/kern/trap.c:346-377 | whatever happens while a fault is handled, nested faults in the handler and in the unwinding code included, the end of its handling restores exactly the state it interrupted and the faults around it |
| `ExcStack.KernelKeepsClearIff` | 3-sched/kern/trap.c:363-370 | the kernel avoids the live part of the exception stack if and only if the faulting stack pointer is on it and not above the innermost frame |
| `ExcStack.TopOfStackGoesAstray` | 3-sched/kern/trap.c:348-364 | with the stack pointer at UXSTACKTOP or one or two bytes above all is restored but the instruction pointer, and that if and only if it has the overlapped bytes already |
| `ExcStack.Processor.PageFaultHandler` | 3-sched/kern/trap.c:346-386 | refines `ExcStack.PageFault`, with its three outcomes |
| `ExcStack.Processor.ReturnFromUpcall` | 3-sched/lib/pfentry.S:67-91 | executes the unwinding code instruction by instruction |
| `Ipc.ExactlyOnce` | 3-sched/kern/syscall.c:355-425 | the senders, permissions and values that completed receives returned are, in order, those of the sends that returned 0, but for at most one message still being read; and these sends are the `ipc_send` calls that returned |
| `Ipc.BlockedIff` | 3-sched/kern/syscall.c:412-425 | a raised flag means a blocked receiver after a step if and only if the destination is valid and no receiver is woken by hand |
| `Ipc.NextExact` | 3-sched/lib/ipc.c:22-60 | no step loses, duplicates or overwrites a message |
| `Ipc.AttemptOutcome` | 3-sched/lib/ipc.c:52-67 | one turn of `ipc_send`: it tries again if and only if the receiver is live and not receiving, panics if and only if it is gone or takes no such page, and else wakes it, and nobody else, with the message |
| `Ipc.TrySendFailsIff` | 3-sched/kern/syscall.c:355-391 | which error code when; a call that fails changes no environment |
| `Ipc.LossIff` | 3-sched/kern/syscall.c:412-425 | in every reachable state, with another environment able to send, some disciplined run goes on from a step to a message that is sent and never received, if and only if the step is a receive with an invalid destination or wakes a receiver by hand |
| `Ipc.InvalidReceiveLosesMessage` | 3-sched/kern/syscall.c:412-417 | a receive with an invalid destination lets the next send succeed without ever being received |
| `Ipc.Kernel.SysIpcTrySend` | 3-sched/kern/syscall.c:355-399 | refines `Ipc.TrySend`, error codes included; `env_ipc_perm` is what line 331 promises unless the receiver named address 0, was offered a page, and holds other permissions from before |
| `Ipc.StalePermission` | 3-sched/kern/syscall.c:382-392 | from boot, two messages after which a receiver that asked for no page is told the permissions of the page before |
| `Ipc.Kernel.SysIpcRecv` | 3-sched/kern/syscall.c:412-425 | refines `Ipc.Recv`; blocks if and only if the destination is valid |
| `EnvIds.NextIsNth` | 3-sched/kern/env.c:220-223 | the generated identifier is the next one of a closed form, through 32-bit wrap-around |
| `EnvIds.NthIdShape` | 3-sched/kern/env.c:220-223 | identifiers are positive 32-bit numbers with the slot in the low ten bits |
| `EnvIds.SameIdIff` | 3-sched/kern/env.c:220-223 | a slot's identifiers repeat with period exactly 2^19 - 1 |
| `EnvIds.LiveIdsDistinct` | 3-sched/kern/env.c:205-224 | over every history live identifiers are positive and distinct |
| `EnvIds.StaleIdRejected` | 3-sched/kern/env.c:73-106 | an identifier given out earlier is found if and only if its slot is live and a multiple of 2^19 - 1 identifiers later |
| `EnvIds.FoundIsLive` | 3-sched/kern/env.c:74-107 | exactly the live environment of that identifier is found, with the permission check only the caller or its child; 0 is the caller |
| `EnvIds.AllocFailsIff` | 3-sched/kern/env.c:216-222 | why an allocation fails, that a failed one changes nothing, and that one that succeeds takes a free slot |
| `EnvIds.NextIdShape` | 3-sched/kern/env.c:225-229 | from any 32-bit word a new identifier is positive, different, and carries its slot |
| `EnvIds.FoundByParentIff` | 3-sched/kern/env.c:95-102 | over every history, from its allocation until it is freed a child is found with the permission check by its parent and by itself, and by nobody else |
| `EnvIds.AllocInv` | 3-sched/kern/env.c:205-270 | allocation keeps the free list equal to the set of free slots |
| `EnvIds.FreeInv` | 3-sched/kern/env.c:454-457 | and so does freeing |
| `EnvIds.Environments.constructor` | 3-sched/kern/env.c:114-128 | `env_init` threads all slots in order |
| `EnvIds.Environments.EnvAlloc` | 3-sched/kern/env.c:205-270 | takes the head of the list, or fails on an empty list or without memory |
| `EnvIds.Environments.EnvFree` | 3-sched/kern/env.c:454-457 | puts the slot back at the head |
| `EnvIds.Environments.EnvId2Env` | 3-sched/kern/env.c:72-106 | refines `EnvIds.Find` |
| `Stab.BinsearchAnswers` | 3-sched/kern/kdebug.c:23-106 | in particular when the address and its successor are not both present: the result brackets the address, or says that all entries are above it, or that there are none |
| `Stab.BinsearchAnswersIff` | 3-sched/kern/kdebug.c:59-106 | for entries sorted within their type the result is right if and only if, when the search first meets the address, it leaves no entry for the successor to search, or wraps around to 0 and is led back |
| `Stab.AdjacentValuesMislead` | 3-sched/kern/kdebug.c:87-93 | with entries at addr and addr + 1 the search runs past the match |
| `Stab.LastAddressMisleads` | 3-sched/kern/kdebug.c:87-93 | with an entry at the largest address the search for it wraps around and misses it |
| `Stab.NextNarrows` | 3-sched/kern/kdebug.c:68-94 | one turn of the loop keeps the bracketing |
| `Stab.StabBinsearch` | 3-sched/kern/kdebug.c:59-106 | the loops compute `Stab.Binsearch`, and end although an exact match need not shrink the range |
| `Sieve.PrintsPrimes` | 1-fork/primes.c:78-110 | at every moment of every interleaving the printed numbers are an initial segment of the primes up to the limit |
| `Sieve.SieveTerminates` | 1-fork/primes.c:112-140 | no run is longer than the initial work, none gets stuck before all processes have ended, and then exactly the primes up to the limit are printed |
| `Sieve.NoDeadlock` | 1-fork/primes.c:57-65 | with pipes of any positive capacity some process can go on until all have ended |
| `Sieve.StepWorks` | 1-fork/primes.c:57-110 | every step uses up work |
| `Sieve.NextInv` | 1-fork/primes.c:78-110 | no filter loses, invents or reorders a number |
| `Sieve.NoBrokenPipe` | 1-fork/primes.c:62-64 | nobody writes to a pipe whose reader has closed it |
| `Sieve.EndsInOrder` | 1-fork/primes.c:93-109 | over every interleaving the processes after the first end from the last one back, each after its child, and a pipe never holds more than it can |
| `Sieve.FirstMayEndEarly` | 1-fork/primes.c:107-108 | the first process has two children and waits for one: a run with limit 3 in which it has ended before 3 is printed |
| `Sieve.FirstLeftIsNext` | 1-fork/primes.c:78-88 | the first number a new stage reads is the next prime |
| `Sieve.GenerarNumeros` | 1-fork/primes.c:48-54 | writes 2 up to the limit |
| `Sieve.FiltrarNumerosPrimos` | 1-fork/primes.c:57-65 | passes on what its prime does not divide, in order |
| `Printf.PrintNumIsPadded` | 3-sched/lib/printfmt.c:36-55 | `printnum` prints the digits padded on the left; the length is max(width, digits) |
| `Printf.NumberRoundTrip` | 3-sched/lib/string.c:246-291 | `strtol` reads `printnum`'s output back and stops at its end, for every number, base 2 to 16, any width, blank or zero padding; a number of 2^31 and more comes back wrapped |
| `Printf.DigitTable` | 3-sched/lib/printfmt.c:54 | the digit characters are those of the table |
| `Printf.UnknownEscapeVerbatim` | 3-sched/lib/printfmt.c:240-245 | an unknown or cut-off escape comes out verbatim, although the scan goes back |
| `Printf.StringIsPadded` | 3-sched/lib/printfmt.c:179-195 | length and position of the text of a string conversion |
| `Printf.SignedRoundTripIff` | 3-sched/lib/printfmt.c:198-205 | for blank or zero padding every signed 32-bit value reads back if and only if it is not negative, or padded with zeros, or no narrower than the width |
| `Printf.MinusFiveIsLost` | 3-sched/lib/printfmt.c:198-205 | %3d of -5 does not read back |
| `Printf.PlainText` | 3-sched/lib/printfmt.c:96-101 | text without percent signs comes out as it is |
| `Formats.FormatMeans` | 3-sched/lib/printfmt.c:88-248 | a format made of plain characters and directives comes out as the texts they mean, in order, each directive taking the next arguments: numbers in base 8, 10 or 16 with their value in 32 or 64 bits, signs, fills and widths, characters, strings cut to a precision, error names |
| `Formats.WritesUnique` | 3-sched/lib/printfmt.c:36-55 | a number is written in one way only in each base |
| `Formats.ShownReadsBack` | 3-sched/lib/printfmt.c:207-233 | what %o, %u and %x show for a 32-bit argument, with any width and blanks or zeros, `strtol` reads back in base 8, 10 and 16 |
| `Formats.ReadsHex` | 3-sched/lib/string.c:262-264 | with base 0 or 16 `strtol` reads a hexadecimal number after 0x, as %p shows it |
| `Formats.ReadsOctal` | 3-sched/lib/string.c:265-266 | with base 0 a leading 0 means octal |
| `Formats.ReadsDecimal` | 3-sched/lib/string.c:267-268 | with base 0 any other first digit means decimal |
| `Formats.StrtolReads` | 3-sched/lib/string.c:253-291 | `strtol` in general, for bases 2 to 36: blanks and tabs, at most one sign, and digits in small or capital letters up to the first character that is none |
| `Formats.DigitValues` | 3-sched/lib/string.c:274-283 | the values of digits and of small and capital letters; nothing else is a digit |
| `Printf.ParseLong` | 3-sched/lib/string.c:246-291 | refines `Printf.Strtol`, for any base and prefix |
| `Printf.Strnlen` | 3-sched/lib/string.c:21-29 | the length up to a limit, negative for none |
| `Printf.SprintBuf.Put` | 3-sched/lib/printfmt.c:266-272 | counts every character and stores it while there is room |
| `Printf.SprintBuf.PrintNumber` | 3-sched/lib/printfmt.c:36-55 | refines `Printf.PrintNum` |
| `Printf.SprintBuf.PrintString` | 3-sched/lib/printfmt.c:179-195 | refines `Printf.RenderString`: width, precision, padding side and unprintable characters |
| `Printf.Convert` | 3-sched/lib/printfmt.c:162-238 | one conversion refines `Printf.Render` |
| `Printf.VPrintFmt` | 3-sched/lib/printfmt.c:87-248 | the scanning loops end on every format and put exactly `Printf.Format` |
| `Printf.VsnPrintf` | 3-sched/lib/printfmt.c:274-289 | stores the first min(count, n - 1) characters and a NUL, leaves the rest of the buffer, and returns the full count |
| `Strings.Memmove` | 3-sched/lib/string.c:194-212 | copies as through a second buffer, for regions that overlap either way |
| `Shell.LineParsesToNest` | 2-shell/parsing.c:205-224 | a pipeline of non-empty commands parses to the right-nested tree with its commands as leaves, in order |
| `Shell.LineParses` | 2-shell/parsing.c:208-224 | what the parser builds for any line at all, empty commands included |
| `Shell.WordsAreArguments` | 2-shell/parsing.c:132-167 | the words of a command become its arguments, in order, however many spaces separate them; a variable gives its value, or no argument if that is empty |
| `Shell.WordsOnly` | 2-shell/parsing.c:132-167 | a command of words alone has no settings and no redirections |
| `Shell.TakesRedirection` | 2-shell/parsing.c:25-63 | which token redirects what |
| `Shell.DropsLateRedirection` | 2-shell/parsing.c:32-47 | a redirection sign that is third or later in its word redirects nothing, and the word is dropped |
| `Shell.TakesSetting` | 2-shell/parsing.c:67-88 | KEY=VALUE is collected as an environment setting |
| `Shell.TakesOption` | 2-shell/parsing.c:65-82 | a word with a dash, or one that begins with the equals sign, is an argument and no setting |
| `Shell.AmpersandBacks` | 2-shell/parsing.c:170-203 | the first ampersand puts what precedes it into the background, unless it ends a redirection sign |
| `Shell.WiresOnePipe` | 2-shell/exec.c:173-223 | with descriptors 0 to 2 open the pipe takes 3 and 4, and both children and the parent end with exactly 0 to 2 |
| `Shell.PipelineIsWired` | 2-shell/exec.c:173-229 | each command of a pipeline gets exactly descriptors 0 to 2, wired to its neighbours' pipes |
| `Shell.OneWriterPerPipe` | 2-shell/exec.c:173-229 | command k is the only remaining holder of the write end of pipe k |
| `Shell.LineRunsWired` | 2-shell/exec.c:98-234 | from the text of a line to the wired processes |
| `Shell.SplitLine` | 2-shell/utils.c:4-20 | splits the line buffer in place at the first bar and skips spaces |
| `Shell.BlockContains` | 2-shell/utils.c:25-33 | the first index of a character, or -1 |
| `Shell.GetToken` | 2-shell/parsing.c:6-22 | the characters up to a space |
| `Shell.ParseExecAt` | 2-shell/parsing.c:134-167 | the token loop refines `Shell.ParseExec` |
| `Shell.ParseBackAt` | 2-shell/parsing.c:170-184 | cuts the buffer at the ampersand |
| `Shell.ParseCmdAt` | 2-shell/parsing.c:188-203 | refines `Shell.ParseCmd` and touches only its own segment of the buffer |
| `Shell.ParseLineAt` | 2-shell/parsing.c:207-224 | refines `Shell.ParseLine` on the buffer |
| `Shell.Execute` | 2-shell/exec.c:98-234 | refines `Shell.ExecCmd`, a fork being a copy of the table |
| `Fs.SplitsJoin` | 4-fs/fs_utils.c:4-26 | splitting a path into directory and name undoes joining them |
| `Fs.JoinsSplitIff` | 4-fs/fs_utils.c:4-26 | joining undoes splitting if and only if the last slash is not the second character of the path |
| `Fs.NextTree` | 4-fs/fisopfs.c:79-185 | every operation keeps the tree |
| `Fs.TreeOverHistories` | 4-fs/fisopfs.c:79-185 | over every history each occupied inode is named by its occupied directory, paths are unique, and every inode hangs off the root |
| `Fs.NewAddsPath` | 4-fs/fisopfs.c:79-144 | create and mkdir add exactly their path, and fail only when it is new and the table full |
| `Fs.RmdirRemovesPath` | 4-fs/fisopfs.c:163-185 | rmdir removes exactly an empty directory; when each error is returned |
| `Fs.UnlinkRemovesPath` | 4-fs/fisopfs.c:336-352 | unlink removes exactly what is no directory; when each error is returned |
| `Fs.SymlinkAddsPath` | 4-fs/fisopfs.c:403-451 | symlink adds exactly its path, as a link with the first 99 characters of its target; fails only on a full table |
| `Fs.SymlinkReadsBackIff` | 4-fs/fisopfs.c:403-476 | a link reads back as its target if and only if the target is shorter than 100 characters and than the buffer |
| `Fs.LinkAddsPath` | 4-fs/fisopfs.c:479-526 | link adds exactly its path; when each error is returned |
| `Fs.LinkShares` | 4-fs/fisopfs.c:499-523 | both names then lead to the same content and link count |
| `Fs.NextStat` | 4-fs/fisopfs.c:148-508 | every successful call does to every path what is asked of it and nothing else: kind, link mode, link count and content of each file afterwards |
| `Fs.UnlinkKeepsCount` | 4-fs/fisopfs.c:337-352 | after a link and an unlink the name that is left has a link count of one more than before |
| `Fs.FileSystem.constructor` | 4-fs/fisopfs.c:26-53 | `create_root` |
| `Fs.FileSystem.SearchInodeByPath` | 4-fs/fs_utils.c:28-38 | refines `Fs.SearchPath` |
| `Fs.FileSystem.SearchFreeInode` | 4-fs/fs_utils.c:40-49 | refines `Fs.FreeSlot` |
| `Fs.FileSystem.GetInodeIndex` | 4-fs/fs_utils.c:51-63 | refines `Fs.InodeIndex` |
| `Fs.FileSystem.SetInodeInSuperblock` | 4-fs/fisopfs.c:79-99 | refines `Fs.SetInode` |
| `Fs.FileSystem.MakeInode` | 4-fs/fisopfs.c:102-144 | refines `Fs.NewInode` |
| `Fs.FileSystem.RemoveDirectory` | 4-fs/fisopfs.c:163-185 | refines `Fs.Rmdir` |
| `Fs.FileSystem.RemoveFile` | 4-fs/fisopfs.c:336-352 | refines `Fs.Unlink` |
| `Fs.FileSystem.MakeSymlink` | 4-fs/fisopfs.c:403-451 | refines `Fs.Symlink` |
| `Fs.FileSystem.ReadSymlink` | 4-fs/fisopfs.c:454-476 | refines `Fs.Readlink`, error codes included |
| `Fs.FileSystem.MakeLink` | 4-fs/fisopfs.c:479-526 | refines `Fs.Link` |

## Left out

- Hardware: devices, interrupt controllers, TLB flushes (no effect in the model), loading of segment and control registers, entry code.
- Boot-time self-checks, large pages, `boot_map_region` and the kernel half of page tables: kernel tables are not counted by the kernel either, and an environment's kernel half is the template `env_setup_vm` copies.
- `pp_ref` is unbounded in the model: counts above 65535 would wrap in the kernel.
- Pmap.Memory.SendPage: a read through the uninitialised pointer gives some word; that it may fault is not modelled.
- MemoryRuns.NextInv: mappings asked for through `sys_page_map` keep the frame number; without that it is false by `PageCalls.WidePermBreaks`.
- PageCalls.SendSucceeds: the source page is mapped; `PageCalls.SendUnmappedFails` is the other case.
- PageCalls.SendSameMap: as above.
- PageCalls.SendSameCounts: as above, and sender and receiver are distinct.
- CowFork.CowRefinesDeepCopy: no explicit sharing of pages between environments, no I/O pages and no `sfork`. `duppage` reads the entry and makes its first call in one step; between the two only its own stack page is written, which is not read-only.
- CowFork.NextInv: `pgfault` and `fork` panic when a system call fails; a panic is an exit, which may come anywhere, and steps that fail for lack of memory are not taken.
- CowPages.StepCarries: entries, counts and lists; that the bytes of a page are the words of its frame is not stated, and an allocation that fails after `env_page_alloc` has taken a frame is not a step.
- ForkLib.Library.Fork: the frames that system calls find are parameters, and nothing else runs meanwhile; interleavings are those of `CowFork`.
- `dup_or_share` and `fork_v0`: they copy eagerly and have no sharing to go wrong.
- Smp.LockFreeMeansConsistent: under the guards of `Smp.Run`; without them it is false by `Smp.HazardBreaks` and `Smp.HazardReached`. Panics and the monitor stop the machine.
- Sched.PrioritiesBound: one CPU; `scheduler_calls` does not overflow, and the scheduler's statistics arrays, which the kernel writes out of bounds, are not modelled.
- Sched.RoundRobinBound: one CPU, and calls of a RUNNABLE caller are not counted, by `Sched.SelfishCallerStarves`.
- ExcStack.FaultIsTransparent: handlers keep the stack discipline of compiled code and leave alone an eip already stored below a trap-time stack pointer; `ExcStack.KernelKeepsClearIff` says what a handler on another stack destroys. The prologue of the upcall, which calls the C handler, is part of the handler's own steps, and the seven pops, which touch nothing that is not mapped by then, are one step.
- Ipc.ExactlyOnce: valid destinations and no waking by hand, by `Ipc.LossIff`; identifiers are not reused; the permissions are those the kernel left in `env_ipc_perm`.
- Ipc.Kernel.SysIpcTrySend: whether the checks on a page and its mapping succeed are parameters here; both are modelled in `PageCalls`.
- `ipc_send` retries forever if the receiver never receives; only its completed calls are spoken of.
- EnvIds.NextIsNth: signed overflow wraps, as on the target; the C standard leaves it open.
- Stab.BinsearchAnswersIff: values are of one array that does not change, and addresses have 32 bits.
- Sieve.SieveTerminates: pipes and forks succeed, standard output is flushed at each line, and the limit is below the largest `int`, at which the generator's counter would overflow.
- Printf.VPrintFmt: the arguments have the types the format asks for, strings hold no NUL, widths and precisions fit an `int`, and an error code is not the smallest `int`; the console as an output is left out.
- Formats.FormatMeans: flags in the order #, fill, width, precision, l; widths and precisions that are written as numbers do not begin with 0, which the program takes for a fill, after the point too.
- Printf.NumberRoundTrip: signed overflow in `strtol` wraps, as on the target; the C standard leaves it open.
- Printf.VsnPrintf: the buffer is as long as the caller says.
- Shell.LineParsesToNest: commands are not empty; an empty first command leaves a NULL that execution dereferences. Lines leave two bytes of the buffer.
- Shell.GetToken: tokens are sequences; the program copies one into 1024 bytes without a check (`2-shell/parsing.c:12-20`), which a line that fits its own buffer does not exceed.
- Shell.TakesRedirection: as above for the three file names (`2-shell/types.h:54-56`), copied from tokens.
- Shell.WordsAreArguments: arguments and settings are sequences; the arrays of the program have room for MAXARGS (20) entries and are filled without a check (`2-shell/types.h:52-53`).
- Shell.ParseExecAt: as above, fewer than MAXARGS arguments and settings.
- Shell.ParseCmdAt: an ampersand in the first position looks at the byte before the command, which is never a redirection sign after a bar; at the start of the buffer the model takes it not to be one.
- Shell.PipelineIsWired: before redirections, and if pipes and forks succeed; parents keep the read end of the pipe before them as their own input until their children end.
- Built-in commands, environment lookups (a parameter here), redirections to files, job control and signals of the shell.
- Fs.TreeOverHistories: the guarantees the kernel gives a file system hold: parents exist, targets of links do not, the root stays, names and paths fit.
- Contents of hard links after a write: `fisopfs_write` copies into every inode with more than one link, so that no frame property holds (`4-fs/fisopfs.c:308-318`).
- Persistence, time stamps, user identifiers and the FUSE interface.
- Fs.SymlinkReadsBackIff: the buffer of a reader is not empty, as the kernel sees to.
