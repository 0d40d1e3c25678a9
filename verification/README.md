# Verified model of MOS

Dafny models of the parts of the MOS kernel, its user library, file server, shell and disk
formatter that rest on invariants nobody wrote down, with proofs of what these parts promise.
`dafny verify dfyconfig.toml` checks everything.

| files | what they model |
|---|---|
| mmu, spaces, vm, machine, pmap | page tables, reference counts, free list, TLB (kern/pmap.c, kern/tlbex.c, kern/env.c, memory system calls) |
| cow, fork, coupling | copy-on-write fork as an interleaved step system, refined to eager copying; `cow_entry`, `duppage` and `fork` as methods on it; its steps carried out by the kernel model |
| pipe, pipeends, drain | the bytes of a pipe under preemption; its end detection from reference counts while `dup` and `close` are under way; both together |
| sched, ipc | weighted round-robin, the schedule list, blocking message passing |
| queue | the LIST_* and TAILQ_* macros on linked nodes |
| bitmap, disk, blocks, format | block allocation and ownership in the file server, and the formatter that establishes it |
| faults | runs from a formatted disk in which the file server fails |
| names, dirs, resolve | path walks, creation and removal of files, the two path resolvers |
| editor, chain | the line editor with its history ring, the shell's loop over `;`, `&&` and `\|\|` |
| elf, stack, printnum | segment loading, the initial stack, number printing |
| common | what several of them share |

**How the memory proof is layered.** `Spaces` sees all page tables as one map from (address space,
page) to page-table word and proves the invariant `Ok`: `pp_ref` of every frame is the number of
user words and of kernel holders naming it, the free list has no duplicates and only frames
nothing names, and each TLB pair below UTOP equals the two words of its own space. `Vm` relates
that map to two levels of words in physical memory, `Machine` puts both together as `Inv`, and
`Pmap.Kernel` is the code, updating words, counts, free list and TLB in place. The methods'
contracts give the whole new state; `held`, `role` and `m` are ghost fields.

**Copy-on-write.** A state of `Cow` holds page tables, frame contents, and where each env is inside
`cow_entry` (its `memcpy` byte by byte) and `duppage`; all envs may be interleaved at every step.
The `Eager` machine has one private page of bytes per page, or a shared one for PTE_LIBRARY, each
writable or not, and `duppage` copies. `Coupling` ties the machine to the kernel: when its page tables match the kernel's
map, every step is one system call or TLB refill with the same change, the frame it takes is the head
of the free list (`Coupling.FreeIsFresh`), and the TLB agrees afterwards (`Coupling.Simulate`).

**Step systems.** `Cow`, `Pipe`, `PipeEnds`, `Drain`, `Sched` and `Ipc` define `Enabled` and `Do` for their
steps, an invariant that every step keeps, and theorems over all runs. Interrupts are off in the
kernel, so a system call is one step; user code can be preempted between any two memory accesses.

## Where the code falls short of what it is for

These are proved, with the exact condition where there is one.

- `Cow.BrokenGuardLeaks`, `Cow.GuardedRunsDoNotLeak`, `Cow.GuardIsNeeded`: `duppage` reads the
  permissions before it maps. If the forking env takes a write fault on that very page in between (as
  it can on its own stack), then in every run parent and child end up sharing a page the parent may
  write. The refinement is proved for all runs without that (predicate `Guard`, a check on the fault
  step), and such runs reach no such state.
- `Spaces.HitsAreOwnIff`, `Spaces.RefillIsGlobalIff`, `Pmap.GlobalWordsLeak`: the memory system calls
  take any of the twelve permission bits. A pair of pages mapped with PTE_G is matched for every space once it is
  cached. Counts, free list, page tables and the agreement of each space's own pairs hold for all
  of them; that no live space is served another's pages holds exactly without cached global pairs.
  `tlb_out`'s probe, too, matches by ASID only without PTE_G: with it, it may take out the other
  space's pair instead, where the model takes out the own one.
- `Ipc.SetStatusKeepsIff`, `Ipc.DuplicateFromBoot`, `Ipc.CorruptFromBoot`: `sys_set_env_status` does
  not look at whether its target is receiving or a zombie. Both runs begin at boot.
- `Sched.FairIff`, `Sched.FairInTimeIff`, `Sched.ZeroPriorityKeepsRunning`: priorities below 1 are
  accepted. With one of them in the list some env starves; without one none does. `count` is an int
  and would wrap after 2^31 ticks, so `FairInTimeIff` states the same within a window in which it
  does not.
- `Drain.EndOfFile`, `Drain.ZeroTooEarly`: `pipe_read` looks at the ring before it asks whether the pipe is closed, so a
  read can return 0 with bytes left: exactly those whose write was completed in between.
- `Disk.StaleIndirectBlock`, `Blocks.FileServer.FileMapBlock`, `Faults.StaleIndirectBlockHappens`:
  `map_block` does not clear a page that is still cached, so a new indirect block may come with old
  words in it, which are then taken for block numbers. This happens exactly when a file gets its
  indirect block and the next free block is cached with words in it (`Blocks.Breaks`), as after a file
  with data was emptied.
- `Blocks.FileServer.FileTruncate`, `Faults.GrownFilePanics`: the server panics exactly when there are blocks to clear and
  the old size goes past the last slot, or past the direct slots with no indirect block or with an
  uncached one that finds no memory (`Disk.TruncatePanics`).
- `Dirs.RemovedIsGone`, `Dirs.TwinSurvives`: a name that is twice in a directory is still found after
  its removal. The server makes no such names; the formatter does, given one name twice.
- `Pmap.Kernel.EnvAlloc`: with exactly one free frame the kernel stops in `page_free`'s assertion
  (kern/pmap.c:152); without a free ASID the two frames stay counted for nobody.
- `Elf.AddressSpace.LoadSeg`: for a segment that is not page aligned and whose file bytes end inside
  its first page, with memsz larger than filesz, the loop maps a fresh page over the bytes loaded.
  That goes unnoticed only if they are all zero, and what lies on a page that no call reaches is too.
- `Stack.InitStack`: `args[argc]` (user/lib/spawn.c:57-59) gets the address of the last byte of the
  page, though the comment says 0 (`Stack.LastIsNotNull`).
- `Resolve.ResolvePath`: for an empty path user/lib/path.c:16-19 writes two characters whatever
  `max_len` is; user/sh.c:117-179 checks.

## Model

| member | source | states |
|---|---|---|
| `Spaces.CountsMap` | kern/pmap.c:241-246 | Naming a frame by one more page-table word and adding one to its count keeps every count equal to the number of words and kernel holders that name the frame |
| `Spaces.CountsUnmap` | kern/pmap.c:283-311 | A mapped frame has a positive count, and unmapping one word with one decrement keeps every count exact |
| `Spaces.DecrefKeeps` | kern/pmap.c:283-290 | Starting from one count too many, page_decref makes all counts exact again, and it frees the frame if and only if no word and no kernel holder names it |
| `Spaces.RoleOfNamer` | kern/pmap.c:219-248 | A frame without a role is named by nothing, a user frame by no kernel holder, a kernel frame by no user word and by its one holder only |
| `Spaces.RemovedKeeps` | kern/pmap.c:295-311 | Unmapping page x removes exactly the translation of x, keeps the invariant (exact counts, free list without duplicates and only with unused frames, TLB coherent), and frees the frame exactly when x was the last word naming it |
| `Spaces.AddedKeeps` | kern/pmap.c:235-247 | Mapping an allocated or already mapped user frame where nothing is mapped keeps counts, free list and TLB agreement |
| `Spaces.RemappedKeeps` | kern/pmap.c:228-231 | Changing the permissions of a mapped page in place, with its TLB pair flushed, keeps the whole invariant |
| `Spaces.TakenKeeps` | kern/pmap.c:127-143 | The frame page_alloc hands out has count 0, is named by no word of any address space and by no kernel holder, and is off the free list |
| `Spaces.WalkedKeeps` | kern/pmap.c:175-205 | pgdir_walk with create adds at most the page table asked for, moves no user translation and no TLB pair, and fails exactly when the table is missing and no frame is free |
| `Spaces.ReleasedKeeps` | kern/env.c:452-459 | Giving up an empty page table, a directory without page tables or a variable table frees exactly that frame and moves no translation |
| `Spaces.ClosedSpaceIsNotCached` | kern/env.c:437-463 | When a space has no page table left, no TLB pair for a user page carries its ASID |
| `Spaces.TlbAgreesWithWalk` | kern/tlbex.c:48-66 | Whenever the TLB has a pair for a user page, the half for a mapped page has the frame number, V, D, G and cache bits of its page-table word, and the half for an unmapped page is invalid |
| `Spaces.HitsAreOwnIff` | kern/tlb_asm.S:31-51 | No live address space is served a user page from an entry made for another one, if and only if no pair of user pages is cached with both words global while another space is live |
| `Spaces.RefillIsGlobalIff` | kern/tlbex.c:60-65 | A refill caches a global pair if and only if the space maps both pages of the pair with PTE_G |
| `Spaces.GlobalPairsAreMapped` | kern/syscall_all.c:161-221 | A global pair is cached only for a space that mapped both its pages with PTE_G by system calls |
| `Vm.WalkFinds` | kern/pmap.c:256-276 | Reading the directory entry and then the table entry finds exactly the word the flat map of the space has for the page |
| `Vm.StoreWord` | kern/pmap.c:244-246 | A store through the two-level walk changes the translation of one page of one space and of no other page, and no directory |
| `Vm.LinkTable` | kern/pmap.c:189-195 | Hooking a cleared frame into a directory changes no translation of any space |
| `Vm.UnlinkTable` | kern/env.c:452-454 | Taking away a page table through which nothing is mapped changes no translation |
| `Vm.OpenDirectory` | kern/env.c:193-218 | A directory that is zero below UTOP opens a space that maps nothing, and disturbs no other space |
| `Machine.Readable` | kern/pmap.c:256-276 | In every reachable state the walk stays inside physical memory, a directory entry is 0 or valid, and a word is valid exactly when the page is mapped |
| `Machine.ClearedKeeps` | kern/pmap.c:225-241 | The preparation inside page_insert unmaps only x, leaves no TLB pair for it, keeps the count of the frame to be inserted, and gets a page table unless insertion fails |
| `Machine.InsertedKeeps` | kern/pmap.c:219-248 | page_insert changes the translation of exactly one page, or of none when it fails, in all three of its cases (new, replaced, same frame again), and keeps the invariant |
| `Machine.LetGoKeeps` | kern/env.c:430-461 | Letting go of a kernel frame nothing depends on keeps the invariant, frees that frame and changes no user mapping |
| `Machine.TwoReserved` | kern/env.c:193-218 | The two frames env_alloc takes are different, the first keeps what was written to it, and no mapping changes |
| `Machine.ClosedSpace` | kern/env.c:459-463 | A closed space leaves no mapping and no user TLB pair behind |
| `Pmap.Kernel.constructor` | kern/pmap.c:92-113 | page_init establishes the invariant; the free list holds exactly the frames from the first unused one on |
| `Pmap.Kernel.PageAlloc` | kern/pmap.c:127-143 | Fails exactly when no frame is free and then changes nothing; otherwise the frame is cleared and named by nothing, and the state is the specified one |
| `Pmap.Kernel.PgdirWalk` | kern/pmap.c:175-205 | Returns the address of the word that represents page x, makes a missing table only with create, and fails only for lack of frames |
| `Pmap.Kernel.PageLookup` | kern/pmap.c:256-276 | Finds the word of x exactly when the flat map has x, although it goes through two levels |
| `Pmap.Kernel.PageRemove` | kern/pmap.c:295-311 | Exactly x is unmapped, the invariant is kept, and the physical state is the one the specification of removal gives |
| `Pmap.Kernel.PageInsert` | kern/pmap.c:219-248 | For every 12-bit permission: succeeds unless a page table is needed and no frame is free; the map of all spaces changes at x on success and nowhere on failure; the word written has every permission bit asked for, PTE_V and the cacheable bits, and no other |
| `Pmap.Kernel.PassiveAlloc` | kern/tlbex.c:18-43 | Maps a frame that was free at x, valid, writable, not copy-on-write and not shared, or panics exactly for a low address, the invalid page above the stack or missing frames |
| `Pmap.Kernel.DoTlbRefill` | kern/tlbex.c:48-66 | The loop ends after at most one allocation; afterwards the TLB has, for x and its neighbour, the frame number and hardware bits of the page-table word, or an invalid half; it panics exactly when that one allocation fails |
| `Pmap.Kernel.AsidAlloc` | kern/env.c:29-40 | Gives an ASID below 256 that was not in use, or fails exactly when all are |
| `Pmap.Kernel.EnvAlloc` | kern/env.c:239-322 | A new space under an unused ASID that changes no mapping and no TLB pair; says for every number of free frames and ASIDs which of success, E_NO_MEM, E_NO_FREE_ENV or a failed assertion follows |
| `Pmap.Kernel.FreePde` | kern/env.c:437-457 | One round removes all pages of one page table and that table, and no page of any other table or space |
| `Pmap.Kernel.EnvFree` | kern/env.c:423-463 | All pages of the space go, every other space keeps exactly its own words, and no user TLB pair is left under the freed ASID |
| `Pmap.Kernel.SysMemAlloc` | kern/syscall_all.c:161-179 | On success page x is a frame that no page of any space named before, with the permission bits asked for; on failure no translation changes; the three results are characterised exactly |
| `Pmap.Kernel.SysMemMap` | kern/syscall_all.c:195-221 | dst becomes a second name for the frame of src, with the permission bits asked for, and nothing else changes, or nothing changes; the three results are characterised exactly |
| `Pmap.Kernel.SysMemUnmap` | kern/syscall_all.c:233-247 | Exactly x is unmapped, with the invariant kept, or the address is illegal and nothing happens |
| `Pmap.GlobalWordsLeak` | kern/syscall_all.c:161-179 | From boot, two new address spaces, two sys_mem_alloc with PTE_G and one refill reach a state in which the processor serves the second space a page of the first where it has nothing mapped |
| `Cow.StepKeeps` | user/lib/fork.c:16-99 | Every atomic step of any env (system call, store, one copied byte, part of cow_entry or duppage) keeps the sharing invariant: a frame writable as private memory is visible in no other env |
| `Cow.CopyIsUndisturbed` | user/lib/fork.c:33-43 | While an env copies in cow_entry, no other env can write the page it copies from or the page it fills |
| `Cow.CowRefinesEagerCopy` | user/lib/fork.c:16-99 | Each step changes what every env sees, and which pages it can store to, exactly as the machine in which duppage makes a private copy at once and pages with PTE_LIBRARY are shared |
| `Cow.RunRefinesEagerCopy` | user/lib/fork.c:16-156 | Over whole runs at any interleaving, the memory seen by every env, and whether it can store there, is that of the eagerly copying machine |
| `Cow.ReadsAgree` | user/lib/fork.c:16-47 | A running env reads, byte for byte, what the eagerly copying machine holds |
| `Cow.StoresAgree` | user/lib/fork.c:16-47 | A running env can store to a page, at once or by way of cow_entry, if and only if the eagerly copying machine has the page writable |
| `Cow.PrivatePagesAreIsolated` | user/lib/fork.c:49-99 | A private page keeps its bytes over every run without an operation on that very page: writes of parents, children and siblings never show |
| `Cow.DestroyedIsGone` | kern/env.c:423-463 | Of a destroyed env nothing is mapped, it runs no more, and its number can be given to a child |
| `Cow.StaleDuppage` | user/lib/fork.c:79-89 | When duppage hands on permissions that are out of date, a store of the caller shows in the child if and only if the caller's page is writable by now |
| `Cow.DoomedToLeak` | user/lib/fork.c:16-99 | Once e has taken a write fault on the page whose permissions its duppage has read, no step of any env averts that duppage hands on the stale permissions and leaves the page shared and writable |
| `Cow.BrokenGuardLeaks` | user/lib/fork.c:79-89 | In every run, whatever happens in between: if the guard is broken, then when that duppage maps its page, parent and child share a page that the parent may write |
| `Cow.GuardedRunsDoNotLeak` | user/lib/fork.c:79-99 | A run that respects the guard leads to no such state |
| `Cow.GuardIsNeeded` | user/lib/fork.c:79-96 | Such runs exist: from a correct state one write fault between the permission read and the mapping leads there |
| `Fork.System.CowEntry` | user/lib/fork.c:16-47 | The faulting page gets a frame of its own, is writable and no longer copy-on-write, the rest of the page tables is as before, and no env sees any change |
| `Fork.System.Duppage` | user/lib/fork.c:70-99 | For each kind of page (read-only, library, already copy-on-write, writable) the child sees a copy of the page and nothing else changes for anyone; parent and child can each store to it exactly if the parent could, directly only if it is a library page |
| `Fork.System.DupTable` | user/lib/fork.c:133-145 | The inner loop extends the cloned part by exactly the pages of one page table below USTACKTOP, each handed on as duppage does |
| `Fork.System.Fork` | user/lib/fork.c:112-156 | Afterwards the child sees a copy of every page of its parent below USTACKTOP and no other page, everyone else sees what they saw before, and both run; parent and child can store to a page exactly if the parent could, directly only to library pages |
| `Coupling.StepIsCall` | user/lib/fork.c:16-99 | Each change of the copy-on-write machine's page tables is the change that its system call or TLB refill makes to the kernel's map, permission bits included |
| `Coupling.FreeIsFresh` | kern/pmap.c:127-143 | The head of the kernel's free list is a frame that the machine maps nowhere, so an allocation of the machine may take it |
| `Coupling.Perform` | kern/syscall_all.c:161-247 | Done by the kernel, a call succeeds unless its address is illegal or a frame is missing, stated per call; success changes the map as specified and a failed system call changes nothing, with the kernel's invariant kept |
| `Coupling.Simulate` | user/lib/fork.c:16-99 | Carried out by the kernel, which it can be exactly when the call does not fail, a step leaves page tables that match the machine's, every TLB pair with their frames and hardware bits, and what the envs see as in the eagerly copying machine |
| `Pipe.StepKeeps` | user/lib/pipe.c:132-201 | Every single load and store of reader and writer keeps the ring invariant, whatever the interleaving |
| `Pipe.Wrapped` | user/lib/pipe.c:148-149 | Comparing, subtracting and indexing with 32-bit counters that wrap agrees with the true totals as long as these are at most 32 apart |
| `Pipe.ContentsAreInFlight` | user/lib/pipe.c:22-26 | The bytes that the wrapped counters delimit in the ring are exactly the bytes written and not yet read, in order |
| `Pipe.Fifo` | user/lib/pipe.c:132-201 | In every run of a new pipe the bytes read are a prefix of the bytes written, the rest is the ring contents, occupancy is at most 32, and each finished call moved exactly the number of bytes it returned |
| `Pipe.ShortRead` | user/lib/pipe.c:147-157 | In every run a read that returns fewer bytes than asked found the ring empty at its last look, and had some bytes or was told that the pipe is closed |
| `Pipe.FullRead` | user/lib/pipe.c:147-157 | With n bytes in the ring a read of n returns exactly the n oldest, after 7n + 1 accesses of its own, whatever the writer does in between |
| `Pipe.EmptyRing` | user/lib/pipe.c:148-153 | On a ring that stays empty a read returns what it has if that is something or it is told that the pipe is closed, and otherwise looks again |
| `Pipe.FullWrite` | user/lib/pipe.c:184-199 | With room for n bytes a write of n puts exactly these behind those in the ring and returns n, after 7n + 1 accesses of its own, whatever the reader does in between |
| `Pipe.FullRing` | user/lib/pipe.c:185-192 | On a ring that stays full a write returns what it wrote if it is told that the pipe is closed, and otherwise looks again |
| `Pipe.ShortWriteMeansClosed` | user/lib/pipe.c:184-192 | A write returns fewer bytes than asked only when it was told that the pipe is closed |
| `PipeEnds.ClosingIsSafe` | user/lib/fd.c:94-106 | close, one unmapping at a time, never leaves an end of the pipe mapped without the pipe page beside it |
| `PipeEnds.CloseIsSafe` | user/lib/pipe.c:238-244 | The same for close alone, from any table in which nothing is under way |
| `PipeEnds.DupIsSafe` | user/lib/fd.c:128-181 | dup, with its close of the new descriptor and its undoing on failure, never leaves an end of the pipe mapped without the pipe page beside it |
| `PipeEnds.CloseClears` | user/lib/fd.c:94-106 | close, whatever the descriptor was, and the undoing in dup leave exactly that descriptor empty and every other as it was |
| `PipeEnds.DupDuplicates` | user/lib/fd.c:128-181 | After dup the new descriptor is the same end with the same data as the old one, whatever it was before, and every other is as it was |
| `PipeEnds.CloseRuns` | user/lib/fd.c:94-106 | A close that is not preempted leaves its env with exactly that descriptor empty, and every other env as it was |
| `PipeEnds.DupRuns` | user/lib/fd.c:128-181 | A dup that is not preempted and finds memory leaves its env with the same end and data at the new descriptor, and everything else as it was |
| `PipeEnds.EitherMappingMayFail` | user/lib/fd.c:147-181 | Either mapping of dup may fail, and its error exit unmaps both pages of the new descriptor |
| `PipeEnds.FdFirstIsUnsafe` | user/lib/fd.c:147-169 | The order data page before Fd page is needed: the other order is unsafe for each end of the pipe |
| `PipeEnds.StepKeeps` | user/lib/pipe.c:95-117 | Every system call of any process, of close and dup among others, and every load of _pipe_is_closed keeps the invariant on descriptor tables and sampled counts |
| `PipeEnds.ExitReleases` | kern/env.c:423-463 | An exit gives up exactly what the env has mapped, so both counts go down by its share |
| `PipeEnds.PipeCounts` | user/lib/pageref.c:14-30 | refs(pipe) is at least refs(read Fd) + refs(write Fd), with equality when no close or dup is under way |
| `PipeEnds.NoFalseClose` | user/lib/pipe.c:95-117 | When _pipe_is_closed answers 1 the other end is mapped nowhere, and when no close or dup is under way it answers 1 exactly then |
| `PipeEnds.QuestionIsAnswered` | user/lib/pipe.c:107-116 | An asker that is not preempted is answered after four accesses, and when no close or dup is under way the answer is right both ways |
| `PipeEnds.AskedAgainIfPreempted` | user/lib/pipe.c:110-114 | While it asks, an env either goes on or is preempted; it samples again exactly if it was scheduled anew in between |
| `PipeEnds.EndOfPipeIsTrue` | user/lib/pipe.c:95-117 | After any sequence of system calls and schedulings a slot mapped to an end has the pipe beside it, and an answer that the pipe is closed stays true for ever |
| `Drain.StepKeeps` | user/lib/pipe.c:132-159 | Bytes and ends together, at any interleaving of accesses, system calls and the loads of _pipe_is_closed: an answer the reader acts on means that no write end is left |
| `Drain.NothingMore` | user/lib/pipe.c:172-201 | With no write end left, nothing is written in any run |
| `Drain.EndOfFile` | user/lib/pipe.c:132-159 | When a read returns 0, every byte written before its last look at the ring has been read, nothing is ever written again, and the pipe is drained for good if and only if no write was completed between that look and the answer that the pipe is closed |
| `Drain.ZeroTooEarly` | user/lib/pipe.c:148-156 | There is such a run: look, one byte written and the write end closed meanwhile, ask, return 0 with the byte left in the pipe |
| `Sched.Scheduler.Schedule` | kern/sched.c:17-51 | Panics exactly when the list is empty; a switch, whatever its cause, runs the head of the list with its priority less one in count, the env switched from having gone to the tail; otherwise count goes down by one; validity (current env is the head, with slices left) is kept |
| `Sched.RotatedIsRotated` | kern/sched.c:38-42 | In a valid queue, removing the current env and appending it is a rotation of the list |
| `Sched.ActedKeeps` | kern/sched.c:17-51 | Ticks, yields, blocking, waking and stopping keep the runnable current env at the head, with at least one and at most its priority in slices |
| `Sched.ActShortensWait` | kern/sched.c:17-51 | Nothing that happens to others ever lengthens the wait of a listed env, and each call of schedule runs it or shortens the wait by one |
| `Sched.BoundedWaiting` | kern/sched.c:17-51 | A listed env at position k runs within count + the priorities strictly between it and the head + 1 calls of schedule, whatever blocks, yields or joins meanwhile |
| `Sched.WholeTurn` | kern/sched.c:38-50 | However an env came to run (a tick, a yield or a block), it runs until exactly as many ticks have come as its priority says, whatever joins or leaves the list, and then the next one of the list does |
| `Sched.RanIsTimeline` | kern/sched.c:17-51 | With only timer ticks the envs run in exactly the order of the weighted rounds |
| `Sched.ExactShare` | kern/sched.c:17-51 | In every window of as many ticks as the priorities add up to, wherever it begins, each env runs exactly its priority |
| `Sched.FairIff` | kern/sched.c:38-50 | With only timer ticks, every env of a list of two or more runs again and again if and only if every listed priority is at least 1 |
| `Sched.FairInTimeIff` | kern/sched.c:38-50 | Every env runs within Total + 1 ticks from each of the next Total + 2 moments if and only if all priorities are at least 1, and until then count stays within an int |
| `Sched.ZeroStays` | kern/sched.c:38-50 | Once an env of priority 0 runs, it runs at every later tick |
| `Sched.ZeroPriorityKeepsRunning` | kern/sched.c:38-50 | A switch to an env of priority 0 makes count -1, and that env is not preempted by the next 2^31 - 1 ticks |
| `Ipc.StepKeeps` | kern/syscall_all.c:263-447 | Each step of create, exofork, set_env_status, recv, send, exit and preemption keeps list, status and message invariants, given the guard on set_env_status |
| `Ipc.SetStatusKeepsIff` | kern/syscall_all.c:294-320 | sys_set_env_status keeps the invariant if and only if it does not make a receiving env runnable and does not stop a zombie |
| `Ipc.WakingAReceiverDuplicatesIt` | kern/syscall_all.c:294-320 | What the missing check costs: after a parent makes its receiving child runnable, the next message puts the child in env_sched_list a second time |
| `Ipc.DuplicateFromBoot` | kern/syscall_all.c:294-320 | A run from boot in which this happens |
| `Ipc.CorruptFromBoot` | kern/syscall_all.c:294-320 | A run from boot in which a parent stops its exited child and an env is removed from a list it is not in |
| `Ipc.ListAndMessages` | user/lib/ipc.c:12-39 | In every run from boot env_sched_list holds each runnable env exactly once and no other, and each accepted message is returned by exactly one ipc_recv, in order and unchanged, or is the one about to be returned |
| `Ipc.ReceivedIsSent` | kern/syscall_all.c:405-447 | What an env returned from ipc_recv, with the message about to be returned, is in every run what was sent to it while it was receiving: sender, value and order |
| `Ipc.LoadsReturn` | user/lib/ipc.c:26-39 | Back from the system call, an env has returned everything accepted for it after its next two loads |
| `Ipc.StepIsAct` | kern/syscall_all.c:263-447 | Each system call changes schedule list, current env, slices and priorities as one act of the scheduler does, or not at all: a woken env goes to the tail, one that blocks gives way |
| `Ipc.NobodyStarves` | kern/sched.c:17-51 | Whatever the envs send, receive, fork and end, a runnable env runs within Wait calls of schedule, unless it is stopped |
| `Ipc.FamiliesShareOnePriority` | kern/syscall_all.c:263-280 | In every run a forked env has the priority of its parent |
| `Ipc.Kernel.EnvCreate` | kern/env.c:403-418 | The new env joins the head of the list and the invariant holds |
| `Ipc.Kernel.SysExofork` | kern/syscall_all.c:263-280 | The child is not runnable, has its parent's priority and is not listed; the invariant holds |
| `Ipc.Kernel.SysSetEnvStatus` | kern/syscall_all.c:294-320 | Each error result is characterised, an error changes nothing, and on success the invariant holds if and only if the guard held |
| `Ipc.Kernel.SysIpcRecv` | kern/syscall_all.c:367-387 | The caller leaves the list and blocks, the next env runs, and the invariant holds |
| `Ipc.Kernel.SysIpcTrySend` | kern/syscall_all.c:405-447 | A send is accepted exactly by a receiving env, adds exactly one message for it and lists it; a refused send changes nothing |
| `Ipc.Kernel.SysExit` | kern/syscall_all.c:73-109 | The exiting env leaves the list as a zombie, another runs, and the invariant holds |
| `Queue.ListInsertHead` | include/queue.h:142-148 | From a list of s the pointers become those of [elm] + s, writing only the head, elm and the old first node |
| `Queue.ListRemove` | include/queue.h:156-161 | Removing any member k of s gives the list of s without position k, writing only its neighbours |
| `Queue.ListInsertAfter` | include/queue.h:115-123 | elm stands right behind listelm and everything else is in order |
| `Queue.ListInsertBefore` | include/queue.h:130-136 | elm stands right before listelm, also when that was the first |
| `Queue.TailInit` | include/queue.h:190-194 | The queue is empty and its end is its head |
| `Queue.TailInsertHead` | include/queue.h:196-204 | elm is first, and tqh_last is right also when the queue was empty |
| `Queue.TailInsertTail` | include/queue.h:206-212 | elm is last, and tqh_last addresses its next pointer |
| `Queue.TailInsertAfter` | include/queue.h:214-222 | elm stands right behind listelm, and tqh_last is right also when that was the last |
| `Queue.TailInsertBefore` | include/queue.h:224-230 | elm stands right before listelm, also when that was the first, and tqh_last stays right |
| `Queue.TailRemove` | include/queue.h:232-239 | Any member, first, middle or last, is taken out, and tqh_last is right |
| `Queue.TailConcat` | include/queue.h:248-256 | The first queue becomes s + t and the second is empty |
| `Queue.Foreach` | include/queue.h:241-242 | Following the next pointers visits exactly the sequence |
| `Queue.ChainIsUnique` | include/queue.h:69-73 | The pointers determine the sequence: one head leads to one sequence only |
| `Queue.ChainsAreDisjoint` | include/queue.h:69-73 | Two lists that share a node are the same list, so what an operation writes belongs to no other list |
| `Bitmap.BitAfter` | fs/fs.c:183-192 | Setting or clearing the bit of one block changes the bit of no other block |
| `Disk.SlotsDistinct` | fs/fs.c:350-385 | Under the ownership invariant the block numbers in two different slots of any files (direct, indirect pointer, indirect) are different, in range and marked used |
| `Disk.AttachedKeeps` | fs/fs.c:360-371 | Putting a free block into an empty slot keeps the ownership; for an indirect block, if it holds no numbers itself |
| `Disk.DetachedKeeps` | fs/fs.c:434-437 | Freeing the block of a slot and clearing the slot keeps the ownership, and exactly that block becomes free |
| `Disk.StrayNumber` | fs/fs.c:350-385 | A slot that holds a number for which no block was taken leaves no assignment of blocks to slots in which every block has one owner |
| `Disk.StaleIndirectBlock` | fs/fs.c:136-145 | Taking block b as indirect block keeps the ownership if its page holds no numbers, and leaves no possible ownership if it does |
| `Disk.TruncatedFrees` | fs/fs.c:693-717 | After truncation a block is free exactly if it was free before or its owner slot is past the new size |
| `Disk.TruncatedBySteps` | fs/fs.c:703-716 | Clearing the data slots, then the indirect pointer, then setting the size amounts to truncation, in both branches |
| `Blocks.FileServer.FreeBlock` | fs/fs.c:183-192 | The block becomes free, except block 0 and blocks past the disk |
| `Blocks.FileServer.AllocBlockNum` | fs/fs.c:200-213 | Takes the lowest free block from 3 on, or there is none |
| `Blocks.FileServer.AllocBlock` | fs/fs.c:217-233 | A free block with a page; without memory it is free again; a page that was cached keeps its old contents |
| `Blocks.FileServer.FileBlockWalk` | fs/fs.c:350-385 | The slot found is the one for that block of the file; at most the indirect pointer of that file changes; every error is characterised; every block keeps one owner except exactly when an indirect block is made of a block cached with numbers in it |
| `Blocks.FileServer.MapSlot` | fs/fs.c:407-421 | The block of the slot; an empty slot gets a free block exactly when asked to; an error changes nothing |
| `Blocks.FileServer.FileMapBlock` | fs/fs.c:398-422 | On success the slot holds the block, only blocks now in this slot or its indirect pointer left the free list, and no slot of any file changed otherwise; in the one case in which ownership is lost, a number left over in the new indirect block is returned as the file's block |
| `Blocks.FileServer.FileClearBlock` | fs/fs.c:426-440 | The block of the slot is free again and no other slot changes; every error is characterised |
| `Blocks.FileServer.FileTruncate` | fs/fs.c:693-717 | Panics exactly when TruncatePanics; otherwise the slots past the new size are empty, exactly their blocks are free besides, and every other slot is as it was |
| `Blocks.FileServer.FileSetSize` | fs/fs.c:721-733 | Growing changes the size only; shrinking truncates; nothing is in use past the size afterwards; panics exactly when the truncation does |
| `Faults.StaleIndirectBlockHappens` | fs/fs.c:136-145 | A run from a formatted disk: a file grows, gets a block of data, is emptied, and gets a block past its direct slots; then no ownership of blocks is left |
| `Faults.GrownFilePanics` | fs/fs.c:693-733 | A run from a formatted disk: a file made larger than its direct slots, without blocks, and emptied again stops the server |
| `Format.InitBitmap` | tools/fsformat.c:115-125 | The bitmap has a 1 for every block of the disk and for no bit past it |
| `Format.Formatter.constructor` | tools/fsformat.c:105-133 | init_disk establishes the ownership invariant with an empty root directory |
| `Format.Formatter.NextBlock` | tools/fsformat.c:136-139 | The block handed out was free, and the free blocks are those from the new nextbno on |
| `Format.Formatter.SaveBlockLink` | tools/fsformat.c:173-185 | The block is in its slot, a new indirect block is made exactly when one is needed, no slot of another file changes, no block has two owners; fails exactly past the last slot |
| `Format.Formatter.MakeLinkBlock` | tools/fsformat.c:188-193 | The directory is one block larger, the block is in the slot for its index, and its files are unused |
| `Format.AllHoldsKept` | tools/fsformat.c:173-185 | Linking a block into an empty slot disturbs the contents of no block of any file that could be read before |
| `Format.DirHasRoom` | tools/fsformat.c:208-243 | A directory never has all its slots in use, since the disk has fewer blocks than a directory has slots |
| `Format.Formatter.CreateFile` | tools/fsformat.c:208-243 | Returns a file of the directory that is not in use, always; everything readable stays readable |
| `Format.Formatter.WriteFile` | tools/fsformat.c:246-275 | Walking the slots of the new file as the server does finds, block by block, what the host file held, nothing is in use past its size, and every other file stays readable as before |
| `Format.Formatter.MakeDirectory` | tools/fsformat.c:284-298 | The new directory is empty and satisfies the directory invariant; everything readable stays readable |
| `Format.Formatter.WriteHost` | tools/fsformat.c:246-311 | A host file or directory tree of any depth that fits on the disk: exactly its regular files, in order, lie in different files that were not in use, with their sizes and contents |
| `Format.Formatter.FlushBitmap` | tools/fsformat.c:142-149 | A bit below NBLOCK is clear exactly for the blocks before nextbno |
| `Format.Mount` | fs/fs.c:271-294 | The file server started on a finished image satisfies its own invariant, sees the same slots, and finds no slot of any file used past its size |
| `Format.FormatAndMount` | tools/fsformat.c:313-343 | A whole run of fsformat on whatever fits on the disk: the file server finds every regular file of the host, in a file of its own, with size and contents, and can truncate it to any size |
| `Names.ComponentsAreNames` | fs/fs.c:587-601 | The components looked up are never empty and hold no slash, so no lookup matches a free struct File |
| `Dirs.LookupFinds` | fs/fs.c:485-510 | What dir_lookup finds lies in the directory and has the name; if it finds nothing, no file of the directory has it |
| `Dirs.LookupAfterNaming` | fs/fs.c:670-676 | Naming an unused struct File changes the lookup of that name in that directory and of no other name or directory |
| `Dirs.CreatedIsFound` | fs/fs.c:648-678 | After the missing last component has been created, the same walk finds that file in that directory |
| `Dirs.CreatingHidesNothing` | fs/fs.c:648-678 | Every path that led to a file before a creation leads to the same file afterwards |
| `Dirs.LookupAfterGrowth` | fs/fs.c:539-548 | A new directory block full of unused files is seen by no lookup of a nonempty name |
| `Dirs.NoWayBack` | fs/fs.c:587-621 | A walk from the root never meets the same file twice |
| `Dirs.RemovedIsGone` | fs/fs.c:800-822 | After removal the walk of the same path misses exactly its last component if no other file of the directory has the name, and finds that other file if one has |
| `Dirs.RemovingHidesNothingElse` | fs/fs.c:800-822 | A path that does not lead through the removed file leads where it led |
| `Dirs.RemovedIsEmpty` | fs/fs.c:809-813 | Nothing is found in a removed directory, also when its struct File is used again |
| `Dirs.NoTwinsAfterCreation` | fs/fs.c:648-678 | Creation never puts a name into a directory twice |
| `Dirs.TwinSurvives` | tools/fsformat.c:246-264 | The formatter, which does not look, can: given one name twice, a removed path is still found |
| `Dirs.DirServer.DirLookup` | fs/fs.c:485-510 | The two loops find the first place with the name, or none |
| `Dirs.DirServer.WalkPath` | fs/fs.c:568-629 | The in-place scan of the path looks up exactly its nonempty components, in order, with all three kinds of failure |
| `Dirs.DirServer.DirAllocFile` | fs/fs.c:515-549 | The file returned is unused and of that directory; the directory grows only when all its files are used |
| `Dirs.DirServer.FileCreate` | fs/fs.c:648-678 | On success the same path walks to the new file and every other path leads where it led; each result is characterised; errors change nothing |
| `Dirs.DirServer.FileRemove` | fs/fs.c:800-822 | On success the path misses its last component exactly when no other file there had the name, so always if no directory had a name twice, which stays so; every path that does not lead through the file leads where it led, and nothing is found in the file afterwards; errors change nothing |
| `Resolve.ComponentsOfJoin` | fs/fs.c:587-601 | walk_path splits a canonical path name into exactly the components it was joined from |
| `Resolve.ResolvedIsPlain` | user/lib/path.c:6-76 | A result has no empty, "." or ".." component, no slash inside one, no trailing slash except the root's, and fits |
| `Resolve.ResolveIsIdempotent` | user/lib/path.c:6-76 | Resolving a result again, from any directory, gives it back, and walk_path splits it into the same components |
| `Resolve.GoUp` | user/lib/path.c:48-56 | Cutting the buffer at the last slash is dropping the last component, and the root stays the root |
| `Resolve.Append` | user/lib/path.c:57-69 | Appending succeeds exactly if the longer path name fits, and the buffer then holds it |
| `Resolve.ResolvePath` | user/lib/path.c:6-76 | Succeeds exactly if the components of the path resolve within max characters, and the buffer then holds the canonical path name; memory past max is untouched if and only if the path is not empty, max is at least 2, or it held the same characters already |
| `Resolve.ResolvePathSh` | user/sh.c:117-179 | The shell's own implementation computes the same, except for an empty path in too short a buffer |
| `Resolve.RelativeIsBelowCwd` | user/lib/path.c:21-30 | A relative path resolves to what it resolves to when written behind the name of the current directory, error for error |
| `Resolve.ParentUndoesChild` | user/lib/path.c:48-69 | Going down to a directory that fits and up again is staying, and the root is its own parent |
| `Resolve.ResolvesIff` | user/lib/path.c:32-76 | A list of components resolves if and only if none is too long and the name fits wherever it goes down, and then to the directory its last component leads to from the one before |
| `Resolve.DotChangesNothing` | user/lib/path.c:44-47 | A . component changes nothing, wherever it stands in a path name, error for error |
| `Editor.MemMove` | lib/string.c:101-121 | The bytes arrive as they were before the call however source and destination overlap, and nothing else changes |
| `Editor.HistoryIsTheLast` | user/lib/shellio.c:65-77 | The history is the last 20 commands added, without empty ones and adjacent repeats |
| `Editor.UpThenDownRestores` | user/lib/shellio.c:137-157 | Any number of Up keys followed by at least as many Down keys gives back the unfinished line |
| `Editor.UpShows` | user/lib/shellio.c:137-148 | k Up keys from the unfinished line show the k-th newest command |
| `Editor.MovesKeepText` | user/lib/shellio.c:158-180 | Left, Right, Home and End keep the text of the line |
| `Editor.MovesAreInverse` | user/lib/shellio.c:158-168 | Left and Right undo each other |
| `Editor.BackspaceUndoesChar` | user/lib/shellio.c:115-124 | Backspace undoes a character that was taken |
| `Editor.TypedAppears` | user/lib/shellio.c:215-223 | Printable text typed appears at the cursor, as far as there is room, and nothing else moves |
| `Editor.TypedIsRead` | user/lib/shellio.c:96-226 | A line typed into an empty editor is read as typed |
| `Editor.OthersAreNotTaken` | user/lib/shellio.c:215-223 | A character that is not printable is not taken |
| `Editor.KillsAreHalves` | user/lib/shellio.c:182-195 | What Ctrl-K leaves and what Ctrl-U leaves make up the line; at the beginning of the line Ctrl-U does nothing and Ctrl-K takes all, at its end the other way round |
| `Editor.HomeIsLefts` | user/lib/shellio.c:170-174 | Home is Left as often as it goes |
| `Editor.EndIsRights` | user/lib/shellio.c:175-180 | End is Right as often as it goes |
| `Editor.KillWordTakesOneWord` | user/lib/shellio.c:197-213 | What Ctrl-W takes is one whole word and the blanks behind it, up to the cursor, and nothing else |
| `Editor.RingAdd` | user/lib/shellio.c:69-75 | Writing at the tail and moving tail, count and head appends to the list of commands and drops the oldest of 21 |
| `Editor.LineEditor.HistoryAdd` | user/lib/shellio.c:65-77 | Whatever entry is being shown, the ring represents the history with the command added, and line, position in the history and saved line are untouched |
| `Editor.Clean` | user/sh.c:611-625 | The scan for a comment and the scan back over white space leave the line without its comment and the white space at its end |
| `Editor.CleanedShape` | user/sh.c:611-625 | What is recorded is a prefix of the line with no # in it and no white space at its end, and what was cut off is white space up to a #, if there is one |
| `Editor.SessionHistory` | user/lib/shellio.c:65-77 | After any number of lines, edited anyhow and ended while any entry was shown, the history is the last 20 of the lines entered, without empty ones and adjacent repeats |
| `Editor.Session` | user/sh.c:602-629 | Reading, cleaning and recording line after line does this to the ring |
| `Editor.LineEditor.Insert` | user/lib/shellio.c:215-223 | A printable character goes before the cursor if there is room, and otherwise nothing happens; cursor, length and terminator stay right |
| `Editor.LineEditor.DeleteBack` | user/lib/shellio.c:116-124 | The character before the cursor goes, if there is one |
| `Editor.LineEditor.DeleteLeft` | user/lib/shellio.c:188-195 | Everything before the cursor goes and what follows it stays |
| `Editor.LineEditor.DeleteRight` | user/lib/shellio.c:182-186 | Everything from the cursor on goes |
| `Editor.LineEditor.DeleteWord` | user/lib/shellio.c:197-213 | The blanks before the cursor and the word before them go |
| `Editor.LineEditor.HistoryUp` | user/lib/shellio.c:137-148 | One step back; the unfinished line is kept when it is left |
| `Editor.LineEditor.HistoryDown` | user/lib/shellio.c:149-157 | One step forward, and back to the kept line at the end |
| `Editor.LineEditor.PressKey` | user/lib/shellio.c:115-224 | For every key the buffer, cursor and ring do what the key means for a line split at the cursor and a list of commands; 0 <= cursor <= len < 1024 and the terminator at len are kept |
| `Editor.LineEditor.Readline` | user/lib/shellio.c:96-226 | The line returned is what all keys before Enter make of an empty line, cut to the caller's buffer |
| `Chain.LoopRunsAndOrLists` | user/sh.c:659-747 | For every outcome of every command, the flag should_run and the last status execute exactly the commands of the left-associative AND-OR lists (POSIX.1-2017 XCU section 2.9.3), in order, with their last status |
| `Chain.ListsAreTraced` | user/sh.c:691-747 | What a line executes are commands of the line in order, beginning with the first; none runs after one that ended the shell, and the last status is that of the last one |
| `Chain.StrStr` | user/sh.c:492-508 | The first occurrence of the needle, or none |
| `Chain.NextSeparator` | user/sh.c:670-685 | The smallest of the three search results is the first separator, with its width |
| `Chain.SplittingIsInverse` | user/sh.c:664-690 | Splitting a line written from any chain of simple commands and separators, with any white space before the commands, gives back exactly these commands and separators |
| `Chain.Decide` | user/sh.c:734-742 | should_run is set as the separator found and the last status say |
| `Chain.Round` | user/sh.c:664-747 | What the rest of the line will execute is the same before and after a round, and the line gets shorter |
| `Chain.Scan` | user/sh.c:664-690 | One round of the loop cuts off exactly the next command and its separator |
| `Chain.RunLine` | user/sh.c:659-747 | The loop ends and executes what the AND-OR lists of the line say |
| `Elf.AddressSpace.LoadSeg` | lib/elfloader.c:25-60 | Succeeds if and only if each of the Calls(va, bin, memsz) calls of the mapper does; then, whatever was mapped before, the file bytes are at va and zeros behind them up to memsz (System V gABI chapter 5, Program Header) if and only if va is page aligned, or the file bytes reach the end of the first page, or filesz = memsz, or all file bytes are zero and the segment reads zero already on a page that no call reaches; no page outside the segment changes |
| `Elf.CallsArePages` | lib/elfloader.c:34-59 | The mapper is called once for each page of the segment, unless the segment is short: then once for its first page and as often as its zero tail, counted from its last byte, needs |
| `Elf.ShortDone` | lib/elfloader.c:45-59 | A short unaligned segment whose tail has been mapped reads zero except on a page that no call has reached |
| `Stack.Offsets` | user/lib/spawn.c:15-27 | If the size check passes, strings, pointers, argc and argv lie in the page in this order without overlap or underflow |
| `Stack.FitsIff` | user/lib/spawn.c:22-28 | The size check passes exactly if below the vector there is room for argc and argv |
| `Stack.CopyStrings` | user/lib/spawn.c:33-46 | Every string lies, terminated, at its offset, none overwriting another |
| `Stack.StorePointers` | user/lib/spawn.c:48-59 | Each pointer of the vector is the child's address of its string, the strings stay as they are, and args[argc] is the address of the last byte of the page, never 0 |
| `Stack.InitStack` | user/lib/spawn.c:8-86 | Fails exactly when strings and words do not fit; otherwise what user/lib/entry.S loads from the stack pointer is argc and a vector leading to exactly the argument strings, followed by a word that is not 0 |
| `PrintNum.DigitsRoundTrip` | lib/print.c:227-237 | The digits of a number in any base from 2 to 16 have that number as their value |
| `PrintNum.DigitsAreCanonical` | lib/print.c:227-237 | Digits of the base only, letters in the case asked for, and no zero in front except that of zero itself |
| `PrintNum.PrintedLayout` | lib/print.c:239-283 | Where sign, digits and padding stand: digits first and then spaces with ladjust; otherwise last, behind the padding, but with the minus before padding by zeros |
| `PrintNum.PrintedRoundTrip` | lib/print.c:210-283 | Stripping the padding and parsing gives back number and sign, for every width, adjustment and padding with spaces or zeros |
| `PrintNum.PrintedLength` | lib/print.c:223-247 | The output has length max(width, digits + sign), with at most 33 characters of sign and digits for a 32-bit magnitude |
| `PrintNum.BackwardsIsReverse` | lib/print.c:227-237 | What the digit loop writes is the number backwards |
| `PrintNum.ReverseInPlace` | lib/print.c:264-280 | The swapping loop reverses the given part of the buffer and leaves the rest |
| `PrintNum.PrintNum` | lib/print.c:210-283 | The buffer of width + 70 is never exceeded and the output is sign, digits and padding as specified |

## Left out

Parts of the repository:

- Devices, console, assembly entry and exit, `printk`, terminal redraw, escape-sequence decoding.
- The file server's message loop and its clients; most small user programs.
- The kernel's UPAGES, UENVS and UVPT windows; cwd and variables of an env beyond the one page that
  holds them; `envid2env` and the env free list; the zero entry `tlb_out` leaves behind.
- Reaping of zombies: `env_free` removes an env from the schedule list that has left it already
  (kern/env.c:467), so it is modelled for pages, ASID and TLB only.
- Sending a page by IPC, and IPC errors after the receiver was woken (kern/syscall_all.c:425-444).
- Crash consistency of the disk: dirty flags and the order of writes.
- `history_load` and `history_save`, variable expansion, redirection.

Weaker than the code, or with an assumption:

- Pmap.Kernel.SysMemMap: counts that grow stay below 2^16, the width of `pp_ref`; permissions are below 4096, although the code ORs in the argument unmasked.
- Pmap.Kernel.PageInsert: the same.
- Pmap.Kernel.SysMemAlloc: permissions are below 4096; when page_insert fails the frame stays off the free list with count 0, as in the code; it is in nobody's count, and no claim is made that such a frame returns.
- Pmap.Kernel.EnvAlloc: which env structure is taken, its registers, and the failure for want of one are not modelled.
- Pmap.Kernel.EnvFree: the env free list and the schedule list are not modelled here.
- Pmap.Kernel.DoTlbRefill: for user pages below UTOP only; the entry tlbwr replaces is a parameter.
- Coupling.Simulate: a refill that fails is a kernel panic; permissions are below 4096.
- Cow.RunRefinesEagerCopy: assumes `Guard` (see above), and system calls that find memory; sharing by sys_mem_map outside fork is modelled for PTE_LIBRARY pages only; an env does not exit while it builds a child; the page at UCOW is private to the fault handler.
- Fork.System.Fork: one fork from beginning to end, without other envs between its steps; `Cow.RunRefinesEagerCopy` covers the interleavings.
- Pipe.Fifo: one reader and one writer; `_pipe_is_closed` may answer anything here; `Drain` has its real answers.
- Drain.EndOfFile: the reader is the one env that asks, about its read end, and only in `pipe_read`.
- PipeEnds.EndOfPipeIsTrue: fork and spawn are no steps, since they copy Fd pages before data pages; the data area of a descriptor is its first page; `env_runs` is unbounded; exit removes a process at once.
- Sched.BoundedWaiting: priorities are at least 1.
- Ipc.ListAndMessages: value-only messages, and runs that respect `Guard`.
- Ipc.NobodyStarves: the same; the first envs are created before anything runs, with priorities of at least 1.
- Queue.TailConcat: the macros' locality is their `modifies` clause; a list with another head and other nodes is framed by it, and `Queue.ChainsAreDisjoint` says there are no other cases.
- Blocks.FileServer.FileTruncate: assumes no slot in use past the size of the file (`Tight`), and sizes small enough for ROUND not to wrap at 2^32.
- Format.Formatter.WriteFile: the host file's contents are a parameter, no larger than a file can be, and the disk has room.
- Format.Formatter.WriteHost: the same; names, and the exit for a name that is too long, are left out.
- Dirs.DirServer.FileCreate: as for `DirAllocFile`, a directory block is always to be had; file types and contents are left alone.
- Dirs.DirServer.FileRemove: freeing the blocks is modelled in `Blocks`.
- Dirs.DirServer.DirAllocFile: a directory block is always to be had, and a new one is zero.
- Resolve.ResolvePath: the current directory is canonical, as sys_chdir gets it from this function; failing getcwd is left out.
- Editor.LineEditor.Readline: end of input and read errors are left out.
- Chain.RunLine: the outcome of each command is an oracle; like the code it finds separators inside quotes and backticks too; the buffers are long enough.
- Elf.AddressSpace.LoadSeg: which calls of the mapper fail is an oracle, page-table frames included; permissions are left out.
- Stack.InitStack: argument strings without a zero byte; the system calls around the page are left out.
- PrintNum.PrintedRoundTrip: padding with a space or '0' only, which is what the formats produce; widths are not negative.
- Bitmap.BitAfter: the C bit operations on words are modelled by binary digits.
