# Model and proofs of the kernel's core

The repository is a small IA-32 kernel with C drivers. This project models its stateful core at
word level and proves what the parts promise each other. The assembly procedures and C functions
that change state in place are classes and methods with loops; each method is proved against a
specification function, and the properties are proved about those functions and about whole runs.

The modules, from the ground up:

- `FrameAllocator`, `CursorPages`: the physical page manager with its "next free" hint, and the
  boot-time search for four contiguous cursor frames.
- `PageSpec`, `PoolCounts`, `Paging`, `StorageAccess`: two-level 32-bit paging (section 4.3 of Intel SDM volume
  3A), the table pool with its free list threaded through the free pages, the sharing invariant
  between directories, and the storage service's check of a user buffer.
- `HeapBlocks`, `HeapImage`, `HeapGrowth`, `KernelHeap`, `HeapRuns`: the in-band, address-ordered
  kernel heap. A ghost sequence of blocks is the abstract value; `Linked` says how it lies in the
  dwords of the window; the run theorems say what callers may rely on.
- `IndexPools`, `SegmentDescriptors`, `ProcessLdt`: GDT and slot bitmaps, descriptor words (section
  3.4.5 of Intel SDM volume 3A), and the random local descriptor table of a process.
- `ProcessMemory`, `AddressSpaces`, `ProcessBooks`, `Processes`: construction of a protected-mode
  process with its hand-written unwind path, and destruction. The *books* are the heap payloads,
  GDT, slots, process table, run table and display owner; the *account* says which frames, tables
  and directory a process holds.
- `Scheduler`, `Lifecycle`, `ProcessAccounts`, `ProcessPopulation`, `ProcessRoom`, `KernelRuns`: the round robin over
  100 slots, the deferred destruction of terminated processes, all processes at once, and the
  refinement from the real books to the lifecycle transition system with bounded waiting.
- `ProcessSpaces`, `KernelMachine`: the directories, tables and frames of all processes at once, and
  runs of the whole kernel on books and memory: every frame has one owner, every process can be
  destroyed, nothing leaks.
- `Keyboard`, `KeyboardInterleaving`, `KeyboardCalls`, `CursorQueue`, `MouseEvents`, `MouseInterleaving`,
  `MouseCalls` (with `Rings`): the Set-1 decoder, the keyboard queue under preemption with its lock, the batched
  cursor queue, and the mouse event queue, also under preemption.
- `UhciWords`, `UhciStream`, `UhciSystem`: one UHCI interrupt stream shared by device, controller,
  interrupt handler and poll (data toggles: section 8.6 of USB 2.0).
- `Crc32` (with `RegisterWords`), `Crc32Polynomial`, `UsbDescriptors`, `UsbPrinting`: the checksum that
  gates booting, with its meaning in polynomials (section 3.2.9 of IEEE 802.3), and the descriptor parser (section 9.6 of USB 2.0) against a declarative reading and a printer.

Results where the code does not do what one would expect are stated as such, with the exact
condition: releasing a frame range without moving the hint (`RangeReleaseKeepsHintIff`), unmapping
after mapping over an existing page (`UnmapUndoesMap`), requests whose rounding wraps
(`HugeRequestBreaksValidation`, `AllocValidIff`), the frame kept by a failed first page
(`Heap.GrowOnePage`), key events the decoder cannot tell from prefixes or ignores
(`KeyIsUnderstoodIff`; `PrefixBreakIsLost` is an input), tasks queued twice (`AddedTwiceIff`), mouse
events older than a disconnection (`EventIsFreshIff`; `StaleEventComesOut`), buttons of a mouse that
is gone (`OnlyConnectedButtonsIff`; `UnpluggedHoldsButtons`), USB streams that get stuck
(`StuckIffRaced`, `RaceIff`; `EarlyInterruptSticks`), and the kernel idle task being passed over by
terminations (`TerminationPassesKernelOver`).

How the main preconditions are met: `KernelMachine.AlwaysDestroyable` shows that what
`Kernel.Destroy`, `Kernel.ReapTerminated` and `Kernel.Terminate` demand of a process, its page
directory included, holds for every process in every run, with `Strangers` for what `Terminate` asks
about the process still pending. `CreationFollows`, `FailureFollows`, `DestructionFollows` and
`HeapGrowthFollows` show that what the kernel's methods promise are steps of these runs, and
`BootIsGood` with `Kernel.constructor` that the runs start where the kernel does. `OwnersMayWrite`
with `Heap.Free` and `Heap.Alloc` shows that the block list survives whatever owners write into
their payloads.

When a process can be created: `Kernel.Create` succeeds, given memory, if and only if the indices it
needs are free, and `RoomIffBelowHundred` shows that in every reachable state they are exactly while
fewer than a hundred processes exist. Memory is counted by `Stock`: free frames, pages of the heap
window, and pool pages beyond the two tables the kernel may need for itself (`PoolLeft`).

## Model

| member | source | states |
|---|---|---|
| `FrameAllocator.HintStaysSound` | Development/Arch/x86/VirtualKernel.asm:1117-1181 | "no free managed frame below the hint" is kept by every allocation, free and reservation; an allocation returns the lowest free frame and fails only when none is left (or when that frame is frame 0, whose address is the failure value) |
| `FrameAllocator.RunAllocatesLowest` | Development/Arch/x86/VirtualKernel.asm:1141-1181 | after any run of operations the next allocation returns the lowest free frame of the resulting bitmap |
| `FrameAllocator.RangeReleaseKeepsHintIff` | Development/Arch/x86/VirtualKernel.asm:1092-1115 | releasing a range without moving the hint keeps it sound if and only if the range is empty or starts at or above the hint |
| `FrameAllocator.Pmm.constructor` | Development/Arch/x86/VirtualKernel.asm:1057-1090 | exactly main RAM minus the three boot windows is free after initialisation, and the hint is sound |
| `FrameAllocator.Pmm.MarkRangeFree` | Development/Arch/x86/VirtualKernel.asm:1092-1115 | the frames of the range become free, the hint and all other frames stay |
| `FrameAllocator.Pmm.MarkRangeUsed` | Development/Arch/x86/VirtualKernel.asm:1117-1139 | the frames of the range become used, the hint and all other frames stay |
| `FrameAllocator.Pmm.AllocPage` | Development/Arch/x86/VirtualKernel.asm:1141-1160 | the scan from the hint takes one frame and moves the hint behind it, or changes nothing |
| `FrameAllocator.Pmm.FreePage` | Development/Arch/x86/VirtualKernel.asm:1168-1181 | one frame becomes free and the hint drops to it if it was above; address 0 is ignored |
| `CursorPages.FindCursorPages` | Development/Drivers/Intel915/Intel915.c:90-100 | the first index of four consecutive, aligned, non-wrapping page addresses, or not found exactly when there is none |
| `CursorPages.AllocateCursorPages` | Development/Drivers/Intel915/Intel915.c:522-536 | the search keeps exactly the four frames of the lowest free run of four when that run ends within the 64 lowest free frames, and otherwise leaves the page manager as it was and every free run lies beyond them |
| `PageSpec.SetPte` | Development/Arch/x86/VirtualKernel.asm:1904-1992 | writing one table entry keeps the sharing invariant and changes exactly the walks of that page number in the directories that reach the table |
| `PageSpec.PrivateChange` | Development/Arch/x86/VirtualKernel.asm:1904-1992 | behind a private (user) table a change is visible in one directory and at one page only |
| `PageSpec.UnmapUndoesMap` | Development/Arch/x86/VirtualKernel.asm:1904-2056 | unmapping a page just mapped restores every translation in every directory if and only if the page was unmapped before |
| `PageSpec.PoolConservation` | Development/Arch/x86/VirtualKernel.asm:1679-1750 | free list, pages in use and untouched pages always add up to the whole table pool, and the free list has no cycle |
| `PoolCounts.PoolLeft` | Development/Arch/x86/VirtualKernel.asm:1679-1750 | what is left of the table pool, read off the directories alone: all pages but the directories in use, the process tables and one table for each table slot of the kernel |
| `PageSpec.DirectoryDestroyed` | Development/Arch/x86/VirtualKernel.asm:1816-1898 | destroying a directory returns its private tables and itself to the pool once each, touches no other table, and leaves every other walk alone |
| `Paging.PageTables.AllocTable` | Development/Arch/x86/VirtualKernel.asm:1679-1717 | a zeroed pool page nobody uses, from the free list or the untouched part; fails exactly when both are empty |
| `Paging.PageTables.FreeTable` | Development/Arch/x86/VirtualKernel.asm:1726-1750 | an aligned pool address goes to the front of the free list threaded through the pages, anything else is ignored |
| `Paging.PageTables.CreateDirectory` | Development/Arch/x86/VirtualKernel.asm:1756-1810 | a new directory holds exactly the supervisor entries of the kernel directory except slot 0, so its walks agree with the kernel there and are empty elsewhere; nobody else changes |
| `Paging.PageTables.DestroyDirectory` | Development/Arch/x86/VirtualKernel.asm:1816-1898 | exactly the owned user frames of the directory become free in the page manager, its tables and the directory page join the free list, all other directories keep every walk and word |
| `Paging.PageTables.MapUserPage` | Development/Arch/x86/VirtualKernel.asm:1904-1992 | success if and only if the arguments are in range and the slot is a user table or can get one; then the page changes its meaning, in a process directory for that directory only and in the kernel's for those sharing the table, and nothing else changes anywhere |
| `Paging.PageTables.MapPage` | Development/Arch/x86/VirtualKernel.asm:1190-1244 | in the kernel directory, for a slot without a 4 MiB page: success if and only if the slot has a table or can get one; the page changes in exactly the directories sharing the table |
| `Paging.PageTables.UnmapPage` | Development/Arch/x86/VirtualKernel.asm:1999-2056 | carry exactly when the page is not a mapped 4 KiB page; otherwise the physical page is returned and the entry is gone |
| `Paging.PageTables.GetPhysicalAddress` | Development/Arch/x86/VirtualKernel.asm:2062-2120 | the translation of the processor's two-level walk, 4 MiB pages included |
| `StorageAccess.UserOutput` | Development/Drivers/Storage/Storage.c:305-327 | a buffer is granted if and only if the slot base is in range, the size is not 0, offset and size stay within 0x500000, the process is a protected one whose directory is loaded, and every byte is on a present, user, writable, owned 4 KiB page; granted is the linear address slot + 0x400000 + offset |
| `StorageAccess.UserRange` | Development/Drivers/Storage/Storage.c:31-37 | refused exactly when the slot base is outside 0x100000..0x3F600000, the size is 0 or offset + size exceeds 0x500000; otherwise slot + 0x400000 + offset, without 32-bit wrap |
| `StorageAccess.RangeIsDataSegment` | Development/Drivers/Storage/Storage.c:31-37 | for every process slot the check accepts exactly the buffers inside the limit of the data segment in the LDT of that slot, and answers the address the processor forms: the decoded base of the data descriptor plus the offset |
| `HeapBlocks.TakeAddsLive` | Development/Arch/x86/VirtualKernel.asm:1400-1430 | taking a block adds exactly one payload, of at least the wanted and less than 24 bytes more, and keeps the total |
| `HeapBlocks.ReleaseDropsLive` | Development/Arch/x86/VirtualKernel.asm:1458-1485 | releasing removes exactly that payload and conserves all bytes, headers included |
| `HeapBlocks.MergeIsNormal` | Development/Arch/x86/VirtualKernel.asm:1490-1536 | coalescing leaves no two neighbouring free blocks |
| `HeapBlocks.GrowThenFit` | Development/Arch/x86/VirtualKernel.asm:1430-1440 | when nothing fits, growing by enough pages makes the last block the first fit |
| `HeapBlocks.PagesForIsLeast` | Development/Arch/x86/VirtualKernel.asm:1405-1440 | the pages asked for are the least number with room for the rounded block and its header |
| `HeapBlocks.LiveDisjoint` | Development/Arch/x86/VirtualKernel.asm:1369-1451 | live payloads and their headers never overlap |
| `HeapImage.OwnersMayWrite` | Development/Arch/x86/VirtualKernel.asm:1369-1451 | whatever an owner writes into its payload, the block list in memory stays intact |
| `KernelHeap.Heap.Coalesce` | Development/Arch/x86/VirtualKernel.asm:1490-1536 | one pass over the list in memory joins every run of free neighbours and writes no word of a live payload |
| `KernelHeap.Heap.GrowOnePage` | Development/Arch/x86/VirtualKernel.asm:1264-1325 | fails exactly when the window is full, no frame is left, or the window has neither a table nor one to be had; one frame then stays taken exactly when only the table was missing; otherwise a free page is appended and joined to a free tail; only heap pages are mapped |
| `KernelHeap.Heap.GrowPages` | Development/Arch/x86/VirtualKernel.asm:1333-1361 | all pages on success, a proper prefix of them on failure, and none exactly when the supply was dry before the call; the page tables of everybody else are as before |
| `KernelHeap.Heap.Init` | Development/Arch/x86/VirtualKernel.asm:1247-1262 | an empty window, then one free page if the suppliers have it |
| `KernelHeap.Heap.Alloc` | Development/Arch/x86/VirtualKernel.asm:1369-1451 | terminates; a request that fits is served at the first fit without growing; otherwise pages are grown exactly when the supply was not dry before the call, and if the pages asked for have room (size + 4111 does not wrap, or size is above 0xFFFFFFF8) one successful grow makes the second scan succeed; failure means the supply ran dry; no live payload is written |
| `KernelHeap.Heap.Free` | Development/Arch/x86/VirtualKernel.asm:1458-1485 | a live payload is released and joined to its free neighbours; anything else leaves the list and memory alone |
| `KernelHeap.Heap.Validate` | Development/Arch/x86/VirtualKernel.asm:1543-1623 | answers 1 in every reachable state if and only if no block is empty |
| `HeapRuns.AllocAddsOne` | Development/Arch/x86/VirtualKernel.asm:1369-1451 | a granted request adds one payload never handed out before, at least as large as asked when the rounding does not wrap; a refused one changes no payload |
| `HeapGrowth.GrowthCosts` | Development/Arch/x86/VirtualKernel.asm:1264-1361 | growth costs one window page and at most one frame a page, and no pool page beyond the table of the window |
| `AddressSpaces.Obtain` | Development/Arch/x86/VirtualKernel.asm:1369-1451 | for a request of up to 4096 bytes: with as many frames and window pages as it asks for and a table for the window the request succeeds, and it costs no more than that; for the account nothing else changes |
| `HeapRuns.AllocValidIff` | Development/Arch/x86/VirtualKernel.asm:1369-1451 | for every size, validation still succeeds after a request if and only if the size is at most 0xFFFFFFF8, or the first free block is under 24 bytes, or there is no free block and the supply is dry; all of it known before the call, with `Heap.Alloc` saying when the supply is |
| `HeapRuns.HugeRequestBreaksValidation` | Development/Arch/x86/VirtualKernel.asm:1369-1623 | a request of 0xFFFFFFFF bytes is granted an empty payload, after which validation reports corruption |
| `HeapRuns.RunsOwnTheirGrants` | Development/Arch/x86/VirtualKernel.asm:1247-1536 | in every run of requests, releases, direct growth and coalescing the live payloads are exactly the grants not yet returned and no two free blocks are neighbours |
| `HeapRuns.RunsKeepPromises` | Development/Arch/x86/VirtualKernel.asm:1247-1623 | in the same runs, when no request wraps, every outstanding grant is at least as large as asked for and validation accepts every reachable heap |
| `HeapRuns.GrantsAreDisjoint` | Development/Arch/x86/VirtualKernel.asm:1247-1536 | in the same runs outstanding grants are aligned, lie in the committed window, and never overlap each other or a header |
| `ProcessMemory.OwnedMember` | Development/Arch/x86/VirtualKernel.asm:1816-1898 | the frames a directory releases are those its present, user, owned pages name |
| `ProcessMemory.HoldDrop` | Development/Arch/x86/VirtualKernel.asm:1816-1898 | destroying a process directory undoes everything a process took from page manager and pool; only the kernel heap's growth remains |
| `AddressSpaces.GrowUserHeap` | Development/Arch/x86/VirtualKernel.asm:3610-3665 | one page more for a process, owned, writable and where nothing was mapped, or the frame is back; on the way only the temporary page changes; it succeeds whenever the limit is not reached, a frame is free and the slot is a user table or one can be had, and never when the limit is reached, no frame is free or the slot is the kernel's |
| `AddressSpaces.NewDirectory` | Development/Arch/x86/VirtualKernel.asm:1756-1810 | the directory of a process: it costs one pool page, succeeds whenever one is left beyond the two the kernel may need, and has entries exactly where the kernel keeps one for itself |
| `AddressSpaces.AddOwned` | Development/Arch/x86/VirtualKernel.asm:2132-2256 | the page-mapping part of process_memory_create and process_install_syscall_gateway: a new owned page, or nothing; it succeeds with one frame, one pool page and an empty slot, costs no more, and never succeeds in a slot the kernel keeps |
| `IndexPools.IndexPool.Take` | Development/Arch/x86/VirtualKernel.asm:2522-2551 | the lowest clear index at or above the first dynamic one is taken, or nothing when all are taken |
| `IndexPools.IndexPool.Give` | Development/Arch/x86/VirtualKernel.asm:2582-2613 | one index becomes clear; indices out of range are ignored |
| `Processes.Kernel.constructor` | Development/Arch/x86/VirtualKernel.asm:3739-3760 | at boot the kernel task holds the first dynamic GDT entry and, heap payloads apart, nobody holds anything else |
| `Processes.Kernel.MemoryCreate` | Development/Arch/x86/VirtualKernel.asm:2177-2256 | a process object with an address space whose only user page is its first heap page; on failure nothing is held; succeeds with two frames, a window page and two pool pages while the kernel keeps neither slot 1 nor 511 for itself, and never if it keeps slot 1 |
| `Processes.Kernel.CreateLdt` | Development/Arch/x86/VirtualKernel.asm:3143-3265 | on success table, bitmap and GDT entry are held and the LDT has the three segments of the slot; on failure all are back; succeeds with three frames, three window pages and a clear GDT entry (the descriptor written into the GDT entry is left out) |
| `Processes.Kernel.CreateTss` | Development/Arch/x86/VirtualKernel.asm:3335-3438 | TSS object, kernel stack and GDT entry are held, or none of them; succeeds with three frames, three window pages and a clear GDT entry (their words are left out) |
| `Processes.Kernel.InstallGateway` | Development/Arch/x86/VirtualKernel.asm:620-690 | the gateway page is mapped read-only for the user, or its frame is back; succeeds with a frame, a pool page and an empty slot, and never in a slot the kernel keeps |
| `Processes.Kernel.Register` | Development/Arch/x86/VirtualKernel.asm:3906-3944 | the lowest empty table entry names the process and the count goes up; fails exactly when the process is registered or the table was full before its creation |
| `Processes.Kernel.TakeSlot` | Development/Arch/x86/VirtualKernel.asm:384-423 | the lowest clear process slot, with its base address; fails exactly when all hundred are taken |
| `Processes.Kernel.TakeSelector` | Development/Arch/x86/VirtualKernel.asm:2522-2551 | a GDT entry for the process under construction; fails exactly when none is clear, and uses up one |
| `Processes.Kernel.Enqueue` | Development/Arch/x86/VirtualKernel.asm:3766-3819 | the task of the process joins the run table; fails exactly when a hundred tasks were queued before |
| `Processes.Kernel.Create` | Development/Arch/x86/VirtualKernel.asm:152-228 | all or nothing: a failure at any stage leaves heap payloads, GDT, slots, process table, run table and display owner as before and the memory account empty up to kernel heap growth; success means every piece is held, in the lowest slot and table entry, the LDT covers the slot and the user pages are the heap page and the gateway; given nine free frames, seven pages of heap window and three pool pages beyond the kernel's own, it succeeds if and only if a slot, a table entry, two GDT entries and a task slot are free and the kernel keeps neither directory slot 1 nor 511 for itself |
| `Processes.LayoutMeans` | Development/Arch/x86/VirtualKernel.asm:620-690 | the two user pages of a new process are present, reachable from user code and owned; the heap page may be written, the gateway only read |
| `ProcessBooks.CreatedHadRoom` | Development/Arch/x86/VirtualKernel.asm:152-228 | whatever the memory, a process is created only if slot, table entry, two GDT entries and task slot were free |
| `ProcessBooks.BootHasRoom` | Development/Arch/x86/VirtualKernel.asm:18-24 | at boot they are |
| `ProcessRoom.RoomIffBelowHundred` | Development/Arch/x86/VirtualKernel.asm:152-357 | after any mix of creations, terminations and destructions there is room for another process if and only if fewer than a hundred exist, as long as the kernel itself leaves two hundred GDT entries |
| `ProcessRoom.BootLeavesEntries` | Development/Arch/x86/VirtualKernel.asm:18-24 | at boot the kernel leaves 8182 |
| `Processes.Kernel.Destroy` | Development/Arch/x86/VirtualKernel.asm:263-357 | refused for the running task, otherwise exactly the pieces of the process go back and everything else stays |
| `Processes.Kernel.Unwind` | Development/Arch/x86/VirtualKernel.asm:216-219 | process_destroy as unwind path restores the starting point from every stage |
| `Processes.Kernel.MemoryDestroy` | Development/Arch/x86/VirtualKernel.asm:3673-3691 | the object and its address space go back, nothing else changes |
| `Processes.Kernel.Unregister` | Development/Arch/x86/VirtualKernel.asm:3948-3978 | the table entry is cleared only if it names the process |
| `Processes.Kernel.ReleaseDisplay` | Development/Arch/x86/DriverGateway.asm:85-97 | display ownership is revoked if the process had it |
| `Processes.Kernel.ReapTerminated` | Development/Arch/x86/InterruptHandlers.asm:366-378 | the pending process is destroyed once and forgotten |
| `Processes.Kernel.Tick` | Development/Arch/x86/InterruptHandlers.asm:248-275 | the pending process is destroyed, its memory with it, then the next task is loaded |
| `Processes.Kernel.Terminate` | Development/Arch/x86/InterruptHandlers.asm:117-183 | a process still pending is destroyed, the running one leaves the run table and becomes pending with everything it holds destroyable, and another task is loaded unless there is none |
| `Processes.DestroyUndoesCreate` | Development/Arch/x86/VirtualKernel.asm:152-357 | creating a process and destroying it before it runs restores the books, with only kernel heap growth left |
| `ProcessBooks.SettledIsRestored` | Development/Arch/x86/VirtualKernel.asm:263-357 | giving back exactly the billed pieces restores the books from any stage: no leak, no double free |
| `ProcessBooks.BilledInOrder` | Development/Arch/x86/VirtualKernel.asm:152-228 | adding a process keeps every scheduler selector and the display owner allocated |
| `ProcessBooks.SettledInOrder` | Development/Arch/x86/VirtualKernel.asm:263-357 | destruction frees no selector that the scheduler or the display still names |
| `ProcessBooks.RefusedIffRunning` | Development/Arch/x86/VirtualKernel.asm:3826-3882 | destruction is refused if and only if the task is loaded |
| `ProcessBooks.AddThenRemove` | Development/Arch/x86/VirtualKernel.asm:3766-3882 | adding a fresh task and removing it again restores the run table |
| `ProcessLdt.WriteSegments` | Development/Arch/x86/VirtualKernel.asm:3208-3238 | the three descriptors decode to code, data and stack of the slot, 4, 5 and 1 MiB back to back |
| `ProcessLdt.SegmentsOfSlotsAreDisjoint` | Development/Arch/x86/VirtualKernel.asm:384-410 | no linear address lies in a segment of one process slot and in a segment of another |
| `ProcessLdt.UserRights` | Development/Arch/x86/VirtualKernel.asm:3208-3238 | the segments are present, of privilege 3, the code executable and readable, data and stack writable and not executable |
| `ProcessLdt.ChooseSelectors` | Development/Arch/x86/VirtualKernel.asm:3189-3207 | whatever the time stamps, three different user selectors are found in a fresh bitmap |
| `ProcessPopulation.EmptyIsClean` | Development/Arch/x86/VirtualKernel.asm:152-357 | with no process left every payload, GDT entry, slot and table entry in use is the kernel's own |
| `ProcessPopulation.BootIsAccounted` | Development/Arch/x86/VirtualKernel.asm:18-24 | what boot leaves satisfies the accounts: the run theorems start from a state the kernel really has |
| `ProcessPopulation.AlwaysDestroyable` | Development/Arch/x86/VirtualKernel.asm:263-357 | at any time every process can be destroyed unless it runs: no payload or selector it names was given back before (for directory and frames see `KernelMachine.AlwaysDestroyable`) |
| `ProcessAccounts.WholeIsMember` | Development/Arch/x86/VirtualKernel.asm:152-228 | what a successful construction promises makes the process a proper member of the population |
| `ProcessPopulation.CreationKeepsAccounts` | Development/Arch/x86/VirtualKernel.asm:152-228 | a creation shares no piece with any living process and the books add up with one process more |
| `ProcessPopulation.DestructionKeepsAccounts` | Development/Arch/x86/VirtualKernel.asm:263-357 | destroying any process in any order takes exactly its pieces and keeps those of all others |
| `ProcessPopulation.TickKeepsAccounts` | Development/Arch/x86/InterruptHandlers.asm:248-378 | a timer tick reaps the pending process and keeps all accounts |
| `ProcessPopulation.TerminationKeepsAccounts` | Development/Arch/x86/InterruptHandlers.asm:117-183 | a termination keeps all accounts, or halts the machine, and that if and only if the last task ended without a kernel task |
| `ProcessPopulation.StepKeepsAccounts` | Development/Arch/x86/InterruptHandlers.asm:117-378 | every step keeps the accounts: payloads, GDT, slots and table belong to the kernel or to exactly one process, and exactly the processes not pending are queued |
| `ProcessPopulation.KernelPayloads` | Development/Arch/x86/VirtualKernel.asm:1369-1485 | the kernel's other allocations and frees keep the accounts |
| `KernelRuns.StepRefines` | Development/Arch/x86/InterruptHandlers.asm:117-378 | what each step does to the real books is a step of the lifecycle transition system |
| `KernelRuns.RunsRefine` | Development/Arch/x86/InterruptHandlers.asm:117-378 | every run of the kernel is a run of the lifecycle transition system |
| `KernelRuns.RunsStayAccounted` | Development/Arch/x86/InterruptHandlers.asm:117-378 | the accounts hold in every state of every run |
| `KernelRuns.NothingLeaks` | Development/Arch/x86/VirtualKernel.asm:152-357 | after any run that starts and ends without processes, heap payloads, GDT, slots, process table, run table and display owner are as at the start |
| `KernelRuns.LiveProcessRuns` | Development/Arch/x86/InterruptHandlers.asm:288-350 | a process alive throughout a run is loaded within 101 scheduling decisions, whatever else is created, terminated and destroyed |
| `KernelRuns.TerminatedOnce` | Development/Arch/x86/InterruptHandlers.asm:117-183 | the terminated processes, in order, are those already destroyed plus at most the pending one |
| `ProcessSpaces.SpaceIsOwn` | Development/Arch/x86/VirtualKernel.asm:1816-1898 | each process has a directory of its own; every frame its pages own is marked used, owned by one page only and by no other process, so a destruction gives nothing back twice |
| `ProcessSpaces.CreationKeepsSpaces` | Development/Arch/x86/VirtualKernel.asm:152-228 | a new process gets a directory nobody has and frames nobody owns |
| `ProcessSpaces.PageKeepsSpaces` | Development/Arch/x86/VirtualKernel.asm:3610-3665 | so does every further page of a process |
| `ProcessSpaces.DestructionKeepsSpaces` | Development/Arch/x86/VirtualKernel.asm:1816-1898 | a destruction gives back the directory, tables and frames of that process and of nobody else |
| `ProcessSpaces.PoolAfter` | Development/Arch/x86/VirtualKernel.asm:1679-1898 | without processes the pool of page tables has at most two tables more in use than at the start: those of the heap window and the temporary page |
| `ProcessSpaces.KernelFrames` | Development/Arch/x86/VirtualKernel.asm:1141-1181 | frames the kernel takes and frees for itself keep the accounts of all processes |
| `KernelMachine.CreationFollows` | Development/Arch/x86/VirtualKernel.asm:152-228 | what `Kernel.Create` promises is a step of the whole kernel |
| `KernelMachine.FailureFollows` | Development/Arch/x86/VirtualKernel.asm:152-228 | so is what it promises on failure |
| `KernelMachine.DestructionFollows` | Development/Arch/x86/VirtualKernel.asm:263-357 | what `Kernel.Destroy` promises is a step of the whole kernel |
| `KernelMachine.HeapGrowthFollows` | Development/Arch/x86/VirtualKernel.asm:3610-3665 | what `GrowUserHeap` promises are two steps of the whole kernel |
| `KernelMachine.EventKeepsGood` | Development/Arch/x86/InterruptHandlers.asm:117-378 | every step keeps the accounts of books, directories, tables and frames: a frame is marked used exactly if the kernel, its heap or exactly one process has it |
| `KernelMachine.BootIsGood` | Development/Arch/x86/VirtualKernel.asm:13-25 | the accounts hold at boot |
| `KernelMachine.AlwaysDestroyable` | Development/Arch/x86/VirtualKernel.asm:263-357 | in every state of every run each process meets what destruction and termination demand: pieces still held, directory in use and not the kernel's, owned frames marked used and owned once; and it shares payloads, GDT entries, directory and frames with no other process |
| `KernelMachine.BooksRun` | Development/Arch/x86/InterruptHandlers.asm:117-378 | on its books alone every run of the whole kernel is a run of `KernelRuns`, so its theorems, bounded waiting included, hold with memory in the picture |
| `KernelMachine.NothingLeaks` | Development/Arch/x86/VirtualKernel.asm:152-357 | after any run that starts and ends without processes the books are as at the start, the same directories and process tables are in use, and the only frames taken are those behind the growth of the kernel heap |
| `Scheduler.SwitchSound` | Development/Arch/x86/InterruptHandlers.asm:288-350 | a switch keeps count, uniqueness and "the loaded selector is the one at the current index", and picks the next task or the kernel at the end of the table |
| `Scheduler.LeaveSound` | Development/Arch/x86/InterruptHandlers.asm:133-183 | a terminating task is gone for good and something else is loaded; the machine halts exactly when it was the last and there is no kernel task |
| `Scheduler.AdditionSound` | Development/Arch/x86/VirtualKernel.asm:3766-3819 | a task not yet queued is accepted if and only if a slot is free and goes to the lowest one |
| `Scheduler.AddedTwiceIff` | Development/Arch/x86/VirtualKernel.asm:3766-3819 | a task that is queued already is queued a second time, which breaks the invariant, if and only if there is room and an empty slot before its own |
| `Scheduler.RemovalSound` | Development/Arch/x86/VirtualKernel.asm:3826-3882 | removal succeeds unless the task is loaded, and then it is queued nowhere |
| `Scheduler.SwitchComesCloser` | Development/Arch/x86/InterruptHandlers.asm:288-350 | each switch selects a waiting task or strictly shortens its cyclic distance |
| `Scheduler.LeaveComesCloser` | Development/Arch/x86/InterruptHandlers.asm:133-183 | so does each termination |
| `Scheduler.SwitchComesCloserToKernel` | Development/Arch/x86/InterruptHandlers.asm:288-350 | without terminations the same holds for the kernel idle task |
| `Scheduler.RunQueue.SwitchNext` | Development/Arch/x86/InterruptHandlers.asm:288-350 | the scanning loop computes the specified switch |
| `Scheduler.RunQueue.NextTask` | Development/Arch/x86/InterruptHandlers.asm:152-167 | the cyclic scan finds the next occupied slot, or none exactly when the table is empty |
| `Scheduler.RunQueue.TerminateCurrent` | Development/Arch/x86/InterruptHandlers.asm:137-183 | vacating the slot, scanning and resuming is the specified leave |
| `Scheduler.RunQueue.Add` | Development/Arch/x86/VirtualKernel.asm:3766-3819 | the insertion loop computes the specified addition, duplicate check up to the first hole included |
| `Scheduler.RunQueue.Remove` | Development/Arch/x86/VirtualKernel.asm:3826-3882 | the removal loop computes the specified removal |
| `Scheduler.RunQueue.constructor` | Development/Arch/x86/VirtualKernel.asm:3739-3760 | an empty run table with the kernel task loaded |
| `Lifecycle.StepKeepsGood` | Development/Arch/x86/InterruptHandlers.asm:117-378 | count, loaded selector, pending process and display owner stay consistent under ticks, terminations, creations, destructions and claims |
| `Lifecycle.DestroyedAtNextDecision` | Development/Arch/x86/InterruptHandlers.asm:366-378 | a terminated process is destroyed by the very next tick or termination, never while its TSS is loaded, and the display owner is not its freed selector |
| `Lifecycle.RunsStayGood` | Development/Arch/x86/InterruptHandlers.asm:117-378 | over every run each terminated process is destroyed exactly once, in order, except at most the last |
| `Lifecycle.QueuedTaskIsSelected` | Development/Arch/x86/InterruptHandlers.asm:288-350 | a task that stays queued is selected within its cyclic distance, at most 101 decisions |
| `Lifecycle.KernelIsSelected` | Development/Arch/x86/InterruptHandlers.asm:288-350 | without terminations the kernel idle task is selected within 101 ticks |
| `Lifecycle.TerminationPassesKernelOver` | Development/Arch/x86/InterruptHandlers.asm:149-183 | a termination resumes the kernel if and only if no other task is left |
| `Lifecycle.BootIsGood` | Development/Arch/x86/VirtualKernel.asm:3739-3760 | the state after scheduler initialisation satisfies the invariant |
| `SegmentDescriptors.SegmentRoundTrip` | Development/Arch/x86/VirtualKernel.asm:2624-2700 | for every base, limit and access byte, base and access read back and the limit is exact up to 0xFFFFF and limit or 0xFFF above |
| `SegmentDescriptors.SystemRoundTrip` | Development/Arch/x86/VirtualKernel.asm:2775-2816 | system descriptors: base exact, limit exact if and only if it fits twenty bits |
| `SegmentDescriptors.WriteRaw` | Development/Arch/x86/VirtualKernel.asm:3045-3066 | the two words of the selector's entry are stored and no other |
| `SegmentDescriptors.OthersKeepTheirs` | Development/Arch/x86/VirtualKernel.asm:3045-3066 | writing one descriptor leaves every other selector's descriptor alone |
| `SegmentDescriptors.AllocatesIffAnyClear` | Development/Arch/x86/VirtualKernel.asm:2973-3038 | for any time stamp the cyclic search fails if and only if all of 1..n-1 are taken |
| `SegmentDescriptors.LdtAlloc` | Development/Arch/x86/VirtualKernel.asm:2973-3038 | the first clear index in the cycle 1..n-1 from the place the time stamp gives, as LDT selector with privilege 3, or 0 with the bitmap unchanged |
| `Keyboard.DecodeSound` | Development/Drivers/Keyboard/KeyboardDriver.c:6-46 | for arbitrary bytes the count stays the number of keys down |
| `Keyboard.DecodeAllSound` | Development/Drivers/Keyboard/KeyboardDriver.c:6-46 | so over any byte string the count is zero if and only if no key is down |
| `Keyboard.DecodeEncodeAll` | Development/Drivers/Keyboard/KeyboardDriver.c:6-46 | any list of presses and releases with whole Pause and Print Screen sequences interspersed decodes to exactly the keys held |
| `Keyboard.KeyIsUnderstoodIff` | Development/Drivers/Keyboard/KeyboardDriver.c:6-46 | for every key code and direction: the bytes of an event that changes something have exactly that effect if and only if the event is one the decoder can tell from a prefix and does not ignore |
| `Keyboard.PrefixBreakIsLost` | Development/Drivers/Keyboard/KeyboardDriver.c:6-46 | an input: the release of key 60 is read as a prefix and the key stays down |
| `Keyboard.ReceiveAppends` | Development/Drivers/Keyboard/Ps2Keyboard.c:242-279 | a sound byte joins the end of the queue; a damaged one, or one for which 255 wait, is counted as dropped and nothing else changes |
| `Keyboard.KeyboardShared.DecodeByte` | Development/Drivers/Keyboard/KeyboardDriver.c:6-46 | the in-place decoder computes the specified decoding |
| `Keyboard.KeyboardShared.Interrupt` | Development/Drivers/Keyboard/Ps2Keyboard.c:242-279 | the interrupt handler appends or counts a loss |
| `Keyboard.KeyboardShared.Forget` | Development/Drivers/Keyboard/KeyboardDriver.c:48-60 | after a loss everything pressed and pending is forgotten |
| `Keyboard.KeyboardShared.ProcessQueue` | Development/Drivers/Keyboard/KeyboardDriver.c:48-74 | after a loss a reset, otherwise every waiting byte is decoded in order |
| `Keyboard.KeyboardShared.Service` | Development/Drivers/Keyboard/KeyboardDriver.c:76-109 | the service decodes what waits, then answers whether the key asked for, or any key, is down; all ones for an unknown request |
| `KeyboardInterleaving.StepKeepsGood` | Development/Drivers/Keyboard/KeyboardDriver.c:48-109 | every interrupt and every single shared access of any caller keeps ring, lock, decoding, loss and progress accounts: what a call still owes of the bytes it has to take fits into the turns it has left, and it releases the lock only when they are taken |
| `KeyboardInterleaving.RunsStayGood` | Development/Drivers/Keyboard/KeyboardDriver.c:48-109 | in every interleaving at most 255 bytes wait and the key state is the decoding of a contiguous in-order run of accepted bytes |
| `KeyboardInterleaving.WaitingBytesAreTaken` | Development/Drivers/Keyboard/KeyboardDriver.c:48-109 | in any interleaving, when a whole call returns, everything accepted before it took the lock, when it compared the counters, and when it read the head after a loss, has been taken |
| `KeyboardInterleaving.CallDecodes` | Development/Drivers/Keyboard/KeyboardDriver.c:48-109 | in any interleaving a whole call without a loss at its comparison decodes exactly the bytes it takes, in order, on top of the key state it found; after a loss it throws away everything accepted by then and starts from released keys |
| `KeyboardInterleaving.NothingTwice` | Development/Drivers/Keyboard/KeyboardDriver.c:48-74 | the consumer never goes back and decodes each byte once |
| `KeyboardInterleaving.LossesAreCovered` | Development/Drivers/Keyboard/KeyboardDriver.c:48-109 | any byte lost before a call takes the lock is followed by a reset of all key state by the end of that call |
| `KeyboardInterleaving.CoveringClears` | Development/Drivers/Keyboard/KeyboardDriver.c:48-60 | a loss counts as covered only when the key state is cleared |
| `KeyboardInterleaving.StartedIsGood` | Development/Drivers/Keyboard/KeyboardDriver.c:76-109 | the initial state satisfies the invariant |
| `KeyboardCalls.UndisturbedIsProcessed` | Development/Drivers/Keyboard/KeyboardDriver.c:48-109 | a call that nobody disturbs leaves exactly the specified page and the lock free: the single accesses refine the whole service |
| `KeyboardCalls.InterruptIsReceive` | Development/Drivers/Keyboard/Ps2Keyboard.c:242-279 | an interrupt between two accesses is the specified reception |
| `CursorQueue.MoveAxis` | Development/Drivers/Intel915/Intel915.c:48-57 | for every 32-bit displacement the position plus the displacement, held at the edges of the screen; 0 for an impossible size |
| `CursorQueue.PathAddsUp` | Development/Drivers/Intel915/Intel915.c:59-88 | as long as no edge is hit the displacements add up, each axis with its own |
| `CursorQueue.Cursor.Flush` | Development/Drivers/Intel915/Intel915.c:59-88 | all motions or none; refused if and only if busy, not drawable, or the batch is empty or too long |
| `CursorQueue.PacketQueue.Enqueue` | Development/Drivers/Usb/MouseDriver.c:3-22 | an acceptable report joins the queue, or is counted as dropped when 63 wait; peak occupancy and saturated reports are counted for the accepted ones |
| `CursorQueue.PacketQueue.Cancel` | Development/Drivers/Usb/MouseDriver.c:24-28 | every waiting packet of the controller is marked, displacements and all other packets stay |
| `CursorQueue.PacketQueue.Drain` | Development/Drivers/Usb/MouseDriver.c:30-51 | a refused drain changes no packet, index or position; an accepted one empties the queue and moves the cursor as if its packets had been applied one by one |
| `CursorQueue.StepKeepsBatched` | Development/Drivers/Usb/MouseDriver.c:3-51 | every operation keeps the account of accepted, surviving and applied packets |
| `CursorQueue.BatchingIsInvisible` | Development/Drivers/Usb/MouseDriver.c:3-51 | after any mix of operations the cursor is where the surviving packets, applied one at a time in order, put it |
| `CursorQueue.StaysOnScreen` | Development/Drivers/Intel915/Intel915.c:48-88 | the cursor stays on screen for all displacements |
| `CursorQueue.CancelledNeverMoves` | Development/Drivers/Usb/MouseDriver.c:24-51 | a packet cancelled while it waits never moves the cursor, in whatever run of reports, cancellations and refused or accepted drains follows |
| `CursorQueue.FateOfPacket` | Development/Drivers/Usb/MouseDriver.c:3-51 | what an operation does to a waiting packet: a cancellation marks exactly the packets of its mouse; a drain that goes through takes it, and it moves the cursor if and only if it carries no mark and its mouse is connected; nothing else touches it |
| `CursorQueue.ConnectedIsBit` | Development/Drivers/Usb/MouseDriver.c:30-43 | a mouse is connected if and only if its bit of the mask is set |
| `MouseEvents.MouseShared.QueueReport` | Development/Drivers/Usb/MouseDriver.c:54-70 | a storable report joins the ring, or is counted as dropped when 31 wait |
| `MouseEvents.MouseShared.SetConnected` | Development/Drivers/Usb/MouseDriver.c:149-158 | connection and disconnection update the mask; a disconnection also bumps the loss counter |
| `MouseEvents.MouseShared.ProcessRequest` | Development/Drivers/Usb/MouseDriver.c:72-112 | undisturbed: bad request, loss announcement, device mask, buttons or next event as specified |
| `MouseEvents.RequestedMeans` | Development/Drivers/Usb/MouseDriver.c:72-112 | what each request answers: after a loss only that, once; otherwise the connection mask, the buttons some connected mouse holds, or the first whole report of a connected mouse with everything before it gone |
| `MouseEvents.AnyButtonMeans` | Development/Drivers/Usb/MouseDriver.c:88-94 | a button is down if and only if some mouse holds it |
| `MouseInterleaving.StepKeepsGood` | Development/Drivers/Usb/MouseDriver.c:54-162 | every interrupt (report, connection, disconnection), every single shared access of a request and every caller that finds the lock taken keep ring, lock, fates, losses, fences and buttons in order |
| `MouseInterleaving.RunsStayGood` | Development/Drivers/Usb/MouseDriver.c:54-162 | so in every interleaving the ring holds the reports accepted and not taken, at most 31, and each report that left has one fate |
| `MouseInterleaving.StartedIsGood` | Development/Drivers/Usb/MouseDriver.c:164-172 | the initial page satisfies the invariant |
| `MouseInterleaving.RepliesMean` | Development/Drivers/Usb/MouseDriver.c:72-112 | under preemption: Lost means a loss not announced before, the ring thrown away and all buttons up; an event is the report just taken, unharmed; no event means all that waited at the comparison was too short or from a mouse found disconnected; any other answer than Lost leaves no loss from before the call unannounced |
| `MouseInterleaving.EventsKeepTheirOrder` | Development/Drivers/Usb/MouseDriver.c:54-162 | in every interleaving two events are two different reports, in the order they were queued |
| `MouseInterleaving.LossesAreAnnounced` | Development/Drivers/Usb/MouseDriver.c:72-129 | every loss or disconnection before a call takes the lock has been announced when that call returns, and the answer is Lost exactly when the call announces something new |
| `MouseInterleaving.EventIsFreshIff` | Development/Drivers/Usb/MouseDriver.c:72-162 | for each mouse: the event a call returns was queued before the last disconnection of that mouse if and only if such a disconnection arrived after this very call compared the counters, with the report already queued |
| `MouseInterleaving.OnlyConnectedButtonsIff` | Development/Drivers/Usb/MouseDriver.c:72-158 | when a call returns, a mouse counted as holding buttons is disconnected if and only if it was unplugged during this call and not plugged in again |
| `MouseCalls.UndisturbedIsRequested` | Development/Drivers/Usb/MouseDriver.c:72-129 | without interrupts the single accesses of a call add up to the specified request |
| `MouseCalls.InterruptsAreSpecified` | Development/Drivers/Usb/MouseDriver.c:54-158 | an interrupt between two accesses is the specified operation: report, connection or disconnection |
| `MouseCalls.StaleEventComesOut` | Development/Drivers/Usb/MouseDriver.c:82-109 | any disconnection between comparison and scan lets a waiting whole report through, even the mouse's own when it comes straight back |
| `MouseCalls.StaleStart` | Development/Drivers/Usb/MouseDriver.c:72-109 | a page on which that happens |
| `MouseCalls.UnpluggedHoldsButtons` | Development/Drivers/Usb/MouseDriver.c:104-106 | a disconnection between the test of the connection bit and the store leaves buttons of a mouse that is gone |
| `UhciWords.TokenRoundTrip` | Development/Drivers/Usb/UsbHost.c:27-34 | every field of a token reads back, the length zero encoded as 7FF included |
| `UhciWords.FinishedReadsBack` | Development/Drivers/Usb/UsbHost.c:45-52 | every error-free length up to the request reads back from the status word, longer ones fail |
| `UhciWords.StatusMeans` | Development/Drivers/Usb/UsbHost.c:45-52 | a descriptor is pending exactly while its active bit is set; stall, buffer error, babble, CRC error or timeout and bit stuffing error fail it, a NAK does not |
| `UhciWords.Interval` | Development/Drivers/Usb/UsbHost.c:36-43 | the largest power of two not above the request, 0 outside 1..255 |
| `UhciStream.ReportQueue.Push` | Development/Drivers/Usb/UsbHost.c:268-278 | first in, first out across the wrap of the 32-bit counters; a full queue drops the report |
| `UhciStream.ReportQueue.Pop` | Development/Drivers/Usb/UsbHost.c:706-721 | the oldest report, or nothing when empty |
| `UhciStream.UhciController.Arm` | Development/Drivers/Usb/UsbHost.c:216-228 | the descriptor is pending with the current toggle and linked, its status word as `ArmedStatusMeans` reads it |
| `UhciStream.ArmedStatusMeans` | Development/Drivers/Usb/UsbHost.c:224-225 | active, interrupt on completion, three retries, short packet detection, no error bit, and the low-speed bit if and only if the device is one |
| `UhciStream.UhciController.Service` | Development/Drivers/Usb/UsbHost.c:230-284 | on the words read: a fatal bit raises the final controller error and ends the stream; a port that is not up ends an active stream, descriptor pending or not, with one disconnect event; with the port up a pending descriptor changes nothing, a failed one ends the stream, and a finished one is handed over with its bytes and armed again with the other toggle |
| `UhciStream.UhciController.Poll` | Development/Drivers/Usb/UsbHost.c:313-363 | halt, service, restart and recovery as specified; a lost device ends the stream with one disconnect event, delivers nothing and leaves the controller ready for the next |
| `UhciStream.PollMeans` | Development/Drivers/Usb/UsbHost.c:313-363 | what a whole poll does, by what it finds |
| `UhciStream.UhciController.Start` | Development/Drivers/Usb/UsbHost.c:662-704 | a stream starts if and only if the arguments are in range, the controller is ready and idle and the port is up; it starts empty, with toggle 0, the first transfer armed and one connect event, and otherwise nothing changes |
| `UhciSystem.ServiceKeepsGood` | Development/Drivers/Usb/UsbHost.c:230-284 | service keeps toggles, counts and event log consistent and delivers exactly the finished transfer |
| `UhciSystem.StepKeepsGood` | Development/Drivers/Usb/UsbHost.c:216-363 | every step of device (acknowledgements lost, packets repeated), controller (late unlinking included), interrupt handler and poll keeps the invariant; the descriptor is never rewritten while hardware may act on it |
| `UhciSystem.DeliveryConsumes` | Development/Drivers/Usb/UsbHost.c:230-284 | a delivery is of the transfer in the descriptor, which is armed again with the other toggle |
| `UhciSystem.StuckIffRaced` | Development/Drivers/Usb/UsbHost.c:230-363 | between polls an active stream is stuck if and only if its descriptor was armed again before the controller had unlinked it |
| `UhciSystem.RaceIff` | Development/Drivers/Usb/UsbHost.c:230-363 | that happens exactly with a delivery made while the controller still has to unlink, by an interrupt or by a poll that saw the descriptor pending |
| `UhciSystem.HaltedPollNeverRaces` | Development/Drivers/Usb/UsbHost.c:324-336 | a poll that halted the schedule never does that |
| `UhciSystem.EarlyInterruptSticks` | Development/Drivers/Usb/UsbHost.c:230-298 | an interrupt between the two writes of the controller (another source on a shared line) loses the descriptor |
| `UhciSystem.StuckStays` | Development/Drivers/Usb/UsbHost.c:230-363 | a stuck stream stays so until the device goes or the controller fails |
| `UhciSystem.RepetitionIsDiscarded` | Development/Drivers/Usb/UsbHost.c:216-284 | a packet repeated because its acknowledgement got lost changes nothing: the toggle tells it |
| `UhciSystem.PollDelivers` | Development/Drivers/Usb/UsbHost.c:313-363 | a poll with the port up hands a finished transfer over and leaves the stream ready for the next, whether or not the controller had unlinked the descriptor |
| `UhciSystem.PollRecovers` | Development/Drivers/Usb/UsbHost.c:313-363 | after a stream ended short of a controller error the next poll makes a new one possible |
| `UhciSystem.LossIsNoticed` | Development/Drivers/Usb/UsbHost.c:256-268 | an interrupt or poll that sees the port down ends the stream, idle descriptor or not, with one disconnect event and no delivery |
| `UhciSystem.RunsStayGood` | Development/Drivers/Usb/UsbHost.c:216-363 | in every interleaving, with acknowledgements lost and packets repeated, each packet of the device is delivered at most once and in order, and none it saw acknowledged is missing but for at most the one in the descriptor; data events lie inside a stream |
| `UhciSystem.NoStreamOnADeadPort` | Development/Drivers/Usb/UsbHost.c:216-363 | over whole runs: once an interrupt or poll has seen the port down, no stream is active and nothing is delivered until a start finds the port up |
| `UhciSystem.IdleIsGood` | Development/Drivers/Usb/UsbHost.c:337-350 | an idle controller satisfies the invariant |
| `Crc32.StepIsBijective` | Development/Boot/BootStorage.c:21-32 | the bit step of the CRC register can be undone |
| `Crc32.StepIsLinear` | Development/Boot/BootStorage.c:21-32 | the bit step is linear |
| `Crc32.RegisterIsLinear` | Development/Boot/BootStorage.c:21-32 | the register is linear in start value and message bits |
| `Crc32.CrcIsAffine` | Development/Boot/BootStorage.c:21-32 | the checksum is affine over messages of equal length |
| `Crc32.FoldWord` | Development/Boot/BootStorage.c:21-32 | up to 32 bits can be injected as one word |
| `Crc32.BurstIsDetected` | Development/Boot/BootStorage.c:21-32 | a copy of any message corrupted only inside 32 consecutive bits has another checksum |
| `Crc32.AbsorbByte` | Development/Boot/BootStorage.c:25-30 | the byte loop equals eight serial steps |
| `Crc32.BootCrc32` | Development/Boot/BootStorage.c:21-32 | the loop computes `Crc`, the checksum that `CrcIsRemainder` characterises |
| `Crc32Polynomial.CrcIsRemainder` | Development/Boot/BootStorage.c:21-32 | a word is the checksum of a message if and only if its complement is the remainder of the message times x^32, its first 32 bits complemented, modulo the polynomial of IEEE 802.3 given by its exponents |
| `Crc32Polynomial.RemainderIsUnique` | Development/Boot/BootStorage.c:21-32 | at most one polynomial below x^32 is that remainder |
| `Crc32Polynomial.RegisterDivides` | Development/Boot/BootStorage.c:25-30 | after any bits the register holds what is left of the dividend |
| `Crc32Polynomial.CheckValue` | Development/Boot/BootStorage.c:21-32 | the check value of the standard: CBF43926 for the nine digits |
| `UsbDescriptors.CutIsTiling` | Development/Drivers/Usb/UsbMouse.c:37-88 | at most one tiling of the stream into descriptors exists and cutting finds it |
| `UsbDescriptors.ScanMeans` | Development/Drivers/Usb/UsbMouse.c:37-88 | the running state reflects the declarative reading of the descriptors seen, and scanning goes on exactly while that reading allows |
| `UsbDescriptors.AcceptedIffComplete` | Development/Drivers/Usb/UsbMouse.c:37-88 | well-formedness with endpoint counts is promise plus completeness of the last interface |
| `UsbDescriptors.ParseIsDeclarative` | Development/Drivers/Usb/UsbMouse.c:37-88 | the parse succeeds if and only if the stream tiles into acceptable descriptors, and finds the first matching boot-mouse endpoint |
| `UsbDescriptors.FindInterface` | Development/Drivers/Usb/UsbMouse.c:37-88 | -1, 0 or 1 as the parse says; the result changes only when a mouse was found |
| `UsbDescriptors.Examine` | Development/Drivers/Usb/UsbMouse.c:51-82 | the loop body on the parser's variables is the specified step |
| `UsbPrinting.PrintThenParse` | Development/Drivers/Usb/UsbMouse.c:37-88 | printing any well-formed configuration tree and parsing the bytes returns the endpoint the tree offers |
| `UsbPrinting.PlainMouse` | Development/Drivers/Usb/UsbMouse.c:37-88 | an ordinary boot mouse is found with its endpoint, packet size and interval; the same device as a keyboard is none |

## Left out

- KernelHeap.Heap.Free: requires a pointer into the window, and that one whose header looks used really names a live payload (`Freeable`); the code reads and believes whatever lies in front of any pointer.
- KernelHeap.Heap.Alloc: does not say that a failed request leaves the heap ungrown; the code can keep pages appended before the supply ran dry, and then fails even if a block would now fit.
- Paging.PageTables.MapPage: requires that the kernel slot is not a 4 MiB page; the code does not check and would then write its entry into that page, outside the table pool the model knows.
- Paging.PageTables.MapUserPage: replaces a present entry silently, as the code does; the contract gives the new meaning in every case.
- FrameAllocator.RunAllocatesLowest: runs contain no range releases, which the code uses only during initialisation; `RangeReleaseKeepsHintIff` gives their exact effect on the hint.
- Processes.Kernel.Create: the memory amounts are enough for every state and not always needed, since a piece that fits into the heap as it is costs no frame; the fields of a process object are those of the class `Process`, not words of its heap payload; contents of TSS, kernel stack, gateway and heap page are not modelled, the LDT's are.
- Processes.Kernel.CreateLdt: the code's path for a failed LDT index allocation is left out, because in a fresh bitmap none can fail (`ChooseSelectors`); the LDT and its bitmap are arrays beside the heap payloads allocated for them, and the LDT descriptor in the GDT entry is not written (`SystemRoundTrip` is about its words).
- Processes.Kernel.CreateTss: the words of the TSS (owner, CR3, selectors) and its descriptor in the GDT entry are not written.
- Processes.Kernel.Terminate: the owner, which the code decodes from the loaded TSS descriptor, is the parameter; VM86 processes keep it at another offset and are not modelled.
- Processes.Kernel.Tick: the heap, paging and process operations run to completion; that interrupts are off inside them is taken from the code and not modelled.
- AddressSpaces.GrowUserHeap: nothing is mapped at the end of the heap yet, while the code maps over what is there; the end is a parameter, not a field of the class `Process`.
- ProcessPopulation.AlwaysDestroyable: books only; `KernelMachine.AlwaysDestroyable` adds directory and frames.
- KernelRuns.NothingLeaks: books only; `KernelMachine.NothingLeaks` adds directories, tables and frames.
- ProcessPopulation.StepKeepsAccounts: nobody destroys a process that is already waiting for its deferred destruction, and creations appear with what `Kernel.Create` promises.
- Scheduler.AdditionSound: the task is not queued yet; for one that is, `AddedTwiceIff` has the exact outcome.
- Keyboard.DecodeEncodeAll: leaves out the key events that `KeyIsUnderstoodIff` shows are not understood.
- KeyboardInterleaving.LossesAreCovered: the loss counter does not wrap all the way round between two comparisons.
- MouseInterleaving.StepKeepsGood: the same for the mouse loss counter; the service runs at its privilege level, and its counters of calls, decoded and malformed packets are left out.
- MouseEvents.MouseShared.ProcessRequest: replies are values of a datatype, not words with flag bits; the lock around the request is in `MouseInterleaving`.
- CursorQueue.PacketQueue.Enqueue: the counters do not wrap.
- UhciSystem.StepKeepsGood: the report callback is installed, and bits on the wire are not corrupted: an answer arrives whole, with an error, or not at all.
- UhciStream.UhciController.Start: the port check with its speed is the parameter `up`.
- StorageAccess.UserOutput: the process object's words are read from a record, and CR3 is a parameter.
- Port I/O, PCI scans, MMIO, timing, EHCI, graphics mode setting, audio and panic screens: devices appear only as arbitrary values or steps.
- Privilege transitions, system-call frames, call gates and register save and restore.
- VM86 processes.
- The boot loader's disk probing, manifest check, storage-interface parser and load loop; the storage-interface parser is a simpler relative of the mouse parser.
- String and memory loops, cursor image and scene building.
- set_gdt_entry of the boot stage, which is right only for the constant limits it is used with.
