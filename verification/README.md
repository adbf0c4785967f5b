# VIBIX kernel: verified model

VIBIX is a small x86-64 kernel. This project models its five stateful parts and proves what they
keep over every input and every run:

- address spaces and image builders: `Pmm`, `PageTables`, `Trees`, `Paging`, `Teardown`, `Cloning`, `CreateRoot`, `Fork`,
  `Isolation`, `AddressSpaces`, `Footprint`, `Provenance`, `Loading`, `ElfFormat`, `Accounting`, `Elf`, `Flat`;
- the kernel heap: `Heap`;
- scheduler, zombies, waitpid and signals: `Signals`, `ProcessTable`, `Registers`, `Scheduler`, `StackGuard`;
- open files, descriptors and pipes: `FileTables`, `Files`;
- two algorithms and two byte streams: `Intervals`, `PipeRing`, `Tty`.

`dafny verify dfyconfig.toml` checks the whole project.

## How to read it

State the kernel updates in place is a class with methods (`Machine`, `LoadedPages`, `KernelHeap`, `Kernel`, `FileSystem`,
`PipeBuf`, `Terminal`); each method's contract is stated through predicates over values, and the proofs are lemmas
about those values. Frames are frame numbers; physical memory is a map from frame to a table of 512 entries or to
4096 bytes; every address-space step works on that memory, the allocator's bitmap and CR3.

The ghost map `own` names, for one root, every frame it owns with its place in the tree (Intel SDM volume 3A, section 4.5,
4-level paging). `Space` says that this map is exact and that the root reads no other frame of `pool`, the frames that
were free when its construction began. Failure atomicity, isolation and teardown all rest on it. `AddressSpaces` puts all
live roots together, with every frame they own or may be given as the pool.

Scope conditions, in the code's own terms:

- per-process mappings lie under PML4[0] from 0x2000000 up; entries 1 to 511 are copied by value;
- the 1 GiB slot of the scratch page is never cloned, and no 1 GiB page lies on a walked path;
- pages that PT_LOAD headers round to lie below 512 GiB, which the code does not check;
- the active root of an ELF load maps every page below 0x2000000, as the kernel's identity map does from boot on
  (`kernel_rust/src/lib.rs:94`, `kernel_rust/src/paging.rs:859-861`);
- the active root reads no free frame;
- runs of the scheduler start where `start_scheduler` jumps, and interrupts stay off inside the kernel, so a saved frame of a
  process other than idle is a user frame;
- `kfree` is given live pointers or ones whose header has another magic number; `kmalloc` sizes are at most 2^64 - 32, which is
  exactly when its arithmetic does not wrap (`Heap.NeededFits`; `Heap.NeededWraps` is a size for which it does).

Where comments and code differ the code is followed: `unmap_and_free_empty` reclaims every table left without entries, not
only those created for the page; `fork` uses up a process number even when no slot is free.

Where the code does less than one might expect, an input shows it and a theorem says exactly when:

- `try_map_4k` keeps the tables it made when a later one cannot be had (`Paging.FailedMap`), so rollback of a load need not
  restore the bitmap: `Elf.Load` says for every failed load whether it does (`Accounting.Restores`), `Elf.FrameLost` is an
  input on which it does not; the teardown of a failed build does (`Elf.BuildExecImage`);
- the checks skip an empty segment, which may then lie anywhere (`ElfFormat.AcceptedPages`, `ElfFormat.LowSegment`); below
  the user range it ends in a collision (`Elf.LowSegmentCollides`);
- waitpid(-1) looks at the first child only (`Scheduler.WaitReaps`, `Scheduler.ZombieMissed`);
- sigreturn overwrites the pending set (`Scheduler.SignalLost`, `Scheduler.SurvivesHandler`, `Scheduler.InterruptLost`);
- a table of executable ranges is refused for capacity by its prefixes, hence by the order of its headers
  (`Intervals.ExecutableIntervals`, `Intervals.OrderMatters`);
- the guard on the user stack is one page too low for ELF images (`StackGuard.FrameOnStack`, `StackGuard.BelowStack`);
- only the reader recorded last is woken (`Tty.Terminal.PushByte`, `Tty.TwoReaders`);
- a `kmalloc` request near 2^64 wraps (`Heap.NeededFits`, `Heap.NeededWraps`).

## Model

| member | source | states |
|---|---|---|
| Pmm.PmmAllocator.Alloc | kernel_rust/src/pmm.rs:112-121 | the lowest free page is taken and only its bit changes; null exactly when no page is free, and then nothing changes |
| Pmm.PmmAllocator.FreePage | kernel_rust/src/pmm.rs:156-167 | clears one bit, ignores addresses outside the bitmap |
| Pmm.PmmAllocator.AllocPages | kernel_rust/src/pmm.rs:126-153 | succeeds exactly when the run starting at the lowest free page is long enough, marking exactly that run; otherwise the bitmap is restored bit for bit |
| Pmm.SameBitmap | kernel_rust/src/pmm.rs:20-27 | the set of free frames and the unused tail determine the whole bitmap, so equal free sets mean equal bitmaps |
| PageTables.IndicesInverse | kernel_rust/src/paging.rs:112-119 | below 2^48 a page address is recovered from its four indices |
| PageTables.PathInverse | kernel_rust/src/paging.rs:112-119 | every index path is the path of its address |
| PageTables.WalkAgree | kernel_rust/src/paging.rs:1051-1078 | a walk that reads no changed frame translates as before, from any root |
| PageTables.NewTable | kernel_rust/src/paging.rs:744-760 | hanging a zeroed table adds one owned node and changes no translation and no data |
| PageTables.SetLeaf | kernel_rust/src/paging.rs:703-742 | writing one leaf adds one binding and leaves every other page of all 2^36 alone |
| PageTables.ClearLeaf | kernel_rust/src/paging.rs:916-954 | clearing one leaf removes one binding and nothing else |
| PageTables.OutsideChange | kernel_rust/src/paging.rs:1051-1078 | changing data frames or frames the root does not own moves none of its nodes or translations |
| Paging.Machine.TryGetOrCreateTable | kernel_rust/src/paging.rs:744-760 | finds the next table or creates it zeroed from one free frame; fails only with no frame free, changing nothing |
| Paging.Machine.TryMap4K | kernel_rust/src/paging.rs:703-742 | adds exactly one binding or none, with every other page of the address space and all data unchanged; it fails exactly on the scratch page, on a mapped page, or when fewer frames are free than tables are missing; in the first two cases nothing changes, in the last every free frame has become a table; no entry off the way to the page changes, on it present entries change by the user bit alone, and after a mapping for programs every entry on the way has it, so that they reach the page |
| Paging.FailedMap | kernel_rust/src/paging.rs:703-742 | a failed mapping leaves the free frames alone exactly when the page is the scratch page, was mapped, or none was free; otherwise it takes them all |
| Paging.Machine.TryMap4KTarget | kernel_rust/src/paging.rs:792-815 | the same in another root, the reachability from user mode included, with CR3 restored |
| Paging.ReservedPages | kernel_rust/src/paging.rs:112-119 | the scratch page is the page at 0x40000000 and no other, and the user range is what lies from 0x2000000 up under PML4[0] |
| Paging.Machine.UnmapAndFreeEmpty | kernel_rust/src/paging.rs:872-954 | removes exactly the binding of the page (a whole 2 MiB slot if one is mapped), reports None exactly when there was none, and frees only tables on the way to it, each all zero, so that none of those left is empty; no place off the way to it changes |
| Paging.Machine.PruneWalk | kernel_rust/src/paging.rs:935-952 | frees exactly the tables on the way to the page that are left without entries: freed ones are on that way and all zero, none that stays is empty, and no translation changes |
| Teardown.DestroyUncommittedPml4 | kernel_rust/src/paging.rs:963-1007 | exactly the frames the root owns become free, each released once and only while allocated; shared kernel tables are not touched |
| CreateRoot.CopyUserPageThroughScratch | kernel_rust/src/paging.rs:299-320 | the child frame gets the bytes of the parent page and the scratch entry is put back |
| CreateRoot.CloneLeaf | kernel_rust/src/paging.rs:564-607 | one PTE: a user leaf becomes a private copy with equal bytes and flags, anything else is carried over |
| CreateRoot.ClonePt | kernel_rust/src/paging.rs:541-607 | all 512 entries of a user page table are cloned, or the shortage of frames is reported |
| CreateRoot.CloneSlot | kernel_rust/src/paging.rs:507-624 | one PDE: cloned, dropped or shared as the mode says, with user huge pages refused |
| CreateRoot.ClonePd | kernel_rust/src/paging.rs:441-626 | one PDPTE, with the scratch slot skipped and 1 GiB pages treated as in the code |
| CreateRoot.BuildRoot | kernel_rust/src/paging.rs:360-635 | a new root that is a clone of the active one, or nothing with all frames back |
| CreateRoot.BuildingTearsDown | kernel_rust/src/paging.rs:963-1007 | tearing down a root under construction returns precisely the frames that were free before it |
| Fork.ProvisionKernelScratch | kernel_rust/src/paging.rs:174-233 | the scratch walk exists afterwards, or every table this call created is gone again |
| Fork.CleanupKernelScratch | kernel_rust/src/paging.rs:238-277 | only the scratch branches this call created are removed |
| Fork.UndoRestores | kernel_rust/src/paging.rs:238-277 | after clean-up the active root's memory is exactly what it was |
| Fork.CreatePml4 | kernel_rust/src/paging.rs:345-635 | fails exactly when the clone needs more frames than are free (less the scratch tables of a fork), on a user huge page, or with the scratch page unusable; then the free frames are as before; on success the new root owns exactly the frames that left the free set and is a clone; every frame in use keeps its contents |
| Isolation.ForkIsolation | kernel_rust/src/paging.rs:360-635 | parent and child map the same user pages with equal flags, bytes and access rights (user, write and execute over all levels), child frames were free and are pairwise distinct, the parent's mappings and bytes are unchanged |
| Isolation.KernelPage | kernel_rust/src/paging.rs:401-403 | kernel pages resolve, with the same access rights, as in the source root |
| Isolation.ImageRootEmpty | kernel_rust/src/paging.rs:465-534 | without copying, the user range of a new root is empty |
| Isolation.RootsUndisturbed | kernel_rust/src/paging.rs:345-635 | every other root that reads no free frame translates and protects as before |
| Isolation.CreateMapDestroy | kernel_rust/src/paging.rs:345-1007 | create in either mode, any sequence of mapping attempts, destroy: the bitmap is bit for bit the original |
| AddressSpaces.Create | kernel_rust/src/paging.rs:345-635 | a root created or forked from any live root joins the others: all roots' frames stay apart from each other and from the free ones, and their sum is unchanged |
| AddressSpaces.MapPage | kernel_rust/src/paging.rs:703-815 | mapping a page of one root changes no other root and loses no frame |
| AddressSpaces.UnmapPage | kernel_rust/src/paging.rs:872-954 | unmapping a user page and freeing its frame does the same |
| AddressSpaces.Destroy | kernel_rust/src/paging.rs:963-1007 | destroying a root frees exactly its frames and leaves all others sound |
| AddressSpaces.Run | kernel_rust/src/paging.rs:345-1007 | over any run of create, fork, map, unmap, destroy and switch the frames of the live roots are pairwise disjoint and disjoint from the free ones, and the frames owned or free are always the same |
| AddressSpaces.PagesApart | kernel_rust/src/paging.rs:345-1007 | in every such state two user pages share a frame only if they are the same page of the same root, and no page is backed by a free frame |
| Provenance.LoadedPages.Reserve | kernel_rust/src/elf.rs:249-273 | appends one entry, in the last chunk while it has room, else in the lowest free chunk, which leaves the mask; fails, changing nothing, exactly when a chunk is needed and none is free |
| Provenance.LoadedPages.RoomLeft | kernel_rust/src/elf.rs:249-273 | another page can be recorded if and only if fewer are than 64 times the chunks free when the load began |
| Provenance.LoadedPages.CancelReservation | kernel_rust/src/elf.rs:275-282 | drops the entry reserved last |
| Provenance.LoadedPages.Fill | kernel_rust/src/elf.rs:1142-1145 | records a page in the entry reserved last |
| Provenance.LoadedPages.Find | kernel_rust/src/elf.rs:284-297 | the frame recorded for an address, None exactly when no recorded page has it |
| Provenance.LoadedPages.ReleaseMetadata | kernel_rust/src/elf.rs:322-354 | every chunk goes back: the free mask is what it was before the load |
| Loading.MapTracks | kernel_rust/src/elf.rs:1126-1145 | a mapping attempt extends the set of mapped pages by one or leaves it, keeping the bytes of the others |
| Loading.WriteTracks | kernel_rust/src/elf.rs:1157-1172 | writing a loaded page moves no mapping |
| Loading.UnmapTracks | kernel_rust/src/elf.rs:299-320 | undoing one page removes exactly its mapping and frees exactly its frame |
| Loading.Discard | kernel_rust/src/elf.rs:837-855 | giving up a load restores the bitmap from before the root was created |
| Loading.MapFreshPage | kernel_rust/src/elf.rs:1126-1145 | fails exactly when the frames free are not more than the tables missing, or on the scratch page; then one frame is free again if any was, and tables are kept exactly if two or more were free and the page is not the scratch page |
| Loading.UserPageAddress | kernel_rust/src/paging.rs:112-119 | every page of the user range has exactly one user address below 512 GiB, so statements over addresses cover it |
| Loading.RecordedPage | kernel_rust/src/elf.rs:843-873 | a user page of the new root is mapped exactly when recorded, read-write, on a frame of its own that was free |
| ElfFormat.AcceptedSegment | kernel_rust/src/elf.rs:964-1002 | pages of an accepted non-empty segment are user pages, none of them scratch or stack, and its file bytes exist |
| ElfFormat.AcceptedPages | kernel_rust/src/elf.rs:964-1002 | the pages an accepted segment rounds to are all user pages, none of them scratch or stack, if and only if it is not empty, is aligned, or lies in such a page |
| ElfFormat.LowSegment | kernel_rust/src/elf.rs:977-979 | an accepted header for which they are not: empty, at 0x1001 |
| ElfFormat.VisitsAre | kernel_rust/src/elf.rs:1037-1092 | the pages in the order the loader comes to them are the segments' pages, each once |
| ElfFormat.Validate | kernel_rust/src/elf.rs:956-1008 | None exactly when every header is accepted and an executable segment holds the entry; otherwise the first header's error |
| ElfFormat.WantIsLast | kernel_rust/src/elf.rs:1193-1243 | the image byte is the file byte of the last PT_LOAD in table order that covers the address, and 0 when none does |
| ElfFormat.PhdrsRead | kernel_rust/src/elf.rs:76-87 | a program header in a file, with any field values and wherever the table lies, is read back field for field; it loads if and only if its type is 1 and is executable if and only if bit 0 of its flags is set |
| ElfFormat.PhdrsAre | kernel_rust/src/elf.rs:1037-1060 | every header the loader goes by is one the file has, field for field |
| ElfFormat.HeaderErrors | kernel_rust/src/elf.rs:912-955 | which error each bad field of the file header gives, in which order, and that no other field matters |
| ElfFormat.AcceptsExactly | kernel_rust/src/elf.rs:964-1002 | exactly which segments are accepted, executable or not |
| Footprint.GrownOwn | kernel_rust/src/elf.rs:1092-1175 | after any number of pages the root owns exactly what it did and one frame for each leaf and each table the pages needed |
| Footprint.NeedMore | kernel_rust/src/paging.rs:703-742 | one more page needs its leaf and the tables missing at that point, counted in the root before the load |
| Footprint.UndoneStep | kernel_rust/src/paging.rs:916-954 | taking one page out again, in any order, keeps: places off the pages and on those still in are as they were, and of the other tables those are gone that are empty |
| Footprint.FreeAgain | kernel_rust/src/elf.rs:299-320 | adding pages and taking them all out restores the free frames if and only if every table on their way that was there before held something the pages did not replace |
| Footprint.LeakStays | kernel_rust/src/elf.rs:299-320 | a frame taken for a table away from the loaded pages is not given back by taking them out |
| Accounting.Foresee | kernel_rust/src/elf.rs:1107-1138 | at every page the collision test, the frames free and the outcome of mapping are those computed before the load |
| Accounting.RolledBack | kernel_rust/src/elf.rs:789-800 | a load that stopped and was rolled back stopped at the page and with the error computed before, and its free frames are as before if and only if `Restores` |
| Accounting.RestoresUnlessStarved | kernel_rust/src/elf.rs:299-320 | in a root without empty tables that is: unless a page other than the scratch page was refused frames with two or more left, but not enough for it and its missing tables |
| Elf.MapSegmentPage | kernel_rust/src/elf.rs:1107-1175 | the error is the one `Fate` gives, and None means the page is mapped, recorded and zeroed; otherwise the reservation and frame are given back, and tables are left behind exactly if `Leaks` |
| Elf.MapSegment | kernel_rust/src/elf.rs:1092-1191 | exactly the pages of the segments so far are mapped, pages of earlier segments being reused with their bytes |
| Elf.CopySegment | kernel_rust/src/elf.rs:1193-1243 | after copying through the page tables every loaded page shows the image including this segment; CR3 is restored |
| Elf.Rollback | kernel_rust/src/elf.rs:299-320 | every translation of the root is as before the load; of the tables on the way to the pages exactly those left empty are gone, and no other place of its tables changes |
| Elf.Load | kernel_rust/src/elf.rs:902-1258 | an error (the one the checks name, or a collision, a lack of memory or of records) with all translations and the record arena as before, or the whole image; for an acceptable image which of these is computed from the image, the root and the free frames before the call (`StopAt`, `Fate`), and a failed load restores the free frames if and only if `Restores` |
| Elf.LowSegmentCollides | kernel_rust/src/elf.rs:977-979 | an accepted image with an empty segment at 0x1001, on which a load ends in MappingCollision with the free frames as before |
| Elf.FrameLost | kernel_rust/src/elf.rs:299-320 | an image with one page at 0x80000000 and a root with two frames left for which a load ends in Oom and does not restore the free frames |
| Elf.BuildExecImage | kernel_rust/src/elf.rs:822-887 | a failed build leaves bitmap, record mask, CR3 and all frames in use exactly as before; a successful one maps segments and stack under a new root |
| Elf.ElfImageMeaning | kernel_rust/src/elf.rs:822-881 | a user page is mapped exactly if it is a rounded segment page or one of the 16 stack pages, never both, reachable from user mode, on a private frame that was free; every byte of a segment page is the promised one |
| Elf.ProgramReadsFile | kernel_rust/src/elf.rs:1193-1243 | where the file has a PT_LOAD header, the program reads at each of its addresses the byte at the header's file offset, and 0 past its file bytes, as far as no later header (or, past them, no other) has a file byte there |
| Elf.EntryIsCode | kernel_rust/src/elf.rs:994-1008 | the entry point lies in a segment the file marks executable, on a page reachable from user mode |
| Flat.MapPage | kernel_rust/src/process.rs:340-372 | a page with the given bytes is mapped, or its frame is back |
| Flat.BuildFlatImage | kernel_rust/src/process.rs:301-412 | size errors as in the code; a failed build leaves bitmap, CR3 and all frames in use exactly as before |
| Flat.FlatImageMeaning | kernel_rust/src/process.rs:335-411 | exactly the code pages and the stack page are mapped, each reachable from user mode and on its own frame that was free, and a code page holds the source bytes, zero beyond them |
| Flat.FlatHoldsAll | kernel_rust/src/process.rs:335-372 | every byte of the source is mapped, reachable from user mode, at 0x2000000 plus its offset |
| Flat.Layout | kernel_rust/src/process.rs:301-334 | the stack page is the first page from 0x2002000 up past the source, and exactly the sizes from 1 to 0x2FFF000 are accepted |
| Heap.NeededFits | kernel_rust/src/kmm.rs:126-128 | a request gets room for its header and all its bytes exactly when it is at most 2^64 - 32, that is when nothing wraps |
| Heap.NeededWraps | kernel_rust/src/kmm.rs:126-128 | the largest request wraps around to a bare header |
| Heap.GapsUnique | kernel_rust/src/kmm.rs:180-222 | the live blocks determine the free list: there is one address-sorted list of maximal gaps |
| Heap.RoomIsBlock | kernel_rust/src/kmm.rs:130-170 | a free block is big enough exactly when some stretch of the heap without live bytes is |
| Heap.TakenGaps | kernel_rust/src/kmm.rs:133-165 | splitting or taking a block leaves the maximal gaps around one more live block |
| Heap.InsertedGaps | kernel_rust/src/kmm.rs:205-220 | inserting with both coalescings leaves the maximal gaps around the remaining live blocks |
| Heap.KernelHeap.Init | kernel_rust/src/kmm.rs:90-113 | one gap of 1 MiB, or an empty heap when the pages cannot be had |
| Heap.KernelHeap.Kmalloc | kernel_rust/src/kmm.rs:117-176 | null exactly for size 0 or when no stretch without live bytes is long enough; else the lowest such stretch, 8-aligned, disjoint from every live block; it takes exactly the bytes needed when 64 or more stay free after them, and otherwise all that is free there, less than 64 bytes more |
| Heap.KernelHeap.Kfree | kernel_rust/src/kmm.rs:180-222 | exactly that block stops being live and the list is again the maximal gaps; null or a wrong magic number changes nothing |
| Heap.KernelHeap.MallocThenFree | kernel_rust/src/kmm.rs:117-222 | allocating and freeing is the identity on the free list, header for header |
| Heap.KernelHeap.MallocTwice | kernel_rust/src/kmm.rs:117-176 | a second request succeeds when it fits in what the first has left of its gap |
| Heap.FreeOrder | kernel_rust/src/kmm.rs:180-222 | two blocks freed in either order leave the same free list |
| Heap.KernelHeap.StoreData | kernel_rust/src/kmm.rs:54-73 | stores to the data of a live block hit no header |
| Scheduler.Kernel.constructor | kernel_rust/src/process.rs:1436-1448 | the state the scheduler starts from: init running, idle ready |
| Scheduler.Kernel.SchedNext | kernel_rust/src/process.rs:791-821 | the first ready process after the current slot, idle only when there is none, and always a ready one |
| Scheduler.Kernel.MarkZombie | kernel_rust/src/process.rs:159-182 | the process becomes a zombie and its parent is woken, with the result 0, exactly if it is blocked on it; one live process fewer |
| Scheduler.Kernel.Reselect | kernel_rust/src/process.rs:841-943 | the kill-and-reselect loop terminates with exactly one running process, its address space and stacks loaded, everyone else's registers untouched; the halt is never reached |
| Scheduler.Kernel.SchedulerTick | kernel_rust/src/process.rs:827-943 | the switch is as above, and the selections it adds begin with a table that has the interrupted registers for the interrupted process |
| Scheduler.Kernel.SaveAndSwitch | kernel_rust/src/process.rs:948-1054 | the same on the way out of a system call, with the registers it returns, keeping a Blocked or Zombie state |
| Scheduler.TickKeepsRegisters | kernel_rust/src/process.rs:838-943 | after a tick the interrupted process, waiting or killed, has exactly the interrupted registers; selected again it runs on with them unless delivery kills it or enters a handler |
| Scheduler.RegistersKept | kernel_rust/src/process.rs:827-1054 | over any run: a process switched out, not selected since, and then selected with no effective signal runs with exactly the registers it had, unless it had blocked with a result other than 0 |
| Scheduler.BlocksWithZero | kernel_rust/src/process.rs:1417-1430 | no system call does: one that blocks its caller returns 0, which waking it does not change |
| Scheduler.DidWait | kernel_rust/src/syscall.rs:465-497 | no system call changes the registers of a process other than its caller, but for the result of a waiting parent |
| Registers.FramesPicked | kernel_rust/src/process.rs:842-940 | the invariant behind that: whoever has not been selected since a selection has the registers it had then |
| Scheduler.Kernel.DeliverPending | kernel_rust/src/signal.rs:187-326 | what is delivered is what `Deliver` says, of which the theorems follow; the handler's frame is written to the user stack, and a kill leaves a zombie with its exit code and one live process fewer |
| Scheduler.Kernel.CheckSignals | kernel_rust/src/signal.rs:121-173 | the gate is the function `GateOf`; with SIGKILL pending nothing passes and the caller is a zombie |
| Scheduler.Kernel.SysExit | kernel_rust/src/syscall.rs:62-83 | the caller is a zombie with its exit code, a parent blocked on it is ready, nobody else changes, and the scheduler is asked for |
| Scheduler.Kernel.SysFork | kernel_rust/src/process.rs:1096-1158 | in the first free slot a ready child with a number not in use, its own address space, stack and registers, the parent's handlers and stack bound, nothing pending and no handler running; fails exactly without a free slot or the child's memory, and then the table is unchanged |
| Scheduler.Kernel.SysExec | kernel_rust/src/process.rs:1267-1322 | new address space in CR3 and table, handlers, pending signals and the running handler reset, and the call returns to the entry point on the new stack |
| Scheduler.Kernel.SysWaitpid | kernel_rust/src/process.rs:1352-1433 | reaps the first matching child if it is a zombie, storing its exit code, blocks on it if not, and fails exactly when there is none; a number is never returned twice |
| Scheduler.WaitReaps | kernel_rust/src/process.rs:1359-1431 | with a zombie to be had, waitpid reaps one exactly when the first child in slot order is a zombie |
| Scheduler.WaitForOne | kernel_rust/src/process.rs:1359-1371 | a request that names one process finds it if it is a zombie |
| Scheduler.ZombieMissed | kernel_rust/src/process.rs:1359-1431 | a table with a zombie for which waitpid(-1) blocks or returns 0 |
| Scheduler.Kernel.SysKill | kernel_rust/src/signal.rs:332-355 | exactly which arguments and targets are refused and which number makes the kernel panic; else the signal is pending, a blocked target is ready, nobody else changes |
| Scheduler.Kernel.SysSigaction | kernel_rust/src/signal.rs:361-397 | refuses exactly numbers out of range and SIGKILL, else sets that handler and changes nothing else |
| Scheduler.Kernel.SysSigreturn | kernel_rust/src/signal.rs:409-452 | with a saved frame the process and the frame pushed for it are the undoing of delivery; without one nothing happens |
| Scheduler.SignalLost | kernel_rust/src/signal.rs:409-452 | a pending signal is lost by sigreturn exactly when there is a saved frame and the mask saved in it lacks the signal |
| Scheduler.SurvivesHandler | kernel_rust/src/signal.rs:187-452 | with the frame intact that is exactly when the signal was not pending, besides the one delivered, when the handler was entered |
| Scheduler.KillNotLost | kernel_rust/src/signal.rs:121-173 | SIGKILL is not lost this way: the gate terminates the process before sigreturn is reached |
| Scheduler.InterruptLost | kernel_rust/src/signal.rs:332-452 | SIGINT, fatal by default, sent to init while a handler runs is pending, does not stop sigreturn, and is gone after it |
| Scheduler.Kernel.TtyInput | kernel_rust/src/vfs/tty.rs:131-233 | of the whole table only the recorded reader, and only while blocked, is changed: a completed byte makes it ready, Ctrl-C gives it SIGINT |
| Scheduler.FeltIs | kernel_rust/src/vfs/tty.rs:131-233 | a completed byte makes the blocked reader ready, Ctrl-C makes SIGINT pending for it, and neither touches anyone else |
| Scheduler.Kernel.Dispatch | kernel_rust/src/syscall.rs:465-497 | each call has exactly its own effect on the table, on the numbers handed out and on the numbers reaped, and its own result |
| Scheduler.Kernel.Syscall | kernel_rust/src/syscall.rs:465-497 | a whole call is the gate, then exactly what the call does (`Did`), then a switch that resumes the frame of sigreturn or the result; it keeps the invariant, and with SIGKILL pending nothing is dispatched |
| Scheduler.Kernel.Run | kernel_rust/src/process.rs:827-1054 | over any run of ticks, system calls and terminal input the invariant holds, no doomed process escapes and numbers do not come back |
| Scheduler.OneRunning | kernel_rust/src/process.rs:827-1054 | in every reachable state exactly one process is Running, it is the current one, and CR3, RSP0 and the system-call stack are its own |
| Scheduler.BoundedWaiting | kernel_rust/src/process.rs:791-821 | in any run, a non-idle process that stays ready is not passed over 63 times in a row once another process was running |
| Scheduler.WaiterHasChild | kernel_rust/src/process.rs:1352-1433 | a process still blocked by waitpid waits for a child in the table that is not a zombie: no wake-up is lost |
| Scheduler.Numbers | kernel_rust/src/process.rs:1093-1150 | process numbers are distinct and below next_pid, count is the number of occupied slots, no number is reaped twice |
| Scheduler.KilledBySecondSelection | kernel_rust/src/signal.rs:187-241 | in any run no process is selected three times with SIGKILL pending |
| Scheduler.SurvivorInHandler | kernel_rust/src/signal.rs:187-241 | a live process that was selected with SIGKILL pending is inside a handler it entered then, with its frame saved, and has not been selected so again |
| ProcessTable.ZombieOk | kernel_rust/src/process.rs:159-182 | becoming a zombie keeps the table invariant, in particular that nobody waits for a zombie |
| ProcessTable.WokenIs | kernel_rust/src/process.rs:159-182 | a parent blocked on the zombie is made ready with result 0 and waits for nobody; no other process is woken |
| Signals.ScanActsOnLowest | kernel_rust/src/signal.rs:216-326 | delivery acts on the lowest effective pending signal and on no other |
| Signals.DeliverActs | kernel_rust/src/signal.rs:187-326 | outside a handler a selection acts on the lowest effective signal from 1 to 31: a default of INT, KILL, USR1 or USR2, or a handler without 160 bytes of stack, kills with the exit code of the code; else the handler is entered with its registers, stack pointer and saved frame as stated; lower signals are dropped, higher ones stay |
| Signals.DeliverContinues | kernel_rust/src/signal.rs:187-326 | the process goes on unharmed if and only if no signal from 1 to 31 is effective |
| Signals.DeliverInHandler | kernel_rust/src/signal.rs:200-208 | inside a handler SIGKILL kills with 137 and nothing else is delivered |
| Signals.KillAtSelection | kernel_rust/src/signal.rs:187-241 | with SIGKILL pending a selection kills, or enters the handler of a lower signal with SIGKILL still pending; inside a handler it always kills |
| Signals.KillAtGate | kernel_rust/src/signal.rs:121-173 | with SIGKILL pending no system call is dispatched, whatever handlers are installed |
| Signals.CheckDecides | kernel_rust/src/signal.rs:140-173 | the gate terminates exactly on a fatal default action and defers exactly when only handlers are pending |
| Signals.GateDecides | kernel_rust/src/signal.rs:121-173 | the gate of a call made outside a handler ends the process if and only if a pending signal is fatal by default, with 128 more than the lowest such as exit code, defers if and only if there are only handlers to run, and drops exactly the signals that do nothing |
| Signals.GateInHandler | kernel_rust/src/signal.rs:121-139 | inside a handler only SIGKILL stops a call |
| Signals.SigreturnUndoes | kernel/syscall_entry.asm:107-176 | sigreturn from the saved words gives back all 15 registers, RIP, RSP and RFLAGS, with the delivered signal no longer pending |
| Signals.RoundTrip | kernel_rust/src/signal.rs:187-452 | with delivery as at each selection, a handler for every pending signal, room on the stack and frames left intact, each handler runs once in increasing order and all registers end as first interrupted |
| Signals.MaskRoundTrip | kernel_rust/src/signal.rs:442-444 | the pending mask survives being stored on the user stack |
| Scheduler.FrameLayout | kernel_rust/src/signal.rs:243-318 | a handler finds on its stack, from its stack pointer up, the fifteen registers, RFLAGS, RSP and RIP it interrupted, its signal number and the pending mask |
| StackGuard.FrameOnStack | kernel_rust/src/signal.rs:243-254 | a frame the guard lets through lies on the stack of an ELF image exactly when the stack pointer is a page above the guard's bound and not above the top |
| StackGuard.BelowStack | kernel_rust/src/signal.rs:243-254 | a stack pointer the guard admits although the frame lies below the stack |
| StackGuard.FlatFrame | kernel_rust/src/process.rs:380-411 | for a flat image the guard keeps the frame on the stack page |
| Files.FileSystem.constructor | kernel_rust/src/process.rs:680-700 | descriptors 0, 1 and 2 of init share one entry counted three times |
| Files.FileSystem.OftAlloc | kernel_rust/src/vfs/open_file.rs:69-85 | the first free entry holds the node with one reference; ENFILE exactly when none is free |
| Files.FileSystem.OftIncref | kernel_rust/src/vfs/open_file.rs:117-125 | one more reference; the 32-bit count is never near saturation |
| Files.FileSystem.OftDecref | kernel_rust/src/vfs/open_file.rs:91-112 | one reference fewer; the close operation runs exactly when it was the last, and then the entry is free |
| Files.FileSystem.PipeClose | kernel_rust/src/vfs/pipe.rs:128-138 | frees the node, and the buffer exactly when its count reaches zero |
| Files.FileSystem.SysOpen | kernel_rust/src/vfs/mod.rs:479-524 | the lowest unused descriptor names a new entry; every failure leaves entries and descriptors as before |
| Files.FileSystem.SysClose | kernel_rust/src/vfs/mod.rs:526-538 | EBADF exactly for an unused descriptor; else the slot is unused, its reference given up, no other entry is another file, and heap blocks of no pipe are untouched |
| Files.FileSystem.SysDup | kernel_rust/src/syscall.rs:343-362 | the lowest unused descriptor names the same entry; which entries are open, and for what, does not change |
| Files.FileSystem.SysDup2 | kernel_rust/src/syscall.rs:369-395 | the new descriptor names the old one's entry, what it named before is given up, equal descriptors change nothing |
| Files.FileSystem.ForkFds | kernel_rust/src/process.rs:1136-1148 | the child has the parent's descriptors, each counted |
| Files.FileSystem.ExecFds | kernel_rust/src/process.rs:1332-1339 | descriptors from 3 up are closed, the rest kept |
| Files.FileSystem.ReapFds | kernel_rust/src/process.rs:1452-1460 | all descriptors of a reaped process are given up |
| Files.FileSystem.SysPipe | kernel_rust/src/vfs/pipe.rs:159-294 | at every failure point the heap free list, open file table, descriptors and pipe buffers are exactly as before; success adds one buffer with two open ends in the two lowest unused descriptors |
| Files.Run | kernel_rust/src/vfs/open_file.rs:69-125 | the invariant holds over any sequence of open, close, dup, dup2, pipe, fork, exec and reap; no heap block leaks: blocks of no pipe are untouched, and with no pipe at either end the heap free list is the same |
| Files.CountsExact | kernel_rust/src/vfs/open_file.rs:69-125 | each count is the number of descriptors naming the entry over all processes, no descriptor names a free entry, and the close operation has run exactly once for each opening no entry holds |
| FileTables.CloseLast | kernel_rust/src/vfs/open_file.rs:99-109 | dropping the last reference keeps the invariant and frees what the pipe end held |
| FileTables.BufferLives | kernel_rust/src/vfs/pipe.rs:128-138 | a pipe buffer is allocated exactly as long as one of its ends is open, counting them |
| FileTables.BufferFreedLast | kernel_rust/src/vfs/pipe.rs:128-138 | closing an end frees the buffer exactly when it was the last one open |
| Intervals.CanonicalUnique | kernel_rust/src/scheduler_evidence.rs:76-147 | a sorted, strictly separated interval list is determined by the addresses it covers |
| Intervals.InsertInterval | kernel_rust/src/scheduler_evidence.rs:107-139 | in place: the array is again sorted and strictly separated and covers exactly the old and the new addresses; refused exactly when a 65th interval would be needed |
| Intervals.ExecutableIntervals | kernel_rust/src/scheduler_evidence.rs:76-147 | merged exactly when no header is malformed, one is executable and no prefix has more than 64 parts, and then the canonical list of the union; refused for capacity exactly when a prefix without malformed headers has more |
| Intervals.ScanDecides | kernel_rust/src/scheduler_evidence.rs:76-147 | the result is determined by the file |
| Intervals.RipInIntervals | kernel_rust/src/scheduler_evidence.rs:150-154 | membership in the merged list |
| Intervals.RipIsExecutable | kernel_rust/src/scheduler_evidence.rs:76-154 | the merged list answers as scanning every header would, whenever the table is merged |
| Intervals.OrderIndependent | kernel_rust/src/scheduler_evidence.rs:76-147 | accepted tables that are permutations of each other give the same list |
| Intervals.ImageSlots | kernel_rust/src/scheduler_evidence.rs:76-105 | every sequence of executable ranges is what the headers of some file contribute |
| Intervals.SlotReads | kernel_rust/src/scheduler_evidence.rs:92-113 | what any program header contributes, for all field values: executable means bit 0 of the flags, whatever the other bits |
| Intervals.HeaderOkIs | kernel_rust/src/scheduler_evidence.rs:76-90 | the file headers the scan accepts |
| Intervals.OrderMatters | kernel_rust/src/scheduler_evidence.rs:76-147 | two files with the same headers in another order, one merged and one refused for capacity |
| PipeRing.PipeBuf.Read | kernel_rust/src/vfs/pipe.rs:85-97 | the next bytes written and not yet read, in order, as many as asked for and available |
| PipeRing.PipeBuf.Write | kernel_rust/src/vfs/pipe.rs:102-116 | appends as much as leaves one byte free |
| PipeRing.Run | kernel_rust/src/vfs/pipe.rs:85-116 | over any run what was read is a prefix of what was written and at most 4095 bytes are in flight, however far the 64-bit positions have wrapped |
| Tty.Terminal.PushByte | kernel_rust/src/vfs/tty.rs:211-233 | the byte is appended unless the ring is full, and exactly the recorded reader is woken |
| Tty.Terminal.ProcessByte | kernel_rust/src/vfs/tty.rs:101-202 | line buffer and completed bytes follow the editing function `Edit`; bytes are lost exactly when those completed do not fit in the ring, and a reader is woken exactly when some are completed |
| Tty.Terminal.Read | kernel_rust/src/vfs/tty.rs:254-294 | hands out completed bytes in order; with none the caller is blocked and recorded |
| Tty.TwoReaders | kernel_rust/src/vfs/tty.rs:211-294 | with two readers the first stays blocked when Enter is typed |
| Tty.Session | kernel_rust/src/vfs/tty.rs:76-294 | over any run without overflow the bytes handed to readers are a prefix of the completed lines |
| Tty.LineTyped | kernel_rust/src/vfs/tty.rs:172-202 | text and Enter or a newline complete exactly that text, capped at 255 bytes |
| Tty.ControlIgnored | kernel_rust/src/vfs/tty.rs:101-119 | Escape and the other control bytes without a meaning change nothing |
| Tty.EraseNothing | kernel_rust/src/vfs/tty.rs:121-129 | erasing on an empty line changes nothing |
| Tty.RawMode | kernel_rust/src/vfs/tty.rs:101-106 | in raw mode every byte is completed as it comes |
| Tty.EraseUndoes | kernel_rust/src/vfs/tty.rs:121-129 | erase takes back the last byte of text |
| Tty.InterruptDiscards | kernel_rust/src/vfs/tty.rs:131-170 | Ctrl-C discards the line and completes a bare newline |
| Tty.OutGrows | kernel_rust/src/vfs/tty.rs:172-182 | completed bytes are never taken back |

## Left out

- Hardware and I/O (serial, framebuffer, timer, keyboard, GDT, interrupt stubs, TLB flushes, boot): CR3, RSP0 and the
  system-call stack are variables, physical memory is directly accessible, input bytes are parameters.
- Interrupts before `start_scheduler` has switched to init.
- brk and mmap; the kernel stacks of processes; the root a process leaves at exec, which the code keeps on purpose.
- The choice between ELF and flat in `sys_exec`: either builder may be used.
- Path resolution, root and device file systems, mounts, the archive parser, stat, seek and directory reading.
- Debug-only fixtures and failure injection; a failed allocation at any point is covered by quantifying over the allocator's state.
- Echo to the serial port in the terminal.
- Segments at or above 512 GiB: their tables hang below PML4 entries that are shared by value.
- Scheduler.Kernel.SysWaitpid: giving back the descriptors and the address space of a reaped child is in `Files.FileSystem.ReapFds` and `Teardown`.
- Scheduler.Kernel.DeliverPending: the check that the saved frame is a user frame always succeeds and is not written out.
- Files.FileSystem.OftDecref: what the close operation of a device or file node does is not modelled, only when it runs.
- Process numbers and the numbering of openings are unbounded; the code's 64-bit counter would have to wrap for a difference.
