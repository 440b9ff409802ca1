# Verified model of the MonkeyOS kernel

This project models the memory subsystem of the kernel and the state machines around it, and
proves whole-run properties of them. Code that updates state in place is modelled by classes and
loops; each such method is proved equal to a function on values, and the theorems are about those
functions and the runs built from them. `dafny verify dfyconfig.toml` checks everything.

| file | what it models |
|---|---|
| `MemAreas.dfy` | interval subtraction on memory areas and area lists |
| `TrackedMemory.dfy` | lookups, trackers and page-table updates over area lists |
| `AddressSpaces.dfy` | `mmap`, `munmap` and the choice of a fresh address |
| `CowMachine.dfy`, `CowSafety.dfy`, `CowKernel.dfy` | copy-on-write processes against a machine whose fork copies everything at once |
| `Bits.dfy`, `FrameAllocator.dfy`, `FramePool.dfy` | the bitmap frame allocator, one region and all regions |
| `LargePool.dfy` | the pool for heap blocks over 64 KiB |
| `RamFiles.dfy` | the RamFs file: pages and a length against a flat byte string |
| `UserStack.dfy` | the initial user stack, read back as a C runtime reads it |
| `Signals.dfy` | pending bits, real-time counts and delivery |
| `Futexes.dfy` | futex wait queues |
| `MessageQueues.dfy` | the System V message queue |
| `Dirents.dfy` | paging through a directory with `getdents` |
| `Paths.dfy` | path normalisation and the mount list |
| `Executors.dfy` | the cooperative executor on one hart |
| `Arith.dfy`, `Bytes.dfy`, `Wrappers.dfy` | division facts, bytes and pages, results |

Main results:

- Copy-on-write is invisible: from boot, after any legal run of forks, page faults, stores, exits,
  mappings and unmappings by any number of processes, whatever byte the hardware lets a process
  read is the byte it has in the eager machine (`CowSafety.CowIsInvisible`), a fault that can be
  served lets its store through (`CowSafety.WriteThroughFault`), and shared memory asked writable
  can always be written (`CowSafety.SharedStoresAlways`).
- A successful `mmap` leaves the range under one area of the kind asked for, every frame granted
  mapped in its place with its protection, and everything outside alone (`AddressSpaces.MmapMaps`).
- Every real-time signal sent is delivered once its handlers get to run
  (`Signals.EverySendIsDelivered`).
- Frame counts, bitmaps and free sets agree over every run, and every frame handed out is zero and
  held by nobody (`FramePool.RunCounts`, `FramePool.GrantsAreFreshAndZero`).
- The large pool is a least-fit allocator whose two fallbacks are dead code; it keeps its blocks
  if and only if its table is short or the pool is not nearly full (`LargePool.AllocKeepsAllIff`).
- A RamFs file is a flat byte string, a user stack reads back as the arguments that went in, and a
  directory listing is complete if and only if each buffer has room for the next record.

Where the code does not do what it is meant to do, the model follows the code, a lemma gives a
concrete input, and another states the exact condition:

- A hole punched into an area loses the trackers above the hole and leaves those inside it mapped
  (`MemAreas.SubAreaExactIff`, `MemAreas.HolePunchExample`). Removing the head of an area takes
  the same branch.
- After the head of a file mapping is unmapped, the rest stands for the wrong part of the file; so
  does a split-off tail unless the mapping began at offset 0 (`MemAreas.SubFilePosIff`,
  `MemAreas.HeadShiftsFileExample`).
- Fork gives every page the protection it thinks right: it keeps a page's own if and only if that
  was read and execute, with write for a shared page (`CowSafety.ForkKeepsProtIff`,
  `CowSafety.ForkOpensExample`).
- The emergency reset forgets live blocks once the table has more than 500 records, and the next
  request is answered with a block still in use (`LargePool.AllocKeepsAllIff`,
  `LargePool.DoubleGrant`).
- A RamFs write that gets some frames but none for its offset, and a truncate without frames, set
  a length the pages do not back (`RamFiles.WriteKeepsInvIff`, `RamFiles.ShortWriteExample`,
  `RamFiles.TruncateKeepsInvIff`, `RamFiles.FailedTruncateExample`).
- A futex wait that times out leaves its id queued, and a second wait then queues it twice. Each
  thread is queued at most once if and only if no wait finds its thread still queued
  (`Futexes.QueuedOnceIff`, `Futexes.TimeoutQueuesTwice`).
- The negation of the least 64-bit selector wraps, so `msgrcv` finds nothing where POSIX makes
  every message eligible (`MessageQueues.FollowsRuleIff`, `MessageQueues.MisreadExample`).
- A buffer too small for the next directory entry ends the listing early and rewinds it
  (`Dirents.ListingIff`, `Dirents.SmallBufferHides`).
- Unmounting removes every mount at a path, not the last one (`Paths.UmountUndoesMountIff`,
  `Paths.UmountTakesBothExample`).
- The stack pointer is not padded to the 16 bytes of the psABI. It is aligned if and only if the
  strings given to `exec` fill an odd number of whole words (`UserStack.StackAlignedIff`,
  `UserStack.MisalignedExample`).
- A write of no bytes past the end of a RamFs file raises its length, unlike write(2). It leaves
  the file alone if and only if its offset is not past the end, or it needs frames and there is
  none (`RamFiles.EmptyWriteIdleIff`, `RamFiles.EmptyWriteExtends`, `RamFiles.EmptyWriteExample`).
- An `mmap` that takes its frames at once panics if and only if it gets frames for a range that is
  not refused and does not start on a page boundary; without a hint, an earlier mapping at an odd
  hint is enough (`AddressSpaces.MmapPanicsIff`, `AddressSpaces.UnalignedPanicExample`). Over every
  run whose hints and munmap starts are page addresses, no call panics
  (`AddressSpaces.AlignedRunNeverPanics`).
- A futex requeue panics if and only if it asks for more waiters than the queue holds
  (`Futexes.FutexTable.FutexRequeue`, `Futexes.RequeuePanicExample`).
- The number given to `tkill` is not checked. It is the signal raised if and only if it is one of
  1 to 64; number 0 raises signal 64 (`Signals.NumRoundTripIff`, `Signals.ZeroRaisesLast`).

Clocks, the frame allocator seen by a file, file reads during `mmap`, the effect of polling a
future and the arrival of signals are parameters of the operations that depend on them.

## Model

| member | source | states |
|---|---|---|
| `MemAreas.SubAreaCoverage` | kernel/src/tasks/memset.rs:41-51 | after `sub_area` an address is covered exactly when it was covered and lies outside the range, for any area list |
| `MemAreas.SubAreaDisjoint` | kernel/src/tasks/memset.rs:41-51 | pairwise disjoint areas stay disjoint, split-off tails included, and none is left empty |
| `MemAreas.SubOne` | kernel/src/tasks/memset.rs:126-197 | one `sub`: the area and its tail cover exactly the old addresses outside the range, apart from each other |
| `MemAreas.OverlapIff` | kernel/src/tasks/memset.rs:107-112 | for nonempty ranges overlapping means sharing an address |
| `MemAreas.SubFilePosIff` | kernel/src/tasks/memset.rs:126-197 | what is left keeps its file; an address keeps its place in the file below a hole, behind one if and only if the area began at offset 0, and never in an area that lost its head |
| `MemAreas.HeadShiftsFileExample` | kernel/src/tasks/memset.rs:179-185 | one page off the head of a two-page file mapping: the second page now stands for the first of the file |
| `MemAreas.SubAreaExactIff` | kernel/src/tasks/memset.rs:126-197 | exactly the trackers and page-table entries in the range go, if and only if no area is split at or below one of its trackers |
| `MemAreas.SubTracksExact` | kernel/src/tasks/memset.rs:126-197 | without such a split the remaining trackers are the old ones outside the range, in order, and the unmapped pages are the tracked ones inside |
| `MemAreas.TailTrackIsLost` | kernel/src/tasks/memset.rs:133-158 | a split drops every tracker above the hole |
| `MemAreas.HolePageStaysMapped` | kernel/src/tasks/memset.rs:133-158 | a split unmaps no page of the area |
| `MemAreas.HolePunchExample` | kernel/src/tasks/memset.rs:133-158 | two resident pages, the first unmapped: the second loses its tracker and the first stays in the page table |
| `AddressSpaces.FreshAddrIsFree` | kernel/src/tasks/task.rs:639-654 | with no address hint the chosen range meets no area and starts above every attached segment |
| `AddressSpaces.FreshAddrIsLeast` | kernel/src/tasks/task.rs:639-654 | a hint is taken as it is; without one the address is the start of the mmap region or the end of an area other than a stack or of a segment |
| `AddressSpaces.FreshMmapNeverEinval` | kernel/src/syscall/mm.rs:48-96 | a mapping without a hint never fails with the overlap error |
| `AddressSpaces.MmapPanicsIff` | kernel/src/tasks/task.rs:149-155 | the alignment assertion fails if and only if the mapping is nonempty, eager, given its frames, at an unaligned address and not refused for an overlap |
| `AddressSpaces.MmapFailsIff` | kernel/src/syscall/mm.rs:24-171 | each of the three errors if and only if its own condition holds; an empty or refused call changes nothing |
| `AddressSpaces.AlignedMmapNeverPanics` | kernel/src/tasks/task.rs:149-155 | while every area and segment ends on a page boundary, a mapping without a hint or at a page address never fails the assertion |
| `AddressSpaces.SubAreaEnds` | kernel/src/tasks/memset.rs:126-197 | what is left of an area after `sub_area` ends where the area ended, or where the hole begins |
| `AddressSpaces.AlignedRunNeverPanics` | kernel/src/syscall/mm.rs:24-180 | over every run whose hints and munmap starts are page addresses, every end stays on a page boundary and no call fails the assertion |
| `AddressSpaces.UnalignedPanicExample` | kernel/src/tasks/task.rs:149-155 | an anonymous mapping at an odd hint, then an eager one without a hint: the assertion fails |
| `AddressSpaces.MmapStep` | kernel/src/syscall/mm.rs:24-171 | every outcome, the panic included, keeps the areas disjoint and nonempty; success adds exactly the range, failure leaves the old coverage, less the range if MAP_FIXED had cleared it |
| `AddressSpaces.MmapMaps` | kernel/src/syscall/mm.rs:97-171 | a nonempty success answers the start of its range, which lies under one area with the kind, file and offset asked for; an eager mapping has every page entry of the range on its frame, with the requested protection if shared and all rights otherwise; an anonymous private one adds no entry; outside, areas, entries and segments are those of the prepared space |
| `AddressSpaces.MmapMapsPage` | kernel/src/tasks/task.rs:278-350 | the k-th frame granted is mapped at the k-th page of the range, in an area of the requested kind |
| `AddressSpaces.MmapKeepsKinds` | kernel/src/syscall/mm.rs:24-171 | outside its range a successful call leaves every address the kind of its area |
| `AddressSpaces.FailedReadRestores` | kernel/src/syscall/mm.rs:152-168 | a non-fixed mapping whose file read fails leaves areas, page table and segments as they were |
| `AddressSpaces.CarveUndoesPush` | kernel/src/syscall/mm.rs:140-168 | subtracting exactly the area just pushed gives the old list back |
| `AddressSpaces.CarveKeepsInv` | kernel/src/syscall/mm.rs:173-180 | unmapping keeps the invariant and leaves nothing that overlaps the range |
| `AddressSpaces.RunKeepsInv` | kernel/src/syscall/mm.rs:24-180 | over every run of mmap and munmap the areas stay disjoint and coverage is what the calls and their answers say |
| `AddressSpaces.AddressSpace.SubtractRange` | kernel/src/tasks/memset.rs:41-51 | the loop of `sub_area` computes the subtraction on areas and page table |
| `AddressSpaces.AddressSpace.AnyOverlap` | kernel/src/tasks/memset.rs:37-39 | finds an overlapping area exactly when there is one |
| `AddressSpaces.AddressSpace.MapAll` | kernel/src/tasks/task.rs:278-350 | maps every tracker, later ones winning |
| `AddressSpaces.AddressSpace.Mmap` | kernel/src/syscall/mm.rs:24-96 | settling the address, refusing an overlap or clearing the range and handing over computes the specified state and answer |
| `AddressSpaces.AddressSpace.FinishMmap` | kernel/src/syscall/mm.rs:97-171 | taking frames, mapping, pushing the area and undoing it after a failed read computes the specified state and answer on every path |
| `AddressSpaces.AddressSpace.Munmap` | kernel/src/syscall/mm.rs:173-180 | subtracts the range and keeps the invariant |
| `CowSafety.CowIsInvisible` | kernel/src/tasks/task.rs:472-564 | from boot, after any legal run, every readable byte of every live process is its byte in the machine whose fork copies all private memory |
| `CowSafety.CowInvariantAlways` | crates/runtime/src/frame.rs:35-40 | from boot, after any legal run, reference counts are exact, free frames are the unowned ones and zero, a writable private page's frame has one tracker, and no frame is both shared and private |
| `CowSafety.SharedStoresAlways` | kernel/src/tasks/task.rs:532-545 | from boot, after any legal run whose shared mappings are asked writable, every live process can store to every byte of its shared memory |
| `CowSafety.StepKeeps` | kernel/src/user/mod.rs:42-119 | every step keeps the invariant and is matched by one step of the eager machine |
| `CowSafety.RunRefines` | kernel/src/tasks/task.rs:472-564 | every legal run is matched by a run of the eager machine from the abstract state |
| `CowSafety.EagerRunIsUnique` | kernel/src/tasks/task.rs:472-564 | the eager machine the runs are compared with is deterministic |
| `CowSafety.LoadsAgree` | kernel/src/user/mod.rs:42-119 | a byte the page table lets a live process read is that process's own or shared byte |
| `CowSafety.ForkKeeps` | kernel/src/tasks/task.rs:472-564 | fork keeps the invariant and gives the child every byte of the parent |
| `CowSafety.ForkEntries` | kernel/src/tasks/task.rs:532-545 | after fork, parent and child map exactly the tracked pages, each to its tracker's frame, readable and executable, and writable if and only if the page is shared |
| `CowSafety.ForkStoresIff` | kernel/src/tasks/task.rs:532-545 | right after fork, parent or child can store to an address if and only if it lies in shared memory |
| `CowSafety.ForkChild` | kernel/src/tasks/task.rs:472-564 | the child is one more live process with the parent's areas and no signal; no other process, frame or page changes |
| `CowSafety.ForkKeepsProtIff` | kernel/src/tasks/task.rs:532-545 | fork keeps the entry of a mapped page if and only if its protection was read and execute, with write exactly for a shared page |
| `CowSafety.ForkOpensExample` | kernel/src/tasks/task.rs:532-545 | a process that maps one page shared and read-only cannot store to it, and can after a fork |
| `TrackedMemory.MapAreasWrites` | kernel/src/tasks/task.rs:532-545 | over any disjoint areas, file-backed ones included, the mapping pass of fork puts each tracked page on its frame, writable if and only if the area is shared |
| `CowSafety.FaultKeeps` | kernel/src/user/mod.rs:42-119 | a fault inside an area, out of memory or not, changes no byte any process can see |
| `CowSafety.FaultServes` | kernel/src/user/mod.rs:42-119 | a fault on a private page with a frame wherever one is needed makes the faulting store legal; any other only queues SIGSEGV |
| `CowSafety.FaultEntry` | kernel/src/user/mod.rs:109-116 | a served fault leaves the page readable and writable, executable if and only if it is not of an mmap area from 0x200000000 on, and no other entry changed |
| `CowSafety.WriteThroughFault` | kernel/src/user/mod.rs:42-119 | a store that faults first, once served, goes through, reads back, and is the eager machine's store |
| `CowSafety.StoreKeeps` | kernel/src/user/mod.rs:42-119 | a store through a writable entry changes that byte of that process, or the shared byte, and no other |
| `CowSafety.ExitKeeps` | kernel/src/tasks/task.rs:844-911 | exit drops the process's references, clears and frees exactly the frames nobody owns, and no other process notices |
| `CowSafety.UnmapKeeps` | kernel/src/tasks/memset.rs:41-51 | an unmapping that splits no tracked area removes exactly the bytes of the range |
| `CowSafety.UnmapEntries` | kernel/src/tasks/memset.rs:126-197 | the page table after such an unmapping is the old one without the range |
| `CowSafety.MapAnonKeeps` | kernel/src/syscall/mm.rs:140-148 | an anonymous private mapping reads as zeros and disturbs nothing |
| `CowSafety.MapFramesKeeps` | kernel/src/tasks/task.rs:278-350 | mapping frames at once gives the process zero bytes of its own, or those of a new common object if the area is shared |
| `CowSafety.MapFramesEntries` | kernel/src/tasks/task.rs:278-350 | every new page is mapped to its frame with the protection asked for, and no other entry changes |
| `CowKernel.ReleaseOneMore` | crates/runtime/src/frame.rs:35-40 | dropping references one at a time clears and frees the same frames as dropping them together |
| `CowKernel.Kernel.DropTracker` | crates/runtime/src/frame.rs:35-40 | the last reference clears the frame and frees it, an earlier one only counts down |
| `CowKernel.Kernel.DropTrackers` | crates/runtime/src/frame.rs:35-40 | dropping a list of trackers releases their frames with multiplicity |
| `CowKernel.Kernel.PageFault` | kernel/src/user/mod.rs:42-119 | finding area and tracker by position, copying, sharing or allocating is the fault step, which is legal and keeps the invariant |
| `CowKernel.Kernel.ShareAreas` | kernel/src/tasks/task.rs:472-564 | the nested loops remap parent and child alike and take one reference per tracker |
| `CowKernel.Kernel.CowFork` | kernel/src/tasks/task.rs:472-564 | the loops compute the fork step and keep the invariant; right after it parent and child can store exactly to shared memory |
| `CowKernel.Kernel.ExitProcess` | kernel/src/tasks/task.rs:844-911 | clearing the areas computes the exit step and keeps the invariant |
| `FrameAllocator.AllocOneStep` | crates/runtime/src/frame.rs:102-121 | `alloc` hands out the lowest free frame and only that one, and fails only when none is free |
| `FrameAllocator.AllocRunStep` | crates/runtime/src/frame.rs:127-192 | `alloc_much` hands out the leftmost run of that many consecutive free frames, and fails exactly when there is none |
| `FrameAllocator.RunNeedsFree` | crates/runtime/src/frame.rs:140-145 | the early rejection by free count is sound |
| `FrameAllocator.FreeOneStep` | crates/runtime/src/frame.rs:198-203 | `dealloc` of any address in the region stays inside the bitmap and frees exactly the frame the address lies in |
| `FrameAllocator.CountIsSize` | crates/runtime/src/frame.rs:82-100 | the number of clear bits is the number of free frames |
| `FrameAllocator.FrameRegionMap.constructor` | crates/runtime/src/frame.rs:65-80 | all frames of the region are free and every padding bit is set |
| `FrameAllocator.FrameRegionMap.GetFreePageCount` | crates/runtime/src/frame.rs:82-100 | the word-wise count is the size of the free set |
| `FrameAllocator.FrameRegionMap.AllocInPos` | crates/runtime/src/frame.rs:102-112 | answers nothing exactly for a full word; in the first word that is not full it finds the lowest free frame |
| `FrameAllocator.FrameRegionMap.Alloc` | crates/runtime/src/frame.rs:114-121 | skipping full words finds the lowest free frame |
| `FrameAllocator.FrameRegionMap.FindWindow` | crates/runtime/src/frame.rs:148-170 | the sliding window finds the leftmost run of clear bits or none |
| `FrameAllocator.FrameRegionMap.MarkRun` | crates/runtime/src/frame.rs:161-165 | marks and lists exactly the frames of the run |
| `FrameAllocator.FrameRegionMap.AllocMuch` | crates/runtime/src/frame.rs:127-192 | rejections, window and marking compute the specified allocation, for zero frames too |
| `FrameAllocator.FrameRegionMap.Release` | crates/runtime/src/frame.rs:198-203 | clears one bit and adds exactly the frame the address lies in to the free set |
| `FramePool.CountIsFree` | crates/runtime/src/frame.rs:228-234 | the sum over the regions is the number of free frames |
| `FramePool.AllocAnyStep` | crates/runtime/src/frame.rs:236-243 | some free frame leaves the free set, or no region has one |
| `FramePool.AllocAnyFirst` | crates/runtime/src/frame.rs:236-243 | the frame is the lowest free one of the first region that has any |
| `FramePool.AllocMuchStep` | crates/runtime/src/frame.rs:245-255 | the leftmost run of some region leaves the free set, or no region has such a run |
| `FramePool.FreeAnyStep` | crates/runtime/src/frame.rs:257-264 | releasing an address in a region adds exactly the frame it lies in to the free set |
| `FramePool.StepKeeps` | crates/runtime/src/frame.rs:208-264 | every operation keeps frames out and frames free complementary, and free frames zero |
| `FramePool.RunCounts` | crates/runtime/src/frame.rs:228-264 | over every run the frames out are distinct, in range and not free, and the free count is the total minus those out |
| `FramePool.GrantsAreFreshAndZero` | kernel/src/main.rs:56-69 | in every state reached, a frame about to be handed out is zero and held by nobody |
| `FramePool.BootInv` | crates/runtime/src/frame.rs:65-80 | the invariant of those runs holds at boot, with every frame free and zero |
| `FramePool.Allocator.GetFreePageCount` | crates/runtime/src/frame.rs:228-234 | the loop over the regions computes the number of free frames |
| `FramePool.Allocator.Alloc` | crates/runtime/src/frame.rs:236-243 | the first region with a free frame serves the request, the others stay as they are |
| `FramePool.Allocator.AllocMuch` | crates/runtime/src/frame.rs:245-255 | the first region with a long enough run serves the request, the others stay as they are |
| `FramePool.Allocator.Dealloc` | crates/runtime/src/frame.rs:257-264 | the region containing the address takes the frame back; without one nothing changes |
| `LargePool.FindFreeBlockIsLeast` | crates/runtime/src/heap.rs:160-187 | the block found is at the least aligned offset that fits, and none is found exactly when none fits |
| `LargePool.FallbacksAreDead` | crates/runtime/src/heap.rs:64-104 | once the first search fails, neither the retry after compaction nor the tail can succeed |
| `LargePool.ResetOnlyHalves` | crates/runtime/src/heap.rs:222-258 | strategies 1 and 2 never remove a record |
| `LargePool.AllocKeepsAllIff` | crates/runtime/src/heap.rs:45-104 | an allocation keeps every live block on the books if and only if the table has at most 500 records or a tenth of the pool remains |
| `LargePool.AllocStep` | crates/runtime/src/heap.rs:45-104 | short of that, `alloc` grants the least fit, refuses only when nothing fits, and adds exactly the granted block |
| `LargePool.DeallocStep` | crates/runtime/src/heap.rs:106-129 | freeing a block in use removes that block and nothing else, and keeps the bound on lingering freed records |
| `LargePool.DeallocCompactsIff` | crates/runtime/src/heap.rs:117-129 | freed records pile up and go all at once, if and only if fifty are reached or a quarter of those in use |
| `LargePool.MismatchedFree` | crates/runtime/src/heap.rs:131-141 | a release that matches no block in use takes the block the address lies in, whatever its size, and changes nothing where there is none |
| `LargePool.FewOwnedNeverForgets` | crates/runtime/src/heap.rs:222-258 | up to 451 live blocks can never make the table long enough to forget |
| `LargePool.RunAgrees` | crates/runtime/src/heap.rs:45-129 | over every matched run table and clients agree on the blocks in use, which stay disjoint and in bounds |
| `LargePool.ModestIsMatched` | crates/runtime/src/heap.rs:222-258 | a client that never asks while owning more than 451 blocks never meets a forgetting reset |
| `LargePool.FromEmpty` | crates/runtime/src/heap.rs:45-129 | from the empty pool, such a client and the table agree on disjoint blocks over every run |
| `LargePool.ChunkIsGranted` | crates/runtime/src/heap.rs:45-104 | each of the first 501 requests of 260000 bytes is granted right behind the previous one |
| `LargePool.ReachableForgetting` | crates/runtime/src/heap.rs:250-255 | after those 501 grants the next request loses track of blocks in use |
| `LargePool.DoubleGrant` | crates/runtime/src/heap.rs:250-255 | and that request is answered with a block another client still holds |
| `LargePool.LargeAllocator.GetAllocationStats` | crates/runtime/src/heap.rs:215-219 | counts freed and used records |
| `LargePool.LargeAllocator.FindFree` | crates/runtime/src/heap.rs:160-187 | the walk over the gaps finds the least aligned fit |
| `LargePool.LargeAllocator.CompactMemory` | crates/runtime/src/heap.rs:189-204 | drops the freed records, keeps every live block, and reports whether anything went |
| `LargePool.LargeAllocator.Reset` | crates/runtime/src/heap.rs:222-258 | computes the three strategies in their order; on a sound table all it can do is halve a long one |
| `LargePool.LargeAllocator.Allocate` | crates/runtime/src/heap.rs:45-104 | computes the specified allocation; on a sound table it is the least fit |
| `LargePool.LargeAllocator.FreeExact` | crates/runtime/src/heap.rs:117-129 | marks the first live record with that offset and size |
| `LargePool.LargeAllocator.FreeContaining` | crates/runtime/src/heap.rs:133-141 | marks the first live record that contains the address |
| `LargePool.LargeAllocator.Deallocate` | crates/runtime/src/heap.rs:106-158 | computes the specified release; a block in use leaves the table and no other does |
| `RamFiles.ReadIsFlatRead` | filesystem/ramfs/src/lib.rs:288-326 | a read returns the flat string's bytes, cut at its length |
| `RamFiles.WriteIsFlatWrite` | filesystem/ramfs/src/lib.rs:328-418 | a write stores exactly the bytes it reports, zero-fills a gap, and leaves the file alone when it fails |
| `RamFiles.WriteIsComplete` | filesystem/ramfs/src/lib.rs:328-418 | with frames enough the whole buffer is stored |
| `RamFiles.WriteStoresWhatFits` | filesystem/ramfs/src/lib.rs:328-418 | a write fails if and only if it needs frames and there is none; otherwise it takes frames up to its need and stores exactly the bytes that then fit the pages |
| `RamFiles.WriteKeepsInvIff` | filesystem/ramfs/src/lib.rs:371-411 | a write leaves length and pages in step if and only if its offset lies within the pages it ends up with, or it gets no frame at all |
| `RamFiles.ShortWriteExample` | filesystem/ramfs/src/lib.rs:371-411 | one byte far into an empty file with one frame left: a length without pages |
| `RamFiles.TruncateIsFlat` | filesystem/ramfs/src/lib.rs:420-452 | a successful truncate cuts or zero-extends the flat string |
| `RamFiles.TruncateKeepsInvIff` | filesystem/ramfs/src/lib.rs:420-452 | length and pages stay in step if and only if the frames needed are there |
| `RamFiles.FailedTruncateExample` | filesystem/ramfs/src/lib.rs:420-452 | one byte of an empty file without a frame: ENOMEM, and the length stays set |
| `RamFiles.EmptyWriteExtends` | filesystem/ramfs/src/lib.rs:407-410 | a write of no bytes past the end, with frames enough, zero-extends the file to its offset |
| `RamFiles.EmptyWriteIdleIff` | filesystem/ramfs/src/lib.rs:328-418 | a write of no bytes leaves the file alone if and only if its offset is not past the end, or it needs frames and none is left |
| `RamFiles.EmptyWriteExample` | filesystem/ramfs/src/lib.rs:407-410 | no bytes at offset one of an empty file, with a frame left: the file is one zero byte long |
| `RamFiles.RunIsFlat` | filesystem/ramfs/src/lib.rs:288-452 | every run of reads, writes and truncates answers as the flat string would |
| `RamFiles.RamFile.ReadInto` | filesystem/ramfs/src/lib.rs:288-326 | the page loop computes the flat read |
| `RamFiles.RamFile.Grow` | filesystem/ramfs/src/lib.rs:340-368 | takes zeroed frames one by one until enough or none is left |
| `RamFiles.RamFile.Store` | filesystem/ramfs/src/lib.rs:371-411 | the page loop stores the bytes and raises the length |
| `RamFiles.RamFile.WriteFrom` | filesystem/ramfs/src/lib.rs:328-418 | computes the specified write on every path, short and failed ones included |
| `RamFiles.RamFile.ClearTail` | filesystem/ramfs/src/lib.rs:420-452 | zeroes every stored byte from the new length on |
| `RamFiles.RamFile.SetLength` | filesystem/ramfs/src/lib.rs:420-452 | computes the specified truncate; the file stays sound exactly when it succeeds |
| `UserStack.HeaderReadsBack` | kernel/src/tasks/elf.rs:133-184 | argc, two NULL-terminated pointer lists and a zero-terminated auxiliary vector read back word by word, whatever lies above |
| `UserStack.ListsReadBack` | kernel/src/tasks/elf.rs:133-184 | read upward from the stack pointer: the argument count, and two pointer lists that lead to the argument and environment strings in order |
| `UserStack.AuxNumbersReadBack` | kernel/src/tasks/elf.rs:152-173 | thirteen pairs, each key once: AT_PHDR, AT_PHENT, AT_PHNUM, AT_PAGESZ and AT_ENTRY carry header address, entry size, count, page size and entry point, and the four ids and AT_SECURE carry 0 |
| `UserStack.AuxPointersReadBack` | kernel/src/tasks/elf.rs:152-173 | the values of AT_PLATFORM, AT_RANDOM and AT_EXECFN lead to the platform name, sixteen zero bytes and the path |
| `UserStack.StringsReadBack` | kernel/src/tasks/task.rs:611-626 | each argument and environment pointer leads to its string, in order |
| `UserStack.StackAlignedIff` | kernel/src/tasks/elf.rs:133-184 | the stack pointer is 16-byte aligned if and only if arguments, environment, path and platform name, each by itself, fill an odd number of whole words |
| `UserStack.MisalignedExample` | kernel/src/tasks/elf.rs:133-184 | no argument, no environment, one-byte path and platform name: not aligned |
| `UserStack.TaskStack.PushBytes` | kernel/src/tasks/task.rs:615-626 | writes the bytes with at least one zero behind them below the old stack pointer |
| `UserStack.TaskStack.PushWord` | kernel/src/tasks/task.rs:628-637 | writes one little-endian word below the old stack pointer |
| `UserStack.TaskStack.InitTaskStack` | kernel/src/tasks/elf.rs:98-184 | the sequence of pushes leaves the specified stack in memory |
| `Signals.NumRoundTripIff` | crates/signal/src/lib.rs:126-141 | the bit scan finds the number a mask was made from if and only if it is one of 1 to 64, and otherwise the number it wraps to |
| `Signals.NumWraps` | crates/signal/src/lib.rs:126-128 | numbers 64 apart make the same mask |
| `Signals.ZeroRaisesLast` | crates/signal/src/lib.rs:126-128 | number 0 makes the mask of signal 64 |
| `Signals.RealTimeIsHigh` | crates/signal/src/lib.rs:143-150 | the real-time mask picks exactly signals 34 to 64 |
| `Signals.SendOwes` | kernel/src/syscall/task.rs:505-590 | a send adds one occurrence of its signal, none if an ordinary signal is already pending, and changes no other |
| `Signals.CompleteOwes` | kernel/src/user/entry.rs:39-66 | a completed delivery takes off one occurrence of its signal and changes no other |
| `Signals.NoRealTimeSignalIsLost` | kernel/src/user/entry.rs:39-66 | over every run, arrivals during a handler and abandoned handlers included, sends of a real-time signal equal completed deliveries plus pending bit plus queue |
| `Signals.DrainDelivers` | kernel/src/user/entry.rs:39-66 | from any point of a run between handlers, letting the handlers run delivers each signal as often as it is due and leaves nothing unmasked |
| `Signals.EverySendIsDelivered` | kernel/src/user/entry.rs:39-66 | from a new thread, after any run, an unmasked real-time signal has then been delivered as often as it was sent |
| `Signals.NewThreadInv` | kernel/src/tasks/signal.rs:9-11 | the invariant of those runs holds of a new thread, whatever its mask |
| `Signals.Thread.Kill` | kernel/src/syscall/task.rs:521-590 | for any number, 0 and those over 64 included: sets the pending bit of the signal it wraps to, or counts a real-time signal that is already pending |
| `Signals.Thread.Finish` | kernel/src/user/entry.rs:53-61 | clears the bit, or keeps it and counts down while more occurrences are queued |
| `Signals.Thread.CheckSignal` | kernel/src/user/entry.rs:39-66 | without arrivals the loop ends, having delivered every unmasked occurrence once, lower numbers first, and nothing else |
| `Futexes.EnqueueUniqueIff` | kernel/src/syscall/task.rs:443-452 | joining a queue keeps every id in one place if and only if the thread stands in no queue |
| `Futexes.WaitKeepsIff` | kernel/src/syscall/task.rs:440-455 | a wait keeps the whole invariant under exactly that condition |
| `Futexes.WakeKeeps` | kernel/src/tasks/async_ops.rs:112-124 | a wake keeps the invariant: the ids taken are counted, those still waiting as woken and the others as lost, and the order of arrival holds |
| `Futexes.WakeReleases` | kernel/src/tasks/async_ops.rs:70-124 | a waiting thread among the first `count` of its queue, woken and then polled, is released with Ok, signal or not |
| `Futexes.MoveKeeps` | kernel/src/tasks/async_ops.rs:126-152 | a requeue that does not panic keeps the invariant and loses no waiter, onto the same address too |
| `Futexes.RequeueWakes` | kernel/src/tasks/async_ops.rs:126-152 | the answer is the number of ids that stood in a queue before and stand in none after, which are the oldest of their queue; the rest is conserved between the two queues and no other changes |
| `Futexes.PollKeeps` | kernel/src/tasks/async_ops.rs:70-93 | every poll, whatever its answer, keeps the invariant |
| `Futexes.PollOutcome` | kernel/src/tasks/async_ops.rs:70-93 | a woken thread is released with Ok and only once; a queued one with a signal leaves table and wait, and no other id moves; any other poll changes nothing |
| `Futexes.FutexTable.PollWait` | kernel/src/tasks/async_ops.rs:70-93 | done exactly off the queues or with a signal, interrupted exactly on a queue with a signal, and then only that id leaves |
| `Futexes.TimeoutLeavesId` | kernel/src/syscall/task.rs:456-473 | a timeout, which comes only to a queued thread, keeps the invariant and leaves the id behind, so that any next wait of that thread queues it twice |
| `Futexes.TimeoutQueuesTwice` | kernel/src/syscall/task.rs:456-473 | from the empty table the legal run wait, timeout, wait leaves the id in the queue twice |
| `Futexes.QueuedOnceIff` | kernel/src/syscall/task.rs:434-500 | over every run, timeouts included, each thread is queued at most once at every point if and only if no wait finds its thread still queued |
| `Futexes.RunKeepsInv` | kernel/src/tasks/async_ops.rs:62-152 | over every such run wake counts equal waits released with Ok, woken threads not yet polled and wakes lost on ids of timed-out waits, and each address serves its arrivals in order |
| `Futexes.NoTimeoutNoLoss` | kernel/src/tasks/async_ops.rs:62-152 | without timeouts no wait finds its thread queued and no wake is lost |
| `Futexes.FromEmpty` | kernel/src/syscall/task.rs:434-500 | those three statements for every run from the empty table |
| `Futexes.RequeuePanicExample` | kernel/src/tasks/async_ops.rs:126-152 | after one wait from the empty table, a requeue that wakes one and moves any positive number panics |
| `Futexes.FutexTable.Join` | kernel/src/syscall/task.rs:443-452 | appends the thread to the queue of its address, a new one if there is none, and touches no other |
| `Futexes.FutexTable.IsQueued` | kernel/src/tasks/async_ops.rs:62-68 | finds the thread exactly when some queue holds it |
| `Futexes.FutexTable.FutexWake` | kernel/src/tasks/async_ops.rs:112-124 | takes the oldest waiters, as many as asked for and there are, answers their number, and touches no other queue |
| `Futexes.FutexTable.FutexRequeue` | kernel/src/tasks/async_ops.rs:126-152 | drains twice and appends the second part to the other queue, or panics exactly when the address has a queue and the counts exceed it; the answer is the number of ids that left the table |
| `MessageQueues.PickIsChosen` | kernel/src/syscall/shm.rs:76-91 | the search finds a message exactly when one is admitted under the bound it computes, and it is first in line, or lowest type and then first |
| `MessageQueues.ReceiveRule` | kernel/src/syscall/shm.rs:76-91 | the message taken, selector by selector: the oldest of all, the oldest of one type, the oldest not of it, or the oldest of the least type up to the bound; none exactly when there is none such |
| `MessageQueues.FollowsRuleIff` | kernel/src/syscall/shm.rs:76-91 | that is the rule of msgrcv if and only if the selector is not the least 64-bit number, or the queue is empty, or the least type is itself stored |
| `MessageQueues.MisreadExample` | kernel/src/syscall/shm.rs:84-91 | one stored message and the least selector: eligible by the rule, not found by the search |
| `MessageQueues.ChosenUnique` | kernel/src/syscall/shm.rs:76-91 | that rule names at most one message |
| `MessageQueues.ChosenLeadsItsType` | kernel/src/syscall/shm.rs:76-91 | whatever the selector, no earlier message has the type of the one chosen |
| `MessageQueues.ReceiveTakes` | kernel/src/syscall/shm.rs:75-100 | a receive removes exactly the chosen message and keeps the byte count exact |
| `MessageQueues.AcceptedIff` | kernel/src/syscall/shm.rs:62-73 | a message is stored at the end if and only if 39 or fewer are stored and the stored text and its own are at most 16384 bytes; otherwise nothing changes |
| `MessageQueues.RunKeepsInv` | kernel/src/syscall/shm.rs:50-101 | over every mix of sends and receives nothing is lost or duplicated, each type keeps its order, and the byte count is exact and within both limits |
| `MessageQueues.FromNew` | kernel/src/syscall/shm.rs:50-60 | hence so for every queue reached from a new one |
| `MessageQueues.MessageQueue.constructor` | kernel/src/syscall/shm.rs:50-60 | a new queue is empty and sound |
| `MessageQueues.MessageQueue.SendMessage` | kernel/src/syscall/shm.rs:62-73 | stores the message at the end exactly when both limits allow it, and says so |
| `MessageQueues.MessageQueue.Position` | kernel/src/syscall/shm.rs:76-83 | the forward search finds the choice for zero and positive selectors |
| `MessageQueues.MessageQueue.LeastPosition` | kernel/src/syscall/shm.rs:84-91 | the minimum search finds the choice for negative selectors |
| `MessageQueues.MessageQueue.ReceiveMessage` | kernel/src/syscall/shm.rs:75-100 | removes and returns the chosen message and keeps the queue sound |
| `Dirents.RecordParsesIff` | filesystem/fs/src/file.rs:125-148 | a record gives its name back if and only if the name has no NUL and the record length fits 16 bits |
| `Dirents.RecordHeader` | filesystem/fs/src/file.rs:128-146 | a record carries inode 0, type 0 and its own length, 25 more than the name's, as offset |
| `Dirents.RestUntouched` | filesystem/fs/src/file.rs:97-153 | the buffer behind the bytes a call reports is as it was |
| `Dirents.ZeroIff` | filesystem/fs/src/file.rs:97-153 | a call returns 0, and rewinds, exactly at the end of the listing or when the next record has no room |
| `Dirents.StretchRead` | filesystem/fs/src/file.rs:97-153 | any other call hands over the next stretch of entries, as many as buffer and quota allow, and moves right past them |
| `Dirents.ListingIff` | filesystem/fs/src/file.rs:97-153 | a client that calls until 0 sees every entry once and in order, with the position back at 0, if and only if each buffer had room for the next record |
| `Dirents.SmallBufferHides` | filesystem/fs/src/file.rs:127-129 | a session over two entries whose buffers hold the first but not the second is told it is complete after the first |
| `Dirents.DirFile.ReadEntries` | filesystem/fs/src/file.rs:97-153 | the loop fills the buffer in place and stores the position as specified, the unreadable directory included |
| `Paths.JoinIsClean` | filesystem/fs/src/pathbuf.rs:36-51 | joining anything to a normalised path leaves no empty, dot, dot-dot or slash-containing component |
| `Paths.PrintRoundTrip` | filesystem/fs/src/pathbuf.rs:53-56 | parsing the printed form of a normalised path gives it back, whatever it is joined to |
| `Paths.JoinInSteps` | filesystem/fs/src/pathbuf.rs:36-51 | joining `a/b` is joining `a` and then `b`, for nonempty `a` and relative `b` |
| `Paths.JoinName` | filesystem/fs/src/pathbuf.rs:36-52 | a name goes one level down |
| `Paths.JoinParent` | filesystem/fs/src/pathbuf.rs:44-46 | two dots go one level up, and stay at the root |
| `Paths.JoinStays` | filesystem/fs/src/pathbuf.rs:43 | one dot and the empty path stay, a slash goes to the root |
| `Paths.JoinCancels` | filesystem/fs/src/pathbuf.rs:36-52 | a name followed by two dots is as good as nothing, before any relative path |
| `Paths.JoinAbsolute` | filesystem/fs/src/pathbuf.rs:37-42 | an absolute path forgets where it is joined, and a doubled slash is one |
| `Paths.JoinPieces` | filesystem/fs/src/pathbuf.rs:36-51 | the loop over the pieces computes the join and keeps paths normalised |
| `Paths.GetMountedIsNewest` | filesystem/fs/src/dentry.rs:33-41 | the answer comes from the newest mount whose path is a prefix, prefix plus remainder is the path, and there is none exactly when no mount matches |
| `Paths.MountTakesOver` | filesystem/fs/src/dentry.rs:49-54 | below a new mount point the new file system answers, elsewhere nothing changes |
| `Paths.UmountUndoesMountIff` | filesystem/fs/src/dentry.rs:61-64 | unmounting undoes a mount if and only if nothing was mounted at that very path before |
| `Paths.UmountTakesBothExample` | filesystem/fs/src/dentry.rs:61-64 | two mounts at one path: a single unmount removes both |
| `Paths.MountTable.Lookup` | filesystem/fs/src/dentry.rs:33-41 | the reverse search computes the lookup |
| `Paths.MountTable.AddMount` | filesystem/fs/src/dentry.rs:49-54 | appends the normalised mount point; below it the new file system answers from then on, elsewhere nothing changes |
| `Paths.MountTable.RemoveMounts` | filesystem/fs/src/dentry.rs:61-64 | removes every mount at the path and keeps the order of the others |
| `Executors.NothingLost` | crates/executor/src/executor.rs:75-93 | over every run, each future ever spawned is pending once or finished once, never both |
| `Executors.FromBoot` | crates/executor/src/executor.rs:75-93 | the same over every run from the empty executor |
| `Executors.BlankIdsAreNew` | crates/executor/src/executor.rs:115-120 | over every run, spawns during a poll included, the ids given to blank spawns are consecutive, so none is given twice |
| `Executors.PollSetsCurrent` | crates/executor/src/executor.rs:75-93 | the hart's current task is the one polled last |
| `Executors.RunKnown` | crates/executor/src/thread.rs:11-31 | over every run each task with a pending future is in the task map |
| `Executors.RunServes` | crates/executor/src/executor.rs:75-93 | a run polls the queue it starts with in order, whatever the polls spawn or return |
| `Executors.TurnComes` | crates/executor/src/executor.rs:75-93 | the item at position k is polled after exactly k other polls |
| `Executors.PendingComesBack` | crates/executor/src/executor.rs:75-93 | a pending future is polled again once everybody queued before it, its own spawns included, has been |
| `Executors.Executor.AddFuture` | crates/executor/src/thread.rs:11-31 | appends one future that was not pending before, with its own task id or a newly allocated one, and keeps every future pending or finished once |
| `Executors.Executor.RunReadyTask` | crates/executor/src/executor.rs:75-93 | takes the head, lets it spawn, and puts it at the end unless it is ready; an empty queue stays as it is |

## Left out

- Multi-hart interleavings, lock implementations and TLB flushes: each locked section is one atomic step.
- The branches of the page-fault handler for addresses in no area, and `sbrk`: they push areas without an overlap check, so the area invariant does not cover them.
- CowSafety.UnmapKeeps: unmapping is a step of the copy-on-write machine only for page-aligned ranges and only where `MemAreas.SubAreaExactIff` says `sub_area` is exact; hole punches and unaligned ranges leave trackers and areas that no longer match.
- The stack area in the copy-on-write machine: it spans a fixed range and gains frames piecemeal; areas that take all their frames at once, shared or private, are covered by `CowSafety.MapFramesKeeps`.
- File-backed shared areas in the copy-on-write machine: write-back and the file offsets after a trim or split are not modelled; `AddressSpaces` has them as areas without contents.
- Attaching and deleting System V shared memory: only the ranges of attached segments appear, in the choice of a fresh address.
- The LoongArch address check and the debug output of the page-fault handler: they do not change the state modelled.
- LargePool.LargeAllocator.Allocate: alignment masks are modelled as rounding up to a multiple, which is the same for the powers of two a layout allows.
- Futexes.MoveKeeps: only requeues that do not panic are steps of a run; what a run would be after a kernel panic is not modelled.
- Futexes.QueuedOnceIff: the comparison of the futex word with the expected value is outside the model; a wait event is one where they matched. The timer is looked at after the wait has been polled, as on one hart.
- UserStack.TaskStack.InitTaskStack: the stack must be large enough for what is pushed, and mapping and zeroing it happen before; ELF parsing and relocation are not modelled.
- Signals.Thread.Kill: only `tkill` and `tgkill` count real-time signals; other senders that only set the pending bit, and the handler trampolines, are not modelled.
- Executors.RunServes: `release_task` and the weak entries of the task map are not modelled.
- MessageQueues.RunKeepsInv: the system calls around the queue, which copy to user memory and answer for a full or empty queue, are not modelled.
- Dirents.ListingIff: the directory does not change between calls.
- Paths.GetMountedIsNewest: a lookup without a matching mount panics in the kernel; the model answers `None`.
- ext4 and FAT shims, block and network drivers, sockets, devfs and procfs nodes, pipes, epoll, semaphores, the fd table and single-branch system calls would only add easy members or depend on libraries that are not visible.
