# Akuma kernel: a verified model

Akuma is a bare-metal AArch64 kernel. This project models the parts of it that keep books or save
machine state, in Dafny 4.11, and proves properties of them over all inputs, all runs and all
reachable states. `dafny verify dfyconfig.toml` checks the whole project.

## The parts

**Physical memory.** `PagePool` says what allocation and release mean on a set of free pages with a
search hint. `Bitmap` is the allocator itself: an array of 64-bit words (`Words`), a cached free
count and the hint, with the scanning loops of the source, each proved against `PagePool`.
`FrameManager` adds the global counters, the user reserve and the copy-on-write counters
(`RefCounts`). `BootLayout` computes the layout of RAM, the guard that refuses bad layouts, and the
manager that starts from an accepted one.

**Copy-on-write.** `CowModel` is a state machine of address spaces: map, fork, write, write fault,
unmap, evict, exit, and the kernel's own allocations, with the list every space keeps of the frames
it uses. `CowSharing` and `CowRuns` prove what every step and every run keeps, `CowEntries` what
each step does to the page tables. Three facts about the code shape the theorems. A fork goes
through ranges that overlap and counts a page on two of them twice; `CowCounting` says when counters
still are numbers of sharers, and in every run a counter is the number of spaces that hold the frame
plus a surplus. A write fault by the last counted sharer drops the counter and never frees the old
frame; such frames are called retired, frames that stay counted without a holder are called
stranded, and `CowRetirement` says exactly which steps lose a frame in one of these ways. A write
fault on a shared page in a lazy region with no frame left falls through to the branch that makes
the page writable; steps without this case are called backed, sharing is kept read-only exactly by
backed steps, and in backed runs copy-on-write fork cannot be told apart from a fork that copies
every page (`CowRefinement`), which also says when eviction can.

**Kernel heap.** `HeapGrowth` holds the request lengths, the back-off and the span registry,
`KernelHeap` the out-of-memory handler and the reclaim on top of the memory manager, `HeapRuns` the
interleavings of growth, reclaim, allocation and all other users of physical memory, with the heap
size added and subtracted in steps of their own as in the source, `HeapCycle` what those steps achieve.

**Machine state.** `IrqFrame` interprets the save and restore instructions of the two IRQ entry
points, in source order, over registers and stack words. `IrqSchedule` puts threads on top that the
interrupt handler switches between, including threads that start from a hand-made frame. The layout
comments in the source are out of date; the model follows the instructions. `SignalFrame` is the
byte layout of a signal frame over `ByteMemory`, `SignalDelivery` is delivery and sigreturn and what
becomes of a signal that is taken for delivery, `SignalEntry` what a handler finds when it starts,
`SignalNesting` is every nested run of them over a normal and an alternate stack.

**Demand paging.** `DemandPaging` fills and maps a window of file-backed pages from a batch of
frames. At every point where the fault holds no lock, other processors take frames, return frames
and map pages of the same address space, as a schedule says that is arbitrary; so is what the
allocator reclaims and which read-only pages of the faulting space it evicts when memory is short.
`FramePlaces` follows every frame through this, `FaultResults` says what a fault leaves behind,
`FaultWindow` which pages it maps while the others are quiet. `FaultPath` is the handler itself on
top of the memory manager, proved to do what `DemandPaging` says.

**Smaller parts.** `BlockDevice` (byte access over sectors), `Calendar` (dates and ISO 8601 texts),
`IrqMask` (guards and critical sections), `VirtioRng` (a split virtqueue), `ProxyToken` (the shared
proxy client and the life of a proxy entry).

## Where a promise does not hold

- A contiguous allocation can leave free pages below the hint (`PagePool.RunCanPassFreePages`); it
  keeps the hint a lower bound exactly if the lowest free page starts a long enough run
  (`PagePool.RunHintExact`).
- A contiguous free keeps the counters in balance exactly if it names allocated pages only
  (`PagePool.BalanceExact`).
- A fork lists every mapped stack page twice, once with the stack and once with the lazy regions, and
  counts it twice (`CowCounting.StackIsListedTwice`). In a run from boot counters are the numbers of
  sharers throughout exactly if no fork lists a page twice (`CowCounting.CountersExactly`).
- After such a fork and the exit of both processes the frame stays counted and is never free again
  (`CowRetirement.TwiceListedStrands`, in a run from boot `CowRetirement.StrandedFromBoot`).
- A fork after which parent and child both write to a page loses the page's frame
  (`CowRetirement.BothWritersLeak`). A frame is lost in a run exactly if some step ends the last hold
  on it while it is counted beyond that hold, or by a write fault (`CowRetirement.NoLeakExactly`).
- Eviction takes every read-only page of a file for clean, yet a fork makes written pages read-only:
  forked, evicted and read back, the page has lost what was written
  (`CowRefinement.EvictionLosesWrites`). Eviction is invisible exactly if the page holds what the file
  does (`CowRefinement.EvictionKeepsViewExactly`).
- Without a free frame, a fault in a lazy region makes a shared page writable
  (`CowRefinement.UnbackedWriteShows`, in a run from boot `CowRefinement.UnbackedRunShows`;
  `CowSharing.GuardKeptExactly`).
- A readahead batch is sized by a look at the free count and drawn in a lock of its own. Pages taken by
  others in between let it take the pool from the reserve to below it
  (`FaultResults.ReserveCanBeCrossed`); a draw that finds the reserve keeps it exactly if the others
  took no more than was free above the reserve and the draw (`FaultResults.ReserveExactly`,
  `FaultResults.CrossedExactly`, `FaultResults.SingleCrossedExactly`).
- A fault can be refused although its page has been mapped by another processor meanwhile
  (`FaultResults.RefusedThoughMapped`); this happens only with the free pages down to the reserve
  (`FaultResults.FaultSettles`).
- A pending signal that is taken for delivery can be lost (`SignalDelivery.SignalsCanBeLost`): exactly
  if it has no handler, no way back from one, or no room for its frame (`SignalDelivery.FateExactly`).
- A refused signal delivery changes the program counter exactly if the handler asks for a restart of
  an interrupted system call (`SignalDelivery.RefusalKeepsRegistersExactly`).
- A frame on an alternate stack of exactly the frame size can start below that stack
  (`SignalDelivery.AltFrameCanMissItsStack`); it fits exactly if the rounding is left room
  (`SignalDelivery.AltFrameFitsExactly`).
- Code restores the interrupt mask exactly if interrupts were masked before, or if no critical section
  outside all others and outside all guards is nested more than 256 deep (`IrqMask.RunProgram`).

## Model

| member | source | states |
|---|---|---|
| PagePool.AllocOne | src/pmm.rs:252-291 | a single allocation fails only when nothing is free, takes one free page and no other |
| PagePool.AllocBatch | src/pmm.rs:296-342 | a batch is all or nothing: exactly the requested number of pages, or no change |
| PagePool.AllocRun | src/pmm.rs:349-388 | a contiguous allocation takes a run of free pages and nothing else |
| PagePool.FreeOne | src/pmm.rs:409-431 | exactly an in-range allocated page is freed: it alone joins the free pages and the hint comes down to it; other frees change nothing |
| PagePool.FreesByAddress | src/pmm.rs:391-431 | an address belongs to the page whose 4096 bytes it lies in; below the base nothing is freed |
| PagePool.RunServedIffExists | src/pmm.rs:349-388 | a contiguous request is served exactly when such a run is free anywhere in RAM |
| PagePool.RunIsLowest | src/pmm.rs:359-388 | for two or more pages it is the lowest run at or after the hint, else the lowest of all |
| PagePool.BatchIsFree | src/pmm.rs:296-342 | a batch consists of distinct pages that were free |
| PagePool.OneIsLowest | src/pmm.rs:252-291 | with the hint a lower bound, the lowest free page is returned and the hint stays a lower bound |
| PagePool.BatchIsLowest | src/pmm.rs:296-342 | with the hint a lower bound, a batch lists the lowest free pages in order |
| PagePool.RunHintExact | src/pmm.rs:375-387 | a contiguous allocation keeps the hint a lower bound exactly if the lowest free page starts such a run |
| PagePool.RunCanPassFreePages | src/pmm.rs:375-387 | a pool in which a contiguous allocation leaves a free page below the hint |
| PagePool.HintBoundsThroughout | src/pmm.rs:252-431 | in every run without multi-page contiguous allocations the hint is a lower bound on free pages |
| PagePool.BalanceExact | src/pmm.rs:551-664 | an operation keeps total minus allocated equal to free exactly if contiguous frees name allocated pages |
| PagePool.BalancedThroughout | src/pmm.rs:551-664 | every run of such operations keeps the books in balance |
| PagePool.BadFreeIsHarmless | src/pmm.rs:569-597 | double and out-of-range single frees change no page and no allocation count; only double frees are counted |
| Bitmap.BitmapAllocator.Init | src/pmm.rs:190-220 | exactly the pages past the kernel are free, no bit past the last page is set, count and hint agree |
| Bitmap.KernelPages | src/pmm.rs:190-220 | exactly the pages that begin before the end of the kernel |
| Bitmap.BitmapAllocator.MarkUsed | src/pmm.rs:223-229 | of all pages exactly this one stops being free |
| Bitmap.BitmapAllocator.MarkFree | src/pmm.rs:232-238 | of all pages exactly this one becomes free, if the bitmap has a bit for it |
| Bitmap.BitmapAllocator.IsFree | src/pmm.rs:241-249 | in a valid allocator a bit is set exactly for the pages of the free set |
| Bitmap.BitmapAllocator.AllocPage | src/pmm.rs:252-291 | the word scan from the hint and around refines the allocation of a single page |
| Bitmap.BitmapAllocator.AllocPages | src/pmm.rs:296-342 | the two-pass batch scan refines the batch allocation; its rollback cannot be reached |
| Bitmap.BitmapAllocator.FindRun | src/pmm.rs:359-374 | the page scan finds the lowest free run at or after its start, or there is none |
| Bitmap.BitmapAllocator.AllocPagesContiguous | src/pmm.rs:349-388 | refines the contiguous allocation, including the second pass from page zero |
| Bitmap.BitmapAllocator.FreePagesContiguous | src/pmm.rs:391-404 | refines the contiguous free: in-range pages become free, the hint is lowered |
| Bitmap.BitmapAllocator.FreePage | src/pmm.rs:409-431 | refines the single free with its three outcomes |
| FrameManager.UserReadaheadBudget | src/pmm.rs:728-742 | taking at most the budget keeps the reserve; the budget is zero exactly when a user page would starve the kernel |
| FrameManager.Manager.Init | src/pmm.rs:499-505 | the counters start in balance with the bitmap |
| FrameManager.Manager.AllocPage | src/pmm.rs:551-563 | bitmap and counter change together, the books stay in balance |
| FrameManager.Manager.AllocPages | src/pmm.rs:779-787 | the batch wrapper counts exactly the pages it hands out |
| FrameManager.Manager.AllocPagesContiguous | src/pmm.rs:620-625 | one attempt counts exactly the pages it hands out |
| FrameManager.Manager.FreePagesContiguous | src/pmm.rs:658-664 | the counter goes down by the count for every address, below RAM too; the books balance afterwards exactly if only allocated pages were named |
| FrameManager.Manager.CowRefInc | src/pmm.rs:820-826 | the frame has one owner more, two at the first share, up to 65535; no other counter changes |
| FrameManager.Manager.CowRefDec | src/pmm.rs:831-847 | reports the last owner and removes its entry; an unlisted frame has one owner |
| FrameManager.Manager.FreePage | src/pmm.rs:569-597 | a shared frame loses a reference, the last reference frees the page, counters follow the outcome |
| FrameManager.Manager.CowShareRange | crates/akuma-exec/src/process/mod.rs:1457-1479 | every counter goes up by the number of times its frame is shared, up to the limit |
| FrameManager.CountedByMultiplicity | crates/akuma-exec/src/process/mod.rs:1457-1479 | counting page by page, in any order, adds to each counter how often its page is listed |
| FrameManager.Manager.FreeCount | src/pmm.rs:675-678 | while the books balance the counter difference is the number of free pages |
| BootLayout.ReserveCalcRam | src/main.rs:309-315 | the kernel's parts are sized by all of RAM, or by no more than the clamp |
| BootLayout.HeapSizeExactly | src/main.rs:317-353 | the configured size; an eighth of RAM between 64 and 256 MiB; on small machines the largest size that keeps to an eighth or the floor and leaves 4 MiB, or 1 MiB |
| BootLayout.LayoutExactly | src/main.rs:278-300 | the first part is the smallest that covers a sixteenth, the minimum and the boot stack; heap and user pages follow without a gap and use up the real RAM |
| BootLayout.GuardExactly | src/main.rs:608-624 | what the layout guard decides beyond what holds by construction, in both directions |
| BootLayout.AcceptedLayout | src/main.rs:278-300 | an accepted layout cuts RAM into three parts that meet, and its kernel pages fit into RAM |
| BootLayout.Boot | src/main.rs:704-724 | a manager exists exactly for accepted layouts; then exactly the pages before the kernel image and those that begin at or past the end of the heap are free, and the books balance |
| CowSharing.StepKeepsInv | src/exceptions.rs:2447-2512 | every step keeps counters equal to holders plus the surplus of past forks, one role per frame and related owners; backed steps keep shared frames read-only (what each step does to the tables is in `CowEntries`) |
| CowSharing.GuardKeptExactly | src/exceptions.rs:2474-2512 | read-only sharing survives a step exactly if it is not an unbacked fault in a lazy region |
| CowEntries.FaultAnswered | src/exceptions.rs:2474-2512 | after a write fault the process can write exactly if the frame was counted and another one free, or the page is in a lazy region; the page then has a fresh copy or keeps its frame, and no other entry changes |
| CowEntries.FillAnswered | src/exceptions.rs:2763-2824 | a missing page is mapped exactly if a frame was free, with the data and the flag asked for; no other entry changes |
| CowEntries.ForkAnswered | crates/akuma-exec/src/process/mod.rs:1578-1617 | the child has exactly the listed pages, in the parent's frames and read-only; in the parent the listed pages become read-only and the others stay as they are |
| CowEntries.ForkCounted | crates/akuma-exec/src/process/mod.rs:1466-1474 | each listed page is counted as often as it is listed, in its counter and on the child's list |
| CowEntries.RemovalAnswered | crates/akuma-exec/src/mmu/mod.rs:743-778 | exactly the page goes; its frame is free afterwards exactly if the list had it once and it had one owner |
| CowEntries.DropAnswered | crates/akuma-exec/src/mmu/mod.rs:1023-1032 | a frame of the list goes with the page that shows it, and is free exactly if it had one owner |
| CowEntries.ExitCompletes | crates/akuma-exec/src/mmu/mod.rs:1023-1032 | from every state a process can give back its frames one by one and go away, and no other table changes |
| CowEntries.WriteAnswered | src/exceptions.rs:2447-2512 | a write changes what its frame holds and nothing else |
| CowEntries.KernelTakeAnswered | src/pmm.rs:620-625 | the kernel gets a run of free frames exactly if there is one |
| CowEntries.KernelGiveAnswered | src/pmm.rs:569-597 | a frame that the kernel gives back is free |
| CowRuns.RunKeepsAccounts | src/pmm.rs:569-597 | in every run from boot, however often forks list pages, a counter is the number of holders plus the surplus, no mapped frame is free, and all used frames are accounted for |
| CowRuns.RunKeepsGuard | src/exceptions.rs:2447-2512 | in every backed run from boot shared frames are mapped read-only |
| CowRuns.UsedFramesAddUp | src/pmm.rs:814-847 | used frames add up from mapped, still listed, kernel-held, retired and stranded frames |
| CowCounting.TwiceListedIsInexact | crates/akuma-exec/src/process/mod.rs:1457-1479 | a fork that lists a page twice leaves its counter above the number of sharers, by one more for every further listing |
| CowCounting.CountersExactly | crates/akuma-exec/src/process/mod.rs:1482-1576 | in a run from boot every counter is the number of sharers throughout exactly if no fork lists a page twice |
| CowCounting.ListedExactly | crates/akuma-exec/src/process/mod.rs:1482-1576 | a fork lists exactly the mapped pages of the ranges it goes through, each as often as there are ranges with it |
| CowCounting.StackIsListedTwice | crates/akuma-exec/src/process/mod.rs:1564-1576 | a fork of a process with a mapped stack page leaves some counter wrong, as the stack is among the lazy regions too |
| CowRetirement.RetiresExactly | src/exceptions.rs:2474-2497 | a step retires a frame exactly if it is a write fault on a counter of one with a frame left |
| CowRetirement.LosesExactly | crates/akuma-exec/src/mmu/mod.rs:684-696 | a step loses a frame exactly if it ends the last hold on a frame that is counted beyond it, or ends it by a write fault |
| CowRetirement.NoLeakExactly | src/exceptions.rs:845-855 | a frame is lost after a run from boot exactly if some step of the run is of that kind for it |
| CowRetirement.BothWritersLeak | src/exceptions.rs:2474-2497 | wherever a process forks with a private page and both sides write, the original frame is lost |
| CowRetirement.TwiceListedStrands | crates/akuma-exec/src/mmu/mod.rs:1023-1032 | wherever a process forks with a private page listed twice and both processes exit, the frame stays counted with no holder |
| CowRetirement.StrandedFromBoot | crates/akuma-exec/src/mmu/mod.rs:1023-1032 | a run from boot with one frame of memory after which none is free and none is used |
| CowRefinement.WriterIsAlone | crates/akuma-exec/src/process/mod.rs:1578-1617 | a writable page is mapped by one process only |
| CowRefinement.ForkCopiesView | crates/akuma-exec/src/process/mod.rs:1457-1479 | a fork gives the child the contents of the shared pages and changes nobody's memory |
| CowRefinement.CopyIsInvisible | src/exceptions.rs:2474-2497 | resolving a write fault changes what no process sees |
| CowRefinement.StepRefinesEagerCopy | src/exceptions.rs:2447-2512 | every step does to the processes' memories what it would do with eager copies |
| CowRefinement.CowRefinesEagerCopy | src/exceptions.rs:2447-2512 | every backed run from boot, with evictions and exits in any order, shows the processes exactly the memories of a fork that copies all pages |
| CowRefinement.UnbackedWriteShows | src/exceptions.rs:2498-2512 | after an unbacked fault one process's write is read by the other |
| CowRefinement.UnbackedRunShows | src/exceptions.rs:2498-2512 | a run from boot with one frame of memory in which that happens |
| CowRefinement.EvictionKeepsViewExactly | crates/akuma-exec/src/mmu/mod.rs:794-826 | evicting a page and reading it back is invisible to all processes exactly if the page holds what the file does |
| CowRefinement.EvictionLosesWrites | crates/akuma-exec/src/mmu/mod.rs:1645-1654 | whatever a process wrote to a page of a file is gone after a fork, the page's eviction and the next access |
| HeapGrowth.NeededPages | src/allocator.rs:70-71 | enough pages for the layout, two to spare, and no page more |
| HeapGrowth.HeapGrowInitialPages | src/allocator.rs:159-165 | exactly what is needed under pressure, otherwise at least 64 pages and more only if more is needed |
| HeapGrowth.HeapGrowBackoff | src/allocator.rs:175-181 | halves the request but never below what is needed, strictly shorter each time, and none only after that was tried |
| HeapGrowth.GrowFailsExactly | src/allocator.rs:93-134 | the requests fail exactly when no run of the needed length is free, and then change nothing |
| HeapGrowth.GrowTakes | src/allocator.rs:93-134 | a served request took a free run of at least the needed length and nothing else |
| HeapGrowth.GrowIsAmple | src/allocator.rs:93-134 | growth takes all it asks for first, or at least half of the longest run that is free |
| HeapGrowth.RefusedSpanComesBack | src/allocator.rs:119-125 | giving a refused span back restores the set of free pages and names allocated pages only |
| HeapGrowth.Register | src/allocator.rs:237-246 | a span is recorded whenever a slot is empty, and never over another span |
| HeapGrowth.RegisterKeepsOk | src/allocator.rs:237-246 | recording a new span keeps recorded spans allocated and disjoint |
| HeapGrowth.TouchesExactly | src/allocator.rs:268-284 | an allocation touches a span exactly if they have a byte in common, and lies inside exactly if it has no byte elsewhere |
| HeapGrowth.SweptLeavesNone | src/allocator.rs:252-299 | a full sweep leaves no recorded span entirely free |
| KernelHeap.Heap.RegisterClaimedSpan | src/allocator.rs:237-246 | the span is put into the first slot without pages and no other slot changes; if all slots are taken nothing changes |
| KernelHeap.Heap.TakeSpan | src/allocator.rs:93-134 | the back-off loop ends and makes the requests of the specification |
| KernelHeap.Heap.HandleOom | src/allocator.rs:52-135 | succeeds exactly with the manager up, a run of the needed length free and the heap accepting; on failure free pages, registry and size stay |
| KernelHeap.Heap.GrowAndReclaim | src/allocator.rs:237-299 | with a slot left, whatever a growth takes is recorded, and a reclaim after it makes all pages free again that were free before |
| KernelHeap.Heap.FirstReclaimable | src/allocator.rs:268-284 | the first recorded span without a live allocation |
| KernelHeap.Heap.ReclaimToPmm | src/allocator.rs:252-299 | uncontended it returns exactly the recorded spans without live allocations; pages, heap size and count agree |
| HeapRuns.StepKeepsInv | src/allocator.rs:93-135 | every step of any thread keeps spans allocated and disjoint, allocations inside spans, pages conserved, and the size accounted for |
| HeapRuns.DetachKeeps | src/allocator.rs:261-285 | a span without live allocations can leave the heap while others run |
| HeapRuns.HeapNeverLosesPages | src/allocator.rs:237-299 | in every run no live allocation touches a free or foreign page, tracked spans are allocated and disjoint, no page is lost, and the heap size is seed plus counted claimed bytes plus bytes given back and not yet subtracted, even past a full registry |
| HeapCycle.GrowthTakes | src/allocator.rs:93-135 | whenever a run is free and the heap unlocked, a growth claims it, counts its bytes and records it if a slot is left |
| HeapCycle.RefusedGrowthRestores | src/allocator.rs:119-125 | a growth that the heap refuses leaves everything as it was |
| HeapCycle.SpanComesBack | src/allocator.rs:252-299 | every recorded span that no live allocation has a byte of can be given back, pages and bytes |
| HeapCycle.AllocationPossible | src/allocator.rs:52-135 | bytes of a span in the heap can be allocated if no live allocation has one of them |
| HeapCycle.AllocationPins | src/allocator.rs:268-284 | while an allocation lives its span cannot leave the heap; freeing it undoes the allocation |
| HeapCycle.AllocationsNeverOverlap | src/allocator.rs:52-135 | in every run live allocations have no byte in common |
| HeapCycle.OthersTake | src/pmm.rs:620-625 | others get a run of pages exactly if one is free |
| HeapCycle.OthersGive | src/pmm.rs:569-597 | what others give back is free |
| IrqFrame.SavePhase | src/exceptions.rs:263-326 | saving pushes 832 bytes that hold every register and writes nothing else |
| IrqFrame.ParksExactly | src/exceptions.rs:358-373 | the core parks exactly when the frame holds a zero ELR |
| IrqFrame.RestorePhase | src/exceptions.rs:341-409 | restoring brings back every register of the frame, whatever they were, SPSR with the IL bit cleared |
| IrqFrame.SaveHolds | src/exceptions.rs:419-483 | after the save blocks every register is in its slot although x10 and x11 served as scratch |
| IrqSchedule.FakeFrameWords | crates/akuma-exec/src/threading/mod.rs:1222-1250 | the words of a hand-made frame by number: exit address, arguments, start address and a status with interrupts masked exactly if x21 is not zero; all other words are zero |
| IrqSchedule.FakeFrameHolds | crates/akuma-exec/src/threading/mod.rs:1215-1253 | the hand-made frame has the layout that the restore code pops, and puts every argument into its register |
| IrqSchedule.IrqResumes | src/exceptions.rs:1455-1470 | an interrupt goes on with the registers, stack pointer and stack of the thread it resumes, and the switch passes the sanity test |
| IrqSchedule.StepKeepsInv | crates/akuma-exec/src/threading/mod.rs:2222-2305 | every step keeps the frames of all stopped threads intact |
| IrqSchedule.ThreadResumesAsItStopped | src/exceptions.rs:328-409 | in every schedule a thread resumes with the registers it had when the processor was taken from it |
| IrqSchedule.NewThreadStartsAsSetUp | crates/akuma-exec/src/threading/mod.rs:1215-1253 | in every schedule a new thread starts on an empty stack at its start address, with its arguments in their registers, interrupts masked exactly if x21 is not zero, and all other registers zero |
| SignalFrame.DecodeEncode | src/exceptions.rs:1157-1159 | mask words represent sets of signals exactly |
| SignalFrame.FieldsApart | src/exceptions.rs:665-672 | no two fields of the frame overlap |
| SignalFrame.WrittenFields | src/exceptions.rs:1131-1219 | no field write disturbs a field written before it |
| SignalFrame.PutFrameHolds | src/exceptions.rs:1131-1219 | every field reads back as written and no byte outside the frame changes |
| SignalDelivery.FrameBase | src/exceptions.rs:1107 | the frame starts 16-byte aligned, at most 15 bytes below the room it needs |
| SignalDelivery.ReadContextRestores | src/exceptions.rs:1279-1378 | sigreturn reads the saved context back whatever the registers are by then |
| SignalDelivery.SigreturnRestores | src/exceptions.rs:1266-1379 | from a live frame the context and the mask come back, without the signals that cannot be blocked |
| SignalDelivery.DeliveryMakesLive | src/exceptions.rs:1107-1252 | a delivery leaves a live frame, changes no other byte and starts the handler at it |
| SignalEntry.StartsExactly | src/exceptions.rs:964-1128 | a handler starts exactly if it exists and has a way back, the alternate stack is neither missing nor in use, and the first and last page of its frame can be mapped |
| SignalEntry.HandlerStarts | src/exceptions.rs:1222-1252 | a handler starts at its address, with its way back in x30, the signal in x0, with SA_SIGINFO the frame in x1 and x2, and all other registers as interrupted |
| SignalEntry.HandlerBlocks | src/exceptions.rs:1236-1252 | exactly the signals of the action, and the signal itself unless SA_NODEFER, are blocked in addition, never 9 and 19; the suspend mask is disarmed |
| SignalEntry.HandlerMaps | src/exceptions.rs:1115-1128 | exactly the pages with the first and the last byte of the frame are mapped in addition |
| SignalEntry.FrameTellsSignal | src/exceptions.rs:1135-1161 | by byte offset the frame holds the signal, the fault, the alternate stack and the mask to come back |
| SignalEntry.FrameTellsContext | src/exceptions.rs:1162-1201 | by byte offset the frame holds the interrupted registers, the program counter moved back for a restarted system call |
| SignalEntry.FrameTellsVectors | src/exceptions.rs:1202-1219 | by byte offset the frame holds the vector registers in a record with its magic number, size and terminator |
| SignalEntry.FrameIsClean | src/exceptions.rs:1131-1133 | bytes between the fields are zero and bytes outside the frame are as they were |
| SignalEntry.RefusalDoes | src/exceptions.rs:994-1092 | a refused delivery moves the program counter back exactly for a restarted system call, makes the signal pending exactly if it waits for the alternate stack, and changes no other register, no memory and no mask |
| SignalEntry.RefusalMaps | src/exceptions.rs:1115-1128 | a refused delivery leaves the first page of the frame mapped exactly if only the last one could not be |
| SignalEntry.ReceiptIs | src/exceptions.rs:2404-2424 | a taken signal is no longer pending when it is delivered; SIGURG goes back to wait while there is no alternate stack |
| SignalDelivery.ReturnUndoesDelivery | src/exceptions.rs:1266-1379 | delivery and return restore registers, SP, PC, pstate, vectors, control words and mask, whatever the handler did elsewhere |
| SignalDelivery.ReturnIsExact | src/exceptions.rs:1266-1379 | from user mode, with no suspend mask armed, nothing is lost |
| SignalDelivery.FrameOnCheckedPages | src/exceptions.rs:1115-1128 | every byte of a frame lies on one of the two pages that were checked |
| SignalDelivery.AltFrameFitsExactly | src/exceptions.rs:1098-1107 | a frame stays on the alternate stack exactly if there is room for the rounding |
| SignalDelivery.AltFrameCanMissItsStack | src/exceptions.rs:1098-1107 | an alternate stack of exactly the frame size whose frame starts below it |
| SignalDelivery.NothingWrittenOnAlt | src/exceptions.rs:1066-1092 | on the alternate stack nothing is written and asynchronous signals stay pending |
| SignalDelivery.WaitsForAlt | src/exceptions.rs:1058-1064 | a signal that needs an alternate stack before there is one stays pending |
| SignalDelivery.RefusalKeepsRegistersExactly | src/exceptions.rs:994-1007 | a refused delivery leaves the registers alone exactly if no interrupted system call is to be restarted |
| SignalDelivery.FateExactly | src/exceptions.rs:2404-2424 | a pending signal that is taken is delivered, pending again or lost, which of them is told by conditions from before, and no other signal is touched |
| SignalDelivery.SignalsCanBeLost | src/exceptions.rs:1011-1016 | a pending unblocked signal with a handler that is lost, without a trampoline and without a page for its frame |
| SignalDelivery.UserThread.ReceiveSignal | src/exceptions.rs:2404-2424 | taking, putting SIGURG off and delivering refines its specification |
| SignalDelivery.UserThread.WriteFrame | src/exceptions.rs:1131-1219 | the writes in order build the frame of the specification |
| SignalDelivery.UserThread.TryDeliverSignal | src/exceptions.rs:964-1257 | delivery refines its specification on every branch, refusals included; what that means for the handler is in `SignalEntry` |
| SignalDelivery.UserThread.DoRtSigreturn | src/exceptions.rs:1266-1379 | succeeds exactly if both pages are mapped; from every live frame the saved registers and mask come back and nothing else changes |
| SignalNesting.StepKeepsInv | src/exceptions.rs:1058-1107 | deliveries, refusals, returns, user code and changes of the alternate stack keep all live frames intact, disjoint and in place |
| SignalNesting.StepsAsTold | src/exceptions.rs:2404-2424 | a signal leaves the thread as its receipt does and adds a frame exactly for a delivery; an accepted signal is no longer pending |
| SignalNesting.NoFrameOverAlt | src/exceptions.rs:1066-1092 | no frame is written while the thread runs on the alternate stack; asynchronous signals that could be handled stay pending |
| SignalNesting.FramesNeverOverlap | src/exceptions.rs:1098-1107 | in every run live frames share no byte |
| SignalNesting.UnwindingRestores | src/exceptions.rs:1266-1379 | in every run, returning from a delivery's frame yields the context, mask and live frames from before it, whatever was nested in between |
| SignalNesting.UnwindingIsExact | src/exceptions.rs:1246-1252 | with no suspend mask armed and a user-mode context it is exactly the original |
| SignalNesting.SignalsNeverVanish | src/exceptions.rs:2404-2424 | in every run a pending signal stays pending until user code waits for it, it is delivered, or it is lost for one of the named reasons |
| DemandPaging.PageIsImage | src/exceptions.rs:2657-2674 | every byte of a filled page is the file byte of its address inside the extent and zero outside, for unaligned segments too |
| FramePlaces.DoKeeps | crates/akuma-exec/src/mmu/mod.rs:1163-1204 | whatever another processor takes, returns or maps, every frame stays in exactly one place and mapped pages stay mapped |
| FramePlaces.EvictKeeps | crates/akuma-exec/src/mmu/mod.rs:794-826 | an eviction before the fault has mapped anything keeps every frame in exactly one place, mapped frames not free, the list covering the mappings, and all counters but its own frame's |
| FramePlaces.SweepKeeps | crates/akuma-exec/src/process/children.rs:434-490 | so does every sweep of evictions, with others running in between |
| FramePlaces.RaceTakesThat | src/pmm.rs:551-664 | a turn of the others changes the free count by exactly what they take less what they return |
| FramePlaces.AllocUserKeeps | src/pmm.rs:754-769 | with reclaim and eviction, the user allocator hands out one frame that nobody else has, or refuses with the free pages down to the reserve |
| FramePlaces.WalkKeeps | src/exceptions.rs:2643-2727 | through the window each drawn frame is out, placed on an unmapped page of the window, or returned |
| FramePlaces.WalkReaches | src/exceptions.rs:2643-2727 | a window that reports success has the faulting page mapped |
| FramePlaces.PrefetchKeeps | src/exceptions.rs:2597-2740 | after the window, evictions included, no drawn frame is out: each was placed once or returned as often as drawn |
| FaultResults.FaultSettles | src/exceptions.rs:2597-2824 | for every schedule and every eviction: free frames are the former ones, those of others and those evicted, less the placed ones and those others map or hold; pages stay mapped unless evicted, only read-only pages are, and none the fault mapped; a resolved fault has its page mapped; an unresolved one was refused at the reserve |
| FaultResults.MappedIsNotFree | src/exceptions.rs:2695-2725 | no mapped frame is free afterwards |
| FaultResults.SweepEvicts | crates/akuma-exec/src/process/children.rs:470-486 | a sweep evicts every read-only page that it looks at and no other |
| FaultResults.EvictsOnlyStarved | src/pmm.rs:755-763 | nothing is evicted unless the free pages are down to the reserve before and after heap spans are reclaimed |
| FaultResults.EvictsWhenStarved | src/pmm.rs:755-763 | if they are, the sweep takes place |
| FaultWindow.QuietFault | src/exceptions.rs:2597-2740 | with quiet others a fault maps exactly the lowest missing pages of its window, as many as the reserve allows, and is resolved |
| FaultWindow.QuietWindowMapped | src/exceptions.rs:2597-2611 | with 256 pages above the reserve the whole window is mapped afterwards |
| FaultResults.ReserveExactly | src/exceptions.rs:2612-2640 | every draw of every fault finds what was seen less what the others took since, and keeps the reserve exactly if they left less than it or took no more than the slack |
| FaultResults.PoolAtMost | src/exceptions.rs:2624-2640 | a pool has no more frames than pages are missing, and exactly as many while that many are free |
| FaultResults.BatchSparesExactly | src/pmm.rs:779-787 | a served batch leaves the reserve exactly if that many pages were free above it at the draw |
| FaultResults.CrossedExactly | src/exceptions.rs:2622-2626 | whatever the others do between look and draw, a served batch crosses the reserve exactly if they take more than the slack |
| FaultResults.SingleCrossedExactly | src/pmm.rs:754-769 | the same for the one page of the user allocator |
| FaultResults.ReserveCanBeCrossed | src/exceptions.rs:2622-2626 | 120 free pages, a window of 60 and 60 pages taken meanwhile leave none |
| FaultResults.RefusedThoughMapped | src/exceptions.rs:2751-2826 | a fault that is refused while its page is mapped by another processor |
| FaultPath.FaultHandler.EvictPage | crates/akuma-exec/src/mmu/mod.rs:794-826 | a read-only page is unmapped and its frame freed if the list has it once: refines eviction |
| FaultPath.FaultHandler.SweepPages | crates/akuma-exec/src/process/children.rs:434-490 | the sweep, with others running after every page, refines its specification |
| FaultPath.FaultHandler.AllocPageUser | src/pmm.rs:754-769 | look, reclaim heap spans, evict pages of the space, look again, draw: refines the user allocator |
| FaultPath.FaultHandler.AllocPage | src/pmm.rs:536-549 | one retry after reclaimed heap spans: refines the single allocation |
| FaultPath.FaultHandler.TakeBatchOrSingle | src/exceptions.rs:2624-2640 | the batch, or single frames as far as the user allocator goes |
| FaultPath.FaultHandler.FillAndMap | src/exceptions.rs:2657-2725 | a filled frame is mapped, or goes back if somebody else mapped the page |
| FaultPath.FaultHandler.CountUnmapped | src/exceptions.rs:2602-2611 | counts the pages that are unmapped when looked at, with others mapping in between |
| FaultPath.FaultHandler.MapWindow | src/exceptions.rs:2643-2727 | the loop over the window does what the specification does for every schedule |
| FaultPath.FaultHandler.ReturnRest | src/exceptions.rs:2736-2740 | all unused frames go back, one lock each |
| FaultPath.FaultHandler.ReadAhead | src/exceptions.rs:3121-3242 | counting, drawing, mapping and returning refine the window of the specification, for instruction faults too |
| FaultPath.FaultHandler.SinglePage | src/exceptions.rs:2763-2824 | the single-page fallback refines its specification |
| FaultPath.FaultHandler.HandleFileFault | src/exceptions.rs:2597-2824 | the fault settles under every schedule and every eviction; it maps whole pages from the faulting one on, at most 256 and none past the region, and all of them with quiet others and memory enough; resolved means mapped; refused only at the reserve; no draw crosses the reserve unless others took pages since the look |
| BlockDevice.Widened | src/block.rs:180-187 | widened requests cover the bytes and are in bounds exactly if the bytes are |
| BlockDevice.VirtioBlockDevice.ReadSectors | src/block.rs:121-143 | whole sectors, rejected exactly if unaligned or past the end |
| BlockDevice.VirtioBlockDevice.WriteSectors | src/block.rs:150-172 | replaces exactly the named sectors, or changes nothing |
| BlockDevice.VirtioBlockDevice.ReadBytes | src/block.rs:175-194 | the bytes of a flat array; passes exactly in bounds, or when empty |
| BlockDevice.VirtioBlockDevice.WriteBytes | src/block.rs:197-219 | splices exactly its range into the flat array, or changes nothing |
| BlockDevice.VirtioBlockDevice.PerformAll | src/block.rs:121-219 | any sequence of operations equals the same sequence on a flat byte array |
| BlockDevice.ReadsLastWrite | src/block.rs:175-219 | a read returns the last write to its range whatever was written elsewhere |
| Calendar.CountYears | src/timer.rs:225-233 | the year loop ends with the day of the year, by an independent day count |
| Calendar.CountMonths | src/timer.rs:236-249 | the month loop ends with the day of the month |
| Calendar.FromUnixUs | src/timer.rs:211-262 | a valid Gregorian date and time whose independently computed microsecond count is the input |
| Calendar.OrderIsMicros | src/timer.rs:199-207 | fields are ordered exactly as instants, and equal instants have equal fields |
| Calendar.PadOrder | src/timer.rs:265-276 | padded numbers have their width and sort by value |
| Calendar.PadDenotes | src/timer.rs:265-276 | a padded number consists of digits, reads back as the number, and has its width or no zero in front |
| Calendar.IsoText | src/timer.rs:265-276 | the text of an instant character by character: every field reads back from its digits, with the separators between them |
| Calendar.IsoOrder | src/timer.rs:265-276 | through year 9999 the texts sort exactly as the instants do |
| IrqMask.Cpu.ExecuteOne | src/irq.rs:16-49 | inside a section the mask stays set whatever is nested; outside, only a section nested too deep changes it; the shared saved mask is overwritten exactly if the count comes round |
| IrqMask.Cpu.ExecuteSection | src/kernel_timer.rs:324-353 | a section at any depth, with its acquisition and release |
| IrqMask.RunProgram | src/kernel_timer.rs:316-353 | for any nesting of guards and sections interrupts are masked at every inner point, and the mask is restored exactly if it was set before or no outermost section outside guards is nested over 256 deep |
| IrqMask.NestingRestoresExactly | src/kernel_timer.rs:316-353 | nested sections restore the mask exactly up to 256 of them, or if it was set before |
| VirtioRng.LayoutOk | src/rng.rs:180-201 | for n entries the areas of 16 * n, 6 + 2 * n and 6 + 8 * n bytes follow each other, the last from the next page boundary, fill the allocation and are aligned as section 2.6 of VIRTIO 1.1 asks |
| VirtioRng.SlotAcrossWrap | src/rng.rs:424-431 | the ring slot of a request does not depend on the wrap of the 16-bit index |
| VirtioRng.Queue.Submit | src/rng.rs:411-439 | publishes one request in the slot where the device looks; one is outstanding |
| VirtioRng.Queue.Collect | src/rng.rs:458-477 | takes the device's bytes from the slot where it put them; none is outstanding |
| VirtioRng.Queue.ReadBytes | src/rng.rs:399-481 | the buffer holds the next bytes of the device, each once and in order, however short the device answers |
| VirtioRng.Queue.ReadMany | src/rng.rs:399-481 | a sequence of reads cuts the device's stream into pieces |
| ProxyToken.StepKeepsInv | src/rump_proxy.rs:126-136 | every use of a lock by any thread keeps one token per ready box |
| ProxyToken.ClientIsExclusive | src/rump_proxy.rs:126-136 | in every interleaving a ready box's client is in its slot or with exactly one thread, and round trips never mix |
| ProxyToken.ShieldExactly | src/rump_proxy.rs:195-245 | in every interleaving a server is excluded from interception exactly while its attach is under way or its box is ready |
| ProxyToken.DecidedOnce | src/rump_proxy.rs:168-245 | an entry goes from Initializing to Ready or Failed once and never changes again |
| ProxyToken.RoundTripCompletes | src/rump_proxy.rs:126-136 | a thread can make a round trip over a ready box whose client is in its slot; afterwards the client is back with that request and reply added, and nothing else has changed |
| ProxyToken.WaitsForClient | src/rump_proxy.rs:126-136 | a thread goes on to wait exactly if the box is ready, and waits while the client is away |
| ProxyToken.AttachSucceeds | src/rump_proxy.rs:168-245 | attaching a new box with a handshake leaves it ready with a fresh client and its server excluded |
| ProxyToken.AttachFails | src/rump_proxy.rs:195-245 | attaching that is given up leaves the box failed and its server excluded no longer |
| ProxyToken.KnownBoxStays | src/rump_proxy.rs:195-201 | a box that has a proxy entry keeps it |

## Left out

- The other trap frames (synchronous exceptions, SError), crash dumps and fault diagnostics: the IRQ frame is the one that threads are switched through.
- TLB and cache maintenance, barriers, the batched TLB flush after readahead, memory attributes.
- Page-table memory: mapping a page is atomic and takes no frames in the model.
- FrameManager.Manager.AllocPagesContiguous: one attempt; the retry after a reclaim is the same attempt again.
- Counters are unbounded integers; wrap-around of the 64-bit usage counters is not modelled. Wrap-around of 16-bit and 8-bit counters and of the signal frame address is.
- Requests on the block device are assumed not to overflow 64-bit arithmetic, and the device itself not to fail.
- `CowModel`: each frame is mapped at one address per space, no counter reaches its limit of 65535, and the owner of a faulting address space exists; which pages a fork lists and how often is arbitrary.
- BootLayout.Boot: RAM is a whole number of pages and the boot stack lies past the gap before the kernel image.
- SignalNesting.StepKeepsInv: handlers keep the stack pointer on the stack they run on, leave live frames alone and do not move the alternate stack while they run on it; the normal stack has room for a frame.
- `HeapRuns`: allocations in the seed arena are not listed; the heap's own free lists are not modelled, its answers are.
- FaultPath.FaultHandler.HandleFileFault: other processors do not unmap pages of the address space, make read-only pages writable or share its frames meanwhile; at the start the list of the space counts each frame at least as often as it is mapped; the owner of the address space exists; file reads fail only by being short.
- SignalDelivery.UserThread.TryDeliverSignal: the source ignores whether a shared frame page could be made writable; with no free frame such a page stays read-only and the kernel's own write to it faults, where the model delivers.
- `IrqSchedule`: which thread the scheduler picks, thread states and the page-table base register.
- `SignalDelivery`: which of several pending signals is taken first, default actions, the mapping of the return trampoline, the process lookup.
- `VirtioRng`: device initialisation and the time-out while waiting for the device.
- VirtioRng.Queue.ReadBytes: assumes a device that answers every request; the error returns for a silent device or a foreign descriptor are not modelled.
- `ProxyToken`: time-outs while waiting for a proxy, and threads that die in the middle of a call.
- Hardware drivers, networking, file systems, system calls, multi-core partitions, scripts and self-tests.
