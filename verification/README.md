# Verified core of opal-os

A Dafny model of the data structures and protocols at the core of opal-os, a kernel for one
processor, with proofs of what they promise. `dafny verify dfyconfig.toml` checks all of it.

A critical section (`irqlock`) is one atomic step. Code that changes state is a class whose
methods are proved against functions or properties of the old state; protocols of many tasks are
step functions over a state, with invariants over every run.

| files | what they model |
|---|---|
| `Pipe`, `PipeRuns`, `PipeCalls`, `PipeImplementation` | blocking pipes over auto-reset events: ring, flags, wait queues, tasks that are woken but have not run |
| `RedBlack`, `RbTree` | the intrusive red-black tree: shapes as values, and nodes with parent links on the heap that follow them |
| `VmShape`, `VmNodes`, `VmSpace` | the interval tree over the address space against a plain map, with memory that may run out |
| `BuddyBlocks`, `BuddyOperations`, `BuddyState`, `BuddyRanges`, `Buddy`, `BuddyRuns` | the buddy allocator: blocks, flags and lists, the memory map it starts from, runs |
| `Sched`, `SchedRuns`, `SchedSteps`, `SchedTheorems`, `SchedProgress`, `SchedOrder`, `SchedCounts`, `SchedStages`, `SchedImplementation` | tasks, ready queues, wait lists, timeouts and the interrupt message queue |
| `FatTable`, `FatLayout`, `FatFile`, `FatContents`, `FatExamples` | FAT12/16/32 tables with their copies, cluster chains, contents of files, reading and writing a file |
| `PageTable`, `PageLevels` | four-level page tables with 4 KiB and 2 MiB pages |
| `Slab` | slab layout, free chains, partial pages |
| `FileTable` | file descriptors: slots, bitmap, hint, references |
| `DiskQueue` | the ring of disk requests |
| `Numbers` | parsing and printing of unsigned integers |
| `Collections`, `Division`, `MultisetSums` | options, queues, sequences, arithmetic and multiset facts used above |

Where the code does not do what one would expect, the code is modelled as it is, and the exact
condition is proved:

- a reader or writer that is terminated between being woken and running takes its wake-up with it
  (`PipeRuns.KillingWokenReader`, `PipeRuns.KillingWokenWriter`), and 65536 opens wrap the 16-bit
  counts (`PipeRuns.OpenWriterKeepsCover`, `PipeRuns.OpenReaderKeepsCover`), each with a run;
- a task that is suspended after its wait has timed out is later told that it was woken
  (`SchedTheorems.TimeoutIsReported`, with the run `SchedStages.SuspendLosesTimeout`);
- cluster numbers from 0xff0 (FAT12), 0xfff0 (FAT16) or 0xffffff0 (FAT32) on are handed out by the
  allocator of a large volume but read back as the end of a chain (`FatTables.LinkReadsBack`,
  `FatChains.GrownIff`, `FatExamples.ReservedNumberHandedOut`), so files are modelled on volumes without such clusters;
- the byte index of a FAT write is a 32-bit number: a write whose end lies in the last cluster below
  4 GiB never reaches it (`FatFiles.FatFile.WriteClusters`), takes all free clusters, and may report
  an error after it has overwritten the file (`FatWrites.AfterError`,
  `FatExamples.IndexWrapSpoilsDisk`);
- a FAT write behind the end of the file does not write the clusters it skips, so that cache and disk
  agree only if these were zero already (`FatWrites.AfterLoop`,
  `FatExamples.SkippedClusterIsStale`);
- when the buddy allocator is created, two usable ranges that meet in the middle of a block are not
  joined (`BuddyRanges.CanonicalIffNotSplit`); the halves are merged only when one of them is
  allocated and freed (`BuddyRuns.TouchingRangesStayApart`);
- tables that exist already keep their flags, so that a page can have fewer rights than it was mapped
  with (`PageTable.MapInTable`, `PageExamples.UserPageBelowSupervisorTable`);
- `pagetable_map` returns 0, its error value, for a range that ends at the top of the 64-bit space,
  and maps nothing without the present flag (`PageMapping.MapRange`,
  `PageExamples.LastPageAnswersZero`);
- a zero-padded decimal number reads back with base 0 only if it is below 8
  (`RoundTrip.DecimalReadsBack`, `RoundTrip.PaddedTenReadsAsEight`).

## Model

| member | source | states |
|---|---|---|
| `PipeImplementation.Event.WakeOne` | kernel/src/task/task.c:468-491 | the first sleeper, and no other, becomes ready; nothing changes when nobody sleeps |
| `PipeImplementation.Event.Signal` | kernel/src/task/event.c:27-40 | an auto-reset event wakes exactly the first sleeper or, without one, remembers the signal; a manual one wakes all and stays signaled |
| `PipeImplementation.Event.TryAcquire` | kernel/src/task/event.c:8-18 | succeeds exactly when signaled; only an auto-reset event loses the signal |
| `PipeImplementation.Event.Enqueue` | kernel/src/task/event.c:49-64 | the waiter goes to the end of the queue |
| `PipeImplementation.Event.Reset` | kernel/src/task/event.c:42-47 | only the signal is cleared |
| `PipeImplementation.Event.constructor` | kernel/src/task/event.c:20-25 | no signal, nobody waits |
| `PipeImplementation.PipeFs.constructor` | kernel/src/fs/pipefs.c:17-30 | an empty ring without readers and writers, both events clear |
| `PipeImplementation.PipeFs.Open` | kernel/src/fs/pipefs.c:46-82 | a 16-bit count of readers or writers goes up by one, wrapping; other modes and failed allocations change nothing |
| `PipeImplementation.PipeFs.CloseReader` | kernel/src/fs/pipefs.c:105-114 | one reader less, and `writable` is signaled |
| `PipeImplementation.PipeFs.CloseWriter` | kernel/src/fs/pipefs.c:115-123 | one writer less, and `readable` is signaled |
| `PipeImplementation.PipeFs.ReadSome` | kernel/src/fs/pipefs.c:129-140 | the ring gives its oldest bytes, as many as asked for or there are, and keeps the rest in order |
| `PipeImplementation.PipeFs.WriteSome` | kernel/src/fs/pipefs.c:169-181 | as many bytes as fit are appended behind the bytes already in the ring |
| `PipeImplementation.PipeFs.Read` | kernel/src/fs/pipefs.c:142-167 | the code up to its next blocking point does to ring, counts, flags and queues what the step `Read` of the protocol does; the bytes are the oldest of the ring and the answer is their number: with bytes in the ring between 1 and the size asked for, without them zero exactly if there is no writer, and the reader sleeps otherwise |
| `PipeImplementation.PipeFs.AwaitRoom` | kernel/src/fs/pipefs.c:195-206 | without readers the signal is passed on; otherwise the task has room or sleeps |
| `PipeImplementation.PipeFs.PutChunk` | kernel/src/fs/pipefs.c:208-213 | one chunk is stored and both signals are given as the protocol's chunk step says |
| `PipeImplementation.PipeFs.Write` | kernel/src/fs/pipefs.c:183-218 | the loop over chunks up to its next blocking point is the step `Write` of the protocol, with the same bytes accepted |
| `PipeRuns.ReadKeepsInv` | kernel/src/fs/pipefs.c:142-167 | a reader that takes its turn leaves enough woken readers behind for everyone who still sleeps |
| `PipeRuns.ReadGives` | kernel/src/fs/pipefs.c:142-167 | a read reports exactly the bytes it takes from the front, at most as many as asked for and fewer only if there are no more; it answers zero if and only if at the end of the file and sleeps if and only if the ring is empty with writers left |
| `PipeRuns.WriteKeepsInv` | kernel/src/fs/pipefs.c:183-218 | the same for a writer, over all its chunks |
| `PipeRuns.WriteAccepts` | kernel/src/fs/pipefs.c:183-218 | what a write puts into the ring is exactly the part of its data it has reported as written, in order; with a reader left it returns only when all is written |
| `PipeRuns.WriteAnswers` | kernel/src/fs/pipefs.c:183-218 | the answer of a write in closed form, over all its chunks: without readers an error exactly if nothing was written yet, with readers everything if it fits and otherwise asleep with as much written as fits |
| `PipeRuns.NextKeepsInv` | kernel/src/fs/pipefs.c:105-218 | every step of every task (start, resume, open, close, death of a sleeper) keeps the strengthened invariant |
| `PipeRuns.RunKeepsInv` | kernel/src/fs/pipefs.c:105-218 | hence every finite run keeps it |
| `PipeRuns.NoStuckSleeper` | kernel/src/fs/pipefs.c:105-218 | in every run: if readers sleep while data is buffered or no writer is left, a woken reader has yet to resume, two if both hold; dually for writers |
| `PipeRuns.StreamPreserved` | kernel/src/fs/pipefs.c:129-218 | in every run the bytes sent are the bytes received followed by the bytes in the ring: none lost, doubled or reordered |
| `PipeRuns.WriteReturnsWhatItWrote` | kernel/src/fs/pipefs.c:183-218 | across all blockings and interleavings, a write call has put into the stream exactly the prefix of its data that it reports |
| `PipeRuns.WriteStartAccounted` | kernel/src/fs/pipefs.c:183-218 | the account of a write call starts out correct |
| `PipeRuns.EveryReaderSeesEndOfFile` | kernel/src/fs/pipefs.c:150-155 | once the last writer is gone, every schedule of woken readers makes one reader return per step and always leaves one to schedule until none waits |
| `PipeRuns.EveryReaderReturns` | kernel/src/fs/pipefs.c:150-155 | and a reader that has returned does not wait again; with nothing buffered its answer was zero |
| `PipeRuns.EveryWriterSeesBrokenPipe` | kernel/src/fs/pipefs.c:194-206 | the dual for writers when the last reader is gone |
| `PipeRuns.BrokenPipeStep` | kernel/src/fs/pipefs.c:196-200 | each of these writers returns with what it had written, or with an error if that is nothing |
| `PipeCalls.ReadAnswer` | kernel/src/fs/pipefs.c:142-167 | the step in which a reader returns, in any state: its answer, the bytes handed to it and what is left in the ring |
| `PipeCalls.ReadReturnsWhatItGot` | kernel/src/fs/pipefs.c:142-167 | across all sleeps and interleavings, a read call has been handed exactly as many bytes as it reports, at most as many as it asked for |
| `PipeCalls.ReadStartAccounted` | kernel/src/fs/pipefs.c:142-167 | the account of a read call starts out correct |
| `PipeCalls.EndsCounted` | kernel/src/fs/pipefs.c:46-123 | in every run the counts of readers and writers are those of the ends opened and not closed |
| `PipeCalls.NobodyOvertakes` | kernel/src/task/event.c:27-64 | no step wakes a sleeper while one that came before it goes on sleeping |
| `PipeCalls.FirstComeFirstWoken` | kernel/src/task/event.c:27-64 | in every run, as long as a task sleeps, whoever went to sleep after it sleeps behind it, unless killed |
| `PipeRuns.KillingWokenReader` | kernel/src/task/task.c:382-404 | terminating a woken reader keeps the guarantee if and only if nobody sleeps behind it or more woken readers remain than there are reasons to wake |
| `PipeRuns.KilledReaderStrandsSleeper` | kernel/src/task/task.c:382-404 | a run after which terminating a woken reader leaves a sleeper beside buffered data with nobody on the way |
| `PipeRuns.KillingWokenWriter` | kernel/src/task/task.c:382-404 | the same, if and only if, for a woken writer: room and the absence of readers are the reasons to wake |
| `PipeRuns.KilledWriterStrandsSleeper` | kernel/src/task/task.c:382-404 | a run after which terminating a woken writer leaves a writer asleep beside room in the ring |
| `PipeRuns.OpenWriterKeepsCover` | kernel/src/fs/pipefs.c:60-66 | opening a writer keeps the guarantee if and only if the 16-bit count does not wrap to zero over sleeping readers that nobody covers |
| `PipeRuns.OpenWrapStrandsReader` | kernel/src/fs/pipefs.c:60-66 | a run of 65536 opens that leaves a reader asleep with a writer count of zero |
| `PipeRuns.OpenReaderKeepsCover` | kernel/src/fs/pipefs.c:60-66 | the same, if and only if, for opening a reader over sleeping writers |
| `PipeRuns.OpenWrapStrandsWriter` | kernel/src/fs/pipefs.c:60-66 | a run of 65536 opens that leaves a writer asleep on a full ring with a reader count of zero |
| `RedBlack.InsertFixInOrder` | libcoll/src/rbtree.c:68-121 | rebalancing after an insertion does not change the in-order sequence |
| `RedBlack.InsertFixRedBlack` | libcoll/src/rbtree.c:68-121 | and gives a red-black tree: black root, no red-red edge, equal black heights |
| `RedBlack.RemoveFixInOrder` | libcoll/src/rbtree.c:189-259 | rebalancing after a removal does not change the in-order sequence |
| `RedBlack.RemoveFixRedBlack` | libcoll/src/rbtree.c:189-259 | and restores equal black heights from a subtree that is one too short |
| `RedBlack.RemoveOuterInOrder` | libcoll/src/rbtree.c:156-186 | cutting out a node with at most one child removes exactly that node from the sequence |
| `RedBlack.RemoveOuterRedBlack` | libcoll/src/rbtree.c:156-186 | and leaves a red-black tree |
| `RbTreeImplementation.RbTree.RotateLeft` | libcoll/src/rbtree.c:270-293 | the pointer updates turn the subtree and keep all child, parent and root links consistent |
| `RbTreeImplementation.RbTree.RotateRight` | libcoll/src/rbtree.c:295-318 | the mirror image |
| `RbTreeImplementation.RbTree.InsertionBalancing` | libcoll/src/rbtree.c:68-121 | the recursive recolouring and rotating on the heap computes `RedBlack.InsertFix` |
| `RbTreeImplementation.RbTree.RemovalBalancing` | libcoll/src/rbtree.c:189-259 | the six cases on the heap compute `RedBlack.RemoveFix` |
| `RbTreeImplementation.RbTree.constructor` | libcoll/src/rbtree.c:31-34 | an empty valid tree |
| `RbTreeImplementation.RbTree.First` | libcoll/src/rbtree.c:36-38 | the cached node is the minimum, null exactly for the empty tree |
| `RbTreeImplementation.RbTree.MinNode` | libcoll/src/rbtree.c:261-268 | the leftmost node of a subtree |
| `RbTreeImplementation.RbTree.Next` | libcoll/src/rbtree.c:40-55 | the following node of the order, null after the last: repeated calls enumerate all nodes once in key order |
| `RbTreeImplementation.RbTree.Find` | libcoll/include/collections/rbtree.h:57-76 | the greatest key not above and the least key not below, the same node exactly on a match |
| `RbTreeImplementation.RbTree.LinkInsert` | libcoll/src/rbtree.c:57-66 | the new node enters the order at its link, the cached minimum is right, and the tree stays red-black with consistent links |
| `RbTreeImplementation.RbTree.Insert` | libcoll/include/collections/rbtree.h:35-53 | exactly the new node enters the ascending order; an equal key leaves the tree unchanged |
| `RbTreeImplementation.RbTree.RemoveOuterNode` | libcoll/src/rbtree.c:156-186 | a node with at most one child is cut out on the heap as `RedBlack.RemoveOuter` says |
| `RbTreeImplementation.RbTree.Splice` | libcoll/src/rbtree.c:133-155 | the successor takes over place, colour and links of the removed node |
| `RbTreeImplementation.RbTree.Remove` | libcoll/src/rbtree.c:123-187 | exactly the given node leaves the order, with two children too, and the tree stays red-black with consistent links and minimum |
| `VmNodes.FreeSubtree` | kernel/src/utils/vmtree.c:82-98 | exactly the nodes of the subtree (without its root if asked) are given back, each once |
| `VmNodes.SlotForAddr` | kernel/src/utils/vmtree.c:47-54 | the number of leading pivots not above the address |
| `VmShape.SlotRange` | kernel/src/utils/vmtree.c:56-69 | an address lies in the range of a slot exactly when that slot is looked up for it |
| `VmNodes.MergeLeafNeighbors` | kernel/src/utils/vmtree.c:114-138 | every address keeps its entry and no two neighbouring slots stay equal |
| `VmNodes.PromoteLeafToInternal` | kernel/src/utils/vmtree.c:164-185 | every address keeps its entry; if memory runs out on the way, leaf and memory are as before |
| `VmNodes.InsertLeafBoundary` | kernel/src/utils/vmtree.c:187-211 | the boundary is there or the leaf is full; no entry changes and old boundaries stay |
| `VmNodes.EnsureBoundary` | kernel/src/utils/vmtree.c:213-240 | no entry changes, old boundaries stay, the new one is there; it fails only when memory was refused, and then nothing has changed |
| `VmNodes.AnySlot` | kernel/src/utils/vmtree.c:242-312 | true exactly when some address of the range is a hole (or is mapped) |
| `VmNodes.SetSubtreeUniform` | kernel/src/utils/vmtree.c:314-327 | one uniform leaf is left and the memory below is given back |
| `VmNodes.Normalize` | kernel/src/utils/vmtree.c:329-363 | no entry changes; no equal neighbours are left in leaves, none among uniform sibling leaves, no lone uniform child; freed memory is what left the tree |
| `VmNodes.WriteRangeRec` | kernel/src/utils/vmtree.c:365-400 | between its boundaries exactly the range maps to the entry, everything else is unchanged, and memory follows the nodes |
| `VmSpace.WriteTree` | kernel/src/utils/vmtree.c:421-444 | a write takes effect as on a plain map and leaves a normalized tree, or memory ran out and the map is unchanged |
| `VmSpace.AnyIn` | kernel/src/utils/vmtree.c:402-417 | the checks of insert and set agree with the plain map |
| `VmSpace.Get` | kernel/src/utils/vmtree.c:478-503 | an interval around the address that maps to one entry throughout; it starts at the address if that is a boundary |
| `VmSpace.VmTree.constructor` | kernel/src/utils/vmtree.c:447-456 | all holes, no memory |
| `VmSpace.VmTree.InsertEntry` | kernel/src/utils/vmtree.c:505-533 | answer and new map are those of a plain map; `NoMem` exactly when memory was refused, and then the map is unchanged |
| `VmSpace.VmTree.SetEntry` | kernel/src/utils/vmtree.c:535-540 | the same for set, which needs a range without holes |
| `VmSpace.VmTree.RemoveEntry` | kernel/src/utils/vmtree.c:542-547 | the same for remove |
| `VmSpace.VmTree.Destroy` | kernel/src/utils/vmtree.c:469-476 | all holes, and all memory below the root is given back |
| `VmSpace.VmTree.MoveFrom` | kernel/src/utils/vmtree.c:458-467 | the map moves; what was below the target's root is not given back |
| `VmSpace.Run` | kernel/src/utils/vmtree.c:402-547 | after any run of operations, memory running out anywhere, the tree equals the plain map, every answer is the plain map's, and live memory equals the nodes below the root |
| `AddressSpace.InsertThenRemove` | kernel/src/utils/vmtree.c:402-547 | on the plain map: removing undoes inserting; what is inserted can be set and not inserted again, what is not cannot be set |
| `AddressSpace.VerdictIff` | kernel/src/utils/vmtree.c:402-547 | on the plain map: an operation is accepted exactly if its range and entry are valid and the range is all holes for an insert, all mapped for a set |
| `VmSpace.Lifetime` | kernel/src/utils/vmtree.c:447-547 | a tree that is created, used in any way and destroyed leaves no memory behind |
| `VmSpace.FirstMapped` | kernel/src/utils/vmtree.c:563-587 | holes are passed over to the next mapped interval, or to the end |
| `VmSpace.Iterator.Next` | kernel/src/utils/vmtree.c:557-588 | the next mapped interval; everything skipped is a hole |
| `VmSpace.Iterate` | kernel/src/utils/vmtree.c:549-588 | iteration terminates with ascending disjoint intervals that cover exactly the mapped addresses, each with its entry |
| `BuddyBlocks.RunInBlock` | kernel/src/mm/buddy.c:140-189 | where no two mergeable buddies are free, every aligned run of free pages lies in one free block |
| `BuddyBlocks.BlocksAreMaximalRuns` | kernel/src/mm/buddy.c:140-189 | the free blocks are exactly the maximal aligned free runs |
| `BuddyBlocks.CanonicalUnique` | kernel/src/mm/buddy.c:140-189 | the free blocks are determined by the set of free pages |
| `BuddyOperations.CutCanonical` | kernel/src/mm/buddy.c:154-159 | splitting creates no mergeable pair |
| `BuddyOperations.MergeCanonical` | kernel/src/mm/buddy.c:172-185 | merging leaves no mergeable pair |
| `BuddyOperations.MergeKeeps` | kernel/src/mm/buddy.c:172-187 | exactly the freed pages become free; blocks stay aligned and disjoint |
| `BuddyOperations.CutKeeps` | kernel/src/mm/buddy.c:153-159 | exactly the allocated pages stop being free; blocks stay aligned and disjoint |
| `BuddyOperations.FreeUndoesAlloc` | kernel/src/mm/buddy.c:140-189 | freeing what was just allocated restores the very same free blocks |
| `BuddyRanges.CanonicalIffNotSplit` | kernel/src/mm/buddy.c:86-119 | when `buddy_create` has filled the usable entries of the memory map, no mergeable pair is free if and only if no two entries meet in the middle of a block of which they hold one half each |
| `BuddyRanges.FilledEntry` | kernel/src/mm/buddy.c:107-119 | adding one entry fills it greedily and leaves the blocks of the earlier entries as they are |
| `BuddyAllocator.LargestOrder` | kernel/src/mm/buddy.c:129-133 | the largest order whose block is not larger than memory |
| `BuddyAllocator.Buddy.constructor` | kernel/src/mm/buddy.c:121-138 | exactly the usable pages are free; no mergeable pair if and only if no two usable entries split a block between them; counters agree |
| `BuddyAllocator.Buddy.SetBlockFreeState` | kernel/src/mm/buddy.c:31-42 | exactly the pages of the block change their marks |
| `BuddyAllocator.Buddy.ListPush` | kernel/src/mm/buddy.c:44-50 | one free block more; flags, orders and lists describe the blocks again |
| `BuddyAllocator.Buddy.ListRemove` | kernel/src/mm/buddy.c:52-84 | one free block less; flags, orders and lists describe the blocks again |
| `BuddyAllocator.Buddy.AddRange` | kernel/src/mm/buddy.c:86-105 | exactly the pages of the range become free, in blocks each as large as alignment and the rest of the range allow; other blocks and the page count are kept |
| `BuddyAllocator.Buddy.PrepareFromMap` | kernel/src/mm/buddy.c:107-119 | the free blocks are the greedy fillings of the usable entries, and reserved pages are counted |
| `BuddyAllocator.Buddy.FindOrder` | kernel/src/mm/buddy.c:145-148 | the smallest order from the requested one on that has a free block |
| `BuddyAllocator.Buddy.Alloc` | kernel/src/mm/buddy.c:140-164 | fails exactly when no free block is large enough; otherwise a block of the smallest sufficient order is cut down, its rest stays free, and the result overlaps no outstanding block |
| `BuddyAllocator.Buddy.BuddyIsFree` | kernel/src/mm/buddy.c:65-73 | the flag test is true exactly when the buddy is a free block of that order |
| `BuddyAllocator.Buddy.MergeFree` | kernel/src/mm/buddy.c:174-185 | the loop computes the merged blocks |
| `BuddyAllocator.Buddy.Free` | kernel/src/mm/buddy.c:166-189 | the block is merged with free buddies as far as possible; free and outstanding blocks still make up the managed pages |
| `BuddyRuns.RunKeepsInv` | kernel/src/mm/buddy.c:140-189 | in every run of allocations and frees blocks stay aligned, disjoint and without mergeable pairs |
| `BuddyRuns.AllocFailsOnlyWithoutRun` | kernel/src/mm/buddy.c:140-151 | after any run, a large enough free block exists exactly when there is an aligned run of free pages of that size |
| `BuddyRuns.NoBlockIffNoRun` | kernel/src/mm/buddy.c:140-151 | the test by which an allocation fails is true exactly when no such run exists, for every order that has a list |
| `BuddyRuns.ValidIsInv` | kernel/src/mm/buddy.c:121-189 | a valid allocator meets the invariant of the runs exactly when it has no mergeable pair |
| `BuddyRuns.Serve` | kernel/src/mm/buddy.c:140-189 | one call on the allocator answers and changes the blocks as the step says: `Invalid` exactly when no aligned run of free pages of that size exists |
| `BuddyRuns.Run` | kernel/src/mm/buddy.c:140-189 | any sequence of calls on an allocator without mergeable pairs: every answer is the one above in its state, the invariant holds in all states, and when the same blocks are out as before, the same blocks are free as before |
| `BuddyRuns.CreateAndRun` | kernel/src/mm/buddy.c:121-189 | the same from `buddy_create` on, over any memory map that splits no block, with the invariant in every state of the run |
| `BuddyRuns.FreeBlocksDependOnPagesOnly` | kernel/src/mm/buddy.c:140-189 | two runs that leave the same pages outstanding leave the same free blocks |
| `BuddyRuns.AllocatedIsDisjoint` | kernel/src/mm/buddy.c:140-164 | an allocated block is aligned, was free and overlaps no outstanding block |
| `BuddyRuns.TouchingRangesStayApart` | kernel/src/mm/buddy.c:86-119 | two pages given in two entries: both are free but cannot be allocated together until one has been allocated and freed |
| `Sched.MovePlaced` | kernel/src/task/task.c:71-116 | a task that leaves the queues of what it was and enters those of what it becomes keeps every queue exact |
| `SchedRuns.TopReady` | kernel/src/task/task.c:216-226 | the head of the first non-empty queue is ready and no ready task outranks it |
| `SchedRuns.SignalMid` | kernel/src/irq.c:47-64 | signaling the message event never leaves the drain loop asleep over messages |
| `SchedRuns.ScheduleInv` | kernel/src/task/task.c:232-263 | after `schedule` a task runs, no ready task outranks it, and the invariant holds, whatever state the caller gave up in |
| `SchedRuns.ExpireMid` | kernel/src/task/task.c:195-214 | the handler leaves the alarm at or before the first deadline |
| `SchedRuns.ExpireExact` | kernel/src/task/task.c:195-214 | exactly the tasks whose deadline has passed become ready, marked as timed out |
| `SchedSteps.TickStep` | kernel/src/task/task.c:265-267 | a timer tick keeps the invariant and leaves no ready task that outranks the running one |
| `SchedSteps.CreateStep` | kernel/src/task/task.c:289-323 | creating a task keeps the invariant; the new task has an id not in use, the given priority, one reference, and waits, and no other task changes |
| `SchedSteps.SuspendStep` | kernel/src/task/task.c:325-338 | suspending keeps the invariant |
| `SchedSteps.ResumeStep` | kernel/src/task/task.c:340-350 | resuming keeps the invariant |
| `SchedSteps.TerminateStep` | kernel/src/task/task.c:382-404 | terminating keeps the invariant: joiners are woken, references counted, an unreferenced task freed |
| `SchedSteps.ExitStep` | kernel/src/task/task.c:406-420 | exiting keeps the invariant and finds a successor |
| `SchedSteps.ReleaseStep` | kernel/src/task/task.c:451-466 | dropping a reference keeps the invariant |
| `SchedSteps.WaitStep` | kernel/src/task/task.c:505-524 | blocking keeps the invariant and finds a successor of best priority |
| `SchedSteps.WakeStep` | kernel/src/task/task.c:468-503 | waking keeps the invariant |
| `SchedOrder.WaitEnters` | kernel/src/task/task.c:98-116 | after a blocking wait the caller is waiting, last in exactly the list it gave, until exactly the deadline it gave |
| `SchedOrder.WakesFirst` | kernel/src/task/task.c:468-491 | waking readies the first of the list and nobody else, without the mark of a timeout, and puts it last in the queue of its priority |
| `SchedOrder.WakesInTurn` | kernel/src/task/task.c:493-503 | waking `n` times readies exactly the first `n` of the list |
| `SchedOrder.WaiterMovesUp` | kernel/src/task/task.c:468-503 | one step of anybody: a waiter that stays in its list is nearer to its head by one after a wake-up of that list and never further from it |
| `SchedOrder.WokenInTurn` | kernel/src/task/task.c:468-503 | in every run: a task that goes on waiting in a list has seen no more wake-ups of it than there were waiters before it, and none of all waiters |
| `SchedOrder.SwitchIs` | kernel/src/task/task.c:241-263 | the processor goes to the first ready task of the best priority, unless the current task still runs and every ready task has a worse priority |
| `SchedOrder.ReadyMovesUp` | kernel/src/task/task.c:232-263 | one step of anybody: a task that stays ready is nearer to the head of its queue by one after each turn of its priority and never further from it |
| `SchedOrder.RoundRobin` | kernel/src/task/task.c:232-263 | in every run: a task that goes on being ready has seen no more turns of its priority than there were tasks before it |
| `SchedOrder.ExpireAlarm` | kernel/src/task/task.c:195-214 | after the handler the alarm is set for the first deadline that is left, which is still to come, and stays as it is if there is none |
| `SchedOrder.NotifyOnce` | kernel/src/task/task.c:235-239 | an alarm asks for one message, not for one with every `schedule` |
| `SchedOrder.ResumedIs` | kernel/src/task/task.c:340-351 | a resumed task, and no other, is ready, last of its priority |
| `SchedOrder.SuspendedIs` | kernel/src/task/task.c:325-338 | a suspended task waits for nothing but its resume |
| `SchedOrder.TerminatedIs` | kernel/src/task/task.c:382-404 | a terminated task is dead, or gone exactly if the reference given up was the last; its joiners and nobody else are readied |
| `SchedOrder.ExitedIs` | kernel/src/task/task.c:406-422 | a task that exits is dead and last on the list of the dead, and another runs |
| `SchedCounts.BooksKept` | kernel/src/task/task.c:289-374 | in every run: the references to a task held outside are those taken and not given back, ids are not used again, and priorities do not change |
| `SchedCounts.ClockCounts` | kernel/src/task/task.c:232-239 | in every run the time is the number of timer ticks |
| `SchedCounts.StepPasses` | kernel/src/irq.c:47-86 | one step of anybody: accepted messages go in at the end and are taken out in front, refused ones are counted, and a refusal is reported before anything else is taken out |
| `SchedCounts.MessagesInOrder` | kernel/src/irq.c:47-107 | in every run: what was queued and accepted is what was taken out and is queued, in that order, and the rest is counted as dropped |
| `SchedSteps.InterruptStep` | kernel/src/irq.c:47-64 | a device message keeps the invariant, also when the queue is full |
| `SchedSteps.DrainWaitStep` | kernel/src/irq.c:91-93 | the drain loop waits only when nothing is queued |
| `SchedSteps.DrainPopStep` | kernel/src/irq.c:66-86 | taking a message keeps the alarm covered |
| `SchedSteps.DrainHandleStep` | kernel/src/task/task.c:195-214 | handling a timeout message keeps the alarm covered |
| `SchedSteps.DrainDeadStep` | kernel/src/task/task.c:173-182 | the idle task frees a dead task only when nothing refers to it |
| `SchedSteps.Next` | kernel/src/task/task.c:67-547 | every step of every task, interrupt and tick keeps the invariant |
| `SchedTheorems.Init` | kernel/src/task/task.c:141-171 | the state after initialisation satisfies the invariant |
| `SchedTheorems.EveryTaskInItsPlace` | kernel/src/task/task.c:67-120 | in every run: running means current, ready means once in the queue of its priority, waiting means once in its list or in none, the timeout tree holds exactly the timed waiters; nothing is anywhere else |
| `SchedTheorems.BlockedFindsSuccessor` | kernel/src/task/task.c:232-263 | a task that gives up the processor always finds a successor |
| `SchedTheorems.NoWaiterForgotten` | kernel/src/task/task.c:107-116 | in every run with timed waiters: the alarm is not later than the first deadline, or a timeout message is queued for a drain loop that does not sleep, or is being handled |
| `SchedTheorems.AlarmRings` | kernel/src/task/task.c:235-239 | once the first deadline has passed, `schedule` sends the message unless the queue is full, and then the alarm stays on |
| `SchedTheorems.NeverTimedOutEarly` | kernel/src/task/task.c:195-214 | in every run a task is marked as timed out only after its deadline |
| `SchedTheorems.HandlerIsExact` | kernel/src/task/task.c:195-214 | one handled message readies the tasks whose deadline has passed and changes no other |
| `SchedTheorems.TimeoutIsReported` | kernel/src/task/task.c:505-524 | a timed-out task is told so when it runs, if and only if it is not suspended before; the code wipes the mark at suspension |
| `SchedProgress.NobodyOverdue` | kernel/src/task/task.c:195-214 | after a timeout message is handled, no task waits whose deadline has passed |
| `SchedProgress.OtherNearer` | kernel/src/irq.c:47-64 | no step outside the drain loop takes a queued timeout message away or delays it, but by two steps of the loop for each message dropped |
| `SchedProgress.DrainNearer` | kernel/src/irq.c:88-107 | every step of the drain loop brings a queued timeout message one step nearer to the end of its handler |
| `SchedProgress.ReleasedInTime` | kernel/src/irq.c:66-107 | in every run from every reachable state with the message on its way: a task whose deadline has passed goes on waiting for fewer steps of the drain loop than its place in the queue gives, and two more for each message dropped |
| `SchedProgress.ReleasedAfterTick` | kernel/src/task/task.c:232-239 | in every run from every reachable state: from the next tick on, such a task goes on waiting for at most the steps that drain a full queue, unless the message asked for at that tick is itself dropped |
| `SchedProgress.TimeoutIsAnswered` | kernel/src/task/task.c:505-524 | the step that gives a timed-out task the processor lets its `task_wait` answer false |
| `SchedProgress.MarkedIsTold` | kernel/src/task/task.c:505-524 | in every run without suspending or ending it, a timed-out task keeps its mark until the step that first gives it the processor, and is answered false there |
| `SchedStages.SuspendLosesTimeout` | kernel/src/task/task.c:325-338 | a run from initialisation in which a wait that timed out answers false if its task runs next, and true if it is suspended and resumed first |
| `SchedTheorems.NoJoinerLeft` | kernel/src/task/task.c:376-380 | in every run nobody waits for a task that has ended or is gone |
| `SchedTheorems.FreedIsUnused` | kernel/src/task/task.c:362-374 | in every run a freed task is referenced by nobody and in no queue |
| `SchedImplementation.WakeBySetters` | kernel/src/task/task.c:480-486 | the source's single updates of a wake-up amount to one move between queues |
| `SchedImplementation.DieBySetters` | kernel/src/task/task.c:385-397 | the same for the end of a task |
| `SchedImplementation.ResetTakesOut` | kernel/src/task/task.c:76-97 | the resets of the source take a task out of every queue and disturb no other task |
| `SchedImplementation.ReadiedOnTop` | kernel/src/task/task.c:71-74 | a task made ready is the next to run if and only if every other ready task has a worse priority |
| `SchedImplementation.Scheduler.MakeReady` | kernel/src/task/task.c:71-74 | exactly this task is ready, last in the queue of its priority; if it was taken out of all queues before, every task is where it belongs, and it is on top of the queues exactly if all other ready tasks have worse priorities |
| `SchedImplementation.Scheduler.EnterTimeouts` | kernel/src/task/task.c:107-116 | the task waits, last in the list given and with the deadline given; if it was taken out of all queues before, it is in the tree in order of deadlines, all others stay in place, and an alarm that was early enough for them is early enough for it too |
| `SchedImplementation.Scheduler.WakeOneOf` | kernel/src/task/task.c:468-491 | computes `SchedRuns.WakeOne` |
| `SchedImplementation.Scheduler.WakeAllOf` | kernel/src/task/task.c:493-503 | the loop computes `SchedRuns.WakeAll` |
| `SchedImplementation.Scheduler.IrqmsgPush` | kernel/src/irq.c:47-64 | computes `SchedRuns.PushMsg` |
| `SchedImplementation.Scheduler.ReadyQueueTop` | kernel/src/task/task.c:216-226 | the loop finds the head of the first non-empty queue |
| `SchedImplementation.Scheduler.RunSchedule` | kernel/src/task/task.c:232-263 | computes `SchedRuns.Schedule`, and the answer that the wait of the task which runs now gets |
| `SchedImplementation.Scheduler.IrqmsgTimeout` | kernel/src/task/task.c:195-214 | the loop computes `SchedRuns.Expire` |
| `SchedImplementation.Scheduler.TaskWait` | kernel/src/task/task.c:505-524 | blocks unless the deadline has passed, as `SchedSteps.WaitStep`: the caller waits with the deadline given, behind everybody in the list given, and no other list changes; the wait that ends here answers false exactly if it did not block or its task was marked as timed out |
| `SchedImplementation.Scheduler.TaskSuspend` | kernel/src/task/task.c:325-338 | as `SchedSteps.SuspendStep` |
| `SchedImplementation.Scheduler.TaskResume` | kernel/src/task/task.c:340-350 | as `SchedSteps.ResumeStep` |
| `SchedImplementation.Scheduler.TaskRelease` | kernel/src/task/task.c:451-466 | as `SchedSteps.ReleaseStep`; no id exactly when this was the last reference to a dead task, which is gone then |
| `SchedImplementation.Scheduler.TaskTerminate` | kernel/src/task/task.c:382-404 | as `SchedSteps.TerminateStep` |
| `SchedImplementation.Scheduler.TaskExit` | kernel/src/task/task.c:406-420 | as `SchedSteps.ExitStep` |
| `SchedImplementation.Scheduler.DrainOneDead` | kernel/src/task/task.c:173-182 | as `SchedSteps.DrainDeadStep` |
| `FatEncoding.SetThenRead` | kernel/src/fs/fat/fat_table.c:181-206 | an entry that is stored reads back, in all three encodings |
| `FatEncoding.SetKeepsOthers` | kernel/src/fs/fat/fat_table.c:181-206 | storing an entry changes no other, not even the 12-bit neighbour that shares a byte |
| `FatLayout.RawStored` | kernel/src/fs/fat/fat_table.c:159-179 | the entry that is read is the number whose bit `j` is bit (w*c + j) % 8 of byte (w*c + j) / 8, for w = 12, 16 and 32 |
| `FatLayout.RawIff` | kernel/src/fs/fat/fat_table.c:159-179 | and no other number |
| `FatTables.NextIs` | kernel/src/fs/fat/fat_table.c:172-178 | values below the reserved ones are links; those from there on are read as the values of the 28-bit encoding in the same order |
| `FatTables.LinkReadsBack` | kernel/src/fs/fat/fat_table.c:159-179 | a cluster number reads back as a link if and only if it is below 0xff0, 0xfff0 or 0xffffff0 |
| `FatTables.EocReadsBack` | kernel/src/fs/fat/fat_table.c:208-239 | the end mark that allocation stores reads as an end |
| `FatTables.FatTable.Write` | kernel/src/fs/fat/fat_table.c:87-133 | the table in memory is patched, and every copy on disk equals it again; if writing a copy fails, exactly the copies before it do, those behind it are as before, and the failing one differs from what it was at most in the sectors that were being written, which may hold anything |
| `FatTables.FatTable.TableAt` | kernel/src/fs/fat/fat_table.c:159-179 | the entry whose bits are stored at bit w*c of the table, or a range error beyond the table |
| `FatTables.FatTable.TableSet` | kernel/src/fs/fat/fat_table.c:258-268 | exactly one entry changes, in memory and in all copies; its bits are those from bit w*c of the table on |
| `FatTables.FatTable.FindFree` | kernel/src/fs/fat/fat_table.c:270-283 | the first free cluster, or none |
| `FatTables.FatTable.FindFree12` | kernel/src/fs/fat/fat_table.c:214-235 | the same for the search that reads pairs of 12-bit entries |
| `FatTables.FatTable.TableAlloc` | kernel/src/fs/fat/fat_table.c:315-333 | the first free cluster, and no other, becomes a chain of its own; fails, without change, exactly when none is free |
| `FatTables.FatTable.Append` | kernel/src/fs/fat/fat_table.c:135-157 | the first free cluster is linked behind the end of a chain; fails, without change, exactly when there is none or the cluster is not an end |
| `FatChains.AllGrown` | kernel/src/fs/fat/fat_table.c:135-157 | growing a chain keeps all chains acyclic and disjoint |
| `FatChains.GrownIff` | kernel/src/fs/fat/fat_table.c:135-157 | after the last cluster is linked to a free one and that is marked as the end, the longer chain is well formed if and only if the number of the free cluster is not a reserved one |
| `FatChains.FreeFromAre` | kernel/src/fs/fat/fat_table.c:270-283 | the list of clusters from which chains grow has exactly the free ones, in ascending order |
| `FatChains.HandedOn` | kernel/src/fs/fat/fat_table.c:135-157 | growing a chain takes the head of that list and leaves the rest |
| `FatChains.ChainBound` | kernel/src/fs/fat/fat_table.c:135-157 | a chain has no more clusters than the volume, and has them all if every cluster belongs to it |
| `FatWrites.HoldsUnique` | kernel/src/fs/fat/inode.c:478-548 | what a chain of clusters holds is one content |
| `FatWrites.AfterLoop` | kernel/src/fs/fat/inode.c:702-743 | after the loop the clusters hold the new content up to any recorded size if and only if the clusters that were skipped before the position were zero from the old end of the file on |
| `FatWrites.AfterError` | kernel/src/fs/fat/inode.c:735-738 | when the write gives up after its loop, the clusters hold the old content if and only if the data agrees with it where they meet |
| `FatWrites.Concluded` | kernel/src/fs/fat/inode.c:735-770 | from where the 32-bit index stands when the loop ends: how much counts as written, and which content is recorded |
| `FatWrites.ChainAfterIs` | kernel/src/fs/fat/inode.c:702-733 | the clusters of the file after a write are a function of the state before: the old chain and the first free clusters, as many as the data needs or as there are, and all of them if the index wraps |
| `FatWrites.PlainWrite` | kernel/src/fs/fat/inode.c:656-777 | a write that begins inside the file and ends below 4 GiB less a cluster: cache and disk agree after it if they did before, the content is the old one with the first bytes of the data in it, and fewer than all bytes are written only if no free cluster is left |
| `FatFiles.FatFile.constructor` | kernel/src/fs/fat/inode.c:449-462 | a new file has no clusters |
| `FatFiles.FatFile.ReadAll` | kernel/src/fs/fat/inode.c:478-548 | for any recorded size: what the clusters hold, up to that size or to the end of a shorter chain |
| `FatFiles.FatFile.Reopen` | kernel/src/fs/fat/inode.c:478-548 | reading the file again makes the cache equal to the disk, and changes nothing if it was |
| `FatFiles.FatFile.WriteClusters` | kernel/src/fs/fat/inode.c:702-733 | with a 32-bit index: the loop reaches the end of the data for want of nothing but clusters if and only if end plus cluster size is at most 2^32; beyond that it ends only on a full volume; it passes exactly the first clusters of the chain, which grows as needed, and writes those that reach beyond the position |
| `FatFiles.FatFile.Write` | kernel/src/fs/fat/inode.c:656-777 | for any position, also behind the end, and any free space: exactly how much is answered, the cached content (old with the data in it and zeros in the gap), the clusters of the file, and whether cache and disk agree afterwards, each as a function of the state before and the arguments; no other entry, cluster or chain changes except a chain that is lost when the write gives up on an empty file |
| `FatFiles.FatFile.Truncate` | kernel/src/fs/fat/inode.c:790-840 | exactly the clusters of the file become free; other chains are unchanged |
| `FatExamples.IndexWrapSpoilsDisk` | kernel/src/fs/fat/inode.c:702-738 | a volume and a write in the last cluster below 4 GiB after which nothing counts as written, the cache has the old byte and the disk the new one |
| `FatExamples.SkippedClusterIsStale` | kernel/src/fs/fat/inode.c:702-712 | a write behind the end of a file after which the cache has zeros where the disk has what the cluster held before |
| `FatExamples.ReservedNumberHandedOut` | kernel/src/fs/fat/fat_table.c:135-157 | a FAT12 volume whose last free cluster is 0xff0: it is handed out and linked, and the link reads as the end of the chain |
| `PageTable.ExpandHugepage` | kernel/platform/pc-x64/src/mm/pagetable.c:74-91 | a huge page becomes a table with the same translation of every address and the same flags |
| `PageTable.GetOrAllocTable` | kernel/platform/pc-x64/src/mm/pagetable.c:93-117 | the entry becomes a table and no translation changes; a new table is present, writable and has the flags of the page; fails, without change, exactly without memory, and takes a page of it exactly when there was no table |
| `PageTable.MapInTable` | kernel/platform/pc-x64/src/mm/pagetable.c:119-168 | exactly one page is mapped and nothing else changes; succeeds if and only if the page is not in use and the tables missing on the way to it are at most the pages available, which go down by exactly the tables made, also on failure; failure changes no translation; the page has a right exactly if its flags and the tables that were there already grant it, and no other address gains or loses one |
| `PageTable.MapAt` | kernel/platform/pc-x64/src/mm/pagetable.c:119-168 | the same at the root, as an update of the map of all translations |
| `PageTable.InsertedTables` | kernel/platform/pc-x64/src/mm/pagetable.c:93-168 | mapping a page adds exactly the tables that were missing on the way to it |
| `PageTable.InsertedElsewhere` | kernel/platform/pc-x64/src/mm/pagetable.c:119-168 | mapping a page leaves every page apart from it as used or unused as it was |
| `PageTable.Lookup` | kernel/platform/pc-x64/src/mm/pagetable.c:358-401 | the bits of the address select the entries of the walk, pages of 1 GiB included |
| `PageTable.WalkTranslates` | kernel/platform/pc-x64/src/mm/pagetable.c:358-401 | the tables that mapping makes are walked as they translate |
| `PageTable.IndexBits` | kernel/platform/pc-x64/src/mm/pagetable.c:363-366 | the index taken from the bits is the position in the range the table covers |
| `PageSpace.FillMore` | kernel/platform/pc-x64/src/mm/pagetable.c:183-202 | mapping page after page is mapping the range, also round the end of the address space |
| `PageMapping.MapRange` | kernel/platform/pc-x64/src/mm/pagetable.c:170-204 | how far it gets is determined by the tables and the free pages before: up to the first page that is in use or lacks a table; a range not longer than the address space succeeds if and only if none of its pages was in use and the tables it takes fit the memory; pages for tables are conserved; every address of the part done translates to `pa` plus its offset, none of it was mapped before, and every other translation is unchanged; on success an address is mapped by a page of 2 MiB if and only if its aligned block of 2 MiB lies in the range and `va` and `pa` have the same place in such a block; without the present flag nothing is mapped |
| `PageMapping.ReachesEnd` | kernel/platform/pc-x64/src/mm/pagetable.c:170-204 | all of the pages are mapped exactly if each of them was unused before the first was mapped and the tables of the result fit the memory |
| `PageMapping.DividedInto` | kernel/platform/pc-x64/src/mm/pagetable.c:170-204 | the division of a range into pages: 2 MiB exactly where an aligned block fits for both addresses, 4 KiB elsewhere |
| `PageLevels.InsertedLevel` | kernel/platform/pc-x64/src/mm/pagetable.c:119-168 | a page that is mapped has the size asked for, and every other page keeps its size |
| `PageExamples.UserPageBelowSupervisorTable` | kernel/platform/pc-x64/src/mm/pagetable.c:93-117 | a page mapped for the user below a table made for the supervisor, to which the user has no access |
| `PageExamples.LastPageAnswersZero` | kernel/platform/pc-x64/src/mm/pagetable.c:170-204 | the last page of the address space is mapped, and the answer is 0 |
| `SlabLayout.MadeOk` | kernel/src/mm/slab.c:150-179 | offsets, stride and capacity leave room for headers and red zones inside the page, all aligned |
| `SlabLayout.PayloadAligned` | kernel/src/mm/slab.c:19-40 | every payload has the alignment asked for |
| `SlabLayout.SlotInPage` | kernel/src/mm/slab.c:19-23 | every slot lies behind the page header and inside the page |
| `SlabLayout.SlotsApart` | kernel/src/mm/slab.c:19-23 | slots do not overlap |
| `SlabMoves.ObjectsApart` | kernel/src/mm/slab.c:46-61 | objects are aligned, inside their page and apart from each other, red zones included |
| `SlabMoves.UsedSlot` | kernel/src/mm/slab.c:228-242 | the checks for stray pointers, double frees and corrupt pages do not fail for an object in use |
| `SlabMoves.AllocGood` | kernel/src/mm/slab.c:193-222 | taking the first free slot of the picked page keeps chains, list, objects, counters and totals exact |
| `SlabMoves.FreeLinked` | kernel/src/mm/slab.c:224-266 | giving a slot back, with its page if that was the last one in use, keeps chains, list and objects exact |
| `Slabs.Slab.constructor` | kernel/src/mm/slab.c:150-179 | an empty slab with a sound layout |
| `Slabs.Slab.CreatePage` | kernel/src/mm/slab.c:102-126 | the free chain of a new page visits every slot exactly once |
| `Slabs.Slab.PickPage` | kernel/src/mm/slab.c:134-148 | a page with a free slot, created if there is none |
| `Slabs.Slab.Alloc` | kernel/src/mm/slab.c:193-222 | a slot that was not in use; chains, list of partial pages, counters and totals stay exact; fails exactly without free slots and memory |
| `Slabs.Slab.Locate` | kernel/src/mm/slab.c:228-238 | page and slot are recovered from the address |
| `Slabs.Slab.Free` | kernel/src/mm/slab.c:224-266 | exactly that object is free again; a page without objects is destroyed and the totals follow |
| `FileTables.FileTable.constructor` | kernel/src/task/filetable.c:147-152 | an empty table |
| `FileTables.FileTable.FindEmptyBit` | kernel/src/task/filetable.c:74-89 | the first clear bit of the words, if it belongs to a slot |
| `FileTables.FileTable.FindEmptySlot` | kernel/src/task/filetable.c:91-101 | succeeds exactly when the table is not full, with the smallest free descriptor |
| `FileTables.FileTable.LastUsedEnd` | kernel/src/task/filetable.c:123-145 | one more than the last descriptor in use |
| `FileTables.FileTable.Realloc` | kernel/src/task/filetable.c:21-64 | the table grows with its content, or nothing changes |
| `FileTables.FileTable.PutFile` | kernel/src/task/filetable.c:103-114 | one slot is filled; bitmap, count and end agree; one reference is taken |
| `FileTables.FileTable.Insert` | kernel/src/task/filetable.c:189-209 | always the smallest unused descriptor; fails exactly when full at the limit or without memory |
| `FileTables.FileTable.InsertAt` | kernel/src/task/filetable.c:211-233 | the chosen descriptor, with exact conditions for each error |
| `FileTables.FileTable.Get` | kernel/src/task/filetable.c:235-245 | the file of the descriptor with a new reference, or none |
| `FileTables.FileTable.Remove` | kernel/src/task/filetable.c:247-270 | exactly that descriptor becomes free and its reference is dropped; everything below the hint stays in use |
| `FileTables.FileTable.Destroy` | kernel/src/task/filetable.c:154-163 | exactly the references of the table are dropped |
| `FileTables.FileTable.CloneFrom` | kernel/src/task/filetable.c:165-187 | the same descriptors and one reference for each, or an empty table and no reference taken |
| `FileSlots.HeldOpened` | kernel/src/task/filetable.c:103-114 | opening adds exactly one reference |
| `FileSlots.HeldRemoved` | kernel/src/task/filetable.c:247-270 | removing drops exactly one |
| `DiskQueues.DiskQueue.constructor` | kernel/src/fs/disk.c:98-107 | an empty ring |
| `DiskQueues.DiskQueue.Submit` | kernel/src/fs/disk.c:113-137 | fails exactly when the ring is full; the slot belongs to no request that its owner has not released |
| `DiskQueues.DiskQueue.Fetch` | kernel/src/fs/disk.c:139-153 | the oldest request that is not done |
| `DiskQueues.DiskQueue.PopFetched` | kernel/src/fs/disk.c:155-170 | exactly that request is completed: requests complete once each, in submission order |
| `DiskQueues.DiskQueue.PopReleased` | kernel/src/fs/disk.c:182-195 | released requests leave the ring until the oldest is not a released one |
| `DiskQueues.DiskQueue.StillThere` | kernel/src/fs/disk.c:197-207 | a request in the window is found |
| `DiskQueues.DiskQueue.Release` | kernel/src/fs/disk.c:172-214 | in any order of releases the owner gets the result of its own request, and the final check never fails for a live handle |
| `Parsing.ReadDigits` | libkc/src/strtoul.c:57-78 | never exceeds the type, and reports overflow exactly when the digits denote more than ULONG_MAX |
| `Parsing.Kstrtoul` | libkc/src/strtoul.c:19-97 | for every string and base: a '-' behind the spaces and a run of no digits are invalid, too large a number is out of range exactly if the digits denote more than ULONG_MAX, and otherwise the answer is what the digits denote and where they end; which digits these are is said without the code |
| `Parsing.HasReading` | libkc/src/strtoul.c:19-78 | every string has such a run of digits, unless a '-' follows the spaces |
| `Printing.UtoaRev` | libkc/src/fmt.c:78-94 | the digits of the number, reversed, never more than the buffer holds |
| `Printing.Fmt.WriteChar` | libkc/src/fmt.c:31-58 | the buffer holds the beginning of the text that fits, the write function has taken all of it, the count is its length; fails exactly at INT_MAX or when the function refuses |
| `Printing.DigitsAndPrefix` | libkc/src/fmt.c:183-205 | digits, prefix and raised precision of the alternate forms |
| `Printing.Layout` | libkc/src/fmt.c:207-220 | the parts of the output, whose text is the formatted number |
| `Printing.FormatPrinted` | libkc/src/fmt.c:162-241 | the text of a number of either sign: '-' exactly if negative and otherwise what the flags ask for, the prefix, zeros up to the precision or the width, digits that denote the magnitude and are as few as can be, and spaces up to the width on the side the flags name |
| `Printing.Fmt.WriteInteger` | libkc/src/fmt.c:162-241 | exactly the formatted number, which reads as `Printing.FormatPrinted` says, is appended; an error exactly when the count would exceed INT_MAX or what the write function takes |
| `Printing.LengthFitsIff` | libkc/src/fmt.c:207-220 | the `int` sums from which the code computes padding stay below INT_MAX if and only if precision, prefix and sign together do |
| `Numerals.ValueOfNumeral` | libkc/src/fmt.c:78-94 | the digits of a number denote it |
| `RoundTrip.ParseUndoesPrint` | libkc/src/fmt.c:162-241 | for all flags, widths and precisions, reading the output in its own base returns the number, except exactly when nothing is printed |
| `RoundTrip.NegativeIsRefused` | libkc/src/strtoul.c:30-36 | a negative number that was printed is not read back with any base |
| `RoundTrip.PrefixedReadsBack` | libkc/src/strtoul.c:42-55 | with base 0 the prefixed octal and hexadecimal outputs read back |
| `RoundTrip.DecimalReadsBack` | libkc/src/strtoul.c:42-55 | with base 0 a decimal output reads back if and only if it has no zeros in front or is below 8 |
| `RoundTrip.PaddedTenReadsAsEight` | libkc/src/strtoul.c:42-55 | ten, printed with three digits, reads back as eight with base 0 |

## Left out

- FatFiles.FatFile.Write: without disk errors and with memory for the new buffer.
- FatFiles.FatFile.Truncate: without disk errors.
- FatTables.FatTable.Write: the operations above it are modelled without failures of the disk.
- PageMapping.MapRange: stops where the code would undo a failed mapping with `unmap_next`, whose tests for whole entries do not look at alignment; access rights are stated page by page, not for the range.
- PipeImplementation.PipeFs.Write: takes bytes as a sequence instead of an address; `AwaitRoom`, `PutChunk` and `WritePass` are the parts of its loop.
- VmSpace.VmTree.MoveFrom: parent links, which nothing reads, are not modelled.
- Printing.Fmt.WriteInteger: widths and precisions near INT_MAX, where the length computation of the code overflows (exactly when `Printing.LengthFitsIff` says), are treated as unbounded numbers.
- Update in place of vmtree nodes, page tables, FAT clusters and slab pages: they are values held by an object, so sharing between nodes is excluded by construction; the red-black tree is modelled with pointers.
- Bit operations on page frame numbers, table entries and bitmap words are modelled by arithmetic and by sequences of bits.
- Keys of the red-black tree are integers; the C templates take any comparison.
- Processes, kernel stacks, contexts, FPU state and interrupts as hardware; the completion that the end of a process signals is an ordinary wait list.
- `task_wait` is split where another task runs: its answer is the mark that the task carries when it gets the processor.
- The directory that holds the entry of a FAT file: the entry is two fields of the file. Creating files, directories, mounting and formatting.
- `filetable`: the array of inline slots and its replacement by allocated arrays are one sequence.
- Slab: contents of red zones and unused payloads, and `slab_destroy`.
- xarray, memory map overlap removal, klog, unmapping of pages, the PATA driver, and user interface code.
- Linked lists and ring buffers other than the pipe's and the disk queue's are sequences.
