# Verification of the Aether kernel

A Dafny model of the parts of the Aether kernel that keep state which must never disagree with
itself, and proofs of what they promise. Each part is one group of modules.

- **Frame allocator** (`Buddy*.dfy`, `UsableRanges.dfy`). The buddy allocator with its arrays of
  nodes, free lists, CPU caches and reference counts. Its invariant says that every node is on exactly one
  acyclic list, that the blocks in use are aligned, usable, disjoint and add up to all frames, and
  that no two free buddies exist. Every public operation keeps it and is specified by the map of
  granted blocks alone.
- **Copy-on-write memory** (`Cow*.dfy`). Frames, counts and mappings of all address spaces.
  A whole run with sharing forks gives the answers and contents of the same run with copying forks.
- **Page tables** (`PageTable*.dfy`). Tables in memory, refined to a map from paths to pages.
- **Areas and regions** (`UserVma*.dfy`, `LazyPages.dfy`, `MmapRegions.dfy`). Both lists are specified
  by all that they say about each single address, whether or not their entries overlap. In lists without
  overlaps that is one meaning for each address, and lists that mean the same load the same pages. A
  list of areas is tidy if its areas start pages, share none, are sorted, and none above the heap is empty.
- **Process manager** (`Process*.dfy`, `FileWakeQueue.dfy`, `KeyedIndex.dfy`). Waits, their
  indexes, the two-step futex wait with a ledger of wakes, and the queue of ready files as a state
  machine over interleaved steps.
- **Timers** (`Timer*.dfy`, `IntervalTimers.dfy`). Catching up with missed periods, and the sweeps, whose
  steps may be mixed with those of other sweeps and calls.
- **Initial stack** (`Stack*.dfy`). Building it, and reading it back.
- **Unix streams** (`UnixStream.dfy`) and the **page cache** over a block device (`PageCache.dfy`,
  `BlockFile.dfy`).

## Where the code does not keep the property

For each there is a proof of exactly when it does, and an input on which it does not.

- Changing permissions ignores copy-on-write. After a fork, making a private page writable lets two
  spaces write to one frame. Isolation survives if and only if no page that becomes writable shares its
  frame (`ProtectPages`, `ProtectIsolates`; input in `ProtectCanBreakIsolation`).
- Moving an armed futex wait to another word makes its process miss a wake that is counted for it.
  Armed waits stay on their words if and only if the words are the same, nothing is to be moved, or all
  of them are woken (`RequeueFutex`); up to the first requeue that is none of these no wake is lost
  (`RunUntilHarm`; input in `RequeueLosesAWake`).
- The search for a gap fails although there are holes. It succeeds if and only if the bottom of its
  window is free (`FindTopDownGap`; inputs in `HoleIsNotFound`, `HolesAreNotReused`). Its early return
  (aether-kernel/libs/aether-process/src/process.rs:1870-1878) is never reached in a tidy list.
- Recording a mapped region does not remove what was recorded there before, also when it replaces a mapping
  at a fixed place (aether-kernel/src/syscall/handlers/memory/mmap.rs:41-57). The list stays sorted and
  disjoint if and only if the region overlaps none (`Insert`; input in `MappedTwice`), and otherwise a
  lookup can miss what is there (`InnerHidesOuter`).
- A mapping at the place of a heap that is still empty is listed before the heap, and its first page is never
  found by a fault. The list stays tidy if and only if no empty area lies at the base of the mapping
  (`Mmap`, `RecordVma`; inputs in `MappedOverHeap`, `EmptyHidesPage`).
- Areas of program segments that share a page overlap. The list stays sorted and disjoint if and only if they
  do not (`RecordVma`; input in `SegmentsShareAPage`).
- Moving the end of the heap moves the end of the first heap area, wherever that starts. The area is
  well-formed afterwards if and only if it starts at or below the new end, and the list stays tidy if and
  only if no area above reaches below it (`Brk`; input in `HeapTurnsAround`).
- At the last moment that 64 bits hold, a due periodic timer stays due for ever, so a sweep does not end.
  A timer settles if and only if it is not due, not periodic, or now is earlier (`RefreshedIsOk`,
  `LapsesExactly`; input in `LastMomentIsForEver`), and then sweeps end (`WakeExpiredClass`, `TakeExpired`).
- Looking up a region indexes one before the position it found, before it knows that the position is
  not 0. The position is 0 if and only if no region starts at or below the address (`LookupIndex`; input
  in `NoRegionBelow`).
- A refill can fail for want of nodes although it has just cached the block asked for. It fails if and only
  if the splits for a batch take more nodes than are spare (`RefillPerCpuCache`, `AllocFrames`; input in
  `RefillCanRunDry`).
- Mapping a page and unmapping it does not always restore the tables, and a mapping that runs out of memory
  leaves an empty table. The tables are restored if and only if none on the way was empty (`MapThenUnmap`),
  and an empty one is left if and only if there was a frame to spend (`Map`; input in `FailedMapLeavesATable`).
- A copying fork makes private copies of device pages, a sharing fork keeps the alias. The two look alike
  if and only if the parent maps no device page (`ForkCopy`, `ForksLookAlike`; input in `DeviceForksDiffer`).
- Mapping shared memory where a page is mapped already leaks a reference, and so does a sharing fork that
  cannot map a counted page (`MapSharedPage`, `FailToShare`, each with its condition and effect).
- A failed write leaves stale pages in the cache. The cache is coherent if and only if what was stored changed
  no cached byte, and no failure can hurt if and only if the bytes to write agree with what is cached
  (`Write`, `CoherentAfterStore`, `NoFailureHurts`; input in `FailedWriteLeavesStalePage`).

## Model

| member | source | states |
|---|---|---|
| BuddyAllocator.BuddyAllocator.AllocFrames | aether-frame/src/mm/buddy.rs:360-374 | the frames handed out were nobody's, and afterwards the granted blocks are the old ones plus one block of the least order that holds `count` frames, with one reference; each of the four errors exactly on its condition before the call, among them `OutOfMemory` (no block cached, none free of the order or above) and `MetadataExhausted` (no block cached, and the splits for a batch of them take more nodes than are spare); the allocator invariant is kept on every path |
| BuddyAllocator.BuddyAllocator.RetainFrame | aether-frame/src/mm/buddy.rs:376-387 | exactly the granted addresses can be retained, the count goes up by one and no other grant changes; overflow exactly at the 32-bit maximum |
| BuddyAllocator.BuddyAllocator.FreeFrames | aether-frame/src/mm/buddy.rs:389-425 | exactly the granted addresses can be freed; the count goes down by one, and with the last reference exactly that grant ends; no other grant changes, whatever is cached, drained or coalesced |
| BuddyAllocator.BuddyAllocator.RefCountFor | aether-frame/src/mm/buddy.rs:443-447 | the answer is the count of the grant at the address, or nothing |
| BuddyAllocator.BuddyAllocator.InitFromUsableRanges | aether-frame/src/mm/buddy.rs:274-328 | for separated usable ranges the allocator starts valid, owning every usable frame and granting none; the condition of each error is exact, `MetadataExhausted` being fewer nodes than the blocks that greedy cutting makes |
| BuddyAllocator.BuddyAllocator.SeedRegion | aether-frame/src/mm/buddy.rs:707-726 | cutting a range greedily into aligned blocks covers all of it and leaves no two free buddies; it fails exactly if there are fewer spare nodes than blocks |
| BuddyAllocator.BuddyAllocator.AllocFromGlobal | aether-frame/src/mm/buddy.rs:728-763 | `OutOfMemory` exactly if no free list from the order up holds a block; `MetadataExhausted` exactly if splitting the first block found takes more nodes than are spare; otherwise one block of the order is held, the invariant holds, no grant has changed, and the numbers of free blocks and spare nodes are those after one draw |
| BuddyAllocator.BuddyAllocator.SplitDown | aether-frame/src/mm/buddy.rs:748-760 | cutting a held block down keeps the invariant and all grants, and ends at the requested order |
| BuddyAllocator.BuddyAllocator.FreeGlobalBlock | aether-frame/src/mm/buddy.rs:765-785 | coalescing ends with the whole invariant, so no two free buddies remain and the frames still add up |
| BuddyAllocator.BuddyAllocator.Coalesce | aether-frame/src/mm/buddy.rs:769-778 | the block grows until it is of the top order or its buddy is not free |
| BuddyAllocator.BuddyAllocator.RefillPerCpuCache | aether-frame/src/mm/buddy.rs:627-645 | out of memory exactly if nothing is cached or free; fails for want of nodes exactly if the splits for a batch, or for all that can be had, take more nodes than are spare, and then it has cached as many blocks as the nodes reach for; otherwise it has cached the whole batch |
| BuddyCounts.DrawOne | aether-frame/src/mm/buddy.rs:728-763 | for any numbers of free blocks: drawing one block takes one off the number available, and takes its own splits off those needed for any number of blocks |
| BuddyCounts.NeededGrows | aether-frame/src/mm/buddy.rs:627-645 | more blocks never need fewer splits |
| BuddyAllocator.RefillCanRunDry | aether-frame/src/mm/buddy.rs:627-645 | a valid allocator state with a free block of order 0 in which the refill fails for want of nodes: two nodes, frames [0, 1) and [2, 4) |
| BuddyAllocator.BuddyAllocator.DrainPerCpuCache | aether-frame/src/mm/buddy.rs:647-662 | above the high watermark the cache shrinks to a batch, otherwise it stays; grants stay |
| BuddyAllocator.BuddyAllocator.AllocBlock | aether-frame/src/mm/buddy.rs:613-625 | a block of exactly the order is held and no grant changes, from the cache or from the free lists; the condition of each error is exact |
| BuddyAllocator.BuddyAllocator.MarkAllocated | aether-frame/src/mm/buddy.rs:787-803 | the grants gain exactly the held block |
| BuddyAllocator.BuddyAllocator.GlobalInsertSorted | aether-frame/src/mm/buddy.rs:856-885 | the free list stays sorted, and a start that is already there is refused |
| BuddyAllocator.BuddyAllocator.GlobalRemoveByStart | aether-frame/src/mm/buddy.rs:895-920 | finds a block exactly if its start is on the list, and unlinks only it |
| BuddyAllocator.BuddyAllocator.FindAllocationIndex | aether-frame/src/mm/buddy.rs:805-815 | finds a node exactly if the start is granted |
| BuddyAllocator.BuddyAllocator.RemoveAllocationNode | aether-frame/src/mm/buddy.rs:817-838 | unlinks exactly that node |
| BuddyAllocator.BuddyAllocator.InitNodes | aether-frame/src/mm/buddy.rs:62-79 | all nodes are spare and linked in index order |
| BuddyBlocks.SplitKeepsTiling | aether-frame/src/mm/buddy.rs:748-760 | halving a block keeps all blocks aligned, inside one usable range and disjoint, and keeps the number of frames |
| BuddyBlocks.JoinKeepsTiling | aether-frame/src/mm/buddy.rs:769-778 | merging two buddies does the same, because usable ranges never touch |
| BuddyBlocks.BuddyInvolutive | aether-frame/src/mm/buddy.rs:769-778 | flipping the order bit twice restores a start and once never does |
| BuddyBlocks.BuddiesJoin | aether-frame/src/mm/buddy.rs:769-778 | the lower of two buddies starts the aligned block one order up |
| BuddyState.SplitKeepsInv | aether-frame/src/mm/buddy.rs:748-760 | one turn of the split loop keeps every clause of the allocator invariant |
| BuddyState.JoinKeepsInv | aether-frame/src/mm/buddy.rs:769-778 | one turn of the coalescing loop does |
| BuddyGrants.GrantsAreSound | aether-frame/src/mm/buddy.rs:449-611 | any two granted blocks are aligned, usable and disjoint |
| BuddySeed.GreedyIsLarge | aether-frame/src/mm/buddy.rs:1093-1099 | the greedy choice at boot cannot be doubled, which is why seeding leaves nothing to coalesce |
| BuddyOrders.CeilLog2IsLeast | aether-frame/src/mm/buddy.rs:1040-1057 | the order for a count is the least one that fits |
| BuddyOrders.FloorLog2IsGreatest | aether-frame/src/mm/buddy.rs:1059-1061 | the top order is the greatest that fits |
| BuddyOrders.MaxFitOrder | aether-frame/src/mm/buddy.rs:1093-1099 | the largest order that fits, is aligned and is allowed |
| UsableRanges.RangeList.InsertMergedSorted | aether-frame/src/mm/buddy.rs:124-174 | on success the list is sorted, merged and covers exactly the old frames and the new ones; an overlap is always refused and, where all ends are representable, nothing else is; the list is too small exactly if it is full and the new range touches none, and then it is unchanged |
| UsableRanges.MergeIsSound | aether-frame/src/mm/buddy.rs:124-174 | absorbing the neighbours that touch keeps ranges separated and covers exactly the union |
| UsableRanges.RangeList.InsertAt | aether-frame/src/mm/buddy.rs:176-189 | the entry is in its place and the others keep their order; fails exactly if full |
| UsableRanges.RangeList.RemoveAt | aether-frame/src/mm/buddy.rs:191-198 | exactly one entry goes |
| CowRuns.ForkCowRefinesForkCopy | aether-kernel/libs/aether-process/src/process.rs:692-780 | two machines that look alike give the same answers and still look alike after any sequence of operations, if one forks by sharing and the other by copying |
| CowRuns.Execute | aether-kernel/libs/aether-process/src/process.rs:692-780 | a whole run on frames, counts and mappings gives what the same run gives on separate pages of bytes |
| CowMachine.Machine.ForkCow | aether-kernel/libs/aether-process/src/process.rs:692-763 | the child sees what the parent sees, the parent what it saw; counts are exact, and no frame is copied |
| CowMachine.Machine.ForkCopy | aether-kernel/libs/aether-process/src/process.rs:765-780 | the child sees copies; the result looks like a sharing fork exactly if the parent maps no device page; it fails exactly if there are fewer free frames than pages that are not shared, and a failure leaves everything as it was |
| CowMachine.Machine.ResolveCowFault | aether-kernel/libs/aether-process/src/process.rs:1440-1469 | no space sees a difference; the page can be stored to in place, and keeps its frame exactly if it was the frame's only user; it fails exactly if it was not and no frame is free, and a failure changes nothing |
| CowMachine.Machine.EnsureAccess | aether-kernel/libs/aether-process/src/process.rs:1251-1271 | answers and effect are those of an access to separate pages, or memory ran out and nothing changed |
| CowMachine.Machine.MapLazyPage | aether-kernel/libs/aether-process/src/process.rs:1273-1326 | the page that appears is the one the areas prescribe, with their flags |
| CowMachine.Machine.HandlePageFault | aether-kernel/libs/aether-process/src/process.rs:1200-1225 | a fault changes what a space sees only as an access would; what is reported handled is mapped and, for a write, writable in place |
| CowMachine.Machine.ReadBytes | aether-kernel/libs/aether-process/src/process.rs:1057-1081 | a read across pages gives the bytes of the space, or its error |
| CowMachine.Machine.WriteBytes | aether-kernel/libs/aether-process/src/process.rs:1083-1107 | a write across pages changes exactly the bytes of that space and of memory shared on purpose |
| CowMachine.Machine.MapOwnedFrame | aether-kernel/libs/aether-process/src/process.rs:1483-1505 | a failed mapping gives the frame back |
| CowMachine.Machine.MapPage | aether-kernel/libs/aether-process/src/process.rs:1507-1519 | a new private page with the bytes in place and zeros around them; each error exactly on its condition |
| CowMachine.Machine.MapPhysicalPage | aether-kernel/libs/aether-process/src/process.rs:1521-1540 | an alias of memory the space does not own |
| CowMachine.Machine.MapSharedPage | aether-kernel/libs/aether-process/src/process.rs:1542-1562 | an alias that holds a reference; if and only if the page is mapped already it fails, and leaks that reference |
| CowMachine.Machine.FailToShare | aether-kernel/libs/aether-process/src/process.rs:743-750 | a step of a sharing fork whose page cannot be mapped leaks a reference if and only if the page is a counted one |
| CowMachine.Machine.UnmapPage | aether-kernel/libs/aether-process/src/process.rs:1621-1638 | exactly that page goes, with its reference |
| CowMachine.Machine.DropSpace | aether-kernel/libs/aether-process/src/process.rs:1894-1909 | the end of a space gives back every reference it holds and no other; the other spaces see no difference |
| CowMachine.Machine.ProtectPages | aether-kernel/libs/aether-process/src/process.rs:1013-1042 | after a change of permissions no private frame with two users is writable if and only if no page of the range that becomes writable shares its frame |
| CowMachine.ProtectIsolates | aether-kernel/libs/aether-process/src/process.rs:1013-1042 | the same equivalence for the spaces themselves |
| CowMachine.ProtectCanBreakIsolation | aether-kernel/libs/aether-process/src/process.rs:1013-1042 | a forked page made writable: two spaces then write to one frame |
| CowState.CountOneIsExclusive | aether-kernel/libs/aether-process/src/process.rs:1440-1469 | a private frame of count one has one mapping, so it may be written in place |
| CowWorld.ForksLookAlike | aether-kernel/libs/aether-process/src/process.rs:1564-1619 | copying device pages shows exactly if there are any |
| CowRuns.DeviceForksDiffer | aether-kernel/libs/aether-process/src/process.rs:1564-1619 | an input: two machines alike that map one device page: a sharing and a copying fork both succeed, and then they look different |
| CowWorld.WritesAreIsolated | aether-kernel/libs/aether-process/src/process.rs:1083-1107 | what one space writes leaves every other space as it was |
| LazyPages.LoadLazyPage | aether-kernel/libs/aether-process/src/process.rs:1273-1375 | the page loaded is a function of the areas around it: the empty, the single and the sorted several-area path agree with one definition |
| LazyPages.FillIsPointwise | aether-kernel/libs/aether-process/src/process.rs:1377-1438 | every byte of a filled page is the byte the area has at that address |
| LazyPages.SameContentsSameFill | aether-kernel/libs/aether-process/src/process.rs:1377-1438 | areas with the same contents fill the same page |
| PageTable.AddressSpace.Map | aether-frame/src/mm/mapper.rs:160-209 | succeeds exactly if the size is supported, address and frame are aligned, nothing is in the way and there are frames for the missing tables; then translation changes for exactly the addresses of the new page; each error is exact and changes no translation; running out of memory spends every frame and, if there was one, leaves an empty table; no table frame is lost |
| PageTable.FailedMapLeavesATable | aether-frame/src/mm/mapper.rs:160-209 | a new address space and one call that leave an empty table behind |
| PageTable.AddressSpace.Unmap | aether-frame/src/mm/mapper.rs:244-288 | fails exactly if no page holds the address or its frame has no reference to lose; whenever a page was found, exactly that page stops being translated; on success its frame loses a reference if asked, and exactly the tables up to the first that holds something go; without a reference to lose, no table goes |
| PageTable.AddressSpace.Protect | aether-frame/src/mm/mapper.rs:290-314 | fails exactly if no page holds the address; otherwise exactly that page gets the flags and every other translation stays |
| PageTable.AddressSpace.MapThenUnmap | aether-frame/src/mm/mapper.rs:160-288 | on every valid tree, mapping and unmapping restores every page, translation and reference; it restores the tables and free frames if and only if no table on the way was empty before |
| PageTablePaths.RestoredExactly | aether-frame/src/mm/mapper.rs:160-338 | making the missing tables and pruning the empty ones cancel out exactly in that case |
| PageTablePaths.SameTablesSameTree | aether-frame/src/mm/mapper.rs:160-288 | the tables in memory determine the tree |
| PageTable.AddressSpace.NextTable | aether-frame/src/mm/mapper.rs:175-199 | finds or makes the next table without changing a translation; a failure changes nothing |
| PageTable.AddressSpace.PruneEmptyTables | aether-frame/src/mm/mapper.rs:316-338 | exactly the tables on the walk below the first one that holds something go, and no page |
| PageTable.AddressSpace.TableIsEmpty | aether-frame/src/mm/mapper.rs:341-349 | true exactly if the table has neither page nor table below it |
| PageTable.AddressSpace.NewRoot | aether-frame/src/mm/mapper.rs:154-158 | an empty address space translates nothing |
| PageTableWalk.WalkIsLookup | aether-frame/src/mm/mapper.rs:244-265 | walking the tables in memory is looking up the unique page on the path |
| PageTableWalk.TablesAreNeeded | aether-frame/src/mm/mapper.rs:316-338 | without empty tables there is a table exactly where a page needs one |
| PageTableWalk.SamePagesSameTree | aether-frame/src/mm/mapper.rs:160-288 | the pages determine the tables |
| ProcessManagement.ProcessManager.WakeExpiredTimers | aether-kernel/src/process/manager.rs:1629-1678 | every process whose deadline has passed is woken as its wait prescribes, no other process changes, and no passed deadline stays indexed |
| ProcessManagement.ProcessManager.WakeFutex | aether-kernel/src/process/manager.rs:1969-2016 | wakes as many waits as asked or there are: of the armed ones as many as asked or there are, and only then blocked ones, the low process numbers first in both; exactly those waits change |
| ProcessManagement.ProcessManager.WakeArmedFutexWaits | aether-kernel/src/process/manager.rs:486-517 | marks the lowest matching armed waits and nothing else |
| ProcessManagement.ProcessManager.RequeueFutex | aether-kernel/src/process/manager.rs:2018-2066 | who is woken and who is moved, armed waits before blocked ones and low process numbers first, within both limits; armed waits keep the word they were armed for if and only if the words are the same, nothing is to be moved, or all of them are woken |
| ProcessManagement.ProcessManager.RequeueArmedFutexWaits | aether-kernel/src/process/manager.rs:519-551 | moves the lowest matching armed waits and nothing else |
| ProcessManagement.ProcessManager.ArmFutexWait | aether-kernel/src/process/manager.rs:467-476 | from now on a wake on the word counts for the process; a wake counted for an earlier armed wait of it is booked as given up |
| ProcessManagement.ProcessManager.DisarmFutexWait | aether-kernel/src/process/manager.rs:478-480 | a wake that had been counted is accounted as given up, not lost |
| ProcessManagement.ProcessManager.BlockFromDisposition | aether-kernel/src/process/manager.rs:661-723 | a wait that was woken while armed does not block |
| ProcessManagement.ProcessManager.FinishKernelBlock | aether-kernel/src/process/manager.rs:1345-1367 | a wake that came between the check and the block is delivered and none is lost, if the process blocks on the word it was armed for |
| ProcessManagement.ProcessManager.FinishSyscallReturn | aether-kernel/src/process/manager.rs:1288-1343 | a process that does not block after all disarms itself |
| ProcessManagement.ProcessManager.RequeueProcess | aether-kernel/src/process/manager.rs:1388-1417 | a process that is put back is indexed by what it waits for, or runs if its file is ready |
| ProcessManagement.ProcessManager.TrackBlockedProcess | aether-kernel/src/process/manager.rs:744-788 | file, deadline and word indexes again hold exactly what the processes wait for |
| ProcessManagement.ProcessManager.UntrackBlockedProcess | aether-kernel/src/process/manager.rs:790-847 | the same after a process stops waiting, also for a deadline that is just being served |
| ProcessManagement.ProcessManager.RefreshNextTimerDeadline | aether-kernel/src/process/manager.rs:441-465 | the published deadline is the earliest one |
| ProcessManagement.ProcessManager.WakeProcessWithResult | aether-kernel/src/process/manager.rs:725-742 | exactly a blocked process is woken |
| ProcessManagement.ProcessManager.NotifySignal | aether-kernel/src/process/manager.rs:1680-1783 | which waits a signal ends, with which result, and that the indexes follow |
| ProcessManagement.ProcessManager.BeginThreadGroupExit | aether-kernel/src/process/manager.rs:1481-1515 | every other thread of the group leaves its wait, and nobody else does |
| ProcessManagement.ProcessManager.WakeVforkParent | aether-kernel/src/process/manager.rs:1785-1801 | exactly a parent that waits for this child is woken; the indexes need no change |
| ProcessManagement.ProcessManager.NotifyChildEvent | aether-kernel/src/process/manager.rs:2068-2151 | exactly a parent that waits for such news of a child is woken; the indexes need no change |
| ProcessManagement.ProcessManager.WakeReadyFileBlocks | aether-kernel/src/process/manager.rs:1601-1627 | exactly the queued processes are looked at, and the queue is empty and sound afterwards |
| ProcessManagement.ProcessManager.FileBecameReady | aether-kernel/src/process/manager.rs:41-52 | the process is in the queue, and the queue still holds each process once |
| ProcessRuns.Run | aether-kernel/src/process/manager.rs:661-723 | after every sequence of operations the indexes agree with the processes, the queue of ready files is sound, and the wakes counted are those delivered, pending, given up and lost |
| ProcessRuns.RunUntilHarm | aether-kernel/src/process/manager.rs:661-723 | in every run no wake is lost before the first requeue that moves an armed wait to another word, which the state before it shows |
| ProcessRuns.RequeueLosesAWake | aether-kernel/src/process/manager.rs:519-551 | a sequence of calls with a requeue after which a wake was counted, its process sleeps, and the ledger shows one lost wake |
| FileWakeQueue.RunsAreSound | aether-kernel/src/process/manager.rs:41-53 | in every interleaving of listeners and drains each process that is owed a look is queued, or about to be |
| FileWakeQueue.NothingIsLost | aether-kernel/src/process/manager.rs:1601-1627 | once the listeners are through, the flag is up, the queue holds exactly those owed, and the next drain serves them all |
| FileWakeQueue.OwedAcrossRun | aether-kernel/src/process/manager.rs:1601-1627 | in every run a process that is owed a look stays so until a drain takes it |
| MmapRegions.RegionList.Insert | aether-kernel/src/process.rs:342-349 | what the region says is added to what the list says of each address, in any list; the list is sorted and disjoint afterwards if and only if it was and the region overlaps none, and then the region gives the meaning inside it and all other addresses keep theirs; mergeable neighbours never remain |
| MmapRegions.InsertOrdered | aether-kernel/src/process.rs:342-349 | inserting where a binary search for the start ends up leaves a list sorted and disjoint if and only if it was and the region overlaps none |
| MmapRegions.MappedTwice | aether-kernel/src/syscall/handlers/memory/mmap.rs:41-57 | an input: any region recorded twice is listed twice, and the list is not valid |
| MmapRegions.InnerHidesOuter | aether-kernel/src/process.rs:301-308 | an input: after a region over the middle of another, the lookup stops at the inner one and misses what the outer one holds above it |
| MmapRegions.JoinKeeps | aether-kernel/src/process.rs:254-299 | joining two mergeable neighbours changes nothing that is said about any address, and neither makes nor mends an overlap |
| MmapRegions.RegionList.UpdateFlags | aether-kernel/src/process.rs:351-393 | in any list, all that is said about the addresses of the range changes its flags and keeps its backing, and nothing else changes; a sorted and disjoint list stays so |
| MmapRegions.RegionList.RemoveRange | aether-kernel/src/process.rs:395-424 | in any list, nothing is said any more about the addresses of the range, and all else is kept; a sorted and disjoint list stays so |
| MmapRegions.RegionList.Coalesce | aether-kernel/src/process.rs:254-270 | in any list, nothing changes that is said about any address and no mergeable neighbours remain |
| MmapRegions.RegionList.MergeNeighborsAround | aether-kernel/src/process.rs:272-299 | merging around the one changed place is enough to merge everything |
| MmapRegions.MergeableIsContinuous | aether-kernel/src/process.rs:207-252 | two neighbours may be merged if and only if the second means what the first would have meant there |
| MmapRegions.SliceKeepsMeaning | aether-kernel/src/process.rs:324-340 | a slice with adjusted backing means what the whole meant |
| MmapRegions.RegionList.Covering | aether-kernel/src/process.rs:301-308 | finds the region that holds a whole range, if there is one |
| MmapRegions.RegionList.SliceOf | aether-kernel/src/process.rs:310-322 | the slice means what the list means on the range |
| MmapRegions.LookupIndex | aether-kernel/src/process.rs:301-308 | the position the lookup steps back from is 0 if and only if no region starts at or below the address |
| MmapRegions.NoRegionBelow | aether-kernel/src/process.rs:301-308 | an input: one region, and any address below it |
| UserVmaList.AddressSpace.Mmap | aether-kernel/libs/aether-process/src/process.rs:803-998 | what the new area says is added, and replaces what was there for a fixed place; where the area may lie and for each placement exactly when the call succeeds; a tidy list stays tidy if and only if no empty area lies at the base, and then every page of the mapping is loaded from it and all others as before |
| UserVmaList.AddressSpace.Munmap | aether-kernel/libs/aether-process/src/process.rs:1000-1011 | in any list, exactly what is said about the range goes; a tidy list stays tidy, no page of the range can be loaded any more, and pages outside it load as before |
| UserVmaList.AddressSpace.Mprotect | aether-kernel/libs/aether-process/src/process.rs:1013-1042 | in any list, exactly what is said about the range changes flags, with backing kept; a tidy list stays tidy and pages outside the range load as before; each error exactly on its condition |
| UserVmaList.AddressSpace.FindTopDownGap | aether-kernel/libs/aether-process/src/process.rs:1855-1890 | in a tidy list, succeeds if and only if the bottom of the window is free, and then gives the top of that free space; in any list the result lies in the window |
| UserVmaList.HoleIsNotFound | aether-kernel/libs/aether-process/src/process.rs:1855-1890 | one page at the bottom of the window makes the search fail although all above is free |
| UserVmaList.HolesAreNotReused | aether-kernel/libs/aether-process/src/process.rs:803-824 | two calls that show it: after a mapping at the bottom the next one fails |
| UserVmaList.AddressSpace.PrepareMappingBase | aether-kernel/libs/aether-process/src/process.rs:1640-1668 | the range chosen is free, aligned and where the placement demands; a search for a place finds a free one in a tidy list |
| UserVmaList.AddressSpace.RecordVma | aether-kernel/libs/aether-process/src/process.rs:1772-1786 | what the area says is added to what the list says of each address, in any list; the list is sorted and disjoint afterwards if and only if it was, the area overlaps none, and no empty area has the same start; the same page by page |
| UserVmas.InsertOrdered | aether-kernel/libs/aether-process/src/process.rs:1772-1786 | inserting where a binary search for the start ends up leaves a list sorted and disjoint exactly on that condition |
| UserVmaPages.InsertPaged | aether-kernel/libs/aether-process/src/process.rs:1772-1786 | it leaves a list whose areas share no page so if and only if the new area starts a page and no other area has any of its pages |
| UserVmaList.MappedOverHeap | aether-kernel/libs/aether-process/src/process.rs:677-690 | an input: a mapping at the place of the unused heap leaves the list untidy |
| UserVmaEffects.EmptyHidesPage | aether-kernel/libs/aether-process/src/process.rs:1794-1801 | why that matters: an area listed before an empty one with the same start is not found by a fault on its first page |
| UserVmaList.AddressSpace.InitializeHeap | aether-kernel/libs/aether-process/src/process.rs:677-690 | the heap is added as an empty area; a tidy list stays tidy if and only if no area lies across its place |
| UserVmaList.AddressSpace.Brk | aether-kernel/libs/aether-process/src/process.rs:782-801 | the end moves exactly if it is asked into the reserve; the heap area is well-formed afterwards if and only if it starts at or below the new end; a tidy list stays tidy if and only if no area above reaches below the new end, and then every page of the heap is loaded from it and pages outside load as before |
| UserVmaEffects.SegmentsShareAPage | aether-kernel/libs/aether-process/src/process.rs:1168-1198 | an input: two segments of which the second starts in the last page of the first |
| UserVmaEffects.HeapTurnsAround | aether-kernel/libs/aether-process/src/process.rs:1803-1811 | an input: a heap area that starts above the new end ends before it starts |
| UserVmaList.AddressSpace.UpdateVmaFlags | aether-kernel/libs/aether-process/src/process.rs:1813-1835 | in any list, exactly what is said about the range changes flags; the same page by page for a range of whole pages |
| UserVmaList.AddressSpace.RemoveVmaRange | aether-kernel/libs/aether-process/src/process.rs:1837-1853 | in any list, exactly what is said about the range goes; the same page by page for a range of whole pages |
| UserVmaEffects.RemoveAllMerged | aether-kernel/libs/aether-process/src/process.rs:1837-1853 | removing a range leaves no mergeable neighbours in a list that had none |
| UserVmaList.AddressSpace.MergeVmaNeighborsAround | aether-kernel/libs/aether-process/src/process.rs:1728-1747 | merging around the changed place merges everything, without a change of what the list says |
| UserVmaList.Coalesce | aether-kernel/libs/aether-process/src/process.rs:1749-1770 | in any list, nothing changes that is said about any address or page and no mergeable neighbours remain |
| UserVmas.JoinKeeps | aether-kernel/libs/aether-process/src/process.rs:1728-1770 | joining two mergeable neighbours changes nothing that is said about any address, neither makes nor mends an overlap, and takes up no free range |
| UserVmaList.AddressSpace.FreeIsUnmapped | aether-kernel/libs/aether-process/src/process.rs:1044-1055 | the range check holds exactly if nothing is said about any address of the range and no empty area lies inside |
| UserVmaPages.SameMeaningSameFault | aether-kernel/libs/aether-process/src/process.rs:1273-1375 | two lists that mean the same on a page load the same page on a fault, however the areas are cut |
| UserVmas.SliceKeepsMeaning | aether-kernel/libs/aether-process/src/process.rs:1953-2008 | a slice means what the whole meant |
| StackBuilder.InitializeStack | aether-kernel/libs/aether-process/src/process.rs:2018-2182 | reading the stack as a program does gives back the arguments and the environment, each string up to its first zero byte, and the auxiliary vector; the stack pointer is aligned to 16; it succeeds if and only if strings and vectors fit |
| StackBuilder.StackWriter.PushRawBytes | aether-kernel/libs/aether-process/src/process.rs:2235-2252 | the bytes are below the cursor and nothing above changed; fails exactly if there is no room |
| StackBuilder.StackWriter.PushWord | aether-kernel/libs/aether-process/src/process.rs:2223-2225 | one word in front of the words already there |
| StackBuilder.StackWriter.PushCString | aether-kernel/libs/aether-process/src/process.rs:2184-2187 | the string and its terminator are in place |
| StackLayout.LayoutReads | aether-kernel/libs/aether-process/src/process.rs:2018-2182 | a stack of this layout reads as what went into it, terminators and padding included |
| StackLayout.NulFreeIsWhole | aether-kernel/libs/aether-process/src/process.rs:2184-2187 | a string is seen whole exactly if it has no zero byte |
| StackLayout.WordRoundTrip | aether-kernel/libs/aether-process/src/process.rs:2223-2225 | a word is read back from its bytes |
| TimerFds.TimerFdRegistry.WakeExpiredClass | aether-kernel/src/fs/timerfd.rs:477-528 | whenever every timer of the class settles, a sweep that nothing interrupts ends: every due timer of the class is refreshed once, but for those that other sweeps have taken, and no other changes; only those are still due, and no passed deadline is left |
| TimerFds.TimerFdRegistry.TakeSlot | aether-kernel/src/fs/timerfd.rs:479-496 | first step of a sweep: the earliest passed slot leaves the index, and its timers are all due; none exactly if no deadline has passed |
| TimerFds.TimerFdRegistry.SweepTimer | aether-kernel/src/fs/timerfd.rs:502-519 | the other steps: whatever was done to the timer since its slot was taken, it is refreshed if it is there and due, and no sweep at or before that time still has it |
| TimerFds.TimerFdRegistry.NoneIsLost | aether-kernel/src/fs/timerfd.rs:477-528 | between any two steps of sweeps and calls, each running timer is in the index under its expiry, or a sweep has taken it that it is due for |
| TimerArithmetic.RefreshedIsOk | aether-kernel/src/fs/timerfd.rs:236-265 | a timer settles, that is, is not due once it is refreshed, exactly if it is not due, not periodic, or now is not the last 64-bit moment |
| TimerFds.TimerFdRegistry.RefreshDue | aether-kernel/src/fs/timerfd.rs:236-272 | the timer has counted its expirations, and the index follows |
| TimerFds.TimerFdRegistry.SetTime | aether-kernel/src/fs/timerfd.rs:286-355 | the timer is as set, the answer is what was left, and the flag combination refused is exact |
| TimerFds.TimerFdRegistry.GetTime | aether-kernel/src/fs/timerfd.rs:274-284 | interval and time left, after counting |
| TimerFds.TimerFdRegistry.Read | aether-kernel/src/fs/timerfd.rs:376-395 | exactly the expirations counted so far are handed out, once |
| TimerFds.TimerFdRegistry.Drop | aether-kernel/src/fs/timerfd.rs:359-368 | a closed timer leaves no deadline behind |
| TimerFds.TimerFdRegistry.RefreshNextDeadlines | aether-kernel/src/fs/timerfd.rs:177-190 | the published deadlines are the earliest of each class |
| TimerArithmetic.PeriodsAreExact | aether-kernel/src/fs/timerfd.rs:236-265 | the count of expirations leaves the last one past and the next one ahead |
| TimerArithmetic.RefreshesInBetween | aether-kernel/src/fs/timerfd.rs:236-272 | any number of refreshes before a moment changes neither ticks nor next expiry at that moment, saturation included; only at the last 64-bit moment there must be room left |
| TimerArithmetic.TicksAreConserved | aether-kernel/src/fs/timerfd.rs:236-395 | over any rising sequence of refreshes and reads, the ticks handed out and those left are together the ticks of one refresh at the end, and the next expiry is the same, where nothing saturates |
| TimerArithmetic.NextIsLater | aether-kernel/src/fs/timerfd.rs:236-265 | the next expiry lies ahead if and only if now is not the last 64-bit moment |
| TimerArithmetic.LastMomentIsForEver | aether-kernel/src/fs/timerfd.rs:236-265 | at that moment a periodic timer stays due after every refresh |
| TimerArithmetic.WideFormAgrees | aether-kernel/src/process/itimer.rs:130-182 | the saturating 64-bit form of the next expiry and the 128-bit one agree |
| IntervalTimers.RealTimerRegistry.TakeExpired | aether-kernel/src/process/itimer.rs:130-182 | whenever every timer lapses, gives exactly the expired groups, each once; periodic timers move past now, the others end, nobody else changes |
| IntervalTimers.LapsesExactly | aether-kernel/src/process/itimer.rs:130-182 | an expired timer lapses, that is, is not expired once taken, exactly if it is not periodic or now is not the last 64-bit moment |
| IntervalTimers.RealTimerRegistry.SetRealTimer | aether-kernel/src/process/itimer.rs:83-118 | the timer is as set, and the answer is what was left of the old one |
| IntervalTimers.RealTimerRegistry.ThreadGroupReaped | aether-kernel/src/process/itimer.rs:120-128 | a reaped group leaves no deadline behind |
| IntervalTimers.RealTimerRegistry.PublishNextDeadline | aether-kernel/src/process/itimer.rs:30-39 | the published deadline is the earliest |
| IntervalTimers.SameAsTimerFd | aether-kernel/src/process/itimer.rs:130-182 | interval timers and timer descriptors compute the same next expiry |
| UnixStream.StreamSocket.Enqueue | aether-kernel/src/net/unix.rs:506-532 | accepts as much as there is room for, at the end of the stream; each refusal is exact |
| UnixStream.StreamSocket.Recv | aether-kernel/src/net/unix.rs:608-725 | what is received and then what is left is what was there; the bytes delivered are always a prefix of those accepted |
| UnixStream.StreamSocket.Peek | aether-kernel/src/net/unix.rs:608-725 | gives what the next receive would give, and changes nothing |
| UnixStream.TakenThenLeft | aether-kernel/src/net/unix.rs:608-725 | a receive loses, repeats and reorders nothing and respects its size |
| UnixStream.StopsBeforeAncillary | aether-kernel/src/net/unix.rs:608-725 | no receive goes on into a chunk with ancillary data |
| UnixStream.OneAncillary | aether-kernel/src/net/unix.rs:608-725 | a receive that takes bytes of a chunk with ancillary data starts with it and stays in it |
| UnixStream.StopsOnlyAtABarrier | aether-kernel/src/net/unix.rs:608-725 | a receive with room left stops only at the end or at such a chunk |
| PageCache.Cache.Read | aether-kernel/libs/aether-vfs/src/page_cache.rs:123-167 | gives the bytes of the device, whatever is cached, and all of them unless memory ran short |
| PageCache.Cache.Write | aether-kernel/libs/aether-vfs/src/file.rs:365-388 | a write stores a prefix of the buffer, all it reports; after a success no cached page is stale; after a failure the cache is coherent if and only if the prefix changed no cached byte |
| PageCache.Cache.LoadPage | aether-kernel/libs/aether-vfs/src/page_cache.rs:300-340 | a page that is loaded mirrors the device |
| PageCache.Cache.CopyCached | aether-kernel/libs/aether-vfs/src/page_cache.rs:65-79 | a hit gives the device's bytes and says whether the file ends in the page |
| PageCache.Cache.InsertPage | aether-kernel/libs/aether-vfs/src/page_cache.rs:85-105 | the page is there, the others are coherent and the cache within its limit |
| PageCache.Cache.EvictOne | aether-kernel/libs/aether-vfs/src/page_cache.rs:107-120 | exactly the page used longest ago goes |
| PageCache.Cache.InvalidateRange | aether-kernel/libs/aether-vfs/src/page_cache.rs:278-298 | exactly the pages that hold a byte of the range go |
| PageCache.Cache.Reclaim | aether-kernel/libs/aether-vfs/src/page_cache.rs:224-238 | the cache is empty and the number of pages freed is right |
| PageCache.CoherentAfterStore | aether-kernel/libs/aether-vfs/src/file.rs:365-388 | storing bytes leaves the cache coherent if and only if they change no cached byte |
| PageCache.NoFailureHurts | aether-kernel/libs/aether-vfs/src/file.rs:365-388 | no failure of a write can make the cache stale if and only if the bytes to write agree with what is cached |
| PageCache.FailedWriteLeavesStalePage | aether-kernel/libs/aether-vfs/src/file.rs:365-388 | a cached page, a one-byte write that is stored before its flush fails, and a cache that now disagrees with the device |
| BlockFile.ReadFile | aether-kernel/libs/aether-fs/src/block.rs:318-374 | a read at any offset gives the device's bytes from there, through whole and partial blocks |
| BlockFile.WriteFile | aether-kernel/libs/aether-fs/src/block.rs:376-438 | a write stores a prefix of the buffer and nothing else, also when a transfer or the flush fails, and a success reports its length |

## Left out

Contracts that cover less than all inputs:

- ForkCowRefinesForkCopy: assumes that no space maps device memory, because the two forks differ there (see `ForksLookAlike`), and says nothing about runs in which memory runs out.
- WakeExpiredClass: assumes that every timer of the class settles; with one that does not, the source does not return. It is the sweep without interruption; the source releases the registry between taking a slot and refreshing each of its timers, and for that the steps `TakeSlot` and `SweepTimer` are specified on their own.
- TakeExpired: assumes that every timer lapses, for the same reason.
- Covering: assumes a region that starts at or below the address, without which the source indexes out of bounds, and a list that is sorted and disjoint, without which it can miss a region (`InnerHidesOuter`).
- SliceOf: assumes the same, since it starts with that lookup.
- UpdateFlags: assumes a range that is not empty, as the system calls give; a reversed range would make the source's pieces overlap.
- RemoveRange: assumes a range that is not reversed, for the same reason.
- UpdateVmaFlags: assumes a range that is not empty.
- RemoveVmaRange: assumes a range that is not reversed.
- Insert: assumes, as all of `MmapRegions` does, that no region reaches beyond what 64 bits hold, nor its file offset plus its length; `mmap` does not check the latter.
- RecordVma: assumes an area that does not end before it starts, whose last page and whose offsets into its image fit into 64 bits.
- Munmap: assumes that the end of the range fits into 64 bits; the source adds without a check.
- Mmap: assumes the same of a fixed range. What pages are loaded is stated for tidy lists; for areas that share a page it is in `LazyPages` only.
- Brk: does not unmap the pages above a lower end; that is `UnmapPage`.
- RefreshesInBetween: assumes for the last 64-bit moment alone that neither ticks nor next expiry saturate.
- InitializeStack: assumes a stack whose base is not 0 and a multiple of 16, as its callers give, and memory that can be written.
- PageCache.Cache.Read: may give fewer bytes than there are if a page cannot be allocated, as the source does.
- InsertMergedSorted: does not describe the list after an overlap was found, when a neighbour may have been taken out; the caller gives up then.
- MapSharedPage: assumes that the frame is counted; retaining one that is not is an error of the allocator. That a page table cannot be made is outside its model, as it is for every member of `CowMachine` but `FailToShare`.
- ForkCopy: assumes that the child's tables can be made; otherwise the source also leaks the frame that it has just copied the page to (aether-kernel/libs/aether-process/src/process.rs:1588-1605).
- MapPage: assumes, as all of `CowMachine` does, that a page or an area that may be written is a page or an area of the user.
- TimerFds.TimerFdRegistry.Read: takes the refresh and the reading of the ticks together, which the source does in two steps; the second is `TakeTicks`.
- ForkCow: assumes that the child's tables can be made; the step that fails otherwise is `FailToShare`.
- FinishSyscallReturn: covers a call that returns, not one that exits.
- RequeueProcess: does not reap processes that have exited; they just leave.
- NotifySignal: takes as parameters whether the signal continues a stopped process and whether it can be delivered, and does not pass the news of a continued child on.
- NotifyChildEvent: takes as a parameter whether the news is what the parent asked for.
- ReadFile: assumes, as all of `BlockFile` does, that a transfer that succeeds moves at least one block; the source stops early at an empty transfer, and ignores the count of a partial block's write.
- WriteFile: assumes the same.
- FileBecameReady: is the listener without interruption; the interleavings are in `FileWakeQueue`.

How the source's forms are represented:

- Heads and lengths of the allocator's lists, kept in separate arrays, are one record each; the buddy of a block is computed by flipping a bit of an unbounded number.
- The architecture of the page tables is a shape (number of levels, entries per table) with a path of indexes for each address; entries are tables, pages or absent rather than bits. TLB maintenance is left out.
- Ordered maps and sets of the process manager and the timers are maps and sets; where order matters the least element is chosen.
- Which of its free frames the allocator gives to the copy-on-write machine is left open; so is whether a device transfer fails.
- Clocks, random bytes, the readiness of files and the deliverability of signals come in as parameters.

Not modelled:

- Program and image loading, `read_c_string`, robust lists, scheduling, `clone` and `execve`; the reservation of metadata at boot and the memory map that yields the usable ranges.
- Which child events a waiting parent asked for is a parameter; queued events and the status written to the parent are left out. Stop signals and the choice of the thread that takes a group's signal; the waiters of files and their registration.
- Packet sockets, connecting and shutdown of sockets; credentials beyond their being ancillary data.
- Advice other than prefetching, truncation, and sharing one cache among several files.
- Memory orderings: each step of `FileWakeQueue` is one atomic access.
- The statistics of the allocator (free pages, cache lengths) and its self-check, which the invariant replaces.
