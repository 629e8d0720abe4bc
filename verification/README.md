# Models of QEMU's core data structures and protocols

This project models, in Dafny, the parts of QEMU 2.7 where a wrong pointer, a lost event or an
off-by-one would be hardest to notice, and proves what each of them is for:

- **Physical memory dispatch** (`qemu/exec.c`). The radix tree of pages, its compaction, subpages, the
  memory listener that builds the table and the lookups through the most recently used section. The
  main result is `DispatchRun.Run`: whatever disjoint sections are added, and whatever was looked up
  before, a resolving lookup gives what a flat list of the sections says.
  Files: `Arithmetic`, `RadixTree`, `PhysPageSet`, `PhysPageCompact`, `Dispatch`, `DispatchUpdates`,
  `AddressSpace`, `MemoryListener`, `DispatchRun`.
- **Compressed kernel dumps** (`qemu/dump.c`). Page walk, the two bitmaps, write caches, page
  descriptors and file layout; the file reads back every guest frame (`Kdump.CreateKdumpVmcore`).
  Files: `KdumpFile`, `KdumpPages`, `KdumpBitmap`, `KdumpData`, `Kdump`.
- **ELF dumps** (`qemu/dump.c`). The offsets in program headers agree with the bytes dumped, with and
  without a filter. File: `ElfDump`.
- **Event loop** (`qemu/async.c`, `qemu/aio-posix.c`). The wake-up protocol between one poller and many
  threads, and the deferred deletion of handlers and bottom halves under nested polls, as state
  machines; whoever is scheduled is called, and whoever is deleted is freed. Files: `EventLoop`,
  `EventCalls`, `HandlerList`, `BhList`.
- **Block graph** (`qemu/block.c`). Reference counts, edges, blockers, cascading deletion, and the
  operations that relink chains. Files: `BlockGraph`, `BlockChain`, `BlockMoves`, `BlockLayer`.
- **Soft TLB** (`qemu/cputlb.c`). Main and victim tables with their iotlb companions, and the merged
  region of large pages. File: `Tlb`.
- **RAM blocks and the bounce buffer** (`qemu/exec.c`). Files: `RamList`, `Bounce`.
- **Work queue and instruction counter of a CPU** (`qemu/cpus.c`, `qemu/cpu-exec.c`). Files: `WorkQueue`,
  `Icount`.
- **GDB packets** (`qemu/gdbstub.c`). File: `Gdb`.

Objects that the C code updates in place are classes; pointers are identifiers in maps or positions in
sequences, so that a dangling one can be told. Code that several threads run is a state machine with a
step for each access to shared fields, or, where a lock keeps others out, for each section under the lock: a
run is any sequence of steps in which each state follows from the one before, and the theorems hold at every
state of every run. Failed assertions and aborts are results of their own
(`!ok` or `None`), unless the theorem is that they cannot happen.

`dafny verify dfyconfig.toml` checks the whole project.

## Model

| member | source | states |
|---|---|---|
| PhysPageSet.PhysPageMap.NodeReserve | qemu/exec.c:188-197 | afterwards there is room for that many nodes, and never less than before |
| PhysPageSet.PhysPageMap.NodeAlloc | qemu/exec.c:199-217 | appends one node whose entries are all unassigned leaves or all empty subtrees; its two assertions are its preconditions |
| PhysPageSet.PhysPageMap.SetLevel | qemu/exec.c:219-243 | sets exactly the pages from index on that lie below the entry, hands back the pages left over, keeps every node at its level, and allocates within a bound that depends on how many ends of the range fall inside |
| PhysPageSet.PhysPageMap.PageSet | qemu/exec.c:245-254 | lookups of the pages in [index, index + nb) give the leaf and all other lookups are unchanged; fewer than 2 * levels nodes are used, so the reservation of 3 * levels suffices and the node array is not outgrown |
| PhysPageCompact.Compact | qemu/exec.c:258-306 | every page's walk gives what it gave before, or a leaf that occurs elsewhere below the entry where it gave none; levels still fit after folding, and afterwards no entry could be folded over an only child within the limit |
| PhysPageCompact.FoldCompacted | qemu/exec.c:283-305 | folding an only child into its parent's entry gives such a compaction, also when the skipped index bits of a page differ |
| AddressSpace.CompactionPreservesFind | qemu/exec.c:258-348 | with each section's leaves exactly its pages, phys_page_find gives the same section for every address before and after compaction |
| AddressSpace.MatchesFind | qemu/exec.c:317-348 | on an uncompacted tree, phys_page_find gives the section that shows at the page, for every address |
| AddressSpace.CompactedMatches | qemu/exec.c:308-348 | the same after compaction |
| MemoryListener.AddressSpaceDispatch.constructor | qemu/exec.c:2291-2309 | four dummy sections, and no address belongs to anything |
| MemoryListener.AddressSpaceDispatch.PageFind | qemu/exec.c:328-348 | the loop over levels computes the recursive walk followed by the test that the section covers the address |
| MemoryListener.AddressSpaceDispatch.SectionAdd | qemu/exec.c:1085-1102 | appends the section and returns its number, exactly when the limit of a page's worth of sections is not reached |
| MemoryListener.AddressSpaceDispatch.RegisterMultipage | qemu/exec.c:1158-1168 | afterwards the section's bytes show it and all other bytes show what they did |
| MemoryListener.AddressSpaceDispatch.SubpageInit | qemu/exec.c:2235-2253 | a table of which every byte is unassigned |
| MemoryListener.AddressSpaceDispatch.SubpageRegister | qemu/exec.c:2215-2233 | sets the bytes from start to end, both included, and leaves the table alone when they are out of the page |
| MemoryListener.AddressSpaceDispatch.EnsureSubpage | qemu/exec.c:1127-1150 | the page has a subpage table afterwards, with no byte's section changed; an existing section of the page is unassigned or a subpage |
| MemoryListener.AddressSpaceDispatch.RegisterSubpage | qemu/exec.c:1127-1156 | like RegisterMultipage, for a section within a page, and its assertion cannot fail |
| MemoryListener.AddressSpaceDispatch.MemAdd | qemu/exec.c:1170-1201 | the pieces tile the section: its bytes and no others now show it; it succeeds exactly if the section numbers left cover the pieces, and uses just as many as they cost; the loop ends and its branch for unaligned whole pages is never reached |
| MemoryListener.AtMostFive | qemu/exec.c:1170-1201 | no section costs more than five section numbers |
| MemoryListener.AddressSpaceDispatch.MemCommit | qemu/exec.c:2317-2329 | compaction leaves every lookup as the table says, and nothing to fold |
| MemoryListener.AddressSpaceDispatch.LookupRegion | qemu/exec.c:357-381 | a resolving lookup gives the byte's section whatever the most recently used section is; one that does not resolve gives the page's section except exactly when the most recently used section is a byte section covering the address; the section found becomes the most recently used one unless that covers the address already |
| MemoryListener.AddressSpaceDispatch.TranslateInternal | qemu/exec.c:384-417 | an offset as far from the section's offset as the address is from its base, and a length clamped for RAM to the end of the region, all of whose bytes are the section's at consecutive offsets |
| MemoryListener.AddressSpaceDispatch.MapDirect | qemu/exec.c:2887-2953 | what is mapped directly is one stretch of a RAM region at consecutive offsets, starting at the byte of the section that has the address, and the longest such part of the request; nothing exactly if the request is empty or does not start in RAM |
| DispatchRun.Run | qemu/exec.c:1127-1201 | after mem_begin, mem_add of any disjoint sections and mem_commit, each resolving lookup of any sequence of lookups gives the region of the section that contains the address, at an offset as far from the section's offset as the address is from its base, or none if no section does; no run fails while the sections are few enough |
| DispatchRun.FlatBytes | qemu/exec.c:384-397 | the first byte of a section is at the section's offset in its region, and each next byte one further |
| DispatchRun.QemuGeometryValid | qemu/exec.c:109-124 | for pages of 8 to 65536 bytes the levels cover 64 address bits, one level fewer would not, and node numbers stay below PHYS_MAP_NODE_NIL |
| KdumpPages.PagesSorted | qemu/dump.c:1009-1053 | the pages of sorted, disjoint blocks have ascending frame numbers, the last of them max_mapnr - 1 |
| KdumpPages.GetNextPage | qemu/dump.c:1009-1053 | visits exactly the pages of all blocks, in order, with their contents, and stops after the last |
| KdumpBitmap.DumpFd.WriteBuffer | qemu/dump.c:674-693 | on success the file holds the bytes at the offset and is otherwise unchanged; it succeeds exactly while the file system takes writes |
| KdumpBitmap.SetDumpBitmap | qemu/dump.c:936-987 | the bit of one more frame is set or cleared in the buffered bitmap, full buffers go to both bitmaps, and nothing outside the two bitmaps changes; it takes exactly two writes for each buffer passed |
| KdumpBitmap.WriteDumpBitmap | qemu/dump.c:1055-1105 | both bitmaps are written completely and mark exactly the existing frames, in exactly two writes for each block of a bitmap; the count returned is the number of pages |
| KdumpFile.BitValue | qemu/dump.c:977-984 | setting or clearing bit number n of a byte adds or takes two to the power of n |
| KdumpFile.EncodeBytes | qemu/dump.c:1236-1322 | each byte of an encoded number is its digit to base 256, least significant first or last |
| KdumpData.DescFields | qemu/dump.c:1236-1322 | offset, size, flags and page flags are in 8, 4, 4 and 8 bytes, in that order |
| KdumpData.DataCache.WriteCache | qemu/dump.c:1117-1147 | the cache and the file together hold the concatenation of all writes; a sync leaves it all in the file |
| KdumpData.DescDecodes | qemu/dump.c:1236-1322 | a page descriptor's encoding decodes to it, in either byte order |
| KdumpData.IsZeroPage | qemu/dump.c:1179-1182 | true exactly if every byte of the page is zero |
| KdumpData.WritePage | qemu/dump.c:1230-1325 | one more descriptor, which leads to data that decodes to the page; zero pages share the first copy, and other pages are compressed exactly if that works and makes them smaller |
| KdumpData.WriteDumpPages | qemu/dump.c:1184-1351 | descriptors in page order followed by the data, each descriptor leading to its page; nothing else in the file changes |
| Kdump.NotesFit | qemu/dump.c:812-921 | headers and notes end before the first bitmap, as computed in 32-bit arithmetic, if and only if that bitmap starts below 4 GiB |
| Kdump.WriteDumpHeader | qemu/dump.c:812-921 | the main header is at the start of the file, the sub header in block 1 and the notes right after it; exactly three writes |
| Kdump.PagesAfterBitmaps | qemu/dump.c:898-904 | the descriptors start at or after the end of the bitmaps if and only if everything before them is smaller than 4 GiB, because the block count is multiplied in 32 bits |
| Kdump.DescriptorsOverwriteBitmaps | qemu/dump.c:898-904 | for a guest with a page at 64 TiB the computed start of the descriptors lies inside the bitmaps |
| Kdump.RankCounts | qemu/dump.c:1055-1105 | the number of marked frames before a frame is the index of its descriptor |
| Kdump.ReadsBack | qemu/dump.c:1184-1351 | a reader that goes by bitmap, rank and descriptor gets every frame as the guest had it, and nothing for frames the guest does not have |
| Kdump.CreateKdumpVmcore | qemu/dump.c:1353-1409 | if no write fails and everything before the page data is smaller than 4 GiB, a reader gets every page of every block at its frame number and nothing for other frames, both bitmaps mark exactly those frames, headers and notes are in their places and the regions follow one another; no write fails while there are three for the headers, two for each block of a bitmap and 2 n + 3 for n pages |
| ElfDump.DumpState.GetOffsetRange | qemu/dump.c:367-426 | no offset exactly if no block has the address within the filter; otherwise the bytes at that offset are the guest's from the address on, for the whole mapping or for as long as the block has addresses within the filter |
| ElfDump.ContentIs | qemu/dump.c:596-619 | what is dumped is, address by address, the memory of those addresses of each block in turn that the filter lets through |
| ElfDump.DumpState.WriteMemory | qemu/dump.c:341-364 | writing a page at a time and then the rest writes the whole range |
| ElfDump.DumpState.GetStartBlock | qemu/dump.c:1411-1437 | the first block in the filter and the part of it to skip; failure exactly if there is none |
| ElfDump.DumpState.GetNextBlock | qemu/dump.c:568-594 | the next block in the filter; what is skipped has nothing to dump |
| ElfDump.DumpState.DumpIterate | qemu/dump.c:596-619 | writes the dumped parts of all blocks, in order, and counts them |
| ElfDump.DumpState.DumpCalculateSize | qemu/dump.c:1463-1483 | the number of bytes that will be dumped |
| ElfDump.DumpState.CreateVmcore | qemu/dump.c:596-619 | the bytes written are those of exactly the addresses that blocks have within the filter, in order, and as many as were calculated beforehand; failure only if there are none |
| EventLoop.NoLostWakeup | qemu/async.c:71-190 | in every interleaving, while the poller is blocked, a bottom half that qemu_bh_schedule took from unscheduled to scheduled has set the event or its scheduler is still going to; if it was marked idle around that time, only as long as no idle bottom half has bounded the wait |
| EventLoop.QuietMeansIdle | qemu/aio-posix.c:408-486 | once all threads are done, a poller blocked without the event has no such bottom half left |
| EventLoop.WalksAllocated | qemu/async.c:71-118 | no walk of any nested poll stands at a freed bottom half |
| EventLoop.AnnouncedExactly | qemu/async.c:120-190 | the condition is exact: waiting bottom halves of an origin are announced to a blocked poller in all runs if and only if the origin meets it |
| EventLoop.Missed | qemu/async.c:120-144 | for every origin outside the condition, a run that ends with the poller blocked, the bottom half scheduled and not idle, and nobody about to set the event |
| EventCalls.TakenIsCalled | qemu/async.c:84-97 | a bottom half that becomes unscheduled in any way but by being cancelled or deleted is called before the walk does anything else |
| EventCalls.CalledWasTaken | qemu/async.c:84-97 | a bottom half that is called was scheduled, and this walk has made it unscheduled |
| EventCalls.CallClearsIdle | qemu/async.c:94-95 | a callback is entered with idle cleared |
| EventCalls.PollCallsAll | qemu/aio-posix.c:457-482 | every bottom half that is scheduled before a poll dispatches has been called when the poll is over, unless it was cancelled or deleted, whatever polls the callbacks nest and whatever other threads do |
| EventCalls.ScheduledIsCalled | qemu/async.c:120-144 | in particular everything that a thread schedules before the dispatch |
| EventCalls.UnscheduledIsSilent | qemu/async.c:84-97 | a bottom half that is not scheduled is not called until somebody schedules it |
| EventCalls.CancelledIsSilent | qemu/async.c:149-161 | in particular after it was cancelled or deleted before the walk took it |
| EventCalls.ScheduledBoundsWait | qemu/async.c:163-190 | a poll waits at most 10 ms if some bottom half, idle or not, is scheduled all the time from when it computes its timeout |
| EventCalls.FreedExactly | qemu/async.c:100-115 | a bottom half is freed exactly when the outermost dispatch ends and it has been deleted |
| EventCalls.DeletedIsFreed | qemu/async.c:154-161 | one that qemu_bh_delete is done with is freed when the outermost dispatch ends, if not before |
| EventCalls.EventIsConsumed | qemu/async.c:305-322 | a set event is never left behind: aio_notify_accept is about to clear it or will see that it must, at the latest when the thread that set it is done |
| EventCalls.WokenAndCalled | qemu/aio-posix.c:408-486 | a run in which a poller blocks, is woken by a thread that schedules a bottom half, and calls it |
| HandlerList.HandlersSafe | qemu/aio-posix.c:192-261 | for any nesting of polls and any callbacks that add or delete handlers, no walk or poll is at a freed node, walks only visit nodes present when they began, and no descriptor has two live handlers |
| HandlerList.WalkComplete | qemu/aio-posix.c:298-360 | a walk that ends has visited every node that was there when it began and still is |
| HandlerList.NeverCalledAgain | qemu/aio-posix.c:192-360 | a handler that was deleted or freed stays so in all later states of the run and is not among the later calls, also when its identifier is used again |
| HandlerList.DeletedIsGone | qemu/aio-posix.c:205-240 | deletion puts the handler into that state, whether it is marked or freed at once |
| HandlerList.FreedExactly | qemu/aio-posix.c:340-350 | a handler is freed exactly when the last walk or poll leaves it and it has been deleted, or when it is deleted while there is none |
| HandlerList.SoloWalkFrees | qemu/aio-posix.c:315-350 | a walk that no other poll or walk overlaps frees every handler that was deleted when it began |
| HandlerList.AddedStays | qemu/aio-posix.c:205-261 | a handler that is added is found for its descriptor until it is deleted |
| HandlerList.CallIsLogged | qemu/aio-posix.c:320-343 | a callback that runs is that of the handler its walk is at, which is in the list |
| HandlerList.HandlerIsCalled | qemu/aio-posix.c:298-360 | a run in which a handler is added, polled, called, deleted by its own callback and freed |
| BhList.BottomHalvesSafe | qemu/async.c:47-118 | the same for bottom halves: the next one of a walk is allocated and was there at its start, and walks are complete |
| BhList.BhNeverCalledAgain | qemu/async.c:71-118 | a bottom half that was deleted or freed stays so and is not among the later calls |
| BhList.MarkedIsGone | qemu/async.c:154-161 | qemu_bh_delete puts it into that state |
| BhList.BhFreedExactly | qemu/async.c:100-115 | a bottom half is freed exactly when the outermost walk ends and it has been deleted |
| BhList.VisitedIsCalled | qemu/async.c:84-97 | a scheduled bottom half that a walk comes to is allocated, and called unless it is deleted |
| BhList.BottomHalfIsCalled | qemu/async.c:71-118 | a run in which a bottom half is created, called, deleted by its own callback and freed |
| BlockGraph.BlockerIncoming | qemu/block.c:2307-2311 | a node that carries a backing blocker has an incoming edge, so that a node about to be deleted carries none |
| BlockGraph.DetachBackingInv | qemu/block.c:1238-1258 | lifting the blockers and removing the backing edge keeps counts, fields and blockers in agreement |
| BlockGraph.EraseInv | qemu/block.c:2307-2322 | freeing a node without references and children does too |
| BlockGraph.EraseOnlyChildless | qemu/block.c:2307-2322 | and only then: a node freed with children left breaks the invariant |
| BlockGraph.LeakWithoutDriver | qemu/block.c:2163-2189 | a node with a backing file and no driver, whose children bdrv_close does not give up, is freed with an edge left |
| BlockChain.LiveNodes | qemu/block.c:3252-3269 | the nodes that exist are exactly those that a held node reaches: nothing leaks and nothing in use is freed |
| BlockChain.NothingHeld | qemu/block.c:2222-2234 | once nobody holds a node, no node is left, which is what bdrv_close_all asserts |
| BlockChain.RankForEdge | qemu/block.c:1298-1332 | if a node does not reach its future parent, the new edge closes no cycle |
| BlockChain.Spliced | qemu/block.c:2386-2472 | relinking a node to a base makes the chain above it followed by the base's chain, node for node |
| BlockChain.UnrefDeletes | qemu/block.c:3260-3269 | giving up a reference deletes only what the node reaches |
| BlockChain.RelinkDeletes | qemu/block.c:1298-1332 | changing a backing link deletes only what the former backing child reaches |
| BlockChain.OverlayUnique | qemu/block.c:2386-2394 | a node has at most one overlay in a chain |
| BlockMoves.AppendRank | qemu/block.c:2279-2293 | there is room for a node between another and its parents if it reaches none of them and is not reached |
| BlockLayer.Graph.New | qemu/block.c:227-246 | a new node with one reference and no driver, children or blockers |
| BlockLayer.Graph.Ref | qemu/block.c:3252-3255 | one more reference, held by the caller |
| BlockLayer.Graph.Unref | qemu/block.c:3260-3269 | gives up one reference; nodes that survive keep fields and edges, deleted ones were held by nobody else, and nodes not below are untouched |
| BlockLayer.Graph.Delete | qemu/block.c:2307-2322 | its assertions hold; the invariant holds again afterwards, for all nodes except those above that are being deleted |
| BlockLayer.Graph.Close | qemu/block.c:2163-2200 | gives up the backing child, then the file child, while its pointers are stale, and leaves no child |
| BlockLayer.Graph.UnrefChild | qemu/block.c:1238-1271 | removes the edge, gives up its reference and leaves the node and its other edges alone |
| BlockLayer.Graph.Release | qemu/block.c:3260-3269 | bdrv_unref for outside callers keeps the invariant and the absence of cycles, and deletes only nodes that the node reaches |
| BlockLayer.Graph.RootAttachChild | qemu/block.c:1209-1225 | an edge from a block backend takes over the caller's reference |
| BlockLayer.Graph.RootUnrefChild | qemu/block.c:1251-1258 | the edge is gone and its reference given up |
| BlockLayer.Graph.OpenFile | qemu/block.c:989-1009 | a node gets its driver and an edge to its file that takes over a reference |
| BlockLayer.Graph.SetBackingHd | qemu/block.c:1298-1332 | the node's backing child is the one asked for, which is blocked on the node's behalf for everything but being the target of a commit; counts, blockers and edges agree, there is no cycle, and nothing else changes for the nodes that are left; all nodes can be closed without a leak afterwards if and only if a node that got a backing child has a driver |
| BlockLayer.Graph.ChangeParentBackingLink | qemu/block.c:2236-2261 | every edge to the node but a backing edge leads to the other node instead, with its reference, and no other edge changes |
| BlockLayer.Graph.Append | qemu/block.c:2279-2293 | every edge to top but a backing edge leads to the overlay, which then is there and has top as its backing child; the caller's reference is used up |
| BlockLayer.Graph.ReplaceInBackingChain | qemu/block.c:2295-2305 | every edge to the node but a backing edge leads to the new node, and the reference held meanwhile is given up |
| BlockLayer.Graph.FindOverlay | qemu/block.c:2386-2394 | the chain node whose backing child is the given one, none exactly if the chain has no such node, none for the active node itself; for no given node, the bottom of the chain |
| BlockLayer.Graph.ChainContains | qemu/block.c:2755-2762 | true exactly if both are there and the one is in the chain of the other |
| BlockLayer.Graph.DropIntermediate | qemu/block.c:2431-2472 | the result in every case; on failure nothing changes; on success the chain is the part down to the overlay followed by the chain of base, base is not freed, and only nodes that top reaches are |
| Tlb.Env.Flush | qemu/cputlb.c:76-90 | no entry is in use and there is no region |
| Tlb.Env.FlushPage | qemu/cputlb.c:122-167 | no entry, main or victim, of any mode is tagged with the page or holds part of a page, large or small, that contains the address; all entries are gone if it lies in a large page installed since the last full flush; otherwise only tagged entries are removed |
| Tlb.Widen | qemu/cputlb.c:325-328 | the widening loop ends with the finest mask on which region and page agree |
| Tlb.Env.AddLargePage | qemu/cputlb.c:312-331 | the region covers the new page and all large pages since the last full flush, and is the smallest that covers what it covered and the new page |
| Tlb.RegionCatches | qemu/cputlb.c:142-150 | an address in any large page installed passes the test for a full flush |
| Tlb.Env.SetPage | qemu/cputlb.c:340-419 | the new entry and its iotlb value are in place, the old ones are in the victim slot, nothing else changed; each comparator is -1 exactly without its permission and otherwise the page with TLB_MMIO and TLB_NOTDIRTY exactly as its kind of memory asks, addend and iotlb value lead to the host address and the device; every entry in use has the iotlb value of its own installation and sits at the index of its page |
| Tlb.Env.EntriesGrant | qemu/cputlb.c:340-419 | in every state, every main and victim entry in use grants exactly what some installation of its mode since the last full flush asked for |
| Tlb.HitExactly | qemu/softmmu_template.h:160-168 | the comparison of an access with such a comparator lets through exactly the allowed accesses to the page |
| Tlb.SameSlot | qemu/cputlb.c:383-384 | two addresses share a main slot exactly if they agree in the eight bits above the page offset |
| Tlb.SizeMaskBits | qemu/cputlb.c:312-331 | the mask of a size has the size's bit and all bits above, and none below |
| Tlb.Env.VictimHit | qemu/cputlb.c:503-523 | a hit exactly if a victim's comparator is the page; then main and victim entry change places with their iotlb values, and the invariant still holds |
| Tlb.WordCompare | qemu/cputlb.c:122-133 | the comparison of words finds a page whatever its flags, and never an invalid entry |
| RamList.FitsAfter | qemu/exec.c:1341-1375 | a block placed in a gap that is large enough overlaps no other and stays in the address space |
| RamList.List.GetRamBlock | qemu/exec.c:925-961 | the only block that has the address, through the most recently used block or not; none exactly if no block has it |
| RamList.HitMeans | qemu/exec.c:931-936 | the unsigned subtraction tests whether the address is in the block |
| RamList.List.FindRamOffset | qemu/exec.c:1341-1375 | zero for an empty list, otherwise the start of a smallest sufficient gap after some block; none exactly if no block is followed by one |
| RamList.List.RamBlockAdd | qemu/exec.c:1546-1609 | the block is at that place and is inserted so that the list stays sorted by decreasing length and without overlaps; on failure nothing changes |
| RamList.List.RamFree | qemu/exec.c:1745-1759 | that block and no other leaves the list, and the most recently used block is forgotten |
| Bounce.OneHolder | qemu/exec.c:2888-2927 | in every interleaving at most one user has the bounce buffer |
| Bounce.ClientsWillBeNotified | qemu/exec.c:2799-2856 | whenever the buffer and the lock are free and a client is registered, someone has released the buffer and has yet to notify |
| Bounce.NothingLost | qemu/exec.c:2959-2986 | once nobody is inside, the list is empty and each time that a client registered it was scheduled once or unregistered |
| Bounce.Accounted | qemu/exec.c:2799-2856 | at any time, a client registered as often as it is waiting, was scheduled and was unregistered while waiting |
| Bounce.UnregisterRemoves | qemu/exec.c:2837-2849 | unregistering takes one client for the bottom half off the list, if there is one, leaves the others, and schedules nobody |
| Bounce.SilentAfterUnregister | qemu/exec.c:2837-2849 | a client that was registered at most once is not scheduled after it unregistered, until it registers again |
| Bounce.InUseStaysSilent | qemu/exec.c:2816-2827 | while the buffer is in use, a thread that registers a client schedules none |
| Bounce.MapTakesIfFree | qemu/exec.c:2904-2908 | address_space_map gets the buffer exactly if nobody has it |
| Bounce.ClientIsScheduled | qemu/exec.c:2799-2986 | a run in which a client finds the buffer in use, registers and is scheduled when it is released |
| WorkQueue.RunsInOrder | qemu/cpus.c:991-1017 | in every interleaving, no freed or missing item is touched, and work has run once each in the order it was enqueued; all of it once the queue is empty and the CPU idle |
| WorkQueue.ListWellFormed | qemu/cpus.c:918-977 | whenever the mutex is free or the CPU has it, following next from first visits exactly the queue, without repetition, and arrives at last |
| WorkQueue.DoneIsUntouched | qemu/cpus.c:918-948 | once done is set, neither the queue nor the CPU's thread has a way to the item on the waiter's stack |
| WorkQueue.DoneMeansRan | qemu/cpus.c:940-947 | a waiting thread sees done set only after its work has run |
| WorkQueue.ReturnsAfterRun | qemu/cpus.c:918-977 | run_on_cpu does not return before its work has run, and leaves nothing of its item; async_run_on_cpu returns once its item is queued |
| WorkQueue.QuietMeansDone | qemu/cpus.c:991-1017 | once the queue is empty and the CPU idle, every waiting thread sees done set and every item of async_run_on_cpu that was queued is freed |
| WorkQueue.WorkIsRun | qemu/cpus.c:918-1017 | a run in which run_on_cpu queues its work, the CPU runs it and run_on_cpu returns |
| Icount.RoundCovers | qemu/cpus.c:336-339 | rounding up covers the time by less than one unit more |
| Icount.Timers.GetIcountRaw | qemu/cpus.c:153-168 | the counter, less what is left of the budget, is the number of instructions executed |
| Icount.Timers.Begin | qemu/cpus.c:1499-1544 | the budget is the rounded, clipped deadline or the number from the recording, split so that the lower half fits 16 bits |
| Icount.Timers.ExecTb | qemu/include/exec/gen-icount.h:12-46 | a block runs exactly if it fits and no interrupt is flagged, and is counted by the instructions done, also when it is left early and cpu_restore_state_from_tb restores the count |
| Icount.Timers.Expired | qemu/cpu-exec.c:548-573 | refills without changing what is left, or leaves after at most what is left |
| Icount.Timers.RunBlock | qemu/cpu-exec.c:548-573 | tried again after every refill, a block runs exactly if no interrupt is flagged and the instructions left, in both halves of the counter, cover it; otherwise the slice ends after as much of it as fits |
| Icount.Timers.Interrupt | qemu/translate-common.c:30-54 | raising an interrupt changes no count |
| Icount.Timers.Fold | qemu/cpus.c:1549-1558 | the counter is the number of instructions executed |
| Icount.Timers.TcgCpuExec | qemu/cpus.c:1521-1560 | for any blocks, left early or not, and any interrupts, the slice executes exactly the instructions of its blocks up to the first that does not fit or meets an interrupt, and never more than its budget; without a recording, their time is less than the deadline, or than 2^31 - 1 ns, and one unit |
| Icount.RanAll | qemu/cpus.c:1521-1560 | a slice that is long enough and not interrupted runs all its blocks |
| Icount.RanToTheEnd | qemu/cpu-exec.c:561-566 | one that is too short and not interrupted is used up to the last instruction |
| Icount.RanFlagged | qemu/translate-common.c:30-54 | after an interrupt of its CPU, a slice runs nothing more |
| Gdb.FromToHex | qemu/gdbstub.c:409-427 | reading a written digit gives it back |
| Gdb.HexDigits | qemu/gdbstub.c:409-427 | digits are written in lower case and read in either; other characters read as zero |
| Gdb.MemToHex | qemu/gdbstub.c:429-440 | two digits for each byte, the high one first |
| Gdb.HexToMem | qemu/gdbstub.c:442-450 | each byte from its two digits |
| Gdb.HexRoundTrip | qemu/gdbstub.c:429-450 | hextomem undoes memtohex |
| Gdb.MemToX | qemu/gdbstub.c:498-516 | the escaped data |
| Gdb.EscapeClean | qemu/gdbstub.c:498-516 | escaped data has no '#', '$' or '*' |
| Gdb.EscapePlain | qemu/gdbstub.c:498-516 | data without the four special bytes is sent as it is |
| Gdb.EscapedBytes | qemu/gdbstub.c:498-516 | what each special byte becomes |
| Gdb.UnescapeEscape | qemu/gdbstub.c:498-516 | unescaping as the "Overview" section of the Remote Serial Protocol appendix of the GDB manual prescribes undoes it |
| Gdb.GdbState.PutPacketBinary | qemu/gdbstub.c:453-485 | sends the frame and keeps it for a retransmission |
| Gdb.ChecksumIsStandard | qemu/gdbstub.c:466-471 | the checksum is the sum of the bytes modulo 256, although char is signed |
| Gdb.FrameMeans | qemu/gdbstub.c:460-475 | a frame is '$', the payload, '#' and two digits that read as the sum of the payload modulo 256 |
| Gdb.GdbState.ReadByte | qemu/gdbstub.c:1400-1474 | one step of the parser, including acknowledgements and a running machine |
| Gdb.AckedAfterRetries | qemu/gdbstub.c:1406-1427 | a packet is sent again for each '-' and no more after '+' |
| Gdb.NoiseIgnored | qemu/gdbstub.c:1406-1427 | anything else but '$' is ignored while a packet is pending |
| Gdb.CommandAbandonsReply | qemu/gdbstub.c:1406-1427 | a command that comes instead of an acknowledgement is delivered, and the pending packet given up |
| Gdb.ByteStops | qemu/gdbstub.c:1428-1431 | while the machine runs, a byte stops it and is lost, and a packet after it is delivered |
| Gdb.FrameDelivered | qemu/gdbstub.c:1400-1474 | a packet of at most 4095 bytes without '#' is delivered as it was framed, and acknowledged |
| Gdb.TrailerRead | qemu/gdbstub.c:1449-1468 | delivered with '+' if the check digits are the checksum, refused with '-' otherwise |
| Gdb.BinaryDelivered | qemu/gdbstub.c:498-516 | escaped binary data arrives and unescapes to what was sent |
| Gdb.DeliveredIffFits | qemu/gdbstub.c:1440-1448 | without '#' and '$', a packet is delivered if and only if it has at most 4095 bytes |

## Left out

- Memory regions, IOMMU translation, RCU reclamation and the Xen and KVM variants in `qemu/exec.c`; freeing of dispatch tables.
- Dirty-memory bitmaps and `tlb_reset_dirty`, `tlb_set_dirty` and the flushes by MMU index in `qemu/cputlb.c`: the same loops over the same tables.
- EventLoop.NoLostWakeup: says nothing about bottom halves that only qemu_bh_schedule_idle made scheduled, nor about some that were marked idle as well; `AnnouncedExactly` and `Missed` show that none of those is always announced.
- Timers, file descriptor events and epoll in the event loop: the poller may return from poll at any time instead.
- The contents of the dump headers and notes, the flat-format records around each write, and the compression libraries: bytes, offsets and an inverse pair of functions instead.
- Kdump.CreateKdumpVmcore: promises nothing once the part before the page data reaches 4 GiB, where the descriptors start inside the bitmaps (`PagesAfterBitmaps`, `DescriptorsOverwriteBitmaps`).
- Overflow of 64-bit addresses in `ElfDump`, and write errors there, which only cut the output short.
- Block drivers with children other than file and backing, block jobs, drained sections, options, file names and the order of the list of parents in `qemu/block.c`.
- BlockLayer.Graph.Append: requires the overlay to have a driver, as every open node does; releasing one without would leak (`EraseOnlyChildless`, `LeakWithoutDriver`).
- Subpage tables and dispatch sections are sequences that methods reassign, not arrays; entries that the C code changes through a pointer are passed in and handed back.
- Tlb.Env.SetPage: requires a page-aligned address, which `qemu/target-arm/helper.c:8113-8117` passes, and a power-of-two size, as the page sizes of that MMU are; addresses of hosts and devices are unbounded integers, relative to the page.
- WorkQueue.RunsInOrder: leaves out calls from the CPU's own thread, which run at once without the queue, and the condition variable, whose waiters look again at any time.
- The race between RCU readers that store the most recently used RAM block and its removal.
- The bytes that go through the bounce buffer; in `MapDirect`, regions that are direct for reading only.
- Icount.Timers.TcgCpuExec: takes blocks of at most 0x7fff instructions, since the translator makes no longer ones (`qemu/target-arm/translate.c:11712-11718`).
- Several virtual CPUs taking turns in `tcg_exec_all`, clock bias and warping.
- The replies that packet handlers send, and the chunking of monitor output, in `qemu/gdbstub.c`; encoders return their output instead of filling a buffer.
