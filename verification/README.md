# A verified model of QEMU's memory, migration and block cores

This project models parts of QEMU 1.4.0 in Dafny and proves properties of the model. It is about the code
in which several pieces have to agree with each other:

- **The memory core** (`memory.c`, `exec.c`, `kvm-all.c`). A tree of regions is rendered to a flat view, the
  view is filed in a radix tree with sub-page tables, listeners hear the difference between two views, and the
  KVM slot table follows. Modules `FlatViews`, `Rendering`, `Topology`, `Transactions`, `PhysMaps`, `Dispatch`,
  `KvmSlots`, `EndToEnd`, `Machines`, `RamLists`.
- **Live migration of RAM** (`arch_init.c`). A byte format with its loader, and a sender that scans a dirty
  bitmap while the guest writes. Modules `MigrationStream`, `Migrations`.
- **The block layer** (`block.c`). Tracked requests with copy-on-read as a transition system, commit, and merging
  of batched writes. Modules `TrackedRequests`, `Commits`, `Multiwrites`.
- **Walked lists** (`async.c`, `aio-posix.c`). Bottom halves and descriptor handlers under arbitrary re-entrant
  callbacks. Modules `Numbered`, `BottomHalves`, `AioHandlers`.
- **The software TLB** (`cputlb.c`) and **memory dumps** (`dump.c`, `memory_mapping.c`). Modules `Tlbs`, `Dumps`.

## Main results

- Whatever the region tree, rendering gives the unique maximal sorted view whose owner at every address is what the
  visibility rules of `docs/memory.txt` give (`Rendering.GenerateTopology`, `Rendering.RenderingIsUnique`). The
  rules are stated region by region, over offsets inside a region (`Rendering.At`): an alias shows its target from
  its alias offset on, a child is asked at the distance from where it is placed, the first child that shows anything
  wins, then comes the region itself. Of overlapping children one of the highest priority is seen, and among equals
  the one added last (`Transactions.HighestWins`, `Transactions.AttachShows`). A guest access through the radix tree
  and the sub-page tables reaches that owner, and goes through the sub-page stand-in exactly for RAM whose page does
  not resolve as one aligned stretch (`EndToEnd.AccessResolves`).
- The same holds of a running machine: after any sequence of edits of the region graph, in and out of nested
  transactions, an access ends where the graph that these edits made says, and KVM maps exactly those pages of RAM
  ranges of that graph that `kvm_set_phys_mem` does not round away, each to its own host memory, as long as no edit
  places the root region itself (`Machines.Machine.Run`). Placing the root is the one thing that can be missed, and
  `Machines.Machine.Apply` says exactly by which edits. A machine stops only when all KVM slots or all radix tree
  nodes are in use and one more is needed, or a range ends above the limits of the address space
  (`Machines.Machine.Listen`, `EndToEnd.FollowUpdate`, `PhysMaps.PhysMap.PageSet`).
- `kvm_set_phys_mem` registers exactly the whole pages of a section if its start and its size are equally far past a
  page boundary, and nothing otherwise (`KvmSlots.EffectiveIff`); `KvmSlots.PageDropped` is a section with a whole
  page in it of which nothing is registered.
- A topology update announces every range of the new view once, in order, and nothing else
  (`Topology.AnnouncedIsView`), never shows a listener an overlap, and leads it to the new view.
- Skipping updates for regions that cannot be seen is sound except in three cases, and for each the exact condition
  is proved: moving a parentless root of an address space (`Transactions.RootMoveIff`), adding a root below a
  disabled parent (`Transactions.RootAttachIff`), and creating an address space
  (`Transactions.MemoryCore.InitSpace`). The view survives the first two if and only if the root does not really
  move, or shows nothing before and after; `Transactions.RootMoveIsMissed`, `Transactions.RootAttachIsMissed` and
  `Transactions.InitSpaceIsMissed` are inputs for which it is wrong. The class `Transactions.MemoryCore` keeps every
  address space up to date that has not missed such an edit; an edit of an up-to-date core leaves stale exactly the
  address spaces it says, and the next update that is asked for repairs them.
- Under every schedule of guest stores, parts of the setup, torn page reads, syncs and page sends, a completed
  migration leaves the destination with the RAM the guest was stopped with (`Migrations.Migration.Migrate`), also
  when stores that come before dirty logging is on go unlogged. The page picked is the first marked one in cyclic
  order from the last one on (`Migrations.Migration.PickPage`), its record is a single byte if and only if the page
  read is one repeated byte, and names its block if and only if the record before is of another
  (`Migrations.Migration.SendSeen`). The announced block list is read back completely if and only if its last block
  is not empty (`MigrationStream.LoadPrintedBlocks`, with an input in `MigrationStream.EmptyLastBlock`).
- In every run of the block device, two tracked requests of which one copies on read share no cluster, and the guest
  sees a flat disk (`TrackedRequests.EveryRun`). A copy-on-read that finishes well leaves all its sectors in the
  image and returns what the guest sees then (`TrackedRequests.CopyResult`); whatever any request has read or
  written was on the disk at some moment of the request (`TrackedRequests.ReadWasThere`,
  `TrackedRequests.WriteWasThere`). Every run without new requests is finite and can be brought to an end without a
  failure (`TrackedRequests.StepCloser`, `TrackedRequests.Drain`).
- A batch of writes is sorted, merged and submitted, and its merged requests come back in any order with any results
  (`Multiwrites.AioMultiwrite`): every callback is called once, after the last result, with the first error; nothing
  outside the requests changes; and if no request fails and the requests do not overlap, the disk is as if they had
  been written one by one. If the device fails no write, a batch inside the disk has no error, and one without
  overlaps and repetitions has an error exactly if a request ends past the end of the disk (`Multiwrites.ErrorOf`).
  Joining two writes keeps their effect if and only if the second does not end before the first
  (`Multiwrites.JoinKeepsIff`, with a counterexample in `Multiwrites.SwallowedRequest`). A merged batch does what
  the sorted batch does if no request is swallowed, and, as long as the vector limit refuses no join, only if none
  is (`Multiwrites.MergeSorted`). Merging is maximal: requests are left apart only if they do not touch or have too
  many vectors.
- During a commit of an overlay no guest-visible sector changes, whatever fails, not even between two sectors stored
  or dropped; it reports the first thing in its way, an I/O error if and only if an allocated sector cannot be read,
  written or lies past the end of the backing file (`Commits.Chain.Commit`).
- Whatever callbacks do, and however often they poll again, the walk along a list that changes under it does what
  visiting a copy of the list would do: `BottomHalves.AioContext.Poll` and `AioHandlers.AioContext.Poll` are proved
  equal to such a reference. Nothing the walk still has to reach is freed. A bottom half that no callback touches
  runs exactly once if it was scheduled and not at all otherwise (`BottomHalves.RunsOnce`); a handler whose event
  was reported, and that no callback touches, has its callback called, exactly once if no callback polls
  (`AioHandlers.OwnDispatched`); if the poll goes on to select and finds work, the callbacks that select finds
  ready, and whose handler has work, are called, exactly once if no callback polls, and no others are
  (`AioHandlers.AioContext.Poll`); and a walk of handlers makes progress if and only if something was due when it
  began (`AioHandlers.AioContext.WalkHandlers`).
- A new RAM block goes to the first of the smallest gaps after a block that are large enough. The search overlooks
  room exactly where an empty block starts in it (`RamLists.GapIff`): after one empty block at the start no further
  block can be allocated (`RamLists.EmptyBlockHides`).
- Every PT_LOAD of a dump names exactly the guest memory that its range of the file holds, no two of them name the
  same byte of the file, and the pieces of memory tile the file (`Dumps.DumpState.Create`). After a page flush
  nothing translates the page; if it lies in the region that holds the large pages nothing at all is left, and else
  no other page is lost (`Tlbs.Tlb.FlushPage`).

Where the code and its comments differ the model follows the code: a comment in `multiwrite_merge` speaks of filling
gaps with zeroes, but only requests that touch are joined. Two things in the code that a reader may not expect are
stated as they are: a handler that its own read callback deletes still has its write callback called in the first
walk of `aio_poll` (`AioHandlers.DeletedStillWritten`), and a contained request cuts off the tail of the request
around it (`Multiwrites.SwallowedRequest`).

## Model

| member | source | states |
|---|---|---|
| FlatViews.IntersectionIsPointwise | qemu-1.4.0/memory.c:74-85 | the intersection of two ranges has exactly their common addresses, and a common address makes them intersect |
| FlatViews.InsertOwner | qemu-1.4.0/memory.c:253-264 | inserting a range changes the owner on exactly its addresses, none of which had one |
| FlatViews.FlatView.Insert | qemu-1.4.0/memory.c:253-264 | the range ends up at the given position, all others in order |
| FlatViews.FlatView.MergeRun | qemu-1.4.0/memory.c:284-301 | the inner loop replaces the first range of a run by one that stands for the whole run and stops where no merge is possible |
| FlatViews.ReplaceRunKeepsOwners | qemu-1.4.0/memory.c:284-301 | putting one range in place of a mergeable run changes no owner |
| FlatViews.FlatView.Simplify | qemu-1.4.0/memory.c:284-301 | same owner at every address, no two neighbours mergeable, and nothing to do the second time |
| FlatViews.MaximalIsUnique | qemu-1.4.0/memory.c:271-301 | two simplified views with the same owners are equal, range by range |
| Rendering.FillGap | qemu-1.4.0/memory.c:523-558 | filling one gap extends what is rendered by exactly that gap |
| Rendering.RenderSelf | qemu-1.4.0/memory.c:519-558 | a region fills exactly the addresses of the clip that had no owner |
| Rendering.RenderRegion | qemu-1.4.0/memory.c:474-559 | ranges already there win; elsewhere inside the clip the view gains exactly what recursive resolution gives, which is what the visibility rules give for the distance from the region (`ResolveIsAt`) |
| Rendering.GenerateTopology | qemu-1.4.0/memory.c:562-575 | the result is sorted and maximal, and its owner at every address is the byte that the visibility rules, stated region by region, show there |
| Rendering.ResolveIsAt | qemu-1.4.0/memory.c:474-559 | following an absolute address down the tree gives what the rules give for its distance from the region: an alias continues at its alias offset, a child at the distance from where it is placed |
| Rendering.ResolveIsVisible | qemu-1.4.0/docs/memory.txt:81-94 | the same for the root of an address space |
| Rendering.FirstChildIs | qemu-1.4.0/docs/memory.txt:81-94 | the child that is seen is the first listed one that shows anything |
| Rendering.ShowsFirst | qemu-1.4.0/docs/memory.txt:84-90 | a region without alias shows that child, read-only if either is |
| Rendering.AliasShows | qemu-1.4.0/memory.c:503-508 | an alias of plain memory shows at offset x the byte at alias offset + x, and nothing outside the memory |
| Rendering.RenderingIsUnique | qemu-1.4.0/memory.c:562-575 | a root has only one such view |
| Topology.UpdateTopologyPass | qemu-1.4.0/memory.c:657-717 | one pass emits a deletion for each range that is only old, the other an addition for each that is only new and a no-op with log changes for the rest, each once and in order |
| Topology.NeverOverlaps | qemu-1.4.0/memory.c:720-731 | at no point between two events does a listener hold overlapping ranges |
| Topology.ListenerFollows | qemu-1.4.0/memory.c:720-731 | a listener that holds the old view ends with the new one and logs what it logs |
| Topology.AnnouncedIsView | qemu-1.4.0/memory.c:720-731 | the additions and no-ops of an update are the ranges of the new view, each once and in order |
| Topology.UpdateTopology | qemu-1.4.0/memory.c:720-731 | both of these for the events actually emitted, which announce the new view |
| Transactions.SimilarResolve | qemu-1.4.0/memory.c:474-559 | two region graphs that differ only in what is not visible resolve every address alike |
| Transactions.AttachLinked | qemu-1.4.0/memory.c:1309-1351 | adding a subregion keeps parents, lists and priority order consistent |
| Transactions.DetachLinked | qemu-1.4.0/memory.c:1373-1382 | so does removing one |
| Transactions.HighestWins | qemu-1.4.0/docs/memory.txt:84-90 | of the children that show anything at an offset, one of the highest priority is seen |
| Transactions.AttachPlaces | qemu-1.4.0/memory.c:1341-1347 | an added child is listed at its offset, behind children of higher priority only |
| Transactions.AttachShows | qemu-1.4.0/memory.c:1309-1351 | it is seen where it shows anything unless a child of higher priority does, so the last one added wins among equals |
| Transactions.MoveKeepsPriority | qemu-1.4.0/memory.c:1406-1413 | a region added with a priority keeps it when it is moved, one added without is moved with priority zero |
| Transactions.WithBitIs | qemu-1.4.0/memory.c:1059-1067 | the bit of the one client becomes what is asked for and every other bit stays |
| Transactions.AttachInvisible | qemu-1.4.0/memory.c:1309-1351 | adding where parent or child is disabled changes nothing visible, so no update is needed |
| Transactions.DetachInvisible | qemu-1.4.0/memory.c:1373-1382 | nor does removing there |
| Transactions.DisabledInvisible | qemu-1.4.0/memory.c:1384-1428 | nor does editing a disabled region |
| Transactions.SimilarRendering | qemu-1.4.0/memory.c:739-755 | a view that was right stays right under invisible changes |
| Transactions.MoveAlone | qemu-1.4.0/memory.c:1401-1404 | changing the offset of a region that no list holds changes nothing that can be seen from another region |
| Transactions.ResolveShift | qemu-1.4.0/memory.c:474-559 | a region placed elsewhere resolves alike, as far away |
| Transactions.MoveBreaks | qemu-1.4.0/memory.c:1401-1404 | the view of a root that shows anything is wrong after any move that goes unseen |
| Transactions.ViewKeptIff | qemu-1.4.0/memory.c:1349 | after such a move the view is right if and only if the root does not really move, or shows nothing before and after, both told from the graph before |
| Transactions.RootMoveIff | qemu-1.4.0/memory.c:1401-1404 | the same for the early return of set_address, when a parentless root moves |
| Transactions.RootAttachIff | qemu-1.4.0/memory.c:1349 | the same for adding a root below a disabled parent |
| Transactions.RootMoveIsMissed | qemu-1.4.0/memory.c:1401-1404 | moving an enabled parentless root leaves a view that is no longer its rendering |
| Transactions.RootAttachIsMissed | qemu-1.4.0/memory.c:1349 | adding one below a disabled container leaves such a view |
| Transactions.InitSpaceIsMissed | qemu-1.4.0/memory.c:1565-1575 | the empty view of a new address space whose root shows RAM is not its rendering |
| Transactions.SimilarStep | qemu-1.4.0/memory.c:739-755 | of all address spaces exactly those rooted at the moved region whose view is not kept go stale |
| Transactions.SameMissed | qemu-1.4.0/memory.c:1395-1414 | taking the region out first does not change which |
| Transactions.NewInvisible | qemu-1.4.0/memory.c:789-820 | a new region changes nothing that can be seen |
| Transactions.FindSlot | qemu-1.4.0/memory.c:1341-1347 | the search finds the front of the region's priority class |
| Transactions.PutInto | qemu-1.4.0/memory.c:1341-1347 | the child is listed there, with its parent, offset and priority set |
| Transactions.MemoryCore.InitRegion | qemu-1.4.0/memory.c:789-820 | the region is added and every view stays as right as it was |
| Transactions.MemoryCore.InitSpace | qemu-1.4.0/memory.c:1565-1575 | the new address space has an empty view, which is right if and only if its root shows nothing; no other view is touched |
| Transactions.MemoryCore.Begin | qemu-1.4.0/memory.c:733-737 | nothing but the depth changes |
| Transactions.MemoryCore.Commit | qemu-1.4.0/memory.c:739-755 | leaving the outermost transaction with an update pending brings every view up to date, missed ones included; otherwise views and flag stay |
| Transactions.MemoryCore.EditRegion | qemu-1.4.0/memory.c:1114-1122 | an edit that asks for an update only if the region is or was enabled keeps the views right |
| Transactions.MemoryCore.SetLog | qemu-1.4.0/memory.c:1059-1067 | the mask changes in one bit and the views stay right |
| Transactions.MemoryCore.SetReadonly | qemu-1.4.0/memory.c:1114-1122 | the flag changes and the views stay right |
| Transactions.MemoryCore.RomDeviceSetReadable | qemu-1.4.0/memory.c:1124-1132 | the flag changes and the views stay right |
| Transactions.MemoryCore.SetEnabled | qemu-1.4.0/memory.c:1384-1393 | the flag changes and the views stay right |
| Transactions.MemoryCore.SetAliasOffset | qemu-1.4.0/memory.c:1416-1428 | the offset changes and the views stay right |
| Transactions.MemoryCore.AddSubregionCommon | qemu-1.4.0/memory.c:1309-1351 | the child is put at the front of its priority class; if both are enabled all views end up right, otherwise exactly those that miss the move go stale |
| Transactions.MemoryCore.Link | qemu-1.4.0/memory.c:1317-1349 | the same inside the transaction, before its commit |
| Transactions.MemoryCore.Adopt | qemu-1.4.0/memory.c:1348-1349 | the new graph takes over; an update is asked for if it is seen, and otherwise exactly the spaces named go stale |
| Transactions.MemoryCore.AddSubregion | qemu-1.4.0/memory.c:1354-1361 | the same with priority zero and no overlap allowed |
| Transactions.MemoryCore.AddSubregionOverlap | qemu-1.4.0/memory.c:1363-1371 | the same with the given priority |
| Transactions.MemoryCore.DelSubregion | qemu-1.4.0/memory.c:1373-1382 | the child is taken out and the views stay right |
| Transactions.MemoryCore.SetAddress | qemu-1.4.0/memory.c:1395-1414 | a parented region is taken out and put back at the new address, another just changes its field; a move that is seen leaves all views right, otherwise exactly those that miss it go stale |
| Transactions.MemoryCore.MoveField | qemu-1.4.0/memory.c:1401-1404 | the same for the early return |
| Transactions.MemoryCore.Reinsert | qemu-1.4.0/memory.c:1406-1413 | both steps in one transaction; the priority survives only if overlap is allowed; views as for set_address |
| PhysMaps.FindFrame | qemu-1.4.0/exec.c:185-203 | a lookup depends only on the nodes that cover its page |
| PhysMaps.WriteEntry | qemu-1.4.0/exec.c:140-173 | writing an entry redirects exactly the pages below it |
| PhysMaps.CountStep | qemu-1.4.0/exec.c:140-173 | the nodes a loop over entries may still allocate stay within the bound for its level |
| PhysMaps.PhysMap.Reserve | qemu-1.4.0/exec.c:107-117 | after it there is room for the nodes asked for, and the array grows only if it must, to twice its size, sixteen or the number needed, whichever is most |
| PhysMaps.PhysMap.NodeAlloc | qemu-1.4.0/exec.c:119-132 | the new node is empty and no other node changes; it gives up exactly if the next number is the one for no node |
| PhysMaps.PhysMap.SetLevel | qemu-1.4.0/exec.c:140-173 | the pages from the index on, as far as this subtree reaches, are set; index and count advance past them; at most the bounded number of nodes is allocated, and giving up means that all nodes are in use and one more was needed |
| PhysMaps.PhysMap.SetEntries | qemu-1.4.0/exec.c:157-172 | the same for the loop over one node's entries |
| PhysMaps.PhysMap.NextEntry | qemu-1.4.0/exec.c:158-172 | one turn of the loop sets the pages of one entry and keeps the rest settable |
| PhysMaps.PhysMap.PageSet | qemu-1.4.0/exec.c:175-183 | exactly the pages of the range map to the section, with at most 2 * levels - 1 new nodes, so the reservation holds and the array does not move; it fails only with all nodes in use |
| PhysMaps.PhysMap.FreeIsSettable | qemu-1.4.0/exec.c:140-173 | unassigned pages never lie inside a large leaf |
| PhysMaps.PhysMap.PageFind | qemu-1.4.0/exec.c:185-203 | the walk down the levels returns what the page maps to |
| PhysMaps.PhysMap.Reset | qemu-1.4.0/exec.c:1681-1687 | every page is unassigned |
| Dispatch.AddressSpaceDispatch.SectionAdd | qemu-1.4.0/exec.c:706-715 | the section gets the next number and no access changes |
| Dispatch.AddressSpaceDispatch.SubpageRegister | qemu-1.4.0/exec.c:1606-1629 | accesses change on exactly the entries of the table, RAM becoming its stand-in; bounds outside the page, also after wrap-around to 32 bits, change nothing |
| Dispatch.AddressSpaceDispatch.SubpageInit | qemu-1.4.0/exec.c:1631-1648 | a new table is all unassigned |
| Dispatch.AddressSpaceDispatch.RegisterSubpage | qemu-1.4.0/exec.c:722-747 | the piece's addresses reach the section and no other access changes, also for an empty piece |
| Dispatch.AddressSpaceDispatch.RegisterMultipage | qemu-1.4.0/exec.c:750-762 | whole pages reach the section and no other access changes |
| Dispatch.AddressSpaceDispatch.AddHead | qemu-1.4.0/exec.c:769-778 | the part up to the first page boundary is added |
| Dispatch.AddressSpaceDispatch.PieceBounds | qemu-1.4.0/exec.c:744-746 | the bounds select exactly the piece, also when it is empty and the upper bound wraps |
| Dispatch.AddressSpaceDispatch.AddPages | qemu-1.4.0/exec.c:779-791 | one turn of the page loop adds at least a page |
| Dispatch.AddressSpaceDispatch.AddAllPages | qemu-1.4.0/exec.c:779-791 | the loop ends with less than a page left and everything before it added, or with all nodes in use |
| Dispatch.AddressSpaceDispatch.AddTail | qemu-1.4.0/exec.c:792-795 | the rest of less than a page is added |
| Dispatch.AddressSpaceDispatch.MemAdd | qemu-1.4.0/exec.c:764-796 | exactly the section's addresses reach it, each at its own offset; all whole pages of a page-aligned section cost one insertion; it fails only with all nodes in use |
| Dispatch.AlignedCost | qemu-1.4.0/exec.c:764-796 | page-aligned ranges need three insertions each at most, however long they are |
| Dispatch.HeadIsPart | qemu-1.4.0/exec.c:769-778 | the head never covers a page that is wholly the section's |
| Dispatch.AddressSpaceDispatch.WantedIsOwner | qemu-1.4.0/exec.c:764-796 | what the tables should answer is the view's owner, except that RAM in a shared page appears as the stand-in |
| Dispatch.AddressSpaceDispatch.AddView | qemu-1.4.0/exec.c:764-796 | after one call per range of any sorted view every access agrees with the view; it fails only with all nodes in use, and never if the insertions cost no more nodes than there are |
| Dispatch.AddressSpaceDispatch.Access | qemu-1.4.0/exec.c:1531-1547 | page lookup and sub-page lookup together give the recorded outcome |
| Dispatch.BuildAndAccess | qemu-1.4.0/exec.c:1681-1687 | from an empty table to an access: same region and offset as the view, the stand-in exactly for RAM outside whole pages, unassigned elsewhere; there is a result whenever the insertions cost no more nodes than there are |
| KvmSlots.HostUpdate | qemu-1.4.0/kvm-all.c:195-208 | rewriting a slot unmaps its old range and maps its new one |
| KvmSlots.EffectiveInside | qemu-1.4.0/kvm-all.c:564-575 | what is registered of a section is page-aligned, inside it, and maps each address alike |
| KvmSlots.EffectiveIsWhole | qemu-1.4.0/kvm-all.c:564-575 | a section is taken as it is if and only if it consists of whole pages |
| KvmSlots.EffectiveIff | qemu-1.4.0/kvm-all.c:564-575 | registered are exactly the whole pages of the section if start and size are equally far past a page boundary, and nothing otherwise |
| KvmSlots.PageDropped | qemu-1.4.0/kvm-all.c:564-575 | a section with a whole page in it, none of which is registered |
| KvmSlots.KvmState.AllocSlot | qemu-1.4.0/kvm-all.c:119-131 | the first free slot, and failure exactly if every slot is in use |
| KvmSlots.OverlapTestIff | qemu-1.4.0/kvm-all.c:169-172 | on wrapping 64-bit addresses the test is the overlap of slot and range if and only if neither holds the last byte |
| KvmSlots.KvmState.LookupOverlapping | qemu-1.4.0/kvm-all.c:154-176 | the overlapping slot that starts lowest, or none exactly if none overlaps |
| KvmSlots.KvmState.SetSlot | qemu-1.4.0/kvm-all.c:195-208 | the table, the kernel's copy and the map change in one slot, as the kernel accepts it |
| KvmSlots.KvmState.SplitSlot | qemu-1.4.0/kvm-all.c:598-680 | an overlapping slot loses exactly the common part and what sticks out stays mapped, with the log flag of the change; it fails exactly if something sticks out on both sides and every slot is in use |
| KvmSlots.KvmState.ClearOne | qemu-1.4.0/kvm-all.c:588-680 | one turn of the loop: a slot that already maps an added range alike only gets its log flag, and ends the loop; any other is split |
| KvmSlots.KvmState.SetLog | qemu-1.4.0/kvm-all.c:589-597 | that slot gets the log flag and nothing else changes |
| KvmSlots.KvmState.RegisterWhole | qemu-1.4.0/kvm-all.c:690-702 | the new slot maps the whole range with its log flag; it fails exactly if every slot is in use |
| KvmSlots.KvmState.LastOverlap | qemu-1.4.0/kvm-all.c:583-681 | when the lowest overlapping slot sticks out above, nothing else overlaps |
| KvmSlots.KvmState.ClearRange | qemu-1.4.0/kvm-all.c:583-681 | the loop ends, with the range unmapped or, exactly on the early return, already mapped by one slot, of which only the log flag changes; nothing else changes but the log flag of what is left of split slots |
| KvmSlots.KvmState.SetPhysMem | qemu-1.4.0/kvm-all.c:552-702 | the map changes by exactly the override or the removal of the range; slots that meet the range have its log flag, and a slot that already maps an added range alike changes in nothing else; slots stay disjoint; at most two more are used; it fails only with every slot in use |
| EndToEnd.WholePageIsPointwise | qemu-1.4.0/exec.c:764-796 | a page is filed whole if and only if the region tree resolves it as one stretch at a page boundary of the region |
| EndToEnd.AccessResolves | qemu-1.4.0/docs/memory.txt:81-94 | an access reaches the region and offset the visibility rules give for the region tree, through the stand-in exactly for RAM in a page that is not whole; there is a result whenever the insertions cost no more nodes than there are |
| EndToEnd.SetRange | qemu-1.4.0/kvm-all.c:704-714 | adding or deleting a range changes the guest-to-host map by exactly its whole pages of RAM; an added one is logged exactly if its mask is not empty; two free slots suffice to add, one to delete |
| EndToEnd.HearEvent | qemu-1.4.0/kvm-all.c:704-714 | each event keeps the slots equal to the RAM the listener holds; only additions and deletions can fail, with every slot in use |
| EndToEnd.FollowUpdate | qemu-1.4.0/memory.c:720-731 | after an update the slots map exactly the RAM of the new view, unless a slot was needed with every slot in use |
| EndToEnd.MirrorsView | qemu-1.4.0/kvm-all.c:552-702 | the same, read address by address from the view |
| Machines.WantedResolves | qemu-1.4.0/exec.c:764-796 | what tables built from a right view answer is what the region graph resolves |
| Machines.SlotsResolve | qemu-1.4.0/kvm-all.c:552-702 | slots that mirror a right view map only what the region graph resolves to RAM, and of each range of RAM exactly the addresses that are registered |
| Machines.InReach | qemu-1.4.0/exec.c:764-796 | a view has no range out of reach if and only if it fits the radix tree and KVM |
| Machines.EmptyContainer | qemu-1.4.0/exec.c:1780-1786 | a container without content shows nothing |
| Machines.NewCore | qemu-1.4.0/exec.c:1780-1786 | the system memory and its address space start with a right view if the root is an empty container |
| Machines.Machine.Edit | qemu-1.4.0/memory.c:1309-1428 | every edit has its effect on graph and depth, and the view of the system memory goes stale unseen only by the edits that move its root without an update it needs |
| Machines.Machine.Listen | qemu-1.4.0/memory.c:720-731 | the dispatch tables and the slots come to agree with the new view; otherwise all slots or all nodes are in use, or a range of the view ends above the radix tree or holds RAM up to the last byte |
| Machines.Machine.Rebuild | qemu-1.4.0/exec.c:1681-1687 | tables filed anew answer what the view says, or all nodes are in use |
| Machines.Machine.Apply | qemu-1.4.0/memory.c:739-755 | every edit, with all that follows it, keeps tables and slots in step with the view, and an edit that does not miss it keeps the view right |
| Machines.Machine.Access | qemu-1.4.0/exec.c:1531-1547 | an access ends where the view of the system memory says, and with no update pending or missed where the region graph says |
| Machines.Machine.Guest | qemu-1.4.0/kvm-all.c:552-702 | and what KVM maps is the host memory of what the region graph says, at exactly the registered addresses of each range of RAM |
| Machines.Machine.OnlyTheRootIsMissed | qemu-1.4.0/memory.c:1395-1414 | only an edit that places the root region can be missed |
| Machines.Machine.Run | qemu-1.4.0/memory.c:733-755 | any run of allowed edits, then an access and a look at KVM: both agree with the graph that the edits made, KVM mapping exactly the registered addresses of its RAM |
| RamLists.InBlockIs | qemu-1.4.0/exec.c:1230-1238 | the wrapping unsigned comparison holds exactly for addresses in the block |
| RamLists.GapIsFree | qemu-1.4.0/exec.c:908-939 | the gap after a block meets no block |
| RamLists.GapIff | qemu-1.4.0/exec.c:921-926 | the search sees the room after a block if and only if no empty block starts in it |
| RamLists.EmptyBlockHides | qemu-1.4.0/exec.c:921-926 | one empty block at the start hides all room |
| RamLists.FindRamOffset | qemu-1.4.0/exec.c:908-939 | the start of the first of the smallest gaps after a block that are large enough; nothing if and only if no gap is |
| RamLists.RamList.Alloc | qemu-1.4.0/exec.c:1018-1088 | the new block, possibly empty, starts at the first of the smallest gaps that are large enough, is page-aligned, disjoint from all others and put before the first shorter block, and the shortcut is reset; it fails exactly if the search sees no room |
| RamLists.RamList.Insert | qemu-1.4.0/exec.c:1059-1069 | the block is put before the first shorter one, all others keep their order, and disjointness is kept |
| RamLists.RamList.Free | qemu-1.4.0/exec.c:1113-1154 | the first block that starts at the address goes, so no block with content is left there; no other block goes; the shortcut is reset and the version raised exactly if one went |
| RamLists.RamList.LastRamOffset | qemu-1.4.0/exec.c:941-950 | the largest end of a block |
| RamLists.RamList.GetRamPtr | qemu-1.4.0/exec.c:1226-1259 | with or without the shortcut, the one block that holds the address |
| MigrationStream.DigitsRoundTrip | qemu-1.4.0/arch_init.c:268-283 | a big-endian number is read back as written |
| MigrationStream.ItemBytes | qemu-1.4.0/arch_init.c:268-283 | the bytes of one item of each kind, with and without its block name |
| MigrationStream.LoadPrintedBlocks | qemu-1.4.0/arch_init.c:788-824 | the block list is read back completely if and only if its last block is not empty |
| MigrationStream.EmptyLastBlock | qemu-1.4.0/arch_init.c:788-824 | a list for which it is not |
| MigrationStream.LoadPrinted | qemu-1.4.0/arch_init.c:769-875 | loading one printed item has exactly its effect, whatever follows |
| MigrationStream.RamLoad | qemu-1.4.0/arch_init.c:769-875 | the loop loads items until the end mark or the first failure |
| MigrationStream.LoadAllPrinted | qemu-1.4.0/arch_init.c:769-875 | loading a whole stream applies its items in order |
| Migrations.IsDupPage | qemu-1.4.0/arch_init.c:167-180 | true exactly for pages of one repeated byte |
| Migrations.FindAndReset | qemu-1.4.0/arch_init.c:351-366 | the first marked page from the start on, which alone is cleared and counted off |
| Migrations.Scan | qemu-1.4.0/arch_init.c:429-455 | either the first mark in cyclic order from the last page on is taken and all others stay, or there was none and nothing changes; the scan ends |
| Migrations.AfterPick | qemu-1.4.0/arch_init.c:351-366 | taking a page's mark leaves only that page uncovered, while it is being sent |
| Migrations.AfterSend | qemu-1.4.0/arch_init.c:455-491 | a page sent as read is the same on both sides, or has been logged since |
| Migrations.AfterSync | qemu-1.4.0/arch_init.c:382-420 | moving the log into the bitmap loses no page |
| Migrations.CoveredIsEqual | qemu-1.4.0/arch_init.c:659-683 | when nothing is marked, both sides have the same RAM |
| Migrations.EncodedLoads | qemu-1.4.0/arch_init.c:769-875 | a stream sent item by item loads completely, to what its history says |
| Migrations.Migration.SetDirty | qemu-1.4.0/arch_init.c:368-380 | the bit is set and the count stays the number of set bits |
| Migrations.Migration.SyncBitmap | qemu-1.4.0/arch_init.c:382-420 | every logged page of every block is marked, the log is empty there, nothing else changes |
| Migrations.Migration.Sync | qemu-1.4.0/arch_init.c:382-420 | the same during a migration, keeping its invariant |
| Migrations.Migration.Setup | qemu-1.4.0/arch_init.c:561-602 | one part of it at a time, the guest running in between: every page is marked, logging is on, the log is collected, the block list is the first item |
| Migrations.Migration.MarkAll | qemu-1.4.0/arch_init.c:566-568 | every bit is set and counted, so every page is due |
| Migrations.Migration.StartLog | qemu-1.4.0/arch_init.c:587-588 | stores are logged from now on; then the log is collected |
| Migrations.Migration.Announce | qemu-1.4.0/arch_init.c:590-599 | the block list and an end mark are sent, and the destination's RAM stays |
| Migrations.Migration.GuestWrite | qemu-1.4.0/arch_init.c:382-420 | a guest store at any moment keeps the invariant; it is logged at least from the start of logging on |
| Migrations.Migration.PickPage | qemu-1.4.0/arch_init.c:429-455 | the first marked page in cyclic order from the last one on is taken, or none of any block is marked |
| Migrations.Migration.SendPage | qemu-1.4.0/arch_init.c:455-498 | exactly one record is added, one byte if told that all bytes are equal and the page otherwise, naming its block unless the record before is of the same block; the invariant holds also for a torn read |
| Migrations.Migration.SendSeen | qemu-1.4.0/arch_init.c:455-498 | the same for the picked page, read as it is or torn if the guest has written to it since; single byte if and only if the page read is one repeated byte |
| Migrations.Migration.SaveBlock | qemu-1.4.0/arch_init.c:422-501 | one marked page is saved, with such a record, or none of any block is marked |
| Migrations.Migration.Emit | qemu-1.4.0/arch_init.c:268-283 | the stream grows by exactly the bytes of the record |
| Migrations.Migration.EndRound | qemu-1.4.0/arch_init.c:652-656 | a round ends with the end mark |
| Migrations.Migration.Complete | qemu-1.4.0/arch_init.c:659-683 | it ends, and the loaded stream is the source's RAM |
| Migrations.Migration.PerformOwn | qemu-1.4.0/arch_init.c:604-657 | one step of the sender, with all it remembers: it picks a marked page or there is none, sends the picked one as such a record, collects the log, or ends a round; while a page is picked it can only be sent |
| Migrations.Migration.Migrate | qemu-1.4.0/arch_init.c:561-683 | the same for a whole migration under any schedule; the RAM is what the guest's own stores made of it |
| TrackedRequests.RoundedDisjoint | qemu-1.4.0/block.c:1676-1705 | a request the overlap test lets through shares no cluster with the tracked one |
| TrackedRequests.RoundedOk | qemu-1.4.0/block.c:1676-1692 | rounding to clusters, or not rounding without clusters, has what the protocol relies on |
| TrackedRequests.OverlapIff | qemu-1.4.0/block.c:1694-1705 | the overlap test holds exactly if some sector is in both, or an empty stretch lies strictly inside the other |
| TrackedRequests.FirstOverlap | qemu-1.4.0/block.c:1724-1740 | a tracked request that overlaps, or none exactly if none does |
| TrackedRequests.FirstOverlapIsFirst | qemu-1.4.0/block.c:1724-1740 | and none before it in the list overlaps |
| TrackedRequests.BeginExclusive | qemu-1.4.0/block.c:1707-1741 | a request that begins has no cluster in common with a tracked one if either copies on read |
| TrackedRequests.WriteContent | qemu-1.4.0/block.c:2204-2214 | a copy's write changes nothing the guest sees; a guest's write changes its sector to its data |
| TrackedRequests.InvStep | qemu-1.4.0/block.c:2236-2293 | every step of every coroutine keeps exclusion, the counter, the lists, waiting only on tracked requests, fresh bounce buffers, and that a copy-on-read that does not copy has all its sectors in the image, also when the driver reports fewer allocated sectors than there are |
| TrackedRequests.InvRun | qemu-1.4.0/block.c:2236-2293 | so does every run |
| TrackedRequests.RunIsFlat | qemu-1.4.0/block.c:2167-2231 | over every run the guest sees a flat disk that only guest writes change |
| TrackedRequests.EveryRun | qemu-1.4.0/block.c:1646-1741 | exclusion and the flat disk for every run of a device that starts without requests, with or without clusters |
| TrackedRequests.CopyResult | qemu-1.4.0/block.c:2198-2231 | a copy-on-read that finishes well leaves all its sectors in the image, its whole clusters if it had to copy, and returns what the guest sees then |
| TrackedRequests.FinishResult | qemu-1.4.0/block.c:2236-2293 | a request that finishes well has read, or written, every sector it was asked for |
| TrackedRequests.ReadWasThere | qemu-1.4.0/block.c:2236-2293 | what any request has read of a sector was on the disk at some moment of the request |
| TrackedRequests.WriteWasThere | qemu-1.4.0/block.c:2346-2399 | what a guest write has written of a sector was on the disk at some moment of the request |
| TrackedRequests.BeginsAtOnce | qemu-1.4.0/block.c:2258-2266 | without a copy in flight a request that arrives begins at once |
| TrackedRequests.Progress | qemu-1.4.0/block.c:1707-1741 | while a request is not over, some coroutine has a step that is not a failure |
| TrackedRequests.StepCloser | qemu-1.4.0/block.c:1646-1650 | every step brings the requests there are closer to their end |
| TrackedRequests.Drain | qemu-1.4.0/block.c:1646-1741 | from every reachable state all requests can be completed successfully |
| Commits.DropInvisible | qemu-1.4.0/block.c:1595-1598 | when everything is copied, dropping sectors of the overlay does not show |
| Commits.Chain.CopyDown | qemu-1.4.0/block.c:1580-1593 | allocated sectors are copied and others stay; it succeeds exactly if every allocated sector can be read, written and lies in the backing file |
| Commits.Chain.WriteBacking | qemu-1.4.0/block.c:1586-1588 | a write succeeds exactly if it lies in the backing file and no sector fails; then every sector is stored, and on failure each is stored or as before |
| Commits.Chain.ReadVisible | qemu-1.4.0/block.c:1582-1584 | a read succeeds exactly if no sector fails, with what the guest sees |
| Commits.Chain.MakeEmpty | qemu-1.4.0/block.c:1595-1598 | exactly the sectors the driver keeps are left in the overlay |
| Commits.Chain.Commit | qemu-1.4.0/block.c:1546-1616 | the outcome is the first thing in its way; no guest-visible sector changes on any path, after any single sector stored or dropped; once all is copied the backing file alone holds what the guest saw and the overlay keeps what the driver does not drop; before, the overlay stays |
| Multiwrites.Concat | qemu-1.4.0/util/iov.c:301-339 | exactly the bytes asked for are appended, in at most as many vectors as the source has |
| Multiwrites.JoinKeepsIff | qemu-1.4.0/block.c:3449-3467 | joining keeps the effect if and only if the second request does not end before the first |
| Multiwrites.SwallowedRequest | qemu-1.4.0/block.c:3449-3467 | a contained request loses the tail of the one around it |
| Multiwrites.Join | qemu-1.4.0/block.c:3449-3467 | the bytes of the first up to the second, then all of the second |
| Multiwrites.OwnerIsLast | qemu-1.4.0/block.c:3425-3479 | what the last request that starts at or before a byte says is what the batch leaves there |
| Multiwrites.RisingNoneSwallowed | qemu-1.4.0/block.c:3425-3479 | requests that never end before an earlier one swallow nothing |
| Multiwrites.Sort | qemu-1.4.0/block.c:3430-3431 | in order of sectors, the same requests |
| Multiwrites.MergeOne | qemu-1.4.0/block.c:3436-3475 | one round joins the request onto the last one or appends it |
| Multiwrites.MergeSorted | qemu-1.4.0/block.c:3433-3479 | the merged batch does what the sorted one does if no request is swallowed, and only then if the vector limit is not reached; every merged byte is a byte of the batch; vector counts stay within the limit; neighbours left apart do not touch or have too many vectors |
| Multiwrites.Merge | qemu-1.4.0/block.c:3425-3479 | the same for any batch; each merged request ends where one of the batch ends; without overlaps and repetitions the merged requests lie one after the other and the last one ends where the last of the batch does |
| Multiwrites.MergedConsistent | qemu-1.4.0/block.c:3425-3479 | merging brings no disagreement about a byte into a batch |
| Multiwrites.AnyOrder | qemu-1.4.0/block.c:3526-3532 | requests that do not disagree about any byte may be written in any order |
| Multiwrites.MergeKeepsBatch | qemu-1.4.0/block.c:3425-3535 | without overlaps the merged requests, written in any order, do what the caller's unsorted batch does |
| Multiwrites.Completion.CallUser | qemu-1.4.0/block.c:3374-3385 | each callback, by its number, is called once with the error |
| Multiwrites.Completion.Complete | qemu-1.4.0/block.c:3387-3402 | the events are the results so far and, after the last, one call of each callback with the first error |
| Multiwrites.FirstErrorIs | qemu-1.4.0/block.c:3387-3402 | the error of a batch is its earliest failure |
| Multiwrites.Perform | qemu-1.4.0/block.c:2360-2362 | a write past the end of the disk is refused, another has the result of the device; only its own bytes change, to its data if it succeeds |
| Multiwrites.AwaitAll | qemu-1.4.0/block.c:3526-3532 | the requests come back once each in the order the environment picks, each with the result it gives or the refusal, and where all writes of a byte succeed the disk holds the last of them |
| Multiwrites.ArrivalsAll | qemu-1.4.0/block.c:3526-3532 | whatever the environment picks, exactly the requests in flight come back |
| Multiwrites.ErrorOf | qemu-1.4.0/block.c:3494-3535 | if the device fails no write, a batch inside the disk has no error; without overlaps and repetitions there is none if and only if every request is inside the disk |
| Multiwrites.AioMultiwrite | qemu-1.4.0/block.c:3494-3535 | without a medium every request gets the error and nothing is written; else what is submitted is the front of the merged array, and the results, the disk, the vector limit and the error are as above, each callback called once after the last result with the first error |
| BottomHalves.AioContext.Create | qemu-1.4.0/async.c:42-52 | a new bottom half is put in front, unscheduled |
| BottomHalves.AioContext.ScheduleBh | qemu-1.4.0/async.c:92-107 | of several calls only the first takes effect |
| BottomHalves.AioContext.CancelBh | qemu-1.4.0/async.c:109-118 | a pending call is dropped; deleting only marks |
| BottomHalves.NextIs | qemu-1.4.0/async.c:62-64 | the successor of a listed bottom half is the one it had when the walk began |
| BottomHalves.AioContext.Act | qemu-1.4.0/async.c:42-118 | each action of a callback, a poll included, has its effect and keeps the list in place |
| BottomHalves.AioContext.Perform | qemu-1.4.0/async.c:70 | whatever a callback does, the list only grows at its head |
| BottomHalves.AioContext.Visit | qemu-1.4.0/async.c:62-71 | the callback runs if and only if scheduled and not deleted, and uses up the schedule |
| BottomHalves.AioContext.WalkList | qemu-1.4.0/async.c:59-72 | the walk does what visiting a copy of the list would do; each one that was to be called and is not touched has run; the result tells whether a non-idle one ran |
| BottomHalves.AioContext.NextVisit | qemu-1.4.0/async.c:62-71 | one turn of the loop: the successor is the one the list had at the start, and the rest of the visits still give the same end |
| BottomHalves.AioContext.Sweep | qemu-1.4.0/async.c:76-87 | exactly the deleted ones go |
| BottomHalves.AioContext.Poll | qemu-1.4.0/async.c:54-90 | the same for a whole poll, nested or not: state and result are those of the reference; only the outermost sweeps, and then no deleted one is left; progress only if one was to be called, and always if one was and none of those is idle; each schedule is run once, dropped once or still pending |
| BottomHalves.RunsOnce | qemu-1.4.0/async.c:54-90 | a bottom half that no callback touches runs exactly once in a poll if it was scheduled, and not at all otherwise |
| BottomHalves.ThenIs | qemu-1.4.0/async.c:70 | a callback takes all its actions, in order |
| BottomHalves.ScheduledInWalk | qemu-1.4.0/async.c:59-87 | a bottom half scheduled by one before it in the list runs in the same poll, and one that deletes itself is swept |
| AioHandlers.LiveUnique | qemu-1.4.0/aio-posix.c:32-43 | a descriptor has at most one live handler, which the search finds |
| AioHandlers.EditedLive | qemu-1.4.0/aio-posix.c:45-94 | after the call the descriptor has the handler asked for or none, and other descriptors keep theirs |
| AioHandlers.AioContext.SetFdHandler | qemu-1.4.0/aio-posix.c:45-94 | the same, and nothing is freed while a walk is at a handler |
| AioHandlers.AioContext.Act | qemu-1.4.0/aio-posix.c:45-94 | each action of a callback has its effect; a poll from a callback frees nothing |
| AioHandlers.ThenIs | qemu-1.4.0/aio-posix.c:164-177 | a callback takes all its actions, in order |
| AioHandlers.AioContext.Dispatch | qemu-1.4.0/aio-posix.c:164-177 | exactly which of the two callbacks is called, in this order, also after the first has deleted the handler, which is still there; progress if and only if one of them was due |
| AioHandlers.AioContext.DispatchRead | qemu-1.4.0/aio-posix.c:166-173 | the report is taken and io_read called if it is due |
| AioHandlers.AioContext.DispatchWrite | qemu-1.4.0/aio-posix.c:174-177 | io_write is called if it is due after io_read |
| AioHandlers.OwnDispatched | qemu-1.4.0/aio-posix.c:164-177 | a callback that is due and whose descriptor no callback clears is called at least once, and exactly once if no callback polls |
| AioHandlers.DeletedStillWritten | qemu-1.4.0/aio-posix.c:166-177 | a handler deleted by its own io_read is still written to after a report, and not after select |
| AioHandlers.AioContext.Leave | qemu-1.4.0/aio-posix.c:179-187 | the next handler is read before the lock is let go; only a deleted one is freed, and only by the outermost walk |
| AioHandlers.AioContext.WalkHandlers | qemu-1.4.0/aio-posix.c:159-188 | the walk does what visiting a copy of the list would do; what was due when it began is called; progress if and only if something was; a nested walk frees nothing, an outermost one all that were deleted |
| AioHandlers.AioContext.NextStep | qemu-1.4.0/aio-posix.c:160-188 | one turn of the loop: the successor is the one the list had at the start, and the rest of the visits still give the same end |
| AioHandlers.AioContext.Ask | qemu-1.4.0/aio-posix.c:201-218 | a handler is selected for unless it is deleted or its io_flush reports no work |
| AioHandlers.AioContext.Collect | qemu-1.4.0/aio-posix.c:194-221 | the descriptors and the busy flag are those of asking each handler listed at the start: a handler that no callback sets is selected for, for the callbacks it has, unless its io_flush says there is no work; nothing is freed |
| AioHandlers.AioContext.DispatchSelected | qemu-1.4.0/aio-posix.c:228-264 | the callbacks that select finds ready, and whose handler has work, are called, exactly once if no callback polls, and no others are |
| AioHandlers.AioContext.Select | qemu-1.4.0/aio-posix.c:194-268 | if a handler has work, what select finds ready is dispatched, as above, and there is progress; without one nothing is called and the result stays |
| AioHandlers.AioContext.Poll | qemu-1.4.0/aio-posix.c:132-269 | state and result are those of the reference; it stops after the reported events exactly if there was progress and, unless a bottom half ran, it is not to block; every handler that no callback sets has each callback called for its report and for what select found, exactly that often if no callback polls; no report is left; a nested poll frees nothing, an outermost one what was deleted before it began |
| Dumps.PieceIs | qemu-1.4.0/dump.c:430-453 | the dumped part of a block is what block and filter have in common |
| Dumps.GetOffset | qemu-1.4.0/dump.c:417-462 | where the iteration puts the byte at an address, and nothing exactly for addresses it does not write |
| Dumps.DumpState.GetStartBlock | qemu-1.4.0/dump.c:668-694 | the first block in range, or failure exactly if there is none |
| Dumps.DumpState.GetNextBlock | qemu-1.4.0/dump.c:594-619 | the next block in range |
| Dumps.DumpState.WriteMemory | qemu-1.4.0/dump.c:391-414 | page by page and the rest, exactly the bytes asked for |
| Dumps.DumpState.Iterate | qemu-1.4.0/dump.c:622-649 | the pieces of all blocks follow each other, and nothing else is written |
| Dumps.InsertSorted | qemu-1.4.0/memory_mapping.c:18-46 | sorted by address, one mapping more |
| Dumps.SimpleList | qemu-1.4.0/memory_mapping.c:212-219 | one mapping per block, sorted |
| Dumps.FilterList | qemu-1.4.0/memory_mapping.c:221-246 | each mapping is clipped or dropped, and the list stays sorted |
| Dumps.ClippedArePieces | qemu-1.4.0/memory_mapping.c:221-246 | the filtered mappings are the dumped parts of the blocks, each once |
| Dumps.DumpState.Layout | qemu-1.4.0/dump.c:760-800 | the numbers fit their fields, section headers are used exactly if there are too many program headers for theirs, and memory_offset is the size of everything before the memory |
| Dumps.DumpState.WriteLoads | qemu-1.4.0/dump.c:464-496 | one header per mapping, with the offset of its bytes |
| Dumps.DumpState.Begin | qemu-1.4.0/dump.c:499-585 | what is written before the memory is as long as the layout said |
| Dumps.PlacedApart | qemu-1.4.0/dump.c:417-462 | headers for mappings at different addresses name disjoint ranges of the file |
| Dumps.ListApart | qemu-1.4.0/dump.c:464-496 | no two mappings with bytes in them start at the same address |
| Dumps.DumpState.Create | qemu-1.4.0/dump.c:651-666 | every header names exactly the guest memory its range of the file holds, at the place of its piece, no two the same byte of the file, and the pieces tile the file from memory_offset; blocks may be empty |
| Tlbs.AgreeWider | qemu-1.4.0/cputlb.c:226-233 | addresses that agree under a mask agree under every wider one |
| Tlbs.Widen | qemu-1.4.0/cputlb.c:228-231 | the loop ends with the tightest mask under which old region and new page agree |
| Tlbs.AfterFlushMisses | qemu-1.4.0/cputlb.c:81-91 | a flushed entry does not serve the page, and an entry elsewhere could not |
| Tlbs.FlushedTables | qemu-1.4.0/cputlb.c:112-119 | flushing one page in every mode leaves nothing that serves it and loses no other page |
| Tlbs.FieldHits | qemu-1.4.0/cputlb.c:262-310 | a page address with flag bits is matched by exactly the addresses of the page |
| Tlbs.Tlb.Flush | qemu-1.4.0/cputlb.c:55-79 | every entry of every mode is empty and the flush region is forgotten |
| Tlbs.Tlb.FlushPage | qemu-1.4.0/cputlb.c:93-122 | nothing serves the page in any mode; if the address lies in the flush region, as it does in every large page entered since the last full flush, nothing is left at all; else, so in particular without large pages, only that page is lost |
| Tlbs.Tlb.AddLargePage | qemu-1.4.0/cputlb.c:215-234 | the flush region holds all large pages; the first one is the region, and it grows no more than needed |
| Tlbs.MakeEntry | qemu-1.4.0/cputlb.c:262-310 | the entry serves exactly the allowed accesses to the page, with the flags that send others to the slow path |
| Tlbs.Tlb.SetPage | qemu-1.4.0/cputlb.c:239-311 | one entry changes, to such an entry, and every entry sits at its index |

## Left out

- Input and output: files, sockets, clocks, the kernel and the block drivers are parameters, choices or ghost
  state. Where an operation can fail in the source and the model has no error path, success is assumed
  (ioctls in `KvmSlots`, file writes in `Dumps`, the socket in `Migrations`).
- FlatViews: a region of exactly 2^64 bytes is allowed, although the source stops at its conversion to 64 bits
  in some paths; coalesced MMIO, ioeventfds, address_space_destroy and memory_region_destroy are not modelled.
- PhysMaps: section numbers are not cut to 15 bits, and each address space has its own nodes.
- Dispatch: only the region and offset an access reaches, not the data that goes through sub-page RAM.
- KvmSlots.KvmState.SetPhysMem: does not model, nor do EndToEnd.SetRange, HearEvent and FollowUpdate, RAM that
  reaches the last byte of the 64-bit space, where the end of the range wraps to zero and the overlap test of the
  source no longer tells overlap (`KvmSlots.OverlapTestIff`).
- KvmSlots: no dirty log sync, no log_start and log_stop, no migration log, and not the joining workaround for old
  kernels.
- Machines: only the first address space has listeners, and KVM starts with it. A range that ends above the address
  space of the radix tree, which the source would fold back into it, stops the machine.
- Migrations: XBZRLE is off, the RAM list does not change, regions consist of whole pages, and a page offset
  outside its block counts as a failure of the load. A list without any page is excluded: the scan would not end.
- Migrations.Migration.Migrate: does not model the rate limit and the time limit of a round, which only end it early.
- TrackedRequests: throttling, flushes, discard, write-zeroes and the dirty bitmap; reads that do not copy make
  no promise about concurrent guest writes.
- Commits: reopening with other options, and status queries that fail.
- Multiwrites.Sort: stands for qsort; only its contract is used, so requests of one sector may come in any order.
- Multiwrites.AioMultiwrite: a write takes effect when its result comes in, all at once; a failed one may leave
  anything in its range. The device is writable. The vectors a callback frees are not modelled.
- BottomHalves: waking the event loop, and the timeouts of its prepare phase.
- AioHandlers: that select itself reports correctly.
- Dumps: paging, 32-bit ELF, byte order, the contents of headers and notes, and negative filter bounds.
- Tlbs: sizes that are not powers of two, page addresses that are not page-aligned, the I/O TLB and the jump cache.
