# Verification of the memory management of a small x86_64 kernel

This project models the memory-management stack of the kernel in Dafny and proves what it keeps, over
every input and every run, together with two smaller cores that the stack rests on.

- **Bits**: powers of two, exclusive or, masks and alignment. **Seqs**: lists without repetitions.
- **PmmModel, PmmOps, PmmBuddies, PmmRoundTrip, PmmRegions, PmmReserve, PmmCount, PmmLost, PmmRuns, PmmLimit,
  PmmAddresses**: the buddy allocator as a value and its theorems. A state has the descriptors taken so far, one list
  of descriptors per order, the allocated list, and an owner for every page that was ever added (free,
  allocated, reserved or lost). **Pmm** is the allocator of `kernel/pmm.c` as a class over a descriptor
  array, lists and counters, each method proved against those functions.
- **Lists**: the circular doubly linked list of `kernel/list.h` on heap nodes, refined to sequences.
- **Slab**: slabs, caches and their three lists, as values and as a class.
- **PteBits, PageTables, TableTree**: page table entries as words; four-level tables as a heap of 512-entry
  tables (4-level paging, section 4.5 of the Intel 64 and IA-32 Architectures Software Developer's Manual,
  Volume 3A), some of which form a tree, while large pages and tables that hang elsewhere too stay outside it;
  and the theorem that a tree without empty tables is determined by the pages it maps. **TableRights**: which
  rights the tables on the way to a page leave it (section 4.6 of the same volume).
- **Frames, Ownership**: the buddy allocator as a source of single pages, and which of them the tables use.
- **KmapSteps, Kmap, KmapRegion, KmapPages, KmapFault**: mapping, unmapping and changing pages and ranges of
  pages (class `PageMap`), on top of the real allocator class.
- **Translation, KmapSeen, BootTables**: what the processor makes of the tables in memory, before and after
  those operations, for every page; and the tables that the kernel boots with, 2 MB pages and a table shared
  by two entries of the top table included, as ones that `PageMap` may start from.
- **RegionSpec, Regions**: the list of kernel mappings with splitting, merging, lookup and reference counts.
- **Window, Monitor**: the nested kernel's read-only window over the page types of `kernel/pcd.c`.
- **Printf**: the formatter. **FormatLaws**: what each of its specifiers prints, wherever it stands in a format.
  **Locks**: spinlocks and interrupt nesting as a protocol of any number of CPUs.

Imperative code is modelled by classes and methods with loops; each is tied by its postcondition to a
function or a relation on values, and the properties are lemmas about those. Integers are unbounded except
where the width matters (64-bit words and 32-bit results in the formatter, the 40-bit frame field of page
table entries). What the page allocator, a slab page or a `kmap_t` allocation answers is a parameter or the
modelled allocator itself.

## Where the code and its comments differ

The model follows the code. Each of these is proved as the exact condition under which the comment holds.

- Free buddies stay unmerged when the buddy search gives up after 1000 list entries: exactly if at some
  order the buddy is on its list behind those entries, and at all orders before within them
  (`FreeKeepsCoalesced`, with the run `FreeOverlooksBuddy`).
- Descriptors are never recycled, and blocks are dropped once they run out; which pages every operation
  loses is stated exactly (`StepFates`). Allocating and freeing again restores the free blocks exactly when
  descriptors suffice and the block served had no buddy in reach (`AllocFreeRoundTrip`, with the cases
  `RoundTripMerges` and `RoundTripDrops`).
- `free_pages` drifts away from the pages on the free lists: `Execute` states the difference after every
  sequence of operations, and it is zero exactly until the first allocation is served (`DriftExact`).
- `pmm_alloc` returns the address of the block, and 0 for a failure; page 0 can be added and is handed out like
  any other (`ZeroIsServed`). A caller takes that for a failure, and page 0 is gone: a failed `kmap_alloc_page`,
  `kmap_map_pages` or page fault leaves the pages in use as they were exactly if page 0 was not handed out
  (`FailedExactly`, `MapPages`), which is so if page 0 is not among the free pages.
- Mapping a page changes how no other page is translated, unless that is an alias: its walk comes to the same
  table by another way (`PageSeen`). With the boot tables that is the case: what is mapped below entry 0 of the
  top table appears below entry 0x1FD as well (`BootAlias`).
- Pages of a range on demand that is mapped without the present bit are never given back: mapping and unmapping
  restores the pages in use exactly if the flags have it (`MapThenUnmap`, with `LeakOnePage`).
- A region whose base is not aligned can take a page beyond its end (`AddRegionOvershoots`).
- A slab with a free object can stay on the full list (`FreeTheorem` of `Slab`, with the run
  `FullListHidesObject`). A cache whose slabs hold fewer than two objects hands out addresses that are no
  objects, and in one with objects smaller than a list node the nodes of the free objects overlap
  (`TwoAllocations`, `NodesFit`). Of the sizes accepted, 16 to 1024 have neither problem (`SoundSizes`).
- A new kernel mapping is linked behind, not before, the first mapping that starts above it
  (`InsertSorted`, with `InsertUnsorted`).
- Splitting a mapping on demand gives its upper half frames (`SplitDescribes`, with `SplitOnDemand`), and
  merging does not look at the frames (`MergeDescribes`, with `MergeMovesFrame`).
- `kmap_free_page` gives the page of a direct mapping to the allocator too, and `pmm_free` does not look at the
  order: a page that the allocator had handed out by itself is taken back, the first page of a larger block
  that it had handed out frees the whole block, and any other page changes nothing
  (`Frames.FrameSource.Give`).

## Model

| member | source | states |
|---|---|---|
| Bits.XorBit | kernel/pmm.c:39-42 | exclusive or with a power of two adds it to an aligned number whose bit is clear and takes it away when the bit is set |
| Bits.AndMask | kernel/pmm.c:289-296 | masking with a power of two minus one is the remainder |
| PmmModel.BuddyHalves | kernel/pmm.c:39-42 | a block and its buddy are the two halves of one aligned block of the next order, and the buddy of the buddy is the block |
| PmmModel.PushInv | kernel/pmm.c:53-69 | putting a block on the list of its order keeps lists, descriptors and page owners consistent |
| PmmModel.AddBlockInv | kernel/pmm.c:45-69 | a new block takes a fresh descriptor and its pages become free, or is dropped when there is no descriptor left |
| PmmModel.ShrinkInv | kernel/pmm.c:86-111 | the half that a split cuts off keeps the invariant |
| PmmModel.AbsorbInv | kernel/pmm.c:131-181 | merging with a free buddy keeps the invariant |
| PmmModel.DiscardInv | kernel/pmm.c:331-376 | giving up a block keeps the invariant; its pages in the range are reserved |
| PmmOps.SplitToInv | kernel/pmm.c:86-111 | splitting down to any order keeps the invariant |
| PmmOps.SplitToPages | kernel/pmm.c:86-111 | after a split the first pages stay with the block; of its other pages exactly those in front of the last half that still found a descriptor are lost, the rest is free |
| PmmOps.AllocTheorem | kernel/pmm.c:387-417 | an allocation is served exactly if some free block is large enough, from a smallest such block; its first pages are handed out, of the rest exactly the halves without descriptors are lost and the others stay free, and no other page changes hands |
| PmmOps.CoalesceInv | kernel/pmm.c:131-181 | coalescing keeps the invariant |
| PmmOps.CoalesceLists | kernel/pmm.c:131-181 | coalescing stops only when no buddy is found, and touches no list but those of the orders it goes through |
| PmmOps.CoalescePages | kernel/pmm.c:131-181 | coalescing takes over free pages only, and all pages of the merged block |
| PmmOps.FreeTheorem | kernel/pmm.c:423-449 | freeing a block makes its pages free; free pages stay free and every other page keeps its owner |
| PmmOps.FreeAppends | kernel/pmm.c:53-69 | a freed block, merged, goes to the back of the list of its order, and the lists above are not touched |
| PmmOps.AllocTakesFront | kernel/pmm.c:114-128 | the block served is the front of the first list from the order on that is not empty; it joins the back of the allocated list with the order asked for |
| PmmBuddies.AllocKeepsCoalesced | kernel/pmm.c:86-128 | no two free blocks are buddies: kept by every allocation |
| PmmBuddies.MergesInReach | kernel/pmm.c:131-181 | merging goes up exactly as long as the buddy of the enclosing aligned block is among the first 1000 entries of its list, and gives that aligned block |
| PmmBuddies.FreeKeepsCoalesced | kernel/pmm.c:131-181 | kept by a free exactly if there is no order at which the buddy of the enclosing block is on its list behind the first 1000 entries while at all orders before it is among them |
| PmmBuddies.FreeKeepsCoalescedShortLists | kernel/pmm.c:131-181 | kept by every free while no list is longer than 1000 entries |
| PmmBuddies.NearBuddyMerges | kernel/pmm.c:131-181 | a freed block of an order below 9 whose buddy is at any of the first 1000 places of its list grows |
| PmmLimit.FreeOverlooksBuddy | kernel/pmm.c:145-147 | a run from initialization on after which all free blocks are merged and a free then leaves two buddies unmerged |
| PmmRoundTrip.FreeFindsAllocated | kernel/pmm.c:423-449 | the address an allocation returns is found again by free |
| PmmRoundTrip.CoalesceUndoesSplit | kernel/pmm.c:86-181 | coalescing a block that was just split merges it back, half by half |
| PmmRoundTrip.AllocFreeRoundTrip | kernel/pmm.c:387-449 | allocating and freeing again gives back the same free blocks exactly if there are descriptors for the split and the block served has no buddy among the 1000 entries behind it |
| PmmRoundTrip.AllocFreeRoundTripCoalesced | kernel/pmm.c:387-449 | without free buddies and with descriptors, it gives back the same free blocks, allocated list and page owners |
| PmmLimit.RoundTripMerges | kernel/pmm.c:387-449 | a run in which allocating and freeing merges two blocks that were apart before |
| PmmLimit.RoundTripDrops | kernel/pmm.c:45-111 | a run that allocates and frees one page until the descriptors are used up; doing it once more loses half a block |
| PmmLimit.ZeroIsServed | kernel/pmm.c:387-417 | a run in which an allocation hands out page 0, whose address is the one for a failure |
| PmmRegions.BestOrderFits | kernel/pmm.c:285-297 | the block chosen for a tile is aligned and fits |
| PmmRegions.BestOrderLargest | kernel/pmm.c:285-297 | and is the largest such block |
| PmmRegions.TileTheorem | kernel/pmm.c:262-308 | adding a range covers exactly its pages with blocks inside it, free unless lost for want of descriptors, and keeps the invariant and everything else |
| PmmRegions.TileDescs | kernel/pmm.c:262-308 | the blocks added are the tiles in order, as far as descriptors last |
| PmmRegions.TilesNotBuddies | kernel/pmm.c:262-308 | no two tiles of a range are buddies below the order they were limited to |
| PmmReserve.BlockReservedTheorem | kernel/pmm.c:331-376 | reserving out of one block reserves its pages in the range and gives the others back |
| PmmReserve.WalkTheorem | kernel/pmm.c:326-374 | the walk that removes entries while it iterates reserves every entry the list had |
| PmmReserve.ReserveTheorem | kernel/pmm.c:315-379 | after reserving no free block meets the range, all free pages in it are reserved, free pages outside it are still free (descriptors permitting) and no other page changes |
| PmmCount.WeightIsFreePages | kernel/pmm.c:53-69 | the block sizes on the free lists add up to the number of free pages |
| PmmLost.DescribedTiles | kernel/pmm.c:262-308 | adding a range describes its pages up to the first tile that finds no descriptor |
| PmmLost.TileLoses | kernel/pmm.c:262-308 | the pages from there on are lost, those before it are free |
| PmmLost.ReserveLosesTheorem | kernel/pmm.c:315-379 | a reservation loses exactly the pages it puts back after the last descriptor, in the order of lists, entries and addresses |
| PmmRuns.StepTheorem | kernel/pmm.c:262-449 | every operation keeps the invariant and brings exactly the pages of an added region under management |
| PmmRuns.RunGood | kernel/pmm.c:262-449 | the invariant holds at every point of every run from initialization on |
| PmmRuns.StepFates | kernel/pmm.c:262-449 | every operation loses exactly the pages of the blocks refused for want of a descriptor, and reserves exactly the free pages of a reserved range |
| PmmRuns.RunFates | kernel/pmm.c:262-449 | a page is lost or reserved at a point of a run exactly if an operation before it lost or reserved it |
| PmmRuns.RunConserves | kernel/pmm.c:262-449 | at every point of every run a page has been added exactly if it is in a block on a free list, in a block on the allocated list, was reserved by an operation or lost by one for want of descriptors; it is only one of these, and none is lost while descriptors last |
| PmmRuns.RunRetires | kernel/pmm.c:315-379 | pages once reserved or lost stay so for the rest of the run |
| PmmRuns.RunSeparates | kernel/pmm.c:262-449 | at every point of every run listed blocks are aligned and on the list of their order, no descriptor is listed twice and no two blocks share a page |
| PmmRuns.AddRegionOvershoots | kernel/pmm.c:270-271 | a page beyond the end of a region is added exactly if the cuts at base and size together are less than a page |
| PmmRuns.Perform | kernel/pmm.c:262-449 | the class performs every operation as a step of the model, and the difference between `free_pages` and the free lists grows by the size of the block an allocation is served from or the size gained in merging |
| PmmRuns.Execute | kernel/pmm.c:262-449 | after every sequence of operations that adds no page twice `free_pages` is the number of free pages plus the sum of these amounts |
| PmmRuns.DriftExact | kernel/pmm.c:53-69 | the sum is never negative, and zero exactly while no allocation has been served |
| PmmAddresses.AddedExactly | kernel/pmm.c:262-308 | a region adds its pages from the first page boundary at or above its base on, as many as its size holds |
| PmmAddresses.ReservedExactly | kernel/pmm.c:315-379 | a reservation reserves exactly the free pages that lie in the region as a whole |
| PmmAddresses.FreesExactly | kernel/pmm.c:423-449 | a free takes effect exactly if its order is at most 9 and an allocated block starts at the address; then the pages of that block are free, whatever the order given |
| Pmm.BuddyAddr | kernel/pmm.c:39-42 | the buddy address is the address of the buddy page |
| Pmm.AlignedAddr | kernel/pmm.c:289-296 | the alignment test on addresses is the alignment of the page number |
| Pmm.Pmm.constructor | kernel/pmm.c:191-214 | empty lists, no descriptors, no drift |
| Pmm.Pmm.AllocBlock | kernel/pmm.c:45-50 | the next descriptor, or none once all are taken |
| Pmm.Pmm.AddFreeBlock | kernel/pmm.c:53-69 | adds a block or drops it, with list, count and page counter |
| Pmm.Pmm.SplitBlock | kernel/pmm.c:86-111 | splits down to the target order and hands the block out; `free_pages` drifts by the size of the block |
| Pmm.Pmm.FindFreeBlock | kernel/pmm.c:114-128 | serves from the first order that has a block |
| Pmm.Pmm.Allocate | kernel/pmm.c:387-417 | the new state is that of the model, the address that of the block served or 0, and the drift grows by the size of the block it was cut from |
| Pmm.Pmm.SearchBuddy | kernel/pmm.c:136-160 | the position of the buddy on its list, not looking further than 1000 entries |
| Pmm.Pmm.CoalesceBlock | kernel/pmm.c:131-181 | coalesces as the model does and puts the result on its list |
| Pmm.Pmm.FindAllocatedBlock | kernel/pmm.c:25-36 | the first allocated block at an address |
| Pmm.Pmm.Deallocate | kernel/pmm.c:423-449 | frees the block at the address, or nothing if there is none or the order is too large; the drift grows by the size gained in merging |
| Pmm.Pmm.LargestOrder | kernel/pmm.c:285-297 | the largest order of an aligned block that fits |
| Pmm.Pmm.AddRegion | kernel/pmm.c:262-308 | tiles the rounded range; no drift |
| Pmm.Pmm.AddPages | kernel/pmm.c:342-371 | gives back the pages of a block on one side of the range |
| Pmm.Pmm.ReserveOne | kernel/pmm.c:331-376 | reserves out of one block |
| Pmm.Pmm.ReserveList | kernel/pmm.c:326-374 | meets every entry that the list had |
| Pmm.Pmm.ReserveRegion | kernel/pmm.c:315-379 | reserves the range rounded inwards; no drift |
| Lists.Init | kernel/list.h:15-18 | a ring of the head alone |
| Lists.Empty | kernel/list.h:21-23 | whether the list has no entries |
| Lists.PushFront | kernel/list.h:26-31 | prepends, with both pointers of every node right |
| Lists.PushBack | kernel/list.h:34-39 | appends |
| Lists.Remove | kernel/list.h:42-47 | the others stay linked in order, the node is left alone |
| Lists.PopFront | kernel/list.h:50-60 | removes and returns the first entry, or nothing |
| Lists.InsertAfter | kernel/list.h:26-31 | pushing to an entry instead of the head inserts after it |
| Lists.MoveToFront | kernel/list.h:26-47 | moving an entry between two lists leaves both whole |
| Lists.Rotate | kernel/list.h:15-60 | a ring may be read from any of its nodes |
| Lists.RemoveWhere | kernel/list.h:71-72 | the safe iteration visits every original entry exactly once, in order, while the body removes the current one |
| Slab.ObjectInPage | kernel/slab.c:86-107 | an object lies behind the header in the page that masking its address gives |
| Slab.ObjectsDisjoint | kernel/slab.c:86-107 | different objects do not overlap |
| Slab.AllocTheorem | kernel/slab.c:171-243 | an allocation keeps the invariant and hands out exactly one object that was not live, or nothing when no page is to be had |
| Slab.FreeTheorem | kernel/slab.c:248-294 | freeing a live object keeps the invariant and frees exactly that object; its slab is on the full list afterwards exactly if it was on it, neither first nor last, and has another live object |
| Slab.FreeMoves | kernel/slab.c:248-294 | where a free leaves the slab: the first and the last slab of the full list at the front of the partial list; any other at the front of the free list if that was its last live object, and else in its place; the object is the first to be handed out next |
| Slab.AllocPicks | kernel/slab.c:171-243 | which object is handed out: the first free one of the first partial slab, else of the first free slab, else the one 56 bytes into a new page; and how the lists change |
| Slab.Layout | kernel/slab.h:50-56 | the header of a slab ends with the head of its free list |
| Slab.LiveCount | kernel/slab.c:171-294 | the use count of a slab is the number of its live objects |
| Slab.RunTheorem | kernel/slab.c:171-294 | at every point of every run of a cache with room for two objects in a slab and a list node in an object, lists and counters are right and live objects are disjoint and clear of the headers |
| Slab.NodesFit | kernel/slab.c:86-99 | the list nodes of the free objects lie in the page and apart exactly if objects are no smaller than a node |
| Slab.SoundSizes | kernel/slab.c:138-150 | of the sizes accepted exactly 16 to 1024 have room for two objects in a slab and a node in an object |
| Slab.TwoAllocations | kernel/slab.c:205-240 | two allocations from a new cache are objects and its list nodes are apart exactly if a slab holds two objects and an object a node; with fewer objects the list head in the header is handed out |
| Slab.FullListHidesObject | kernel/slab.c:273-275 | a run that fills three slabs and frees from the middle one leaves it on the full list with a free object |
| Slab.PowerOfTwoTest | kernel/slab.c:138-146 | the bit test accepts exactly the powers of two |
| Slab.SlabCache.NewSlabAt | kernel/slab.c:64-107 | all objects of the page, in order |
| Slab.SlabCache.TakeAny | kernel/slab.c:171-243 | allocates from the partial list, else the free list, else a new slab |
| Slab.SlabCache.AllocObject | kernel/slab.c:171-243 | keeps the invariant and hands out one object |
| Slab.SlabCache.GiveBack | kernel/slab.c:248-294 | frees as the model does |
| Slab.SlabCache.FreeObject | kernel/slab.c:248-294 | keeps the invariant and frees one object |
| Slab.CreateCache | kernel/slab.c:132-166 | a cache exactly for powers of two up to a page |
| PteBits.PhysIsMask | kernel/kmap.c:84-86 | the frame address is the entry under the mask |
| PteBits.EntryParts | kernel/kmap.c:184 | frame and flags can both be read back from an entry |
| PageTables.SetLookup | kernel/kmap.c:184 | writing the entry of a page changes how that page is mapped and no other |
| PageTables.AttachLookup | kernel/kmap.c:130-180 | hanging up or taking away an empty table changes no page |
| PageTables.AttachTree | kernel/kmap.c:130-180 | the tables are a tree after a table is added |
| PageTables.DetachTree | kernel/kmap.c:253-285 | and after an empty one is taken away |
| TableTree.SamePagesSameTree | kernel/kmap.c:105-291 | a tree without empty tables that has all of k0, maps the same pages and leaves the rest alone is k0, table by table |
| TableTree.DetachExtends | kernel/kmap.c:253-285 | taking away an empty table removes nothing that a tree without empty tables had |
| TableTree.DetachAttach | kernel/kmap.c:156-180 | taking away the table just hung up restores the tables |
| TableTree.SameOther | kernel/kmap.c:105-291 | a walk that meets a large page or leaves the tree otherwise does so at the same entry before and after |
| TableRights.AttachWays | kernel/kmap.c:130-180 | a new table whose entry gives all rights leaves the rights of every way through the tables as they were |
| TableRights.DetachWays | kernel/kmap.c:253-285 | taking an empty table away leaves the ways to mapped pages their rights, and no way has less |
| TableRights.WideStays | kernel/kmap.c:105-291 | once the tables limit no rights, that stays so whatever is mapped, unmapped or given other flags |
| Frames.AllocView | kernel/pmm.c:387-417 | an order 0 allocation takes one page from the free ones and fails exactly if there are none |
| Frames.FreeView | kernel/pmm.c:423-449 | freeing a page handed out by itself gives it back; freeing the first page of a larger block gives back all of the block; freeing any other page changes nothing |
| Frames.FrameSource.Take | kernel/pmm.c:387-417 | the allocator as a page source: one page leaves the free ones; the answer is 0 exactly if none is free or the page is page 0 |
| Frames.FrameSource.Give | kernel/pmm.c:423-449 | the same of the allocator as a page source, for every address |
| Ownership.TakeOwned | kernel/kmap.c:113-180 | a page just taken is no table and not mapped |
| Ownership.ClearIdle | kernel/kmap.c:236-243 | a page whose entry was cleared is mapped nowhere else if the allocator had handed it out |
| KmapSteps.WalkedStep | kernel/kmap.c:130-180 | creating tables maps nothing, limits the rights of no page and takes exactly the pages of the new tables |
| KmapSteps.MappedFacts | kernel/kmap.c:130-184 | mapping a page changes no other page, adds tables only, limits no rights and leaves no table empty |
| KmapSteps.RemovedPruned | kernel/kmap.c:253-285 | reclaiming an emptied table gives its page back, changes no page and leaves pages that are mapped the rights they had |
| KmapSteps.ReflagFacts | kernel/kmap.c:506-511 | new flags keep the frame and the ownership of pages |
| KmapSteps.FailedExactly | kernel/kmap.c:113-180 | after a failure the pages in use are as before exactly if page 0 was not handed out |
| Kmap.PageMap.ReadEntry | kernel/kmap.c:84-86 | an entry as the processor reads it |
| Kmap.PageMap.TableEmpty | kernel/kmap.c:246-252 | whether no entry of a table is present |
| Kmap.PageMap.EnsureTable | kernel/kmap.c:130-142 | the next table, created if it is missing, and then entered as present, writable and for user code; the tables do not change if no page is free, or page 0 is handed out |
| Kmap.PageMap.WalkCreate | kernel/kmap.c:130-181 | the level 0 table, with every missing table created; or the tables exactly as before, and then fewer free pages than levels and the same pages in use, or page 0 was handed out |
| Kmap.PageMap.Reclaim | kernel/kmap.c:253-257 | takes an empty table away and gives its page back |
| Kmap.PageMap.AllocPage | kernel/kmap.c:105-190 | maps the page to a page that was free, changes no other page and limits the rights of none; on failure the tables are as before, and either fewer than four pages were free and those in use are as before, or page 0 was handed out and is all that is gone |
| Kmap.PageMap.MapDirect | kernel/kmap.c:724-800 | maps the page to the given frame, changes no other page and limits the rights of none; fails only for a misaligned frame, without effect, or as above |
| Kmap.PageMap.Remove | kernel/kmap.c:201-291 | unmaps from one table down, and no table but perhaps that one is left empty |
| Kmap.PageMap.FreePage | kernel/kmap.c:201-291 | unmaps the page and no other, returns its frame or 0, gives back exactly the frame and the tables that are gone, leaves no table empty and takes nothing that a tree without that page had |
| Kmap.PageMap.ModifyPage | kernel/kmap.c:477-513 | a mapped page keeps its frame and gets the new flags; nothing else changes |
| Kmap.PageMap.IsMapped | kernel/kmap.c:910-923 | whether the page is mapped |
| KmapRegion.KeyValue | kernel/kmap.c:64-67 | the four indices make up the page number |
| KmapRegion.KeysDiffer | kernel/kmap.c:64-67 | pages of a range up to the size of the address space have different indices |
| KmapRegion.SpanDistinct | kernel/kmap.c:822-843 | so a range up to 2^48 bytes has no page twice |
| KmapRegion.FromMapped | kernel/kmap.c:813-846 | mapping a page keeps the account: pages handed out since the start are new tables or newly mapped |
| KmapRegion.FromUnmapped | kernel/kmap.c:851-864 | and so does unmapping one |
| KmapRegion.FromBack | kernel/kmap.c:813-864 | once the pages are mapped as at the start, tables and pages in use are those of the start |
| KmapRegion.MappedOnce | kernel/kmap.c:105-190 | two pages mapped to the same page of the allocator are the same page |
| KmapPages.UnmapPages | kernel/kmap.c:851-864 | unmaps exactly the pages of the range, gives back exactly their frames and the tables that are gone as far as they had been handed out, and leaves no table empty |
| KmapPages.MapPages | kernel/kmap.c:813-846 | maps every page of the range to consecutive frames or to pages that were free, with the flags; on failure unmaps what it had mapped, and if those pages were unmapped before and no table empty, tables and pages in use are as before, page 0 aside if it was handed out; fails only for a misaligned base, with fewer than four free pages per page of the range, or when page 0 is handed out |
| KmapPages.MapThenUnmap | kernel/kmap.c:813-864 | mapping an unmapped range and unmapping it again restores the very tables and the pages in use if the flags have the present bit; for a range on demand exactly then |
| KmapPages.LeakOnePage | kernel/kmap.c:184 | one page mapped on demand without the present bit: four pages are taken and none is given back |
| KmapPages.ModifyFlags | kernel/kmap.c:469-518 | every mapped page of the range keeps its frame and gets the new flags; nothing else changes |
| KmapFault.HandlePageFault | kernel/kmap.c:882-943 | maps the faulting page if it lies in a pageable mapping and was not mapped, and nothing else; fails only outside such mappings, for want of pages, or when page 0 is handed out; reference counts are as before |
| KmapSeen.SeenTheorem | kernel/kmap.c:105-291 | whatever is done to the tree, every page of the address space is translated as before, rights included, or, before and after, as a page of the tree whose mapping changed, with the same limit to its rights; large pages and shared tables included |
| KmapSeen.PageSeen | kernel/kmap.c:105-291 | a page that is mapped, unmapped or given other flags is translated so, with no more rights than the tables on the way before give; no other page changes but its aliases, which are translated as it is, with a limit to the rights that does not change; a page whose walk stays in the tree is no alias |
| KmapSeen.MappedSeen | kernel/kmap.c:139-184 | a page mapped where the tables on the way were missing or give all rights can be written, used by user code and executed exactly as the flags given say |
| KmapSeen.SealedStays | kernel/kmap.c:105-291 | that foreign ways into the tables come back only to tables that stay, and never to free pages, is kept by every operation |
| KmapSeen.MapSeen | kernel/kmap.c:813-846 | after mapping a range the processor sees its pages with their frames and flags, and with the rights of the flags as far as the tables that were there before do not limit them: exactly those of the flags where they do not; every other page as before, aliases aside |
| KmapSeen.UnmapSeen | kernel/kmap.c:851-864 | after unmapping a range its pages fault, and every other page is seen as before, rights included, aliases aside |
| KmapSeen.ModifySeen | kernel/kmap.c:469-518 | after changing flags the pages of the range are seen with their frames, the new flags and the rights of those as far as the tables on the way do not limit them; every other page as before, aliases aside |
| BootTables.BootMeets | arch/x86_64/boot.S:224-334 | the boot tables, with 2 MB pages and a shared table, are ones that the mapping code may start from |
| BootTables.BootWide | arch/x86_64/boot.S:224-334 | the boot tables that the mapping code works on limit no rights |
| BootTables.BootOpen | arch/x86_64/boot.S:224-334 | which pages can be mapped there: none that lies in a large page or below the second way to the shared table |
| BootTables.BootAlias | arch/x86_64/boot.S:224-239 | whatever is mapped below the first entry of the top table is seen below entry 0x1FD as well, with the same rights |
| RegionSpec.SplitBacking | kernel/kmap.c:543-553 | a split keeps what is behind every address exactly if the mapping has frames |
| RegionSpec.SplitDescribes | kernel/kmap.c:523-566 | a split changes what a lookup tells exactly for the upper half of a mapping on demand, and no properties |
| RegionSpec.MergeBacking | kernel/kmap.c:600-603 | a merge keeps what is behind every address exactly if both are on demand or the frames follow on |
| RegionSpec.MergeDescribes | kernel/kmap.c:579-611 | among disjoint mappings a merge changes no lookup but, under that condition, the frames of the second |
| RegionSpec.SplitMerge | kernel/kmap.c:523-611 | the halves can be merged exactly if the mapping had one reference, and that gives the mapping back, page count included |
| RegionSpec.MergeSplit | kernel/kmap.c:523-611 | splitting a merged mapping gives the two back exactly if the frames follow on |
| RegionSpec.InsertSorted | kernel/kmap.c:385-397 | the list stays sorted exactly if no mapping starts above the new one |
| RegionSpec.InsertAdds | kernel/kmap.c:385-397 | inserting changes nothing else |
| RegionSpec.InsertUnsorted | kernel/kmap.c:389-391 | two mappings that end up out of order |
| RegionSpec.SplitOnDemand | kernel/kmap.c:547 | a mapping on demand whose second page gets a frame by a split |
| RegionSpec.MergeMovesFrame | kernel/kmap.c:600-603 | two mappings whose frames do not follow on: merged, an address has another frame behind it |
| Regions.RegionList.Create | kernel/kmap.c:343-403 | fails exactly for bounds that are not those of pages or for want of memory; else inserts with one reference |
| Regions.RegionList.Split | kernel/kmap.c:523-566 | succeeds exactly at a page inside the mapping; page counts stay right |
| Regions.RegionList.Merge | kernel/kmap.c:579-611 | succeeds exactly for adjacent mappings with equal properties and one reference each |
| Regions.RegionList.Lookup | kernel/kmap.c:629-647 | the first mapping that holds the address, with one more reference, or none |
| Regions.RegionList.Put | kernel/kmap.c:446-456 | one reference less, and the mapping goes with the last |
| Regions.RegionList.Destroy | kernel/kmap.c:413-431 | removes a mapping exactly if it has no references |
| Regions.RegionList.IsPageable | kernel/kmap.c:684-692 | says what the lookup tells and leaves the reference counts as they were |
| Window.WindowSlot | kernel/monitor/monitor.c:296-302 | every page's place in the window is below the window's slots of the top table |
| Window.WindowKeysDiffer | kernel/monitor/monitor.c:296-302 | different pages have different places |
| Window.SameOutside | kernel/monitor/monitor.c:351-478 | if only the window's slots and new tables change, every page outside the window is translated as before |
| Window.SameInside | kernel/monitor/monitor.c:351-478 | a page of the window is translated to the frame that the window's tree maps it to, neither to be written nor used by user code |
| Monitor.WindowTheorem | kernel/monitor/monitor.c:351-510 | pages outside the window are translated as before, rights included; pages in it not at all or to the page they stand for, present only, which then was the nested kernel's or is a new table of the window |
| Monitor.WindowShows | kernel/monitor/monitor.c:489-510 | every page of the nested kernel is seen unless mapping it failed |
| Monitor.WindowHides | kernel/monitor/monitor.c:489-510 | the window's page of any other page faults, unless that has become a table of the window; so does that of a page whose mapping failed |
| Monitor.Pcd.constructor | kernel/pcd.c:128-134 | all pages are the nested kernel's |
| Monitor.Pcd.SetType | kernel/pcd.c:24-36 | changes the type of a tracked page only |
| Monitor.Monitor.NewTable | kernel/monitor/monitor.c:310-339 | a page that is none of the tables in use, marked as a table page; none only if no page is free or page 0 is handed out |
| Monitor.Monitor.NextTable | kernel/monitor/monitor.c:358-469 | the next table of the window, created if it is missing; one that is there is refused exactly if it is below the first megabyte, and one that is missing only without free pages or when page 0 is handed out |
| Monitor.Monitor.CreateRoMapping | kernel/monitor/monitor.c:351-478 | maps the page read-only and changes no other page of the window, and then no table that was on the way is below the first megabyte; on failure one is, or a page for a table was wanted in vain, and only empty tables are added |
| Monitor.Monitor.CreateRoMappings | kernel/monitor/monitor.c:489-510 | every page that was the nested kernel's is in the window unless its mapping failed, nothing else is but tables of the window made meanwhile, and exactly those tables changed their type |
| Monitor.Monitor.OpenWindow | kernel/monitor/monitor.c:489-510 | the same in terms of what the processor sees before and after, page by page: at 0xFFFF880000000000 + 4096 j, page j of type NK_NORMAL or NK_PGTABLE, neither to be written nor used by user code, unless it failed; a fault for OK_NORMAL and NK_IO pages that have not become tables, and for those that failed; every page outside the window as before; exactly the new tables changed their type |
| Printf.UintRoundTrip | lib/minilibc/printf.c:55-89 | reading the digits back gives the value, and there is no leading zero |
| Printf.IntRoundTrip | lib/minilibc/printf.c:95-110 | the same for signed values, the most negative one included: a minus sign exactly for negative ones and no zero behind it |
| Printf.WordLength | lib/minilibc/printf.c:56-80 | no 64-bit value has more than 20 digits, so the scratch buffer is never left |
| Printf.EmitChar | lib/minilibc/printf.c:23-33 | appends to the output, of which the buffer holds what fits |
| Printf.EmitString | lib/minilibc/printf.c:36-52 | appends a string and counts all of it |
| Printf.BuildDigits | lib/minilibc/printf.c:64-80 | the digits in reverse, within the scratch buffer |
| Printf.EmitUint | lib/minilibc/printf.c:55-89 | appends the digits |
| Printf.EmitInt | lib/minilibc/printf.c:95-110 | appends sign and digits for every long |
| Printf.Convert | lib/minilibc/printf.c:140-262 | handles one conversion, malformed and truncated ones included |
| Printf.FormatNext | lib/minilibc/printf.c:130-268 | each step consumes part of the format |
| Printf.Vsnprintf | lib/minilibc/printf.c:114-281 | for every format, arguments and size the buffer holds the first size-1 characters of the full text and a terminator, nothing is written for size 0, and the result is the full length whatever the size (section 7.19.6.5 of ISO/IEC 9899:1999) |
| Printf.Measured | lib/minilibc/printf.c:114-281 | a first call with size 0 measures what a second call with room writes |
| FormatLaws.RenderSplit | lib/minilibc/printf.c:130-268 | a format that ends with a whole piece and what follows it are written one after the other, the second with the arguments that the first left |
| FormatLaws.UnsignedLaw | lib/minilibc/printf.c:185-198 | %u, %x and %X print the low 32 bits of their argument in base 10 or 16, in the letter case of the specifier and without leading zeros |
| FormatLaws.LongLaw | lib/minilibc/printf.c:217-228 | %lu, %lx and %lX print all 64 |
| FormatLaws.PointerLaw | lib/minilibc/printf.c:200-215 | %p prints 0x and all 64 bits in base 16 |
| FormatLaws.SignedLaw | lib/minilibc/printf.c:179-184 | %d and %i print the low 32 bits in two's complement |
| FormatLaws.SignedLongLaw | lib/minilibc/printf.c:217-228 | %ld and %li print all 64 |
| FormatLaws.TextLaw | lib/minilibc/printf.c:147-178 | %s prints the string or (null), %c the low byte, %% a percent sign |
| FormatLaws.UnknownLaw | lib/minilibc/printf.c:228-262 | unknown specifiers print literally; a % at the end is dropped |
| FormatLaws.NumberUnique | lib/minilibc/printf.c:55-89 | value, base and letter case leave only one text without leading zeros |
| Locks.CpuStepInv | arch/x86_64/idt.h:100-174 | each step of a CPU keeps its nesting depth, saved flags and interrupt flag consistent |
| Locks.NextInv | arch/x86_64/spinlock_arch.h:53-125 | every step of every CPU keeps the lock words and all CPUs consistent |
| Locks.RunInv | arch/x86_64/spinlock_arch.h:53-125 | so they are at every point of every interleaving |
| Locks.MutualExclusion | arch/x86_64/spinlock_arch.h:53-125 | at most one CPU holds a lock, no CPU twice (handlers included), and the word is 1 exactly if one does |
| Locks.InterruptsOff | arch/x86_64/idt.h:100-174 | a CPU inside or entering a section has interrupts off, and outside all sections the flag it chose itself |
| Locks.ChosenOutside | arch/x86_64/idt.h:100-174 | sections never change the flag that was chosen outside them |
| Locks.WaiterCanTake | arch/x86_64/spinlock_arch.h:53-67 | a waiting CPU whose lock word is 0 can come to hold the lock by two steps of its own |
| Locks.TryLock | arch/x86_64/spinlock_arch.h:88-92 | a trylock can take the lock exactly if its word is 0, and be refused exactly if it is not |
| Locks.InAndOut | arch/x86_64/spinlock_arch.h:109-125 | a CPU outside all sections can take a free lock and release it by steps of its own, and everything is as before |

## Left out

- 64-bit wrap-around of addresses and 32-bit wrap-around of reference counts: sizes and counts are unbounded.
- What the mapping code does to a page whose own walk meets a large page, or a table shared with another entry
  at which the tree was cut: it does not test the large-page bit and would take the page for a table. All
  operations of `PageMap` are about pages whose walk meets none.
- KmapSeen.SeenTheorem: ways from outside the tree to one of its tables in another level, such as recursive
  mappings, or to a table that unmapping could reclaim, are not covered.
- Kmap.PageMap.AllocPage: flags that reach into the frame field of an entry are not modelled; flags without the
  present bit are (the page is then taken but not mapped).
- Kmap.PageMap.MapDirect: the frame must not be a table, free, the first page of a larger block, or mapped
  elsewhere if the allocator handed it out, because unmapping will give it to the allocator; frames beyond the
  40-bit field are not modelled.
- KmapPages.MapPages: frames of a direct range must not be the allocator's, as for device memory.
- KmapPages.MapThenUnmap: the same; frames of the allocator would be freed by unmapping.
- Kmap.PageMap.ModifyPage: flags that reach into the frame field are not modelled.
- KmapPages.ModifyFlags: the same.
- Kmap.PageMap.WalkCreate: one method stands for the three copies of the same step in each of two functions.
- The TLB and its invalidation, control registers, and the order of memory accesses: operations are atomic. Rights
  are what the entries of a walk give; when the processor makes supervisor code obey them is not modelled.
- Locking around the allocator, slabs and mappings, and races between page faults: the protocol of the locks is
  modelled by itself.
- Locks.RunInv: a nesting depth per CPU is assumed; the source's CPU index is one global.
- Read-write locks, and the lock variants that enable interrupts unconditionally.
- `pmm_init`'s parsing of boot information, and the page type set by the allocator's wrapper of `pmm_alloc`.
- Slab.SlabCache.NewSlabAt: free lists are sequences, which stands for the nodes in memory exactly while these
  are apart (`NodesFit`); what overlapping nodes of objects smaller than 16 bytes do is not modelled.
- Names and debug output of mappings, `kmap_lookup_range` and `kmap_get_monitor_protection`: easy variants of
  `Lookup` and `IsPageable`.
- Monitor.Monitor.NextTable: the branches for tables of the identity map and for large pages are shown to be
  unreachable in a window whose slots were empty.
- Monitor.Monitor.CreateRoMappings: at most 2^28 pages, the number of frames an entry can name.
- `monitor_map_page`, `monitor_init`, the trampoline and the verification of invariants at run time.
- Scheduler, threads, processes, virtual memory areas, interrupt controllers, devices, system calls and logging.
