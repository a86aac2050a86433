# A model of the kernel's data structures and step machines

This project models the parts of a small AArch64 kernel that do not depend on hardware, and proves what they keep over every
call and every run. Components, each in its own modules:

- **Page allocator** (`Powers`, `BuddyBlocks`, `FreeLists`, `BlockPools`, `PageAllocators`). Circular free lists threaded through one
  block map, splitting on reserve and merging on free. Full coalescing makes the set of free blocks a function of the set of free
  pages, and the results on reserve, free and failure follow from that.
- **Recursive page tables** (`PageTables`, `Mmus`). Entries are reached at fixed addresses because the last slot of the top table
  points to the table itself; the flat view is proved to agree with the three-level walk, and the fault handler to build exactly
  the missing levels.
- **Physical memory map** (`MemoryRegions`, `RegionOverlay`, `RegionPasses`, `MemoryMaps`, `BootMemory`). An in-place sorted interval map
  that refines a function from addresses to memory types, and the map and page allocator that boot builds.
- **Kernel heap** (`HeapBlocks`, `HeapCursors`, `Heaps`). Boundary tags in a word array, a free list rebuilt from the tiling,
  and the search cursor.
- **Search tree** (`TreeLinks`, `AvlBalance`, `TreeGrowth`, `TreeShapes`, `SearchTrees`). A height-balanced tree with parent pointers.
  Well-linkedness is stated node by node: each node covers an interval of the in-order sequence. Left rotations are proved
  through the mirror image of right ones.
- **FAT32** (`Sectors`, `FatChains`, `FatTables`, `Fat32`, `LongNames`, `NameSlots`). Cluster chains grown through single-sector
  updates, and long names printed into 32-byte slots and parsed back (Microsoft FAT32 File System Specification 1.03, sections
  "FAT Data Structure" and "FAT Long Directory Entries").
- **Process layer** (`StackImages`, `ProgramArgs`, `RunQueues`, `Scheduling`, `Kernels`, `Pipes`, `Descriptors`, `DescriptorRuns`,
  `FileTables`). The argument image of a new program, the run queue with the signal state machine, the pipe ring buffer, and
  descriptor reference counts.

In each component a value-level theory of sequences, maps and datatypes carries the invariants, and classes with the source's own
fields and loops are proved against it. Addresses are unbounded naturals with the source's widths and wrap-arounds written out
where they matter. Pointers into linked structures are node numbers in an explicit store, with 0 for null. Hardware reads,
frame contents and allocation addresses are parameters or state of the model.

Where the code does not do what one would expect, the code is modelled as it is, and when it
fails is proved, with a failing input:

- `allocate_more_clusters` with a count above one appends the same free cluster twice (`FatChains.AllocateExact`,
  `FatChains.AllocateFirstExact`, `FatChains.TwoPicksCollide`).
- The long-name scan compares a byte offset with a cluster number, so it can stop early or run on into the cluster before
  (`LongNames.NameRoundTrip`, `LongNames.ScanRunsOn`).
- A signal that a waiting process ignores still puts it on the run queue (`Scheduling.RaiseExact`,
  `Scheduling.IgnoredSignalQueues`).
- `fddup` of a descriptor onto itself can store a destroyed context (`Descriptors.DupExact`, `Descriptors.DupOntoItself`).
- The fault handler replaces a present block entry when one stands on the path (`Mmus.FaultReplacesAbsent`, `Mmus.BlockIsReplaced`).
- The allocator's constructor counts every page twice; the difference then stays constant (`BlockPools.RunConserves`).
- The search for a free cluster is bounded by sectors per table over sectors per cluster instead of the number of entries, so
  most clusters are never given out (`FatTables.FullThoughFree`, `FatTables.MostNeverGiven`).
- A process that signals itself loses the user data of its handler (`Scheduling.RaiseDelivers`,
  `Scheduling.SelfSignalLosesArgument`).
- A long-name slot starts every field behind the text with a zero unit again, where the FAT specification asks for 0xFFFF
  throughout (`LongNames.SlotLayout`).
- `find_cluster_allocations` pushes the end value after a chain of two or more clusters, and growing such a list writes before
  the table (`Fat32.Entry.FindClusterAllocations`, `Fat32.Entry.AppendBehindEnd`, `FatChains.GrowthDetached`).
- `getPageFrame` tests strictly where the writers do not (`Mmus.LookupAgrees`).
- Placing a region of lower type over touching ones of higher type can leave an overlap (`MemoryMaps.PlaceExact`,
  `MemoryMaps.LowerRankCanOverlap`), and can need more slots than the capacity guard leaves (`MemoryMaps.GuardTooSmall`).
- A free can leave the heap's search cursor inside a joined block, and does so in the shortest run there is
  (`Heaps.Heap.Rfree`, `Heaps.FirstFreeLosesCursor`). Allocating through such a cursor can overwrite a header or a footer
  (`Heaps.Heap.SplitBlk`, `HeapCursors.ClearedHarm`, `Heaps.LostCursorSpoilsSplit`, `Heaps.LostCursorSpoilsFooter`), and so can
  freeing (`Heaps.Heap.PutBehindCursor`).

## Model

| member | source | states |
|---|---|---|
| Powers.LLog2IsCeiling | src/util/math.h:42-51 | llog2 is the least k with x <= 2^k, both directions |
| BuddyBlocks.EnclosingBlock | src/memory/pageallocator.cpp:102-125 | in a fully coalesced family, an aligned run of covered pages lies inside one member block |
| BuddyBlocks.CanonicalMembership | src/memory/pageallocator.cpp:102-125 | a block is in a canonical family exactly when all its pages are covered and its buddy is not wholly covered |
| BuddyBlocks.SamePagesSameBlocks | src/memory/pageallocator.cpp:66-125 | two canonical families of free blocks over the same pages are equal |
| BuddyBlocks.BlockIffRun | src/memory/pageallocator.cpp:66-92 | some free block of order k or more exists exactly when some aligned run of 2^k free pages does |
| BuddyBlocks.MergeStep | src/memory/pageallocator.cpp:105-120 | absorbing a free buddy keeps the rest canonical and the pages of rest and pending block together unchanged |
| BuddyBlocks.SplitStep | src/memory/pageallocator.cpp:77-85 | freeing the upper half of a reserved block keeps the free family canonical and loses no page |
| FreeLists.UnlinkKeepsLists | src/memory/pageallocator.cpp:112-114 | unlinking the j-th cell of list k leaves every list a well-formed circular list of exactly its FREE cells, without that cell |
| FreeLists.PushKeepsLists | src/memory/pageallocator.cpp:121-124 | pushing a cell at the front of list k leaves every list well formed, with that cell first |
| BlockPools.RunConserves | src/memory/pageallocator.cpp:66-125 | over every run of grants, refusals and releases the supplied pages stay the union of free and live pages, and the counter stays a constant ahead of the pages really free |
| BlockPools.FreeDeterminedByLive | src/memory/pageallocator.cpp:66-125 | two runs from one state that end with the same live reservations end in the same state: the order of frees does not matter |
| BlockPools.ReserveThenFree | src/memory/pageallocator.cpp:66-100 | a free right after a reserve restores the whole state |
| BlockPools.FailsOnlyWhenFragmented | src/memory/pageallocator.cpp:66-92 | a request of order k is refused exactly when no aligned run of 2^k free pages exists |
| PageAllocators.MapSize | src/memory/pageallocator.cpp:8-17 | the bytes of the block map depend on the end of the last available region only, and are the least power of two that holds 32 bytes for each page below it |
| PageAllocators.CellCount | src/memory/pageallocator.cpp:8-46 | the block map has a power of two of cells and a cell for every page below the end |
| PageAllocators.PageAllocator.constructor | src/memory/pageallocator.cpp:29-64 | from a sorted, disjoint map exactly the whole pages of available regions become free, every invariant holds, and the count is twice the free pages |
| PageAllocators.PageAllocator.SupplyRegion | src/memory/pageallocator.cpp:55-62 | one region of the map adds exactly its whole pages to the free ones |
| PageAllocators.PageAllocator.Insert | src/memory/pageallocator.cpp:102-125 | the freed block merges upwards: the free pages grow by exactly its pages, lists, alignment and coalescing are kept, cells elsewhere are untouched, the count grows by its size |
| PageAllocators.PageAllocator.MergeUp | src/memory/pageallocator.cpp:105-120 | the merge loop stops at the top or where the buddy is not a free block of the same order, with the same pages pending |
| PageAllocators.PageAllocator.PopLast | src/memory/pageallocator.cpp:73-76 | takes the last block off a list, which then holds the others, and reserves it |
| PageAllocators.PageAllocator.SplitUpper | src/memory/pageallocator.cpp:79-84 | a split overwrites the head of an empty list only and makes the upper half its one block |
| PageAllocators.PageAllocator.FirstList | src/memory/pageallocator.cpp:68-71 | the search finds the lowest non-empty list from order k on, or shows that none has a block |
| PageAllocators.OrderIsLeast | src/memory/pageallocator.cpp:68 | the order computed for a request is the least one whose blocks hold its bytes, both directions |
| PageAllocators.PageAllocator.Reserve | src/memory/pageallocator.cpp:66-92 | for every size: no memory exactly when no free block holds the bytes asked for, which is when no aligned run of free pages does, and then nothing changes; otherwise the block reserved is of the least order that holds them, its aligned pages were free and become live, nothing else moves, all invariants hold, and with an even page size the location is not the no-memory value |
| PageAllocators.PageAllocator.Free | src/memory/pageallocator.cpp:94-100 | freeing a live reservation returns its size, gives back exactly its pages and keeps all invariants |
| PageAllocators.PageAllocator.Serve | src/memory/pageallocator.cpp:66-125 | any sequence of requests and returns makes a run of healthy states from the present one |
| PageTables.WindowIndices | src/memory/aarch64/mmu.cpp:157-165 | the table indices that the hardware walk takes from a fixed-address entry address are slot 511 first and then the indices of the page itself |
| PageTables.WindowAgrees | src/memory/aarch64/mmu.cpp:157-165 | with the top table mapping itself, the walk of a flat entry address at each level reaches the table that the three-level walk of the page uses, at the page's own slot |
| PageTables.LeafWrite | src/memory/aarch64/mmu.cpp:230-262 | writing a leaf entry changes the walk entries of that page alone |
| PageTables.LeafWriteKeeps | src/memory/aarch64/mmu.cpp:230-262 | a leaf write keeps tables unshared and gives that page, and no other, the new frame |
| PageTables.FaultNamesMissing | src/memory/aarch64/mmu.cpp:312-341 | the level the faulting walk reports names the first upper-level entry that is missing on the path |
| PageTables.FillReachesTarget | src/memory/aarch64/mmu.cpp:312-341 | after the fill the walk reaches the target table; only the missing entry and, below a new table, one entry of that table are written, and pages that had tables keep all entries |
| Mmus.Mmu.GetPageFrame | src/memory/aarch64/mmu.cpp:205-228 | the flat lookup returns the frame the three-level walk gives, or 0, with the user tables chosen at exactly __high_mem |
| PageTables.DescriptorsMap | src/memory/aarch64/mmu.cpp:123-143 | a page or block descriptor is present and accessed, has its own type bit, user access, write protection and execute-never exactly as the three flag bits say, and the address of its frame |
| Mmus.StoredReads | src/memory/aarch64/mmu.cpp:230-341 | a stored entry of any level reads back at its own place below its tables, and every path not through it keeps its entries |
| Mmus.Mmu.SetPageEntry | src/memory/aarch64/mmu.cpp:230-262 | the entry is stored through the window, missing tables first, and nothing else is written; it halts exactly when frames run out; the entry then read at its place maps the frame with exactly the rights of the flags, and all other pages with tables keep theirs |
| Mmus.Mmu.ClearEntry | src/memory/aarch64/mmu.cpp:291-310 | the entry is zeroed through the window, with the same fault handling |
| Mmus.Mmu.StoreEntry | src/memory/aarch64/mmu.cpp:230-262 | a store through the window, its fault and the retry have the effect of filling the missing levels and writing the one entry |
| Mmus.Mmu.FillTranslationTable | src/memory/aarch64/mmu.cpp:312-341 | writes exactly the missing levels from fresh frames, in order, and halts exactly when the frames run out |
| Mmus.Mmu.HandlePageFault | src/memory/aarch64/mmu.cpp:400-435 | a write translation fault in the window fills the missing levels; a read fault halts with the tables unchanged |
| Mmus.Mmu.MapRegion | src/memory/mmap.cpp:29-37 | every page of the range gets its frame with exactly the rights of the flags, all other pages keep their frames, and their entries if they have tables |
| Mmus.Mmu.UnmapRegion | src/memory/mmap.cpp:39-46 | every page of the range gets a zero entry, all other pages keep their frames, and their entries if they have tables |
| Mmus.LookupAgrees | src/memory/aarch64/mmu.cpp:205-262 | the lookup reads the tables the writers write, except at exactly the start of high memory |
| Mmus.RegionLookup | src/memory/mmap.cpp:29-46 | after a region is set its pages look up as wanted, and at exactly the start of high memory the lookup gives the first user page |
| Mmus.RegionLookupElsewhere | src/memory/mmap.cpp:29-46 | every other address looks up as before |
| Mmus.Mmu.InitializeTopTable | src/memory/aarch64/mmu.cpp:179-190 | a new top table is empty but for its last slot, which maps it to itself without restrictions; the scratch page is mapped back, writable by the kernel only, and all other pages are as before |
| Mmus.StoredLeaf | src/memory/aarch64/mmu.cpp:230-341 | after filling and storing, the page's leaf is the stored entry and pages that had tables keep all three entries |
| Mmus.TargetOfWindow | src/memory/aarch64/mmu.cpp:400-435 | the handler recognises the level that a window address belongs to |
| Mmus.FaultReplacesAbsent | src/memory/aarch64/mmu.cpp:312-341 | the entry that the fill overwrites is absent exactly when no block entry stands above the target |
| Mmus.BlockIsReplaced | src/memory/aarch64/mmu.cpp:312-341 | a concrete space where a present block entry is on the path, so the fill would overwrite it |
| MemoryRegions.Trim | src/memory/memorymap.cpp:40-96 | whatever the contents, a trim that goes on leaves fewer regions to look at, and grows the map by at most one |
| RegionOverlay.InsertPlaces | src/memory/memorymap.cpp:110-126 | the insertion loop puts the region before the first greater one |
| RegionPasses.DoneRun | src/memory/memorymap.cpp:88-96 | over a sorted, disjoint list the pass only joins touching regions of one type, and keeps the type of every address |
| RegionPasses.OverRun | src/memory/memorymap.cpp:40-96 | the pass from a region of any rank laid before those it may overlap: the list comes out disjoint exactly without a clash, then with the higher-ranked type everywhere, and the list grows by exactly Extra(r, t), one for each split less what joins and removals freed before it |
| RegionPasses.UnderRun | src/memory/memorymap.cpp:40-96 | the same from a region that stands before the one laid over it |
| RegionPasses.OldRun | src/memory/memorymap.cpp:40-96 | the same from the old regions before the place of the new one |
| RegionPasses.ExtraBound | src/memory/memorymap.cpp:40-96 | that growth is at most one for each higher-ranked region strictly inside |
| RegionPasses.AfterBound | src/memory/memorymap.cpp:40-96 | the growth from the old regions on is at most that number, or one for a split around the new region |
| MemoryMaps.FirstGreater | src/memory/memorymap.cpp:110-126 | over a sorted, disjoint map the new region goes behind those that begin before it, or with it and are no longer, and before all others |
| MemoryMaps.PlaceRefines | src/memory/memorymap.cpp:12-28 | placing a region whose type is at least that of everything it overlaps changes the address-to-type function exactly on its range, and adds at most two regions on the way |
| MemoryMaps.PlaceExact | src/memory/memorymap.cpp:12-28 | placing a region of any type: the map comes out disjoint exactly when no touching pair of higher-ranked regions is skipped, then with the higher-ranked type at every address; the most slots needed on the way are exactly those of the map, one for the region, and Spare(m, r) |
| MemoryMaps.GuardNeedsRoom | src/memory/memorymap.cpp:12-18 | over separate higher-ranked regions the list grows to twice their number plus one, so a map that passes the capacity guard has room exactly for seven or fewer |
| MemoryMaps.GuardTooSmall | src/memory/memorymap.cpp:12-18 | fourteen one-byte regions under a lower-ranked one pass the guard and come to 29 entries in 16 slots |
| MemoryMaps.LowerRankCanOverlap | src/memory/memorymap.cpp:68-73 | a concrete map of three touching regions where a region of lower type leaves an overlap |
| MemoryMaps.MemoryMap.InsertRegion | src/memory/memorymap.cpp:110-126 | the in-place insertion is the insertion of the sequence model |
| MemoryMaps.MemoryMap.Remove | src/memory/memorymap.cpp:98-108 | the in-place removal drops one region and closes the gap |
| MemoryMaps.MemoryMap.TrimPairAt | src/memory/memorymap.cpp:40-96 | the in-place trim is the trim of the sequence model, with the same next index |
| RegionOverlay.LaidWins | src/memory/memorymap.h:23-46 | type by type, which of two an address keeps: defective before device memory before unavailable before available |
| MemoryMaps.MemoryMap.Place | src/memory/memorymap.cpp:12-28 | for a region of any type that passes the guard and fits into the slots all the while, or fails the guard: fails unchanged exactly above capacity - 2; otherwise the map is disjoint exactly when no touching pair is skipped, and then every address in the region has the winner of the two types and every other address its old one |
| BootMemory.RoomForAll | src/memory/memorymap.cpp:12-28 | placing any region into a map of n takes at most n spare slots and leaves at most 2n + 1 regions |
| BootMemory.LastEnds | src/memory/pageallocator.cpp:8-17 | the last available region ends where the available addresses do, whatever the regions are |
| BootMemory.PlaceKernel | src/aarch64/aarch64.cpp:44-47 | the first three placements give exactly kernel, RAM and devices |
| BootMemory.PlaceAll | src/aarch64/aarch64.cpp:44-49 | after the five placements of boot, for every kernel size and image end, the type of every address by explicit ranges; when the block map lies in the kernel, also the exact regions |
| BootMemory.SuppliedAtBoot | src/kernel.cpp:336-348 | the whole pages of the boot map are those of RAM outside the kernel and the RAM disk |
| BootMemory.InitMemory | src/kernel.cpp:336-348 | the page allocator starts with exactly these pages free, none reserved, and a count of twice their number |
| HeapBlocks.ReplaceTiled | src/memory/heap.cpp:71-106 | exchanging some blocks for others of the same total size keeps the heap tiled with agreeing tags |
| HeapBlocks.PayloadsDisjoint | src/memory/heap.cpp:18-34 | a word lies in the payload of at most one block of a tiling |
| HeapBlocks.SplitKeeps | src/memory/heap.cpp:71-106 | a split keeps the tiling, the absence of adjacent free blocks, the top block and every other payload |
| HeapBlocks.JoinKeeps | src/memory/heap.cpp:197-257 | joining two free neighbours keeps the tiling and every other payload |
| HeapBlocks.FreeKeeps | src/memory/heap.cpp:259-280 | marking a block free keeps the tiling and every other payload |
| HeapBlocks.CoalesceClean | src/memory/heap.cpp:197-257 | joining the freed block with its free neighbours leaves no two adjacent free blocks |
| HeapBlocks.VisitsExact | src/memory/heap.cpp:160-195 | the chain from the head names every free block exactly once, head first and the rest in address order |
| HeapBlocks.LiveReplace | src/memory/heap.cpp:71-106 | replacing free blocks changes the set of allocated blocks by exactly the allocated ones put in |
| HeapBlocks.RebuildLink | src/memory/heap.cpp:160-195 | linking a free block extends the chain by it |
| HeapBlocks.RebuildEnd | src/memory/heap.cpp:160-195 | closing the chain with null gives the full list and changes link words only |
| Heaps.Heap.constructor | src/memory/heap.cpp:18-34 | the fresh heap is one free block over all its words |
| Heaps.GuardMeans | src/memory/heap.cpp:125 | the size guard of the search on an aligned request holds exactly when the rest of the split has more than seven words |
| Heaps.Heap.SplitBlk | src/memory/heap.cpp:71-106 | the payload returned belongs to a new allocated block and the others keep place and size; with a cursor on a header the heap invariant holds, other payloads are kept and the cursor stays good; with a lost one the heap stays valid exactly unless the word behind the cursor, read after the new tags are written, is a size of a block other than the one given out and neither null nor the address written, and payloads are kept exactly unless that word lies in one and the write changes it |
| HeapCursors.PokeTiled | src/memory/heap.cpp:81-84 | writing one word leaves the heap tiled exactly unless it contradicts a size or a flag |
| HeapCursors.SplitLinked | src/memory/heap.cpp:76-86 | the heap after a split is valid exactly unless the link write spoils a size |
| HeapCursors.ClearedHarm | src/memory/heap.cpp:76-86 | when the word behind the cursor was null, that happens exactly when it is the header size or the footer size of the new free block and that size is not the address written |
| HeapCursors.StartNeverHarms | src/memory/heap.cpp:81-84 | a cursor on a header never spoils a split and never reaches a payload |
| Heaps.Heap.RebuildList | src/memory/heap.cpp:160-195 | the loop ends with the exact free list and changes link words only; the cursor ends on a block header, unless the block looked for is the only free one and ends the list: then it stays; the search goes on at the block looked for, or, when that is the head, at the next free block, or else at what the head linked to |
| Heaps.Heap.JoinBlocks | src/memory/heap.cpp:197-257 | two free neighbours become one; the list head and the search position follow when their block is absorbed |
| Heaps.Heap.Merge | src/memory/heap.cpp:197-257 | merges with free neighbours on both sides, restores the invariant and rebuilds the list when anything was merged; says when the cursor stays and that it otherwise ends on a header, and where a search from the freed block goes on |
| Heaps.Heap.Rfree | src/memory/heap.cpp:259-280 | exactly the freed block leaves the allocated ones and no two free blocks are adjacent; payloads are kept exactly unless the word behind a lost cursor lies in one and the write changes it; when a good cursor is lost and when a lost one comes back, as conditions on the state before; the search goes on at a free block exactly unless the joined block is the only free one and its header links elsewhere |
| Heaps.Heap.PutBehindCursor | src/memory/heap.cpp:259-276 | clears the flags and links the block; the heap stays tiled exactly unless the word behind the cursor is a tag that the address contradicts |
| HeapCursors.FreeLinked | src/memory/heap.cpp:259-276 | the tags and the payloads after the link of a free, through any cursor, both as if-and-only-if |
| HeapCursors.LostAfterFree | src/memory/heap.cpp:259-280 | a lost cursor is on a header again exactly when something was joined and the rebuild did not leave it alone |
| HeapCursors.HostLinkHolds | src/memory/heap.cpp:259-276 | what the header of the joined block links to when the list is rebuilt |
| HeapCursors.CurrentExact | src/memory/heap.cpp:160-195 | after a rebuild the search position is a free block exactly unless the block looked for is the only free one and its header linked elsewhere |
| HeapCursors.CoalesceStarts | src/memory/heap.cpp:197-257 | merging takes exactly the absorbed headers out of the block starts |
| HeapCursors.LostIff | src/memory/heap.cpp:259-280 | the cursor is lost exactly when the rebuild leaves it alone on a header that is absorbed |
| HeapCursors.CursorAfterFree | src/memory/heap.cpp:259-280 | the cursor after a free is null or a block header exactly unless the freed block joins the top block, no other free block is left, the joined header ends the list and the cursor was null, the top block, or the freed block behind a free one |
| Heaps.FirstFreeLosesCursor | src/memory/heap.cpp:259-280 | a fresh heap, one split and one free leave the cursor inside the joined block, with a null word behind it |
| Heaps.LostCursorSpoilsSplit | src/memory/heap.cpp:76-86 | after that run a split for 24 bytes puts its header size behind the cursor and overwrites it: the heap is no longer valid |
| Heaps.LostCursorOnFooter | src/memory/heap.cpp:76-86 | after that run a split for 40 bytes is harmless |
| Heaps.LostCursorSpoilsFooter | src/memory/heap.cpp:81-84 | one more split for 16 bytes then overwrites the footer of the block given out: the heap is no longer valid |
| TreeLinks.RotateRightLinked | src/containers/binary_search_tree.h:557-585 | a right rotation keeps parent and child links inverse and the in-order sequence unchanged |
| TreeLinks.RotateLeftLinked | src/containers/binary_search_tree.h:588-616 | the same for a left rotation, as the mirror image |
| TreeLinks.RotateRightMoved | src/containers/binary_search_tree.h:557-585 | a right rotation touches its subtree and the one pointer down to it, nothing else |
| TreeLinks.RotateLeftMoved | src/containers/binary_search_tree.h:588-616 | the same for a left rotation |
| AvlBalance.SingleRight | src/containers/binary_search_tree.h:537-554 | a single rotation at balance 2 restores exact heights and balance everywhere but at the parent |
| AvlBalance.DoubleRight | src/containers/binary_search_tree.h:537-554 | so does a double rotation, and the subtree ends up as high as its taller child was |
| AvlBalance.SingleLeft | src/containers/binary_search_tree.h:537-554 | the mirror image at balance -2 |
| AvlBalance.DoubleLeft | src/containers/binary_search_tree.h:537-554 | the mirror image of the double rotation |
| TreeGrowth.HangLinked | src/containers/binary_search_tree.h:445-471 | a new leaf keeps all links right and takes its place in the in-order sequence |
| TreeGrowth.PruneLinked | src/containers/binary_search_tree.h:176-185 | unlinking a leaf keeps all links right and takes it out of the in-order sequence |
| TreeGrowth.GrewReady | src/containers/binary_search_tree.h:415-472 | growth below a child puts a balanced parent at most one further out of balance |
| TreeGrowth.GrewStep | src/containers/binary_search_tree.h:415-472 | growth below a child and rebalancing the parent is growth below the parent |
| TreeGrowth.GrewEntries | src/containers/binary_search_tree.h:415-472 | growth adds exactly the new pair, at the upper bound of its key |
| TreeShapes.HeightsExact | src/containers/binary_search_tree.h:118-128 | in a balanced tree the stored heights are the true numbers of levels |
| TreeShapes.WholeHeight | src/containers/binary_search_tree.h:415-472 | a balanced tree with n pairs has a height h with 2^ceil(h/2) <= n + 1 |
| SearchTrees.SearchTree.RotateNodeRight | src/containers/binary_search_tree.h:557-585 | the pointer writes and height updates of the rotation, with its frame |
| SearchTrees.SearchTree.RotateNodeLeft | src/containers/binary_search_tree.h:588-616 | the same to the left |
| SearchTrees.SearchTree.Rebalance | src/containers/binary_search_tree.h:537-554 | whatever heights are stored, no rotation goes through a null child and the pairs stay in order; a node alone out of balance by two is restored |
| SearchTrees.SearchTree.AddRec | src/containers/binary_search_tree.h:415-472 | inserts below a node at the upper bound of the key, and restores balance on the way back up if the tree was balanced |
| SearchTrees.SearchTree.Insert | src/containers/binary_search_tree.h:210-214 | into any ordered, well-linked tree: adds exactly the new pair after all pairs with keys no greater and keeps order and links; a tree with exact heights and balances in -1..1 stays one |
| SearchTrees.SearchTree.Successor | src/containers/binary_search_tree.h:131-151 | gives a neighbour in the in-order sequence from the node's own subtree, or null for a leaf |
| SearchTrees.SearchTree.Replace | src/containers/binary_search_tree.h:154-173 | copies a pair up and deletes it below, down to a leaf: one pair disappears from the sequence and the node copied into survives |
| SearchTrees.SearchTree.RemoveRec | src/containers/binary_search_tree.h:475-515 | deletes one pair with the key from the covered stretch if there is one, with links and order kept |
| SearchTrees.SearchTree.Remove | src/containers/binary_search_tree.h:217-220 | deletes exactly one pair with the key when there is one; otherwise the pairs stay as they are |
| SearchTrees.SearchTree.Begin | src/containers/binary_search_tree.h:289-301 | gives the first node in order, or null |
| SearchTrees.SearchTree.Next | src/containers/binary_search_tree.h:655-686 | gives the next node in order, or null after the last |
| SearchTrees.SearchTree.Visit | src/containers/binary_search_tree.h:655-686 | iterating from begin to null reads every key once, in order |
| SearchTrees.SearchTree.SearchRec | src/containers/binary_search_tree.h:389-412 | finds a node with the key if there is one; otherwise no pair has it |
| SearchTrees.SearchTree.Contains | src/containers/binary_search_tree.h:243-250 | true exactly when some pair has the key |
| Sectors.WordRoundTrip | src/fs/fat32/helpers.cpp:22-60 | an integer written to bytes reads back, and words beside it are not disturbed |
| Fat32.Disk.Read | src/fs/fat32/disk_interface/disk_interface.cpp:46-55 | a fresh copy of the sector |
| Fat32.Disk.Write | src/fs/fat32/disk_interface/disk_interface.cpp:57-64 | the sector is replaced and no other byte of the disk changes |
| Fat32.IntToBytes | src/fs/fat32/helpers.cpp:54-60 | writes the four little-endian bytes in place |
| Fat32.BytesToInt | src/fs/fat32/helpers.cpp:22-29 | reads the little-endian word |
| FatTables.EntryPlace | src/fs/fat32/entry_helpers.cpp:310-345 | an entry lies whole in one sector of the table, and the two formulas for its sector and offset agree |
| FatTables.PatchEntry | src/fs/fat32/entry_helpers.cpp:342-365 | read, change and write of one buffered sector changes that table entry alone |
| FatChains.ChainAcyclic | src/fs/fat32/entry_helpers.cpp:180-215 | an ended chain visits no cluster twice |
| FatChains.FirstFree | src/fs/fat32/entry_helpers.cpp:374-416 | the first free entry from 2 on, or 0 exactly when none is free |
| FatChains.AllocateOne | src/fs/fat32/entry_helpers.cpp:310-372 | one more cluster: fails exactly when none is free, with the chain as it was, or appends a cluster that was free; only the old last entry and the new one change |
| FatChains.AllocateKeepsFiles | src/fs/fat32/entry_helpers.cpp:310-372 | growing any file by one keeps all files' chains whole and pairwise disjoint |
| FatChains.SamePickTwice | src/fs/fat32/entry_helpers.cpp:332-361 | two rounds or more pick the same cluster twice, because the first pick is not marked before the second search |
| FatChains.AllocateExact | src/fs/fat32/entry_helpers.cpp:310-372 | the list is a chain afterwards exactly when one cluster was asked for or none is free |
| FatChains.AllocateFirstExact | src/fs/fat32/entry_helpers.cpp:310-372 | for a file without clusters, exactly when at most two were asked for or none is free after the first |
| FatChains.TwoPicksCollide | src/fs/fat32/entry_helpers.cpp:332-361 | a concrete table where asking for two more clusters lists one twice |
| FatChains.EndValueSpoils | src/fs/fat32/entry_helpers.cpp:193-212 | a chain followed by its end value is no chain |
| FatChains.GrowthDetached | src/fs/fat32/entry_helpers.cpp:324-371 | growing a reopened file of two or more clusters marks a free cluster that its chain on disk does not reach |
| FatTables.PatchBefore | src/fs/fat32/entry_helpers.cpp:324-330 | entry -1 is the last four bytes of the sector before the table, and writing it changes no entry |
| FatTables.FirstGivable | src/fs/fat32/entry_helpers.cpp:374-416 | the search gives the least free entry i from 2 on with (i + 1) * sectors per cluster <= sectors per table, or 0 exactly when there is none |
| FatTables.FullThoughFree | src/fs/fat32/entry_helpers.cpp:378-387 | no cluster is found although some are free exactly when all free ones lie past that bound |
| FatTables.MostNeverGiven | src/fs/fat32/entry_helpers.cpp:378-387 | a concrete volume whose table has 1024 entries of which the last 1016 are free and never given out |
| Fat32.Entry.FindFreeCluster | src/fs/fat32/entry_helpers.cpp:374-416 | the scan through one buffered sector returns the least free entry below the bound, or 0 exactly when there is none |
| Fat32.Entry.InitialCluster | src/fs/fat32/entry_helpers.cpp:535-561 | allocates the first free cluster and marks it 0xFFFFFFFF, or fails unchanged exactly when none is in reach |
| Fat32.Entry.AppendRounds | src/fs/fat32/entry_helpers.cpp:324-371 | the rounds from the last cluster of the list are those of the table model |
| Fat32.Entry.RoundsFrom | src/fs/fat32/entry_helpers.cpp:331-371 | the loop over table sectors does the rounds of the table model and changes nothing before the table |
| Fat32.Entry.AppendBehindEnd | src/fs/fat32/entry_helpers.cpp:324-371 | behind an end value the first link goes into the four bytes before the table, and the rest are the rounds of the table model |
| FatChains.FirstRound | src/fs/fat32/entry_helpers.cpp:310-372 | whatever the list is, nothing is appended when none is free, and asking for one appends the first free one |
| FatChains.GoesOn | src/fs/fat32/entry_helpers.cpp:218-236 | a walk goes on at a value exactly when it is a cluster number of the volume |
| Fat32.Entry.AllocateMoreClusters | src/fs/fat32/entry_helpers.cpp:310-372 | the disk's table, the cluster list and the status are those of the table model, for every count, for a list that ends in a table entry and for one that ends in the end value; one cluster is granted exactly when a free one is in reach, and none otherwise |
| Fat32.Entry.FindClusterAllocations | src/fs/fat32/entry_helpers.cpp:180-215 | walking any start that ends, through one sector buffer, yields its clusters in order first; two or more are followed by the value that ended the walk, so the list is the chain exactly for one cluster |
| LongNames.PieceRoundTrip | src/fs/fat32/entry_helpers.cpp:125-177 | a piece of up to 13 bytes reads back from its slot, wherever it ends in the 5/6/2 fields |
| LongNames.SlotLayout | src/fs/fat32/entry_helpers.cpp:610-739 | byte by byte what a slot holds: the order with 0x40 on the last piece, the attribute, every character in its unit, and what fills the rest |
| LongNames.OrderReadsBack | src/fs/fat32/entry_helpers.cpp:132 | the order reads back from a slot exactly up to 31 |
| LongNames.PiecesJoin | src/fs/fat32/entry.cpp:137-179 | the pieces cover the name without gap or overlap, whatever its length modulo 13 |
| LongNames.NameRoundTrip | src/fs/fat32/entry_helpers.cpp:240-270 | a name written to its slots is found again exactly when the scan's bound, the entry's cluster number, does not lie past the first slot and no text stands in long-name slots before it down to that bound |
| LongNames.ScanRunsOn | src/fs/fat32/entry_helpers.cpp:240-257 | a concrete disk of two clusters where the scan runs on into the cluster before and finds a longer name |
| LongNames.BoundAdmits | src/fs/fat32/entry_helpers.cpp:240-257 | the bound is met whenever there are no more pieces than bytes before the slots |
| NameSlots.ClearEntry | src/fs/fat32/entry_helpers.cpp:518-531 | zeroes the one slot |
| NameSlots.WriteLongNameEntry | src/fs/fat32/entry_helpers.cpp:610-739 | the slot on disk becomes the printed piece and nothing else changes |
| NameSlots.ParseLongName | src/fs/fat32/entry_helpers.cpp:125-177 | the order and the text of a slot, field by field |
| NameSlots.FindLongNameEntries | src/fs/fat32/entry_helpers.cpp:240-270 | the backward scan returns the name of the scan model |
| NameSlots.WriteName | src/fs/fat32/entry.cpp:158-182 | every piece is written to its reversed slot |
| StackImages.VectorReadsBack | src/sched/process.cpp:233-282 | reading argc pointers through x1 gives exactly the argument strings |
| StackImages.NullVectorReadsBack | src/sched/process.cpp:233-282 | reading through x2 up to the null pointer gives exactly the environment strings |
| ProgramArgs.Context.PushLong | src/sched/aarch64/context.cpp:124-129 | the word stands at the new stack pointer and nothing above the old one changes |
| ProgramArgs.Context.PushString | src/sched/aarch64/context.cpp:131-138 | the terminated string stands at the new stack pointer, lowered by a multiple of sixteen, and nothing above changes |
| ProgramArgs.Context.StoreProgramArgs | src/sched/process.cpp:233-282 | the stack pointer stays sixteen-aligned, x0, x1 and x2 lead back to exactly argc, argv and a null-terminated envp, and nothing above the old stack pointer changes |
| RunQueues.RunQueue.Enqueue | src/sched/queue.cpp:13-28 | appends at the back of the linked queue |
| RunQueues.RunQueue.Dequeue | src/sched/queue.cpp:30-46 | takes the front, or gives null for an empty queue |
| RunQueues.RunQueue.SchedNext | src/sched/queue.cpp:72-84 | the current process goes to the back and the front becomes current |
| Scheduling.StepKeeps | src/kernel.cpp:79-200 | each kernel step keeps every process in exactly one place, no action KILL and a backup for every process in a handler |
| Scheduling.RunKeeps | src/kernel.cpp:79-200 | so does every run of steps |
| Scheduling.BootHolds | src/aarch64/aarch64.cpp:64-67 | one current process and an empty queue satisfy the invariant |
| Scheduling.RaiseExact | src/kernel.cpp:405-441 | a signal to a sleeper keeps every process in one place exactly when the sleeper handles it |
| Scheduling.IgnoredSignalQueues | src/kernel.cpp:405-441 | a run from boot after which an ignored signal queues a process that still counts as waiting |
| Scheduling.RaiseNeverKills | src/kernel.cpp:421-434 | after any run whatever no action is KILL, and raising a signal returns no positive status |
| Scheduling.LineMoves | src/sched/queue.cpp:72-84 | a queued process moves up one place at each scheduler pass, whatever else happens |
| Scheduling.TurnComes | src/sched/queue.cpp:72-84 | a process at place i becomes current at exactly the (i+1)-th pass and not before |
| Scheduling.BackupKept | src/sched/process.cpp:194-219 | over any run in which a process neither returns from its handler nor sleeps, the context put by is untouched |
| Scheduling.SignalRoundTrip | src/sched/process.cpp:194-231 | from a handled signal to the next sigret the context restored is the one at the trigger |
| Scheduling.TriggerExact | src/sched/process.cpp:194-219 | a handled signal sets program counter, link register and argument and puts the old context by; every other signal changes nothing and has its status |
| Scheduling.RaiseDelivers | src/kernel.cpp:174-181 | a process that handles the signal resumes at its handler, and gets the user data exactly unless it raised the signal itself; nobody else changes but the caller |
| Scheduling.RaiseRefuses | src/kernel.cpp:405-417 | a signal to nobody or to a process in a handler only gives the caller -1 |
| Scheduling.ActionsAreLast | src/sched/process.cpp:171-192 | over every run the action in force for a signal is the one the process installed last |
| Scheduling.LastHandlerRuns | src/kernel.cpp:405-441 | after any run a handled signal resumes the process at the handler it installed last, with that trampoline and user data |
| Scheduling.SelfSignalLosesArgument | src/kernel.cpp:174-181 | a run from boot in which a process signals itself and its handler gets 0 instead of the user data |
| Scheduling.CloneExact | src/kernel.cpp:79-86 | the child is last in the queue and starts at its function on its stack with return address 0 and the user data, without handlers; the caller gets 0 and nothing else changes |
| Scheduling.YieldExact | src/kernel.cpp:168-172 | a yield gives the caller 0 and a pass of the scheduler, a timer tick the pass alone, and nothing else changes |
| Scheduling.SigwaitExact | src/kernel.cpp:188-194 | the caller sleeps with its registers as they are and the front of the line runs |
| Scheduling.SigactionExact | src/kernel.cpp:196-200 | the caller gets 0 and its action for that signal alone, none for a null handler, and nothing out of range |
| Kernels.Process.constructor | src/sched/process.cpp:26-34 | a new process is active, without backup and without signal actions |
| Kernels.Process.SetSignalAction | src/sched/process.cpp:172-192 | installs a handler or none, never KILL, and ignores signals out of range |
| Kernels.Process.SignalTrigger | src/sched/process.cpp:194-219 | the process and status of the step model, including the refusal inside a handler; a handled signal resumes at the handler with the trampoline as return address and the user data as argument, on the same stack |
| Kernels.Process.SignalReturn | src/sched/process.cpp:221-231 | restores the context put by, only from a handler |
| Kernels.Kernel.SwitchTask | src/kernel.cpp:367-372 | one pass of the scheduler |
| Kernels.Kernel.AddProcess | src/kernel.cpp:379-387 | enters the process in the table and queues it when active |
| Kernels.Kernel.RaiseSignal | src/kernel.cpp:405-441 | the step model's raise: wakes and queues a sleeper, and never kills |
| Kernels.Kernel.StoreCallerContext | src/kernel.cpp:43-50 | the context of the caller is stored, as the trap step |
| Kernels.Kernel.SyscallClone | src/kernel.cpp:79-86 | the linked queue and the table make the clone step of Scheduling.CloneExact |
| Kernels.Kernel.SyscallYield | src/kernel.cpp:168-172 | the yield step |
| Kernels.Kernel.TimerTick | src/devices/timer.cpp:19-24 | the timer step |
| Kernels.Kernel.SyscallSigwait | src/kernel.cpp:188-194 | the sigwait step |
| Kernels.Kernel.SyscallSigraise | src/kernel.cpp:174-181 | the sigraise step |
| Kernels.Kernel.SyscallSigret | src/kernel.cpp:183-186 | the sigret step |
| Kernels.Kernel.SyscallSigaction | src/kernel.cpp:196-200 | the sigaction step |
| Pipes.FullMeans | src/fs/pipe.cpp:23 | the two full tests hold exactly when 4095 bytes are held |
| Pipes.RingPut | src/fs/pipe.cpp:25-31 | a byte written at the write position is appended to the ring |
| Pipes.RingTake | src/fs/pipe.cpp:50-56 | a byte read at the read position is the first of the ring |
| Pipes.Pipe.Put | src/fs/pipe.cpp:14-42 | refuses without a reader; otherwise accepts exactly as many bytes as fit, and reports a full pipe exactly when asked for some and full |
| Pipes.Pipe.Read | src/fs/pipe.cpp:44-59 | delivers the first bytes held, as many as asked for and there |
| Pipes.Pipe.ReaderRead | src/fs/pipe.cpp:116-127 | end of file exactly when no writer is left and nothing was asked for or held |
| Pipes.Pipe.AddReader | src/fs/pipe.cpp:71-74 | one more reading end, and nothing else |
| Pipes.Pipe.RemoveReader | src/fs/pipe.cpp:76-79 | one reading end less |
| Pipes.Pipe.AddWriter | src/fs/pipe.cpp:81-84 | one more writing end |
| Pipes.Pipe.RemoveWriter | src/fs/pipe.cpp:86-89 | one writing end less |
| Pipes.PipeFifo | src/fs/pipe.cpp:14-59 | over every interleaving the bytes delivered are a prefix of those accepted, less than 4096 behind |
| Pipes.EndsCounted | src/fs/pipe.cpp:71-89 | over every run the readers and writers are those at the start and those that came less those that went |
| Descriptors.StoreKeeps | src/sched/process.cpp:304-316 | storing a context in an unused descriptor keeps every count equal to the slots naming it |
| Descriptors.CloseKeeps | src/sched/process.cpp:318-334 | a close keeps all counts and destroys the context exactly when no slot names it any more |
| Descriptors.NewContextKeeps | src/fs/pipe.cpp:101-105 | a new end is counted at its pipe |
| Descriptors.DestroyEnds | src/fs/pipe.cpp:107-114 | destroying an end keeps the pipe's counts right, and the last end deletes the pipe |
| Descriptors.DupExact | src/kernel.cpp:267-290 | a duplication keeps all counts exactly unless both descriptors are the same and it is the only slot of its context, which would then be used after destruction |
| Descriptors.DupOntoItself | src/kernel.cpp:267-290 | a concrete world where duplicating a descriptor onto itself stores a destroyed context |
| DescriptorRuns.CreatePipeKeeps | src/kernel.cpp:292-322 | a new pipe has one stored end of each kind |
| DescriptorRuns.CloneIsFresh | src/sched/process.cpp:129-132 | a clone's descriptors name fresh contexts of the same kind, each once, and the old ones are untouched |
| DescriptorRuns.ShareFdKeeps | src/sched/process.cpp:63-66 | a copied process object names the same contexts, counted once more |
| DescriptorRuns.ContextsCounted | src/sched/process.cpp:296-334 | over every run a context's count is the number of slots naming it, and it lives exactly as long as there is one |
| DescriptorRuns.PipesDeletedOnce | src/fs/pipe.cpp:101-167 | over every run a pipe lives exactly as long as it has a live end, and a pipe no longer live was deleted exactly once |
| FileTables.Files.NewFileContext | src/fs/pipe.cpp:101-105 | a context with no references yet; an end announces itself |
| FileTables.Files.AddProcess | src/sched/process.cpp:17-24 | a process object starts with an empty table |
| FileTables.Files.DeleteFileContext | src/fs/pipe.cpp:145-152 | the destructor: the end leaves its pipe and the last one deletes it |
| FileTables.Files.StoreFileContext | src/sched/process.cpp:296-302 | stores under the table size |
| FileTables.Files.StoreFileContextAt | src/sched/process.cpp:304-316 | stores under the given number, or reports that it exists and changes nothing |
| FileTables.Files.CloseFileContext | src/sched/process.cpp:318-334 | the close step, or no such file and nothing changed |
| FileTables.Files.Fddup | src/kernel.cpp:267-290 | the duplication step for different descriptors, with all counts kept |
| FileTables.Files.SyscallOpen | src/kernel.cpp:202-221 | a file that is there gets a new context under the chosen number, as the open step |
| FileTables.Files.SyscallCreatePipe | src/kernel.cpp:292-322 | the pipe step and its two descriptors |
| FileTables.Files.CloneFiles | src/sched/process.cpp:129-132 | the clone step over the table in order |
| FileTables.Files.CopyFiles | src/sched/process.cpp:63-66 | the copy step over the table in order |

## Left out

- BootMemory.InitMemory: the image and the block map are taken to lie inside the kernel's memory, and the heap that follows them is `Heaps`; an empty kernel or one as large as RAM is not modelled.
- Boot code in assembly, system registers, TLB and barrier instructions, MMIO, UART, timer registers, the SD-card driver and logging.
- `expand_heap`, `realloc`, the exact-fit branch and the search loop of `find_fit`: the model starts from a free block that passes the size guard.
- Heaps.Heap.Rfree: with a lost cursor, requires that the link write contradicts no tag; `Heaps.Heap.PutBehindCursor` says when it does. What merge and rebuild then read from contradicting tags is not modelled; where only the freed block's own footer was hit, a join writes a new one.
- Heaps.Heap.Merge: the search position is stated for the case of its only caller, where it is the freed block.
- MemoryMaps.PlaceRefines: states the case of the boot order, src/aarch64/aarch64.cpp:45-49; `MemoryMaps.PlaceExact` has every type.
- MemoryMaps.MemoryMap.Place: a map that passes the guard without having room, where the source writes behind its array, is not followed further; `MemoryMaps.PlaceExact` says exactly when that is. Empty regions are left out.
- `queue::remove` and the KILL branch of `raiseSignal`: the branch is proved unreachable, so `Kernels.Kernel.RaiseSignal` has no statement for it.
- Process termination and `exec` inside the scheduler model, and allocation failure in `clone`.
- Scheduling.StepKeeps: `Ctx` keeps the program counter, stack pointer, link register and x0 apart and folds all other registers into one field; status values are integers rather than 64-bit patterns.
- Scheduling.BootHolds: processes are numbered from 1, since 0 stands for the null pointer; the source's first pid is 0 and every pid is one less.
- SearchTrees.SearchTree.Remove: does not claim AVL balance, since nodes between the removed one and its successor are not refreshed by the code.
- SearchTrees.SearchTree.AddRec: the early return for an already added node is not modelled; the flag is still false whenever it is read, and the empty-tree case is handled by `Insert`.
- Tree `clear`, `pop_min`, `pop_max`, `peek_min`, `peek_max`, `to_string`, and `get` on a missing key. Keys and values are integers; the node store is a map, so reuse of freed node addresses is not modelled.
- Fat32.Entry.AllocateMoreClusters: is for files; the two base entries that `init_dir_cluster` writes into a directory's new cluster are not part of this model. The boot sector's sector size is taken to be the device's, and the table to have an entry for every cluster. A list that ends in an end value other than the one the code writes, such as 0x0FFFFFF8, is not modelled.
- Fat32.Entry.FindClusterAllocations: is for a start whose walk ends; on a cyclic table the source loops for ever. The list holds 32-bit patterns, where the source stores the end value as a signed integer.
- NameSlots.WriteLongNameEntry: the checksum byte is a parameter.
- `find_empty_entries`, `write_data`, directory creation on disk, `FileContextFAT32::read`, short names and file sizes.
- ProgramArgs.Context.StoreProgramArgs: memory is one byte array indexed by address, and the caller provides enough stack below a sixteen-aligned pointer.
- Mmus.Mmu.SetPageEntry: requires that no block entry stands above the page; what the source then overwrites is `Mmus.FaultReplacesAbsent`.
- Mmus.Mmu.ClearEntry: the same.
- Mmus.Mmu.StoreEntry: the same.
- Mmus.Mmu.HandlePageFault: is for faults in the table window; all others end in a panic.
- Mmus.Mmu.MapRegion: requires the upper tables of the range, since a new table's other entries are not cleared and nothing can be said of them.
- Mmus.Mmu.UnmapRegion: the same.
- Mmus.Mmu.InitializeTopTable: requires the tables of the scratch page, for the same reason.
- Kernels.Kernel.SwitchTask: requires somebody to run; with nobody the source goes through a null process.
- Kernels.Kernel.SyscallSigwait: the same.
- FileTables.Files.Fddup: is for different descriptors; `Descriptors.DupExact` has the rest.
- FileTables.Files.SyscallCreatePipe: requires both numbers it chooses to be unused.
- DescriptorRuns.CreatePipeKeeps: the same.
- FileTables.Files.SyscallOpen: the two error returns, without a file system or without the file, are not modelled.
- FileTables.Files.StoreFileContext: requires the chosen number, the table size, to be unused; after closes in the middle of a table it can be in use, and the search tree would then hold the number twice.
- FileTables.Files.CloneFiles: the cloned process object stays allocated after `addProcess` copies it into the table; its descriptors go on counting as slots.
- `hashmap`, `vector`, `linked_list` and the `string` class: strings are byte sequences and vectors are sequences.
- The ELF loader, address-space creation and destruction, and the contents of freshly reserved page-table frames.
