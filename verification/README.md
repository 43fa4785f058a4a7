# allox: ownership, accounting and routing

This project models the core of allox, a thread-cached memory allocator, and
proves what its design rests on. A block is always in exactly one place, a page
dies only when nobody holds one of its blocks, counters equal what they count,
and a block is freed into the heap it was carved from. Concurrency is modelled
as state machines in which every section under a lock and every atomic
instruction is one step, for any number of threads, pages and operations. Code
that updates fields, arrays or lists in place is modelled by classes and
methods, each tied by its postcondition to a function of the old state; the
whole-run theorems are about those functions.

| module | models |
|---|---|
| `PageSpec`, `PageLife` | one size class of the page heap as a value: refill, release, the retention ladder, reuse |
| `PageHeap` | the same heap as the code runs it: headers in memory, doubly linked partial list, nested refill loop |
| `Ownership`, `OwnershipRuns` | caches, carried chains and users around that heap, in every run |
| `ZeroReports` | which backends make the zero reports of that protocol true |
| `Batch`, `Links` | page-grouped release, and the intrusive link words it rewrites |
| `ThreadCache`, `ActiveSpan` | bins with byte accounts and watermark, trimming, adoption; remembered active spans |
| `RetiredSlots` | the lock-free queue of dead threads' caches |
| `HoleStore`, `Arena` | best-fit holes with a lazily repaired index; the frontier and its slices in every run |
| `SideTable`, `OwnerTable` | the tagged page-to-owner table, alone and together with the arena in every run |
| `LargeCache`, `LargeRuns` | recycled large regions: tiers with an eager exact index; every region's life in every run |
| `Regions`, `Registry` | region arithmetic, growth and promotion; the bucketed registry |
| `Classes`, `Carve` | size classes and lookup tables; where blocks lie in pages and spans |
| `Routing`, `Dispatch` | tier choice, realloc and both frees on what they read; that the tables say it in every run |
| `Homes` | opening, closing and writing pages, spans and regions beside those tables, in every run |
| `Contents`, `CRealloc` | what a realloc does to memory, with a layout and through the C interface |

The backend is abstract. Mapping yields zeros; a purge reports a pair
(physical, zeroed), where zeroed means that the range is readable and zero and
neither means that it is unchanged; recommitting makes a range accessible with
unknown contents; committing may fail. Two further properties a backend may or
may not have are named where a result needs them (datatype `Backend` of module `ZeroReports`): that a
recommit of a readable range changes nothing, and that physical and zeroed may
be reported together.

## Where the code falls short

Four things the comments or the shape of the code suggest do not hold for
every input. Each has a witness and the exact condition.

- A small page whose purge reported physical and zeroed is recommitted on reuse
  and still believed to be zero (`src/heap.rs:317-318`, `src/heap.rs:405-433`).
  `ZeroReports.ZeroReportsExactly`: zero reports are true in every run of a
  class if and only if a recommit keeps readable contents, or the backend never
  reports both, or the class has no cold pages or never believes a purge (as the
  span tiers do not). `ZeroReports.FalseReport` builds the run for every other
  class. The large tier recommits only what was not reported zeroed
  (`src/lib.rs:1303`), and `LargeRuns.HandOutIsTruthful` needs no such condition.
- A realloc within one big class returns the pointer unchanged by comparing
  sizes only (`src/lib.rs:1780-1794`). The comment there says that only big
  blocks get that far, but a block of such a size may be a large region taken
  when the arena had no big block. `Routing.BigIdentityCanOverrun` grows 131000
  bytes to 132800 inside 131024. `Routing.ReallocFitsExactly` shows that a
  successful realloc has room if and only if this path is not taken for a large
  region shorter than the new size. The C entry point tests the owner's class
  instead and always has room (`CRealloc.CReallocFits`).
- The page count of a large request is narrowed to 32 bits
  (`src/lib.rs:946`, `src/lib.rs:664`), so the branches that drop a recycled
  region as unusable are dead if and only if the request maps fewer than 2^32
  pages (`Regions.RecycledAlwaysUsable`; `Regions.HugeRequestDropsARegion` is a
  witness). Likewise the "nothing to add" branch of in-place growth is reached
  exactly when the rounding to pages wraps (`Regions.WrappedGrowth`).
- The medium tier accepts a free onto its active chain by address range alone
  (`src/cache.rs:1169-1172`) and keeps remembering a span whose chain is
  exhausted (`src/cache.rs:1686-1693`). `ActiveSpan.MediumRightExactly`: every
  block on the chain belongs to the remembered span in every run, if and only if
  spans have one page, or neither of two things happens while a span is
  remembered: frontier growth joins slices at one of its boundaries, for which
  the arena has to be longer than a span, or a span mapped outside the arena
  meets its range at another base. `ActiveSpan.GrownSliceMisleads` and
  `ActiveSpan.RemappedSpanMisleads` build a run for each, with the thread's chain
  in it; the second needs no arena at all.

## Model

| member | source | states |
|---|---|---|
| `PageSpec.ProvisionFacts` | src/page.rs:97-119 | lazy carving keeps a page well formed and adds exactly the next slots, up to the batch or the capacity |
| `PageSpec.TakeOneFacts` | src/heap.rs:190-226 | taking from a page yields a slot that was inside it and moves that slot and no other outside |
| `PageSpec.IdleHoldsAll` | src/heap.rs:4-8 | a page whose `used` count is zero has no block outside it |
| `PageSpec.FillMoves` | src/heap.rs:174-233 | a refill takes out distinct blocks that were inside their pages and nothing else, keeps every list well formed, and reports virgin only if each block was pristine |
| `PageSpec.FillCount` | src/heap.rs:174-233 | a refill moves exactly the minimum of the batch size and everything the linked pages can supply |
| `PageSpec.FillSupplied` | src/heap.rs:174-233 | after a refill exactly the pages in use that can still supply a block are linked |
| `PageSpec.FillSum` | src/heap.rs:174-233 | what a refill takes is exactly what the linked pages can supply less afterwards |
| `PageLife.ParkFacts` | src/heap.rs:280-323 | parking an idle page on the empty list, in the cold array or for unmapping moves no block and touches no other page |
| `PageLife.ParkLadder` | src/heap.rs:280-323 | an idle page goes to the front of the empty list while it has room, else to the cold array while that has room, else to unmapping; a cold entry records the purge report for small pages and asks for an untrusted recommit for spans |
| `PageLife.ReleaseFacts` | src/heap.rs:257-278 | releasing a chunk brings home its blocks and nobody else's, and makes no page virgin |
| `PageLife.RetireFacts` | src/heap.rs:325-332 | the retire shortcut has the effect of releasing all used blocks of the page |
| `PageLife.ReleaseSupplied` | src/heap.rs:257-332 | release and retire leave exactly the pages that can supply a block linked |
| `PageLife.ReleaseDooms` | src/heap.rs:257-350 | a release or retirement gives its page up for unmapping if and only if the chunk holds all the used blocks and both retention lists are full, and then no block of the page is outside |
| `PageLife.ReuseEmptyFacts` | src/heap.rs:375-391 | reusing an empty page moves no block and makes no slot pristine |
| `PageLife.ReuseColdFacts` | src/heap.rs:393-433 | re-carving a cold page moves no block and is virgin only as its purge reported |
| `PageLife.MapFreshFacts` | src/heap.rs:436-450 | a freshly mapped page joins the heap, not yet linked, without moving a block |
| `PageLife.LinkFreshFacts` | src/heap.rs:447-449 | linking the fresh page puts it on the partial list, moves no block and makes no slot pristine |
| `PageLife.UnmapFacts` | src/heap.rs:334-350 | unmapping a page released over the caps moves no block, and the page is neither mapped nor waiting afterwards |
| `PageHeap.ListHead.LinkPartial` | src/heap.rs:140-149 | the in-place push on the doubly linked list is the value's `Link`; links and flags stay consistent |
| `PageHeap.ListHead.UnlinkPartial` | src/heap.rs:151-172 | the in-place removal takes out exactly that page, if it was linked, and reports whether it was |
| `PageHeap.ListHead.PopBlock` | src/heap.rs:193-205 | pops one block off a linked page's list and counts it as used, changing no other header |
| `PageHeap.ListHead.ProvisionPage` | src/heap.rs:207-215 | materializes further blocks of a linked page as `Provision` does, changing no other header |
| `PageHeap.ListHead.DrainPage` | src/heap.rs:188-222 | the inner loop stays on track to the whole refill and either takes a block or shortens the list |
| `PageHeap.ListHead.FillFromList` | src/heap.rs:174-233 | the nested loop over headers terminates and computes `Fill`: the same heap, chain and virgin report |
| `PageHeap.ListHead.ParkEmptyPage` | src/heap.rs:280-323 | computes `Park`, and asks for unmapping exactly when both retention lists are full |
| `PageHeap.ListHead.ReleaseInner` | src/heap.rs:257-350 | computes `Release`, relinking a page that can supply again; asks for unmapping if and only if the chunk holds every used block and both retention lists were full, and then no block of the page is outside |
| `PageHeap.ListHead.RetirePage` | src/heap.rs:325-350 | computes `Retire` for a chunk holding every used block; asks for unmapping if and only if both retention lists were full, and then no block of the page is outside |
| `PageHeap.ListHead.ReleaseGroups` | src/heap.rs:477-600 | the locked loop over the chunks of a batch computes `Batch.Grouped`, and the pages it names for unmapping, each once, are exactly those the batch dooms |
| `PageHeap.ListHead.TakeBlocksLocked` | src/heap.rs:366-433 | the locked take computes `TakeHeap`: partial list, else an empty page, else a cold page |
| `PageHeap.ListHead.WakeEmptyPage` | src/heap.rs:375-391 | computes `ReuseEmpty`, reinitializing a retired page |
| `PageHeap.ListHead.WakeColdPage` | src/heap.rs:393-433 | computes `ReuseCold` on the newest cold page |
| `Ownership.PopInv` | src/cache.rs:945-998 | an allocation hit keeps the ownership invariant |
| `Ownership.PushInv` | src/cache.rs:1098-1144 | a free keeps the ownership invariant |
| `Ownership.MoveInv` | src/cache.rs:812-833 | handing a chain with its watermark to an empty key keeps the invariant |
| `Ownership.DetachInv` | src/cache.rs:1890-1969 | popping part of a bin to return it keeps the invariant, watermark included |
| `Ownership.FillInv` | src/heap.rs:174-233 | a refill into a carried chain keeps the invariant |
| `Ownership.WakeEmptyInv` | src/heap.rs:375-391 | reusing an empty page keeps the invariant |
| `Ownership.WakeColdInv` | src/heap.rs:393-433 | recommitting and re-carving a cold page keeps the invariant, whatever every recommit leaves there |
| `Ownership.MapInv` | src/heap.rs:436-450 | mapping and initializing a page outside the lock keeps the invariant |
| `Ownership.LinkInv` | src/heap.rs:447-449 | linking a mapped page under the lock keeps the invariant |
| `Ownership.UnmapInv` | src/heap.rs:334-350 | unmapping a page outside the lock keeps the invariant |
| `Ownership.ReleaseInv` | src/heap.rs:257-332 | returning a chunk, purging its page if it goes cold, keeps the invariant for every purge report that obeys the contract |
| `OwnershipRuns.StepInv` | src/heap.rs:366-600 | every step of every thread keeps the whole invariant |
| `OwnershipRuns.OnePlace` | src/heap.rs:4-8 | in every reachable state each slot of each mapped page is in exactly one place: uncarved tail, page list, one position of one chain, or the user |
| `OwnershipRuns.UsedCountsHolders` | src/heap.rs:6-8 | in every reachable state `used` is the number of blocks that caches, carried chains and users hold |
| `OwnershipRuns.DeadPagesAreFree` | src/heap.rs:6-8 | no page is parked, cold or awaiting unmapping while anybody holds one of its blocks |
| `OwnershipRuns.PurgeIsExclusive` | src/heap.rs:294-319 | in every reachable state, when a release parks or purges a page, the releasing thread carried every block of it that was outside |
| `OwnershipRuns.NothingTouchesAbsent` | src/heap.rs:405-423 | in every reachable state no header in use and no held block lies in a decommitted range, and a cold page is recommitted before it is carved |
| `OwnershipRuns.TakeFindsBlocks` | src/heap.rs:366-433 | the locked take yields a block if and only if something is linked, parked or cold |
| `OwnershipRuns.TakeIsTakeHeap` | src/heap.rs:366-433 | the protocol's step is what the locked section computes: heap, chain and watermark |
| `OwnershipRuns.FreeThenAlloc` | src/cache.rs:945-1144 | freeing a block and allocating again returns the same block, never as zeroed, and restores the chain |
| `OwnershipRuns.HandMoves` | src/cache.rs:812-833 | a chain can be handed to any empty key and arrives whole, watermark included |
| `OwnershipRuns.FlushMoves` | src/cache.rs:1890-1969 | any number of a bin's top blocks can be flushed, and the rest keeps what the watermark says of it |
| `OwnershipRuns.CarriedCanBeReleased` | src/heap.rs:477-600 | whatever a thread carries can be released in one batch of one chunk per page, and the heap is then `Batch.Grouped` |
| `OwnershipRuns.BlockComesHome` | src/heap.rs:477-600 | from every state of the invariant, a user block that is freed, flushed and released is back inside its page, and no other block moved |
| `OwnershipRuns.BlockCanBeHad` | src/heap.rs:366-433 | while a page is linked, parked or cold, a locked take, an install and one allocation give the user a block that was inside its page, and nobody loses one |
| `OwnershipRuns.FreshPageYields` | src/heap.rs:436-450 | mapping a page and linking it always yields blocks that were not outside before |
| `OwnershipRuns.DischargedIsGone` | src/heap.rs:334-350 | an unmapped page is forgotten and its address may be mapped again |
| `OwnershipRuns.WriteLands` | src/cache.rs:969-998 | a user may write any block it holds; only that block's contents change |
| `OwnershipRuns.UserDataStays` | src/heap.rs:366-600 | no step of any thread, purges and recommits that leave anything included, changes what a block in a user's hands holds, except that user's own write |
| `ZeroReports.WriteTruth` | src/cache.rs:969-998 | a user's write cannot reach a block below a watermark, a pristine slot or a page believed to be zero |
| `ZeroReports.WakeColdTruth` | src/heap.rs:393-433 | on a safe backend a cold page believed to be zero still is after its recommit |
| `ZeroReports.ReleaseTruth` | src/heap.rs:306-318 | a purge report that obeys the contract keeps all zero reports true |
| `ZeroReports.StepTruth` | src/heap.rs:366-600 | on a safe backend every step keeps all zero reports true |
| `ZeroReports.ZeroReportIsTrue` | src/cache.rs:969-1062 | in every run on a safe backend a block reported zeroed reads zero beyond its link word |
| `ZeroReports.FalseReport` | src/heap.rs:405-433 | for every class and backend that is not safe, a run that ends in a false report |
| `ZeroReports.ZeroReportsExactly` | src/heap.rs:280-323 | zero reports are true in every run if and only if a recommit keeps readable contents, physical and zeroed are never reported together, or the class does not rely on purges |
| `Batch.BatchEqualsSingles` | src/heap.rs:477-600 | releasing page-grouped chunks, shortcut included, leaves every page that still has users as returning the blocks one by one: same count, slots, carved area and list membership |
| `Batch.GroupedFacts` | src/heap.rs:477-499 | a batch brings home exactly the grouped blocks |
| `Batch.SingleStep` | src/heap.rs:458-475 | a single return is a plain release of one block, never the retire shortcut |
| `Batch.OneByOneFacts` | src/heap.rs:458-475 | returning blocks singly brings home exactly those blocks |
| `Batch.PurgedIsWhole` | src/heap.rs:524-528 | a page can be purged by a batch only if the batch holds all its used blocks, as counted when the batch began |
| `Batch.GroupByPage` | src/cache.rs:1890-1969 | the grouping loop yields one non-empty duplicate-free chunk per page, with the blocks of that page in chain order, and covers exactly the given blocks |
| `Batch.GroupsArePlan` | src/cache.rs:1821-1888 | what the grouping loop builds from a held chain may be released chunk by chunk |
| `Links.ChainUnique` | src/page.rs:372-389 | the link words determine the sequence of blocks |
| `Links.ChainNoDup` | src/page.rs:372-389 | a null-terminated chain visits no block twice |
| `Links.SpliceLemma` | src/heap.rs:257-278 | writing the tail's link puts a whole chain on top of a list |
| `Links.LinkWords.PushBlock` | src/page.rs:372-376 | pushes one block and writes no other word |
| `Links.LinkWords.PopBlock` | src/page.rs:378-389 | pops the top block, or nothing from an empty list |
| `Links.LinkWords.Provision` | src/page.rs:101-119 | the carving loop links exactly the slots of the specification, lowest on top, and writes only fresh blocks |
| `Links.LinkWords.CarveRun` | src/page.rs:106-118 | the loop from the highest slot down builds the chain with the lowest slot on top |
| `Links.LinkWords.Splice` | src/heap.rs:257-278 | one write to the tail puts the chunk on top of the page's list |
| `Links.LinkWords.Tail` | src/cache.rs:1696-1699 | walking a chain ends at its bottom block |
| `Links.LinkWords.FindSlot` | src/heap.rs:501-600 | finds the chunk of a page, trying the last one first |
| `Links.LinkWords.RouteOne` | src/heap.rs:501-600 | hangs one block under its chunk's tail and leaves the unread rest of the chain alone |
| `Links.LinkWords.Route` | src/heap.rs:501-600 | rebuilds, for every chunk, the chain of its page's blocks in order, and writes no word outside the batch |
| `Links.LinkWords.ReleaseBinChunks` | src/heap.rs:501-600 | each surviving page's list is its old list under its blocks of the batch, and no link is read after its page may be purged; a chunk is retired by the count the code compares |
| `Links.LinkWords.SpliceAll` | src/heap.rs:501-600 | splices or retires each chunk while the chunks and lists of all other pages stay intact |
| `Links.LinkWords.SpliceOne` | src/heap.rs:501-600 | touches the words of one page only, and removes them only if that page is purged |
| `ThreadCache.Cache.Pop` | src/cache.rs:945-998 | pops the top block, reports the watermark, keeps both byte counters exact |
| `ThreadCache.Cache.Push` | src/cache.rs:1098-1144 | pushes the block, keeps the watermark and both counters exact |
| `ThreadCache.Cache.Install` | src/cache.rs:1000-1062 | installs a batch, hands out its top, keeps both counters exact |
| `ThreadCache.Cache.FlushTo` | src/cache.rs:1890-1969 | keeps exactly the bottom blocks up to the floor and returns the rest in order, in full chunks except the last |
| `ThreadCache.Cache.PopUpTo` | src/cache.rs:1893-1925 | one chunk of a flush: exactly the top blocks, as many as the chunk holds or as lie above the floor |
| `ThreadCache.FlushExact` | src/cache.rs:1890-2175 | the per-block saturating subtractions of a flush never saturate: the counters equal the bytes left |
| `ThreadCache.Cache.Heaviest` | src/cache.rs:1730-1738 | finds the first heaviest chain of a tier among those long enough, or that there is none |
| `ThreadCache.Cache.Shed` | src/cache.rs:1739-1743 | one round keeps the bottom of the chosen chain up to exactly the floor, returns exactly the rest, leaves every other chain alone and keeps the accounts exact |
| `ThreadCache.Cache.PickSpan` | src/cache.rs:1744-1787 | active chains are flushed whole before any medium or big bin |
| `ThreadCache.Cache.PickBin` | src/cache.rs:1788-1817 | halves the heavier of the heaviest medium and big bins; none only if all are empty |
| `ThreadCache.Cache.PickVictim` | src/cache.rs:1729-1817 | chooses the heaviest small bin over a batch, else an active medium, else an active big chain, else the heavier of the heaviest bins; stops exactly when nothing is trimmable |
| `ThreadCache.Cache.Trim` | src/cache.rs:1723-1819 | every round starts above the target computed on entry and cuts exactly the victim to exactly its floor; it ends at or below the target or with nothing trimmable, flushes nothing if it starts there, and conserves blocks |
| `ThreadCache.Cache.StealEmptyBins` | src/cache.rs:812-833 | takes exactly the donor's chains for empty bins with their watermarks, conserves blocks; the donor's counter is too high by exactly the stolen bytes |
| `ThreadCache.Cache.FlushAll` | src/cache.rs:2179-2248 | returns every block and stashed region and makes the accounts exact whatever they were |
| `ThreadCache.Cache.AdoptPartly` | src/cache.rs:776-788 | the adopter has the donor's chains for exactly its empty small bins and its own otherwise, the donor is empty, and no block or stashed region is lost or duplicated |
| `ThreadCache.Cache.AdoptWhole` | src/cache.rs:742-765 | the guard holds if and only if nothing is cached or stashed, so whole adoption drops nothing |
| `ThreadCache.BytesZero` | src/cache.rs:742-743 | zero cached bytes means that every chain is empty |
| `ActiveSpan.ActiveChain.FreeBig` | src/cache.rs:1413-1429 | the identity test keeps every block on the chain in the remembered span |
| `ActiveSpan.ActiveChain.PopBig` | src/cache.rs:1387-1411 | pops the top, or forgets the span when the chain is exhausted |
| `ActiveSpan.ActiveChain.Adopt` | src/cache.rs:1498-1583 | a refill from one span makes that span active with all its blocks |
| `ActiveSpan.ActiveChain.PopMedium` | src/cache.rs:1147-1167 | pops the top and keeps the span remembered when the chain is exhausted |
| `ActiveSpan.ActiveChain.FreeMedium` | src/cache.rs:1169-1181 | accepts a block exactly if it lies in the remembered range, and is the move whose effect over runs `ActiveSpan.MediumRightExactly` decides |
| `ActiveSpan.ActiveChain.FlushBig` | src/cache.rs:2068-2089 | every block of a right chain is returned to its own span, and the span is forgotten |
| `ActiveSpan.ActiveChain.FlushMedium` | src/cache.rs:1686-1714 | every block of a right chain is returned to its own span; an empty chain leaves the span remembered |
| `ActiveSpan.MoveKeepsRight` | src/cache.rs:1169-1181 | every step of any thread, in the arena or outside, that neither joins slices at a boundary of the remembered span nor maps a span meeting it at another base keeps the chain right |
| `ActiveSpan.RangeTestWhileMapped` | src/cache.rs:1169-1172 | while the remembered span is still mapped, a page of a live slice passes the test if and only if the slice is that span |
| `ActiveSpan.ChainMoves` | src/cache.rs:1147-1167 | an allocation hit takes the top of the chain and keeps the span; a flush forgets the span exactly if the chain held something |
| `ActiveSpan.RemappedSpanMisleads` | src/heap.rs:882-893 | for every span length over one, a run without arena or growth that puts a block of a live span on the chain of an unmapped one |
| `ActiveSpan.GrownSliceMisleads` | src/cache.rs:1169-1172 | for every span length over one and every arena longer than a span, a run without outside mappings that puts a block of a live span on the chain of a dead one |
| `ActiveSpan.MediumRightExactly` | src/cache.rs:1169-1181 | the chain is right in every run if and only if spans have one page, or no growth crosses a remembered span (which takes an arena longer than a span) and no outside mapping meets one at another base |
| `RetiredSlots.StepInv` | src/cache.rs:2252-2321 | every atomic instruction keeps the slot, place and counter invariants |
| `RetiredSlots.DeliveredOnce` | src/cache.rs:2252-2321 | in every interleaving a slot is read only after it was written, no two slots hold one cache, and a delivered cache stays with its taker; that a READY cache is delivered is `RetiredSlots.TakeAlone` and `RetiredSlots.EmptyHanded` |
| `RetiredSlots.CounterFormula` | src/cache.rs:2282-2321 | the counter is ready slots minus pending adds plus pending subtracts modulo the word, hence exact when no thread is mid-step |
| `RetiredSlots.TakeAlone` | src/cache.rs:2298-2321 | from every state of the invariant a take that runs alone gets the cache of the first READY slot and empties that slot, unless the counter reads zero; with no thread mid-call it gets one if and only if some slot is READY |
| `RetiredSlots.RetireAlone` | src/cache.rs:2273-2294 | a retirement that runs alone fills the first EMPTY slot, and flushes if and only if there is none |
| `RetiredSlots.WaitFree` | src/cache.rs:2252-2321 | in every interleaving a call ends within twelve instructions of its own thread |
| `RetiredSlots.EmptyHanded` | src/cache.rs:2298-2321 | in every interleaving a taker that scanned and got nothing looked at every slot and found none READY at its own look |
| `RetiredSlots.FlushedForWant` | src/cache.rs:2273-2294 | in every interleaving a cache that was flushed found every slot not EMPTY at its retirer's own look |
| `HoleStore.Store.Take` | src/arena.rs:303-381 | whatever the index holds, finds a hole if and only if one is large enough, takes a smallest one and leaves the split remainder; the byte count stays exact |
| `HoleStore.Store.ExactHit` | src/arena.rs:314-326 | an exact-size hole is found whenever one exists, even through a stale bucket |
| `HoleStore.Store.Scan` | src/arena.rs:327-343 | the scan finds the first smallest sufficient hole, or that there is none |
| `HoleStore.Store.Remove` | src/arena.rs:351-374 | removes or shortens one hole, keeps the byte count, the length copy and the other holes; the old size's bucket is repaired and the remainder's points at it |
| `HoleStore.Store.Give` | src/arena.rs:388-415 | parks a slice if and only if slots and bytes allow it, and indexes it |
| `HoleStore.Store.RefreshExact` | src/arena.rs:149-163 | the bucket points at the first entry of its size, or is empty if there is none, and no other bucket changes |
| `HoleStore.RemainderStaysTakeable` | src/arena.rs:351-362 | after a split the remainder is a best fit for its own size and ends where the hole ended |
| `Arena.StepInv` | src/arena.rs:421-533 | every step of every thread keeps the partition, the match between parked slices and holes, and the byte count |
| `Arena.EveryPageInOneSlice` | src/arena.rs:303-533 | in every run each page below the frontier is in exactly one slice, and the byte counter is the total of the holes |
| `Arena.DiscardIsExclusive` | src/arena.rs:523-533 | a purged slice shares no page with another slice and is no hole |
| `Arena.BumpThenCommit` | src/arena.rs:421-465 | a claim at the frontier that is committed becomes a live slice of the length asked for |
| `Arena.GrowthExtends` | src/arena.rs:467-521 | frontier growth makes the slice longer by exactly what was claimed and changes no other slice |
| `Arena.DiscardThenGive` | src/arena.rs:523-533 | a slice given up by the thread that holds it is purged by that thread and then parked whole, or abandoned |
| `Arena.TakeThenGive` | src/arena.rs:303-415 | taking from a best-fitting hole claims its first pages, and giving the claim back restores the parked bytes |
| `Arena.FrontierReachesEnd` | src/arena.rs:421-521 | the frontier can be moved to the very end of the arena by a claim or by growth |
| `SideTable.TagsAreExclusive` | src/arena.rs:695-804 | a tagged entry decodes to its owner under its own kind and to null under the others |
| `SideTable.Table.Store` | src/arena.rs:698-762 | stores over exactly the pages of the range |
| `SideTable.Table.Set` | src/arena.rs:698-732 | recording a span keeps every entry exact |
| `SideTable.Table.Forget` | src/arena.rs:734-762 | clearing a span keeps every entry exact |
| `SideTable.Table.Grow` | src/lib.rs:1108-1114 | the pages added by frontier growth get the region's own header |
| `SideTable.Table.Lookup` | src/arena.rs:764-804 | non-null exactly for pages of a span of that kind, and then that span's owner |
| `SideTable.LookupExact` | src/arena.rs:764-804 | an exact table answers every lookup exactly |
| `SideTable.LookupUpTo` | src/arena.rs:764-804 | a lookup in the middle of loops of stores yields the owner under its kind, or none where the loop has not been or has cleared |
| `SideTable.AtMostOneLookup` | src/arena.rs:764-804 | at most one of the three lookups of a page is non-null, loops of stores under way or not |
| `SideTable.RewriteExact` | src/heap.rs:1262-1270 | re-carving a cold span may rewrite its entries without changing them |
| `OwnerTable.StepInv` | src/arena.rs:698-762 | every single store of a set, growth or clear loop and every arena step keep the table exact up to the loops under way, and its spans inside live slices |
| `OwnerTable.OwnedPageDecodes` | src/arena.rs:764-804 | a lookup at any moment, between any two stores, decodes to the owner covering the page or to none, and to the owner once the loop is done |
| `OwnerTable.OtherPagesDecodeToNone` | src/heap.rs:1272-1277 | in every run pages of holes, claims, abandoned slices and small pages decode to none |
| `OwnerTable.AtMostOneOwner` | src/arena.rs:764-804 | in every run at most one of the three lookups of a page is non-null |
| `OwnerTable.LoopEnds` | src/arena.rs:698-762 | a loop of single stores runs to its end, changes no word but its own span's, and leaves the span recorded if it was being set and gone if it was being cleared |
| `OwnerTable.SetRecords` | src/arena.rs:698-732 | recording a live slice, run to its end, makes every page of it decode to the owner |
| `OwnerTable.GrowRecords` | src/lib.rs:1108-1114 | recording the pages growth added makes the span as long as the slice, every page under the same owner |
| `OwnerTable.ClearForgets` | src/arena.rs:734-762 | clearing a span, run to its end, makes every page of it decode to nothing |
| `OwnerTable.RecordBetween` | src/arena.rs:523-533 | a committed claim can be recorded or discarded; a recorded slice cannot be discarded until its record is cleared, and then only by its holder |
| `LargeCache.Tier.Add` | src/lib.rs:533-555 | appends an entry and keeps every bucket and the byte total exact |
| `LargeCache.Tier.Refresh` | src/lib.rs:495-514 | makes one bucket exact and changes no other |
| `LargeCache.Tier.Exact` | src/lib.rs:557-581 | the index answers exact sizes completely |
| `LargeCache.Tier.ScanExact` | src/lib.rs:671-680 | finds an entry of exactly the wanted size if and only if one exists |
| `LargeCache.Tier.ScanFit` | src/lib.rs:681-702 | finds the first smallest sufficient entry, or that there is none |
| `LargeCache.Tier.Remove` | src/lib.rs:585-648 | removes exactly that entry with its flags and keeps every bucket and the byte total exact |
| `LargeCache.SwapRemoveContents` | src/lib.rs:585-648 | as a multiset the tier loses exactly the removed entry |
| `LargeCache.RegionCache.Pick` | src/lib.rs:663-703 | exact hot, else exact cold, else smallest fitting hot, else smallest fitting cold; nothing only if nothing qualifies |
| `LargeCache.RegionCache.TakeFit` | src/lib.rs:663-703 | takes the chosen entry, with its own flags, and nothing else |
| `LargeCache.RegionCache.Park` | src/lib.rs:1285-1308 | hot if there is room, else cold with what the purge reported, else not at all |
| `LargeCache.ChosenFits` | src/lib.rs:663-703 | a chosen region is long enough for every request below 2^32 pages |
| `LargeCache.Stash.Take` | src/cache.rs:1637-1667 | finds a region if and only if one is large enough, and takes the first smallest one |
| `LargeCache.Stash.Push` | src/cache.rs:1669-1684 | keeps a region if and only if a slot is free and the total stays within 32 MiB, or 64 MiB for a region of at least 4 MiB; the byte total stays exact |
| `Regions.LayoutIsSound` | src/lib.rs:921-1041 | a request is refused if and only if it overflows; otherwise, at every base, the header lies below the pointer inside the mapping, the pointer is aligned, and request and reserve end inside |
| `Regions.MappedExact` | src/lib.rs:921-945 | a request is refused if and only if its total rounded up to pages overflows the word; otherwise the mapping is the least whole number of pages that holds size, alignment, header and reserve |
| `Regions.RecycledAlwaysUsable` | src/lib.rs:946-1003 | recycled regions are always usable if and only if the request maps fewer than 2^32 pages |
| `Regions.HugeRequestDropsARegion` | src/lib.rs:946-974 | a request of 2^48 bytes is looked up as one page and drops the region it finds |
| `Regions.AlignmentRecovered` | src/lib.rs:1526-1533 | the alignment read off a pointer is at least the one it was allocated with |
| `Regions.AlignmentExact` | src/lib.rs:1526-1533 | the alignment read off a pointer is the largest power of two that divides it |
| `Regions.AllocatedHeaderOk` | src/lib.rs:1028-1041 | every allocated region starts with a sound header |
| `Regions.GrowKeepsSound` | src/lib.rs:1060-1118 | in-place growth keeps the region sound and adds whole pages, and is refused if and only if the region is outside the arena, the size does not grow, or beyond the mapping the rounding wraps, the added pages exceed 32 bits or the frontier is taken |
| `Regions.WrappedGrowth` | src/page.rs:363-367 | the "nothing to add" branch is reached exactly when the rounding to pages wraps |
| `Regions.PromotionServesTheRest` | src/lib.rs:1169-1227 | a promoted region serves every later increasing request up to its reserve in place if and only if it lies in the arena |
| `Regions.ReserveExact` | src/lib.rs:1211-1213 | the reserve is eight times the size, cut at the cap |
| `Regions.PromotionServesToTheCap` | src/lib.rs:1169-1227 | from an eighth of the cap on the reserve reaches the cap, so every later increasing request of the promotion range is served in place |
| `LargeRuns.StepInv` | src/lib.rs:947-1041 | every step of every thread keeps each region in one place and every entry's length and flags truthful |
| `LargeRuns.RegionInOnePlace` | src/lib.rs:1252-1318 | in every run each mapped region is with the user or at one position of one stash, shard tier or carrying thread |
| `LargeRuns.HandOutIsTruthful` | src/lib.rs:977-1003 | in every run, whatever recommits leave, a region is readable when its header is written, as long as its entry says, and zero whenever it is reported so |
| `LargeRuns.PurgeIsExclusive` | src/lib.rs:1244-1250 | in every run a purge before a hand-out acts on a region that only the purging thread holds |
| `LargeRuns.NoRegionIsLost` | src/lib.rs:921-1318 | in every run a region enters when it is mapped and leaves only when it is unmapped or dropped, and a step touches no region but its own |
| `LargeRuns.FreedCanBeReused` | src/lib.rs:947-1308 | a freed region, hot, cold or stashed, can be taken, recommitted if noted as decommitted, and handed out again, with every list and holder as before |
| `LargeRuns.NothingIsStuck` | src/lib.rs:921-1318 | in every run a region can be written, freed or unmapped by its user, taken from its list by any idle thread, and handed out, after a due recommit, or dropped by the thread that carries it |
| `LargeRuns.RegionChanges` | src/lib.rs:1244-1250 | a mapping is zero and as long as asked, growth only lengthens, a write changes what is read, and a hand-out purge leaves the entry with the report |
| `Registry.Chain.Link` | src/lib.rs:837-843 | pushes a header on its bucket |
| `Registry.Chain.Unlink` | src/lib.rs:845-864 | removes the header, if present, by redirecting its predecessor |
| `Registry.Chain.Contains` | src/lib.rs:866-886 | answers membership |
| `Registry.StepInv` | src/lib.rs:837-864 | every step keeps buckets, set and counter in agreement |
| `Registry.RegistryIsASet` | src/lib.rs:814-886 | in every interleaving the counter is the set's size plus inserts under way, zero means empty, and a lookup answers membership |
| `Registry.MemberStays` | src/lib.rs:845-864 | no step but its own removal takes a linked region out |
| `Registry.LookupAcrossSteps` | src/lib.rs:866-886 | a region linked at the first reading of a lookup and not removed before the second is found, however far apart they are |
| `Registry.RegisterThenRemove` | src/lib.rs:837-886 | a registered region is found by the pointer behind its header, and removing it restores the registry |
| `Registry.ExpectedExact` | src/lib.rs:866-876 | a pointer is looked up under exactly the one aligned header that could be in front of it |
| `Classes.BuildClasses` | src/classes.rs:18-42 | the small table is the saturating geometric chain, in order, and ends at the largest small size |
| `Classes.BuildChain` | src/classes.rs:117-179 | the medium and big builders produce the strictly increasing chain closed by the cap |
| `Classes.SmallChainEnds` | src/classes.rs:18-42 | the chain reaches the largest small size within 64 classes |
| `Classes.ScanFrom` | src/classes.rs:57-77 | the linear scan returns the smallest class that fits |
| `Classes.BuildLut` | src/classes.rs:44-55 | every table entry is the scan's answer for the size it stands for |
| `Classes.SmallLookupIsSmallest` | src/classes.rs:57-85 | the small table lookup is the smallest class that fits, zero included, and the last class beyond the table |
| `Classes.TierLookupIsSmallest` | src/classes.rs:213-247 | the medium and big lookups are the smallest class that fits, for every size of the tier, and the last class otherwise |
| `Classes.WasteIsBounded` | src/classes.rs:108-115 | a request wastes at most an eighth of its size plus the rounding to 16 |
| `Carve.SlotsTile` | src/page.rs:101-119 | slots lie inside the run, do not overlap, and no further one would fit |
| `Carve.CarveRun` | src/page.rs:306-331 | the carving loop yields exactly the slots that fit |
| `Carve.PageHoldsExactly` | src/page.rs:97-99 | a small page has exactly the slots that fit behind its header |
| `Carve.SmallSlot` | src/page.rs:74-119 | a small slot misses the header, stays in its page, and masking its address finds the page |
| `Carve.CountsFit` | src/page.rs:97-99 | block counts of a small page fit the header fields with the flag bit to spare |
| `Carve.InitArenaSpan` | src/page.rs:306-331 | a span in the arena yields the formula's number of contiguous blocks inside the mapping |
| `Carve.InitLegacySpan` | src/page.rs:181-243 | a span outside the arena yields the formula's number of disjoint blocks, none on a header or across a page |
| `Carve.CapacityAtLeast` | src/classes.rs:189-199 | a span holds n blocks if and only if they and the master header fit |
| `Carve.SpanPagesFor` | src/classes.rs:201-211 | the search finds the least length that holds the target, which the closed form also gives |
| `Carve.BigSpanPagesLeast` | src/classes.rs:345-351 | the closed form is the least length that holds the target |
| `Routing.AllocationIsRouted` | src/lib.rs:1348-1411 | every allocation outcome, fallback included, holds the request, and both frees find its tier and class from what the tables say about its address |
| `Routing.RoutedIsFound` | src/lib.rs:1535-1697 | decoding the page's word, the registry and the headers in the code's order leads to the block's own heap |
| `Routing.TierExact` | src/lib.rs:1348-1411 | which tier serves a request, for every size and alignment, and that its class is the smallest that fits |
| `Routing.FreesAreChecked` | src/lib.rs:1535-1697 | whatever is read, a free answers a span only if that span contains the pointer or the layout and the table agree on it, and a page or region only if header, table or registry name it |
| `Routing.ReallocIsRouted` | src/lib.rs:1721-1838 | every realloc path leaves the block routed |
| `Routing.HistoryIsRouted` | src/lib.rs:1721-1838 | after any history of reallocs both frees still find the heap the block was carved from |
| `Routing.ReallocTestsExact` | src/lib.rs:1187-1208 | the table tests of promotion and growth hold exactly for packed big blocks and arena regions |
| `Routing.PathExact` | src/lib.rs:1721-1838 | a realloc fails, stays, grows in place or moves exactly as block, size and environment say: it fails only with no shared class, no granted growth, no promotion and no memory |
| `Routing.GrowthIsRegionGrowth` | src/lib.rs:1060-1118 | in-place growth of a block is the growth of its region's header and gives the room asked for |
| `Routing.ReallocFitsExactly` | src/lib.rs:1721-1838 | a successful realloc has room if and only if it is not the big identity path on a too short large region |
| `Routing.SameClassFits` | src/lib.rs:1731-1794 | a packed block's class holds every size of the class |
| `Routing.BigIdentityCanOverrun` | src/lib.rs:1785-1794 | growing 131000 to 132800 bytes on a fallback region returns the pointer with 131024 usable bytes |
| `Dispatch.ReadingIsRight` | src/lib.rs:1535-1600 | in every run of arena, side table and registry, what is read for the address of a block that lives at a site is what its kind calls for, whatever user data looks like |
| `Dispatch.BothFreesFindTheHeap` | src/lib.rs:1535-1697 | in every run and after every realloc history both frees find the tier and class of a block from where it lives, which `Homes.HasLives` derives |
| `Dispatch.SmallPageStays` | src/arena.rs:467-533 | no arena or table step but its own discard or recording ends a small page |
| `Dispatch.SpanStays` | src/arena.rs:659-762 | no arena or table step but its own clearing ends a recorded span, its own growth included |
| `Dispatch.BlocksApart` | src/arena.rs:421-533 | in every run no two live blocks of the arena share a byte, whatever their pages, classes and tiers |
| `Homes.HasLives` | src/page.rs:84-119 | every block an open page, span or region can hand out lives where its headers and the tables say |
| `Homes.OpenSliceHandsOut` | src/page.rs:84-119 | opening a slice as page, span or region makes each of its slots a block that may be handed out, and closing it ends that |
| `Homes.OpenMappingHandsOut` | src/page.rs:181-243 | the same for pages and spans mapped outside the arena |
| `Homes.RegisteredRegionHandsOut` | src/lib.rs:896-903 | a region outside the arena may be handed out once its header is written and it is registered |
| `Homes.CommittedOpens` | src/heap.rs:1272-1277 | a slice that was just committed can be opened as a page of any small class |
| `Homes.EveryClassOpens` | src/page.rs:181-331 | a recorded span can be opened for every class of its tier, and any mapping that meets no other as page, span or region |
| `Homes.TablesGoOn` | src/arena.rs:467-762 | open homes hold up no table step that leaves their slices alone, and regions may grow |
| `Homes.UnnamedCloses` | src/lib.rs:905-912 | a region's mapping can be closed once neither the registry nor an insert under way names it |
| `Homes.WriteLands` | src/page.rs:84-119 | a user write changes the words it addresses and nothing else |
| `Homes.OpeningWritesItsOwn` | src/page.rs:84-119 | opening writes only the first byte of its slice, the first bytes of its mapping's pages or its own region header, and no other step but a user write touches memory |
| `Homes.WriteOffHeaders` | src/page.rs:181-243 | what a user writes into its block stands at no header of any open page or span |
| `Homes.StepInv` | src/lib.rs:896-912 | mapping, carving, recording, growing, clearing, registering, unmapping and arbitrary user writes keep every open home |
| `Homes.FreesFindEveryHome` | src/lib.rs:1535-1697 | in every run, and after every realloc history, both frees of a block that an open home handed out find its tier and class |
| `Homes.BlocksShareNothing` | src/page.rs:74-243 | in every run no two different blocks of open homes share a byte, in the arena or outside |
| `Contents.ReallocKeepsBytes` | src/lib.rs:356-397 | the first min(old, new) bytes survive and every other live block and its bytes are untouched; null is answered, and nothing changed, exactly when the block can neither stay, grow nor be promoted and no memory can be had |
| `Contents.ReallocKeepsWorld` | src/lib.rs:1756-1838 | live blocks stay separate, routed and large enough, if and only if the failing identity case is not taken |
| `Contents.ReallocAnswer` | src/lib.rs:1721-1838 | null exactly when nothing works and no memory can be had, the same pointer exactly for a shared class or a granted growth, otherwise the new block in the tier the request routes to |
| `Contents.PromotionKeepsAll` | src/lib.rs:1214-1227 | a promotion keeps everything the old class could hold |
| `Contents.RelocateKeeps` | src/lib.rs:1824-1837 | copying before the old block is given up keeps the copied bytes and disturbs no other block |
| `CRealloc.IdentityFits` | src/lib.rs:1945-2002 | the C entry point's identity test, on the owner's class, always has room |
| `CRealloc.CReallocFits` | src/lib.rs:1878-2018 | a successful C realloc has the room asked for on every path |
| `CRealloc.CPathExact` | src/lib.rs:1878-2018 | when the C entry point fails, stays, grows or moves, in terms of block, size and environment |
| `CRealloc.CReallocAnswer` | src/lib.rs:1878-2018 | null exactly beyond the signed range or when nothing works and no memory can be had, the same pointer exactly for the class the block has or a granted growth |
| `CRealloc.GrowthIsRegionGrowth` | src/lib.rs:1940-1943 | in-place growth through the C interface is the growth of the region's header |
| `CRealloc.CReallocKeeps` | src/lib.rs:1878-2018 | everything the old block could hold survives up to the new size and all blocks stay separate and valid; null is answered, and nothing changed, exactly beyond the signed range or when nothing works and no memory can be had |
| `CRealloc.FreeFinds` | src/lib.rs:1535-1600 | the pointer-routed free finds every block of the C interface |

## Left out

- The operating-system layer (`src/sys/`): only the map, purge, recommit and commit contract is kept.
- Weak memory ordering: every atomic instruction is a sequentially consistent step.
- Thread-exit hooks, the thread-local state guard and spin waits: a cache keeps its number through exit, the queue and adoption, so moving a whole cache is not a step of the ownership machine.
- Owner ids, the drift gate and foreign-byte shedding: heuristics that only decide when `Trim` is called; trimming is proved from every well-formed cache.
- Counters, telemetry and statistics: nothing that correctness depends on reads them.
- Debug validators and abort paths for misused pointers: clients free only live blocks with the right layout.
- Zero-size layouts, `calloc`, `aligned_alloc` and `usable_size`: they validate arguments and forward to the allocation, zeroing and lookup paths modelled here; null and zero-size calls of the C realloc forward to `malloc` and `free`.
- The concrete class tables as enumerated facts: the builders and lookups are proved for the chains they compute.
- The ownership machine covers one size class: no path holds two class locks, and no block changes class. The retention caps are counts, since all spans of a class have the same length and byte caps are then counts.
- The empty list of the medium and big tiers, their spans and their releases are instances of the same page values with eager carving and an untrusted purge report; the per-tier copies of the code are not modelled separately.
- The free list inside a page header is a sequence in `PageHeap`; `Links` shows how link words represent such sequences.
- The recovery branches for list corruption (a refill that does not advance, a chunk without a slot) guard states that the invariants exclude and are not modelled.
- ActiveSpan.ActiveChain.FreeMedium: promises nothing about whose blocks the chain then holds, since the code does not ensure it; what it does ensure over runs is `ActiveSpan.MediumRightExactly`.
- `GlobalHeap::release_blocks` passes its chain as head and tail (`src/heap.rs:458-460`), which is right for one block; every caller passes one, and that is how it is modelled.
- Dispatch.BlocksApart: covers the arena; `Homes.BlocksShareNothing` covers all blocks, given that the system's mappings outside the arena share no byte.
- Regions.RecycledAlwaysUsable: stated for reserves of at most the big cap, which is all that promotion asks for.
- LargeRuns.StepInv: regions are named by their base; that slices do not overlap is `Arena.EveryPageInOneSlice`, and which entry a take chooses is `LargeCache.RegionCache.Pick`.
- Homes.StepInv: that a page, span or region is closed before it is cleared or unmapped is the page heap's part (`OwnershipRuns.DeadPagesAreFree`) and a guard of the steps here.
- Routing.ReallocIsRouted: whether a growth succeeds is a choice of the environment here; that choice is tied to the region header by `Routing.GrowthIsRegionGrowth`.
