# Verified models of kernel data structures and tools

A Dafny project beside a small Linux kernel. It models the parts of the repository whose state must agree with a simple
mathematical object (a set of pages or addresses, a finite map, a stack, a program's meaning) and proves that it does, for
every input, every run or every reachable state. `dafny verify dfyconfig.toml` checks everything.

**unifdef** (`Preprocessor`, `Unifdef*`). The table-driven machine over `#if` nesting is given a meaning independent of its
table: a preprocessor that reads one directive at a time, which agrees with the grammar of section 6.10.1 of ISO/IEC
9899:1999. The output of a run means what its input means, and `UnifdefRemoval` says what is left in it. `UnifdefProgram` is the program with its stacks and buffers,
proved equal to the machine; `UnifdefExpr` and `UnifdefEval` are the condition evaluator, which answers for all completions
of the unknown symbols; `UnifdefWhole` joins the two.

**Percpu chunks** (`Percpu*`). Bitmap, boundary bitmap and block summaries, updated incrementally, always equal what a full
scan gives; the chunk's own hint does after a refresh, and `PercpuHint` says exactly when it stays sound without one.
`PercpuFit` says exactly what the search by summaries can see.

**vmalloc** (`Vmalloc*`, `Align`). First fit from a cached start, where the cached hole size bounds every gap
below that the request could use, and the top-down scan that places several
areas at fixed distances; its base is modelled with the 64-bit wrap that the code allows for.

**Buddy allocator** (`BuddyBlocks`, `BuddyZone`). The free blocks of a zone are the one canonical family that covers the
free pages. Lists, counters and page marks follow it, and the per-cpu list loses no page.

**memblock** (`Memblock*`). Region arrays as maps from addresses to flags, the two-pass insertion, the two-index iterators in
both directions, and the searches and allocations on top of them.

**Radix tree, XArray, IDR** (`RadixTree`, `RadixDigits`, `IdrTree`, `Idr`; `RadixMap`, `RadixIndex`). An index is the path
of its digits. Counts, tags and height follow from the indices in use, through growth, shrinking and deletion.

**llist** (`Llist`). Adders and one consumer, interleaved at every shared access, against a stack.

**SLUB** (`Slub*`). CPUs and frees in progress, interleaved at every compare-and-exchange, lock and list operation.
`SlubFastPath` takes the fast paths apart, access by access, with preemption and migration in between; `SlubPages` says
where the objects then are, and `SlubLost` shows the run that loses one. `SlubLedger` keeps the books of every step, and
`SlubAlone` and `SlubFastAlone` say what the calls come to without interference.

**Decimal conversion, GCD, escaping** (`Decimal`, `PutDec`, `Gcd`, `Escape*`). Exact arithmetic and codecs.

`Stride` and `Shifts` hold offsets in rows of equal blocks and shifts by bits. Sizes that the headers or the configuration
fix (the order limit, the fan-out of tree nodes, block and page sizes, the partial-list minimum) are parameters.

## Where the code differs from its own words

- unifdef keeps numbers in an int and skips their suffixes, so numbers outside its range and unsigned ones can be misjudged
  (`UnifdefWhole.TrustedExactlyIfPlain` and `SymbolTrustedExactly` say exactly which).
- unifdef says that a dodgy directive must not change between printing and dropping; one table entry does
  (`UnifdefMeaning.DodgySwitchesExactlyOnce`).
- vmalloc says that a request which fits the recorded hole rescans; a request of exactly its size does not
  (`VmallocMissed.HoleOfExactSizeIsMissed`). A search is complete from the caller's start in every other case, and
  `Vmalloc.MissedExactly` says when it misses something.
- percpu says that the chunk's hint is never more than the space there is. It is exact after every refresh, but without one it
  can become so in two ways: a free pairs the start of the freed run with the longest run of the block
  (`PercpuOverstated.MispairedHint`), and an allocation is only asked whether it starts in the hint
  (`PercpuOverstated.HintReachedInto`). `PercpuArea.Chunk.FreeArea` and `AllocArea` say exactly when a sound hint stays sound.
- slub says that a transaction id which is unchanged means that nothing happened. That is so for the list. The page of the CPU
  can be given up without a new id, when its list is empty and no other page is found, and a free that looked at the page
  before then puts its object on the list all the same (`SlubPages.OwnPagesExactly`). A slow path that is already under way
  there sets up another page over that list, and the object is lost (`SlubLost.ObjectIsLost`; `SlubPages.LostExactly` says
  when).
- vmalloc calls the noted hole the highest candidate for percpu areas; it need not be (`VmallocHole.HoleIsNotHighest`, and
  `VmallocHole.OverlookedExactly` for when something higher is overlooked).
- memblock looks for room in one region at a time, so free memory across two regions that differ in flags is not found
  (`MemblockSeams.FitsExactly`).
- `idr_alloc_u32()` subtracts the base from the limit in 64 bits; a limit below the base becomes huge
  (`Idr.LimitMeansMax` says exactly when the limit means what it says). It cuts the id to 32 bits, so that the one reported is
  the one bound exactly if that is below 2^32 (`Idr.Idr.AllocU32`).
- `string_unescape()` calls its size the size of the destination, but takes two from it for every escape
  (`Escape.TightBufferCuts`; `Escape.RoundTrip` gives the exact condition).
- ESCAPE_ANY_NP, and any flags without the octal or the hex class, cannot be undone for every buffer
  (`Escape.ReversibleFlags`); `EscapePrintable.SurvivesExactly` says for which buffers the former can.

## Model

| member | source | states |
|---|---|---|
| Preprocessor.MachineMatchesGrammar | scripts/unifdef.c:427-502 | the directive-by-directive preprocessor, against which the table is judged, selects what the nested grammar selects |
| UnifdefMeaning.OutputMeansInput | scripts/unifdef.c:427-502 | for every typed file that is processed to the end and every truth assignment that agrees with the known conditions, preprocessing the output (with the elif-to-if, elif-to-else and elif/else-to-endif edits) selects exactly the text lines selected from the input, and the output is well nested |
| UnifdefMeaning.AcceptsExactlyWellNested | scripts/unifdef.c:427-502 | with directives on one line each, the run finishes if and only if the input is well nested and not nested deeper than the stack; otherwise it exits with an error |
| UnifdefRemoval.NoJudgedConditionIsLeft | scripts/unifdef.c:439-502 | with directives on one line each, every #if and #elif of the output carries the condition of an input line that could not be judged |
| UnifdefRemoval.TextLeftExactly | scripts/unifdef.c:427-502 | when no two lines carry the same condition, a text line is left if and only if some truth assignment that agrees with the verdicts selects it from the input |
| UnifdefRemoval.RunPromises | scripts/unifdef.c:427-502 | at every point of a run, every level that prints can be active, and every level that may go on can still be undecided |
| UnifdefMeaning.NeverAborts | scripts/unifdef.c:458-502 | no file of typed lines, dodgy ones included, reaches an abort entry of the table |
| UnifdefMeaning.RunNests | scripts/unifdef.c:427-502 | a run of typed lines never aborts; while it runs, its stack has the nesting of the lines read; with directives on one line each, a run that has exited read lines that are ill nested or too deep |
| UnifdefMeaning.RunKeeps | scripts/unifdef.c:427-502 | the run and the preprocessor of its output stay in step with the preprocessor of its input after every line |
| UnifdefMeaning.DodgySwitchesExactlyOnce | scripts/unifdef.c:406-409 | a dodgy directive changes between printing and dropping at exactly one entry of the table, an unknown #elif after only false branches |
| UnifdefProgram.Program.Process | scripts/unifdef.c:584-596 | the loop over the lines, with its stacks and buffers, gives the outcome and the output of the machine on every file |
| UnifdefProgram.Program.Dispatch | scripts/unifdef.c:424-502 | one table entry acts on the stacks and the output as the machine step for that entry |
| UnifdefProgram.Program.Nest | scripts/unifdef.c:527-535 | pushes a level, or exits exactly when the stack is full |
| UnifdefProgram.Program.Unnest | scripts/unifdef.c:537-542 | pops a level; fails only at the bottom |
| UnifdefProgram.Program.State | scripts/unifdef.c:544-547 | sets the state of the current level and no other |
| UnifdefProgram.Program.FlushLine | scripts/unifdef.c:553-578 | appends the line exactly if it is kept |
| UnifdefExpr.Unambiguous | scripts/unifdef.c:802-816 | tokens are the text of at most one expression of the precedence table |
| UnifdefExpr.LevelInverts | scripts/unifdef.c:802-816 | parsing at any level of the table inverts printing, in front of any text that stops the level |
| UnifdefEval.EvalUnary | scripts/unifdef.c:825-907 | reads exactly one innermost expression, fails exactly on what cannot be read or evaluated, and the verdict and value are those of its three-valued meaning |
| UnifdefEval.EvalTable | scripts/unifdef.c:913-944 | the same for one level of binary operators, folded to the left |
| UnifdefEval.OpDescribes | scripts/unifdef.c:746-777 | the operators give the three-valued meaning of the whole from those of the sides, although an unknown operand leaves its integer stale |
| UnifdefEval.SkipArgs | scripts/unifdef.c:1084-1103 | stops after the matching parenthesis, or does not move |
| UnifdefEval.IfEval | scripts/unifdef.c:952-962 | the verdict is the three-valued truth of the expression the tokens say, unless it uses a symbol that is not a number or is a constant to be left alone; a known one holds under every completion |
| UnifdefEval.OneSideDecides | scripts/unifdef.c:768-777 | without -K a disjunction is settled by one true side and a conjunction by one false side, otherwise by both |
| UnifdefEval.OpenExactly | scripts/unifdef.c:746-777 | what is not settled mentions an open symbol; with -K the converse holds too |
| UnifdefEval.MeaningHolds | scripts/unifdef.c:746-777 | what is settled has that value under every completion of the open symbols |
| UnifdefWhole.TrustedExactlyIfPlain | scripts/unifdef.c:853-859 | the evaluator agrees with C on all expressions over a literal if and only if an int holds the literal and C does not take it for unsigned |
| UnifdefWhole.SymbolTrustedExactly | scripts/unifdef.c:888-895 | it agrees with C on all expressions over a symbol that -D gives a number if and only if an int holds the number |
| UnifdefWhole.UnsignedIsMisjudged | scripts/unifdef.c:853-859 | with -DX=-1 it judges X < 1u true, although C takes it for false |
| UnifdefWhole.SymbolIsMisjudged | scripts/unifdef.c:888-895 | with -DX=4294967296 it judges X false, although C takes it for true |
| UnifdefWhole.TooLargeIsMisjudged | scripts/unifdef.c:855-857 | with -k the evaluator judges a condition of 4294967296 false, although C takes it for true |
| UnifdefWhole.VerdictIsCTruth | scripts/unifdef.c:825-962 | with literals and -D numbers that can be trusted, a known verdict is the truth of the condition in C, with unsigned arithmetic where a symbol asks for it |
| UnifdefWhole.UnifdefPreservesC | scripts/unifdef.c:427-502 | from the evaluator to the output: for every completion of the open symbols the output selects the text lines of the input |
| PercpuBlock.BlockRefreshHint | mm/percpu.c:562-577 | the rescan gives the longest free run with its start, the runs at both ends, and keeps first_free |
| PercpuBlock.FreeIsExact | mm/percpu.c:533-552 | updating a summary with the run that a free completes makes it what a full scan gives |
| PercpuBlock.AllocKeepsHint | mm/percpu.c:813-835 | an allocation outside the recorded run needs no rescan |
| PercpuChunk.UpdateHintAlloc | mm/percpu.c:789-869 | after an allocation the summaries of all blocks are what a full scan gives |
| PercpuChunk.UpdateHintFree | mm/percpu.c:1361-1432 | the same after a free |
| PercpuRefresh.NextMdFreeRegion | mm/percpu.c:590-629 | the next region is a maximal free run, across blocks if need be, with nothing longer passed over |
| PercpuRefresh.ChunkRefreshHint | mm/percpu.c:749-777 | from the summaries alone, the longest free run of the whole chunk |
| PercpuFit.NextFitRegion | mm/percpu.c:645-692 | the offset is the end of the chunk, or an aligned free area of the wanted size starts within a block of it; it is the end if and only if no block shows an area, in its longest run or in the free bits at its end; without alignment no area of that size starts below it |
| PercpuFit.LongRunShows | mm/percpu.c:645-692 | a free run as long as the area and two misalignments is always shown by some block |
| PercpuArea.Chunk.FindBlockFit | mm/percpu.c:2027-2058 | a returned offset promises an area that pcpu_alloc_area finds; for every alignment one is found if and only if the hint of the chunk allows it and some block shows one, and so always if some run is long enough for any misalignment; without alignment if and only if there is one, and none starts below it |
| PercpuArea.Chunk.AllocArea | mm/percpu.c:2079-2118 | takes the lowest aligned free area in reach, disjoint from every live area, and fails only if there is none; cannot fail after a promise; free_bytes, boundary map, summaries and first bit stay right; the hint is exact if the area starts in it, and otherwise a sound hint stays sound if and only if the area does not reach into it |
| PercpuArea.Chunk.Alloc | mm/percpu.c:2179-2187 | it succeeds if and only if the hint allows it and some block shows an area, for every alignment; without alignment if and only if some run is long enough, and it takes the lowest such run of the whole chunk |
| PercpuArea.Chunk.FreeArea | mm/percpu.c:1361-1480 | frees exactly the interval that was allocated at this offset; the hint is exact after every refresh, and without one a sound hint stays sound if and only if it is not replaced, or the longest run of the block is no longer than the freed one |
| PercpuHint.StretchFits | mm/percpu.c:1440-1446 | bits paired with the start of the freed run are all free if and only if they are no more than the run has, into the next block |
| PercpuHint.AllocSound | mm/percpu.c:865-877 | an area that does not start in a sound hint leaves it sound if and only if it does not reach into it |
| PercpuArea.LengthFound | mm/percpu.c:1466-1470 | the boundary map gives back the length of a live area despite stale marks in freed space |
| PercpuArea.BoundAlloc | mm/percpu.c:2098-2101 | allocating keeps the live areas disjoint, covered and marked |
| PercpuArea.BoundFree | mm/percpu.c:1466-1470 | freeing keeps them so for the areas that remain |
| PercpuArea.CountFill | mm/percpu.c:2104-2104 | filling or clearing a run changes the count of free bits by its length |
| PercpuOverstated.MispairedHint | mm/percpu.c:1440-1446 | a run of allocations and frees after which the hint says 3 bits and no 2 are free: a free moved its start |
| PercpuOverstated.HintReachedInto | mm/percpu.c:871-877 | another after which it says 3 and no 3 are free: an allocation from below reached into it |
| Vmalloc.FindFirst | mm/vmalloc.c:424-445 | the first area that does not end below the address |
| Vmalloc.FindPlace | mm/vmalloc.c:1129-1150 | the one place in address order; the BUG is not reached |
| Vmalloc.FindNextPrev | mm/vmalloc.c:936-964 | the first area that ends above the address and the one before it |
| Vmalloc.Vmap.InsertArea | mm/vmalloc.c:1129-1159 | adds the area and keeps address order and disjointness |
| Vmalloc.Vmap.Search | mm/vmalloc.c:395-477 | the lowest aligned fit at or above the starting point, or none exactly if nothing fits there; nothing fits below the starting point unless the request is of exactly the cached hole size; the hole size stays a bound |
| Vmalloc.Vmap.AllocVmapArea | mm/vmalloc.c:372-492 | takes the lowest fit from vstart on, before or else after the purge, and fails only if nothing fits after the purge either; for a request of exactly the cached hole size the same from the starting point on; nothing leaves the tree unless the purge was needed, and then exactly the lazily freed areas |
| Vmalloc.Vmap.FreeArea | mm/vmalloc.c:189-222 | removes exactly that area; the cache moves to the area before it, stays or is dropped, and its hole size stays a bound |
| Vmalloc.Vmap.FreeLazily | mm/vmalloc.c:315-327 | the area waits on the purge list and stays in the tree |
| Vmalloc.Vmap.PurgeLazy | mm/vmalloc.c:265-296 | removes exactly the areas on the purge list |
| Vmalloc.Walk | mm/vmalloc.c:447-462 | every gap passed is no longer than the noted hole size, and a size noted is that of a hole too small for the request |
| Vmalloc.HolesAfterFree | mm/vmalloc.c:189-210 | moving the cache to the area before the freed one keeps the hole size a bound |
| Vmalloc.HolesForStricter | mm/vmalloc.c:403-414 | so does recording a later start and a larger power of two |
| Vmalloc.MissedExactly | mm/vmalloc.c:395-423 | the search passes over a fit if and only if it starts at the cache, the request is of exactly the cached hole size, and there is room for it in front of the cached area or an earlier one |
| VmallocMissed.HoleOfExactSizeIsMissed | mm/vmalloc.c:395-407 | a run from the start after which a request of one page fails although a page is free for it |
| Align.PowersNest | mm/vmalloc.c:385-385 | the larger of two power-of-two alignments implies the smaller |
| Align.UpWraps | include/linux/kernel.h:57-57 | rounding up gives an address not below its argument if and only if it does not pass 2^64 |
| VmallocPcpu.LastArea | mm/vmalloc.c:1217-1226 | the area with the highest offset |
| VmallocPcpu.DetermineEnd | mm/vmalloc.c:982-1000 | the highest aligned address below the next area and the end of the range, and the position it falls at |
| VmallocPcpu.UnderflowSeen | mm/vmalloc.c:1264-1271 | adding last_end before comparing sees exactly whether the base went below the range |
| VmallocPcpu.Scan | mm/vmalloc.c:1254-1317 | ends at the highest aligned base from its start downwards at which every area fits, and fails only if there is none from there down; the BUG_ONs do not fire and it terminates |
| VmallocPcpu.PlaceAll | mm/vmalloc.c:1318-1326 | inserts all areas, disjoint from each other and from the rest |
| VmallocPcpu.PcpuGetVmAreas | mm/vmalloc.c:1198-1346 | on success every area is at one aligned base plus its offset, inside the range, the highest from the noted hole downwards; it fails only if there is none there, also without the areas freed lazily; nothing else is added and only those leave; the hole is noted where the last area starts |
| VmallocHole.OverlookedExactly | mm/vmalloc.c:1257-1261 | a request for one area overlooks a higher base if and only if there is room for it behind some area above the noted hole |
| VmallocHole.OverlookedNeedsRoom | mm/vmalloc.c:1257-1261 | any request that overlooks a higher base has room for its last area there |
| VmallocHole.HoleIsNotHighest | mm/vmalloc.c:1320-1326 | a run from the start after which two pages are placed below the noted hole although the highest three are free |
| BuddyBlocks.BuddyBits | mm/internal.h:18-22 | exclusive-or with the block size finds the head of the buddy, and the conjunction of both heads is the head of the parent |
| BuddyBlocks.FreeBlockIsWhole | mm/page_alloc.c:252-293 | in a canonical family, an aligned block whose pages are all free lies in one free block |
| BuddyBlocks.CanonicalIsUnique | mm/page_alloc.c:252-293 | two canonical families with the same pages are the same |
| BuddyBlocks.MergeStep | mm/page_alloc.c:269-293 | taking off a free buddy and doubling the block keeps the family canonical |
| BuddyBlocks.SplitStep | mm/page_alloc.c:461-475 | giving back an upper half keeps the family canonical |
| BuddyZone.Zone.TryMerge | mm/page_alloc.c:269-289 | merges exactly if the buddy is free, of the same order and zone |
| BuddyZone.Zone.FreeOnePage | mm/page_alloc.c:252-320 | the free pages gain exactly the block; lists, counters and page marks name exactly the heads of the canonical family |
| BuddyZone.Zone.Expand | mm/page_alloc.c:461-475 | gives back all of the block but the part wanted |
| BuddyZone.Zone.RmqueueSmallest | mm/page_alloc.c:478-500 | fails if and only if no aligned block of this order is wholly free; otherwise the free pages lose exactly one such block |
| BuddyZone.Zone.TakeAndGiveBack | mm/page_alloc.c:478-500 | allocating a block and freeing it leaves the same free blocks at every order |
| BuddyZone.Zone.IsFreeBuddyPage | mm/page_alloc.c:1491-1508 | true if and only if the page lies in some free block |
| BuddyZone.PerCpuPages.SetBatch | mm/page_alloc.c:1161-1179 | leaves high and batch so that a bulk free never asks for more than the list holds |
| BuddyZone.PerCpuPages.FreePcppagesBulk | mm/page_alloc.c:333-391 | the last pages of the list become free, no others; it does not wait at an empty list |
| BuddyZone.PerCpuPages.FreeUnrefPageCommit | mm/page_alloc.c:393-406 | no page is lost or held twice, and the bulk free is never asked for too much; the list gives back a batch from its end if and only if it has reached its limit |
| BuddyZone.PerCpuPages.RmqueueBulk | mm/page_alloc.c:571-603 | moves single pages from the free blocks to the list |
| BuddyZone.PerCpuPages.RmqueuePcplist | mm/page_alloc.c:606-627 | fails if and only if neither the list nor the zone has a page; gives out the first page of the list, which it refills with a batch only when it is empty |
| Stride.SplitIsDivision | lib/radix-tree.c:103-111 | the slot and the rest of an index are quotient and remainder, the shift and mask for a power of two |
| RadixTree.TagMeansFree | lib/radix-tree.c:935-949 | in an IDR, a slot has its IDR_FREE bit set if and only if some index below it is free |
| RadixTree.InsertOk | lib/radix-tree.c:1485-1497 | storing keeps counts, tags and the tag law, nodes being created where missing |
| RadixTree.InsertAt | lib/radix-tree.c:991-1009 | storing takes that index and changes no other |
| RadixTree.RemoveOk | lib/radix-tree.c:545-582 | removing keeps counts, tags and the tag law, and no node stays empty |
| RadixTree.RemoveAt | lib/radix-tree.c:1354-1370 | removing frees that index and changes no other |
| IdrTree.ExtendKeeps | lib/radix-tree.c:410-464 | extending changes no lookup and adds no level that the index does not need |
| IdrTree.ShrinkKeeps | lib/radix-tree.c:470-543 | shrinking changes no lookup and leaves the least height |
| IdrTree.HeightIsLeast | lib/radix-tree.c:470-543 | above one level, some index in use needs the height |
| IdrTree.StoreKeeps | lib/radix-tree.c:1461-1531 | taking a free index refines a map update and keeps every invariant of the tree |
| IdrTree.EraseKeeps | lib/radix-tree.c:1402-1422 | deleting refines removal from a map and keeps every invariant of the tree |
| Idr.Walk | lib/radix-tree.c:1485-1514 | below a node, the smallest free index from the start on, unless it lies outside the node or above the limit |
| Idr.LimitMeansMax | lib/idr.c:44-44 | the 64-bit difference of limit and base means the limit if and only if the limit is not below the base |
| Idr.Idr.GetFree | lib/radix-tree.c:1461-1531 | the smallest free index of the range, or none exactly if all are taken |
| Idr.Idr.AllocU32 | lib/idr.c:31-54 | the smallest free id of the range, or no space if and only if there is none; nothing else changes; the id reported is the one bound if and only if that is below 2^32 |
| Idr.Idr.Alloc | lib/idr.c:76-89 | the same with an exclusive end; a negative start is invalid |
| Idr.Idr.AllocCyclic | lib/idr.c:113-131 | the smallest free id from the cursor on, else from the start on; no space if and only if the whole range is full |
| Idr.Idr.Find | lib/idr.c:166-169 | the pointer bound to the id |
| Idr.Idr.Remove | lib/idr.c:147-150 | returns the pointer and frees that id alone; an id not in use changes nothing |
| RadixMap.TagMeansMarked | lib/radix-tree.c:935-1009 | in a plain tree or an XArray, a slot is tagged if and only if some entry below it is marked |
| RadixMap.PutKept | lib/radix-tree.c:600-677 | storing keeps counts and the mark law |
| RadixMap.PutAt | lib/xarray.c:584-636 | storing changes that index alone, and no mark |
| RadixMap.ChangedKept | lib/radix-tree.c:545-582 | erasing and marking keep counts and the mark law, and no node stays empty |
| RadixMap.ChangedAt | lib/xarray.c:812-860 | erasing or marking changes that index alone |
| RadixIndex.ExtendKeeps | lib/xarray.c:504-569 | expanding changes no lookup and no mark, and adds no level that the index does not need |
| RadixIndex.ShrinkKeeps | lib/xarray.c:384-417 | shrinking changes no lookup and no mark, down to an entry in the head |
| RadixIndex.HeightIsLeast | lib/xarray.c:384-457 | some entry needs the height of the tree |
| RadixIndex.StoreKeeps | lib/xarray.c:715-784 | storing refines a map update and leaves the least height |
| RadixIndex.EraseKeeps | lib/xarray.c:426-457 | erasing refines removal from a map and leaves the least height |
| RadixIndex.IndexTree.Insert | lib/radix-tree.c:705-732 | succeeds if and only if the index is free; a new entry has no mark |
| RadixIndex.IndexTree.Delete | lib/radix-tree.c:1402-1436 | returns and removes the entry at the index, with its mark |
| RadixIndex.IndexTree.XaStore | lib/xarray.c:715-784 | returns the old entry and binds the new one; NULL erases |
| RadixIndex.IndexTree.SetMarkAt | lib/xarray.c:812-860 | sets or clears the mark of one entry and no other |
| MemblockRegions.AddedView | mm/memblock.c:443-504 | adding is union on the map from addresses to flags, what was there keeping its flags |
| MemblockRegions.MergedView | mm/memblock.c:378-399 | merging changes no address |
| MemblockRegions.MergedSorted | mm/memblock.c:378-399 | merging keeps order and total and leaves no mergeable neighbours |
| MemblockRegions.CutView | mm/memblock.c:586-613 | cutting at an address loses and adds nothing |
| MemblockRegions.IsolatedKeeps | mm/memblock.c:562-618 | isolating keeps the total and adds at most two regions |
| MemblockType.RegionArray.InsertRegion | mm/memblock.c:412-426 | inserts the region and counts its size |
| MemblockType.RegionArray.RemoveRegion | mm/memblock.c:237-252 | removes the region; an empty array keeps one region of size zero |
| MemblockType.RegionArray.MergeRegions | mm/memblock.c:378-399 | the loop in place is the merge, and its BUG_ON does not fire |
| MemblockType.RegionArray.CountNew | mm/memblock.c:470-504 | the first pass counts the regions that the result has more |
| MemblockType.RegionArray.InsertNew | mm/memblock.c:470-504 | the second pass inserts them within that count: the BUG_ON about room does not fire |
| MemblockType.RegionArray.AddRange | mm/memblock.c:443-523 | union; order, disjointness, total and minimality are kept; fails only if the array cannot hold the result |
| MemblockType.RegionArray.IsolateRange | mm/memblock.c:562-618 | the same addresses with no region across the range, and the indices of the regions inside |
| MemblockType.RegionArray.RemoveRange | mm/memblock.c:620-633 | difference; order, disjointness, total and minimality are kept |
| MemblockType.RegionArray.SetClrFlag | mm/memblock.c:684-702 | a pointwise update of the flags in the range |
| MemblockType.RegionArray.Search | mm/memblock.c:1335-1351 | the index of the region that holds the address, or -1 if and only if none does |
| MemblockRanges.NextMemRange | mm/memblock.c:799-869 | the next region-and-gap pair: none is skipped, none comes twice, and those that remain lie higher |
| MemblockRanges.NextMemRangeRev | mm/memblock.c:886-958 | the same downwards |
| MemblockRanges.FreeRanges | mm/memblock.c:799-869 | the whole iteration gives exactly the addresses in wanted memory and not reserved, in rising disjoint ranges, and ends |
| MemblockRanges.FreeRangesRev | mm/memblock.c:886-958 | the same in falling order |
| MemblockRanges.PairIsRange | mm/memblock.c:835-858 | a range is empty only between two reservations that touch |
| MemblockFind.FindBottomUp | mm/memblock.c:97-114 | the lowest aligned place in one range, or 0 if and only if there is none, also where rounding up wraps |
| MemblockFind.FindTopDown | mm/memblock.c:131-151 | the highest such place |
| MemblockFind.Memblock.FindInRange | mm/memblock.c:175-210 | aligned, within its bounds and above the first page; bottom-up the lowest place above the kernel if there is one, otherwise the highest place; 0 if and only if nothing fits |
| MemblockFind.Memblock.AllocRange | mm/memblock.c:990-1010 | the area was in wanted memory and not reserved, and is reserved now, with nothing else changed; fails only if nothing fits or the place cannot be recorded |
| MemblockSeams.FitsExactly | mm/memblock.c:97-155 | what the searches look for, said of addresses: all of the area is wanted memory that is not reserved, and no region begins inside it |
| MemblockSeams.NothingFitsExactly | mm/memblock.c:97-155 | they find nothing if and only if every such area has the beginning of a region inside |
| MemblockSeams.SeamIsMissed | mm/memblock.c:97-155 | two free pages that touch in regions with different flags are not found together |
| Llist.RunIsLinear | lib/llist.c:36-78 | in every interleaving of any number of adders and one consumer, the results are those of a stack on which each call takes effect at once, and the list in memory is that stack |
| Llist.PopKeeps | lib/llist.c:62-78 | a delete whose compare-and-swap succeeds pops the top of the stack, although next was read earlier |
| Llist.PushKeeps | lib/llist.c:36-46 | an add whose compare-and-swap succeeds pushes its batch in order |
| Llist.NothingLost | lib/llist.c:36-78 | what was added is what was handed out and what is on the list |
| Llist.AddAlone | lib/llist.c:36-47 | without interference a batch is added in front, with the right answer |
| Llist.DeleteAlone | lib/llist.c:64-78 | without interference the first node is taken, or the list is found empty |
| Llist.ReverseOrder | lib/llist.c:87-99 | the chain in reverse order, other nodes untouched |
| Decimal.Tenth32Is | lib/vsprintf.c:148-157 | the multiply and shift is division by ten over the stated range |
| Decimal.Tenth16Is | lib/vsprintf.c:159-160 | the same for the 16-bit form |
| Decimal.Tenth15Is | lib/vsprintf.c:246-246 | the same for the 15-bit form |
| Decimal.Tenth11Is | lib/vsprintf.c:161-164 | the same for the 11-bit form |
| Decimal.MyriadthIs | lib/vsprintf.c:254-268 | the multiply and shift is division by 10000 over the stated range |
| Decimal.RangesAreExact | lib/vsprintf.c:130-147 | each range ends where the next value would fail |
| PutDec.PutDecFull9 | lib/vsprintf.c:126-168 | the nine lowest digits, lowest first |
| PutDec.PutDecTrunc8 | lib/vsprintf.c:176-201 | the digits without leading zeros |
| PutDec.PutDecGroups | lib/vsprintf.c:225-234 | for every 64-bit number, exactly its reversed decimal digits without leading zeros |
| PutDec.PutDecFull4 | lib/vsprintf.c:242-252 | the four lowest digits |
| PutDec.PutDecHelper4 | lib/vsprintf.c:262-268 | the four lowest digits, and the quotient by 10000 |
| PutDec.ChunkBounds | lib/vsprintf.c:254-260 | no sum exceeds what the helper divides exactly |
| PutDec.PutDecChunks | lib/vsprintf.c:276-305 | the second algorithm writes the same digits |
| PutDec.NumToStr | lib/vsprintf.c:315-333 | the decimal text with either algorithm, or 0 and nothing written if it does not fit |
| Gcd.GcdFfs | lib/gcd.c:21-43 | terminates with the greatest common divisor for all inputs, zero included |
| Gcd.GcdLoops | lib/gcd.c:48-79 | the same for the loop without __ffs |
| Gcd.GcdBoth | lib/gcd.c:21-79 | both give the same number |
| Gcd.Subtract | lib/gcd.c:67-76 | one subtraction keeps the common divisors and exceeds neither input |
| Gcd.Lcm | lib/lcm.c:6-12 | the least common multiple in 64 bits: right if and only if it fits |
| Escape.RoundTrip | lib/string_helpers.c:262-534 | unescaping with all classes undoes escaping every byte, if and only if the size is enough |
| Escape.ReversibleFlags | lib/string_helpers.c:432-470 | escaping can be undone for every buffer if and only if the flags escape every byte |
| EscapePrintable.SurvivesExactly | lib/string_helpers.c:432-534 | with printable characters left alone, a buffer comes back from unescaping if and only if no backslash in it precedes an unprintable byte or something that has a meaning after it, and no zero in its short form precedes an octal digit |
| EscapePrintable.PlainLight | lib/string_helpers.c:262-294 | unescaping never raises the number of backslashes and unprintable bytes |
| Escape.UnescapedFits | lib/string_helpers.c:224-260 | the result is never longer than the string and fits the size given, with its terminating zero |
| Escape.TightBufferCuts | lib/string_helpers.c:266-270 | a size just large enough for the result is not enough, since every escape counts twice |
| EscapeBuffers.StringEscapeMem | lib/string_helpers.c:488-534 | the length does not depend on the buffer, a short buffer holds exactly a prefix, and nothing is written beyond |
| EscapeDictionary.OthersStay | lib/string_helpers.c:509-511 | a buffer without zeros and without bytes of the dictionary is left as it is |
| EscapeDictionary.NamedAreGone | lib/string_helpers.c:488-534 | nothing that the dictionary names is left, nor a zero, except the characters that escapes are written with |
| EscapeDictionary.GuardedSurvivesExactly | lib/string_helpers.c:488-534 | with a dictionary that names the backslash, a buffer comes back from unescaping if and only if no zero in its short form is followed by an octal digit that stays as it is |
| Escape.EscapedExactly | lib/string_helpers.c:296-430 | which bytes each class escapes, and how |
| Escape.MeantExactly | lib/string_helpers.c:128-222 | which characters each class gives a meaning after a backslash |
| EscapeBuffers.ReadOctal | lib/string_helpers.c:156-173 | reads at most three octal digits and never past the end |
| EscapeBuffers.ReadHex | lib/string_helpers.c:175-197 | reads one or two hexadecimal digits and never past the end |
| EscapeBuffers.UnescapeTurn | lib/string_helpers.c:266-289 | what a turn writes lies before what is still to be read |
| EscapeBuffers.StringUnescapeInPlace | lib/string_helpers.c:262-294 | in place, the result is that of another buffer |
| EscapeBuffers.StringUnescape | lib/string_helpers.c:262-294 | into another buffer, the text fits the size given with its terminating zero, and nothing is written beyond |
| SlubRun.RunKeeps | mm/slub.c:485-1091 | in every interleaving of any number of CPUs and frees in which the fast frees find their page still there at their exchange, every reachable state keeps the invariant |
| SlubRun.EveryObjectOnce | mm/slub.c:485-1091 | in these runs every object is in exactly one of its page freelist, one CPU list, one free in progress, or a caller's hands |
| SlubRun.SlabStates | mm/slub.c:485-1091 | inuse and the freelist make up the slab; while the list lock is free, a slab is on the partial list if and only if it is not frozen and has free objects |
| SlubRun.LiveObjectsStay | mm/slub.c:629-748 | no step, a discard included, takes away an object that a caller has or is freeing |
| SlubLedger.StepMoves | mm/slub.c:485-1091 | every step moves exactly the objects that it should, from where they should be: allocations give out the first object of the list, drains and frees give back their own, and only empty slabs go |
| SlubLedger.StepHeld | mm/slub.c:485-1091 | an allocation gives out one object that nobody had, a free takes in its own, and no other step changes what callers have |
| SlubLedger.CallersAreRight | mm/slub.c:485-1091 | over every run, no object is given out while a caller has it, and only objects that are out come back |
| SlubLedger.ListsFollow | mm/slub.c:814-823 | an allocation leaves the rest of the list, and a fast free puts its object in front |
| SlubAlone.NewSlabServes | mm/slub.c:757-835 | without interference a CPU without a page gets a new slab, its caller the first object, and the list the others |
| SlubAlone.PartialServes | mm/slub.c:521-605 | without interference a slab of the partial list serves a CPU without a page, and is off the list |
| SlubAlone.OwnPageServes | mm/slub.c:485-507 | without interference a CPU takes back what its page got |
| SlubAlone.FreeGivesBack | mm/slub.c:987-1054 | without interference a free ends with its object on its page, or with the page gone |
| SlubAlone.FlushGivesBack | mm/slub.c:634-748 | without interference a flush ends with all that the CPU had on the page, or with the page gone |
| SlubPages.FastRunKeeps | mm/slub.c:792-1091 | with threads preempted and moved between any two accesses, every reachable state has each CPU list linked as it should be and no object in two places |
| SlubFastPath.PopTakesFirst | mm/slub.c:905-925 | an exchange that succeeds takes the first object, and the list goes on with its successor |
| SlubFastPath.PushAddsFirst | mm/slub.c:1079-1087 | one that succeeds for a free puts the object, linked to the list, in front of it |
| SlubFastAlone.AllocAlone | mm/slub.c:857-936 | without interference an allocation takes the first object of its CPU list, or needs the slow path if there is none |
| SlubFastAlone.FreeAlone | mm/slub.c:1057-1091 | without interference a free puts its object in front of the list if the CPU has its page, and otherwise gives it to the page |
| SlubFastPath.SucceedsOnlyIfCurrent | mm/slub.c:897-903 | it succeeds only on the CPU whose id was read, with no list operation in between |
| SlubPages.StepOwn | mm/slub.c:1079-1087 | a step puts an object on the list of a CPU without its page if and only if it is the exchange of a free on a CPU that gave up its page since the id was read |
| SlubPages.OwnPagesExactly | mm/slub.c:805-831 | a run keeps every object on a list with its page if and only if none of its exchanges comes so late |
| SlubPages.StepPlaces | mm/slub.c:792-835 | a step loses an object if and only if it sets up a page over a list that holds it |
| SlubPages.LostExactly | mm/slub.c:798-835 | an object is lost in a run if and only if a slow path found no page on its CPU and set up another over a list with the object |
| SlubPages.NothingLostInTime | mm/slub.c:857-1091 | a run without a late exchange loses nothing: every object is with a caller, on a page, on one list or being freed |
| SlubLost.ObjectIsLost | mm/slub.c:798-835 | a run of one CPU and two threads that loses an object |
| SlubRun.FreeCasKeeps | mm/slub.c:987-1022 | a free without the lock leaves list membership right |
| SlubRun.FreeLinkKeeps | mm/slub.c:998-1041 | a free under the lock leaves a full slab to be added |
| SlubRun.LinkDiscardKeeps | mm/slub.c:1031-1054 | an emptied slab is discarded with nobody holding its objects |
| SlubRun.CommitKeeps | mm/slub.c:690-747 | unfreezing keeps the invariant, whether the compare-and-exchange fails, succeeds or empties the slab |
| SlubSteps.AcquireKeeps | mm/slub.c:521-557 | a slab found on the partial list has free objects and is not frozen |
| SlubSteps.GetKeeps | mm/slub.c:485-507 | the page freelist becomes the CPU list |
| SlubSteps.LeaveKeeps | mm/slub.c:485-507 | an exhausted slab leaves its CPU unfrozen and off the list |
| SlubSteps.PopKeeps | mm/slub.c:857-936 | the first object of the CPU list goes to the caller |
| SlubSteps.FreeFastKeeps | mm/slub.c:1057-1091 | an object of the CPU's slab goes to the CPU list |
| SlubSteps.DrainKeeps | mm/slub.c:647-672 | draining gives objects back while the slab is frozen |
| SlubFree.UnfreezeKeeps | mm/slub.c:690-741 | the list was set up for the state the slab gets |
| SlubFree.NewSlabKeeps | mm/slub.c:757-790 | a new slab starts frozen for its CPU with all objects on the CPU list |
| SlubInvariant.RelistKeeps | mm/slub.c:708-735 | list membership changes under the lock while the slab is still frozen |

## Left out

- UnifdefMeaning.OutputMeansInput: starts from typed lines and parsed conditions; scanning of text, comments, options and
  files is not part of this model.
- UnifdefMeaning.AcceptsExactlyWellNested: is about directives on one line each; with dodgy lines the run may also exit.
- UnifdefWhole.UnifdefPreservesC: holds for literals that an int holds and that are not unsigned, and for -D numbers that an
  int holds; `TrustedExactlyIfPlain` and `SymbolTrustedExactly` show that no larger sets would do. A symbol stands for one
  operand: an expansion whose operators would regroup with those around it is not modelled.
- PercpuArea.Chunk.FindBlockFit: page population is not modelled, so it does not say that a populated area is found. With an
  alignment the code may skip areas that would do, as its comment says; `PercpuFit.Shows` is exactly what it sees. Chunk
  creation and the balance worker are left out.
- UnifdefRemoval.TextLeftExactly: is about files in which no two lines carry the same condition; if they do, the output may
  keep text that their common truth rules out.
- PercpuArea.Chunk.FreeArea: does not promise an exact hint without a refresh; chunk slots and page counts are left out.
- UnifdefProgram.Program.FlushLine: does not model complemented output, compression of blank lines and line-number directives.
- Vmalloc.Vmap.Search: assumes, as AllocVmapArea does, that no rounded end of an area passes 2^64.
- Vmalloc.Vmap.AllocVmapArea: assumes that rounding up the ends of areas does not pass 2^64 (`Align.UpWraps` says exactly when
  it does); the notifier and the lazy purge threshold are left out, and one purge before giving up is modelled.
- VmallocPcpu.PcpuGetVmAreas: assumes areas that are not empty, since an empty area with the highest offset need not end last,
  and that the allocation of its bookkeeping succeeds.
- Vmalloc: red-black trees are modelled by their in-order sequence, and a descent may try any area between its bounds; page
  tables and TLB flushes are left out.
- BuddyZone.Zone.FreeOnePage: models good pages only; bad pages, compound pages, migration types and zone sizing are left out.
- BuddyZone.Zone.IsFreeBuddyPage: assumes that marked pages of other zones head blocks outside this zone.
- RadixTree, RadixMap: trees are values, not nodes updated in place: parent pointers, readers under RCU, retry entries,
  preloading and multi-index entries are left out, nodes are created when something is stored rather than during the search,
  and node allocation succeeds.
- Idr.Idr.GetFree: a tree of 2^64 indices that are all in use, where `maxindex + 1` wraps, is not modelled.
- IDA bitmaps, `idr_for_each()`, gang lookups and iteration over tags.
- MemblockType.RegionArray.AddRange: doubling the array either fails or doubles the capacity; that it may itself reserve memory
  is left out, and so is `memblock_trim_memory()`, which does not keep the total.
- MemblockRanges.FreeRanges: the indices are not packed into one 64-bit word; the form without a second array is left out.
- Llist.RunIsLinear: memory accesses are sequentially consistent, and nodes are handed over by their owners.
- SlubRun.RunKeeps: leaves out the runs in which a fast free exchanges after its CPU gave up the page; `SlubPages` is about
  these too.
- SlubRun.EveryObjectOnce: the same; in those runs an object can be lost, and `SlubPages.LostExactly` says when.
- SlubSteps.PopKeeps: the fast path is one step here; `SlubFastPath` shows that its accesses amount to one.
- SlubSteps.FreeFastKeeps: the same, and the page is tested in that step; `SlubPages.StepOwn` says when the test still holds at
  the exchange.
- SlubPages.FastRunKeeps: ids are unbounded, accesses are sequentially consistent, each change that a slow path makes to its
  CPU's list or page is one step, and the freelists of pages are a set. Bulk frees are left out.
- Slub: bootstrap, merging of caches, sizes and orders, bulk frees, the order of the partial list and per-cpu partial lists are
  left out.
- PutDec.NumToStr: the width argument is not used by the code; printf formats, pointers and scanning are left out.
- Gcd.GcdFfs: numbers are unbounded; no value exceeds the larger input.
- Escape.ReversibleFlags: is about escaping without a dictionary.
- EscapePrintable.SurvivesExactly: is about buffers of less than 2^61 bytes, flags with the octal or the hex class, and an
  isprint() that is the usual one on ASCII.
- Spinlocks, drivers, device trees, boot code and linker scripts.
