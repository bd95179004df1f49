# Verification of the Zend engine core

A Dafny model of parts of PHP 5.6, with proofs.

- The memory manager (`Mm*.dfy`), from the bottom up:
  - `MmSize`, `MmBits`: block sizes and bit scans
  - `MmRing`, `MmRings`, `MmTrie`, `MmIndex`, `MmFreeIndex`: the free-block index at the level of its links
    (small rings, bitwise tries with peer rings, the rest list, two bitmaps)
  - `MmFit`, `MmSearch`: the searches, and when they find the smallest block that fits
  - `MmTags`: segments and boundary tags
  - `MmSum`, `MmCache`, `MmHeap`, `MmSteps`: cache lists, byte accounts, payloads and the invariant of a heap
  - `MmRoutes`: which block an operation takes and what it leaves behind
  - `MmManager`: allocation, release, resizing and flushing as methods that write the fields
  - `MmRun`, `MmFacts`, `MmCases`: whole runs, what the invariant means, and single runs in full
- The thread-safe resource manager (`TsrmState`, `Tsrm`): locked steps of many threads, and the lock-free fetch.
- `Modules`: dependency sort and start of modules. `Heapsort`: the in-place sort of the benchmark.
  `Diff`: the line diff of the test runner. `Ast`, `AstCases`: constant expressions, and their values on
  integers. `Printer`, `PrinterCases`: the recursive printers, and the texts they write.
  `VaArgs`: parameter parsing. `Constants`: the table of constants. `Ascii`, `Seqs`, `Wrappers`: letters without
  case, lists, optional values.

`dafny verify dfyconfig.toml` checks everything.

## How the memory manager is modelled

The build is a 64-bit one without debugging, heap protection and cookies. Addresses and sizes are natural
numbers. A heap is a record of the fields of `zend_mm_heap`; the headers are a map from addresses to the two
words of a block. Merged blocks leave no header behind. The free-block index has maps for links, children and
parents, and methods whose statements are the writes of the original. Ghost parts say which blocks the program
holds and with what request, how many bytes are lost from the account of `size`, which values `size` and
`real_size` have had, the members of each ring and the level of each trie node. `zend_mm_safe_error` does not
return: the methods return 0 there, and a run ends.

What the code does where one might expect more:

- The small bitmap can lose a bit: `MmFreeIndex.LoseBit` is a run, `MmIndex.DroppedExact` the exact condition.
- The search in the tries is a good fit, not always the best one: `MmCases.SearchMisses` is a run,
  `MmSearch.SearchLarge` has the exact condition.
- `heap->size` is not lowered when the cache is flushed: `MmCases.UsageDrifts` is a run, `MmFacts.UsageIsHeld`
  has the exact condition.
- When resizing a segment is refused by storage while the block behind is free, that block stays out of the
  index: `MmCases.RefusalStrands` is a run, `MmManager.Manager.ReallocInt` has the exact condition.
- `zend_get_constant` does not lower a namespace: `Constants.PlainMisses` is an example, `Constants.PlainIsMeaning`
  the exact condition.
- `ts_free_thread` passes NULL to the destructors of ids that are done: `Tsrm.NullReachesDestructor` is a run,
  `Tsrm.ResourceManager.FreeThread` has the exact condition.

## Model

| member | source | states |
|---|---|---|
| `MmRun.Run` | src/Zend/zend_alloc.c:2017-2524 | for every program of allocations, resizes, releases, writes, limit changes and flushes, on every answer of the storage layer: up to the step that leaves through the fatal error, the heap holds exactly the objects of a memory without an allocator, each with the bytes last written to it, and all invariants hold; a run ends early only at an allocation or resize for which storage refused a segment or, in the heap before that step, the limit forbade one; the invariants fail if and only if that step is a refused segment resize with a free block behind, and then the heap is unchanged and only that block is missing from the index |
| `MmRun.Perform` | src/Zend/zend_alloc.c:2017-2524 | one step keeps the heap equal to the ideal memory; it fails only if storage refused a segment or the segment would exceed the limit; a free block is stranded if and only if the step is a refused resize of a segment with a free block behind, and then it is the only one missing from the index |
| `MmRun.ObjectsApart` | src/Zend/zend_alloc.c:2174-2204 | payloads of different held objects never overlap |
| `MmRun.HoldsGiven` | src/Zend/zend_alloc.c:2197-2204 | giving out a block adds one object and touches no other |
| `MmRun.HoldsResized` | src/Zend/zend_alloc.c:2278-2525 | resizing an object keeps its common prefix and every other object |
| `MmRun.HoldsReleased` | src/Zend/zend_alloc.c:2214-2276 | freeing an object touches no other |
| `MmRun.HoldsWritten` | src/Zend/zend_alloc.c:2174-2204 | a write through one payload is invisible through all others |
| `MmManager.Manager.constructor` | src/Zend/zend_alloc.c:988-1013 | a new heap satisfies the whole invariant, holds nothing, has nothing cached or lost and has the initial limit |
| `MmManager.Manager.AllocInt` | src/Zend/zend_alloc.c:2017-2205 | a successful allocation takes the first cached block of the class; without one, what the search finds; and only if nothing at hand fits, a new segment within the limit, of which the rest goes to the rest list if and only if the block does not fit in one unit, and otherwise to the list of its size; the block was not held, is large enough with less than a smallest block to spare, and all held blocks and contents are in place; it fails only when the cache has no block of the class, no small bit is set from the class on, no trie block fits, near the limit no rest block fits, and storage refused or the limit forbids a segment; then the cache is empty |
| `MmRoutes.AcquiredIfNothingFits` | src/Zend/zend_alloc.c:2062-2161 | a success with another set of segments implies that no cached block, no small class, no trie block and, near the limit, no rest block would do |
| `MmManager.Manager.FindFree` | src/Zend/zend_alloc.c:2062-2100 | the search returns the oldest small block of the first class whose bit is set; only if there is none, a good fit of the tries, the best one at hand; only if there is none and the heap is near its limit, the best fit of the rest list, the newest of its size; and none only if all of these have none |
| `MmManager.Manager.TakeFree` | src/Zend/zend_alloc.c:2164-2205 | using a free block keeps the invariant and gives it out; the rest is in the list of its size |
| `MmManager.Manager.TakeFresh` | src/Zend/zend_alloc.c:2104-2161 | acquiring a segment within the limit keeps the invariant and gives out its first block; the rest is where the caller wants it |
| `MmManager.Manager.AddSegment` | src/Zend/zend_alloc.c:2147-2161 | the new segment is first in the list, is one used block between segment header and guard, and is counted in real_size and its peak |
| `MmManager.Manager.Place` | src/Zend/zend_alloc.c:2174-2194 | of a run, either all is used or exactly the wanted size with the rest filed as a free block, in the rest list or in the list of its size, never a remainder below the minimum size; tags, tiling and index agree again |
| `MmManager.Manager.FreeInt` | src/Zend/zend_alloc.c:2214-2276 | freeing a held block or NULL keeps the invariant, drops exactly that block and keeps place, size and contents of all others; a small block becomes the first of the cache list of its class while fewer than 262144 bytes are cached, and then cached grows by its size; any other block is merged with its free neighbours and filed under the size of the whole, or its segment is given back, and size falls by its size |
| `MmManager.Manager.Coalesce` | src/Zend/zend_alloc.c:2238-2275 | a block out of use is merged with its free neighbours and filed under the size of the whole, or its segment is given back |
| `MmManager.Manager.CoalesceCached` | src/Zend/zend_alloc.c:1043-1065 | the same for a cached block, with the neighbours in the other order |
| `MmManager.Manager.FileRun` | src/Zend/zend_alloc.c:2256-2275 | the merged run is filed as one free block in the list of its size unless it is the whole segment, which is then released |
| `MmManager.Manager.DelSegment` | src/Zend/zend_alloc.c:1021-1031 | the segment and all its headers are gone, the list holds the others, real_size is their sum |
| `MmManager.Manager.FlushList` | src/Zend/zend_alloc.c:1038-1073 | flushing one cache list empties it, keeps every held block and never meets a block of a released segment |
| `MmManager.Manager.FreeCache` | src/Zend/zend_alloc.c:1034-1075 | after the flush all lists are empty, cached is 0, every used block is held, held blocks and contents are untouched, and size has lost exactly the flushed bytes from its account |
| `MmManager.Manager.ReallocInt` | src/Zend/zend_alloc.c:2278-2525 | all paths: the common prefix of the contents is preserved, all other held blocks keep place, size and contents, and the new block has less than a smallest block to spare; the block stays where it is, and the call does not fail, if it is large enough or, without a cached block of the class, the free block behind makes it so; else it goes to the first cached block, else to its resized segment if it fills it, else where an allocation would be; what is left is in the rest list or the list of its size, as each path says; it fails only if none of these will do and storage refused or the limit forbids the segment, where a resized segment counts without its old size; the error exits leave the invariant, except if and only if storage refused while the segment path was taken, which depends on the heap before the call alone, and a free block lay behind, which then is the only one missing from the index |
| `MmManager.Manager.GrowBlock` | src/Zend/zend_alloc.c:2331-2524 | the growing paths, each taken exactly if those before it cannot be: a cached block of the class, the free block behind, the segment, a new block |
| `MmManager.Manager.MoveOrCopy` | src/Zend/zend_alloc.c:2414-2524 | with no cached block and too little behind: the segment is resized if the block and the free one behind fill it, with the rest in the rest list; else the contents go to the block that an allocation takes, and this fails only if nothing at hand fits |
| `MmManager.Manager.ResizeInPlace` | src/Zend/zend_alloc.c:2304-2413 | shrinking, or absorbing the free block behind, in place, with the rest where the caller wants it |
| `MmManager.Manager.SwapWithCached` | src/Zend/zend_alloc.c:2333-2373 | the contents move to a cached block of the right class and the old block is cached; cached changes by the difference |
| `MmManager.Manager.MoveSegment` | src/Zend/zend_alloc.c:2414-2513 | resizing the segment of a block that fills it: done, refused by the limit, counted without the old segment, with everything as before, or refused by storage |
| `MmManager.Manager.Relocate` | src/Zend/zend_alloc.c:2467-2513 | after the segment moved, the block is at its new place with its contents, and no other block is affected |
| `MmManager.Manager.ReplaceSegment` | src/Zend/zend_alloc.c:2467-2486 | the segment is replaced at its place in the list and the accounts follow |
| `MmManager.Manager.CopyToNew` | src/Zend/zend_alloc.c:2516-2524 | allocate, copy, free: the contents are in the block that an allocation takes and the old block is gone |
| `MmManager.Manager.SetLimit` | src/Zend/zend_alloc.c:2842-2849 | the limit is the given one but never below one segment, and the invariant does not depend on it |
| `MmManager.StorageAlloc` | src/Zend/zend_alloc.c:2129-2131 | any aligned region that overlaps no segment, or a refusal |
| `MmFacts.ExactlyOneBlock` | src/Zend/zend_alloc.c:509-549 | from first block to guard, every address of a segment lies in exactly one block |
| `MmFacts.BlockIsMirrored` | src/Zend/zend_alloc.c:509-549 | every block is aligned, has a legal size, and its size and tag are mirrored behind it |
| `MmFacts.FreeIsSettled` | src/Zend/zend_alloc.c:2246-2275 | no two neighbouring blocks are free and no segment is entirely free |
| `MmFacts.UsageIsHeld` | src/Zend/zend_alloc.c:2851-2872 | size minus cached is the bytes of the held blocks and the bytes lost to flushes, so it is the bytes of the held blocks if and only if nothing was lost; peaks bound the current values |
| `MmCases.UsageDrifts` | src/Zend/zend_alloc.c:1034-1075 | for every unit: allocate a byte, free it, flush; if storage answered, nothing is held and the reported usage is positive, the size of the flushed block |
| `MmCases.RefusalStrands` | src/Zend/zend_alloc.c:2414-2513 | for every unit from 128 on: allocate a byte, resize it beyond its segment; if storage answered the first time and refuses the second, the index has lost the free block behind |
| `MmCases.SmallShareSegment` | src/Zend/zend_alloc.c:2104-2194 | for every unit from 1024 on: two bytes allocated one after the other; if storage answered, the second block lies 32 bytes behind the first and real_size is one unit |
| `MmCases.GrowsToTheLimit` | src/Zend/zend_alloc.c:2376-2413 | for every unit from 1024 on, with the limit at one unit: a byte grows in place until its block fills the segment |
| `MmTags.FusedTiled` | src/Zend/zend_alloc.c:509-514 | making one block of a run keeps every segment exactly tiled with matching tags |
| `MmTags.CutTiled` | src/Zend/zend_alloc.c:2183-2186 | cutting a block in two keeps every segment exactly tiled |
| `MmTags.GrownTiled` | src/Zend/zend_alloc.c:2152-2161 | a new segment keeps every segment exactly tiled |
| `MmTags.ReleasedTiled` | src/Zend/zend_alloc.c:1021-1031 | releasing a segment leaves the others exactly tiled |
| `MmTags.CarvedTiled` | src/Zend/zend_alloc.c:2174-2194 | carving a block out of a run keeps tiling and the rule about free neighbours |
| `MmSteps.AfterMerge` | src/Zend/zend_alloc.c:2246-2272 | freeing into a merged block keeps the layout invariant and takes exactly one block out of use |
| `MmSteps.AfterRelease` | src/Zend/zend_alloc.c:2267-2269 | freeing the last used block of a segment keeps the layout invariant |
| `MmSteps.AfterGive` | src/Zend/zend_alloc.c:2197-2200 | accounts, peaks and cache after a block is given out |
| `MmSteps.AfterSwap` | src/Zend/zend_alloc.c:2346-2365 | accounts, cache lists and contents after the swap with a cached block |
| `MmSteps.AfterMove` | src/Zend/zend_alloc.c:2504-2508 | accounts and contents after a block moved with its segment |
| `MmSteps.AfterFlush` | src/Zend/zend_alloc.c:1043-1067 | accounts and lists after the head of a cache list is flushed: its bytes are lost from the account of size |
| `MmSize.TrueSizeIsLeast` | src/Zend/zend_alloc.c:573-579 | the true size is the least legal block size that holds the header and the request |
| `MmSize.SmallClassesAreExact` | src/Zend/zend_alloc.c:576-585 | the small classes are one size each and are numbered 0 to 63 |
| `MmSize.SegmentSizeIsLeast` | src/Zend/zend_alloc.c:2104-2112 | the segment size is the least multiple of the unit that holds the block, the segment header and the guard |
| `MmSize.Figures` | src/Zend/zend_alloc.c:573-585 | true sizes, classes, cache size and segment sizes in figures |
| `MmBits.HighBitScan` | src/Zend/zend_alloc.c:732-737 | the scan computes the floor of the binary logarithm |
| `MmBits.LowBitScan` | src/Zend/zend_alloc.c:767-778 | the table-driven scan computes the number of trailing zeros |
| `MmBits.SteersStep` | src/Zend/zend_alloc.c:814-818 | the top bit of the shifted word is the next bit of the size on the way down |
| `MmTrie.TrieInsert` | src/Zend/zend_alloc.c:814-824 | hanging a node into the empty slot on the path of its size keeps the bitwise trie |
| `MmTrie.TrieSubst` | src/Zend/zend_alloc.c:900-912 | a leaf below, or a peer, can take over the place of a node and the trie stays one |
| `MmTrie.TrieDetach` | src/Zend/zend_alloc.c:883-898 | cutting off a leaf keeps the trie |
| `MmTrie.PathIsUnique` | src/Zend/zend_alloc.c:814-836 | two nodes of one level with one path are the same node |
| `MmRing.RingInsert` | src/Zend/zend_alloc.c:850-854 | linking a block behind a ring member is exactly an insertion |
| `MmRing.RingRemove` | src/Zend/zend_alloc.c:923-924 | unlinking a member leaves exactly the ring of the others |
| `MmRing.SameNeighbours` | src/Zend/zend_alloc.c:927-930 | a member has the same neighbour on both sides exactly in rings of at most two, so the emptiness tests are also true for one block |
| `MmIndex.OldestRest` | src/Zend/zend_alloc.c:952-957 | a full rest list has an oldest member to evict, and evicting it is not the removal that clears a bit |
| `MmIndex.DroppedExact` | src/Zend/zend_alloc.c:926-933 | removing a block keeps the small bitmap exact if and only if it is not the only rest block, small, with a single block in the ring of its size |
| `MmIndex.FiledExact` | src/Zend/zend_alloc.c:846-854 | filing a block keeps the small bitmap exact |
| `MmFreeIndex.LoseBit` | src/Zend/zend_alloc.c:926-933 | two free blocks of 40 bytes, one of them the only rest block: removing it clears the bit of the other |
| `MmFreeIndex.FreeIndex.constructor` | src/Zend/zend_alloc.c:993-1012 | the empty index satisfies the index invariant |
| `MmFreeIndex.FreeIndex.Descend` | src/Zend/zend_alloc.c:802-836 | the descent ends, within as many levels as the top bit says, at the node of the size or at the empty slot where it belongs |
| `MmFreeIndex.FreeIndex.AddToFreeList` | src/Zend/zend_alloc.c:787-856 | the block is in front in the small ring of its size, or behind the node of its size or alone as a node, everything else where it was, tree nodes keep their places, bitmaps follow, the index invariant holds |
| `MmFreeIndex.FreeIndex.RemoveFromFreeList` | src/Zend/zend_alloc.c:863-940 | exactly this block leaves the index, from a small ring, a peer ring, the trie or the rest list; the place of a node with peers is taken by its oldest peer; the index invariant holds |
| `MmFreeIndex.FreeIndex.LeafUnder` | src/Zend/zend_alloc.c:894-898 | the walk ends at a leaf below the node |
| `MmFreeIndex.FreeIndex.Substitute` | src/Zend/zend_alloc.c:900-912 | the writes at subst_block are the substitution of one node by another |
| `MmFreeIndex.FreeIndex.AddToRestList` | src/Zend/zend_alloc.c:947-982 | the oldest rest blocks are filed one by one until fewer than 16 large ones are left, only the last of them large, each is then at home in the list of its size and all others are where they were, and then the block is appended; an exact small bitmap stays exact |
| `MmFreeIndex.FreeIndex.Evict` | src/Zend/zend_alloc.c:952-966 | the oldest rest block moves to the list of its size, in front if it is small, the other rings are unchanged, and an exact small bitmap stays exact |
| `MmFreeIndex.RestedExact` | src/Zend/zend_alloc.c:947-982 | adding to the rest list, with any number of evictions, keeps the small bitmap exact |
| `MmSearch.SearchLarge` | src/Zend/zend_alloc.c:1918-2010 | NULL exactly when no trie block is large enough; otherwise the result fits, is exact if an exact one exists, is in the lowest power-of-two class with a fit, and is no larger than any fitting node on the path of the size, child of a node there, or root of a higher bucket; it is the smallest block that fits if and only if the smallest fitting node is one of these; in a higher bucket its size is the least on the walk from the root; of its size it is the newest peer of the node |
| `MmSearch.GoodFitWithinTwice` | src/Zend/zend_alloc.c:1918-2010 | so the result is less than twice the smallest block that fits |
| `MmSearch.WalkPath` | src/Zend/zend_alloc.c:1940-1971 | the first walk finds the exact node, or the best fit on the path and the last larger subtree beside it, such that every fit of the bucket is no smaller than one of the two or lies in that subtree |
| `MmSearch.WalkKept` | src/Zend/zend_alloc.c:1974-1982 | the second walk finds the smallest of the best fit so far and the nodes it comes to in the kept subtree; any node it takes other than these two is larger than some fit |
| `MmSearch.WalkRoot` | src/Zend/zend_alloc.c:2003-2008 | the third walk takes the smallest of the nodes it comes to from the root, which is the smallest of the bucket if and only if the root is |
| `MmFit.KeptIsBest` | src/Zend/zend_alloc.c:1940-1982 | the first two walks find the smallest fit of all if and only if that is on the path of the size or a child of a node there |
| `MmFit.RootIsBest` | src/Zend/zend_alloc.c:2003-2008 | the third walk finds the smallest fit of all if and only if that is the root of its bucket |
| `MmFit.KeptIsNearest` | src/Zend/zend_alloc.c:1940-1982 | the first two walks find the smallest fitting node that is on the path of the size or a child of a node there |
| `MmFit.SiblingIsSmaller` | src/Zend/zend_alloc.c:1974-1982 | a walk below a node only goes on to a child that has a sibling of smaller size |
| `MmCases.SearchMisses` | src/Zend/zend_alloc.c:2003-2008 | with free blocks of 2040, 1032 and 1544 bytes, filed in this order, a search for 560 bytes returns the one of 1544 |
| `MmSearch.SearchSmall` | src/Zend/zend_alloc.c:2062-2071 | the first set bit at or above the class leads to the oldest block of its class, and none is returned only if no bit is set there |
| `MmSearch.SearchRest` | src/Zend/zend_alloc.c:2083-2099 | the best fit of the rest list, the newest of its size, none only if none fits |
| `Tsrm.Run` | src/TSRM/TSRM.c:120-192 | start-up, any locked steps of any threads in any order, shutdown: before the shutdown the ids, which of them are done, and the threads with resources are those of the plain account of the steps; after it every block that was made is freed, and its destructor has received it exactly if it has one |
| `Tsrm.ResourceManager.constructor` | src/TSRM/TSRM.c:120-161 | start-up establishes the invariant with no ids and no entries |
| `Tsrm.ResourceManager.AllocateId` | src/TSRM/TSRM.c:215-267 | a new id, never an old one, with its type behind the types so far; every entry gets exactly one new slot and keeps the others; thread-local pointers are untouched |
| `Tsrm.ResourceManager.Extend` | src/TSRM/TSRM.c:248-259 | an entry one slot behind is brought up to date |
| `Tsrm.ResourceManager.NewResource` | src/TSRM/TSRM.c:270-304 | the new entry has a slot for every id, NULL for those that are done, stands in the bucket of its thread and in its thread-local pointer |
| `Tsrm.ResourceManager.Walk` | src/TSRM/TSRM.c:347-366 | the locked walk finds the entry of a thread exactly if there is one |
| `Tsrm.ResourceManager.Fetch` | src/TSRM/TSRM.c:308-375 | the lock-free fast path and the locked walk give the same entry; after inserting, whatever the other threads do meanwhile, the second look finds the entry; the cell is NULL exactly if the id is done, and otherwise holds a block that was made for this thread and id and is not freed |
| `Tsrm.ResourceManager.Obtain` | src/TSRM/TSRM.c:345-366 | after the locked section the thread has its entry, and the pointers and entries of all other threads are as before |
| `Tsrm.ResourceManager.FreeThread` | src/TSRM/TSRM.c:442-480 | the entry of the thread is gone and all its blocks are freed and destroyed; a destructor receives NULL exactly if some id is done and has a destructor |
| `Tsrm.ResourceManager.FreeId` | src/TSRM/TSRM.c:530-560 | the slot of the id is NULL in every entry, all other slots are as before, the id is done, and no other type has changed |
| `Tsrm.ResourceManager.Shutdown` | src/TSRM/TSRM.c:165-192 | all entries are gone and every block is freed, and destroyed if its type has a destructor |
| `Tsrm.ResourceManager.CallDtor` | src/TSRM/TSRM.c:178-181 | a destructor receives only NULL or a block that was made, is not freed and was not destroyed before |
| `Tsrm.ResourceManager.FreeBlock` | src/TSRM/TSRM.c:462-464 | only NULL or a block that was made and is not freed is freed |
| `Tsrm.ResourceManager.PerformAll` | src/TSRM/TSRM.c:215-560 | every run of locked steps keeps the invariant and agrees with the plain account of the steps; ids, labels, and what was freed or destroyed never change back; threads that take no step keep their pointers, and the cells of ids that are not retired keep their blocks |
| `Tsrm.ResourceManager.Perform` | src/TSRM/TSRM.c:215-560 | one locked step does what the plain account says, and disturbs no other thread but for the cell of an id it retires |
| `Tsrm.NullReachesDestructor` | src/TSRM/TSRM.c:454-461 | a run in which a destructor receives NULL: the id is freed before the thread |
| `TsrmState.TlsIsTable` | src/TSRM/TSRM.c:281-285 | a thread-local pointer is not NULL exactly if the table has an entry for the thread; it is that entry, which stands once, in the bucket of the thread |
| `TsrmState.HashSpreads` | src/TSRM/TSRM.h:100 | neighbouring threads are in different buckets |
| `TsrmState.DoneIsFreed` | src/TSRM/TSRM.c:541-555 | every block of an id that is done, or of a thread without entry, is freed, and destroyed exactly if its type has a destructor |
| `TsrmState.TakeDown` | src/TSRM/TSRM.c:454-473 | taking an entry down keeps the invariant for the rest |
| `TsrmState.AddBlock` | src/TSRM/TSRM.c:252-258 | filling a slot keeps the invariant |
| `TsrmState.MarkDone` | src/TSRM/TSRM.c:555 | once a slot is empty everywhere, its id can be marked done |
| `TsrmState.EmptyTable` | src/TSRM/TSRM.c:170-191 | with all chains empty nothing is left unfreed |
| `Modules.SortModules` | src/Zend/zend_API.c:1769-1801 | for dependencies without a cycle the sort terminates, permutes the modules, and leaves no dependency of a module that is not started behind it |
| `Modules.FindDependency` | src/Zend/zend_API.c:1779-1797 | the search finds a module behind that is a dependency, or there is none |
| `Modules.StartupModule` | src/Zend/zend_API.c:1712-1766 | in a sorted list a module starts exactly if its required modules are registered and its hook succeeds |
| `Modules.StartupModules` | src/Zend/zend_API.c:1882-1887 | all modules start if and only if each one that is not started has its required modules registered and a hook that succeeds; otherwise the first that cannot is removed, those before it are started and those behind it untouched |
| `Modules.SwapKeeps` | src/Zend/zend_API.c:1788-1791 | a swap keeps order in front, permutation and absence of cycles |
| `Modules.WhatIsADependency` | src/Zend/zend_API.c:1780-1787 | required and optional modules are dependencies, conflicting ones are not, a started module has none, and names are compared without case |
| `Heapsort.HeapsortR` | src/Zend/bench.php:218-248 | terminates with elements 1 to n in order and a permutation of the input |
| `Heapsort.Sift` | src/Zend/bench.php:233-246 | the inner loop restores the heap from its node on, as a permutation, and touches nothing else |
| `Heapsort.RootIsLargest` | src/Zend/bench.php:224-231 | the root of a heap bounds it |
| `Diff.CountArrayDiff` | src/run-tests.php:2149-2189 | terminates, with a value no larger than the longest common subsequence of the two suffixes, no smaller than their common front, and, with steps left, no smaller than that and the common front behind one line skipped on either side |
| `Diff.NoneLonger` | src/run-tests.php:2149-2189 | no common subsequence is longer than the length used there |
| `Diff.OneAsLong` | src/run-tests.php:2149-2189 | and one is as long |
| `Diff.Compare` | src/run-tests.php:2199-2221 | the lines not marked up to the point reached are the same on both sides, in order; if one text is the other with one more line, exactly such a line is marked, or is what is left |
| `Diff.Merge` | src/run-tests.php:2223-2245 | the merged list has the marks of either side once each and in order; a run of consecutive lines of one side is not interrupted, and otherwise the smaller number comes first |
| `Diff.OneOrder` | src/run-tests.php:2223-2245 | these rules determine the list |
| `Diff.GenerateArrayDiff` | src/run-tests.php:2191-2256 | without the lines listed with - and + the two texts are the same; every line is listed at most once and in order; the diff is empty exactly for equal texts; if one text is the other with one more line, the diff is exactly one line, and without it the texts are equal |
| `Ast.Evaluate` | src/Zend/zend_ast.c:105-348 | the outcome is the meaning of the tree although leaves are overwritten on the way, and what the rule of each kind of node makes of the outcomes of its children; in a scope the visited names become their values, otherwise nothing changes; no leaf of another tree is written |
| `Ast.YieldsMeaning` | src/Zend/zend_ast.c:105-348 | the rules, one per kind (operands in order, both short circuits, a choice with and without a middle, signs from zero, array items in order), give a tree its meaning and nothing else |
| `Ast.YieldsOne` | src/Zend/zend_ast.c:105-348 | what the rules give is determined |
| `AstCases.EncodedMeans` | src/Zend/zend_ast.c:105-348 | on integers every tree of differences, signs, negations, conjunctions, disjunctions, choices and arrays has the value that arithmetic gives the expression, or fails exactly if a name that is needed has no value |
| `AstCases.Compute` | src/Zend/zend_ast.c:105-348 | building the tree of an expression and evaluating it gives that value |
| `AstCases.Examples` | src/Zend/zend_ast.c:105-348 | 7 - 2 is 5; a choice by a true or false condition; short circuits over a name without a value |
| `Ast.EvaluateItems` | src/Zend/zend_ast.c:317-333 | the same for array items, keys before values |
| `Ast.EvaluateLeaf` | src/Zend/zend_ast.c:253-268 | the leaf in both modes |
| `Ast.EvaluatedOnce` | src/Zend/zend_ast.c:253-268 | evaluating again, in any scope and with any constants, gives the same value and changes nothing |
| `Ast.CtConstantIsIndependent` | src/Zend/zend_ast.c:87-103 | a compile-time constant has the same outcome in every scope and with all constants |
| `Ast.CtConstantIff` | src/Zend/zend_ast.c:87-103 | a tree is a compile-time constant if and only if no leaf is a name |
| `Ast.SettledAlways` | src/Zend/zend_ast.c:105-348 | a tree that needs no lookup keeps its value when more leaves are resolved |
| `Ast.ResolvedMeans` | src/Zend/zend_ast.c:255-260 | resolving leaves in place changes no meaning |
| `Ast.MatchMeans` | src/Zend/zend_ast.c:105-348 | trees of one shape whose leaves agree mean the same, short circuits included |
| `Ast.CopyIsAlike` | src/Zend/zend_ast.c:350-369 | a copy has the same shape and leaves, in new cells |
| `Ast.CopyMeansTheSame` | src/Zend/zend_ast.c:350-369 | a copy means what the original means |
| `Ast.CopyIsSeparate` | src/Zend/zend_ast.c:350-369 | evaluating the copy does not touch the original |
| `Printer.Print` | src/Zend/zend.c:340-451 | on every graph of tables, cyclic or not, the printers terminate, leave every nApplyCount as it was, and print the rendering in which a table inside itself is the recursion mark |
| `PrinterCases.ArrayText` | src/Zend/zend.c:340-352 | the text of an array in both styles, for the first time and inside itself, around the text of its elements |
| `PrinterCases.ObjectText` | src/Zend/zend.c:353-386 | the same for an object with properties |
| `PrinterCases.BareObjectText` | src/Zend/zend.c:374-386 | the same for an object without a table of properties |
| `PrinterCases.ElementText` | src/Zend/zend.c:134-222 | the text of n + 1 elements is that of n and the line of the last: key or property name, value four plus four deeper, a comma when flat |
| `PrinterCases.EmptyText` | src/Zend/zend.c:340-451 | whole texts: empty arrays and objects, for every indentation |
| `PrinterCases.OneScalarText` | src/Zend/zend.c:340-451 | whole texts: one element; an object shows the property name, but the key when flat |
| `PrinterCases.TwoScalarsText` | src/Zend/zend.c:340-451 | whole texts: two elements, with a comma or on two lines |
| `PrinterCases.NestedText` | src/Zend/zend.c:340-451 | whole texts: a table in a table, eight deeper |
| `PrinterCases.CyclicText` | src/Zend/zend.c:340-451 | whole texts: an array and an object that contain themselves |
| `PrinterCases.PrintOne` | src/Zend/zend.c:340-451 | the two texts of an array with one element, as they stand on the page |
| `Printer.PrintTable` | src/Zend/zend.c:404-411 | the guard around a table |
| `Printer.PrintElements` | src/Zend/zend.c:134-193 | the loop over the elements |
| `Printer.NeverInsideItself` | src/Zend/zend.c:340-451 | no table is expanded inside itself, and every table entered is left |
| `VaArgs.ParseVaArgs` | src/Zend/zend_API.c:729-885 | both passes compute the two-pass parse of any specification |
| `VaArgs.CountPass` | src/Zend/zend_API.c:743-799 | the counting loop |
| `VaArgs.ConsumePass` | src/Zend/zend_API.c:835-882 | the consuming loop |
| `VaArgs.CountIsRight` | src/Zend/zend_API.c:743-809 | for a well-formed specification: how many arguments are needed and how many types stand behind the varargs |
| `VaArgs.CountFails` | src/Zend/zend_API.c:743-799 | the counting pass fails if and only if the specification has a character that may not be there or a second varargs mark |
| `VaArgs.ConsumeIsRight` | src/Zend/zend_API.c:835-882 | the arguments are shared out to leading types, varargs and trailing types |
| `VaArgs.ParseIsRight` | src/Zend/zend_API.c:729-885 | parsing succeeds if and only if the number of arguments is right and every type accepts its argument, and then every argument is consumed exactly once as described; the two passes agree |
| `VaArgs.SlotsMeaning` | src/Zend/zend_API.c:835-882 | argument by argument: the first go to the leading types, the next max(0, n - a - b) to the varargs, the rest to the trailing types |
| `VaArgs.SlotsInOrder` | src/Zend/zend_API.c:835-882 | later arguments go to later types |
| `VaArgs.ConsumeType` | src/Zend/zend_API.c:307-321 | one type letter with its modifiers takes one argument |
| `Constants.ConstantTable.Register` | src/Zend/zend_constants.c:470-520 | a constant enters under its key, or the table is unchanged |
| `Constants.ConstantTable.Get` | src/Zend/zend_constants.c:273-299 | the lookup of the raw name, then of the name in lower case; it gives what the name means if and only if the namespace is in lower case already or the name means no case-sensitive constant |
| `Constants.PlainIsMeaning` | src/Zend/zend_constants.c:273-299 | the same condition, for every table and name |
| `Constants.PlainMisses` | src/Zend/zend_constants.c:273-299 | a case-sensitive constant `A\B` is not found by that name |
| `Constants.ConstantTable.GetEx` | src/Zend/zend_constants.c:381-423 | the qualified lookup gives the constant of that name: a case-sensitive one if its name is the same up to the case of the namespace, else a case-insensitive one if its name is the same up to case; an unqualified one that finds none gives the constant named like the part behind the last backslash; a leading backslash is skipped |
| `Constants.MeaningIsNamed` | src/Zend/zend_constants.c:381-423 | a name means the one constant of the table that is so named, in terms of the names as they were defined |
| `Constants.QueryInNamespace` | src/Zend/zend_constants.c:381-423 | with the one constant `B`, the query `x\B` finds it if and only if it is unqualified |
| `Ascii.Alphabet` | src/Zend/zend_operators.c:45-64 | the twenty-six letters and their lower case; other characters stay |
| `Constants.FirstWins` | src/Zend/zend_constants.c:470-520 | over every run of registrations the first definition of a key wins and stays |
| `Constants.MeaningIsExact` | src/Zend/zend_constants.c:381-423 | a lookup gives a case-sensitive constant if and only if the namespace-lowered name is its key, and a case-insensitive one if and only if the lowered name is its key and no case-sensitive key matches |
| `Constants.DefinedIsFound` | src/Zend/zend_constants.c:470-520 | a constant that was registered first under its key is found by its own name, unless it is case-insensitive and a case-sensitive one has exactly that name |
| `Constants.FindsTheFirst` | src/Zend/zend_constants.c:273-299 | what a name finds is the first constant registered under its key |

## Left out

- MmManager.Manager.MoveSegment: stops before the flush of the cache when storage refuses to resize a segment whose second block is free, because the flush then works on an index that lacks a free block.
- MmManager.Manager.constructor: no reserve block, no heap that lives in its own segment, and the block size is given instead of read from the environment.
- MmManager.Manager.AllocInt: sizes do not wrap around, so the tests for overflowing sizes have no counterpart.
- Heapsort.HeapsortR: n is at least 2; for smaller n the loop of the original does not end.
- Constants.ConstantTable.Get: a name that is in no table gives nothing; the special constants such as `__CLASS__` are not part of this model.
- Constants.ConstantTable.GetEx: names of class constants are not part of this model.
- Tsrm.ResourceManager.AllocateId: `malloc` and `realloc` succeed.
- Tsrm.ResourceManager.Shutdown: the thread-local pointers of other threads are not followed after shutdown.
- Ast.Evaluate: the operators, truth and the lookup of a constant are arbitrary functions; their warnings are not part of this model.
- Printer.Print: property tables are persistent; temporary tables of `get_debug_info` are not part of this model.
- VaArgs.ParseVaArgs: whether a type accepts an argument is an arbitrary function; the conversions and the messages are not part of this model.
- Diff.CountArrayDiff: lines are compared as text, not as regular expressions.
- Storage back-ends: any aligned region that overlaps no segment, or a refusal.
- `zend_mm_shutdown`, leak reports, heap checks, magic numbers and cookies, cache statistics.
- `tsrm_set_interpreter_context`, `tsrm_new_interpreter_context`, fetching with the id of another thread, `ts_free_worker_threads`, thread begin and end handlers, and a fast-path read that races with a locked step.
- Collecting request handlers, module globals, and the HashTable behind the registries.
- The regular-expression mode of the diff, and everything else in the test runner.
- The wrappers `add_assoc_*`, `add_index_*`, `add_property_*` and `zend_update_*`.
