# oo_alloc: models and proofs of the allocators

This project models six components of the oo_alloc library of memory allocators
in Dafny and proves what they promise: the intrusive red-black tree, the buddy,
the segregated, the free-tree and the free-list allocator, and the slab allocator,
which cuts the pages that a base allocator gives it into slots.

Addresses are natural numbers. What the C++ code reads and writes through
pointers lies in maps from addresses to headers, footers, links or nodes, one map
for each type of cell; each class keeps them in a field and updates them as the
original does, next to a ghost field that says what the memory stands for:

| component | files | stands for |
|---|---|---|
| bit arithmetic | `Bits` | - |
| what is handed out | `Allocations` | - |
| red-black tree | `RBShape`, `RBMemory`, `RBFix`, `RBSplice`, `RBTree` | a coloured tree, handled through zippers |
| buddy allocator | `BuddyTree`, `Links`, `BuddyLists`, `BuddyState`, `BuddyAllocator` | a binary tree of live, free and split blocks, and the lists of free blocks |
| segregated allocator | `BuddyTree`, `Links`, `BuddyLists`, `SegBlocks`, `SegState`, `SegSpec`, `SegregatedAllocator` | the same tree and lists |
| free-tree allocator | `Rows`, `FreeTreeBlocks`, `FreeTreeState`, `FreeTreeSpec`, `FreeTreeAllocator` | a row of blocks without gaps |
| free-list allocator | `Rows`, `FreeListState`, `FreeListSpec`, `FreeListAllocator` | a row of blocks without gaps |
| slab allocator | `Links`, `SlabState`, `SlabSpec`, `SlabAllocator` | slabs with their free slots, and the lists they are in |

`Valid()` of each class says that memory and abstract state agree and that the
state is well formed. Constructors and `clear` establish it, and every operation
keeps it, so what is proved of valid states holds in every state of every run.
The contracts of the operations give the new abstract state, so that lemmas about
abstract states are statements about runs:

- **Red-black tree.** Insertion and removal keep order, colours, black heights
  and mutually inverse links and change exactly the one node, although rotations
  write to the parent field of the shared sentinel in the middle of a fix-up.
- **Buddy.** No free block ever has a free buddy, so the free blocks are a
  function of the live ones. An allocation fails exactly if every naturally
  aligned window of its order meets a live block, and freeing what was just
  allocated restores every list, contents and order.
- **Segregated.** Deferring coalescing loses nothing: null exactly if every
  window of the target size meets a live block. What is taken is best fit, after
  coalescing as before. `coalesce_all` terminates, keeps
  the live blocks, and its result depends on nothing else.
- **Free tree.** Blocks tile the heap, both tags of each agree, no two neighbours
  are free, and the tree holds exactly the free blocks. Allocation is true best
  fit and wastes nothing that could be a block.
- **Free list.** The list ascends by address, no two entries touch, and free and
  live blocks make up the heap. Allocation is first fit and wastes nothing that
  could be a block.
- **Slab.** Every slab is in exactly one list, the one for its use count, also
  with one slot to a page. Freeing what was just allocated restores all lists,
  contents and order, but for a page that was just taken.

What the code's own documentation says and the code does not do:

- `alloc_raw` of the buddy allocator refuses alignments above 64 KB only after
  the block has been taken (`src/BuddyAllocator.cpp:146-149`); the block is then
  lost until `clear`, which is possible exactly for alignments above 32768. The model follows the code: such blocks are live, belong to
  no allocation, and are counted as lost.
- `alloc_raw` of the segregated allocator counts one byte in front of the data
  where it needs two (`src/SegregatedAllocator.cpp:59-61`). Alignments above 1
  make up for it; with alignment 1 a request ends one byte behind its block exactly
  if size and one more byte are a power of two from 32 on.
- The offset of the segregated allocator is cut to a byte
  (`src/SegregatedAllocator.cpp:122`): a pointer can be freed exactly if it was
  allocated with an alignment of at most 128.
- Hence the segregated allocator does not serve as the base of a slab allocator,
  which asks for pages aligned to a page (`src/SlabAllocator.cpp:150`): the byte in
  front of such a page is zero, and `clear` hands back what cannot be freed.
- The comment at `src/SegregatedAllocator.cpp:140-144` says that `free_raw` merges
  up; it does not.
- `alloc_raw` of the slab allocator serves alignments up to 2048
  (`src/SlabAllocator.cpp:41-46`), but slots are aligned exactly up to 32.

## Model

| member | source | states |
|---|---|---|
| `Bits.AlignUpSpec` | include/oo_alloc/utils.hpp:20-22 | on every size and power of two without wrap-around, `align_up` is the multiple of the alignment in `[size, size + align)` |
| `Bits.CalcPadSpec` | include/oo_alloc/utils.hpp:26-28 | `calc_pad` is below the alignment and completes the address to a multiple of it |
| `Bits.IsPow2Log2` | src/SegregatedAllocator.cpp:46 | the test `align & (align - 1)` is zero on powers of two and on no other positive number |
| `Bits.XorPow2` | include/oo_alloc/BuddyAllocator.hpp:69-74 | exclusive or with `2^k` adds `2^k` if bit `k` is clear and takes it away if it is set |
| `Bits.LowestBit` | src/SegregatedAllocator.cpp:88 | `countr_zero` is the position of the lowest set bit |
| `Bits.BitCeilLeast` | include/oo_alloc/BuddyAllocator.hpp:55 | `bit_ceil` is a power of two, at least the argument, and the least such |
| `RBTreeModel.RBTree.constructor` | src/internal/RBTree.hpp:43-49 | the new tree is valid and has no nodes |
| `RBTreeModel.RBTree.Clear` | src/internal/RBTree.hpp:56 | the tree is valid and has no nodes, and node memory is as before |
| `RBTreeModel.RBTree.IsEmpty` | src/internal/RBTree.hpp:55 | true exactly if the tree has no nodes |
| `RBTreeModel.RBTree.RotateL` | src/internal/RBTree.cpp:7-31 | all pointer writes of a left rotation, including the unguarded one to the parent field of a child that may be the sentinel |
| `RBTreeModel.RBTree.RotateR` | src/internal/RBTree.cpp:34-58 | the same for a right rotation |
| `RBMemory.RewiredZip` | src/internal/RBTree.cpp:7-58 | those writes turn memory that holds a tree into memory that holds the rotated tree, with all links mutually inverse, whatever surrounds it |
| `RBShape.RotatedEntries` | src/internal/RBTree.cpp:7-58 | a rotation keeps the in-order sequence of nodes |
| `RBTreeModel.RBTree.InsertFix` | src/internal/RBTree.cpp:72-132 | from a tree with at most one red-red edge or a red root to a valid tree with the same nodes in the same order; the loop climbs towards the root |
| `RBTreeModel.RBTree.InsertFixUnderLeft` | src/internal/RBTree.cpp:79-103 | one round below a left parent keeps the loop's invariant and the nodes, and gets nearer to the root |
| `RBTreeModel.RBTree.InsertFixUnderRight` | src/internal/RBTree.cpp:104-129 | one round below a right parent, likewise |
| `RBFix.FlipKeeps` | src/internal/RBTree.cpp:82-87 | case 1: recolouring moves the violation two levels up and keeps black heights and order |
| `RBFix.TurnOutKeeps` | src/internal/RBTree.cpp:89-96 | case 2: the rotation of the parent turns an inner child into an outer one and keeps black heights and order |
| `RBFix.TurnUpKeeps` | src/internal/RBTree.cpp:98-102 | case 3: the rotation of the grandparent ends the violation and keeps black heights and order |
| `RBTreeModel.RBTree.RemoveFix` | src/internal/RBTree.cpp:139-226 | from a tree that lacks one black node on the ways through `replacement` to a valid tree with the same nodes; the loop ends, although rotations overwrite the sentinel's parent field |
| `RBTreeModel.RBTree.RemoveFixOnLeft` | src/internal/RBTree.cpp:142-194 | one round on the left: either the missing black node is made up for, or the search goes on nearer to the root |
| `RBTreeModel.RBTree.RemoveFixOnRight` | src/internal/RBTree.cpp:195-222 | one round on the right, likewise |
| `RBFix.SiblingReads` | src/internal/RBTree.cpp:140-165 | the parent and the sibling that a round reads are the right ones, even if the short subtree is empty and its root is the sentinel |
| `RBFix.Case1Keeps` | src/internal/RBTree.cpp:155-160 | case 1: a red sibling is rotated away, the black deficit stays what it is |
| `RBFix.Case2Keeps` | src/internal/RBTree.cpp:162-167 | case 2: recolouring moves the deficit one level up |
| `RBFix.Case3Keeps` | src/internal/RBTree.cpp:170-182 | case 3: the sibling's red child changes sides, the deficit stays what it is |
| `RBFix.Case4Done` | src/internal/RBTree.cpp:184-193 | case 4: one rotation makes up for the missing black node |
| `RBTreeModel.RBTree.Transplant` | src/internal/RBTree.cpp:231-244 | exactly three fields change: the link that led to the node, the replacement's parent, and the root if need be |
| `RBTreeModel.RBTree.Min` | src/internal/RBTree.cpp:247-251 | the leftmost node of a subtree, with the way to it |
| `RBTreeModel.RBTree.Insert` | src/internal/RBTree.cpp:256-290 | for every valid tree and every node not in it, duplicates of a size included: a valid tree with that node added in front of the nodes of its size, all others in the same order; the rounds of the descent are at most 2 log2(n + 1) |
| `RBTreeModel.RBTree.FindPlace` | src/internal/RBTree.cpp:257-269 | the descent ends at the empty place in front of all nodes of the new size, after at most 2 log2(n + 1) rounds |
| `RBTreeModel.RBTree.LinkIn` | src/internal/RBTree.cpp:273-288 | the new red leaf hangs at that place, all other links are as before |
| `RBTreeModel.RBTree.Remove` | src/internal/RBTree.cpp:292-343 | for every valid tree and every node in it: a valid tree with exactly the other nodes, in the same order |
| `RBTreeModel.RBTree.LiftSuccessor` | src/internal/RBTree.cpp:314-334 | a node with two children is replaced by its successor; what is left lacks at most the successor's black |
| `RBSplice.LiftedState` | src/internal/RBTree.cpp:314-342 | taking out the successor leaves a red-black tree if it was red, and a tree that lacks one black node below its old place if not |
| `RBSplice.LiftedEntries` | src/internal/RBTree.cpp:314-334 | the tree with the successor in the node's place has exactly the other nodes, in the same order |
| `RBTreeModel.RBTree.FindBest` | src/internal/RBTree.cpp:346-361 | the sentinel exactly if all sizes are too small, else a node of least size that reaches the request, with duplicates on either side; `2^rounds <= (n + 1)^2` |
| `RBShape.HeightBound` | src/internal/RBTree.cpp:346-361 | a red-black tree of n nodes has `2^height <= (n + 1)^2` |
| `BuddyTree.CanonicalUnique` | src/BuddyAllocator.cpp:171-203 | two trees of blocks without free buddies and with the same live blocks are equal: which blocks are free depends on the live ones only |
| `BuddyTree.ClearWindow` | src/BuddyAllocator.cpp:107-119 | if no two free blocks are buddies, every naturally aligned window that meets no live block lies in one free block |
| `BuddyTree.FreeIsClear` | src/BuddyAllocator.cpp:128-135 | every free block starts with a window of each smaller size that meets no live block |
| `BuddyTree.WindowsAre` | src/BuddyAllocator.cpp:61-67 | the places where a block of a size can lie are the multiples of that size from the start of the heap |
| `BuddyTree.XorIsBuddy` | include/oo_alloc/BuddyAllocator.hpp:62-77 | the address from the exclusive or is the buddy's, inside the parent block, or the heap's end for the block that is the whole heap |
| `BuddyTree.BuddyHeader` | src/BuddyAllocator.cpp:173-187 | a block of the current decomposition starts at the buddy's address, so the header read there is never stale; it is free and of the same order only if it is the whole buddy |
| `BuddyTree.ChunksApart` | src/BuddyAllocator.cpp:52-93 | blocks do not overlap, and none is both free and live |
| `BuddyTree.BytesCovered` | src/SegregatedAllocator.cpp:316-384 | a byte of the heap is in a free block exactly if it is in no live one, so whatever keeps the live blocks keeps the set of free bytes |
| `BuddyState.SetFreeKeepsOrder` | include/oo_alloc/BuddyAllocator.hpp:19-24 | setting the flag in the header byte gives that flag and keeps the order, for every byte |
| `BuddyState.SetOrderKeepsFree` | include/oo_alloc/BuddyAllocator.hpp:25-27 | setting an order below 128 gives that order and keeps the flag, for every byte |
| `BuddyState.SizeToOrderLeast` | include/oo_alloc/BuddyAllocator.hpp:53-60 | `size_to_order` is the least order whose blocks hold size and header |
| `BuddyState.OrderInRange` | src/BuddyAllocator.cpp:104-110 | the order of a request is one of the 32 exactly if a block of 64 GB could hold it with its header: the precondition of `alloc_raw` |
| `BuddyModel.BuddyAllocator.constructor` | src/BuddyAllocator.cpp:11-42 | valid, with one free block; the heap is the least power of two that reaches the size asked for and a page |
| `BuddyModel.BuddyAllocator.Clear` | src/BuddyAllocator.cpp:218-237 | valid again, with the single free block of the heap's order and nothing live |
| `BuddyState.HeapSize` | src/BuddyAllocator.cpp:17-30 | the size rounded to a power of two and to whole pages is the least power of two that reaches both, and its order is the one that `clear` computes |
| `BuddyModel.BuddyAllocator.SplitBlock` | src/BuddyAllocator.cpp:52-93 | the first block of an order becomes its two halves, the left one in front of the right one; lists, links, headers and tree agree again |
| `BuddyModel.BuddyAllocator.FindOrder` | src/BuddyAllocator.cpp:111-115 | the least order from the target on with a free block, or 32 |
| `BuddyModel.BuddyAllocator.SplitDown` | src/BuddyAllocator.cpp:121-125 | the split cascade, list by list, down to the target order; live blocks stay |
| `BuddyModel.BuddyAllocator.Take` | src/BuddyAllocator.cpp:128-153 | the first block of the order leaves its list, its headers are written, and it becomes live and handed out, or lost exactly if the 16 bits do not lead back to it |
| `BuddyModel.BuddyAllocator.WriteLiveHeaders` | src/BuddyAllocator.cpp:135-151 | both header writes, one after the other, also when they hit the same header; nothing outside the block is written |
| `BuddyModel.BuddyAllocator.AllocRaw` | src/BuddyAllocator.cpp:95-154 | in every valid state: null and no change exactly if the request is refused or every window of the target order meets a live block; else the lists are those of the split cascade, one block more is live, and the data is aligned and inside it, or the block is lost, exactly if what 16 bits keep of the offset does not lead back to it |
| `BuddyState.DataInBlock` | src/BuddyAllocator.cpp:137-139 | the aligned data of a request fits into a block of the target order behind the header |
| `BuddyState.ShortOffset` | src/BuddyAllocator.cpp:145-149 | up to an alignment of 32768 the offset always fits into 16 bits |
| `BuddyState.LongOffset` | src/BuddyAllocator.cpp:146-149 | for every alignment from 65536 on and every block at a multiple of it the offset is the alignment and does not fit: the refusal comes after the block has been taken |
| `BuddyState.NoneLost` | src/BuddyAllocator.cpp:137-151 | the offset fits for every block exactly if the alignment is at most 32768 |
| `BuddyModel.BuddyAllocator.TakeBack` | src/BuddyAllocator.cpp:160-169 | the header in front of the data leads back to the very block and order of the allocation |
| `BuddyModel.BuddyAllocator.MergeUp` | src/BuddyAllocator.cpp:171-203 | the merge loop ends, reads only headers of current blocks, and leaves no free buddy; the lists are those of the recursive merge |
| `BuddyModel.BuddyAllocator.Unlink` | src/BuddyAllocator.cpp:189-198 | the buddy leaves its doubly linked list, wherever in it |
| `BuddyModel.BuddyAllocator.Release` | src/BuddyAllocator.cpp:205-215 | the merged block is tagged and becomes the first of its list |
| `BuddyModel.BuddyAllocator.FreeRaw` | src/BuddyAllocator.cpp:156-216 | for every pointer handed out and not freed: valid again, exactly that block is no longer live, and the lists are those of the merge |
| `BuddyState.BuddyTest` | src/BuddyAllocator.cpp:173-187 | what the loop reads of the buddy says exactly whether the buddy is one free block of this order, and that is so exactly if it is in the list |
| `BuddyState.MergeDecision` | src/BuddyAllocator.cpp:172-203 | one look at the buddy either merges as the recursive merge does, or ends with no two free buddies |
| `BuddyState.ListedIffWindow` | src/BuddyAllocator.cpp:110-119 | some list from the target order on is not empty exactly if some window of the target order meets no live block |
| `BuddyState.FreeSetUnique` | src/BuddyAllocator.cpp:156-216 | two valid states with the same live blocks have the same blocks in every list |
| `BuddyLists.MergeUndoesCascade` | src/BuddyAllocator.cpp:121-125 | merging the left half that the cascade ends with undoes the cascade step for step |
| `BuddyState.FreeUndoesAlloc` | src/BuddyAllocator.cpp:110-215 | in every valid state, taking a block and merging it back gives the same lists, contents and order |
| `BuddyState.FreeAfterAlloc` | src/BuddyAllocator.cpp:95-216 | an allocation followed at once by its deallocation restores lists, live blocks and allocations |
| `BuddyState.AllFreed` | src/BuddyAllocator.cpp:218-237 | once nothing is live and nothing lost, the lists are those that `clear` builds |
| `BuddyState.RangesDisjoint` | src/BuddyAllocator.cpp:137-153 | in every valid state live ranges are aligned as asked for, lie inside the heap and do not overlap |
| `SegSpec.SizeToBucketLeast` | include/oo_alloc/SegregatedAllocator.hpp:46-54 | `size_to_bucket` is the least bucket whose blocks hold size |
| `SegSpec.BucketInRange` | src/SegregatedAllocator.cpp:57-64 | the bucket of a size is one of the 25 exactly up to 2^29 bytes: the precondition of `alloc_raw` and of the constructor |
| `SegState.BucketBit` | include/oo_alloc/SegregatedAllocator.hpp:59-64 | `set_bucket_bit` sets or clears one bit of the 32-bit mask and keeps the others |
| `SegState.MaskIsFirst` | src/SegregatedAllocator.cpp:71-88 | the masked word is zero exactly if all buckets from the index on are empty, else its lowest bit is the first that is not |
| `SegregatedModel.SegregatedAllocator.constructor` | src/SegregatedAllocator.cpp:10-29 | valid, with one free block; the heap is the least power of two that reaches the size asked for and a page |
| `SegregatedModel.SegregatedAllocator.Clear` | src/SegregatedAllocator.cpp:194-228 | valid again, with one free block, its header, footer and mask bit |
| `SegregatedModel.SegregatedAllocator.PopFront` | src/SegregatedAllocator.cpp:99-104 | the first block leaves its bucket; the mask bit is cleared exactly if the bucket is now empty |
| `SegregatedModel.SegregatedAllocator.SplitBlock` | src/SegregatedAllocator.cpp:237-290 | a block becomes its two halves, with headers, footers, flags about the left neighbour, links and mask bits all in agreement |
| `SegregatedModel.SegregatedAllocator.RemoveFromBucket` | src/SegregatedAllocator.cpp:292-307 | the block leaves its bucket, its links are null, and the mask bit is cleared exactly if the bucket is now empty |
| `SegregatedModel.SegregatedAllocator.Merge` | src/SegregatedAllocator.cpp:346-375 | two free buddies become one free block of the next bucket; live blocks stay, and there is one free block less |
| `SegregatedModel.SegregatedAllocator.ScanBucket` | src/SegregatedAllocator.cpp:322-381 | the scan of one bucket merges one pair, or finds that no block of it has a free buddy |
| `SegregatedModel.SegregatedAllocator.CoalesceAll` | src/SegregatedAllocator.cpp:316-384 | terminates, keeps every live block, and leaves no two free buddies |
| `SegregatedModel.SegregatedAllocator.Prepare` | src/SegregatedAllocator.cpp:64-97 | finds, coalesces for, or splits for a free block in front of the bucket, exactly if some window of its size meets no live block; the block split is a least one that is large enough, of the coalesced heap if no bucket had one before |
| `SegregatedModel.SegregatedAllocator.SplitDown` | src/SegregatedAllocator.cpp:90-94 | the split cascade, bucket by bucket; live blocks stay, and of the block split the right halves stay free |
| `SegregatedModel.SegregatedAllocator.Take` | src/SegregatedAllocator.cpp:99-137 | the first block of the bucket becomes live: header, back byte and the right neighbour's flag |
| `SegregatedModel.SegregatedAllocator.AllocRaw` | src/SegregatedAllocator.cpp:44-138 | in every valid state: null exactly if the request is refused or every window of the target size meets a live block, although coalescing is deferred; else one block more is live, with the data aligned behind header and back byte. It is the left end of a least free block that is large enough, in the heap as it is if there is one and else in the coalesced heap, which is a function of the live blocks; that block's right halves stay free and nothing else changes |
| `SegregatedModel.SegregatedAllocator.FreeRaw` | src/SegregatedAllocator.cpp:145-192 | for a pointer allocated with an alignment of at most 128: exactly that block is no longer live; it is first in its bucket with header, footer and the right neighbour's flag, and nothing is merged |
| `SegState.SplitState` | src/SegregatedAllocator.cpp:237-290 | the writes of a split lead from a valid state to a valid state with the same live blocks |
| `SegState.TakeState` | src/SegregatedAllocator.cpp:99-137 | the writes of taking a block lead to a valid state: `is_prev_free` holds exactly of blocks behind a free one |
| `SegState.GiveState` | src/SegregatedAllocator.cpp:160-191 | the writes of giving a block back lead to a valid state, footer and the right neighbour's flag included |
| `SegState.MergeState` | src/SegregatedAllocator.cpp:346-374 | the writes of a merge lead to a valid state with the same live blocks and fewer free ones |
| `SegState.RightOf` | src/SegregatedAllocator.cpp:124-134 | the address behind a block is the heap's end or the start of a current block, so the header written there is one |
| `SegState.BuddyTest` | src/SegregatedAllocator.cpp:331-343 | the address from the exclusive or is the heap's end or the start of a current block, and its header says exactly whether the buddy is one free block of this order |
| `SegSpec.CoalescedCanonical` | src/SegregatedAllocator.cpp:319-383 | a pass over all buckets that merges nothing shows that no two free blocks are buddies |
| `SegSpec.CoalescedUnique` | src/SegregatedAllocator.cpp:316-384 | after coalescing, buckets as sets and the mask depend on the live blocks only, not on any list order |
| `SegSpec.ListedIsWindow` | src/SegregatedAllocator.cpp:64-88 | a free block that is large enough shows that some window meets no live block |
| `SegSpec.WindowIsListed` | src/SegregatedAllocator.cpp:75-88 | after coalescing, a window that meets no live block shows that some bucket from its size on is not empty |
| `SegSpec.DataAt` | src/SegregatedAllocator.cpp:110-114 | the data lies behind header and back byte, at most `align` bytes into the block unless `align` is 1, and the range fits exactly if the alignment is above 1 or size leaves room for the back byte |
| `SegSpec.RoomInside` | src/SegregatedAllocator.cpp:57-63 | with alignment 1 the block of the bucket chosen has room for the back byte exactly if size is below 31 or size and one more byte are not a power of two |
| `SegSpec.WayBack` | src/SegregatedAllocator.cpp:110-124 | the way from the data back to the block is below 256 for alignments up to 128, and a multiple of 256 for all greater ones |
| `SegSpec.UnalignedOverrun` | src/SegregatedAllocator.cpp:61-63 | what `alloc_raw` returns ends behind its block exactly if the alignment is 1, size is at least 31 and size and one more byte are a power of two |
| `SegSpec.BackByte` | src/SegregatedAllocator.cpp:119-153 | the byte in front of the data leads back to the block exactly if the alignment asked for was at most 128 |
| `SegSpec.LongWayLost` | src/SegregatedAllocator.cpp:119-124 | in every valid state the byte in front of a pointer allocated with an alignment of 256 or more is zero and leads nowhere |
| `SegSpec.RangesDisjoint` | src/SegregatedAllocator.cpp:99-137 | in every valid state live ranges are aligned as asked for, lie inside the heap and do not overlap, for requests that stay in their blocks by `UnalignedOverrun` |
| `SegSpec.AllFreed` | src/SegregatedAllocator.cpp:316-384 | once nothing is live, coalescing ends with the single block of the heap |
| `FreeTreeBlocks.TagReads` | include/oo_alloc/FreeTreeAllocator.hpp:34-36 | size and flag read from a tag are those written, for every multiple of 8 |
| `FreeTreeSpec.SearchSpec` | src/FreeTreeAllocator.cpp:119-125 | the size searched for is the least multiple of 8 that holds the data with its worst padding and the back pointer, but at least a tree node |
| `FreeTreeSpec.SearchWraps` | src/FreeTreeAllocator.cpp:119-125 | the size searched for is enough exactly for requests that do not wrap around when rounded up; for the others a block of the least size is searched for |
| `FreeTreeSpec.DataAt` | src/FreeTreeAllocator.cpp:139-157 | the aligned data lies behind the back pointer and inside the size searched for |
| `FreeTreeModel.FreeTreeAllocator.constructor` | src/FreeTreeAllocator.cpp:10-28 | valid, with one free block between prologue and epilogue, 56 bytes behind the start and 8 before the end; the heap is the least number of whole pages |
| `FreeTreeModel.FreeTreeAllocator.Clear` | src/FreeTreeAllocator.cpp:228-268 | valid again, with one free block between prologue and epilogue, and that block in the tree |
| `FreeTreeModel.FreeTreeAllocator.UpdateBlock` | include/oo_alloc/FreeTreeAllocator.hpp:42-50 | header and footer get the same tag, nothing else changes |
| `FreeTreeModel.FreeTreeAllocator.TakeRight` | src/FreeTreeAllocator.cpp:70-79 | a free right neighbour leaves the tree, and its space with both tags is counted |
| `FreeTreeModel.FreeTreeAllocator.TakeLeft` | src/FreeTreeAllocator.cpp:81-97 | a free left neighbour, found through its footer, leaves the tree, and the block starts there |
| `FreeTreeModel.FreeTreeAllocator.Coalesce` | src/FreeTreeAllocator.cpp:49-103 | the block and its free neighbours are one block with agreeing tags, and exactly those neighbours left the tree |
| `FreeTreeModel.FreeTreeAllocator.Carve` | src/FreeTreeAllocator.cpp:159-192 | the block is tagged as taken; the rest becomes a free block in the tree exactly if it can hold two tags and a node |
| `FreeTreeModel.FreeTreeAllocator.HandOut` | src/FreeTreeAllocator.cpp:134-195 | the block found becomes a live allocation of exactly the size searched for, its rest a free block, whenever the rest can be a block; else the whole block is taken |
| `FreeTreeModel.FreeTreeAllocator.AllocRaw` | src/FreeTreeAllocator.cpp:109-196 | in every valid state: null and no change exactly if the request is refused or no free payload reaches the size searched for; else the smallest that does is handed out, aligned, and nothing is wasted: its rest stays free whenever it can be a block that holds a node |
| `FreeTreeModel.FreeTreeAllocator.FreeRaw` | src/FreeTreeAllocator.cpp:200-226 | for every pointer handed out and not freed: valid again, exactly that block is free and merged with its free neighbours |
| `FreeTreeState.HeapAround` | src/FreeTreeAllocator.cpp:49-268 | a heap is well formed exactly if what lies in front of a block, the block and what lies behind it are, and a free block has no free neighbours |
| `FreeTreeState.Neighbours` | src/FreeTreeAllocator.cpp:54-82 | the footer on the left and the header on the right tell whether there is a free neighbour, and where and how large it is; prologue and epilogue stop both looks |
| `FreeTreeState.CoalesceRow` | src/FreeTreeAllocator.cpp:49-103 | writing the tags of the merged block gives a well-formed heap in which it has no free neighbour |
| `FreeTreeState.SplitRow` | src/FreeTreeAllocator.cpp:163-176 | writing the tags of both parts of a split block gives a well-formed heap |
| `FreeTreeState.BestInTree` | src/FreeTreeAllocator.cpp:127-132 | the node found in the tree is the payload of a smallest free block that is large enough, and none is found only if there is none |
| `FreeTreeSpec.AllocState` | src/FreeTreeAllocator.cpp:134-195 | the writes of an allocation lead to a valid state with that allocation recorded |
| `FreeTreeSpec.FreeState` | src/FreeTreeAllocator.cpp:200-226 | the writes of a deallocation lead to a valid state without that allocation |
| `FreeTreeSpec.FreeAfterAlloc` | src/FreeTreeAllocator.cpp:109-226 | an allocation followed at once by its deallocation restores the same blocks, whether the block was split or given whole |
| `FreeTreeSpec.AllFreed` | src/FreeTreeAllocator.cpp:228-268 | once nothing is live, the heap is the single free block that `clear` builds |
| `FreeTreeSpec.RangesDisjoint` | src/FreeTreeAllocator.cpp:139-157 | in every valid state live ranges are aligned as asked for, lie inside the heap and do not overlap |
| `Rows.BytesAdd` | src/FreeTreeAllocator.cpp:228-256 | the blocks with their tags add up to the whole space |
| `Rows.FreeUndoesAlloc` | src/FreeTreeAllocator.cpp:159-225 | on rows of blocks: freeing the first piece of a split block and merging gives the row back |
| `FreeListSpec.RequiredSpec` | src/FreeListAllocator.cpp:81-88 | the bytes taken are the least multiple of 8 that holds pad, header and data, and the data is aligned |
| `FreeListSpec.RequiredWraps` | src/FreeListAllocator.cpp:81-88 | the bytes taken suffice for every block exactly for requests that do not wrap around when rounded up; for the others they can be none |
| `FreeListModel.FreeListAllocator.constructor` | src/FreeListAllocator.cpp:10-26 | valid, with one free block that is the whole heap, the least number of whole pages |
| `FreeListModel.FreeListAllocator.Clear` | src/FreeListAllocator.cpp:171-179 | valid again, with one free block that is the whole heap |
| `FreeListModel.FreeListAllocator.TakeBlock` | src/FreeListAllocator.cpp:91-120 | the block found leaves the list, or what is left of it takes its place whenever that can hold a node; the header records size and pad |
| `FreeListModel.FreeListAllocator.AllocRaw` | src/FreeListAllocator.cpp:68-128 | in every valid state: null and no change exactly if the request is refused or no free block is large enough; else the first one that is, with aligned data, and nothing is wasted: its rest stays free whenever it can hold a node |
| `FreeListModel.FreeListAllocator.FindPlace` | src/FreeListAllocator.cpp:149-155 | the walk ends between the nodes at lower and those at higher addresses |
| `FreeListModel.FreeListAllocator.Coalesce` | src/FreeListAllocator.cpp:36-60 | exactly the writes of merging to the right and then to the left |
| `FreeListModel.FreeListAllocator.FreeRaw` | src/FreeListAllocator.cpp:130-168 | for every pointer handed out and not freed: valid again, exactly that block is free and merged with the neighbours that touch it |
| `FreeListState.FreeRising` | src/FreeListAllocator.cpp:36-168 | the free blocks of a row ascend by address, and if no two neighbours are free no two of them touch |
| `FreeListSpec.ListOfState` | src/FreeListAllocator.cpp:36-179 | in every valid state the list is strictly ascending, no two entries touch, and free and live blocks together make up the heap |
| `FreeListSpec.CoalesceList` | src/FreeListAllocator.cpp:36-60 | comparing addresses merges exactly the physical neighbours, and the list stays linked in order |
| `FreeListSpec.AllocList` | src/FreeListAllocator.cpp:91-111 | the list after an allocation is that of the free blocks that are left |
| `FreeListSpec.InsertLinked` | src/FreeListAllocator.cpp:157-164 | the freed block is linked between the node in front and the one behind |
| `FreeListSpec.FreeAfterAlloc` | src/FreeListAllocator.cpp:68-168 | an allocation followed at once by its deallocation restores the same blocks, whether split or absorbed |
| `FreeListSpec.AllFreed` | src/FreeListAllocator.cpp:171-179 | once nothing is live, the list is the single node that `clear` builds |
| `FreeListSpec.RangesDisjoint` | src/FreeListAllocator.cpp:112-120 | in every valid state live ranges are aligned as asked for, lie inside the heap and do not overlap |
| `SlabSpec.SizeToCacheLeast` | include/oo_alloc/SlabAllocator.hpp:57-65 | `size_to_cache_idx` is the least cache whose slots hold size, for every size up to 2048 |
| `SlabSpec.CacheInRange` | src/SlabAllocator.cpp:41-50 | there is a cache for a size exactly up to 2048 bytes |
| `SlabModel.SlabAllocator.constructor` | src/SlabAllocator.cpp:11-22 | nine caches with slots of 8 to 2048 bytes and no slabs |
| `SlabModel.SlabAllocator.PushToList` | include/oo_alloc/SlabAllocator.hpp:67-78 | the slab becomes the first of the list |
| `SlabModel.SlabAllocator.RemoveFromList` | include/oo_alloc/SlabAllocator.hpp:80-94 | the slab leaves the list, wherever in it, and its links are null |
| `SlabModel.SlabAllocator.Move` | src/SlabAllocator.cpp:64-65 | the slab is in the other list and in no other |
| `SlabModel.SlabAllocator.InitSlab` | src/SlabAllocator.cpp:145-188 | the page is cut into slots, all linked in order and ended by null; each lies in the page, and no further one would |
| `SlabModel.SlabAllocator.PickSlab` | src/SlabAllocator.cpp:52-76 | the first partial slab, else the first empty one, else a new one; it is now the first of the partial ones and has a free slot |
| `SlabModel.SlabAllocator.TakeFirst` | src/SlabAllocator.cpp:78-91 | the first free slot leaves the slab, which moves to the full ones exactly if that was the last |
| `SlabModel.SlabAllocator.AllocRaw` | src/SlabAllocator.cpp:28-94 | refused, passed on to the base allocator exactly if there is no cache for size and alignment, or served: null exactly if no slab of the cache has a free slot and the base gave no page; else the first free slot of the chosen slab, and every list with its order afterwards |
| `SlabModel.SlabAllocator.FreeRaw` | src/SlabAllocator.cpp:96-134 | the slot is the first free one of its slab, which is first in the list for its use count, also when it goes from full to empty at once; every other list keeps its order |
| `SlabModel.SlabAllocator.ClearSlabList` | include/oo_alloc/SlabAllocator.hpp:96-107 | the pages of the list are returned in its order, and the list is empty |
| `SlabModel.SlabAllocator.Clear` | src/SlabAllocator.cpp:136-143 | the pages of all lists are returned, cache by cache, and no slab is left |
| `SlabState.TakeSlot` | src/SlabAllocator.cpp:78-85 | taking the first free slot keeps the slab well formed: distinct slots inside the page, use count and free slots adding up to the capacity |
| `SlabState.GiveSlot` | src/SlabAllocator.cpp:112-116 | putting a slot in use in front of the free ones keeps the slab well formed |
| `SlabState.UsedCounts` | src/SlabAllocator.cpp:85-88 | the use count is the number of slots that are not free |
| `SlabSpec.MoveShelf` | src/SlabAllocator.cpp:122-133 | removing from one list and pushing to another keeps every slab in exactly one list |
| `SlabSpec.KindsAgree` | src/SlabAllocator.cpp:87-133 | the use count says empty, partial or full exactly as the number of free slots does |
| `SlabSpec.MaskedPage` | src/SlabAllocator.cpp:108-110 | masking a pointer into a page gives the page's start |
| `SlabSpec.SlotCountBounds` | src/SlabAllocator.cpp:161 | each page has at least one slot, and few enough for a counter of 16 bits |
| `SlabState.NoMoreSlots` | src/SlabAllocator.cpp:161 | one slot more than those of a page would end outside it |
| `SlabSpec.SlotAlignment` | src/SlabAllocator.cpp:44-46 | slots are aligned as requested exactly up to an alignment of 32, since they start behind a header of 32 bytes |
| `SlabSpec.AllocLive` | src/SlabAllocator.cpp:78-93 | an allocation makes exactly one more slot live, one that was not |
| `SlabSpec.FreeLive` | src/SlabAllocator.cpp:112-116 | a deallocation makes exactly that slot free |
| `SlabSpec.FreeAfterAlloc` | src/SlabAllocator.cpp:28-134 | freeing at once what was allocated restores slabs, free slots and all lists with their order, for every capacity; a page that was just taken stays as the first empty slab |
| `SlabSpec.LiveApart` | src/SlabAllocator.cpp:145-188 | slots in use do not overlap, in one page or in several |
| `SlabSpec.EachPageOnce` | src/SlabAllocator.cpp:136-143 | what `clear` returns has every page and none twice |

## Left out

- Arena, stack, pool and tracking allocators: offsets and counters, which would only add easy members.
- `owns`, `capacity`, destructors, `IAllocator::make` and `destroy`: one comparison each, or C++ object lifetime.
- Calls to the operating system: the base address, the page size and the pages given to a slab allocator are parameters, and constructions that fail for want of memory are not modelled.
- `SlabAllocator::owns` reads memory that the slab may not own: the page of a pointer to be freed is known to the model, and routing by `owns` is not modelled; that a large request is passed on to the base allocator is a result of `AllocRaw`.
- Cells as objects: nodes, headers, links and tags are maps from addresses to values held in one field, not a Dafny object each; two cells of different types that overlap in memory are separate entries. Proofs rely only on headers and links of current blocks, which never overlap.
- User payload: the model assumes that clients write inside the ranges they were given.
- BuddyModel.BuddyAllocator.AllocRaw: requires that the target order is below 32; `OrderInRange` shows that exactly the other requests lead to an index outside the array (`src/BuddyAllocator.cpp:110`).
- BuddyModel.BuddyAllocator.constructor: requires a size from 32 bytes to 2^62 whose order is below 32; the refusal of others is not modelled.
- SegregatedModel.SegregatedAllocator.AllocRaw: requires that size and alignment together are at most 2^29; `BucketInRange` shows that exactly the others lead to an index outside the array (`src/SegregatedAllocator.cpp:64`).
- SegregatedModel.SegregatedAllocator.FreeRaw: requires that the pointer was allocated with an alignment of at most 128; `BackByte` shows that no other pointer leads back to its block, so that the code would read a header where there is none.
- FreeTreeModel.FreeTreeAllocator.AllocRaw: requires that rounding the size up does not wrap around; `SearchWraps` shows that for exactly the other requests too small a block is searched for. Which of several free blocks of the same least size is taken depends on the shape of the tree and is not stated.
- FreeListModel.FreeListAllocator.AllocRaw: requires that rounding the size up does not wrap around for any block; `RequiredWraps` shows that exactly the other requests can take too few bytes.
- SegregatedModel.SegregatedAllocator.constructor: requires a size of at most 2^29, by `BucketInRange` the largest that `clear` has a bucket for, and pages of at least 256 bytes, as all are.
- FreeTreeModel.FreeTreeAllocator.constructor: requires pages of at least 4096 bytes, so that the first block can hold a node.
- SegregatedModel.SegregatedAllocator.CoalesceAll: says which blocks are free in the end, not the order of the lists; so after coalescing `AllocRaw` takes one of the least blocks that are large enough, without saying which.
- RBTreeModel.RBTree.Clear: forgets the nodes but does not say what becomes of their memory, like the code.
- Wall-clock time and threads: the only bounds on steps are those of the tree's search and of the descent of its insertion.
