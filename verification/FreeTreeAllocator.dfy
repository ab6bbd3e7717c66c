// The free-tree allocator: best fit through a red-black tree of the free blocks,
// boundary tags for coalescing.
module FreeTreeModel {
  import opened Bits
  import opened Rows
  import opened Allocations
  import opened RBShape
  import opened RBMemory
  import opened RBSplice
  import opened RBTreeModel
  import opened FreeTreeBlocks
  import opened FreeTreeState
  import opened FreeTreeSpec

  // The tree object lies at the start of the heap: its root and the sentinel.
  const TREE_SIZE: nat := 8 + NODE_SIZE

  class FreeTreeAllocator {
    const start: Ptr
    const total: nat
    const tree: RBTree
    var tags: Tags
    ghost var st: Abstract

    // start: where the operating system put the heap.
    constructor (start: Ptr, size: nat, pageSize: nat)
      requires 0 < size && IsPow2(pageSize) && 4096 <= pageSize && size + pageSize <= WORD / 4
      requires start != NIL && start % pageSize == 0 && start <= WORD / 4
      ensures Valid() && fresh(tree) && this.start == start
      ensures size <= total < size + pageSize && total % pageSize == 0 && First() == start + 56 && Last() == start + total - 8
      ensures First() + META + META <= Last() && st == Cleared(First(), Last())
    {
      hide State, TagOf, AlignUp, And, IsPow2;
      PageAligned(start, size, pageSize);
      this.start := start;
      total := AlignUp(size, pageSize);
      tree := new RBTree();
      tags := Tags(map[], map[]);
      st := Abstract([], map[]);
      new;
      Clear();
    }

    // Where the first block starts, behind the tree and the prologue.
    ghost function First(): Ptr {
      start + TREE_SIZE + META
    }

    // Where the epilogue lies.
    ghost function Last(): int {
      start + total - META
    }

    ghost predicate Valid()
      reads this, tree
    {
      && Last() >= First() && tree.Valid() && InTree(tree.Contents(), st.blocks)
      && State(tags, st, First(), Last())
    }

    method UpdateBlock(header: Ptr, size: nat, taken: bool)
      modifies this`tags
      ensures tags == Tags(Update(old(tags).words, Blk(header, size, taken)), old(tags).backs)
    {
      var words := tags.words[header := TagOf(size, taken)];
      var footer := header + META + size;
      tags := tags.(words := words[footer := TagOf(size, taken)]);
    }

    // The node of a free block becomes part of the tree.
    method Enter(node: Ptr, size: nat)
      requires tree.Valid() && node != NIL && forall x :: x in tree.Contents() ==> x.ptr != node
      modifies tree
      ensures tree.Valid() && tree.Contents() == Inserted(old(tree.Contents()), Entry(node, size))
    {
      IdsAreEntries(tree.tree);
      tree.Place(node, size);
      IdsAreEntries(tree.tree);
      ghost var steps := tree.Insert(node);
    }

    // The node of a free block leaves the tree.
    method Leave(node: Ptr, ghost e: Entry)
      requires tree.Valid() && e in tree.Contents() && e.ptr == node
      modifies tree
      ensures tree.Valid() && tree.Contents() == Removed(old(tree.Contents()), node)
    {
      IdsAreEntries(tree.tree);
      tree.Remove(node);
    }

    // Everything that was handed out is forgotten; the heap is one free block.
    method Clear()
      requires start != NIL && start % 8 == 0 && total % 8 == 0 && tree.Valid()
      requires First() + META + NODE_SIZE + META <= Last() <= WORD / 2
      modifies this`tags, this`st, tree
      ensures Valid() && st == Cleared(First(), Last())
    {
      hide State, TagOf, HeapOk;
      tree.Clear();
      var prologue := start + TREE_SIZE;
      var epilogue := start + total - META;
      var words := tags.words[prologue := TagOf(0, true)];
      tags := tags.(words := words[epilogue := TagOf(0, true)]);
      var header := prologue + META;
      var size := epilogue - header - META - META;
      ghost var w := tags.words;
      UpdateBlock(header, size, false);
      ClearedState(w, tags.backs, header, epilogue);
      Enter(header + META, size);
      st := Cleared(header, epilogue);
    }

    // A free right neighbour leaves the tree; extra is the space it adds.
    method TakeRight(right: Ptr, ghost a: seq<Blk>, ghost b: Blk, ghost c: seq<Blk>, ghost s: Ptr, ghost e: Ptr) returns (extra: nat)
      requires Row(tags.words, a, b, c, s, e) && right == Past(b)
      requires tree.Valid() && multiset(tree.Contents()) == FreeSet(a) + FreeSet(c)
      modifies tree
      ensures tree.Valid() && multiset(tree.Contents()) == FreeSet(a) + FreeSet(JoinRight(c))
      ensures extra == if FirstTaken(c) then 0 else META + c[0].size + META
    {
      hide Row, FreeSet, TagOf, Tiled, Tagged;
      var words := tags.words;
      BlockRead(words, a, b, c, s, e);
      CoalesceReads(words, a, b, c, s, e);
      JoinFreeRight(c);
      extra := 0;
      if !words[right].Allocated() {
        RightLeaves(tree.Contents(), a, b, c, s, e);
        Leave(right + META, EntryOf(c[0]));
        extra := META + words[right].Size() + META;
      }
    }

    // A free left neighbour leaves the tree; merged is where the block starts then.
    method TakeLeft(header: Ptr, ghost a: seq<Blk>, ghost b: Blk, ghost c: seq<Blk>, ghost s: Ptr, ghost e: Ptr)
      returns (merged: Ptr, extra: nat)
      requires Row(tags.words, a, b, c, s, e) && header == b.addr
      requires tree.Valid() && multiset(tree.Contents()) == FreeSet(a) + FreeSet(JoinRight(c))
      modifies tree
      ensures tree.Valid() && multiset(tree.Contents()) == FreeSet(JoinLeft(a)) + FreeSet(JoinRight(c))
      ensures merged == if LastTaken(a) then b.addr else a[|a| - 1].addr
      ensures extra == if LastTaken(a) then 0 else META + a[|a| - 1].size + META
    {
      hide Row, FreeSet, TagOf, Tiled, Tagged, AllTagged, Fenced, Spaced, JoinRight, JoinLeft, And, Not;
      hide Past, Removed, Zip, RedBlack, Sorted;
      var words := tags.words;
      LeftReads(words, a, b, c, s, e);
      JoinFreeLeft(a);
      merged, extra := header, 0;
      var leftFooter := header - META;
      if !words[leftFooter].Allocated() {
        LeftLeaves(tree.Contents(), a, b, c, s, e);
        merged := leftFooter - words[leftFooter].Size() - META;
        Leave(merged + META, EntryOf(a[|a| - 1]));
        extra := META + words[merged].Size() + META;
      }
    }

    // The block at header, not in the tree just now, and its free neighbours become
    // one block; the neighbours leave the tree.
    method Coalesce(header: Ptr, ghost a: seq<Blk>, ghost b: Blk, ghost c: seq<Blk>, ghost s: Ptr, ghost e: Ptr) returns (merged: Ptr)
      requires Row(tags.words, a, b, c, s, e) && !b.taken && b.addr == header
      requires tree.Valid() && multiset(tree.Contents()) == FreeSet(a) + FreeSet(c)
      modifies this`tags, tree
      ensures tree.Valid() && multiset(tree.Contents()) == FreeSet(JoinLeft(a)) + FreeSet(JoinRight(c))
      ensures merged == JoinBlk(a, b, c).addr
      ensures tags == Tags(Update(old(tags).words, JoinBlk(a, b, c)), old(tags).backs)
    {
      hide Row, FreeSet, TagOf, Update, JoinBlk, JoinLeft, JoinRight;
      BlockRead(tags.words, a, b, c, s, e);
      JoinBlkIs(a, b, c);
      var size := tags.words[header].Size();
      // first to the right, so that the header stays in place
      var extraRight := TakeRight(header + META + size + META, a, b, c, s, e);
      var extraLeft;
      merged, extraLeft := TakeLeft(header, a, b, c, s, e);
      UpdateBlock(merged, size + extraRight + extraLeft, false);
    }

    // Tags a found block as taken; what is left of it is split off if it can be a
    // block that holds a node.
    method Carve(header: Ptr, origSize: nat, searchSize: nat, ghost bs: seq<Blk>, ghost i: nat)
      requires Last() >= First() && HeapOk(tags.words, bs, First(), Last()) && i < |bs|
      requires bs[i].addr == header && bs[i].size == origSize >= searchSize
      requires tree.Valid() && multiset(tree.Contents()) == FreeSet(bs[..i]) + FreeSet(bs[i + 1..])
      modifies this`tags, tree
      ensures tree.Valid() && InTree(tree.Contents(), AllocBlocks(bs, i, searchSize, MIN_SPLIT))
      ensures tags == Tags(SplitWords(old(tags).words, bs[i], searchSize), old(tags).backs)
      ensures tree.Contents() ==
        if origSize >= searchSize + META + META + NODE_SIZE then
          Inserted(old(tree.Contents()), Entry(header + META + searchSize + META + META, origSize - searchSize - META - META))
        else
          old(tree.Contents())
    {
      hide HeapOk, InTree, TagOf, Update, FreeSet, AllocBlocks, SplitWords, Zip, RedBlack, Sorted, Inserted;
      if origSize - searchSize >= MIN_SPLIT {
        var freeHeader := header + META + searchSize + META;
        var freeSize := origSize - searchSize - META - META;
        RestEnters(tags.words, bs, tree.Contents(), i, searchSize, First(), Last());
        UpdateBlock(header, searchSize, true);
        UpdateBlock(freeHeader, freeSize, false);
        Enter(freeHeader + META, freeSize);
      } else {
        WholeTaken(tags.words, bs, tree.Contents(), i, searchSize);
        UpdateBlock(header, origSize, true);
      }
    }

    // Hands out the free block that was found, with room for searchSize bytes.
    method HandOut(node: Ptr, searchSize: nat, align: nat, size: nat, ghost i: nat) returns (ptr: Ptr)
      requires Valid() && BestBlock(st.blocks, searchSize, i) && node == Payload(st.blocks[i])
      requires node in tree.mem && tree.mem[node].size == st.blocks[i].size
      requires IsPow2(align) && 0 < align <= WORD && size > 0
      requires searchSize % 8 == 0 && searchSize >= NODE_SIZE && searchSize >= size + align - 1 + META
      modifies this`tags, this`st, tree
      ensures Valid() && i < |old(st).blocks| && old(st).blocks[i].size >= searchSize
      ensures ptr == AlignUp(Payload(old(st).blocks[i]) + META, align) && ptr % align == 0 && ptr !in old(st).live
      ensures st == AllocAbstract(old(st), i, searchSize, MIN_SPLIT, ptr, size, align)
      ensures NoWaste(st, ptr, old(st).blocks[i], searchSize, NODE_SIZE)
    {
      hide State, InTree, TagOf, Update, IsPow2, AlignUp, Pieces, AllocBlocks, FreeSet, HeapOk, SplitWords, And, NoWaste;
      hide Zip, RedBlack, Sorted, Inserted, Removed;
      ghost var m0, b := tags, st.blocks[i];
      Chosen(m0, st, tree.Contents(), i, searchSize, First(), Last());
      DataAt(b.addr, align, size, searchSize);
      AllocState(m0, st, i, searchSize, AlignUp(Payload(b) + META, align), size, align, First(), Last());

      var origSize := tree.mem[node].size;
      Leave(node, EntryOf(b));
      var header := node - META;
      ptr := AlignUp(node + META, align);
      tags := tags.(backs := tags.backs[ptr - META := header]);
      Carve(header, origSize, searchSize, st.blocks, i);
      NothingWasted(st, i, searchSize, MIN_SPLIT, ptr, size, align, NODE_SIZE);
      st := AllocAbstract(st, i, searchSize, MIN_SPLIT, ptr, size, align);
    }

    // Best fit; null exactly if no free block holds the bytes searched for.
    method AllocRaw(size: nat, align: nat) returns (ptr: Ptr)
      requires Valid() && size < WORD && align < WORD
      requires GoodRequest(size, align) ==> size + AtLeast8(align) + 2 * META <= WORD + 1
      modifies this`tags, this`st, tree
      ensures Valid()
      ensures !GoodRequest(size, align) ==> ptr == NIL && st == old(st)
      ensures GoodRequest(size, align) ==> AtLeast8(align) <= WORD && Allocated(old(st), st, ptr, size, align)
    {
      hide State, InTree, TagOf, IsPow2, SearchSize, AlignUp, AllocAbstract, BestBlock, NoBlock, Allocated, IsBestFit, And;
      if !IsPow2(align) {
        return NIL;
      }
      var align8 := if align < 8 then 8 else align;
      if size == 0 || size + align8 + META >= WORD {
        return NIL;
      }
      EightIsPow2(align);
      SearchSpec(size, align8);
      var searchSize := SearchSize(size, align8);
      ghost var steps;
      var node;
      node, steps := tree.FindBest(searchSize);
      ghost var i := BestInTree(tree.mem, tree.Contents(), st.blocks, searchSize, node);
      if node == NIL {
        NothingFound(st, size, align);
        return NIL;
      }
      ghost var st0 := st;
      ptr := HandOut(node, searchSize, align8, size, i);
      AllocationDone(st0, i, ptr, size, align);
    }

    // ptr is null or one that alloc_raw returned and that was not freed since.
    method FreeRaw(ptr: Ptr)
      requires Valid() && (ptr != NIL ==> ptr in st.live)
      modifies this`tags, this`st, tree
      ensures Valid()
      ensures ptr == NIL ==> st == old(st)
      ensures ptr != NIL ==> Deallocated(old(st), st, ptr)
    {
      hide State, InTree, TagOf, Update, Row, FreeSet, FreeBlocks, JoinLeft, JoinRight, JoinBlk, HeapOk, Tagged;
      hide Zip, RedBlack, Sorted, Inserted;
      if ptr == NIL {
        return;
      }
      ghost var i := FoundBlock(tags, st, ptr, First(), Last());
      ghost var st0, m0, a, b, c := st, tags, st.blocks[..i], st.blocks[i], st.blocks[i + 1..];
      BlockRead(tags.words, a, b, c, First(), Last());
      TakenOutside(st0.blocks, tree.Contents(), i);
      var header := tags.backs[ptr - META];
      ghost var b' := b.(taken := false);
      RowUpdated(tags.words, a, b, c, First(), Last(), b');
      UpdateBlock(header, tags.words[header].Size(), false);
      JoinedRow(tags.words, a, b', c, First(), Last());
      JoinIgnores(a, b, c, false);
      var merged := Coalesce(header, a, b', c, First(), Last());
      JoinedEnters(tags.words, tree.Contents(), st0.blocks, i, First(), Last());
      Enter(merged + META, tags.words[merged].Size());
      FreeState(m0, tags.words, st0, ptr, i, First(), Last());
      st := FreeAbstract(st0, i, ptr);
    }
  }
}
