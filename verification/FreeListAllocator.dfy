// The free-list allocator: first fit in a list of free blocks that is kept in the
// order of addresses and coalesced at once.
module FreeListModel {
  import opened Bits
  import opened Rows
  import opened Allocations
  import opened FreeListState
  import opened FreeListSpec

  class FreeListAllocator {
    const start: Ptr
    const total: nat
    var head: Ptr
    var mem: Memory
    ghost var st: Abstract

    // start: where the operating system put the heap.
    constructor (start: Ptr, size: nat, pageSize: nat)
      requires 0 < size && IsPow2(pageSize) && 16 <= pageSize && size + pageSize <= WORD / 4
      requires start != NULL && start % pageSize == 0 && start <= WORD / 4
      ensures Valid() && this.start == start && size <= total < size + pageSize && total % pageSize == 0
      ensures HEADER <= total && st == Cleared(start, start + total)
    {
      hide State, AlignUp, And, IsPow2;
      PageAligned(start, size, pageSize);
      this.start := start;
      total := AlignUp(size, pageSize);
      head := NULL;
      mem := Memory(map[], map[]);
      st := Abstract([], map[]);
      new;
      Clear();
    }

    ghost predicate Valid()
      reads this
    {
      State(mem, head, st, start, start + total)
    }

    // Everything that was handed out is forgotten; the heap is one free block.
    method Clear()
      requires start != NULL && start % 8 == 0 && total % 8 == 0 && HEADER <= total && start + total <= WORD / 2
      modifies this
      ensures Valid() && st == Cleared(start, start + total)
    {
      hide State;
      EightEnd(start, total);
      ClearedState(mem.nodes, mem.headers, start, start + total);
      mem := mem.(nodes := mem.nodes[start := Node(total, NULL)]);
      head := start;
      st := Cleared(start, start + total);
    }

    // prev->next = v, or the head of the list if there is no prev.
    method Redirect(prev: Ptr, v: Ptr)
      requires prev != NULL ==> prev in mem.nodes
      modifies this`mem, this`head
      ensures mem == old(mem).(nodes := SetNext(old(mem).nodes, prev, v)) && head == SetHead(old(head), prev, v)
    {
      if prev == NULL {
        head := v;
      } else {
        mem := mem.(nodes := mem.nodes[prev := mem.nodes[prev].(next := v)]);
      }
    }

    // Takes the block curr, which is large enough, out of the list, in part if
    // the rest can hold a node.
    method TakeBlock(prev: Ptr, curr: Ptr, pad: nat, required0: nat, size: nat, ghost align: nat, ghost i: nat) returns (ptr: Ptr)
      requires Valid() && i < |st.blocks| && !st.blocks[i].taken && curr == st.blocks[i].addr
      requires prev == LastOf(FreeOf(st.blocks[..i]))
      requires required0 <= Whole(st.blocks[i]) && required0 % 8 == 0 && size + HEADER + pad <= required0 && size > 0
      requires curr in mem.nodes && mem.nodes[curr].size == Whole(st.blocks[i]) && align > 0 && (curr + pad + HEADER) % align == 0
      modifies this
      ensures Valid() && i < |old(st).blocks| && HEADER <= required0 <= Whole(old(st).blocks[i])
      ensures ptr == curr + pad + HEADER && ptr !in old(st).live
      ensures st == AllocAbstract(old(st), i, required0 - HEADER, MIN_REST, ptr, size, align)
      ensures NoWaste(st, ptr, old(st).blocks[i], required0 - HEADER, 0)
    {
      hide State, FreeOf, AllocBlocks, Whole, NoWaste;
      ghost var b := st.blocks[i];
      WholeIs(b, required0);
      AllocState(mem, head, st, i, required0, pad, size, align, start, start + total);
      var required, newBlock, freeSize := required0, NULL, mem.nodes[curr].size;
      var next := mem.nodes[curr].next;
      if freeSize - required >= MIN_REST {
        newBlock := curr + required;
        mem := mem.(nodes := mem.nodes[newBlock := Node(freeSize - required, next)]);
      } else {
        newBlock := next;
        required := freeSize;
      }
      Redirect(prev, newBlock);
      var header := curr + pad;
      mem := mem.(headers := mem.headers[header := Header(required, pad)]);
      ptr := header + HEADER;
      NothingWasted(st, i, required0 - HEADER, MIN_REST, ptr, size, align, 0);
      st := AllocAbstract(st, i, required0 - HEADER, MIN_REST, ptr, size, align);
    }

    // First fit; null exactly if no free block is large enough.
    method AllocRaw(size: nat, align: nat) returns (ptr: Ptr)
      requires Valid() && size < WORD && align < WORD
      requires GoodRequest(size, align) ==> NoWrap(size, align)
      modifies this
      ensures Valid()
      ensures !GoodRequest(size, align) ==> ptr == NULL && st == old(st)
      ensures GoodRequest(size, align) ==> align > 0 && Allocated(old(st), st, ptr, size, align)
    {
      hide State, FreeOf, Fits, Allocated, AllocAbstract, FirstFit, CalcPad, AlignUp, Linked, And;
      if !IsPow2(align) {
        return NULL;
      }
      if size == 0 || size + align + HEADER >= WORD {
        return NULL;
      }
      ghost var fs := FreeOf(st.blocks);
      var prev, curr := NULL, head;
      ghost var j := 0;
      WalkStart(mem, head, st, start, start + total);
      while curr != NULL
        invariant Valid() && st == old(st) && mem == old(mem) && head == old(head)
        invariant j <= |fs| && curr == HeadOf(fs[j..], NULL) && prev == LastOf(fs[..j])
        invariant forall k :: 0 <= k < j ==> !Fits(fs[k], size, align)
        decreases |fs| - j
      {
        WalkStep(mem, head, st, j, start, start + total);
        var pad := CalcPad(curr + HEADER, align);
        var required := AlignUp(size + HEADER + pad, 8);
        RequiredSpec(curr, size, align);
        FitsIs(fs[j], size, align);
        if mem.nodes[curr].size >= required {
          ghost var i := Position(st.blocks, j);
          FirstFitAt(st.blocks, i, j, size, align);
          ghost var st0 := st;
          ptr := TakeBlock(prev, curr, pad, required, size, align, i);
          AllocationDone(st0, i, ptr, size, align);
          return;
        }
        prev := curr;
        curr := mem.nodes[curr].next;
        j := j + 1;
      }
      WalkEnd(mem, head, st, j, start, start + total);
      NoneFound(st, size, align);
      return NULL;
    }

    // Merges a block of the list with the neighbours that it touches.
    method Coalesce(prev: Ptr, block: Ptr)
      requires block in mem.nodes && (mem.nodes[block].next != NULL ==> mem.nodes[block].next in mem.nodes)
      requires prev != NULL ==> prev in mem.nodes
      modifies this`mem
      ensures mem == old(mem).(nodes := LeftNodes(RightNodes(old(mem).nodes, block), prev, block))
    {
      var next := mem.nodes[block].next;
      if next != NULL {
        if block + mem.nodes[block].size == next {
          var merged := Node(mem.nodes[block].size + mem.nodes[next].size, mem.nodes[next].next);
          mem := mem.(nodes := mem.nodes[block := merged]);
        }
      }
      if prev != NULL {
        if prev + mem.nodes[prev].size == block {
          var merged := Node(mem.nodes[prev].size + mem.nodes[block].size, mem.nodes[block].next);
          mem := mem.(nodes := mem.nodes[prev := merged]);
        }
      }
    }

    // Where a block belongs in the list: prev before it, curr behind it.
    method FindPlace(block: Ptr, ghost fs: seq<Blk>) returns (prev: Ptr, curr: Ptr, ghost j: nat)
      requires Linked(mem.nodes, fs, NULL) && head == HeadOf(fs, NULL)
      ensures j <= |fs| && curr == HeadOf(fs[j..], NULL) && prev == LastOf(fs[..j])
      ensures forall k :: 0 <= k < j ==> fs[k].addr < block
      ensures j < |fs| ==> fs[j].addr >= block
    {
      hide Linked;
      prev, curr, j := NULL, head, 0;
      assert fs[0..] == fs;
      while curr != NULL && curr < block
        invariant j <= |fs| && curr == HeadOf(fs[j..], NULL) && prev == LastOf(fs[..j])
        invariant forall k :: 0 <= k < j ==> fs[k].addr < block
        decreases |fs| - j
      {
        Visit(mem.nodes, fs, j);
        prev := curr;
        curr := mem.nodes[curr].next;
        j := j + 1;
      }
      Visit(mem.nodes, fs, j);
    }

    // ptr is null or one that alloc_raw returned and that was not freed since.
    method FreeRaw(ptr: Ptr)
      requires Valid() && (ptr != NULL ==> ptr in st.live)
      modifies this
      ensures Valid()
      ensures ptr == NULL ==> st == old(st)
      ensures ptr != NULL ==> Deallocated(old(st), st, ptr)
    {
      hide State, FreeOf, Linked, LeftNodes, RightNodes, FreeBlocks, Whole;
      if ptr == NULL {
        return;
      }
      ghost var i := FreeDone(mem, head, st, ptr, start, start + total);
      ghost var a, b, c := st.blocks[..i], st.blocks[i], st.blocks[i + 1..];

      var header := mem.headers[ptr - HEADER];
      var block := ptr - HEADER - header.pad;
      ghost var j;
      var prev, curr;
      prev, curr, j := FindPlace(block, FreeOf(a) + FreeOf(c));
      PlaceFound(FreeOf(a), FreeOf(c), b, j);
      mem := mem.(nodes := mem.nodes[block := Node(header.size, curr)]);
      Redirect(prev, block);
      assert mem.nodes == InsertedNodes(old(mem).nodes, a, b, c);
      Coalesce(prev, block);
      st := FreeAbstract(st, i, ptr);
    }
  }
}
