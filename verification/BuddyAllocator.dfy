// The buddy allocator: power-of-two blocks, split on allocation, merged with
// their buddies at once on deallocation.
module BuddyModel {
  import opened Bits
  import opened BuddyTree
  import opened Allocations
  import opened Links
  import opened BuddyLists
  import opened BuddyState

  class BuddyAllocator {
    const base: Ptr
    const total: nat
    ghost const top: nat
    const freeLists: array<Ptr>
    var mem: Memory
    ghost var st: Abstract

    // base: where the operating system put the heap.
    constructor (base: Ptr, size: nat, pageSize: nat)
      requires 32 <= size <= Pow2(62) && IsPow2(pageSize) && 32 <= pageSize <= Pow2(62)
      requires pageSize <= WORD && SizeToOrder(AlignUp(BitCeil(size), pageSize)) < MAX_ORDER
      requires base != NULL && base % pageSize == 0 && base + AlignUp(BitCeil(size), pageSize) <= WORD / 2
      ensures Valid() && fresh(freeLists) && this.base == base && HeapFor(total, size, pageSize)
      ensures st == Abstract(Free, ClearLists(MAX_ORDER, base, top), map[], {})
    {
      ghost var level := HeapSize(size, pageSize);
      this.base := base;
      total := AlignUp(BitCeil(size), pageSize);
      top := level;
      freeLists := new Ptr[MAX_ORDER];
      mem := Memory(map[], map[]);
      st := Abstract(Free, ClearLists(MAX_ORDER, base, level), map[], {});
      new;
      Clear();
    }

    // Everything that was handed out is forgotten; the heap is one free block.
    method Clear()
      requires base != NULL && total == SizeOf(top) && top + 1 < MAX_ORDER && base + total <= WORD / 2
      requires freeLists.Length == MAX_ORDER
      modifies this`mem, this`st, freeLists
      ensures Valid() && st == Abstract(Free, ClearLists(MAX_ORDER, base, top), map[], {})
    {
      forall i | 0 <= i < freeLists.Length {
        freeLists[i] := NULL;
      }
      CountrZeroPow2(top + 5);
      CountrZeroPow2(5);
      assert Pow2(5) == 32;
      var maxOrder := CountrZero(total) - CountrZero(32);
      WriteFreeHeader(base, maxOrder);
      mem := mem.(links := mem.links[base := Link(NULL, NULL)]);
      freeLists[maxOrder] := base;
      ClearedState(mem.headers, mem.links, base, top);
      st := Abstract(Free, ClearLists(MAX_ORDER, base, top), map[], {});
    }

    // What also holds in the middle of a split cascade.
    ghost predicate Inv()
      reads this, freeLists
    {
      && total == SizeOf(top) && freeLists.Length == MAX_ORDER
      && HeadsOf(freeLists[..], st.lists)
      && State(mem, st, base, top)
    }

    ghost predicate Valid()
      reads this, freeLists
    {
      Inv() && Canonical(st.tree)
    }

    // The first block of a list leaves it.
    method PopFront(order: nat) returns (block: Ptr)
      requires order < freeLists.Length && PopReady(mem.links, freeLists[order])
      modifies this`mem, freeLists
      ensures block == old(freeLists[order]) && mem == old(mem).(links := PopMemory(old(mem).links, block))
      ensures freeLists[..] == old(freeLists[..])[order := old(mem).links[block].next]
    {
      block := freeLists[order];
      var links := mem.links;
      freeLists[order] := links[block].next;
      if freeLists[order] != NULL {
        links := links[freeLists[order] := links[freeLists[order]].(prev := NULL)];
      }
      mem := mem.(links := links);
    }

    // block becomes the first in a list.
    method PushFront(order: nat, block: Ptr)
      requires order < freeLists.Length && (freeLists[order] != NULL ==> freeLists[order] in mem.links)
      modifies this`mem, freeLists
      ensures mem == old(mem).(links := PushMemory(old(mem).links, old(freeLists[order]), block))
      ensures freeLists[..] == old(freeLists[..])[order := block]
    {
      var links := mem.links[block := Link(NULL, freeLists[order])];
      if freeLists[order] != NULL {
        links := links[freeLists[order] := links[freeLists[order]].(prev := block)];
      }
      freeLists[order] := block;
      mem := mem.(links := links);
    }

    // set_order and set_free on a header that may not have been written before.
    method WriteFreeHeader(p: Ptr, order: nat)
      requires order < MAX_ORDER
      modifies this`mem
      ensures mem.links == old(mem).links && Tagged(mem.headers, p, true, order)
      ensures forall q :: q in old(mem).headers && q != p ==> q in mem.headers && mem.headers[q] == old(mem).headers[q]
    {
      var junk: Byte, offset: Half := *, *;
      var header := if p in mem.headers then mem.headers[p] else Header(junk, offset);
      SetOrderKeepsFree(header, order);
      SetFreeKeepsOrder(header.SetOrder(order), true);
      mem := mem.(headers := mem.headers[p := header.SetOrder(order).SetFree(true)]);
    }

    method SplitBlock(order: nat, ghost ctx: Ctx)
      requires Inv() && 0 < order < MAX_ORDER && st.lists[order] != []
      requires Placed(ctx, st.lists[order][0], order, base, top) && st.tree == Put(ctx, Free)
      modifies this`mem, this`st, freeLists
      ensures Inv()
      ensures st == SplitAbstract(old(st), ctx, order)
    {
      hide HeadsOf, State, Placed, SplitLists, PopMemory;
      EmptyList(freeLists[..], mem, st, base, top, order);
      TakeReady(mem, st, order, base, top);
      SplitHeads(freeLists[..], st.lists, mem.links, order);
      ghost var m0, st' := mem, SplitAbstract(st, ctx, order);

      var block := PopFront(order);
      var newOrder := order - 1;
      var buddy := block + SizeOf(newOrder);
      WriteFreeHeader(block, newOrder);
      WriteFreeHeader(buddy, newOrder);
      SplitState(m0, mem.headers, st, ctx, order, base, top);
      // the buddy first, so that the block itself is the next to be taken
      PushFront(newOrder, buddy);
      PushFront(newOrder, block);
      st := st';
    }

    // The least order from target on with a free block, or MAX_ORDER.
    method FindOrder(target: nat) returns (order: nat)
      requires Inv() && target < MAX_ORDER
      ensures order == FirstFrom(st.lists, target)
    {
      order := target;
      while order < MAX_ORDER && freeLists[order] == NULL
        invariant target <= order <= MAX_ORDER && FirstFrom(st.lists, target) == FirstFrom(st.lists, order)
      {
        EmptyList(freeLists[..], mem, st, base, top, order);
        order := order + 1;
      }
      if order < MAX_ORDER {
        EmptyList(freeLists[..], mem, st, base, top, order);
      }
    }

    // Splits the first block of order k down to the target order.
    method SplitDown(k: nat, target: nat, ghost ctx0: Ctx) returns (ghost ctx: Ctx)
      requires Inv() && target <= k < MAX_ORDER && st.lists[k] != []
      requires Placed(ctx0, st.lists[k][0], k, base, top) && st.tree == Put(ctx0, Free) && CanonicalAround(ctx0)
      modifies this`mem, this`st, freeLists
      ensures Inv() && st.live == old(st).live && st.leaked == old(st).leaked
      ensures st.lists == Cascade(old(st).lists, k, target)
      ensures Placed(ctx, old(st).lists[k][0], target, base, top) && st.tree == Put(ctx, Free) && CanonicalAround(ctx)
      ensures LivesAround(ctx, old(st).lists[k][0], target, base, top) == LivesAround(ctx0, old(st).lists[k][0], k, base, top)
    {
      hide HeadsOf, State, Placed, Put, LivesAround, CanonicalAround, SplitLists;
      EmptyList(freeLists[..], mem, st, base, top, k);
      var order := k;
      ghost var p, lives := st.lists[k][0], LivesAround(ctx0, st.lists[k][0], k, base, top);
      ctx := ctx0;
      while order != target
        invariant target <= order <= k && |st.lists| == MAX_ORDER && Inv() && st.live == old(st).live && st.leaked == old(st).leaked
        invariant st.lists[order] != [] && st.lists[order][0] == p
        invariant Cascade(st.lists, order, target) == Cascade(old(st).lists, k, target)
        invariant Placed(ctx, p, order, base, top) && st.tree == Put(ctx, Free) && CanonicalAround(ctx)
        invariant LivesAround(ctx, p, order, base, top) == lives
      {
        StepDown(ctx, st.lists, p, order, base, top);
        SplitBlock(order, ctx);
        ctx := CLeft(ctx, Free);
        order := order - 1;
      }
    }

    // The header of a live block, and the one right in front of the data, which
    // may be the same: free bit off, the order, the way back to the block.
    method WriteLiveHeaders(block: Ptr, data: Ptr, order: nat, size: nat, ghost align: nat) returns (fits: bool)
      requires order < MAX_ORDER && block in mem.headers && block + HEADER <= data && data + size <= block + SizeOf(order) && size > 0
      requires align > 0 && data % align == 0
      modifies this`mem
      ensures mem.links == old(mem).links && OnlyInside(old(mem).headers, mem.headers, Chunk(block, order))
      ensures TaggedLive(mem.headers, block)
      ensures fits == (data - block <= OFFSET_MAX) == (Stored(data - block) == data - block)
      ensures fits ==> Record(mem.headers, data, Alloc(Chunk(block, order), size, align))
    {
      var h := mem.headers;
      SetFreeKeepsOrder(h[block], false);
      h := h[block := h[block].SetFree(false)];

      var p := data - HEADER;
      var junk: Byte, offset: Half := *, *;
      var header := if p in h then h[p] else Header(junk, offset);
      SetFreeKeepsOrder(header, false);
      SetOrderKeepsFree(header.SetFree(false), order);
      h := h[p := header.SetFree(false).SetOrder(order)];

      fits := data - block <= OFFSET_MAX;
      StoredIs(data - block);
      if fits {
        h := h[p := h[p].(offset := Stored(data - block))];
      }
      mem := mem.(headers := h);
    }

    // Pops the first block of the target order and hands it out.
    method Take(target: nat, align: nat, size: nat, ghost ctx: Ctx) returns (ptr: Ptr)
      requires Inv() && target < MAX_ORDER && st.lists[target] != []
      requires Placed(ctx, st.lists[target][0], target, base, top) && st.tree == Put(ctx, Free)
      requires IsPow2(align) && align <= WORD && size > 0 && size + align + HEADER <= SizeOf(target)
      modifies this`mem, this`st, freeLists
      ensures Inv() && Fits(st.tree, top) && TakeResult(old(st), st, ptr, ctx, target, size, align)
    {
      hide HeadsOf, State, Placed, Put, AlignUp, PopMemory, Record, OnlyInside, TakeResult;
      ghost var m0 := mem;
      TakeReady(mem, st, target, base, top);
      EmptyList(freeLists[..], mem, st, base, top, target);
      TakeHeads(freeLists[..], st.lists, mem.links, target);

      var block := PopFront(target);
      DataInBlock(block, align, size, target);
      var data := AlignUp(block + HEADER, align);
      var fits := WriteLiveHeaders(block, data, target, size, align);
      ptr := if fits then data else NULL;
      st := TakeDone(m0, mem.headers, st, ctx, target, base, top, size, align, data);
      StateFits(mem, st, base, top);
    }

    // A null result means the request was refused or nothing large enough is
    // free, except for a block leaked for lack of room in the offset field.
    method AllocRaw(size: nat, align: nat) returns (ptr: Ptr)
      requires Valid() && size < WORD && align < WORD
      requires GoodRequest(size, align) ==> size + align + 2 * HEADER <= MAX_BLOCK_SIZE
      modifies this`mem, this`st, freeLists
      ensures Valid()
      ensures !GoodRequest(size, align) ==> ptr == NULL && st == old(st)
      ensures GoodRequest(size, align) ==> align <= WORD && Allocated(old(st), st, ptr, size, align, base, top)
    {
      hide HeadsOf, State, Placed, Put, LivesAround, CanonicalAround, Canonical, AlignUp, Record, TakeResult, Allocated, SizeToOrder;
      if !IsPow2(align) {
        return NULL;
      }
      if size == 0 || size + align + HEADER >= WORD {
        return NULL;
      }
      RequestOrder(size, align);
      ghost var m0, st0 := mem, st;
      var target := SizeToOrder(size + align + HEADER);
      ListedIffWindow(mem, st, base, top, target);

      var order := FindOrder(target);
      if order == MAX_ORDER {
        AllocationRefused(mem, st, size, align, base, top);
        return NULL;
      }
      ghost var ctx0 := LocateListed(mem, st, order, base, top);
      ghost var ctx := SplitDown(order, target, ctx0);
      ghost var mid := st;
      ptr := Take(target, align, size, ctx);
      AllocationDone(m0, st0, mid, st, ctx0, ctx, ptr, size, align, base, top);
    }

    // block and its buddy, which is in a list, become one block.
    method Unlink(buddy: Ptr, order: nat)
      requires order < freeLists.Length && buddy in mem.links
      requires (mem.links[buddy].prev != NULL ==> mem.links[buddy].prev in mem.links) && (mem.links[buddy].next != NULL ==> mem.links[buddy].next in mem.links)
      modifies this`mem, freeLists
      ensures mem == old(mem).(links := UnlinkMemory(old(mem).links, buddy))
      ensures var heads := old(freeLists[..]);
        freeLists[..] == if heads[order] == buddy then heads[order := old(mem).links[buddy].next] else heads
    {
      var links := mem.links;
      var prevBuddy, nextBuddy := links[buddy].prev, links[buddy].next;
      if prevBuddy != NULL {
        links := links[prevBuddy := links[prevBuddy].(next := nextBuddy)];
      }
      if nextBuddy != NULL {
        links := links[nextBuddy := links[nextBuddy].(prev := prevBuddy)];
      }
      if freeLists[order] == buddy {
        freeLists[order] := nextBuddy;
      }
      mem := mem.(links := links);
    }

    // Merges the block in hand with its buddy for as long as that is free.
    method MergeUp(block0: Ptr, order0: nat, ghost ls0: Lists, ghost live: Allocs<Chunk>, ghost leaked: set<Chunk>, ghost ctx0: Ctx)
      returns (block: Ptr, order: nat, ghost ls: Lists, ghost ctx: Ctx)
      requires total == SizeOf(top) && freeLists.Length == MAX_ORDER && HeadsOf(freeLists[..], ls0)
      requires Hand(mem, ls0, live, leaked, ctx0, block0, order0, base, top) && CanonicalAround(ctx0)
      requires Placed(ctx0, block0, order0, base, top)
      modifies this`mem, freeLists
      ensures HeadsOf(freeLists[..], ls) && Hand(mem, ls, live, leaked, ctx, block, order, base, top)
      ensures Placed(ctx, block, order, base, top)
      ensures |ls0| == |ls| == MAX_ORDER && base <= block0 && order0 < MAX_ORDER && order < MAX_ORDER
      ensures PushAt(ls, order, block) == Merged(ls0, base, base + SizeOf(top), block0, order0)
      ensures Canonical(Put(ctx, Free))
      ensures LivesAround(ctx, block, order, base, top) == LivesAround(ctx0, block0, order0, base, top)
    {
      hide HeadsOf, Hand, Put, Canonical, CanonicalAround, UnlinkMemory, UnlinkAt, Placed, LivesAround, Merged, PushAt;
      hide BuddyAddr, ParentAddr, Buddy, BuddyOf, Lower;
      block, order, ls, ctx := block0, order0, ls0, ctx0;
      MergeDecision(mem, ls, live, leaked, ctx, block, order, base, top);
      while order < MAX_ORDER - 1
        invariant HeadsOf(freeLists[..], ls) && Hand(mem, ls, live, leaked, ctx, block, order, base, top) && CanonicalAround(ctx)
        invariant |ls| == MAX_ORDER && base <= block && order < MAX_ORDER - 1 && Placed(ctx, block, order, base, top)
        invariant Merged(ls, base, base + SizeOf(top), block, order) == Merged(ls0, base, base + SizeOf(top), block0, order0)
        invariant LivesAround(ctx, block, order, base, top) == LivesAround(ctx0, block0, order0, base, top)
        decreases MAX_ORDER - order
      {
        MergeDecision(mem, ls, live, leaked, ctx, block, order, base, top);
        var buddy := BuddyOf(base, block, order);
        if buddy >= base + total {
          break;
        }
        if !mem.headers[buddy].Free() || mem.headers[buddy].Order() != order {
          break;
        }
        MergeHand(mem, ls, live, leaked, ctx, block, order, base, top);
        LivesOfMerged(ctx, block, order, base, top);
        UnlinkHeads(freeLists[..], ls, order, buddy, mem.links[buddy].next);
        Unlink(buddy, order);
        ls, ctx := UnlinkAt(ls, order, buddy), ctx.up;
        block := Lower(block, buddy);
        order := order + 1;
        MergeDecision(mem, ls, live, leaked, ctx, block, order, base, top);
      }
    }

    // The block in hand becomes a free block.
    method Release(block: Ptr, order: nat, ghost ls: Lists, ghost live: Allocs<Chunk>, ghost leaked: set<Chunk>, ghost ctx: Ctx)
      requires total == SizeOf(top) && freeLists.Length == MAX_ORDER && HeadsOf(freeLists[..], ls)
      requires Hand(mem, ls, live, leaked, ctx, block, order, base, top)
      modifies this`mem, this`st, freeLists
      ensures Inv() && |ls| == MAX_ORDER && order < MAX_ORDER && Fits(st.tree, top)
      ensures st == Abstract(Put(ctx, Free), PushAt(ls, order, block), live, leaked)
    {
      hide HeadsOf, State, Hand, Put, PushAt, PushMemory;
      HandPlaced(mem, ls, live, leaked, ctx, block, order, base, top);
      var header := mem.headers[block];
      SetFreeKeepsOrder(header, true);
      SetOrderKeepsFree(header.SetFree(true), order);
      var h := mem.headers[block := header.SetFree(true).SetOrder(order)];
      ReleaseHand(mem, h, ls, live, leaked, ctx, block, order, base, top);
      PushHeads(freeLists[..], ls, order, block);
      mem := mem.(headers := h);
      PushFront(order, block);
      st := Abstract(Put(ctx, Free), PushAt(ls, order, block), live, leaked);
    }

    // The header in front of the data leads back to the block, which is now in hand.
    method TakeBack(ptr: Ptr) returns (block: Ptr, order: nat, ghost ctx: Ctx)
      requires Valid() && ptr in st.live
      modifies this`mem
      ensures Returned(mem, old(st), ctx, ptr, base, top) && Chunk(block, order) == old(st).live[ptr].block
      ensures HeadsOf(freeLists[..], old(st).lists) && Fits(old(st).tree, top) && |old(st).lists| == MAX_ORDER
    {
      hide HeadsOf, State, Hand, Put, Placed, Lives, Canonical, CanonicalAround;
      ctx := RecordFound(mem, st, ptr, base, top);
      var header := mem.headers[ptr - HEADER];
      block, order := ptr - header.offset, header.Order();
      ghost var h := mem.headers[block := mem.headers[block].SetFree(true)];
      TakeInHand(mem, h, st, ctx, ptr, base, top);
      mem := mem.(headers := mem.headers[block := mem.headers[block].SetFree(true)]);
    }

    // The block of an allocation goes back to the free lists.
    method PutBack(ptr: Ptr) returns (ghost ctx0: Ctx, ghost ctx: Ctx, ghost p: Ptr, ghost k: nat, ghost ls: Lists)
      requires Valid() && ptr in st.live
      modifies this`mem, this`st, freeLists
      ensures Valid() && Fits(old(st).tree, top) && |old(st).lists| == MAX_ORDER
      ensures var c := old(st).live[ptr].block;
        && c.level < MAX_ORDER && base <= c.addr
        && Placed(ctx0, c.addr, c.level, base, top) && Put(ctx0, Live) == old(st).tree
        && Placed(ctx, p, k, base, top)
        && LivesAround(ctx, p, k, base, top) == LivesAround(ctx0, c.addr, c.level, base, top)
        && ls == Merged(old(st).lists, base, base + SizeOf(top), c.addr, c.level)
      ensures st == Abstract(Put(ctx, Free), ls, old(st).live - {ptr}, old(st).leaked)
    {
      hide HeadsOf, State, Returned, Hand, Put, Placed, LivesAround, Merged, PushAt, Canonical, CanonicalAround, SizeOf;
      ghost var st0, live, leaked := st, st.live - {ptr}, st.leaked;
      var block, order;
      block, order, ctx0 := TakeBack(ptr);
      ReturnedHand(mem, st0, ctx0, ptr, base, top);
      block, order, ls, ctx := MergeUp(block, order, st0.lists, live, leaked, ctx0);
      Release(block, order, ls, live, leaked, ctx);
      p, k, ls := block, order, PushAt(ls, order, block);
    }

    // ptr is null or one that alloc_raw returned and that was not freed since.
    method FreeRaw(ptr: Ptr)
      requires Valid() && (ptr != NULL ==> ptr in st.live)
      modifies this`mem, this`st, freeLists
      ensures Valid()
      ensures ptr == NULL ==> st == old(st)
      ensures ptr != NULL ==> Deallocated(old(st), st, ptr, base, top)
    {
      hide HeadsOf, State, Put, Placed, LivesAround, Deallocated, Merged, Canonical, SizeOf;
      if ptr == NULL {
        return;
      }
      ghost var st0 := st;
      ghost var ctx0, ctx, p, k, ls := PutBack(ptr);
      DeallocationDone(st0, ls, ctx0, ctx, ptr, p, k, base, top);
    }
  }
}
