// The segregated allocator: buckets of power-of-two blocks, split on allocation,
// merged only when an allocation finds no block large enough.
module SegregatedModel {
  import opened Bits
  import opened BuddyTree
  import opened Allocations
  import opened Links
  import opened BuddyLists
  import opened SegBlocks
  import opened SegState
  import opened SegSpec

  class SegregatedAllocator {
    const base: Ptr
    const total: nat
    ghost const top: nat
    const buckets: array<Ptr>
    var activeBuckets: nat
    var mem: Memory
    ghost var st: Abstract

    // base: where the operating system put the heap.
    constructor (base: Ptr, size: nat, pageSize: nat)
      requires 0 < size <= MAX_BUCKET_SIZE && IsPow2(pageSize) && 256 <= pageSize <= MAX_BUCKET_SIZE
      requires base != NULL && base % pageSize == 0 && base + 2 * MAX_BUCKET_SIZE <= WORD / 2
      ensures Valid() && fresh(buckets) && this.base == base && HeapFor(total, size, pageSize)
      ensures st == Abstract(Free, ClearLists(NUM_BUCKETS, base + HEADER, top), map[])
    {
      hide State, HeadsOf, And, AlignUp, BitCeil, IsPow2;
      ghost var level := HeapLevel(base, size, pageSize);
      this.base := base;
      total := AlignUp(BitCeil(size), pageSize);
      top := level;
      buckets := new Ptr[NUM_BUCKETS];
      activeBuckets := 0;
      mem := Memory(map[], map[], map[], map[]);
      st := Abstract(Free, ClearLists(NUM_BUCKETS, base + HEADER, level), map[]);
      new;
      Clear();
    }

    // Everything that was handed out is forgotten; the heap is one free block.
    method Clear()
      requires total == SizeOf(top) && HeapOk(base, top) && buckets.Length == NUM_BUCKETS
      modifies this`mem, this`st, this`activeBuckets, buckets
      ensures Valid() && st == Abstract(Free, ClearLists(NUM_BUCKETS, base + HEADER, top), map[])
    {
      hide SetBucketBit, State, CountrZero, BitCeil;
      activeBuckets := 0;
      var i := 0;
      while i < NUM_BUCKETS
        invariant i <= NUM_BUCKETS && activeBuckets == 0
        invariant forall j :: 0 <= j < i ==> buckets[j] == NULL
      {
        buckets[i] := NULL;
        i := i + 1;
      }
      TopBucket(top);
      var bucket := SizeToBucket(total);
      var order := bucket + MIN_BUCKET_ORDER;
      var h := mem.headers[base := Header(order, true, false)];
      var block, last := base + HEADER, base + total - 1;
      mem := Memory(h, mem.footers[last := order], mem.backs, mem.links[block := Link(NULL, NULL)]);
      buckets[bucket] := block;
      activeBuckets := SetBucketBit(activeBuckets, bucket, true);
      ClearedState(mem.headers, mem.footers, mem.backs, mem.links, base, top);
      st := Abstract(Free, ClearLists(NUM_BUCKETS, block, top), map[]);
    }

    ghost predicate Valid()
      reads this, buckets
    {
      && total == SizeOf(top) && buckets.Length == NUM_BUCKETS
      && HeadsOf(buckets[..], st.lists)
      && State(mem, activeBuckets, st, base, top)
    }

    // The first block of a bucket leaves it.
    method PopFront(bucket: nat) returns (block: Ptr)
      requires bucket < buckets.Length && bucket < MASK_BITS && PopReady(mem.links, buckets[bucket])
      modifies this`mem, this`activeBuckets, buckets
      ensures block == old(buckets[bucket]) && mem == old(mem).(links := PopMemory(old(mem).links, block))
      ensures buckets[..] == old(buckets[..])[bucket := old(mem).links[block].next]
      ensures activeBuckets == EmptiedMask(old(activeBuckets), bucket, old(mem).links[block].next)
    {
      hide SetBucketBit;
      block := buckets[bucket];
      var links := mem.links;
      buckets[bucket] := links[block].next;
      if buckets[bucket] != NULL {
        links := links[buckets[bucket] := links[buckets[bucket]].(prev := NULL)];
      } else {
        activeBuckets := SetBucketBit(activeBuckets, bucket, false);
      }
      mem := mem.(links := links);
    }

    // block becomes the first in a bucket.
    method PushFront(bucket: nat, block: Ptr)
      requires bucket < buckets.Length && (buckets[bucket] != NULL ==> buckets[bucket] in mem.links)
      modifies this`mem, buckets
      ensures mem == old(mem).(links := PushMemory(old(mem).links, old(buckets[bucket]), block))
      ensures buckets[..] == old(buckets[..])[bucket := block]
    {
      var links := mem.links[block := Link(NULL, buckets[bucket])];
      if buckets[bucket] != NULL {
        links := links[buckets[bucket] := links[buckets[bucket]].(prev := block)];
      }
      buckets[bucket] := block;
      mem := mem.(links := links);
    }

    method SplitBlock(bucket: nat, ghost ctx: Ctx)
      requires Valid() && 0 < bucket < NUM_BUCKETS && InFront(st, ctx, bucket, base, top)
      modifies this`mem, this`st, this`activeBuckets, buckets
      ensures Valid() && st == SplitAbstract(old(st), ctx, bucket) && Fits(st.tree, top)
      ensures Fits(old(st).tree, top) && Lives(st.tree, base, top) == Lives(old(st).tree, base, top)
    {
      hide HeadsOf, State, Placed, SplitLists, PopMemory, Fits, Lives, Put, SetBucketBit, EmptiedMask, SplitHeaders, SplitFooters;
      EmptyBucket(buckets[..], mem, activeBuckets, st, base, top, bucket);
      SplitState(mem, activeBuckets, st, ctx, bucket, base, top);
      SplitHeads(buckets[..], st.lists, mem.links, bucket);
      ghost var m0, st' := mem, SplitAbstract(st, ctx, bucket);

      var block := PopFront(bucket);
      var newBucket := bucket - 1;
      var left, right := Chunk(block - HEADER, newBucket), Chunk(block - HEADER + SizeOf(newBucket), newBucket);
      mem := mem.(headers := SplitHeaders(mem.headers, left, right), footers := SplitFooters(mem.footers, left, right));
      // the right half first, so that the left one is the next to be taken
      PushFront(newBucket, Node(right));
      PushFront(newBucket, Node(left));
      activeBuckets := SetBucketBit(activeBuckets, newBucket, true);
      st := st';
      assert mem == SplitResult(m0, old(st).lists, bucket, block);
    }

    // Splits the first block of bucket k, which starts at p, down to the target
    // bucket; out is what is free outside that block.
    method SplitDown(k: nat, target: nat, ghost ctx0: Ctx, ghost p: Ptr, ghost out: set<Chunk>) returns (ghost ctx: Ctx)
      requires Valid() && target <= k < NUM_BUCKETS && InFront(st, ctx0, k, base, top)
      requires FreeOutside(st, ctx0, k, p, out, base, top)
      modifies this`mem, this`st, this`activeBuckets, buckets
      ensures Valid() && InFront(st, ctx, target, base, top)
      ensures k < |old(st).lists| && old(st).lists[k] != [] && st.lists == Cascade(old(st).lists, k, target)
      ensures Fits(old(st).tree, top) && Fits(st.tree, top) && SameLive(old(st), st, base, top)
      ensures FreeOutside(st, ctx, target, p, out + RightHalves(p, k, target), base, top)
    {
      hide HeadsOf, State, Placed, Fits, Lives, Put, SplitLists, FreeOutside, RightHalves;
      EmptyBucket(buckets[..], mem, activeBuckets, st, base, top, k);
      var curr := k;
      ctx := ctx0;
      NoRightHalves(p, k);
      assert out + RightHalves(p, k, k) == out;
      while curr != target
        invariant target <= curr <= k && Valid() && Fits(st.tree, top) && SameLive(old(st), st, base, top)
        invariant InFront(st, ctx, curr, base, top) && k < |old(st).lists| && old(st).lists[k] != []
        invariant Cascade(st.lists, curr, target) == Cascade(old(st).lists, k, target)
        invariant FreeOutside(st, ctx, curr, p, out + RightHalves(p, k, curr), base, top)
      {
        StepDown(st, ctx, curr, base, top);
        StepOutside(st, ctx, curr, p, out + RightHalves(p, k, curr), base, top);
        RightHalvesStep(p, k, curr - 1);
        UnionAssoc(out, RightHalves(p, k, curr), {Chunk(p + SizeOf(curr - 1), curr - 1)});
        SplitBlock(curr, ctx);
        ctx := CLeft(ctx, Free);
        curr := curr - 1;
      }
    }

    // Finds or makes a free block in front of bucket idx: of the heap t, it takes d.
    method Prepare(idx: nat) returns (found: bool, ghost ctx: Ctx, ghost t: Block, ghost d: Chunk)
      requires Valid() && idx < NUM_BUCKETS
      modifies this`mem, this`st, this`activeBuckets, buckets
      ensures Valid() && Fits(old(st).tree, top) && Fits(st.tree, top) && SameLive(old(st), st, base, top)
      ensures |old(st).lists| == NUM_BUCKETS == |st.lists|
      ensures found == SomeWindow(old(st).tree, base, top, idx)
      ensures !found ==> Canonical(st.tree)
      ensures found ==> InFront(st, ctx, idx, base, top)
      ensures var k := FirstFrom(old(st).lists, idx); found && k < NUM_BUCKETS ==> st.lists == Cascade(old(st).lists, k, idx)
      ensures found ==> Source(old(st), t, idx, base, top) && Fits(t, top) && FoundIn(t, st, ctx, idx, d, base, top)
    {
      hide HeadsOf, State, Lives, Fits, InFront, And, HighMask, CountrZero, Canonical, SomeWindow, FreeOutside, RightHalves;
      hide LeastFree, FoundIn;
      EmptyBucket(buckets[..], mem, activeBuckets, st, base, top, idx);
      ListedIsWindow(mem, activeBuckets, st, base, top, idx);
      t := st.tree;
      if buckets[idx] != NULL {
        ctx, d := LocateFirst(mem, activeBuckets, st, idx, base, top);
        FoundWhole(st, ctx, idx, d, base, top);
        return true, ctx, t, d;
      }
      var searchMask := And(activeBuckets, HighMask(MASK_BITS, idx));
      MaskSearch(mem, activeBuckets, st, base, top, idx);
      if searchMask == 0 {
        CoalesceAll();
        searchMask := And(activeBuckets, HighMask(MASK_BITS, idx));
        MaskSearch(mem, activeBuckets, st, base, top, idx);
        ListedIsWindow(mem, activeBuckets, st, base, top, idx);
        SameWindows(old(st), st, base, top, idx);
        t := st.tree;
      }
      if searchMask == 0 {
        NoWindow(mem, activeBuckets, st, base, top, idx);
        return false, CTop, t, Chunk(0, 0);
      }
      var currBucket := CountrZero(searchMask);
      ghost var ctx0;
      ctx0, d := LocateFirst(mem, activeBuckets, st, idx, base, top);
      ghost var out := Frees(t, base, top) - {d};
      ctx := SplitDown(currBucket, idx, ctx0, d.addr, out);
      FoundSplit(t, st, ctx, idx, d, base, top);
      found := true;
    }

    // Pops the first block of a bucket and hands it out.
    method Take(idx: nat, align: nat, size: nat, ghost ctx: Ctx) returns (ptr: Ptr)
      requires Valid() && idx < NUM_BUCKETS && InFront(st, ctx, idx, base, top)
      requires IsPow2(align) && align <= WORD && size > 0 && size + align <= SizeOf(idx) && idx == SizeToBucket(size + align)
      modifies this`mem, this`st, this`activeBuckets, buckets
      ensures Valid() && TakeResult(old(st), st, ctx, ptr, idx, size, align)
    {
      hide HeadsOf, State, Placed, Fits, Lives, Put, SetBucketBit, EmptiedMask, PopMemory, AlignUp, DataOf, Lies, SizeToBucket;
      hide IsPow2, PopAt;
      EmptyBucket(buckets[..], mem, activeBuckets, st, base, top, idx);
      TakeStateReady(mem, activeBuckets, st, ctx, idx, base, top);
      TakePlace(mem, activeBuckets, st, ctx, idx, base, top, size, align);
      TakeHeads(buckets[..], st.lists, mem.links, idx);
      ghost var m0, active0 := mem, activeBuckets;

      var head := PopFront(idx);
      var start := head - HEADER;
      var order := mem.headers[start].order;
      var data := AlignUp(start + HEADER + 1, align);
      DataAfter(Chunk(start, idx), data, size, align);
      var headers := mem.headers[start := mem.headers[start].(isFree := false)];
      var backs := mem.backs[data - 1 := (data - start) % 256];
      var right := start + SizeOf(order - MIN_BUCKET_ORDER);
      if right < base + total {
        headers := headers[right := headers[right].(isPrevFree := false)];
      }
      mem := mem.(headers := headers, backs := backs);
      assert mem == TakeMemory(m0, st.lists, idx, head, right < base + total, data);
      TakeState(m0, active0, st, ctx, idx, base, top, data, size, align);
      st := TakenAbstract(st, ctx, idx, data, size, align);
      ptr := data;
    }

    // Null exactly if every naturally aligned window of the target size meets a
    // live block.
    method AllocRaw(size: nat, align: nat) returns (ptr: Ptr)
      requires Valid() && size < WORD && align < WORD
      requires GoodRequest(size, align) ==> size + align <= MAX_BUCKET_SIZE
      modifies this`mem, this`st, this`activeBuckets, buckets
      ensures Valid()
      ensures !GoodRequest(size, align) ==> ptr == NULL && st == old(st)
      ensures GoodRequest(size, align) ==> align <= WORD && Allocated(old(st), st, ptr, size, align, base, top)
    {
      hide HeadsOf, State, Lives, Fits, InFront, SizeToBucket, Canonical, SomeWindow, Allocated, TakeResult, And, Source, FoundIn;
      if !IsPow2(align) {
        return NULL;
      }
      if size == 0 || size + align + HEADER >= WORD {
        return NULL;
      }
      if size > MAX_BUCKET_SIZE - HEADER || align > MAX_BUCKET_SIZE - HEADER {
        return NULL;
      }
      var actualSize := HEADER + (align - 1) + size;
      MaxBucket();
      SizeToBucketLeast(actualSize);
      var idx := SizeToBucket(actualSize);
      ghost var st0 := st;
      ghost var ctx, t, d;
      var found;
      found, ctx, t, d := Prepare(idx);
      if !found {
        AllocationRefused(st0, st, size, align, base, top);
        return NULL;
      }
      ghost var mid := st;
      FrontListed(st, ctx, idx, base, top);
      ptr := Take(idx, align, size, ctx);
      AllocationDone(st0, mid, st, ctx, t, d, ptr, idx, size, align, base, top);
    }

    // ptr is null, or one that alloc_raw returned for an alignment of at most 128
    // and that was not freed since; exactly these can be led back to their block.
    method FreeRaw(ptr: Ptr)
      requires Valid() && (ptr != NULL ==> ptr in st.live && st.live[ptr].align <= 128)
      modifies this`mem, this`st, this`activeBuckets, buckets
      ensures Valid()
      ensures ptr == NULL ==> st == old(st)
      ensures ptr != NULL ==> Fits(old(st).tree, top) && Fits(st.tree, top) && |old(st).lists| == NUM_BUCKETS
      ensures ptr != NULL ==> Deallocated(old(st), st, ptr, base, top)
    {
      hide HeadsOf, State, Placed, Fits, Lives, Put, SetBucketBit, Deallocated, PushMemory;
      if ptr == NULL {
        return;
      }
      ghost var ctx := FoundLive(mem, activeBuckets, st, ptr, base, top);
      ghost var m0, st0, c := mem, st, st.live[ptr].block;
      BackByte(mem.backs, ptr, st.live[ptr]);
      GiveState(mem, activeBuckets, st, ctx, base, top, ptr);
      EmptyBucket(buckets[..], mem, activeBuckets, st, base, top, c.level);
      PushHeads(buckets[..], st.lists, c.level, Node(c));

      var offset := mem.backs[ptr - 1];
      var curr := ptr - offset;
      var order := mem.headers[curr].order;
      var bucket := order - MIN_BUCKET_ORDER;
      var finalSize := SizeOf(bucket);
      var headers := mem.headers[curr := mem.headers[curr].(order := order, isFree := true)];
      var footers := mem.footers[curr + finalSize - 1 := order];
      PushFront(bucket, curr + HEADER);
      activeBuckets := SetBucketBit(activeBuckets, bucket, true);
      var right := curr + finalSize;
      if right < base + total {
        headers := headers[right := headers[right].(isPrevFree := true)];
      }
      mem := mem.(headers := headers, footers := footers);
      DeallocationDone(st, ctx, ptr, base, top);
      st := GivenAbstract(st, ctx, ptr);
    }

    method RemoveFromBucket(block: Ptr, bucket: nat)
      requires bucket < buckets.Length && bucket < MASK_BITS && Removable(mem.links, block)
      modifies this`mem, this`activeBuckets, buckets
      ensures mem == old(mem).(links := RemoveMemory(old(mem).links, block))
      ensures buckets[..] == HeadsWithout(old(buckets[..]), old(mem).links, bucket, block)
      ensures activeBuckets == EmptiedMask(old(activeBuckets), bucket, buckets[bucket])
    {
      hide SetBucketBit;
      var links := mem.links;
      var prev, next := links[block].prev, links[block].next;
      if prev != NULL {
        links := links[prev := links[prev].(next := next)];
      } else {
        buckets[bucket] := next;
      }
      if next != NULL {
        links := links[next := links[next].(prev := prev)];
      }
      mem := mem.(links := links[block := Link(NULL, NULL)]);
      if buckets[bucket] == NULL {
        activeBuckets := SetBucketBit(activeBuckets, bucket, false);
      }
    }

    // curr and its buddy, two free blocks of one bucket, become one block.
    method Merge(curr: Ptr, buddy: Ptr, bucket: nat, ghost ctx: Ctx)
      requires Valid() && bucket < NUM_BUCKETS - 1 && curr >= HEADER && Placed(ctx, curr - HEADER, bucket, base, top)
      requires st.tree == Put(ctx, Free) && !ctx.CTop? && Buddy(ctx).Free?
      requires (ctx.CRight? ==> curr - HEADER >= SizeOf(bucket)) && buddy == BuddyAddr(ctx, curr - HEADER, bucket) + HEADER
      modifies this`mem, this`st, this`activeBuckets, buckets
      ensures Valid() && Fits(old(st).tree, top) && Fits(st.tree, top) && SameLive(old(st), st, base, top)
      ensures |Frees(st.tree, base, top)| < |Frees(old(st).tree, base, top)|
    {
      hide HeadsOf, State, Placed, Fits, Lives, Frees, Put, SetBucketBit, EmptiedMask, RemoveMemory, PushMemory, Without;
      hide UnlinkAt, MergeLists;
      EmptyBucket(buckets[..], mem, activeBuckets, st, base, top, bucket);
      MergeState(mem, activeBuckets, st, ctx, curr - HEADER, bucket, base, top);
      ghost var inside := Lower(curr, buddy) - HEADER + SizeOf(bucket + 1) < base + SizeOf(top);
      MergeHeads(buckets[..], mem, st.lists, bucket, curr, buddy, inside);

      RemoveFromBucket(curr, bucket);
      RemoveFromBucket(buddy, bucket);
      var left := Lower(curr - HEADER, buddy - HEADER);
      var newBucket := bucket + 1;
      var newOrder := newBucket + MIN_BUCKET_ORDER;
      var headers := mem.headers[left := mem.headers[left].(order := newOrder)];
      var footers := mem.footers[left + SizeOf(newBucket) - 1 := newOrder];
      PushFront(newBucket, left + HEADER);
      activeBuckets := SetBucketBit(activeBuckets, newBucket, true);
      var right := left + SizeOf(newBucket);
      if right < base + total {
        headers := headers[right := headers[right].(isPrevFree := true)];
      }
      mem := mem.(headers := headers, footers := footers);
      st := MergedAbstract(st, ctx, bucket, curr, buddy);
    }

    // Looks through one bucket for a block with a free buddy, and merges the first.
    method ScanBucket(bucket: nat) returns (merged: bool)
      requires Valid() && bucket < NUM_BUCKETS - 1
      modifies this`mem, this`st, this`activeBuckets, buckets
      ensures Valid() && Fits(old(st).tree, top) && Fits(st.tree, top) && SameLive(old(st), st, base, top)
      ensures merged ==> |Frees(st.tree, base, top)| < |Frees(old(st).tree, base, top)|
      ensures !merged ==> st == old(st) && bucket < |st.lists| && Scanned(st.lists, base, bucket, |st.lists[bucket]|)
    {
      hide HeadsOf, State, Placed, Fits, Lives, Frees, Put;
      EmptyBucket(buckets[..], mem, activeBuckets, st, base, top, bucket);
      var curr := buckets[bucket];
      ghost var i := 0;
      while curr != NULL
        invariant Valid() && st == old(st) && |st.lists| == NUM_BUCKETS && i <= |st.lists[bucket]|
        invariant curr == NodeAt(st.lists[bucket], i) && Scanned(st.lists, base, bucket, i)
        decreases |st.lists[bucket]| - i
      {
        ghost var ctx := LookAt(mem, activeBuckets, st, bucket, i, base, top);
        var next := mem.links[curr].next;
        var buddyAddr := BuddyOf(base, curr - HEADER, bucket);
        if buddyAddr < base + total {
          var buddyHeader := mem.headers[buddyAddr];
          if buddyHeader.isFree && buddyHeader.order == bucket + MIN_BUCKET_ORDER {
            Merge(curr, buddyAddr + HEADER, bucket, ctx);
            return true;
          }
        }
        curr, i := next, i + 1;
      }
      AtEnd(mem, activeBuckets, st, bucket, i, base, top);
      merged := false;
    }

    // Passes over all buckets until a pass merges nothing.
    method CoalesceAll()
      requires Valid()
      modifies this`mem, this`st, this`activeBuckets, buckets
      ensures Valid() && Fits(old(st).tree, top) && Fits(st.tree, top) && SameLive(old(st), st, base, top)
      ensures Canonical(st.tree)
    {
      hide HeadsOf, State, Fits, Lives, Frees, Scanned, Canonical;
      EmptyBucket(buckets[..], mem, activeBuckets, st, base, top, 0);
      var mergedAny := true;
      while mergedAny
        invariant Valid() && Fits(st.tree, top) && SameLive(old(st), st, base, top)
        invariant !mergedAny ==> Canonical(st.tree)
        decreases |Frees(st.tree, base, top)|, if mergedAny then 1 else 0
      {
        mergedAny := false;
        ghost var before := |Frees(st.tree, base, top)|;
        EmptyBucket(buckets[..], mem, activeBuckets, st, base, top, 0);
        var bucket := 0;
        while bucket < NUM_BUCKETS - 1
          invariant bucket <= NUM_BUCKETS - 1 && Valid() && Fits(st.tree, top) && SameLive(old(st), st, base, top)
          invariant |Frees(st.tree, base, top)| <= before - if mergedAny then 1 else 0
          invariant !mergedAny ==> ScannedBelow(st.lists, base, bucket)
        {
          var merged := ScanBucket(bucket);
          if merged {
            mergedAny := true;
          } else if !mergedAny {
            NextBucket(st.lists, base, bucket);
          }
          bucket := bucket + 1;
        }
        if !mergedAny {
          CoalescedCanonical(mem, activeBuckets, st, base, top);
        }
      }
    }
  }
}
