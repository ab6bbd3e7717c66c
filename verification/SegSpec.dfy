// What the segregated allocator promises, and why its steps keep the promises.
module SegSpec {
  import opened Bits
  import opened BuddyTree
  import opened Allocations
  import opened Links
  import opened BuddyLists
  import opened SegBlocks
  import opened SegState

  const MAX_BUCKET_SIZE: nat := 0x2000_0000

  // ----- sizes

  // The least bucket whose blocks hold size bytes.
  lemma SizeToBucketLeast(size: nat)
    ensures SizeToBucket(size) >= 0 && size <= SizeOf(SizeToBucket(size))
    ensures forall j: nat :: size <= SizeOf(j) ==> SizeToBucket(size) <= j
  {
    assert Pow2(5) == 32;
    if size > 32 {
      var k := BitCeilLeast(size);
      CountrZeroPow2(k);
      Pow2Order(5, k);
      forall j: nat | size <= SizeOf(j)
        ensures SizeToBucket(size) <= j
      {
        assert k <= j + 5;
      }
    }
  }

  // alloc_raw and clear use the bucket as an index: it is one exactly up to 2^29.
  lemma BucketInRange(size: nat)
    ensures SizeToBucket(size) < NUM_BUCKETS <==> size <= MAX_BUCKET_SIZE
  {
    hide SizeToBucket, Pow2;
    SizeToBucketLeast(size);
    MaxBucket();
    if SizeToBucket(size) < NUM_BUCKETS {
      Pow2Mono(SizeToBucket(size) + 5, NUM_BUCKETS - 1 + 5);
    }
  }

  lemma MaxBucket()
    ensures MAX_BUCKET_SIZE == SizeOf(NUM_BUCKETS - 1)
  {
    assert Pow2(9) == 512;
    Pow2Add(10, 9);
    Pow2Add(10, 19);
  }

  // ----- coalescing

  // The buddy of the block of node p is not in the bucket of p.
  predicate NoPairAt(ls: Lists, base: Ptr, k: nat, p: Ptr)
    requires k < |ls|
  {
    p >= HEADER && base <= p - HEADER ==> BuddyOf(base, p - HEADER, k) + HEADER !in ls[k]
  }

  ghost predicate Scanned(ls: Lists, base: Ptr, k: nat, n: nat) {
    k < |ls| && n <= |ls[k]| && forall i :: 0 <= i < n ==> NoPairAt(ls, base, k, ls[k][i])
  }

  ghost predicate ScannedBelow(ls: Lists, base: Ptr, n: nat) {
    n <= |ls| && forall k :: 0 <= k < n ==> Scanned(ls, base, k, |ls[k]|)
  }

  // Once no bucket holds two buddies, no free block has a free buddy.
  lemma CoalescedCanonical(m: Memory, active: nat, st: Abstract, base: Ptr, top: nat)
    requires State(m, active, st, base, top) && ScannedBelow(st.lists, base, NUM_BUCKETS - 1)
    ensures Canonical(st.tree)
  {
    hide Tags, Records, BitsOk, Frees, Lives, Put, Placed, Chains;
    if !Canonical(st.tree) {
      var ctx, at, k := FreePairAt(st.tree, base, top);
      TakeSets(ctx, at, k, base, top);
      XorIsBuddy(ctx, at, k, base, top);
      BuddyUnlisted(st, at, k, base, top);
      BuddyTest(m, active, st, ctx, at, k, base, top);
    }
  }

  lemma BuddyUnlisted(st: Abstract, at: Ptr, k: nat, base: Ptr, top: nat)
    requires Fits(st.tree, top) && Listed(st.lists, Frees(st.tree, base, top)) && Chunk(at, k) in Frees(st.tree, base, top)
    requires base <= at && k < NUM_BUCKETS - 1 && ScannedBelow(st.lists, base, NUM_BUCKETS - 1)
    ensures BuddyOf(base, at, k) + HEADER !in st.lists[k]
  {
    assert at + HEADER in st.lists[k];
    var i :| 0 <= i < |st.lists[k]| && st.lists[k][i] == at + HEADER;
    assert Scanned(st.lists, base, k, |st.lists[k]|);
    assert NoPairAt(st.lists, base, k, st.lists[k][i]);
  }

  lemma FreePairAt(t: Block, base: Ptr, top: nat) returns (ctx: Ctx, at: Ptr, k: nat)
    requires Fits(t, top) && !Canonical(t)
    ensures Placed(ctx, at, k, base, top) && Put(ctx, Free) == t && !ctx.CTop? && Buddy(ctx).Free?
  {
    var up;
    up, at, k := FreePair(CTop, t, base, top, base, top);
    ctx := CLeft(up, Free);
  }

  // One look at a block: whether its buddy is free, in terms of the header.
  lemma LookAt(m: Memory, active: nat, st: Abstract, k: nat, i: nat, base: Ptr, top: nat) returns (ctx: Ctx)
    requires State(m, active, st, base, top) && k < NUM_BUCKETS - 1 && |st.lists| == NUM_BUCKETS && i < |st.lists[k]|
    ensures var p := st.lists[k][i];
      && p >= HEADER && base <= p - HEADER && p in m.links
      && m.links[p].next == NodeAt(st.lists[k], i + 1)
      && Placed(ctx, p - HEADER, k, base, top) && st.tree == Put(ctx, Free)
      && var b := BuddyOf(base, p - HEADER, k);
      && b == BuddyAddr(ctx, p - HEADER, k)
      && (b < base + SizeOf(top) ==> b in m.headers)
      && if b < base + SizeOf(top) && m.headers[b].isFree && m.headers[b].order == k + MIN_BUCKET_ORDER then
           !ctx.CTop? && Buddy(ctx).Free?
         else
           NoPairAt(st.lists, base, k, p)
  {
    hide Tags, Records, BitsOk, Frees, Lives, FreesAround, LivesAround, Put, Placed, Canonical;
    var p := st.lists[k][i];
    assert p in st.lists[k];
    NextInChain(m.links, st.lists, k, i);
    ctx := LocateFree(CTop, st.tree, base, top, base, top, Chunk(p - HEADER, k));
    PutTop(st.tree);
    TopPlaced(base, top);
    BuddyTest(m, active, st, ctx, p - HEADER, k, base, top);
    if ctx.CTop? {
      TakeSets(ctx, p - HEADER, k, base, top);
      ChunksWithin(st.tree, base, top);
      NotBeyond(st, BuddyOf(base, p - HEADER, k), k, base, top);
    }
  }

  lemma NotBeyond(st: Abstract, b: Ptr, k: nat, base: Ptr, top: nat)
    requires Fits(st.tree, top) && Listed(st.lists, Frees(st.tree, base, top)) && k < NUM_BUCKETS && b >= base + SizeOf(top)
    ensures b + HEADER !in st.lists[k]
  {
    ChunksWithin(st.tree, base, top);
    assert Chunk(b, k) !in Chunks(st.tree, base, top);
  }

  lemma PutTop(t: Block)
    ensures Put(CTop, t) == t
  {
  }

  lemma TopPlaced(base: Ptr, top: nat)
    ensures Placed(CTop, base, top, base, top)
  {
  }

  function NodeAt(s: seq<Ptr>, i: nat): Ptr {
    if i < |s| then s[i] else NULL
  }

  lemma NextInChain(m: LinkMemory, ls: Lists, k: nat, i: nat)
    requires Chains(m, ls) && k < |ls| && i < |ls[k]|
    ensures ls[k][i] != NULL && ls[k][i] in m && m[ls[k][i]].next == NodeAt(ls[k], i + 1)
  {
    assert Chain(m, ls[k]);
    assert LinkedAt(m, ls[k], i);
  }

  // Coalescing keeps what is live.
  ghost predicate SameLive(st: Abstract, st': Abstract, base: Ptr, top: nat)
    requires Fits(st.tree, top) && Fits(st'.tree, top)
  {
    Lives(st'.tree, base, top) == Lives(st.tree, base, top) && st'.live == st.live
  }

  // Which blocks are free after coalescing depends only on what is live.
  lemma CoalescedUnique(m: Memory, active: nat, st: Abstract, m': Memory, active': nat, st': Abstract, base: Ptr, top: nat, k: nat, p: Ptr)
    requires State(m, active, st, base, top) && State(m', active', st', base, top)
    requires Canonical(st.tree) && Canonical(st'.tree) && Lives(st.tree, base, top) == Lives(st'.tree, base, top)
    requires k < NUM_BUCKETS
    ensures st.tree == st'.tree && |st.lists| == |st'.lists| == NUM_BUCKETS && (p in st.lists[k] <==> p in st'.lists[k])
    ensures active == active'
  {
    hide Tags, Records, Frees, Lives, Chains, Bit;
    CanonicalUnique(st.tree, st'.tree, base, top);
    forall i: nat
      ensures Bit(active, i) == Bit(active', i)
    {
      if i < NUM_BUCKETS {
        SameElements(st.lists, st'.lists, Frees(st.tree, base, top), i);
      }
    }
    SameBits(active, active');
  }

  lemma SameElements(ls: Lists, ls': Lists, frees: set<Chunk>, k: nat)
    requires Listed(ls, frees) && Listed(ls', frees) && k < NUM_BUCKETS
    ensures ls[k] == [] <==> ls'[k] == []
  {
    assert ls[k] != [] ==> ls[k][0] in ls[k] && ls[k][0] in ls'[k];
    assert ls'[k] != [] ==> ls'[k][0] in ls'[k] && ls'[k][0] in ls[k];
  }

  lemma {:induction false} SameBits(a: nat, b: nat)
    requires forall i: nat :: Bit(a, i) == Bit(b, i)
    ensures a == b
  {
    if a + b > 0 {
      assert Bit(a, 0) == Bit(b, 0);
      forall i: nat
        ensures Bit(a / 2, i) == Bit(b / 2, i)
      {
        assert Bit(a, i + 1) == Bit(b, i + 1);
      }
      SameBits(a / 2, b / 2);
    }
  }

  // ----- when an allocation succeeds

  // A free block that is large enough shows that some window is clear.
  lemma ListedIsWindow(m: Memory, active: nat, st: Abstract, base: Ptr, top: nat, j: nat)
    requires State(m, active, st, base, top) && j < NUM_BUCKETS
    ensures |st.lists| == NUM_BUCKETS && (FirstFrom(st.lists, j) < NUM_BUCKETS ==> SomeWindow(st.tree, base, top, j))
  {
    hide Tags, Records, BitsOk, Frees, Lives, Chains, Windows, Clear;
    var k := FirstFrom(st.lists, j);
    if k < NUM_BUCKETS {
      var p := st.lists[k][0];
      assert p in st.lists[k];
      FreeIsClear(st.tree, base, top, Chunk(p - HEADER, k), j);
      assert p - HEADER in Windows(base, top, j) && Clear(p - HEADER, j, Lives(st.tree, base, top));
    }
  }

  // After coalescing the converse holds as well.
  lemma WindowIsListed(m: Memory, active: nat, st: Abstract, base: Ptr, top: nat, j: nat)
    requires State(m, active, st, base, top) && Canonical(st.tree) && j < NUM_BUCKETS && SomeWindow(st.tree, base, top, j)
    ensures |st.lists| == NUM_BUCKETS && FirstFrom(st.lists, j) < NUM_BUCKETS
  {
    hide Tags, Records, BitsOk, Frees, Lives, Chains, Windows, Clear;
    var w :| w in Windows(base, top, j) && Clear(w, j, Lives(st.tree, base, top));
    var c := ClearWindow(st.tree, base, top, j, w);
    assert c.addr + HEADER in st.lists[c.level];
  }

  // ----- the address handed out

  lemma EvenMultiple(a: nat, p: nat)
    requires p > 0 && a % (2 * p) == 0
    ensures a % 2 == 0
  {
    HalfMod(a, p);
  }

  // Behind header and back byte, aligned, at most align bytes into the block unless
  // align is 1, and so far that the range of size bytes fits into the block unless
  // align is 1 and size leaves no room for the back byte.
  lemma DataAt(start: Ptr, align: nat, size: nat, k: nat)
    requires IsPow2(align) && size > 0 && start % 2 == 0 && size + align <= SizeOf(k) && start + SizeOf(k) <= WORD / 2
    ensures align <= WORD
    ensures var data, end := AlignUp(start + HEADER + 1, align), start + SizeOf(k);
      && start + HEADER + 1 <= data <= end && data % align == 0
      && (data + size <= end <==> align > 1 || size + HEADER + 1 <= SizeOf(k))
      && (if align > 1 then data - start <= align else data == start + HEADER + 1)
  {
    hide AlignUp, IsPow2, Pow2;
    SizeAtLeast(k);
    EvenData(start + HEADER + 1, align);
    DataFits(start, AlignUp(start + HEADER + 1, align), align, size, SizeOf(k));
  }

  lemma EvenData(a: nat, align: nat)
    requires IsPow2(align) && a + align <= WORD
    ensures align <= WORD
    ensures var data := AlignUp(a, align);
      a <= data < a + align && data % align == 0 && (align > 1 ==> data % 2 == 0 && align % 2 == 0)
  {
    hide AlignUp, And, Pow2, Log2;
    IsPow2Log2(align);
    var e := Log2(align);
    WordIsPow2();
    Pow2Order(64, e);
    AlignUpSpec(a, e);
    if align > 1 {
      Pow2Half(e);
      EvenMultiple(AlignUp(a, align), Pow2(e - 1));
    }
  }

  // A block of room bytes holds the data even with the next multiple of align.
  lemma DataFits(start: nat, data: nat, align: nat, size: nat, room: nat)
    requires start % 2 == 0 && 0 < size && size + align <= room && room >= 32
    requires start + HEADER + 1 <= data < start + HEADER + 1 + align && (align > 1 ==> data % 2 == 0 && align % 2 == 0)
    ensures data <= start + room && (data + size <= start + room <==> align > 1 || size + HEADER + 1 <= room)
    ensures if align > 1 then data - start <= align else data == start + HEADER + 1
  {
  }

  lemma SizeAtLeast(k: nat)
    ensures SizeOf(k) >= 32
  {
    Pow2Mono(5, k + 5);
    assert Pow2(5) == 32;
  }

  lemma Pow2Half(e: nat)
    requires Pow2(e) > 1
    ensures e > 0 && Pow2(e) == 2 * Pow2(e - 1)
  {
  }

  // Room for data of alignment 1 and for the back byte.
  lemma RoomInside(size: nat)
    requires size > 0
    ensures SizeToBucket(size + 1) >= 0
    ensures size + HEADER + 1 <= SizeOf(SizeToBucket(size + 1)) <==> StaysInside(size, 1)
  {
    hide SizeToBucket, And, Pow2, Log2;
    SizeToBucketLeast(size + 1);
    var k := SizeToBucket(size + 1);
    SizeAtLeast(k);
    if size + 1 == SizeOf(k) {
      PowerIsPow2(k + 5);
    }
    if IsPow2(size + 1) && size >= 31 {
      IsPow2Log2(size + 1);
      var e := Log2(size + 1);
      SmallPowers();
      Pow2Order(e, 5);
      assert size + 1 <= SizeOf(e - 5);
      Pow2Mono(k + 5, e);
    }
  }

  // Blocks that are large enough for an alignment of 256 or more start at
  // multiples of 256.
  lemma StartAligned(ctx: Ctx, at: Ptr, k: nat, base: Ptr, top: nat)
    requires Placed(ctx, at, k, base, top) && base % 256 == 0
    ensures at % 2 == 0 && (SizeOf(k) > 256 ==> at % 256 == 0)
  {
    hide Placed, Pow2, Aligned;
    PlacedAligned(ctx, at, k, base, top);
    SmallPowers();
    SumAligned(base, at - base, 1, k + 5);
    Pow2Order(8, k + 5);
    if SizeOf(k) > 256 {
      SumAligned(base, at - base, 8, k + 5);
    }
  }

  lemma SumAligned(base: nat, d: nat, j: nat, e: nat)
    requires base % Pow2(8) == 0 && Aligned(d, e) && j <= e && j <= 8
    ensures (base + d) % Pow2(j) == 0
  {
    hide Pow2, Aligned;
    MultipleMono(base, 8, j);
    AlignedMultiple(d, e, j);
    ModAdd(base, d, Pow2(j));
  }

  // The way back from the data to the block fits into a byte exactly for
  // alignments up to 128: larger ones lead to the next multiple of 256.
  lemma WayBack(start: Ptr, align: nat, data: Ptr)
    requires IsPow2(align) && data % align == 0 && start < data && (align >= 256 ==> start % 256 == 0)
    requires if align > 1 then data - start <= align else data - start < 256
    ensures if align <= 128 then data - start < 256 else (data - start) % 256 == 0
  {
    hide And, Pow2, Log2;
    IsPow2Log2(align);
    SmallPowers();
    var e := Log2(align);
    Pow2Order(7, e);
    if e <= 7 {
      Pow2Mono(e, 7);
    }
    if align > 128 {
      Pow2Mono(8, e);
      MultipleMono(data, e, 8);
      ModSub(data, start, 256);
    }
  }

  lemma LiesAt(start: Ptr, align: nat, size: nat, k: nat)
    requires IsPow2(align) && size > 0 && size + align <= SizeOf(k) && k == SizeToBucket(size + align)
    requires start % 2 == 0 && (SizeOf(k) > 256 ==> start % 256 == 0) && start + SizeOf(k) <= WORD / 2
    ensures align <= WORD
    ensures Lies(AlignUp(start + HEADER + 1, align), Alloc(Chunk(start, k), size, align))
  {
    hide AlignUp, And, SizeToBucket, Pow2;
    DataAt(start, align, size, k);
    WayBack(start, align, AlignUp(start + HEADER + 1, align));
    RoomInside(size);
  }

  // The byte in front of the data leads back to the block exactly if it was
  // allocated with an alignment of at most 128.
  lemma BackByte(backs: map<Ptr, nat>, p: Ptr, a: Alloc<Chunk>)
    requires Record(backs, p, a)
    ensures p - backs[p - 1] == a.block.addr <==> a.align <= 128
  {
    hide StaysInside;
  }

  // ----- what the operations promise

  // What alloc_raw lets through.
  predicate GoodRequest(size: nat, align: nat) {
    && IsPow2(align) && size > 0 && size + align + HEADER < WORD
    && size <= MAX_BUCKET_SIZE - HEADER && align <= MAX_BUCKET_SIZE - HEADER
  }

  // An allocation that is let through: null exactly if every window of the target
  // size meets a live block; else one more block is live, and its data address is
  // handed out.
  ghost predicate Allocated(st: Abstract, st': Abstract, ptr: Ptr, size: nat, align: nat, base: Ptr, top: nat)
    requires Fits(st.tree, top) && Fits(st'.tree, top) && |st.lists| == NUM_BUCKETS && 0 < align <= WORD
  {
    var target := SizeToBucket(size + align);
    && 0 <= target < NUM_BUCKETS
    && if !SomeWindow(st.tree, base, top, target) then
         ptr == NULL && SameLive(st, st', base, top) && Canonical(st'.tree)
       else
         && ptr != NULL && ptr !in st.live && ptr in st'.live
         && var c := st'.live[ptr].block;
         && c.level == target && st'.live == st.live[ptr := Alloc(c, size, align)]
         && c !in Lives(st.tree, base, top) && Lives(st'.tree, base, top) == Lives(st.tree, base, top) + {c}
         && AllApart(Lives(st.tree, base, top), c)
         && DataOf(c, ptr, size, align)
         && (FirstFrom(st.lists, target) < NUM_BUCKETS ==> Node(c) == TakenAddr(st.lists, target) && st'.lists == Taken(st.lists, target))
         && exists t: Block, d: Chunk :: Source(st, t, target, base, top) && TakenFrom(t, st'.tree, c, d, base, top)
  }

  // The heap that an allocation takes its block from: as it is if a bucket from the
  // target on is not empty, else coalesced.
  ghost predicate Source(st: Abstract, t: Block, target: nat, base: Ptr, top: nat)
    requires Fits(st.tree, top) && |st.lists| == NUM_BUCKETS && target < NUM_BUCKETS
  {
    if FirstFrom(st.lists, target) < NUM_BUCKETS then t == st.tree
    else Fits(t, top) && Canonical(t) && Lives(t, base, top) == Lives(st.tree, base, top)
  }

  // Where in its block the data lies.
  ghost predicate DataOf(c: Chunk, ptr: Ptr, size: nat, align: nat)
    requires 0 < align <= WORD
  {
    ptr == AlignUp(c.addr + HEADER + 1, align) && Lies(ptr, Alloc(c, size, align))
  }

  // A deallocation: the block is free, in front of its bucket; nothing is merged.
  ghost predicate Deallocated(st: Abstract, st': Abstract, ptr: Ptr, base: Ptr, top: nat)
    requires Fits(st.tree, top) && Fits(st'.tree, top) && |st.lists| == NUM_BUCKETS && ptr in st.live
  {
    var c := st.live[ptr].block;
    && c.level < NUM_BUCKETS && st'.lists == PushAt(st.lists, c.level, Node(c)) && st'.live == st.live - {ptr}
    && c in Lives(st.tree, base, top) && Lives(st'.tree, base, top) == Lives(st.tree, base, top) - {c}
    && Frees(st'.tree, base, top) == Frees(st.tree, base, top) + {c}
  }

  // ----- the pieces of an allocation

  lemma EmptyBucket(heads: seq<Ptr>, m: Memory, active: nat, st: Abstract, base: Ptr, top: nat, k: nat)
    requires HeadsOf(heads, st.lists) && State(m, active, st, base, top) && k < NUM_BUCKETS
    ensures |heads| == |st.lists| == NUM_BUCKETS && (heads[k] == NULL <==> st.lists[k] == [])
    ensures st.lists[k] != [] ==> heads[k] == st.lists[k][0]
    ensures HeapOk(base, top) && Fits(st.tree, top)
  {
    NoNull(m.links, st.lists[k]);
    assert st.lists[k] != [] ==> st.lists[k][0] in st.lists[k];
  }

  // The mask that alloc_raw searches finds the first bucket that is not empty.
  lemma MaskSearch(m: Memory, active: nat, st: Abstract, base: Ptr, top: nat, idx: nat)
    requires State(m, active, st, base, top) && idx < NUM_BUCKETS
    ensures |st.lists| == NUM_BUCKETS
    ensures var mask := And(active, HighMask(MASK_BITS, idx));
      && (mask == 0 <==> FirstFrom(st.lists, idx) == NUM_BUCKETS)
      && (mask != 0 ==> CountrZero(mask) == FirstFrom(st.lists, idx))
  {
    MaskIsFirst(active, st.lists, idx);
  }

  lemma LocateListed(m: Memory, active: nat, st: Abstract, k: nat, base: Ptr, top: nat) returns (ctx: Ctx)
    requires State(m, active, st, base, top) && |st.lists| == NUM_BUCKETS && k < NUM_BUCKETS && st.lists[k] != []
    ensures InFront(st, ctx, k, base, top)
  {
    assert st.lists[k][0] in st.lists[k];
    ctx := LocateFree(CTop, st.tree, base, top, base, top, Chunk(st.lists[k][0] - HEADER, k));
  }

  // ctx leads to the first block of bucket k.
  ghost predicate InFront(st: Abstract, ctx: Ctx, k: nat, base: Ptr, top: nat) {
    && k < |st.lists| && st.lists[k] != [] && st.lists[k][0] >= HEADER
    && Placed(ctx, st.lists[k][0] - HEADER, k, base, top) && st.tree == Put(ctx, Free)
  }

  // Outside the first block of bucket k, which starts at p, the blocks of s are free.
  ghost predicate FreeOutside(st: Abstract, ctx: Ctx, k: nat, p: Ptr, s: set<Chunk>, base: Ptr, top: nat) {
    InFront(st, ctx, k, base, top) && p == st.lists[k][0] - HEADER && FreesAround(ctx, p, k, base, top) == s
  }

  lemma StepOutside(st: Abstract, ctx: Ctx, k: nat, p: Ptr, s: set<Chunk>, base: Ptr, top: nat)
    requires FreeOutside(st, ctx, k, p, s, base, top) && 0 < k
    ensures FreeOutside(SplitAbstract(st, ctx, k), CLeft(ctx, Free), k - 1, p, s + {Chunk(p + SizeOf(k - 1), k - 1)}, base, top)
  {
    StepDown(st, ctx, k, base, top);
  }

  // The first block of the first bucket that is not empty is a least free one.
  lemma FirstIsLeast(m: Memory, active: nat, st: Abstract, idx: nat, base: Ptr, top: nat)
    requires State(m, active, st, base, top) && |st.lists| == NUM_BUCKETS && idx < NUM_BUCKETS
    requires FirstFrom(st.lists, idx) < NUM_BUCKETS
    ensures var k := FirstFrom(st.lists, idx);
      && st.lists[k][0] >= HEADER && LeastFree(st.tree, idx, Chunk(st.lists[k][0] - HEADER, k), base, top)
  {
    hide Tags, Records, BitsOk, Frees, Lives, Chains;
    var k := FirstFrom(st.lists, idx);
    assert st.lists[k][0] in st.lists[k];
    ChunksWithin(st.tree, base, top);
    forall e | e in Frees(st.tree, base, top) && e.level >= idx
      ensures k <= e.level
    {
      assert e in Chunks(st.tree, base, top);
      assert Node(e) in st.lists[e.level];
    }
  }

  lemma NoRightHalves(p: Ptr, k: nat)
    ensures RightHalves(p, k, k) == {}
  {
  }

  lemma UnionAssoc(a: set<Chunk>, b: set<Chunk>, c: set<Chunk>)
    ensures a + b + c == a + (b + c)
  {
  }

  // The first block of the first bucket from idx on that is not empty.
  lemma LocateFirst(m: Memory, active: nat, st: Abstract, idx: nat, base: Ptr, top: nat) returns (ctx: Ctx, d: Chunk)
    requires State(m, active, st, base, top) && |st.lists| == NUM_BUCKETS && idx < NUM_BUCKETS
    requires FirstFrom(st.lists, idx) < NUM_BUCKETS
    ensures Fits(st.tree, top) && d.level == FirstFrom(st.lists, idx) && LeastFree(st.tree, idx, d, base, top)
    ensures InFront(st, ctx, d.level, base, top)
    ensures FreeOutside(st, ctx, d.level, d.addr, Frees(st.tree, base, top) - {d}, base, top)
  {
    hide State, Frees, Lives, Put, Placed, FreesAround, LivesAround, LeastFree;
    var k := FirstFrom(st.lists, idx);
    ctx := LocateListed(m, active, st, k, base, top);
    FirstIsLeast(m, active, st, idx, base, top);
    d := Chunk(st.lists[k][0] - HEADER, k);
    TakeSets(ctx, d.addr, k, base, top);
  }

  // What was found in t for bucket idx: a least free block, split down to idx.
  ghost predicate FoundIn(t: Block, st: Abstract, ctx: Ctx, idx: nat, d: Chunk, base: Ptr, top: nat)
    requires Fits(t, top)
  {
    && LeastFree(t, idx, d, base, top)
    && FreeOutside(st, ctx, idx, d.addr, Frees(t, base, top) - {d} + RightHalves(d.addr, d.level, idx), base, top)
  }

  lemma FoundWhole(st: Abstract, ctx: Ctx, idx: nat, d: Chunk, base: Ptr, top: nat)
    requires Fits(st.tree, top) && LeastFree(st.tree, idx, d, base, top) && d.level == idx
    requires FreeOutside(st, ctx, d.level, d.addr, Frees(st.tree, base, top) - {d}, base, top)
    ensures FoundIn(st.tree, st, ctx, idx, d, base, top)
  {
    hide LeastFree, FreeOutside, Frees, RightHalves;
    NoRightHalves(d.addr, idx);
    var s := Frees(st.tree, base, top) - {d};
    assert s + {} == s;
  }

  lemma FoundSplit(t: Block, st: Abstract, ctx: Ctx, idx: nat, d: Chunk, base: Ptr, top: nat)
    requires Fits(t, top) && LeastFree(t, idx, d, base, top)
    requires FreeOutside(st, ctx, idx, d.addr, Frees(t, base, top) - {d} + RightHalves(d.addr, d.level, idx), base, top)
    ensures FoundIn(t, st, ctx, idx, d, base, top)
  {
  }

  // After a split the left half is the first block of the bucket below.
  lemma StepDown(st: Abstract, ctx: Ctx, k: nat, base: Ptr, top: nat)
    requires InFront(st, ctx, k, base, top) && 0 < k
    ensures InFront(SplitAbstract(st, ctx, k), CLeft(ctx, Free), k - 1, base, top)
  {
  }

  ghost predicate TakeResult(st: Abstract, st': Abstract, ctx: Ctx, ptr: Ptr, k: nat, size: nat, align: nat)
    requires k < |st.lists| && st.lists[k] != [] && st.lists[k][0] >= HEADER && 0 < align <= WORD
  {
    && st' == TakenAbstract(st, ctx, k, ptr, size, align) && ptr !in st.live
    && DataOf(Chunk(st.lists[k][0] - HEADER, k), ptr, size, align)
  }

  lemma TakePlace(m: Memory, active: nat, st: Abstract, ctx: Ctx, k: nat, base: Ptr, top: nat, size: nat, align: nat)
    requires State(m, active, st, base, top) && InFront(st, ctx, k, base, top)
    requires IsPow2(align) && size > 0 && size + align <= SizeOf(k) && k == SizeToBucket(size + align)
    ensures 0 < align <= WORD
    ensures var c := Chunk(st.lists[k][0] - HEADER, k);
      var data := AlignUp(c.addr + HEADER + 1, align);
      DataOf(c, data, size, align)
  {
    hide Queued, Tags, Records, BitsOk, Frees, Lives, Put, Placed, AlignUp, And, SizeToBucket, Lies;
    var at := st.lists[k][0] - HEADER;
    StartAligned(ctx, at, k, base, top);
    PlacedWithin(ctx, at, k, base, top);
    LiesAt(at, align, size, k);
  }

  lemma AllocationDone(st: Abstract, mid: Abstract, st': Abstract, ctx: Ctx, t: Block, d: Chunk, ptr: Ptr, target: nat,
                       size: nat, align: nat, base: Ptr, top: nat)
    requires Fits(st.tree, top) && Fits(mid.tree, top) && |st.lists| == NUM_BUCKETS == |mid.lists| && target < NUM_BUCKETS
    requires SizeToBucket(size + align) == target && 0 < align <= WORD
    requires SomeWindow(st.tree, base, top, target) && SameLive(st, mid, base, top)
    requires InFront(mid, ctx, target, base, top) && TakeResult(mid, st', ctx, ptr, target, size, align)
    requires var k := FirstFrom(st.lists, target); k < NUM_BUCKETS ==> mid.lists == Cascade(st.lists, k, target)
    requires Source(st, t, target, base, top) && Fits(t, top) && FoundIn(t, mid, ctx, target, d, base, top)
    ensures Fits(st'.tree, top) && Allocated(st, st', ptr, size, align, base, top)
  {
    hide Frees, Lives, Put, Placed, AlignUp, And, IsPow2, SizeToBucket, SomeWindow, Cascade, LivesAround, FreesAround;
    hide RightHalves, LeastFree;
    TakeSets(ctx, mid.lists[target][0] - HEADER, target, base, top);
    assert TakenFrom(t, st'.tree, st'.live[ptr].block, d, base, top);
  }

  lemma DeallocationDone(st: Abstract, ctx: Ctx, ptr: Ptr, base: Ptr, top: nat)
    requires Fits(st.tree, top) && |st.lists| == NUM_BUCKETS && ptr in st.live
    requires var c := st.live[ptr].block; c.level < NUM_BUCKETS && Placed(ctx, c.addr, c.level, base, top) && st.tree == Put(ctx, Live)
    ensures Fits(Put(ctx, Free), top) && Deallocated(st, GivenAbstract(st, ctx, ptr), ptr, base, top)
  {
    hide Frees, Lives, Put, Placed, LivesAround, FreesAround;
    var c := st.live[ptr].block;
    TakeSets(ctx, c.addr, c.level, base, top);
  }

  lemma FoundLive(m: Memory, active: nat, st: Abstract, ptr: Ptr, base: Ptr, top: nat) returns (ctx: Ctx)
    requires State(m, active, st, base, top) && ptr in st.live
    ensures Fits(st.tree, top) && |st.lists| == NUM_BUCKETS
    ensures var c := st.live[ptr].block;
      && Record(m.backs, ptr, st.live[ptr]) && c.addr in m.headers && c.level < NUM_BUCKETS
      && m.headers[c.addr].order == c.level + MIN_BUCKET_ORDER
      && Placed(ctx, c.addr, c.level, base, top) && st.tree == Put(ctx, Live)
  {
    hide BitsOk, Frees, Lives, Chains, Ends, Put, Placed;
    var c := st.live[ptr].block;
    assert c in BlocksOf(st.live);
    assert HeaderOk(m.headers, c, false, Ends(Frees(st.tree, base, top)));
    ctx := LocateLive(CTop, st.tree, base, top, base, top, c);
    PutTop(st.tree);
    TopPlaced(base, top);
  }

  // ----- the cleared state

  lemma ClearedState(h: Headers, f: Footers, backs: map<Ptr, nat>, m: LinkMemory, base: Ptr, top: nat)
    requires HeapOk(base, top) && base in h && h[base] == Header(top + MIN_BUCKET_ORDER, true, false)
    requires FooterOk(f, Chunk(base, top)) && base + HEADER in m && m[base + HEADER] == Link(NULL, NULL)
    ensures State(Memory(h, f, backs, m), SetBucketBit(0, top, true),
                  Abstract(Free, ClearLists(NUM_BUCKETS, base + HEADER, top), map[]), base, top)
  {
    hide Bit, SetBucketBit, Pow2;
    var ls, none := ClearLists(NUM_BUCKETS, base + HEADER, top), seq<seq<Ptr>>(NUM_BUCKETS, k => []);
    WholeChunk(base, top);
    assert BlocksOf<Chunk>(map[]) == {};
    assert LinkedAt(m, [base + HEADER], 0);
    forall k | 0 <= k < NUM_BUCKETS
      ensures Chain(m, ls[k])
    {
    }
    forall i: nat
      ensures !Bit(0, i)
    {
      BitZero(i);
    }
    EndsAdd({}, Chunk(base, top));
    assert Ends({}) == {} && {Chunk(base, top)} == {} + {Chunk(base, top)};
    BitsChange(0, none, ls, top, true);
    SizeAtLeast(top);
  }

  lemma HeapLevel(base: Ptr, size: nat, pageSize: nat) returns (top: nat)
    requires 0 < size <= MAX_BUCKET_SIZE && IsPow2(pageSize) && 256 <= pageSize <= MAX_BUCKET_SIZE
    requires base != NULL && base % pageSize == 0 && base + 2 * MAX_BUCKET_SIZE <= WORD / 2
    ensures pageSize <= WORD && HeapOk(base, top)
    ensures var total := AlignUp(BitCeil(size), pageSize); total == SizeOf(top) && HeapFor(total, size, pageSize)
  {
    hide And, AlignUp, Log2, BitCeil, Pow2;
    MaxBucket();
    Pow2Mono(29, 62);
    top := RoundedHeap(size, pageSize);
    var k := BitCeilLeast(size);
    Pow2Mono(k, 29);
    Pow2Step(29);
    Pow2Order(top + 5, 30);
    IsPow2Log2(pageSize);
    SmallPowers();
    Pow2Order(Log2(pageSize), 8);
    MultipleMono(base, Log2(pageSize), 8);
  }

  lemma TopBucket(top: nat)
    ensures SizeToBucket(SizeOf(top)) == top
  {
    SizeToBucketLeast(SizeOf(top));
    Pow2Order(SizeToBucket(SizeOf(top)) + 5, top + 5);
  }

  lemma SameWindows(st: Abstract, st': Abstract, base: Ptr, top: nat, j: nat)
    requires Fits(st.tree, top) && Fits(st'.tree, top) && SameLive(st, st', base, top)
    ensures SomeWindow(st.tree, base, top, j) == SomeWindow(st'.tree, base, top, j)
  {
  }

  lemma NoWindow(m: Memory, active: nat, st: Abstract, base: Ptr, top: nat, j: nat)
    requires State(m, active, st, base, top) && Canonical(st.tree) && j < NUM_BUCKETS
    requires |st.lists| == NUM_BUCKETS && FirstFrom(st.lists, j) == NUM_BUCKETS
    ensures Fits(st.tree, top) && !SomeWindow(st.tree, base, top, j)
  {
    hide Queued, Tags, Records, BitsOk, Frees, Lives, SomeWindow;
    if SomeWindow(st.tree, base, top, j) {
      WindowIsListed(m, active, st, base, top, j);
    }
  }

  lemma DataAfter(c: Chunk, ptr: Ptr, size: nat, align: nat)
    requires 0 < align <= WORD && DataOf(c, ptr, size, align)
    ensures c.addr + HEADER + 1 <= ptr && Lies(ptr, Alloc(c, size, align))
  {
  }

  lemma FrontListed(st: Abstract, ctx: Ctx, k: nat, base: Ptr, top: nat)
    requires InFront(st, ctx, k, base, top)
    ensures k < |st.lists| && st.lists[k] != [] && st.lists[k][0] >= HEADER
  {
  }

  lemma AllocationRefused(st: Abstract, st': Abstract, size: nat, align: nat, base: Ptr, top: nat)
    requires Fits(st.tree, top) && Fits(st'.tree, top) && |st.lists| == NUM_BUCKETS && 0 < align <= WORD
    requires 0 <= SizeToBucket(size + align) < NUM_BUCKETS && !SomeWindow(st.tree, base, top, SizeToBucket(size + align))
    requires SameLive(st, st', base, top) && Canonical(st'.tree)
    ensures Allocated(st, st', NULL, size, align, base, top)
  {
  }

  // ----- the pieces of coalescing

  lemma AtEnd(m: Memory, active: nat, st: Abstract, k: nat, i: nat, base: Ptr, top: nat)
    requires State(m, active, st, base, top) && k < NUM_BUCKETS == |st.lists| && i <= |st.lists[k]|
    requires NodeAt(st.lists[k], i) == NULL
    ensures i == |st.lists[k]|
  {
    assert Chain(m.links, st.lists[k]);
    assert i < |st.lists[k]| ==> LinkedAt(m.links, st.lists[k], i);
  }

  lemma NextBucket(ls: Lists, base: Ptr, k: nat)
    requires ScannedBelow(ls, base, k) && k < |ls| && Scanned(ls, base, k, |ls[k]|)
    ensures ScannedBelow(ls, base, k + 1)
  {
  }

  // The list heads in the course of a merge.
  lemma MergeHeads(heads: seq<Ptr>, m: Memory, ls: Lists, k: nat, p: Ptr, q: Ptr, inside: bool)
    requires HeadsOf(heads, ls) && MergeReady(m, ls, k, p, q, inside)
    ensures |heads| == NUM_BUCKETS
    ensures var heads1, ls1, m1 := HeadsWithout(heads, m.links, k, p), UnlinkAt(ls, k, p), RemoveMemory(m.links, p);
      var heads2, ls2 := HeadsWithout(heads1, m1, k, q), UnlinkAt(ls1, k, q);
      && |heads1| == |heads2| == NUM_BUCKETS && heads1[k] == Head(ls1[k]) && heads2[k] == Head(ls2[k])
      && heads2[k + 1] == Head(ls[k + 1]) && HeadsOf(heads2[k + 1 := Lower(p, q)], MergeLists(ls, k, p, q))
  {
    hide RemoveMemory, Without;
    var ls1, m1 := UnlinkAt(ls, k, p), RemoveMemory(m.links, p);
    HeadsRemove(heads, m.links, ls, k, p);
    HeadsRemove(HeadsWithout(heads, m.links, k, p), m1, ls1, k, q);
    PushHeads(HeadsWithout(HeadsWithout(heads, m.links, k, p), m1, k, q), UnlinkAt(ls1, k, q), k + 1, Lower(p, q));
  }

  // ----- what was handed out

  // The ranges handed out are aligned, lie inside the heap and do not overlap, for
  // requests whose range stays in its block.
  lemma RangesDisjoint(m: Memory, active: nat, st: Abstract, base: Ptr, top: nat, p: Ptr, q: Ptr)
    requires State(m, active, st, base, top) && p in st.live && q in st.live && p != q
    requires StaysInside(st.live[p].size, st.live[p].align) && StaysInside(st.live[q].size, st.live[q].align)
    ensures base <= p && p + st.live[p].size <= base + SizeOf(top) && st.live[p].align > 0 && p % st.live[p].align == 0
    ensures p + st.live[p].size <= q || q + st.live[q].size <= p
  {
    hide Queued, Tags, BitsOk, Frees, Lives, StaysInside;
    ChunksApart(st.tree, base, top);
    ChunksWithin(st.tree, base, top);
    assert st.live[p].block in BlocksOf(st.live) && st.live[q].block in BlocksOf(st.live);
    assert st.live[p].block in Chunks(st.tree, base, top) && st.live[q].block in Chunks(st.tree, base, top);
    assert Apart(st.live[p].block, st.live[q].block);
    assert Record(m.backs, p, st.live[p]) && Record(m.backs, q, st.live[q]);
  }

  // Without alignment no room is reserved for the back byte. A range ends behind
  // its block exactly if size and the byte together are the size of a block.
  lemma UnalignedOverrun(st: Abstract, st': Abstract, ptr: Ptr, size: nat, align: nat, base: Ptr, top: nat)
    requires Fits(st.tree, top) && Fits(st'.tree, top) && |st.lists| == NUM_BUCKETS && 0 < align <= WORD
    requires Allocated(st, st', ptr, size, align, base, top) && ptr != NULL && ptr in st'.live
    ensures ptr + size > End(st'.live[ptr].block) <==> align == 1 && size >= 31 && IsPow2(size + 1)
  {
    hide Lives, SomeWindow, And, AlignUp, SizeToBucket, Taken;
  }

  // With an alignment of 256 or more the byte in front of what alloc_raw returned is
  // zero, and leads nowhere.
  lemma LongWayLost(m: Memory, active: nat, st: Abstract, base: Ptr, top: nat, ptr: Ptr)
    requires State(m, active, st, base, top) && ptr in st.live && st.live[ptr].align >= 256
    ensures ptr - 1 in m.backs && m.backs[ptr - 1] == 0 && ptr != st.live[ptr].block.addr
  {
    hide Queued, Tags, BitsOk, Frees, Lives;
    assert Record(m.backs, ptr, st.live[ptr]);
  }

  // Once everything is freed, coalescing leaves the block that clear builds.
  lemma AllFreed(m: Memory, active: nat, st: Abstract, base: Ptr, top: nat)
    requires State(m, active, st, base, top) && Canonical(st.tree) && st.live == map[]
    ensures st.tree == Free && |st.lists| == NUM_BUCKETS
    ensures forall k, p :: 0 <= k < NUM_BUCKETS ==> (p in st.lists[k] <==> k == top && p == base + HEADER)
  {
    hide Tags, BitsOk, Chains, Lives;
    assert Lives(st.tree, base, top) == {};
    NoLives(st.tree, base, top);
  }
}
