// The states of the segregated allocator and what its steps make of them.
module SegState {
  import opened Bits
  import opened BuddyTree
  import opened Allocations
  import opened Links
  import opened BuddyLists
  import opened SegBlocks

  // The heap as the allocator sees it, by address.
  datatype Memory = Memory(headers: Headers, footers: Footers, backs: map<Ptr, nat>, links: LinkMemory)

  // What the memory stands for.
  datatype Abstract = Abstract(tree: Block, lists: Lists, live: Allocs<Chunk>)

  // ----- the mask of non-empty buckets

  const MASK_BITS: nat := 32

  ghost predicate BitsOk(active: nat, ls: Lists) {
    && active < Pow2(MASK_BITS)
    && (forall i: nat :: i < |ls| ==> (Bit(active, i) <==> ls[i] != []))
    && (forall i: nat :: i >= |ls| ==> !Bit(active, i))
  }

  // set_bucket_bit
  function SetBucketBit(active: nat, bucket: nat, on: bool): nat
    requires bucket < MASK_BITS
  {
    Pow2Mono(bucket, MASK_BITS);
    if on then Or(active, Pow2(bucket)) else And(active, Not(MASK_BITS, Pow2(bucket)))
  }

  lemma BucketBit(active: nat, bucket: nat, on: bool)
    requires active < Pow2(MASK_BITS) && bucket < MASK_BITS
    ensures SetBucketBit(active, bucket, on) < Pow2(MASK_BITS)
    ensures forall i: nat :: Bit(SetBucketBit(active, bucket, on), i) == if i == bucket then on else Bit(active, i)
  {
    hide Or, And, Not, Bit, Pow2;
    Pow2Mono(bucket, MASK_BITS);
    if on {
      OrBelow(MASK_BITS, active, Pow2(bucket));
    } else {
      AndBelow(active, Not(MASK_BITS, Pow2(bucket)));
    }
    forall i: nat
      ensures Bit(SetBucketBit(active, bucket, on), i) == if i == bucket then on else Bit(active, i)
    {
      if on {
        OrPow2(active, bucket, i);
      } else {
        BitAnd(active, Not(MASK_BITS, Pow2(bucket)), i);
        BitPow2(bucket, i);
        if i < MASK_BITS {
          BitNot(MASK_BITS, Pow2(bucket), i);
        } else {
          BitsBelow(MASK_BITS, active, i);
        }
      }
    }
  }

  // Only bucket k becomes empty or non-empty.
  lemma BitsChange(active: nat, ls: Lists, ls': Lists, k: nat, on: bool)
    requires BitsOk(active, ls) && |ls'| == |ls| && k < |ls| <= MASK_BITS
    requires forall i: nat :: i < |ls| && i != k ==> (ls'[i] == [] <==> ls[i] == [])
    requires ls'[k] != [] <==> on
    ensures BitsOk(SetBucketBit(active, k, on), ls')
  {
    hide Pow2, Bit, SetBucketBit;
    BucketBit(active, k, on);
  }

  lemma BitsKeep(active: nat, ls: Lists, ls': Lists)
    requires BitsOk(active, ls) && |ls'| == |ls|
    requires forall i: nat :: i < |ls| ==> (ls'[i] == [] <==> ls[i] == [])
    ensures BitsOk(active, ls')
  {
  }

  // The lowest bit of the masked word is the first non-empty bucket.
  lemma MaskIsFirst(active: nat, ls: Lists, idx: nat)
    requires BitsOk(active, ls) && idx < |ls| <= MASK_BITS
    ensures var mask := And(active, HighMask(MASK_BITS, idx));
      && (mask == 0 <==> FirstFrom(ls, idx) == |ls|)
      && (mask != 0 ==> CountrZero(mask) == FirstFrom(ls, idx))
  {
    hide And, Bit, Pow2, HighMask;
    var mask, k := And(active, HighMask(MASK_BITS, idx)), FirstFrom(ls, idx);
    forall i: nat
      ensures Bit(mask, i) == (idx <= i < |ls| && ls[i] != [])
    {
      BitAnd(active, HighMask(MASK_BITS, idx), i);
      BitHighMask(MASK_BITS, idx, i);
    }
    assert k < |ls| ==> Bit(mask, k);
    if mask == 0 {
      BitZero(k);
    } else {
      LowestBit(mask);
      assert Bit(mask, CountrZero(mask));
    }
  }

  // ----- allocations

  function SizeToBucket(size: nat): int {
    if size <= 32 then 0 else CountrZero(BitCeil(size)) - MIN_BUCKET_ORDER
  }

  // Whether a block of the bucket for the request leaves room for the back byte:
  // the bucket is chosen as if the byte took no room, which alignment makes up for.
  predicate StaysInside(size: nat, align: nat) {
    align > 1 || size < 31 || !IsPow2(size + 1)
  }

  // Where in its block the data lies: aligned, behind header and back byte. For
  // which requests the range ends in the block, and the way back fits into a byte.
  ghost predicate Lies(p: Ptr, a: Alloc<Chunk>) {
    && a.size > 0 && a.align > 0 && p % a.align == 0
    && a.block.addr + HEADER + 1 <= p <= End(a.block)
    && (p + a.size <= End(a.block) <==> StaysInside(a.size, a.align))
    && (if a.align <= 128 then p - a.block.addr < 256 else (p - a.block.addr) % 256 == 0)
  }

  // The byte in front of the data holds what fits of the way back to the block.
  ghost predicate Record(backs: map<Ptr, nat>, p: Ptr, a: Alloc<Chunk>) {
    Lies(p, a) && p - 1 in backs && backs[p - 1] == (p - a.block.addr) % 256
  }

  // Each live block belongs to one allocation.
  ghost predicate Records(backs: map<Ptr, nat>, live: Allocs<Chunk>, lives: set<Chunk>) {
    && (forall p :: p in live ==> Record(backs, p, live[p]))
    && (forall p, q :: p in live && q in live && p != q ==> live[p].block != live[q].block)
    && lives == BlocksOf(live)
  }

  lemma RecordsAdd(backs: map<Ptr, nat>, live: Allocs<Chunk>, lives: set<Chunk>, p: Ptr, a: Alloc<Chunk>)
    requires Records(backs, live, lives) && AllApart(lives, a.block) && a.block !in lives && Lies(p, a)
    ensures p !in live
    ensures Records(backs[p - 1 := (p - a.block.addr) % 256], live[p := a], lives + {a.block})
  {
    hide StaysInside;
    var live', backs' := live[p := a], backs[p - 1 := (p - a.block.addr) % 256];
    forall q | q in live
      ensures live[q].block != a.block && q != p && Record(backs', q, live[q])
    {
      assert live[q].block in BlocksOf(live);
      assert Apart(live[q].block, a.block);
      assert Record(backs, q, live[q]);
    }
    BlocksAdd(live, p, a);
  }

  lemma RecordsRemove(backs: map<Ptr, nat>, live: Allocs<Chunk>, lives: set<Chunk>, p: Ptr)
    requires Records(backs, live, lives) && p in live
    ensures live[p].block in lives && Records(backs, live - {p}, lives - {live[p].block})
  {
    var live' := live - {p};
    assert live[p].block in BlocksOf(live);
    BlocksRemove(live, p);
  }

  // ----- the whole state

  // Every free block is in its bucket and nowhere else, the mask says which
  // buckets are not empty, the header of each block tells its order, whether it is
  // free and whether its left neighbour is, and free blocks end in their order.
  ghost predicate State(m: Memory, active: nat, st: Abstract, base: Ptr, top: nat) {
    && HeapOk(base, top)
    && Fits(st.tree, top)
    && Queued(st.lists, m.links, Frees(st.tree, base, top))
    && Tags(m.headers, m.footers, Frees(st.tree, base, top), Lives(st.tree, base, top), Ends(Frees(st.tree, base, top)))
    && Records(m.backs, st.live, Lives(st.tree, base, top))
    && BitsOk(active, st.lists)
  }

  ghost predicate HeapOk(base: Ptr, top: nat) {
    base != NULL && base % 256 == 0 && top < NUM_BUCKETS && base + SizeOf(top) <= WORD / 2
  }

  // ----- the header on the right

  // Whether a block starts where this one ends, and that header is there.
  lemma RightOf(h: Headers, f: Footers, ctx: Ctx, p: Ptr, k: nat, ends: set<nat>, base: Ptr, top: nat)
    requires Placed(ctx, p, k, base, top)
    requires Tags(h, f, FreesAround(ctx, p, k, base, top), LivesAround(ctx, p, k, base, top), ends)
    ensures var e := End(Chunk(p, k));
      if e < base + SizeOf(top) then e in h
      else NoneStartsAt(FreesAround(ctx, p, k, base, top), e) && NoneStartsAt(LivesAround(ctx, p, k, base, top), e)
  {
    hide Frees, Lives, FreesAround, LivesAround, Placed;
    var e := End(Chunk(p, k));
    if e < base + SizeOf(top) {
      var d := NextStart(ctx, p, k, base, top);
      assert HeaderOk(h, d, true, ends) || HeaderOk(h, d, false, ends);
    } else {
      TakeSets(ctx, p, k, base, top);
      ChunksWithin(Put(ctx, Free), base, top);
      forall d | d in FreesAround(ctx, p, k, base, top) + LivesAround(ctx, p, k, base, top)
        ensures d.addr != e
      {
        assert d in Chunks(Put(ctx, Free), base, top);
      }
    }
  }

  // ----- splitting a block

  ghost function SplitAbstract(st: Abstract, ctx: Ctx, k: nat): Abstract
    requires 0 < k < |st.lists| && st.lists[k] != []
  {
    st.(lists := SplitLists(st.lists, k), tree := Put(ctx, Split(Free, Free)))
  }

  // The mask once the list of bucket k starts at head.
  function EmptiedMask(active: nat, k: nat, head: Ptr): nat
    requires k < MASK_BITS
  {
    if head == NULL then SetBucketBit(active, k, false) else active
  }

  lemma PopBits(active: nat, m: LinkMemory, ls: Lists, k: nat, next: Ptr)
    requires BitsOk(active, ls) && Chains(m, ls) && k < |ls| <= MASK_BITS && ls[k] != [] && next == Head(ls[k][1..])
    ensures BitsOk(EmptiedMask(active, k, next), PopAt(ls, k))
  {
    hide SetBucketBit, Bit, Pow2;
    assert Chain(m, ls[k]);
    assert |ls[k]| > 1 ==> LinkedAt(m, ls[k], 1);
    if next == NULL {
      BitsChange(active, ls, PopAt(ls, k), k, false);
    } else {
      BitsKeep(active, ls, PopAt(ls, k));
    }
  }

  lemma SplitBits(active: nat, m: LinkMemory, ls: Lists, k: nat, next: Ptr)
    requires BitsOk(active, ls) && Chains(m, ls) && 0 < k < |ls| <= MASK_BITS && ls[k] != [] && next == Head(ls[k][1..])
    ensures BitsOk(SetBucketBit(EmptiedMask(active, k, next), k - 1, true), SplitLists(ls, k))
  {
    hide SetBucketBit, BitsOk, EmptiedMask;
    PopBits(active, m, ls, k, next);
    BitsChange(EmptiedMask(active, k, next), PopAt(ls, k), SplitLists(ls, k), k - 1, true);
  }

  ghost predicate SplitReady(m: Memory, ls: Lists, k: nat, p: Ptr) {
    && 0 < k < |ls| && p >= HEADER && p - HEADER in m.headers && k < NUM_BUCKETS
    && PopReady(m.links, p) && (Head(ls[k - 1]) != NULL ==> Head(ls[k - 1]) in PopMemory(m.links, p))
  }

  ghost function SplitResult(m: Memory, ls: Lists, k: nat, p: Ptr): Memory
    requires SplitReady(m, ls, k, p)
  {
    var a, b := Chunk(p - HEADER, k - 1), Chunk(p - HEADER + SizeOf(k - 1), k - 1);
    Memory(SplitHeaders(m.headers, a, b), SplitFooters(m.footers, a, b), m.backs,
           SplitMemory(m.links, p, Head(ls[k - 1]), p + SizeOf(k - 1)))
  }

  lemma SplitState(m: Memory, active: nat, st: Abstract, ctx: Ctx, k: nat, base: Ptr, top: nat)
    requires State(m, active, st, base, top) && |st.lists| == NUM_BUCKETS && 0 < k < NUM_BUCKETS && st.lists[k] != []
    requires st.lists[k][0] >= HEADER && Placed(ctx, st.lists[k][0] - HEADER, k, base, top) && st.tree == Put(ctx, Free)
    ensures var p := st.lists[k][0];
      && SplitReady(m, st.lists, k, p) && m.links[p].next == Head(st.lists[k][1..])
      && State(SplitResult(m, st.lists, k, p), SetBucketBit(EmptiedMask(active, k, m.links[p].next), k - 1, true),
               SplitAbstract(st, ctx, k), base, top)
      && Fits(Put(ctx, Split(Free, Free)), top) && Lives(Put(ctx, Split(Free, Free)), base, top) == Lives(st.tree, base, top)
  {
    hide Queued, Tags, Records, BitsOk, HeapOk, Frees, Lives, FreesAround, LivesAround, Put, Placed, SetBucketBit, EmptiedMask;
    hide SplitMemory, SplitLists, SplitHeaders, SplitFooters, AllApart, PopMemory;
    var p := st.lists[k][0];
    var at := p - HEADER;
    var c, a, b := Chunk(at, k), Chunk(at, k - 1), Chunk(at + SizeOf(k - 1), k - 1);
    var fa, la := FreesAround(ctx, at, k, base, top), LivesAround(ctx, at, k, base, top);
    TakeSets(ctx, at, k, base, top);
    SplitSets(ctx, at, k, base, top);
    QueuedSplit(st.lists, m.links, fa, c, a, b);
    QueuedChains(st.lists, m.links, fa + {c});
    TagsSplit(m.headers, m.footers, fa, la, Ends(fa + {c}), c, a, b);
    SplitEnds(fa, c, a, b);
    SplitBits(active, m.links, st.lists, k, m.links[p].next);
  }

  lemma QueuedChains(ls: Lists, m: LinkMemory, frees: set<Chunk>)
    requires Queued(ls, m, frees)
    ensures Chains(m, ls) && |ls| == NUM_BUCKETS
  {
  }

  lemma SplitEnds(fa: set<Chunk>, c: Chunk, a: Chunk, b: Chunk)
    requires End(b) == End(c) && End(a) == b.addr
    ensures Ends(fa + {b} + {a}) == Ends(fa + {c}) + {b.addr}
  {
    EndsAdd(fa, c);
    EndsAdd(fa, b);
    EndsAdd(fa + {b}, a);
  }

  // ----- taking a block

  ghost predicate TakeReady(m: Memory, ls: Lists, k: nat, p: Ptr, inside: bool) {
    && k < |ls| && p >= HEADER && p - HEADER in m.headers && PopReady(m.links, p)
    && (inside ==> End(Chunk(p - HEADER, k)) in m.headers)
  }

  // The block of node p is live, and the data starts at data.
  ghost function TakeMemory(m: Memory, ls: Lists, k: nat, p: Ptr, inside: bool, data: Ptr): Memory
    requires TakeReady(m, ls, k, p, inside) && data >= p
  {
    Memory(TakeHeaders(m.headers, Chunk(p - HEADER, k), inside), m.footers,
           m.backs[data - 1 := (data - (p - HEADER)) % 256], PopMemory(m.links, p))
  }

  ghost function TakenAbstract(st: Abstract, ctx: Ctx, k: nat, data: Ptr, size: nat, align: nat): Abstract
    requires k < |st.lists| && st.lists[k] != [] && st.lists[k][0] >= HEADER
  {
    Abstract(Put(ctx, Live), PopAt(st.lists, k), st.live[data := Alloc(Chunk(st.lists[k][0] - HEADER, k), size, align)])
  }

  lemma TakeStateReady(m: Memory, active: nat, st: Abstract, ctx: Ctx, k: nat, base: Ptr, top: nat)
    requires State(m, active, st, base, top) && |st.lists| == NUM_BUCKETS && k < NUM_BUCKETS && st.lists[k] != []
    requires st.lists[k][0] >= HEADER && Placed(ctx, st.lists[k][0] - HEADER, k, base, top) && st.tree == Put(ctx, Free)
    ensures var p := st.lists[k][0];
      && TakeReady(m, st.lists, k, p, End(Chunk(p - HEADER, k)) < base + SizeOf(top)) && m.links[p].next == Head(st.lists[k][1..])
      && m.headers[p - HEADER].order == k + MIN_BUCKET_ORDER
  {
    hide Queued, Records, BitsOk, HeapOk, Frees, Lives, FreesAround, LivesAround, Put, Placed;
    var p := st.lists[k][0];
    var c := Chunk(p - HEADER, k);
    var fa, la := FreesAround(ctx, c.addr, k, base, top), LivesAround(ctx, c.addr, k, base, top);
    TakeSets(ctx, c.addr, k, base, top);
    QueuedPop(st.lists, m.links, fa + {c}, k);
    TagsLess(m.headers, m.footers, fa + {c}, la, fa, la, Ends(fa + {c}));
    RightOf(m.headers, m.footers, ctx, c.addr, k, Ends(fa + {c}), base, top);
    assert HeaderOk(m.headers, c, true, Ends(fa + {c}));
  }

  lemma TakeState(m: Memory, active: nat, st: Abstract, ctx: Ctx, k: nat, base: Ptr, top: nat, data: Ptr, size: nat, align: nat)
    requires State(m, active, st, base, top) && |st.lists| == NUM_BUCKETS && k < NUM_BUCKETS && st.lists[k] != []
    requires st.lists[k][0] >= HEADER && Placed(ctx, st.lists[k][0] - HEADER, k, base, top) && st.tree == Put(ctx, Free)
    requires var p := st.lists[k][0];
      var inside := End(Chunk(p - HEADER, k)) < base + SizeOf(top);
      TakeReady(m, st.lists, k, p, inside) && m.links[p].next == Head(st.lists[k][1..])
    requires Lies(data, Alloc(Chunk(st.lists[k][0] - HEADER, k), size, align)) && data >= st.lists[k][0]
    ensures data !in st.live
    ensures var p := st.lists[k][0];
      var inside := End(Chunk(p - HEADER, k)) < base + SizeOf(top);
      State(TakeMemory(m, st.lists, k, p, inside, data), EmptiedMask(active, k, m.links[p].next),
            TakenAbstract(st, ctx, k, data, size, align), base, top)
  {
    hide Queued, Tags, Records, BitsOk, HeapOk, Frees, Lives, FreesAround, LivesAround, Put, Placed, SetBucketBit, EmptiedMask;
    hide AllApart, PopMemory, TakeHeaders, Ends;
    var p := st.lists[k][0];
    var c := Chunk(p - HEADER, k);
    var inside := End(c) < base + SizeOf(top);
    var fa, la := FreesAround(ctx, c.addr, k, base, top), LivesAround(ctx, c.addr, k, base, top);
    TakeSets(ctx, c.addr, k, base, top);
    QueuedPop(st.lists, m.links, fa + {c}, k);
    QueuedChains(st.lists, m.links, fa + {c});
    TagsLess(m.headers, m.footers, fa + {c}, la, fa, la, Ends(fa + {c}));
    RightOf(m.headers, m.footers, ctx, c.addr, k, Ends(fa + {c}), base, top);
    TagsTake(m.headers, m.footers, fa, la, Ends(fa + {c}), c, inside);
    EndsAdd(fa, c);
    assert Ends(fa) + {End(c)} - {End(c)} == Ends(fa);
    RecordsAdd(m.backs, st.live, la, data, Alloc(c, size, align));
    PopBits(active, m.links, st.lists, k, m.links[p].next);
  }

  // ----- giving a block back

  ghost function GivenAbstract(st: Abstract, ctx: Ctx, data: Ptr): Abstract
    requires data in st.live && st.live[data].block.level < |st.lists|
  {
    var c := st.live[data].block;
    Abstract(Put(ctx, Free), PushAt(st.lists, c.level, Node(c)), st.live - {data})
  }

  ghost predicate GiveReady(m: Memory, ls: Lists, c: Chunk, inside: bool) {
    && c.addr in m.headers && c.level < NUM_BUCKETS == |ls| && m.headers[c.addr].order == c.level + MIN_BUCKET_ORDER
    && (inside ==> End(c) in m.headers) && (Head(ls[c.level]) != NULL ==> Head(ls[c.level]) in m.links)
  }

  ghost function GiveMemory(m: Memory, ls: Lists, c: Chunk, inside: bool): Memory
    requires GiveReady(m, ls, c, inside)
  {
    Memory(GiveHeaders(m.headers, c, inside), m.footers[LastByte(c) := c.level + MIN_BUCKET_ORDER], m.backs,
           PushMemory(m.links, Head(ls[c.level]), Node(c)))
  }

  lemma GiveState(m: Memory, active: nat, st: Abstract, ctx: Ctx, base: Ptr, top: nat, data: Ptr)
    requires State(m, active, st, base, top) && data in st.live
    requires var c := st.live[data].block; Placed(ctx, c.addr, c.level, base, top) && st.tree == Put(ctx, Live)
    ensures var c := st.live[data].block;
      var inside := End(c) < base + SizeOf(top);
      && GiveReady(m, st.lists, c, inside)
      && State(GiveMemory(m, st.lists, c, inside), SetBucketBit(active, c.level, true), GivenAbstract(st, ctx, data), base, top)
  {
    hide Queued, Tags, Records, BitsOk, HeapOk, Frees, Lives, FreesAround, LivesAround, Put, Placed, SetBucketBit;
    hide AllApart, PushMemory, GiveHeaders, Ends;
    var c := st.live[data].block;
    var inside := End(c) < base + SizeOf(top);
    var fa, la := FreesAround(ctx, c.addr, c.level, base, top), LivesAround(ctx, c.addr, c.level, base, top);
    TakeSets(ctx, c.addr, c.level, base, top);
    QueuedChains(st.lists, m.links, fa);
    RecordsRemove(m.backs, st.live, la + {c}, data);
    TagsLess(m.headers, m.footers, fa, la + {c}, fa, la, Ends(fa));
    RightOf(m.headers, m.footers, ctx, c.addr, c.level, Ends(fa), base, top);
    TagsGive(m.headers, m.footers, fa, la, Ends(fa), c, inside);
    EndsAdd(fa, c);
    ApartStart(fa, c);
    QueuedPush(st.lists, m.links, fa, c);
    PushBits(active, st.lists, c.level, Node(c));
  }

  lemma PushBits(active: nat, ls: Lists, k: nat, p: Ptr)
    requires BitsOk(active, ls) && k < |ls| <= MASK_BITS
    ensures BitsOk(SetBucketBit(active, k, true), PushAt(ls, k, p))
  {
    BitsChange(active, ls, PushAt(ls, k, p), k, true);
  }

  // ----- merging two free buddies

  lemma {:induction false} WithoutIn(s: seq<Ptr>, p: Ptr, x: Ptr)
    requires x in Without(s, p)
    ensures x in s
  {
    if s[0] != p && x != s[0] {
      WithoutIn(s[1..], p, x);
    }
  }

  lemma RemoveBits(active: nat, ls: Lists, k: nat, p: Ptr)
    requires BitsOk(active, ls) && k < |ls| <= MASK_BITS && p in ls[k] && NULL !in ls[k]
    ensures NULL !in UnlinkAt(ls, k, p)[k]
    ensures BitsOk(EmptiedMask(active, k, Head(UnlinkAt(ls, k, p)[k])), UnlinkAt(ls, k, p))
  {
    hide SetBucketBit, Bit, Pow2;
    var s := Without(ls[k], p);
    if NULL in s {
      WithoutIn(ls[k], p, NULL);
    }
    if s == [] {
      BitsChange(active, ls, UnlinkAt(ls, k, p), k, false);
    } else {
      assert s[0] in s;
      BitsKeep(active, ls, UnlinkAt(ls, k, p));
    }
  }

  ghost function MergeMask(active: nat, ls: Lists, k: nat, p: Ptr, q: Ptr): nat
    requires k + 1 < |ls| <= MASK_BITS
  {
    var ls1 := UnlinkAt(ls, k, p);
    SetBucketBit(EmptiedMask(EmptiedMask(active, k, Head(ls1[k])), k, Head(UnlinkAt(ls1, k, q)[k])), k + 1, true)
  }

  lemma MergeBits(active: nat, m: LinkMemory, ls: Lists, k: nat, p: Ptr, q: Ptr)
    requires BitsOk(active, ls) && Chains(m, ls) && k + 1 < |ls| <= MASK_BITS && p in ls[k] && q in UnlinkAt(ls, k, p)[k]
    ensures BitsOk(MergeMask(active, ls, k, p, q), MergeLists(ls, k, p, q))
  {
    hide BitsOk, EmptiedMask, SetBucketBit, Without;
    NoNull(m, ls[k]);
    var ls1 := UnlinkAt(ls, k, p);
    var active1 := EmptiedMask(active, k, Head(ls1[k]));
    RemoveBits(active, ls, k, p);
    RemoveBits(active1, ls1, k, q);
    PushBits(EmptiedMask(active1, k, Head(UnlinkAt(ls1, k, q)[k])), UnlinkAt(ls1, k, q), k + 1, Lower(p, q));
  }

  ghost predicate MergeReady(m: Memory, ls: Lists, k: nat, p: Ptr, q: Ptr, inside: bool) {
    && k + 1 < |ls| == NUM_BUCKETS && Lower(p, q) >= HEADER
    && RemoveReady(m.links, ls, k, p) && RemoveReady(RemoveMemory(m.links, p), UnlinkAt(ls, k, p), k, q)
    && (Head(ls[k + 1]) != NULL ==> Head(ls[k + 1]) in RemoveMemory(RemoveMemory(m.links, p), q))
    && var c := Chunk(Lower(p, q) - HEADER, k + 1);
    && c.addr in m.headers && (inside ==> End(c) in m.headers)
  }

  ghost function MergeMemory(m: Memory, ls: Lists, k: nat, p: Ptr, q: Ptr, inside: bool): Memory
    requires MergeReady(m, ls, k, p, q, inside)
  {
    var c := Chunk(Lower(p, q) - HEADER, k + 1);
    Memory(MergeHeaders(m.headers, c, inside), m.footers[LastByte(c) := c.level + MIN_BUCKET_ORDER], m.backs,
           MergeLinks(m.links, p, q, Head(ls[k + 1])))
  }

  ghost function MergedAbstract(st: Abstract, ctx: Ctx, k: nat, p: Ptr, q: Ptr): Abstract
    requires !ctx.CTop? && k + 1 < |st.lists|
  {
    Abstract(Put(ctx.up, Free), MergeLists(st.lists, k, p, q), st.live)
  }

  lemma MergeState(m: Memory, active: nat, st: Abstract, ctx: Ctx, at: Ptr, k: nat, base: Ptr, top: nat)
    requires State(m, active, st, base, top) && Placed(ctx, at, k, base, top) && st.tree == Put(ctx, Free)
    requires !ctx.CTop? && Buddy(ctx).Free? && (ctx.CRight? ==> at >= SizeOf(k)) && |st.lists| == NUM_BUCKETS
    ensures var p, q := at + HEADER, BuddyAddr(ctx, at, k) + HEADER;
      var inside := Lower(p, q) - HEADER + SizeOf(k + 1) < base + SizeOf(top);
      && MergeReady(m, st.lists, k, p, q, inside)
      && State(MergeMemory(m, st.lists, k, p, q, inside), MergeMask(active, st.lists, k, p, q),
               MergedAbstract(st, ctx, k, p, q), base, top)
      && Fits(Put(ctx.up, Free), top) && Lives(Put(ctx.up, Free), base, top) == Lives(st.tree, base, top)
      && |Frees(Put(ctx.up, Free), base, top)| < |Frees(st.tree, base, top)|
  {
    hide Queued, Tags, Records, BitsOk, HeapOk, Frees, Lives, FreesAround, LivesAround, Put, Placed, MergeMask, Removable;
    hide AllApart, MergeHeaders, MergeLinks, MergeLists, RemoveMemory, Ends, UnlinkAt;
    MergeSets(ctx, at, k, base, top);
    var o, b := ParentAddr(ctx, at, k), BuddyAddr(ctx, at, k);
    var c, l, r := Chunk(o, k + 1), Chunk(o, k), Chunk(o + SizeOf(k), k);
    var inside := End(c) < base + SizeOf(top);
    var fu, lu := FreesAround(ctx.up, o, k + 1, base, top), LivesAround(ctx.up, o, k + 1, base, top);
    assert Lower(at, b) == o;
    TopLevel(base, top);
    QueuedMerge(st.lists, m.links, fu, c, Chunk(at, k), Chunk(b, k));
    QueuedChains(st.lists, m.links, fu + {r} + {l});
    MergeBits(active, m.links, st.lists, k, at + HEADER, b + HEADER);
    MergeTags(m.headers, m.footers, ctx.up, o, k, base, top);
    MergeCount(fu, c, l, r);
  }

  lemma TopLevel(base: Ptr, top: nat)
    requires HeapOk(base, top)
    ensures top < NUM_BUCKETS
  {
  }

  lemma MergeEnds(fa: set<Chunk>, c: Chunk, a: Chunk, b: Chunk)
    requires End(b) == End(c) && End(a) == b.addr && AllApart(fa, a)
    ensures Ends(fa + {b} + {a}) - {b.addr} == Ends(fa + {c}) && End(c) in Ends(fa + {b} + {a})
  {
    EndsAdd(fa, c);
    EndsAdd(fa, a);
    EndsAdd(fa, b);
    EndsAdd(fa + {b}, a);
  }

  lemma MergeTags(h: Headers, ft: Footers, up: Ctx, o: Ptr, k: nat, base: Ptr, top: nat)
    requires Placed(up, o, k + 1, base, top) && k + 1 < NUM_BUCKETS
    requires var l, r := Chunk(o, k), Chunk(o + SizeOf(k), k);
      var fu, lu := FreesAround(up, o, k + 1, base, top), LivesAround(up, o, k + 1, base, top);
      && Tags(h, ft, fu + {r} + {l}, lu, Ends(fu + {r} + {l})) && AllApart(fu, l)
      && AllApart(fu, Chunk(o, k + 1)) && AllApart(lu, Chunk(o, k + 1))
    ensures var c := Chunk(o, k + 1);
      var fu, lu := FreesAround(up, o, k + 1, base, top), LivesAround(up, o, k + 1, base, top);
      var inside := End(c) < base + SizeOf(top);
      && o in h && (inside ==> End(c) in h)
      && Tags(MergeHeaders(h, c, inside), ft[LastByte(c) := c.level + MIN_BUCKET_ORDER], fu + {c}, lu, Ends(fu + {c}))
  {
    hide Tags, Ends, AllApart, MergeHeaders, FreesAround, LivesAround, Placed, NoneStartsAt;
    var c, l, r := Chunk(o, k + 1), Chunk(o, k), Chunk(o + SizeOf(k), k);
    var fu, lu := FreesAround(up, o, k + 1, base, top), LivesAround(up, o, k + 1, base, top);
    var ends := Ends(fu + {r} + {l});
    TagsLess(h, ft, fu + {r} + {l}, lu, fu, lu, ends);
    RightOf(h, ft, up, o, k + 1, ends, base, top);
    MergeEnds(fu, c, l, r);
    TagsMerge(h, ft, fu, lu, ends, c, l, r, End(c) < base + SizeOf(top));
  }

  lemma MergeCount(fa: set<Chunk>, c: Chunk, a: Chunk, b: Chunk)
    requires AllApart(fa, b) && AllApart(fa + {b}, a)
    ensures |fa + {c}| < |fa + {b} + {a}|
  {
    assert b !in fa && a !in fa + {b};
  }

  // What coalesce_all reads of the buddy: the address computed by exclusive or is
  // the heap's end for the whole heap; else a block starts there, and its header
  // says whether it is one free block of this order.
  lemma BuddyTest(m: Memory, active: nat, st: Abstract, ctx: Ctx, at: Ptr, k: nat, base: Ptr, top: nat)
    requires State(m, active, st, base, top) && Placed(ctx, at, k, base, top) && st.tree == Put(ctx, Free)
    ensures base <= at && BuddyOf(base, at, k) == BuddyAddr(ctx, at, k)
    ensures var b := BuddyAddr(ctx, at, k);
      && (b >= base + SizeOf(top)) == ctx.CTop?
      && (!ctx.CTop? ==>
            && b in m.headers && k + 1 < NUM_BUCKETS == |st.lists|
            && (m.headers[b].isFree && m.headers[b].order == k + MIN_BUCKET_ORDER) == Buddy(ctx).Free?
            && (b + HEADER in st.lists[k]) == Buddy(ctx).Free?)
  {
    hide Records, BitsOk, FreesAround, LivesAround, Frees, Lives, Put, Placed, Ends;
    XorIsBuddy(ctx, at, k, base, top);
    TakeSets(ctx, at, k, base, top);
    if !ctx.CTop? {
      var d := BuddyHeader(ctx, at, k, base, top);
      SameStart(ctx, at, k, base, top, d, Chunk(d.addr, k));
      BuddySelf(at, k, d.addr, ctx);
      assert HeaderOk(m.headers, d, d in FreesAround(ctx, at, k, base, top), Ends(Frees(st.tree, base, top)));
    }
  }

  lemma BuddySelf(at: Ptr, k: nat, b: Ptr, ctx: Ctx)
    requires (ctx.CRight? ==> at >= SizeOf(k)) && b == BuddyAddr(ctx, at, k)
    ensures b != at
  {
  }
}
