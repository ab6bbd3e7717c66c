// The header byte of the buddy allocator, and how lists, headers and links agree
// with the tree of blocks.
module BuddyState {
  import opened Bits
  import opened BuddyTree
  import opened Allocations
  import opened Links
  import opened BuddyLists

  type Byte = n: nat | n < 256
  type Half = n: nat | n < 0x1_0000

  // data packs the free flag in its most significant bit, the order in the rest.
  datatype Header = Header(data: Byte, offset: Half)
  {
    predicate Free() {
      And(data, 0x80) != 0
    }

    function Order(): nat {
      And(data, 0x7F)
    }

    function SetFree(free: bool): Header {
      this.(data := if free then OrByte(data, 0x80) else AndByte(data, 0x7F))
    }

    function SetOrder(order: Byte): Header {
      this.(data := OrByte(AndByte(data, 0x80), AndByte(order, 0x7F)))
    }
  }

  type Headers = map<Ptr, Header>

  function AndByte(a: Byte, b: Byte): Byte {
    AndBelow(a, b);
    And(a, b)
  }

  function OrByte(a: Byte, b: Byte): Byte {
    SmallPowers();
    OrBelow(8, a, b);
    Or(a, b)
  }

  // Bit 7 and the seven bits below it.
  lemma Bytes(a: Byte)
    ensures And(a, 0x80) == (if a < 128 then 0 else 128)
    ensures And(a, 0x7F) == a % 128
  {
    hide And, Pow2, Floor;
    SmallPowers();
    AndLowMask(a, 7);
    FloorMod(a, 7);
    assert HighMask(8, 7) == 128;
    AndHighMask(8, a, 7);
  }

  lemma {:induction false} OrDisjoint(k: nat, a: nat)
    requires a < Pow2(k)
    ensures Or(a, Pow2(k)) == a + Pow2(k) && Or(Pow2(k), a) == a + Pow2(k)
  {
    if k > 0 && a > 0 {
      OrDisjoint(k - 1, a / 2);
      assert Pow2(k) / 2 == Pow2(k - 1) && Pow2(k) % 2 == 0;
    }
  }

  lemma OrTop(a: Byte, b: Byte)
    requires b < 128 && (a == 0 || a == 128)
    ensures Or(a, b) == a + b
  {
    hide Pow2;
    SmallPowers();
    OrDisjoint(7, b);
  }

  lemma OrSelf(a: Byte)
    ensures Or(a, 0x80) == a % 128 + 128
  {
    hide Or, Pow2;
    SmallPowers();
    if a < 128 {
      OrDisjoint(7, a);
    } else {
      OrIdem(7, a - 128);
    }
  }

  lemma {:induction false} OrIdem(k: nat, a: nat)
    requires a < Pow2(k)
    ensures Or(a + Pow2(k), Pow2(k)) == a + Pow2(k)
  {
    if k > 0 {
      OrIdem(k - 1, a / 2);
      assert Pow2(k) / 2 == Pow2(k - 1) && Pow2(k) % 2 == 0;
      assert (a + Pow2(k)) / 2 == a / 2 + Pow2(k - 1);
    }
  }

  lemma SetFreeKeepsOrder(h: Header, free: bool)
    ensures h.SetFree(free).Free() == free && h.SetFree(free).Order() == h.Order()
  {
    hide And, Or;
    var d := h.data;
    Bytes(d);
    OrSelf(d);
    var d' := h.SetFree(free).data;
    assert d' == if free then d % 128 + 128 else d % 128;
    Bytes(d');
  }

  lemma SetOrderKeepsFree(h: Header, order: Byte)
    requires order < 128
    ensures h.SetOrder(order).Free() == h.Free() && h.SetOrder(order).Order() == order
  {
    hide And, Or;
    var d := h.data;
    Bytes(d);
    Bytes(order);
    OrTop(And(d, 0x80), And(order, 0x7F));
    var d' := h.SetOrder(order).data;
    assert d' == (if d < 128 then 0 else 128) + order;
    Bytes(d');
  }

  // ----- agreement with a set of free and a set of live blocks

  ghost predicate Tagged(h: Headers, p: Ptr, free: bool, order: nat) {
    p in h && h[p].Free() == free && h[p].Order() == order
  }

  ghost predicate TaggedLive(h: Headers, p: Ptr) {
    p in h && !h[p].Free()
  }

  ghost predicate Listed(ls: Lists, frees: set<Chunk>) {
    && |ls| == MAX_ORDER
    && (forall k, p :: 0 <= k < MAX_ORDER ==> (p in ls[k] <==> Chunk(p, k) in frees))
    && (forall c :: c in frees ==> c.level < MAX_ORDER)
  }

  // Every free block is in the list of its order and nowhere else, the lists are
  // doubly linked, and the header at the start of every block is up to date.
  ghost predicate Agrees(ls: Lists, h: Headers, m: LinkMemory, frees: set<Chunk>, lives: set<Chunk>) {
    && Listed(ls, frees)
    && (forall c :: c in frees ==> Tagged(h, c.addr, true, c.level))
    && (forall c :: c in lives ==> TaggedLive(h, c.addr))
    && Chains(m, ls)
  }

  // h' differs from h at most inside the block c.
  ghost predicate OnlyInside(h: Headers, h': Headers, c: Chunk) {
    forall p :: p in h && !(c.addr <= p < c.addr + SizeOf(c.level)) ==> p in h' && h'[p] == h[p]
  }

  // The blocks around one block, c, which is not in any list just now.
  lemma AgreesInside(ls: Lists, h: Headers, h': Headers, m: LinkMemory, frees: set<Chunk>, lives: set<Chunk>, c: Chunk)
    requires Agrees(ls, h, m, frees, lives) && OnlyInside(h, h', c)
    requires AllApart(frees, c) && AllApart(lives, c)
    ensures Agrees(ls, h', m, frees, lives)
  {
  }

  lemma NotListed(ls: Lists, frees: set<Chunk>, c: Chunk, p: Ptr)
    requires Listed(ls, frees) && AllApart(frees, c) && c.addr <= p < c.addr + SizeOf(c.level)
    ensures !InSome(ls, p)
  {
    forall k | 0 <= k < |ls|
      ensures p !in ls[k]
    {
      if p in ls[k] {
        assert false;
      }
    }
  }

  // The first block of level k leaves its list.
  lemma AgreesPop(ls: Lists, h: Headers, m: LinkMemory, frees: set<Chunk>, lives: set<Chunk>, k: nat)
    requires Agrees(ls, h, m, frees, lives) && k < MAX_ORDER && ls[k] != []
    ensures var p := ls[k][0];
      && p in m && p != NULL && m[p].next == Head(ls[k][1..]) && (m[p].next != NULL ==> m[p].next in m)
      && Chunk(p, k) in frees
      && Agrees(PopAt(ls, k), h, PopMemory(m, p), frees - {Chunk(p, k)}, lives)
  {
    var p := ls[k][0];
    PopChains(m, ls, k);
    assert p in ls[k];
    var ls' := ls[k := ls[k][1..]];
    assert Chain(m, ls[k]);
    forall j, q | 0 <= j < MAX_ORDER
      ensures q in ls'[j] <==> Chunk(q, j) in frees - {Chunk(p, k)}
    {
      assert q in ls[j] <==> Chunk(q, j) in frees;
      PopElements(ls[k]);
    }
  }

  // A block with an up-to-date header joins the list of its order.
  lemma AgreesPush(ls: Lists, h: Headers, m: LinkMemory, frees: set<Chunk>, lives: set<Chunk>, c: Chunk)
    requires Agrees(ls, h, m, frees, lives) && AllApart(frees, c) && c.level < MAX_ORDER && c.addr != NULL
    requires Tagged(h, c.addr, true, c.level)
    ensures Head(ls[c.level]) != NULL ==> Head(ls[c.level]) in m
    ensures Agrees(PushAt(ls, c.level, c.addr), h, PushMemory(m, Head(ls[c.level]), c.addr), frees + {c}, lives)
  {
    NotListed(ls, frees, c, c.addr);
    PushChains(m, ls, c.level, c.addr);
  }

  // A block in the middle of its list leaves it.
  lemma AgreesUnlink(ls: Lists, h: Headers, m: LinkMemory, frees: set<Chunk>, lives: set<Chunk>, c: Chunk)
    requires Agrees(ls, h, m, frees, lives) && c in frees
    ensures var p := c.addr;
      && p in m && p != NULL && (m[p].prev != NULL ==> m[p].prev in m) && (m[p].next != NULL ==> m[p].next in m)
      && Head(Without(ls[c.level], p)) == (if Head(ls[c.level]) == p then m[p].next else Head(ls[c.level]))
      && Agrees(UnlinkAt(ls, c.level, p), h, UnlinkMemory(m, p), frees - {c}, lives)
  {
    assert c.addr in ls[c.level];
    UnlinkChains(m, ls, c.level, c.addr);
  }

  // ----- allocations

  const HEADER: nat := 4
  const OFFSET_MAX: nat := 65535

  // What 16 bits keep of a way back to a block.
  function Stored(way: int): Half {
    way % 0x1_0000
  }

  lemma StoredIs(way: nat)
    ensures Stored(way) == way <==> way <= OFFSET_MAX
  {
  }

  // The returned range is aligned and lies behind the header and inside the block;
  // the header right in front of it leads back to the block.
  ghost predicate Record(h: Headers, p: Ptr, a: Alloc<Chunk>) {
    && a.block.addr + HEADER <= p && p + a.size <= a.block.addr + SizeOf(a.block.level)
    && a.align > 0 && p % a.align == 0
    && p - HEADER in h && h[p - HEADER].Order() == a.block.level && h[p - HEADER].offset == p - a.block.addr
  }

  // The live blocks are those of the allocations, one each, and those leaked.
  ghost predicate Records(h: Headers, live: Allocs<Chunk>, leaked: set<Chunk>, lives: set<Chunk>) {
    && (forall p :: p in live ==> Record(h, p, live[p]) && live[p].size > 0)
    && (forall p, q :: p in live && q in live && p != q ==> live[p].block != live[q].block)
    && lives == BlocksOf(live) + leaked && leaked !! BlocksOf(live)
  }

  lemma RecordsInside(h: Headers, h': Headers, live: Allocs<Chunk>, leaked: set<Chunk>, lives: set<Chunk>, c: Chunk)
    requires Records(h, live, leaked, lives) && OnlyInside(h, h', c) && AllApart(lives, c)
    ensures Records(h', live, leaked, lives)
  {
    forall p | p in live
      ensures Record(h', p, live[p])
    {
      assert live[p].block in BlocksOf(live);
      assert Apart(live[p].block, c);
    }
  }

  lemma HeadersInside(ls: Lists, h: Headers, h': Headers, m: LinkMemory, frees: set<Chunk>, lives: set<Chunk>,
                      live: Allocs<Chunk>, leaked: set<Chunk>, c: Chunk)
    requires Agrees(ls, h, m, frees, lives) && Records(h, live, leaked, lives)
    requires OnlyInside(h, h', c) && AllApart(frees, c) && AllApart(lives, c)
    ensures Agrees(ls, h', m, frees, lives) && Records(h', live, leaked, lives)
  {
    AgreesInside(ls, h, h', m, frees, lives, c);
    RecordsInside(h, h', live, leaked, lives, c);
  }

  lemma RecordsAdd(h: Headers, live: Allocs<Chunk>, leaked: set<Chunk>, lives: set<Chunk>, p: Ptr, a: Alloc<Chunk>)
    requires Records(h, live, leaked, lives) && a.block !in lives && Record(h, p, a) && a.size > 0
    requires AllApart(lives, a.block)
    ensures p !in live && Records(h, live[p := a], leaked, lives + {a.block})
  {
    var live' := live[p := a];
    forall q | q in live
      ensures live[q].block != a.block && Apart(live[q].block, a.block)
    {
      assert live[q].block in BlocksOf(live);
    }
    assert p !in live;
    BlocksAdd(live, p, a);
  }

  lemma RecordsRemove(h: Headers, live: Allocs<Chunk>, leaked: set<Chunk>, lives: set<Chunk>, p: Ptr)
    requires Records(h, live, leaked, lives) && p in live
    ensures live[p].block in lives && Records(h, live - {p}, leaked, lives - {live[p].block})
  {
    var live' := live - {p};
    assert live[p].block in BlocksOf(live);
    BlocksRemove(live, p);
  }

  lemma RecordsLeak(h: Headers, live: Allocs<Chunk>, leaked: set<Chunk>, lives: set<Chunk>, c: Chunk)
    requires Records(h, live, leaked, lives) && c !in lives
    ensures Records(h, live, leaked + {c}, lives + {c})
  {
  }

  // ----- sizes

  function SizeToOrder(size: nat): int {
    var s := BitCeil(size + HEADER);
    var s' := if s < 32 then 32 else s;
    CountrZero(s') - CountrZero(32)
  }

  // The least order whose blocks hold size and a header.
  lemma SizeToOrderLeast(size: nat)
    ensures SizeToOrder(size) >= 0 && size + HEADER <= SizeOf(SizeToOrder(size))
    ensures forall j: nat :: size + HEADER <= SizeOf(j) ==> SizeToOrder(size) <= j
  {
    var k := BitCeilLeast(size + HEADER);
    assert Pow2(5) == 32;
    CountrZeroPow2(5);
    CountrZeroPow2(k);
    Pow2Order(k, 5);
    forall j: nat | size + HEADER <= SizeOf(j)
      ensures SizeToOrder(size) <= j
    {
      assert k <= j + 5;
    }
  }

  const MAX_BLOCK_SIZE: nat := 0x10_0000_0000

  lemma LargestBlock()
    ensures MAX_BLOCK_SIZE == SizeOf(MAX_ORDER - 1)
  {
    assert Pow2(9) == 512;
    Pow2Add(9, 9);
    Pow2Add(18, 18);
  }

  // alloc_raw uses the order as an index: it is one exactly for requests that the
  // largest block, of 64 GB, could hold with a header of 4 bytes.
  lemma OrderInRange(size: nat)
    ensures 0 <= SizeToOrder(size) < MAX_ORDER <==> size + 4 <= MAX_BLOCK_SIZE
  {
    hide SizeToOrder, Pow2;
    SizeToOrderLeast(size);
    LargestBlock();
    if SizeToOrder(size) < MAX_ORDER {
      Pow2Mono(SizeToOrder(size) + 5, MAX_ORDER - 1 + 5);
    }
  }

  // ----- the effect of a split on the whole state

  lemma SplitAgrees(ls: Lists, h: Headers, h': Headers, m: LinkMemory, live: Allocs<Chunk>, leaked: set<Chunk>,
                    ctx: Ctx, k: nat, base: nat, top: nat)
    requires |ls| == MAX_ORDER && 0 < k < MAX_ORDER && ls[k] != [] && Placed(ctx, ls[k][0], k, base, top) && base != NULL
    requires Fits(Put(ctx, Free), top)
    requires Agrees(ls, h, m, Frees(Put(ctx, Free), base, top), Lives(Put(ctx, Free), base, top))
    requires Records(h, live, leaked, Lives(Put(ctx, Free), base, top))
    requires var p, b := ls[k][0], ls[k][0] + SizeOf(k - 1);
      OnlyInside(h, h', Chunk(p, k)) && Tagged(h', p, true, k - 1) && Tagged(h', b, true, k - 1)
    ensures var p, t := ls[k][0], Put(ctx, Split(Free, Free));
      && PopReady(m, p) && m[p].next == Head(ls[k][1..]) && p != NULL
      && (Head(ls[k - 1]) != NULL ==> Head(ls[k - 1]) in PopMemory(m, p))
      && Fits(t, top) && Lives(t, base, top) == Lives(Put(ctx, Free), base, top)
      && Agrees(SplitLists(ls, k), h', SplitMemory(m, p, Head(ls[k - 1]), p + SizeOf(k - 1)), Frees(t, base, top), Lives(t, base, top))
      && Records(h', live, leaked, Lives(t, base, top))
  {
    hide Agrees, Records, Frees, Lives, FreesAround, LivesAround, Put, Tagged, AllApart;
    var p, b := ls[k][0], ls[k][0] + SizeOf(k - 1);
    var fa, la := FreesAround(ctx, p, k, base, top), LivesAround(ctx, p, k, base, top);
    SplitSets(ctx, p, k, base, top);
    AgreesPop(ls, h, m, Frees(Put(ctx, Free), base, top), la, k);
    var ls1, m1 := PopAt(ls, k), PopMemory(m, p);
    HeadersInside(ls1, h, h', m1, fa, la, live, leaked, Chunk(p, k));
    AgreesPush(ls1, h', m1, fa, la, Chunk(b, k - 1));
    AgreesPush(PushAt(ls1, k - 1, b), h', PushMemory(m1, Head(ls1[k - 1]), b), fa + {Chunk(b, k - 1)}, la, Chunk(p, k - 1));
  }

  // ----- the whole state

  // The heap as the allocator sees it: block headers and list links by address.
  datatype Memory = Memory(headers: Headers, links: LinkMemory)

  // What the memory stands for.
  datatype Abstract = Abstract(tree: Block, lists: Lists, live: Allocs<Chunk>, leaked: set<Chunk>)

  ghost predicate State(m: Memory, st: Abstract, base: Ptr, top: nat) {
    && base != NULL && top + 1 < MAX_ORDER && base + SizeOf(top) <= WORD / 2
    && Fits(st.tree, top)
    && Agrees(st.lists, m.headers, m.links, Frees(st.tree, base, top), Lives(st.tree, base, top))
    && Records(m.headers, st.live, st.leaked, Lives(st.tree, base, top))
  }

  ghost function SplitAbstract(st: Abstract, ctx: Ctx, k: nat): Abstract
    requires 0 < k < |st.lists| && st.lists[k] != []
  {
    st.(lists := SplitLists(st.lists, k), tree := Put(ctx, Split(Free, Free)))
  }

  // A split of the first block of level k, once the headers h of its halves are
  // written.
  lemma SplitState(m: Memory, h: Headers, st: Abstract, ctx: Ctx, k: nat, base: Ptr, top: nat)
    requires State(m, st, base, top) && 0 < k < MAX_ORDER && st.lists[k] != []
    requires st.tree == Put(ctx, Free) && Placed(ctx, st.lists[k][0], k, base, top)
    requires var p, b := st.lists[k][0], st.lists[k][0] + SizeOf(k - 1);
      && Tagged(h, p, true, k - 1) && Tagged(h, b, true, k - 1)
      && forall q :: q in m.headers && q != p && q != b ==> q in h && h[q] == m.headers[q]
    ensures var p, b := st.lists[k][0], st.lists[k][0] + SizeOf(k - 1);
      && PopReady(m.links, p) && m.links[p].next == Head(st.lists[k][1..])
      && (Head(st.lists[k - 1]) != NULL ==> Head(st.lists[k - 1]) in PopMemory(m.links, p))
      && State(Memory(h, SplitMemory(m.links, p, Head(st.lists[k - 1]), b)), SplitAbstract(st, ctx, k), base, top)
  {
    assert SizeOf(k) == 2 * SizeOf(k - 1);
    assert OnlyInside(m.headers, h, Chunk(st.lists[k][0], k));
    SplitAgrees(st.lists, m.headers, h, m.links, st.live, st.leaked, ctx, k, base, top);
  }

  // ----- the effect of taking a block

  ghost function TakenAbstract(st: Abstract, ctx: Ctx, k: nat): Abstract
    requires k < |st.lists| && st.lists[k] != []
  {
    st.(lists := PopAt(st.lists, k), tree := Put(ctx, Live))
  }

  // The first block of level k leaves its list and becomes live: before it is
  // recorded as an allocation or leaked.
  lemma TakeAgrees(m: Memory, h: Headers, st: Abstract, ctx: Ctx, k: nat, base: Ptr, top: nat)
    requires State(m, st, base, top) && k < MAX_ORDER && st.lists[k] != []
    requires st.tree == Put(ctx, Free) && Placed(ctx, st.lists[k][0], k, base, top)
    requires OnlyInside(m.headers, h, Chunk(st.lists[k][0], k)) && TaggedLive(h, st.lists[k][0])
    ensures var p, t := st.lists[k][0], Put(ctx, Live);
      && PopReady(m.links, p) && m.links[p].next == Head(st.lists[k][1..])
      && Fits(t, top) && Lives(t, base, top) == Lives(st.tree, base, top) + {Chunk(p, k)}
      && Chunk(p, k) !in Lives(st.tree, base, top) && AllApart(Lives(st.tree, base, top), Chunk(p, k))
      && Agrees(PopAt(st.lists, k), h, PopMemory(m.links, p), Frees(t, base, top), Lives(t, base, top))
      && Records(h, st.live, st.leaked, Lives(st.tree, base, top))
  {
    var p, c := st.lists[k][0], Chunk(st.lists[k][0], k);
    var fa, la := FreesAround(ctx, p, k, base, top), LivesAround(ctx, p, k, base, top);
    TakeSets(ctx, p, k, base, top);
    AgreesPop(st.lists, m.headers, m.links, fa + {c}, la, k);
    HeadersInside(PopAt(st.lists, k), m.headers, h, PopMemory(m.links, p), fa, la, st.live, st.leaked, c);
    AgreesLive(PopAt(st.lists, k), h, PopMemory(m.links, p), fa, la, c);
  }

  lemma TakeLeak(m: Memory, h: Headers, st: Abstract, ctx: Ctx, k: nat, base: Ptr, top: nat)
    requires State(m, st, base, top) && k < MAX_ORDER && st.lists[k] != []
    requires st.tree == Put(ctx, Free) && Placed(ctx, st.lists[k][0], k, base, top)
    requires OnlyInside(m.headers, h, Chunk(st.lists[k][0], k)) && TaggedLive(h, st.lists[k][0])
    requires PopReady(m.links, st.lists[k][0])
    ensures var p, t := st.lists[k][0], TakenAbstract(st, ctx, k);
      State(Memory(h, PopMemory(m.links, p)), t.(leaked := st.leaked + {Chunk(p, k)}), base, top)
  {
    TakeAgrees(m, h, st, ctx, k, base, top);
    RecordsLeak(h, st.live, st.leaked, Lives(st.tree, base, top), Chunk(st.lists[k][0], k));
  }

  lemma TakeRecord(m: Memory, h: Headers, st: Abstract, ctx: Ctx, k: nat, base: Ptr, top: nat, ptr: Ptr, size: nat, align: nat)
    requires State(m, st, base, top) && k < MAX_ORDER && st.lists[k] != []
    requires st.tree == Put(ctx, Free) && Placed(ctx, st.lists[k][0], k, base, top)
    requires OnlyInside(m.headers, h, Chunk(st.lists[k][0], k)) && TaggedLive(h, st.lists[k][0])
    requires PopReady(m.links, st.lists[k][0])
    requires size > 0 && Record(h, ptr, Alloc(Chunk(st.lists[k][0], k), size, align))
    ensures ptr !in st.live
    ensures var p, t := st.lists[k][0], TakenAbstract(st, ctx, k);
      State(Memory(h, PopMemory(m.links, p)), t.(live := st.live[ptr := Alloc(Chunk(p, k), size, align)]), base, top)
  {
    TakeAgrees(m, h, st, ctx, k, base, top);
    RecordsAdd(h, st.live, st.leaked, Lives(st.tree, base, top), ptr, Alloc(Chunk(st.lists[k][0], k), size, align));
  }

  lemma AgreesLive(ls: Lists, h: Headers, m: LinkMemory, frees: set<Chunk>, lives: set<Chunk>, c: Chunk)
    requires Agrees(ls, h, m, frees, lives) && TaggedLive(h, c.addr)
    ensures Agrees(ls, h, m, frees, lives + {c})
  {
  }

  // ----- a block in hand: live no more, and not yet in a list

  ghost predicate Hand(m: Memory, ls: Lists, live: Allocs<Chunk>, leaked: set<Chunk>, ctx: Ctx, p: Ptr, k: nat, base: Ptr, top: nat) {
    && base != NULL && top + 1 < MAX_ORDER && base + SizeOf(top) <= WORD / 2
    && Placed(ctx, p, k, base, top) && p in m.headers
    && Agrees(ls, m.headers, m.links, FreesAround(ctx, p, k, base, top), LivesAround(ctx, p, k, base, top))
    && Records(m.headers, live, leaked, LivesAround(ctx, p, k, base, top))
  }

  lemma TakeInHand(m: Memory, h: Headers, st: Abstract, ctx: Ctx, ptr: Ptr, base: Ptr, top: nat)
    requires State(m, st, base, top) && ptr in st.live
    requires Placed(ctx, st.live[ptr].block.addr, st.live[ptr].block.level, base, top) && st.tree == Put(ctx, Live)
    requires OnlyInside(m.headers, h, st.live[ptr].block) && st.live[ptr].block.addr in h
    ensures var c := st.live[ptr].block;
      Hand(m.(headers := h), st.lists, st.live - {ptr}, st.leaked, ctx, c.addr, c.level, base, top)
  {
    var c := st.live[ptr].block;
    var fa, la := FreesAround(ctx, c.addr, c.level, base, top), LivesAround(ctx, c.addr, c.level, base, top);
    TakeSets(ctx, c.addr, c.level, base, top);
    RecordsRemove(m.headers, st.live, st.leaked, la + {c}, ptr);
    AgreesLess(st.lists, m.headers, m.links, fa, la + {c}, la);
    HeadersInside(st.lists, m.headers, h, m.links, fa, la, st.live - {ptr}, st.leaked, c);
  }

  lemma AgreesLess(ls: Lists, h: Headers, m: LinkMemory, frees: set<Chunk>, lives: set<Chunk>, lives': set<Chunk>)
    requires Agrees(ls, h, m, frees, lives) && lives' <= lives
    ensures Agrees(ls, h, m, frees, lives')
  {
  }

  // What the merge loop reads of the buddy: the address computed by exclusive or
  // is the heap's end for the whole heap; else its header is up to date, and says
  // whether the buddy is one free block, which is so exactly if it is listed.
  lemma BuddyTest(m: Memory, ls: Lists, live: Allocs<Chunk>, leaked: set<Chunk>, ctx: Ctx, p: Ptr, k: nat, base: Ptr, top: nat)
    requires Hand(m, ls, live, leaked, ctx, p, k, base, top)
    ensures base <= p && BuddyOf(base, p, k) == BuddyAddr(ctx, p, k)
    ensures var b := BuddyAddr(ctx, p, k);
      && (b >= base + SizeOf(top)) == ctx.CTop?
      && (!ctx.CTop? ==>
            && b in m.headers && k < top && b != NULL
            && (m.headers[b].Free() && m.headers[b].Order() == k) == Buddy(ctx).Free?
            && (b in ls[k]) == Buddy(ctx).Free?)
  {
    hide Records, Frees, Lives, Chains, FreesAround, LivesAround, Put, Placed;
    XorIsBuddy(ctx, p, k, base, top);
    if !ctx.CTop? {
      var d := BuddyHeader(ctx, p, k, base, top);
      SameStart(ctx, p, k, base, top, d, Chunk(d.addr, k));
    }
  }

  // One merge: the free buddy leaves its list, and the parent block is in hand.
  lemma MergeHand(m: Memory, ls: Lists, live: Allocs<Chunk>, leaked: set<Chunk>, ctx: Ctx, p: Ptr, k: nat, base: Ptr, top: nat)
    requires Hand(m, ls, live, leaked, ctx, p, k, base, top) && !ctx.CTop? && Buddy(ctx).Free?
    requires BuddyAddr(ctx, p, k) in m.headers
    ensures var b := BuddyAddr(ctx, p, k);
      && |ls| == MAX_ORDER && k < MAX_ORDER - 1
      && b in m.links && b != NULL && (m.links[b].prev != NULL ==> m.links[b].prev in m.links) && (m.links[b].next != NULL ==> m.links[b].next in m.links)
      && Head(Without(ls[k], b)) == (if Head(ls[k]) == b then m.links[b].next else Head(ls[k]))
      && Lower(p, b) == ParentAddr(ctx, p, k)
      && Hand(m.(links := UnlinkMemory(m.links, b)), UnlinkAt(ls, k, b), live, leaked, ctx.up, ParentAddr(ctx, p, k), k + 1, base, top)
  {
    var b := BuddyAddr(ctx, p, k);
    var c := Chunk(b, k);
    var fa := FreesAround(ctx, p, k, base, top);
    var fu, lu := FreesAround(ctx.up, ParentAddr(ctx, p, k), k + 1, base, top), LivesAround(ctx.up, ParentAddr(ctx, p, k), k + 1, base, top);
    PlacedWithin(ctx.up, ParentAddr(ctx, p, k), k + 1, base, top);
    AroundApart(ctx.up, ParentAddr(ctx, p, k), k + 1, base, top);
    assert SizeOf(k + 1) == 2 * SizeOf(k);
    assert c !in fu;
    assert fa == {c} + fu && LivesAround(ctx, p, k, base, top) == lu;
    assert fa - {c} == fu;
    AgreesUnlink(ls, m.headers, m.links, fa, lu, c);
  }

  lemma HandPlaced(m: Memory, ls: Lists, live: Allocs<Chunk>, leaked: set<Chunk>, ctx: Ctx, p: Ptr, k: nat, base: Ptr, top: nat)
    requires Hand(m, ls, live, leaked, ctx, p, k, base, top)
    ensures Placed(ctx, p, k, base, top) && p in m.headers && |ls| == MAX_ORDER && k < MAX_ORDER
  {
    PlacedWithin(ctx, p, k, base, top);
  }

  // What is in hand becomes a free block and joins the list of its level.
  lemma ReleaseHand(m: Memory, h: Headers, ls: Lists, live: Allocs<Chunk>, leaked: set<Chunk>, ctx: Ctx, p: Ptr, k: nat, base: Ptr, top: nat)
    requires Hand(m, ls, live, leaked, ctx, p, k, base, top)
    requires OnlyInside(m.headers, h, Chunk(p, k)) && Tagged(h, p, true, k)
    ensures |ls| == MAX_ORDER && k < MAX_ORDER && p != NULL && (Head(ls[k]) != NULL ==> Head(ls[k]) in m.links)
    ensures State(Memory(h, PushMemory(m.links, Head(ls[k]), p)), Abstract(Put(ctx, Free), PushAt(ls, k, p), live, leaked), base, top)
  {
    var fa, la := FreesAround(ctx, p, k, base, top), LivesAround(ctx, p, k, base, top);
    PlacedWithin(ctx, p, k, base, top);
    TakeSets(ctx, p, k, base, top);
    HeadersInside(ls, m.headers, h, m.links, fa, la, live, leaked, Chunk(p, k));
    AgreesPush(ls, h, m.links, fa, la, Chunk(p, k));
  }

  // ----- when an allocation succeeds

  lemma ListedIffWindow(m: Memory, st: Abstract, base: Ptr, top: nat, j: nat)
    requires State(m, st, base, top) && Canonical(st.tree) && j < MAX_ORDER
    ensures |st.lists| == MAX_ORDER && (FirstFrom(st.lists, j) < MAX_ORDER <==> SomeWindow(st.tree, base, top, j))
  {
    var k := FirstFrom(st.lists, j);
    if k < MAX_ORDER {
      var p := st.lists[k][0];
      assert p in st.lists[k];
      FreeIsClear(st.tree, base, top, Chunk(p, k), j);
      assert p in Windows(base, top, j) && Clear(p, j, Lives(st.tree, base, top));
    }
    if SomeWindow(st.tree, base, top, j) {
      var w :| w in Windows(base, top, j) && Clear(w, j, Lives(st.tree, base, top));
      var c := ClearWindow(st.tree, base, top, j, w);
      assert c.addr in st.lists[c.level];
    }
  }

  // Two canonical states with the same live blocks have the same free blocks, so
  // the same elements in their lists.
  lemma FreeSetUnique(m: Memory, st: Abstract, m': Memory, st': Abstract, base: Ptr, top: nat, k: nat, p: Ptr)
    requires State(m, st, base, top) && Canonical(st.tree) && State(m', st', base, top) && Canonical(st'.tree)
    requires Lives(st.tree, base, top) == Lives(st'.tree, base, top) && k < MAX_ORDER
    ensures st.tree == st'.tree && (p in st.lists[k] <==> p in st'.lists[k])
  {
    CanonicalUnique(st.tree, st'.tree, base, top);
  }

  // Once nothing is live, the lists are as if freshly cleared.
  lemma AllFreed(m: Memory, st: Abstract, base: Ptr, top: nat)
    requires State(m, st, base, top) && Canonical(st.tree) && st.live == map[] && st.leaked == {}
    ensures st.tree == Free && st.lists == ClearLists(MAX_ORDER, base, top)
  {
    assert Lives(st.tree, base, top) == {};
    NoLives(st.tree, base, top);
    forall k | 0 <= k < MAX_ORDER
      ensures st.lists[k] == ClearLists(MAX_ORDER, base, top)[k]
    {
      assert Chain(m.links, st.lists[k]);
      OnlyElement(st.lists[k], base, k == top);
    }
  }

  lemma OnlyElement(s: seq<Ptr>, x: Ptr, there: bool)
    requires NoDup(s) && forall p :: p in s <==> p == x && there
    ensures s == if there then [x] else []
  {
    TwoDiffer(s, x);
    forall i | 0 <= i < |s|
      ensures s[i] == x && there
    {
      assert s[i] in s;
    }
    assert |s| > 0 ==> s[0] == x && there;
    if there {
      assert x in s;
    }
  }

  lemma TwoDiffer(s: seq<Ptr>, x: Ptr)
    ensures |s| > 1 && NoDup(s) ==> s[0] != x || s[1] != x
  {
  }

  // Allocating and freeing at once changes no list, in contents or order.
  lemma FreeUndoesAlloc(m: Memory, st: Abstract, base: Ptr, top: nat, target: nat)
    requires State(m, st, base, top) && Canonical(st.tree) && target < MAX_ORDER && FirstFrom(st.lists, target) < MAX_ORDER
    ensures base <= TakenAddr(st.lists, target)
    ensures Merged(Taken(st.lists, target), base, base + SizeOf(top), TakenAddr(st.lists, target), target) == st.lists
  {
    hide Canonical, Taken, Merged, Frees, Lives, BuddyOf, Fits, Aligned;
    var k, p := FirstFrom(st.lists, target), TakenAddr(st.lists, target);
    BuddyOfListed(st, k, p, base, top);
    MergedTaken(st.lists, base, base + SizeOf(top), target);
  }

  lemma BuddyOfListed(st: Abstract, k: nat, p: Ptr, base: Ptr, top: nat)
    requires Fits(st.tree, top) && Canonical(st.tree) && Listed(st.lists, Frees(st.tree, base, top))
    requires k < MAX_ORDER && p in st.lists[k]
    ensures base <= p && Aligned(p - base, k + 5) && p + SizeOf(k) <= base + SizeOf(top)
    ensures BuddyOf(base, p, k) !in st.lists[k]
  {
    var ctx := LocateFree(CTop, st.tree, base, top, base, top, Chunk(p, k));
    PutCanonical(ctx, Free);
    PlacedAligned(ctx, p, k, base, top);
    PlacedWithin(ctx, p, k, base, top);
    XorIsBuddy(ctx, p, k, base, top);
    BuddyNotListed(st, ctx, p, k, base, top);
  }

  lemma BuddyNotListed(st: Abstract, ctx: Ctx, p: Ptr, k: nat, base: Ptr, top: nat)
    requires Placed(ctx, p, k, base, top) && Fits(st.tree, top) && st.tree == Put(ctx, Free)
    requires Listed(st.lists, Frees(st.tree, base, top)) && k < MAX_ORDER
    requires !ctx.CTop? ==> !Buddy(ctx).Free?
    ensures BuddyAddr(ctx, p, k) !in st.lists[k]
  {
    var b := BuddyAddr(ctx, p, k);
    PutChunks(ctx, Free, p, k, base, top);
    if !ctx.CTop? {
      var d := BuddyHeader(ctx, p, k, base, top);
      SameStart(ctx, p, k, base, top, d, Chunk(b, k));
    }
  }

  lemma EmptyList(heads: seq<Ptr>, m: Memory, st: Abstract, base: Ptr, top: nat, k: nat)
    requires HeadsOf(heads, st.lists) && State(m, st, base, top) && k < MAX_ORDER
    ensures |heads| == |st.lists| == MAX_ORDER && (heads[k] == NULL <==> st.lists[k] == [])
    ensures st.lists[k] != [] ==> heads[k] == st.lists[k][0]
  {
    assert Chain(m.links, st.lists[k]);
    assert st.lists[k] != [] ==> LinkedAt(m.links, st.lists[k], 0);
  }

  // One level down the cascade: the block's left half.
  lemma StepDown(ctx: Ctx, ls: Lists, p: Ptr, k: nat, base: Ptr, top: nat)
    requires Placed(ctx, p, k, base, top) && CanonicalAround(ctx) && 0 < k < |ls| && ls[k] != [] && ls[k][0] == p
    ensures var ctx', ls' := CLeft(ctx, Free), SplitLists(ls, k);
      && Placed(ctx', p, k - 1, base, top) && CanonicalAround(ctx')
      && LivesAround(ctx', p, k - 1, base, top) == LivesAround(ctx, p, k, base, top)
      && Put(ctx', Free) == Put(ctx, Split(Free, Free))
      && |ls'| == |ls| && ls'[k - 1] != [] && ls'[k - 1][0] == p
  {
  }

  lemma TakeReady(m: Memory, st: Abstract, k: nat, base: Ptr, top: nat)
    requires State(m, st, base, top) && k < MAX_ORDER && st.lists[k] != []
    ensures var p := st.lists[k][0];
      && p in m.headers && PopReady(m.links, p) && m.links[p].next == Head(st.lists[k][1..])
      && Chunk(p, k) in Frees(st.tree, base, top) && k <= top && base <= p && p + SizeOf(k) <= base + SizeOf(top) <= WORD / 2
  {
    var p := st.lists[k][0];
    AgreesPop(st.lists, m.headers, m.links, Frees(st.tree, base, top), Lives(st.tree, base, top), k);
    ChunksWithin(st.tree, base, top);
    assert Chunk(p, k) in Chunks(st.tree, base, top);
  }

  // The data of a block large enough for size, alignment and header lies in it.
  lemma DataInBlock(block: Ptr, align: nat, size: nat, order: nat)
    requires IsPow2(align) && size + align + HEADER <= SizeOf(order) && block + SizeOf(order) <= WORD / 2
    ensures align <= WORD
    ensures var data := AlignUp(block + HEADER, align);
      block + HEADER <= data && data + size <= block + SizeOf(order) && data % align == 0
  {
    hide AlignUp, And, Pow2, Log2;
    IsPow2Log2(align);
    var k := Log2(align);
    if k > 64 {
      WordIsPow2();
      Pow2Mono(64, k);
    }
    AlignUpSpec(block + HEADER, k);
  }

  // Whether the 16 bits lead from the data back to the block.
  predicate OffsetFits(block: Ptr, align: nat)
    requires 0 < align <= WORD
  {
    var way := AlignUp(block + HEADER, align) - block;
    Stored(way) == way
  }

  // Up to an alignment of 32768 the way back always fits into its 16 bits.
  lemma ShortOffset(block: Ptr, align: nat)
    requires IsPow2(align) && align <= 0x8000 && block <= WORD / 2
    ensures OffsetFits(block, align)
  {
    hide AlignUp, And, Pow2, Log2;
    IsPow2Log2(align);
    WordIsPow2();
    var k := Log2(align);
    Pow2Order(64, k);
    AlignUpSpec(block + HEADER, k);
  }

  // From 65536 on it never does if the block itself is aligned; then the block is
  // lost until the next clear.
  lemma LongOffset(block: Ptr, align: nat)
    requires IsPow2(align) && 0x1_0000 <= align && block + HEADER + align <= WORD && block % align == 0
    ensures AlignUp(block + HEADER, align) - block == align && !OffsetFits(block, align)
  {
    hide AlignUp, And, Pow2, Log2;
    IsPow2Log2(align);
    WordIsPow2();
    var k := Log2(align);
    Pow2Order(64, k);
    AlignUpSpec(block + HEADER, k);
    NextMultiple(block, AlignUp(block + HEADER, align), align);
  }

  lemma NextMultiple(a: nat, b: nat, d: nat)
    requires d > 0 && a % d == 0 && b % d == 0 && a < b < a + HEADER + d && HEADER <= d
    ensures b == a + d
  {
    hide *;
    ModSub(b, a, d);
    if b > a + d {
      ModIs(d, d, 1, 0);
      ModAdd(a, d, d);
      ModSub(b, a + d, d);
    }
  }

  // No block can be lost exactly if the alignment is at most 32768.
  lemma NoneLost(align: nat)
    requires IsPow2(align) && align <= WORD / 2
    ensures (forall block: Ptr :: block <= WORD / 4 ==> OffsetFits(block, align)) <==> align <= 0x8000
  {
    hide AlignUp, And, Pow2, Log2;
    if align <= 0x8000 {
      forall block: Ptr | block <= WORD / 4
        ensures OffsetFits(block, align)
      {
        ShortOffset(block, align);
      }
    } else {
      BeyondShort(align);
      LongOffset(0, align);
      assert !OffsetFits(0, align);
    }
  }

  lemma BeyondShort(align: nat)
    requires IsPow2(align) && align > 0x8000
    ensures align >= 0x1_0000
  {
    hide And, Pow2, Log2;
    IsPow2Log2(align);
    SmallPowers();
    Pow2Add(8, 8);
    Pow2Step(15);
    Pow2Order(15, Log2(align));
    Pow2Mono(16, Log2(align));
  }

  // ----- what the two operations promise

  // What alloc_raw lets through.
  predicate GoodRequest(size: nat, align: nat) {
    IsPow2(align) && size > 0 && size + align + HEADER < WORD
  }

  // An allocation that is let through: null and no change exactly if every window
  // of the target order meets a live block; else one block becomes live, and it
  // is handed out unless the way back to it does not fit into 16 bits.
  ghost predicate Allocated(st: Abstract, st': Abstract, ptr: Ptr, size: nat, align: nat, base: Ptr, top: nat)
    requires Fits(st.tree, top) && Fits(st'.tree, top) && |st.lists| == MAX_ORDER && 0 < align <= WORD
  {
    var target := SizeToOrder(size + align + HEADER);
    && 0 <= target < MAX_ORDER
    && if !SomeWindow(st.tree, base, top, target) then
         ptr == NULL && st' == st
       else
         && FirstFrom(st.lists, target) < MAX_ORDER
         && var c := Chunk(TakenAddr(st.lists, target), target);
         && st'.lists == Taken(st.lists, target)
         && c !in Lives(st.tree, base, top) && Lives(st'.tree, base, top) == Lives(st.tree, base, top) + {c}
         && HandedOut(st, st', ptr, c, size, align)
  }

  ghost predicate HandedOut(st: Abstract, st': Abstract, ptr: Ptr, c: Chunk, size: nat, align: nat)
    requires 0 < align <= WORD
  {
    var data := AlignUp(c.addr + HEADER, align);
    if Stored(data - c.addr) == data - c.addr then
      && ptr == data && ptr % align == 0 && ptr !in st.live
      && st'.live == st.live[ptr := Alloc(c, size, align)] && st'.leaked == st.leaked
    else
      ptr == NULL && st'.live == st.live && st'.leaked == st.leaked + {c}
  }

  lemma RequestOrder(size: nat, align: nat)
    requires GoodRequest(size, align) && size + align + 2 * HEADER <= MAX_BLOCK_SIZE
    ensures align <= WORD
    ensures var target := SizeToOrder(size + align + HEADER);
      0 <= target < MAX_ORDER && size + align + HEADER <= SizeOf(target)
  {
    SizeToOrderLeast(size + align + HEADER);
    LargestBlock();
  }

  // What popping the block and writing its headers comes to.
  ghost predicate TakeResult(st: Abstract, st': Abstract, ptr: Ptr, ctx: Ctx, target: nat, size: nat, align: nat)
    requires target < |st.lists| && st.lists[target] != [] && 0 < align <= WORD
  {
    && st'.lists == PopAt(st.lists, target) && st'.tree == Put(ctx, Live)
    && HandedOut(st, st', ptr, Chunk(st.lists[target][0], target), size, align)
  }

  lemma StateFits(m: Memory, st: Abstract, base: Ptr, top: nat)
    requires State(m, st, base, top)
    ensures Fits(st.tree, top)
  {
  }

  lemma TakeDone(m: Memory, h: Headers, st: Abstract, ctx: Ctx, k: nat, base: Ptr, top: nat, size: nat, align: nat, data: Ptr)
    returns (st': Abstract)
    requires State(m, st, base, top) && k < MAX_ORDER == |st.lists| && st.lists[k] != []
    requires st.tree == Put(ctx, Free) && Placed(ctx, st.lists[k][0], k, base, top)
    requires OnlyInside(m.headers, h, Chunk(st.lists[k][0], k)) && TaggedLive(h, st.lists[k][0])
    requires PopReady(m.links, st.lists[k][0])
    requires 0 < align <= WORD && data == AlignUp(st.lists[k][0] + HEADER, align) && data % align == 0 && size > 0
    requires data >= st.lists[k][0]
    requires data - st.lists[k][0] <= OFFSET_MAX ==> Record(h, data, Alloc(Chunk(st.lists[k][0], k), size, align))
    ensures State(Memory(h, PopMemory(m.links, st.lists[k][0])), st', base, top)
    ensures TakeResult(st, st', if data - st.lists[k][0] <= OFFSET_MAX then data else NULL, ctx, k, size, align)
    ensures st'.lists == PopAt(st.lists, k)
  {
    hide State, Record, AlignUp, Put, Placed, OnlyInside, PopMemory, Stored;
    var t, c := TakenAbstract(st, ctx, k), Chunk(st.lists[k][0], k);
    StoredIs(data - c.addr);
    if data - c.addr <= OFFSET_MAX {
      TakeRecord(m, h, st, ctx, k, base, top, data, size, align);
      st' := t.(live := st.live[data := Alloc(c, size, align)]);
    } else {
      TakeLeak(m, h, st, ctx, k, base, top);
      st' := t.(leaked := st.leaked + {c});
    }
  }

  lemma AllocationRefused(m: Memory, st: Abstract, size: nat, align: nat, base: Ptr, top: nat)
    requires State(m, st, base, top) && Canonical(st.tree)
    requires GoodRequest(size, align) && size + align + 2 * HEADER <= MAX_BLOCK_SIZE
    requires align <= WORD && 0 <= SizeToOrder(size + align + HEADER) < MAX_ORDER
    requires FirstFrom(st.lists, SizeToOrder(size + align + HEADER)) == MAX_ORDER
    ensures Allocated(st, st, NULL, size, align, base, top)
  {
    ListedIffWindow(m, st, base, top, SizeToOrder(size + align + HEADER));
  }

  lemma AllocationDone(m: Memory, st: Abstract, mid: Abstract, st': Abstract, ctx0: Ctx, ctx: Ctx, ptr: Ptr,
                       size: nat, align: nat, base: Ptr, top: nat)
    requires State(m, st, base, top) && Canonical(st.tree) && Fits(st'.tree, top)
    requires GoodRequest(size, align) && size + align + 2 * HEADER <= MAX_BLOCK_SIZE
    requires align <= WORD && 0 <= SizeToOrder(size + align + HEADER) < MAX_ORDER
    requires FirstFrom(st.lists, SizeToOrder(size + align + HEADER)) < MAX_ORDER
    requires var target := SizeToOrder(size + align + HEADER);
      var k := FirstFrom(st.lists, target);
      var p := st.lists[k][0];
      && Placed(ctx0, p, k, base, top) && st.tree == Put(ctx0, Free)
      && Placed(ctx, p, target, base, top) && CanonicalAround(ctx)
      && LivesAround(ctx, p, target, base, top) == LivesAround(ctx0, p, k, base, top)
      && mid.lists == Cascade(st.lists, k, target) && mid.live == st.live && mid.leaked == st.leaked
      && TakeResult(mid, st', ptr, ctx, target, size, align)
    ensures Canonical(st'.tree) && Allocated(st, st', ptr, size, align, base, top)
  {
    hide State, Agrees, Records, Frees, Lives, FreesAround, LivesAround, Put, Placed, Cascade, SizeToOrder, AlignUp, IsPow2, Pow2;
    var target := SizeToOrder(size + align + HEADER);
    var k := FirstFrom(st.lists, target);
    ListedIffWindow(m, st, base, top, target);
    PutCanonical(ctx, Live);
    TakeSets(ctx, st.lists[k][0], target, base, top);
    TakeSets(ctx0, st.lists[k][0], k, base, top);
  }

  lemma LocateListed(m: Memory, st: Abstract, k: nat, base: Ptr, top: nat) returns (ctx: Ctx)
    requires State(m, st, base, top) && Canonical(st.tree) && k < MAX_ORDER && st.lists[k] != []
    ensures Placed(ctx, st.lists[k][0], k, base, top) && st.tree == Put(ctx, Free) && CanonicalAround(ctx)
  {
    assert st.lists[k][0] in st.lists[k];
    ctx := LocateFree(CTop, st.tree, base, top, base, top, Chunk(st.lists[k][0], k));
    PutCanonical(ctx, Free);
  }

  // A deallocation: the block is live no more, and is merged as far as possible.
  ghost predicate Deallocated(st: Abstract, st': Abstract, ptr: Ptr, base: Ptr, top: nat)
    requires Fits(st.tree, top) && Fits(st'.tree, top) && |st.lists| == MAX_ORDER && ptr in st.live
  {
    var c := st.live[ptr].block;
    && base <= c.addr && c.level < MAX_ORDER
    && st'.lists == Merged(st.lists, base, base + SizeOf(top), c.addr, c.level)
    && c in Lives(st.tree, base, top) && Lives(st'.tree, base, top) == Lives(st.tree, base, top) - {c}
    && st'.live == st.live - {ptr} && st'.leaked == st.leaked
  }

  // One look at the buddy: either it merges, or the loop ends here.
  lemma MergeDecision(m: Memory, ls: Lists, live: Allocs<Chunk>, leaked: set<Chunk>, ctx: Ctx, p: Ptr, k: nat, base: Ptr, top: nat)
    requires Hand(m, ls, live, leaked, ctx, p, k, base, top) && CanonicalAround(ctx)
    ensures |ls| == MAX_ORDER && base <= p && k < MAX_ORDER - 1
    ensures var b, end := BuddyOf(base, p, k), base + SizeOf(top);
      if b < end && b in m.headers && m.headers[b].Free() && m.headers[b].Order() == k then
        && !ctx.CTop? && Buddy(ctx).Free? && b == BuddyAddr(ctx, p, k)
        && Merged(ls, base, end, p, k) == Merged(UnlinkAt(ls, k, b), base, end, Lower(p, b), k + 1)
      else
        Merged(ls, base, end, p, k) == PushAt(ls, k, p) && Canonical(Put(ctx, Free))
    ensures BuddyOf(base, p, k) < base + SizeOf(top) ==> BuddyOf(base, p, k) in m.headers
  {
    BuddyTest(m, ls, live, leaked, ctx, p, k, base, top);
    PlacedWithin(ctx, p, k, base, top);
    PutCanonical(ctx, Free);
  }

  // The headers lead back from the data to the block.
  lemma RecordFound(m: Memory, st: Abstract, ptr: Ptr, base: Ptr, top: nat) returns (ctx: Ctx)
    requires State(m, st, base, top) && Canonical(st.tree) && ptr in st.live
    ensures Fits(st.tree, top) && |st.lists| == MAX_ORDER
    ensures var c := st.live[ptr].block;
      && Record(m.headers, ptr, st.live[ptr]) && c.addr in m.headers && c.level < MAX_ORDER && base <= c.addr
      && c in Lives(st.tree, base, top)
      && Placed(ctx, c.addr, c.level, base, top) && st.tree == Put(ctx, Live) && CanonicalAround(ctx)
  {
    var c := st.live[ptr].block;
    assert c in BlocksOf(st.live);
    assert TaggedLive(m.headers, c.addr);
    ctx := LocateLive(CTop, st.tree, base, top, base, top, c);
    PutCanonical(ctx, Live);
    PlacedWithin(ctx, c.addr, c.level, base, top);
  }

  lemma LivesOfMerged(ctx: Ctx, p: Ptr, k: nat, base: Ptr, top: nat)
    requires Placed(ctx, p, k, base, top) && !ctx.CTop? && Buddy(ctx).Free?
    ensures Placed(ctx.up, ParentAddr(ctx, p, k), k + 1, base, top)
    ensures LivesAround(ctx.up, ParentAddr(ctx, p, k), k + 1, base, top) == LivesAround(ctx, p, k, base, top)
    ensures CanonicalAround(ctx) ==> CanonicalAround(ctx.up)
  {
  }

  // The allocation at ptr is live no more, and its block is in hand.
  ghost predicate Returned(m: Memory, st: Abstract, ctx: Ctx, ptr: Ptr, base: Ptr, top: nat) {
    && ptr in st.live && st.tree == Put(ctx, Live) && CanonicalAround(ctx)
    && var c := st.live[ptr].block;
    && Hand(m, st.lists, st.live - {ptr}, st.leaked, ctx, c.addr, c.level, base, top)
  }

  lemma ReturnedHand(m: Memory, st: Abstract, ctx: Ctx, ptr: Ptr, base: Ptr, top: nat)
    requires Returned(m, st, ctx, ptr, base, top)
    ensures var c := st.live[ptr].block;
      && Hand(m, st.lists, st.live - {ptr}, st.leaked, ctx, c.addr, c.level, base, top)
      && Placed(ctx, c.addr, c.level, base, top) && CanonicalAround(ctx) && Put(ctx, Live) == st.tree
  {
  }

  lemma DeallocationDone(st: Abstract, ls: Lists, ctx0: Ctx, ctx: Ctx, ptr: Ptr, p: Ptr, k: nat, base: Ptr, top: nat)
    requires ptr in st.live && Fits(st.tree, top) && |st.lists| == MAX_ORDER
    requires var c := st.live[ptr].block;
      && c.level < MAX_ORDER && base <= c.addr
      && Placed(ctx0, c.addr, c.level, base, top) && st.tree == Put(ctx0, Live)
      && Placed(ctx, p, k, base, top)
      && LivesAround(ctx, p, k, base, top) == LivesAround(ctx0, c.addr, c.level, base, top)
      && ls == Merged(st.lists, base, base + SizeOf(top), c.addr, c.level)
    ensures Fits(Put(ctx, Free), top)
    ensures Deallocated(st, Abstract(Put(ctx, Free), ls, st.live - {ptr}, st.leaked), ptr, base, top)
  {
    var c := st.live[ptr].block;
    TakeSets(ctx0, c.addr, c.level, base, top);
    TakeSets(ctx, p, k, base, top);
  }

  // The ranges handed out are aligned, lie inside the heap and do not overlap.
  lemma RangesDisjoint(m: Memory, st: Abstract, base: Ptr, top: nat, p: Ptr, q: Ptr)
    requires State(m, st, base, top) && p in st.live && q in st.live && p != q
    ensures base <= p && p + st.live[p].size <= base + SizeOf(top) && st.live[p].align > 0 && p % st.live[p].align == 0
    ensures p + st.live[p].size <= q || q + st.live[q].size <= p
  {
    hide Agrees, Frees, Lives;
    ChunksApart(st.tree, base, top);
    ChunksWithin(st.tree, base, top);
    assert st.live[p].block in BlocksOf(st.live) && st.live[q].block in BlocksOf(st.live);
    assert st.live[p].block in Chunks(st.tree, base, top) && st.live[q].block in Chunks(st.tree, base, top);
    assert Apart(st.live[p].block, st.live[q].block);
    assert Record(m.headers, p, st.live[p]) && Record(m.headers, q, st.live[q]);
  }

  // Freeing at once what was allocated restores every list, contents and order.
  lemma FreeAfterAlloc(m: Memory, st: Abstract, st': Abstract, st'': Abstract, ptr: Ptr, size: nat, align: nat, base: Ptr, top: nat)
    requires State(m, st, base, top) && Canonical(st.tree) && Fits(st'.tree, top) && Fits(st''.tree, top)
    requires |st.lists| == |st'.lists| == MAX_ORDER && 0 < align <= WORD && ptr != NULL && ptr in st'.live
    requires Allocated(st, st', ptr, size, align, base, top) && Deallocated(st', st'', ptr, base, top)
    ensures st''.lists == st.lists && st''.live == st.live && st''.leaked == st.leaked
    ensures Lives(st''.tree, base, top) == Lives(st.tree, base, top)
  {
    hide State, Canonical, Fits, Lives, SomeWindow, SizeToOrder, AlignUp, Merged, Taken, IsPow2;
    var target := SizeToOrder(size + align + HEADER);
    FreeUndoesAlloc(m, st, base, top, target);
    assert st'.live - {ptr} == st.live;
  }

  // ----- the cleared state

  lemma ClearedState(h: Headers, m: LinkMemory, base: Ptr, top: nat)
    requires base != NULL && top + 1 < MAX_ORDER && base + SizeOf(top) <= WORD / 2
    requires Tagged(h, base, true, top) && base in m && m[base] == Link(NULL, NULL)
    ensures State(Memory(h, m), Abstract(Free, ClearLists(MAX_ORDER, base, top), map[], {}), base, top)
  {
    var ls := ClearLists(MAX_ORDER, base, top);
    assert BlocksOf<Chunk>(map[]) == {};
    assert LinkedAt(m, [base], 0);
    forall k | 0 <= k < MAX_ORDER
      ensures Chain(m, ls[k])
    {
    }
    forall k, p | 0 <= k < MAX_ORDER
      ensures p in ls[k] <==> Chunk(p, k) in {Chunk(base, top)}
    {
    }
  }

  lemma TopOrder(top: nat)
    ensures SizeToOrder(SizeOf(top)) == top + 1
  {
    SizeToOrderLeast(SizeOf(top));
    var r := SizeToOrder(SizeOf(top));
    assert SizeOf(top + 1) == 2 * SizeOf(top);
    Pow2Mono(5, top + 5);
    assert Pow2(5) == 32;
    if r <= top {
      Pow2Mono(r + 5, top + 5);
    }
  }

  // The heap: a power of two and a multiple of the page size.
  lemma HeapSize(size: nat, pageSize: nat) returns (top: nat)
    requires 32 <= size <= Pow2(62) && IsPow2(pageSize) && 32 <= pageSize <= Pow2(62)
    ensures pageSize <= WORD
    ensures var total := AlignUp(BitCeil(size), pageSize);
      total == SizeOf(top) && HeapFor(total, size, pageSize) && SizeToOrder(total) == top + 1
  {
    top := RoundedHeap(size, pageSize);
    TopOrder(top);
  }
}
