// The binary tree of blocks behind the buddy and the segregated allocator: a
// block of level k has 32 * 2^k bytes and is live, free, or split in two.
module BuddyTree {
  import opened Bits

  datatype Block = Live | Free | Split(left: Block, right: Block)

  // A whole block: where it starts and its level.
  datatype Chunk = Chunk(addr: nat, level: nat)

  function SizeOf(level: nat): (r: nat)
    ensures r > 0
  {
    Pow2(level + 5)
  }

  ghost predicate Fits(t: Block, level: nat) {
    t.Split? ==> level > 0 && Fits(t.left, level - 1) && Fits(t.right, level - 1)
  }

  ghost function Frees(t: Block, at: nat, level: nat): set<Chunk>
    requires Fits(t, level)
  {
    match t
    case Live => {}
    case Free => {Chunk(at, level)}
    case Split(l, r) => Frees(l, at, level - 1) + Frees(r, at + SizeOf(level - 1), level - 1)
  }

  ghost function Lives(t: Block, at: nat, level: nat): set<Chunk>
    requires Fits(t, level)
  {
    match t
    case Live => {Chunk(at, level)}
    case Free => {}
    case Split(l, r) => Lives(l, at, level - 1) + Lives(r, at + SizeOf(level - 1), level - 1)
  }

  ghost function Chunks(t: Block, at: nat, level: nat): set<Chunk>
    requires Fits(t, level)
  {
    Frees(t, at, level) + Lives(t, at, level)
  }

  // No free block has a free buddy.
  ghost predicate Canonical(t: Block) {
    t.Split? ==> Canonical(t.left) && Canonical(t.right) && !(t.left.Free? && t.right.Free?)
  }

  ghost predicate Apart(c: Chunk, d: Chunk) {
    c.addr + SizeOf(c.level) <= d.addr || d.addr + SizeOf(d.level) <= c.addr
  }

  ghost predicate Within(c: Chunk, at: nat, level: nat) {
    c.level <= level && at <= c.addr && c.addr + SizeOf(c.level) <= at + SizeOf(level)
  }

  // ----- geometry

  lemma {:induction false} ChunksWithin(t: Block, at: nat, level: nat)
    requires Fits(t, level)
    ensures forall c :: c in Chunks(t, at, level) ==> Within(c, at, level)
    ensures t.Split? ==> forall c :: c in Chunks(t, at, level) ==> c.level < level
  {
    if t.Split? {
      assert Chunks(t, at, level) == Chunks(t.left, at, level - 1) + Chunks(t.right, at + SizeOf(level - 1), level - 1);
      ChunksWithin(t.left, at, level - 1);
      ChunksWithin(t.right, at + SizeOf(level - 1), level - 1);
    } else {
      assert Chunks(t, at, level) == {Chunk(at, level)};
    }
  }

  // The blocks of a tree do not overlap, and no block is both free and live.
  lemma {:induction false} ChunksApart(t: Block, at: nat, level: nat)
    requires Fits(t, level)
    ensures forall c, d :: c in Chunks(t, at, level) && d in Chunks(t, at, level) && c != d ==> Apart(c, d)
    ensures Frees(t, at, level) !! Lives(t, at, level)
  {
    if t.Split? {
      var mid := at + SizeOf(level - 1);
      ChunksApart(t.left, at, level - 1);
      ChunksApart(t.right, mid, level - 1);
      ChunksWithin(t.left, at, level - 1);
      ChunksWithin(t.right, mid, level - 1);
    }
  }

  // A tree's first block starts where the tree starts; it is the whole tree
  // unless the tree is split.
  lemma {:induction false} FirstChunk(t: Block, at: nat, level: nat) returns (c: Chunk)
    requires Fits(t, level)
    ensures c in Chunks(t, at, level) && c.addr == at
    ensures if t.Split? then c.level < level else c.level == level
  {
    if t.Split? {
      c := FirstChunk(t.left, at, level - 1);
    } else {
      c := Chunk(at, level);
    }
  }

  // ----- the unique canonical tree of a set of live blocks

  lemma {:induction false} NoLives(t: Block, at: nat, level: nat)
    requires Fits(t, level) && Canonical(t) && Lives(t, at, level) == {}
    ensures t == Free
  {
    if t.Split? {
      NoLives(t.left, at, level - 1);
      NoLives(t.right, at + SizeOf(level - 1), level - 1);
    }
  }

  lemma LivesOfHalves(t: Block, at: nat, level: nat)
    requires Fits(t, level) && t.Split?
    ensures var mid, lives := at + SizeOf(level - 1), Lives(t, at, level);
      && Lives(t.left, at, level - 1) == (set c | c in lives && c.addr < mid)
      && Lives(t.right, mid, level - 1) == (set c | c in lives && c.addr >= mid)
  {
    ChunksWithin(t.left, at, level - 1);
    ChunksWithin(t.right, at + SizeOf(level - 1), level - 1);
  }

  // Which blocks are free is a function of which are live.
  lemma {:induction false} CanonicalUnique(t: Block, u: Block, at: nat, level: nat)
    requires Fits(t, level) && Canonical(t) && Fits(u, level) && Canonical(u)
    requires Lives(t, at, level) == Lives(u, at, level)
    ensures t == u
  {
    if Lives(t, at, level) == {} {
      NoLives(t, at, level);
      NoLives(u, at, level);
    } else {
      ChunksWithin(t, at, level);
      ChunksWithin(u, at, level);
      if t.Split? && u.Split? {
        LivesOfHalves(t, at, level);
        LivesOfHalves(u, at, level);
        CanonicalUnique(t.left, u.left, at, level - 1);
        CanonicalUnique(t.right, u.right, at + SizeOf(level - 1), level - 1);
      } else if t.Split? {
        assert false;
      } else if u.Split? {
        assert false;
      }
    }
  }

  // ----- naturally aligned windows

  // The places in a block where a block of level j could lie.
  ghost function Windows(at: nat, level: nat, j: nat): set<nat>
    requires j <= level
    decreases level
  {
    if j == level then {at} else Windows(at, level - 1, j) + Windows(at + SizeOf(level - 1), level - 1, j)
  }

  lemma {:induction false} SizeMultiple(level: nat, j: nat)
    requires j <= level
    ensures SizeOf(level) % SizeOf(j) == 0
  {
    if j == level {
      ModIs(SizeOf(level), SizeOf(j), 1, 0);
    } else {
      SizeMultiple(level - 1, j);
      ModAdd(SizeOf(level - 1), SizeOf(level - 1), SizeOf(j));
    }
  }

  // They are the addresses at a multiple of their size from the block's start.
  lemma {:induction false} WindowsAre(at: nat, level: nat, j: nat, w: nat)
    requires j <= level
    ensures w in Windows(at, level, j) <==>
      at <= w && w + SizeOf(j) <= at + SizeOf(level) && (w - at) % SizeOf(j) == 0
    decreases level
  {
    var mid := at + if level == 0 then 0 else SizeOf(level - 1);
    if j == level {
      if at <= w && w + SizeOf(j) <= at + SizeOf(level) {
        assert w == at;
      }
    } else {
      WindowsAre(at, level - 1, j, w);
      WindowsAre(mid, level - 1, j, w);
      SizeMultiple(level - 1, j);
      assert SizeOf(level) == 2 * SizeOf(level - 1);
      if at <= w && (w - at) % SizeOf(j) == 0 {
        if w < mid {
          ModSub(mid - at, w - at, SizeOf(j));
        } else {
          ModSub(w - at, mid - at, SizeOf(j));
        }
      }
      if mid <= w && (w - mid) % SizeOf(j) == 0 {
        ModAdd(w - mid, mid - at, SizeOf(j));
      }
    }
  }

  // No live block has a byte in the window.
  ghost predicate Clear(w: nat, j: nat, lives: set<Chunk>) {
    forall c :: c in lives ==> Apart(Chunk(w, j), c)
  }

  // A clear window lies in one free block, if no two free blocks are buddies.
  lemma {:induction false} ClearWindow(t: Block, at: nat, level: nat, j: nat, w: nat) returns (c: Chunk)
    requires Fits(t, level) && Canonical(t) && j <= level
    requires w in Windows(at, level, j) && Clear(w, j, Lives(t, at, level))
    ensures c in Frees(t, at, level) && j <= c.level && Within(Chunk(w, j), c.addr, c.level)
  {
    WindowsAre(at, level, j, w);
    if t.Split? {
      var mid := at + SizeOf(level - 1);
      if j == level {
        ChunksWithin(t, at, level);
        forall d | d in Lives(t, at, level)
          ensures false
        {
          assert false;
        }
        NoLives(t, at, level);
      } else if w in Windows(at, level - 1, j) {
        c := ClearWindow(t.left, at, level - 1, j, w);
      } else {
        c := ClearWindow(t.right, mid, level - 1, j, w);
      }
    } else {
      c := Chunk(at, level);
    }
  }

  // A free block starts with a clear window of every level up to its own.
  lemma FreeIsClear(t: Block, at: nat, level: nat, c: Chunk, j: nat)
    requires Fits(t, level) && c in Frees(t, at, level) && j <= c.level
    ensures j <= level && c.addr in Windows(at, level, j) && Clear(c.addr, j, Lives(t, at, level))
  {
    ChunksWithin(t, at, level);
    ChunksApart(t, at, level);
    Pow2Mono(j + 5, c.level + 5);
    assert c in Chunks(t, at, level);
    FreeAtWindow(t, at, level, c, j);
    forall d | d in Lives(t, at, level)
      ensures Apart(Chunk(c.addr, j), d)
    {
      assert d in Chunks(t, at, level) && d != c;
      assert Apart(c, d);
    }
  }

  lemma {:induction false} FreeAtWindow(t: Block, at: nat, level: nat, c: Chunk, j: nat)
    requires Fits(t, level) && c in Frees(t, at, level) && j <= c.level <= level
    ensures c.addr in Windows(at, level, j)
  {
    if t.Split? {
      ChunksWithin(t, at, level);
      assert c in Chunks(t, at, level);
      if c in Frees(t.left, at, level - 1) {
        FreeAtWindow(t.left, at, level - 1, c, j);
      } else {
        FreeAtWindow(t.right, at + SizeOf(level - 1), level - 1, c, j);
      }
    } else {
      FirstWindow(at, level, j);
    }
  }

  lemma {:induction false} FirstWindow(at: nat, level: nat, j: nat)
    requires j <= level
    ensures at in Windows(at, level, j)
    decreases level
  {
    if j < level {
      FirstWindow(at, level - 1, j);
    }
  }

  // ----- the way to a block

  // The tree around one block: for each step up, the buddy's subtree.
  datatype Ctx = CTop | CLeft(up: Ctx, right: Block) | CRight(up: Ctx, left: Block)

  ghost function Put(ctx: Ctx, t: Block): Block {
    match ctx
    case CTop => t
    case CLeft(up, r) => Put(up, Split(t, r))
    case CRight(up, l) => Put(up, Split(l, t))
  }

  ghost function Buddy(ctx: Ctx): Block
    requires !ctx.CTop?
  {
    if ctx.CLeft? then ctx.right else ctx.left
  }

  // The block is at addr and of the given level, in a heap of level top at base.
  ghost predicate Placed(ctx: Ctx, addr: nat, level: nat, base: nat, top: nat) {
    match ctx
    case CTop => addr == base && level == top
    case CLeft(up, r) => Fits(r, level) && Placed(up, addr, level + 1, base, top)
    case CRight(up, l) => Fits(l, level) && addr >= SizeOf(level) && Placed(up, addr - SizeOf(level), level + 1, base, top)
  }

  ghost function BuddyAddr(ctx: Ctx, addr: nat, level: nat): nat
    requires ctx.CRight? ==> addr >= SizeOf(level)
  {
    if ctx.CRight? then addr - SizeOf(level) else addr + SizeOf(level)
  }

  ghost function ParentAddr(ctx: Ctx, addr: nat, level: nat): nat
    requires ctx.CRight? ==> addr >= SizeOf(level)
  {
    if ctx.CRight? then addr - SizeOf(level) else addr
  }

  // The free and the live blocks around the block.
  ghost function FreesAround(ctx: Ctx, addr: nat, level: nat, base: nat, top: nat): set<Chunk>
    requires Placed(ctx, addr, level, base, top)
  {
    if ctx.CTop? then
      {}
    else
      Frees(Buddy(ctx), BuddyAddr(ctx, addr, level), level) +
      FreesAround(ctx.up, ParentAddr(ctx, addr, level), level + 1, base, top)
  }

  ghost function LivesAround(ctx: Ctx, addr: nat, level: nat, base: nat, top: nat): set<Chunk>
    requires Placed(ctx, addr, level, base, top)
  {
    if ctx.CTop? then
      {}
    else
      Lives(Buddy(ctx), BuddyAddr(ctx, addr, level), level) +
      LivesAround(ctx.up, ParentAddr(ctx, addr, level), level + 1, base, top)
  }

  lemma {:induction false} PutFits(ctx: Ctx, t: Block, addr: nat, level: nat, base: nat, top: nat)
    requires Placed(ctx, addr, level, base, top) && Fits(t, level)
    ensures Fits(Put(ctx, t), top)
  {
    match ctx
    case CTop =>
    case CLeft(up, r) => PutFits(up, Split(t, r), addr, level + 1, base, top);
    case CRight(up, l) => PutFits(up, Split(l, t), addr - SizeOf(level), level + 1, base, top);
  }

  lemma {:induction false} PutFrees(ctx: Ctx, t: Block, addr: nat, level: nat, base: nat, top: nat)
    requires Placed(ctx, addr, level, base, top) && Fits(t, level) && Fits(Put(ctx, t), top)
    ensures Frees(Put(ctx, t), base, top) == FreesAround(ctx, addr, level, base, top) + Frees(t, addr, level)
  {
    if !ctx.CTop? {
      var s := if ctx.CLeft? then Split(t, ctx.right) else Split(ctx.left, t);
      var parent, buddy := ParentAddr(ctx, addr, level), BuddyAddr(ctx, addr, level);
      PutFrees(ctx.up, s, parent, level + 1, base, top);
      assert Frees(s, parent, level + 1) == Frees(t, addr, level) + Frees(Buddy(ctx), buddy, level);
    }
  }

  lemma {:induction false} PutLives(ctx: Ctx, t: Block, addr: nat, level: nat, base: nat, top: nat)
    requires Placed(ctx, addr, level, base, top) && Fits(t, level) && Fits(Put(ctx, t), top)
    ensures Lives(Put(ctx, t), base, top) == LivesAround(ctx, addr, level, base, top) + Lives(t, addr, level)
  {
    if !ctx.CTop? {
      var s := if ctx.CLeft? then Split(t, ctx.right) else Split(ctx.left, t);
      var parent, buddy := ParentAddr(ctx, addr, level), BuddyAddr(ctx, addr, level);
      PutLives(ctx.up, s, parent, level + 1, base, top);
      assert Lives(s, parent, level + 1) == Lives(t, addr, level) + Lives(Buddy(ctx), buddy, level);
    }
  }

  // The blocks of the whole are those around and those of the block itself.
  lemma PutChunks(ctx: Ctx, t: Block, addr: nat, level: nat, base: nat, top: nat)
    requires Placed(ctx, addr, level, base, top) && Fits(t, level)
    ensures Fits(Put(ctx, t), top)
    ensures Frees(Put(ctx, t), base, top) == FreesAround(ctx, addr, level, base, top) + Frees(t, addr, level)
    ensures Lives(Put(ctx, t), base, top) == LivesAround(ctx, addr, level, base, top) + Lives(t, addr, level)
  {
    PutFits(ctx, t, addr, level, base, top);
    PutFrees(ctx, t, addr, level, base, top);
    PutLives(ctx, t, addr, level, base, top);
  }

  lemma {:induction false} PlacedWithin(ctx: Ctx, addr: nat, level: nat, base: nat, top: nat)
    requires Placed(ctx, addr, level, base, top)
    ensures Within(Chunk(addr, level), base, top)
  {
    if !ctx.CTop? {
      assert SizeOf(level + 1) == 2 * SizeOf(level);
      PlacedWithin(ctx.up, ParentAddr(ctx, addr, level), level + 1, base, top);
    }
  }

  // The blocks around do not overlap the block.
  lemma {:induction false} AroundApart(ctx: Ctx, addr: nat, level: nat, base: nat, top: nat)
    requires Placed(ctx, addr, level, base, top)
    ensures forall c :: c in FreesAround(ctx, addr, level, base, top) ==> Apart(c, Chunk(addr, level))
    ensures forall c :: c in LivesAround(ctx, addr, level, base, top) ==> Apart(c, Chunk(addr, level))
  {
    if !ctx.CTop? {
      var b := BuddyAddr(ctx, addr, level);
      assert SizeOf(level + 1) == 2 * SizeOf(level);
      ChunksWithin(Buddy(ctx), b, level);
      assert forall c :: c in Frees(Buddy(ctx), b, level) ==> c in Chunks(Buddy(ctx), b, level);
      assert forall c :: c in Lives(Buddy(ctx), b, level) ==> c in Chunks(Buddy(ctx), b, level);
      AroundApart(ctx.up, ParentAddr(ctx, addr, level), level + 1, base, top);
    }
  }

  lemma {:induction false} LocateFree(ctx0: Ctx, t: Block, at: nat, level: nat, base: nat, top: nat, c: Chunk) returns (ctx: Ctx)
    requires Fits(t, level) && Placed(ctx0, at, level, base, top) && c in Frees(t, at, level)
    ensures Placed(ctx, c.addr, c.level, base, top) && Put(ctx, Free) == Put(ctx0, t)
    decreases t
  {
    if t.Free? {
      ctx := ctx0;
    } else if c in Frees(t.left, at, level - 1) {
      ctx := LocateFree(CLeft(ctx0, t.right), t.left, at, level - 1, base, top, c);
    } else {
      ctx := LocateFree(CRight(ctx0, t.left), t.right, at + SizeOf(level - 1), level - 1, base, top, c);
    }
  }

  lemma {:induction false} LocateLive(ctx0: Ctx, t: Block, at: nat, level: nat, base: nat, top: nat, c: Chunk) returns (ctx: Ctx)
    requires Fits(t, level) && Placed(ctx0, at, level, base, top) && c in Lives(t, at, level)
    ensures Placed(ctx, c.addr, c.level, base, top) && Put(ctx, Live) == Put(ctx0, t)
    decreases t
  {
    if t.Live? {
      ctx := ctx0;
    } else if c in Lives(t.left, at, level - 1) {
      ctx := LocateLive(CLeft(ctx0, t.right), t.left, at, level - 1, base, top, c);
    } else {
      ctx := LocateLive(CRight(ctx0, t.left), t.right, at + SizeOf(level - 1), level - 1, base, top, c);
    }
  }

  // ----- canonical trees around a block

  ghost predicate CanonicalAround(ctx: Ctx) {
    !ctx.CTop? ==> Canonical(Buddy(ctx)) && CanonicalAround(ctx.up)
  }

  lemma {:induction false} PutCanonical(ctx: Ctx, t: Block)
    ensures Canonical(Put(ctx, t)) <==>
      CanonicalAround(ctx) && Canonical(t) && !(t.Free? && !ctx.CTop? && Buddy(ctx).Free?)
  {
    match ctx
    case CTop =>
    case CLeft(up, r) => PutCanonical(up, Split(t, r));
    case CRight(up, l) => PutCanonical(up, Split(l, t));
  }

  // ----- the address of the buddy

  // The e lowest bits are zero.
  ghost predicate Aligned(a: nat, e: nat) {
    e > 0 ==> a % 2 == 0 && Aligned(a / 2, e - 1)
  }

  lemma {:induction false} AlignedHalves(a: nat, e: nat)
    requires Aligned(a, e + 1)
    ensures Aligned(a, e) && !Bit(a, e)
    ensures Aligned(a + Pow2(e), e) && Bit(a + Pow2(e), e)
  {
    if e > 0 {
      AlignedHalves(a / 2, e - 1);
      assert (a + Pow2(e)) / 2 == a / 2 + Pow2(e - 1);
    }
  }

  lemma {:induction false} AlignedZero(e: nat)
    ensures Aligned(0, e) && !Bit(0, e)
  {
    if e > 0 {
      AlignedZero(e - 1);
    }
  }

  lemma {:induction false} AlignedMultiple(a: nat, e: nat, j: nat)
    requires Aligned(a, e) && j <= e
    ensures a % Pow2(j) == 0
  {
    if j > 0 {
      AlignedMultiple(a / 2, e - 1, j - 1);
      HalfMod(a, Pow2(j - 1));
    }
  }

  lemma {:induction false} PlacedAligned(ctx: Ctx, addr: nat, level: nat, base: nat, top: nat)
    requires Placed(ctx, addr, level, base, top)
    ensures base <= addr && Aligned(addr - base, level + 5)
    ensures Bit(addr - base, level + 5) == ctx.CRight?
  {
    if ctx.CTop? {
      AlignedZero(level + 5);
    } else {
      var parent := ParentAddr(ctx, addr, level);
      PlacedAligned(ctx.up, parent, level + 1, base, top);
      AlignedHalves(parent - base, level + 5);
    }
  }

  // The address computed by exclusive or is the buddy's: inside the parent block,
  // or, for the whole heap, the heap's end.
  lemma XorIsBuddy(ctx: Ctx, addr: nat, level: nat, base: nat, top: nat)
    requires Placed(ctx, addr, level, base, top)
    ensures base <= addr && base + Xor(addr - base, SizeOf(level)) == BuddyAddr(ctx, addr, level)
    ensures ctx.CTop? ==> BuddyAddr(ctx, addr, level) == base + SizeOf(top)
    ensures !ctx.CTop? ==>
      && level < top && Within(Chunk(BuddyAddr(ctx, addr, level), level), base, top)
      && Within(Chunk(BuddyAddr(ctx, addr, level), level), ParentAddr(ctx, addr, level), level + 1)
  {
    PlacedAligned(ctx, addr, level, base, top);
    XorPow2(addr - base, level + 5);
    if !ctx.CTop? {
      assert SizeOf(level + 1) == 2 * SizeOf(level);
      PlacedWithin(ctx.up, ParentAddr(ctx, addr, level), level + 1, base, top);
    }
  }

  // A block starts at the buddy's address, so its header is up to date; it is a
  // free block of this level exactly if the buddy is one whole free block.
  lemma BuddyHeader(ctx: Ctx, addr: nat, level: nat, base: nat, top: nat) returns (d: Chunk)
    requires Placed(ctx, addr, level, base, top) && !ctx.CTop?
    ensures d.addr == BuddyAddr(ctx, addr, level)
    ensures d in FreesAround(ctx, addr, level, base, top) + LivesAround(ctx, addr, level, base, top)
    ensures Buddy(ctx).Free? ==> d == Chunk(d.addr, level) && d in FreesAround(ctx, addr, level, base, top)
    ensures !Buddy(ctx).Free? ==> d.level < level || d in LivesAround(ctx, addr, level, base, top)
  {
    d := FirstChunk(Buddy(ctx), BuddyAddr(ctx, addr, level), level);
  }

  // ----- one block of the tree and the blocks around it

  ghost predicate AllApart(cs: set<Chunk>, c: Chunk) {
    forall d :: d in cs ==> Apart(d, c)
  }

  lemma WholeChunk(p: nat, k: nat)
    ensures Frees(Free, p, k) == Lives(Live, p, k) == {Chunk(p, k)} && Lives(Free, p, k) == Frees(Live, p, k) == {}
  {
  }

  lemma HalfChunks(p: nat, k: nat)
    requires k > 0
    ensures SizeOf(k) == 2 * SizeOf(k - 1)
    ensures Frees(Split(Free, Free), p, k) == {Chunk(p, k - 1)} + {Chunk(p + SizeOf(k - 1), k - 1)} && Lives(Split(Free, Free), p, k) == {}
  {
  }

  // Splitting a free block: the sets before and after, by the blocks around it.
  lemma SplitSets(ctx: Ctx, p: nat, k: nat, base: nat, top: nat)
    requires Placed(ctx, p, k, base, top) && k > 0
    ensures Fits(Put(ctx, Free), top) && Fits(Put(ctx, Split(Free, Free)), top)
    ensures var fa, la := FreesAround(ctx, p, k, base, top), LivesAround(ctx, p, k, base, top);
      var c, a, b := Chunk(p, k), Chunk(p, k - 1), Chunk(p + SizeOf(k - 1), k - 1);
      && Frees(Put(ctx, Free), base, top) - {c} == fa && Lives(Put(ctx, Free), base, top) == la
      && Frees(Put(ctx, Split(Free, Free)), base, top) == fa + {b} + {a}
      && Lives(Put(ctx, Split(Free, Free)), base, top) == la
      && AllApart(fa, c) && AllApart(la, c) && AllApart(fa, b) && AllApart(fa + {b}, a)
      && SizeOf(k) == 2 * SizeOf(k - 1)
  {
    hide Frees, Lives, FreesAround, LivesAround, Put, Placed;
    WholeChunk(p, k);
    HalfChunks(p, k);
    PutChunks(ctx, Free, p, k, base, top);
    PutChunks(ctx, Split(Free, Free), p, k, base, top);
    AroundApart(ctx, p, k, base, top);
    assert Chunk(p, k) !in FreesAround(ctx, p, k, base, top);
  }

  // A free block becomes live.
  // What is left over of the block of level k at addr once it is split down to
  // level j and the left halves are used: the right halves.
  ghost function RightHalves(addr: nat, k: nat, j: nat): set<Chunk> {
    set i: nat | j <= i < k :: Chunk(addr + SizeOf(i), i)
  }

  lemma RightHalvesStep(addr: nat, k: nat, j: nat)
    requires j < k
    ensures RightHalves(addr, k, j) == RightHalves(addr, k, j + 1) + {Chunk(addr + SizeOf(j), j)}
  {
    forall c | c in RightHalves(addr, k, j)
      ensures c in RightHalves(addr, k, j + 1) + {Chunk(addr + SizeOf(j), j)}
    {
      var i: nat :| j <= i < k && c == Chunk(addr + SizeOf(i), i);
      assert i == j || j + 1 <= i < k;
    }
  }

  // c is what is handed out of t: the left end of d, a free block of the lowest
  // level that will do, of which the right halves stay free.
  ghost predicate TakenFrom(t: Block, t': Block, c: Chunk, d: Chunk, base: nat, top: nat)
    requires Fits(t, top) && Fits(t', top)
  {
    && LeastFree(t, c.level, d, base, top) && d.addr == c.addr
    && Frees(t', base, top) == Frees(t, base, top) - {d} + RightHalves(c.addr, d.level, c.level)
  }

  ghost predicate LeastFree(t: Block, j: nat, d: Chunk, base: nat, top: nat)
    requires Fits(t, top)
  {
    && d in Frees(t, base, top) && j <= d.level
    && forall e :: e in Frees(t, base, top) && e.level >= j ==> d.level <= e.level
  }

  lemma TakeSets(ctx: Ctx, p: nat, k: nat, base: nat, top: nat)
    requires Placed(ctx, p, k, base, top)
    ensures Fits(Put(ctx, Free), top) && Fits(Put(ctx, Live), top)
    ensures var fa, la, c := FreesAround(ctx, p, k, base, top), LivesAround(ctx, p, k, base, top), Chunk(p, k);
      && Frees(Put(ctx, Free), base, top) - {c} == fa && Frees(Put(ctx, Live), base, top) == fa
      && Frees(Put(ctx, Free), base, top) == fa + {c}
      && Lives(Put(ctx, Free), base, top) == la && Lives(Put(ctx, Live), base, top) == la + {c}
      && Lives(Put(ctx, Live), base, top) - {c} == la
      && AllApart(fa, c) && AllApart(la, c) && c !in fa && c !in la
  {
    hide Frees, Lives, FreesAround, LivesAround, Put, Placed;
    WholeChunk(p, k);
    PutChunks(ctx, Free, p, k, base, top);
    PutChunks(ctx, Live, p, k, base, top);
    AroundApart(ctx, p, k, base, top);
    assert Chunk(p, k) !in FreesAround(ctx, p, k, base, top) && Chunk(p, k) !in LivesAround(ctx, p, k, base, top);
  }

  // Two blocks around that start at the same address are the same.
  lemma SameStart(ctx: Ctx, p: nat, k: nat, base: nat, top: nat, c: Chunk, d: Chunk)
    requires Placed(ctx, p, k, base, top) && c.addr == d.addr
    requires c in FreesAround(ctx, p, k, base, top) + LivesAround(ctx, p, k, base, top)
    ensures d in FreesAround(ctx, p, k, base, top) + LivesAround(ctx, p, k, base, top) ==> c == d
    ensures FreesAround(ctx, p, k, base, top) !! LivesAround(ctx, p, k, base, top)
  {
    PutChunks(ctx, Live, p, k, base, top);
    ChunksApart(Put(ctx, Live), base, top);
    assert c in Chunks(Put(ctx, Live), base, top);
    if d in FreesAround(ctx, p, k, base, top) + LivesAround(ctx, p, k, base, top) {
      assert d in Chunks(Put(ctx, Live), base, top);
    }
  }

  // Some naturally aligned window of level j meets no live block.
  ghost predicate SomeWindow(t: Block, base: nat, top: nat, j: nat)
    requires Fits(t, top)
  {
    j <= top && exists w :: w in Windows(base, top, j) && Clear(w, j, Lives(t, base, top))
  }

  // ----- physical neighbours

  function End(c: Chunk): nat {
    c.addr + SizeOf(c.level)
  }

  // Where the blocks end.
  ghost function Ends(cs: set<Chunk>): set<nat> {
    set c | c in cs :: End(c)
  }

  lemma EndsAdd(cs: set<Chunk>, c: Chunk)
    ensures Ends(cs + {c}) == Ends(cs) + {End(c)}
    ensures AllApart(cs, c) ==> End(c) !in Ends(cs)
  {
    var ds := cs + {c};
    assert c in ds;
    forall e | e in Ends(cs) + {End(c)}
      ensures e in Ends(ds)
    {
      if e in Ends(cs) {
        var d :| d in cs && End(d) == e;
        assert d in ds;
      }
    }
  }

  // A block starts where another ends, except at the end of the heap.
  lemma {:induction false} NextStart(ctx: Ctx, addr: nat, level: nat, base: nat, top: nat) returns (d: Chunk)
    requires Placed(ctx, addr, level, base, top) && addr + SizeOf(level) < base + SizeOf(top)
    ensures d in FreesAround(ctx, addr, level, base, top) + LivesAround(ctx, addr, level, base, top)
    ensures d.addr == addr + SizeOf(level)
  {
    if ctx.CLeft? {
      d := FirstChunk(ctx.right, addr + SizeOf(level), level);
    } else {
      assert SizeOf(level + 1) == 2 * SizeOf(level);
      d := NextStart(ctx.up, addr - SizeOf(level), level + 1, base, top);
    }
  }

  // In a tree that is not canonical some free block has a free right buddy.
  lemma {:induction false} FreePair(ctx0: Ctx, t: Block, at: nat, level: nat, base: nat, top: nat) returns (ctx: Ctx, addr: nat, k: nat)
    requires Fits(t, level) && Placed(ctx0, at, level, base, top) && !Canonical(t)
    ensures Placed(CLeft(ctx, Free), addr, k, base, top) && Put(ctx, Split(Free, Free)) == Put(ctx0, t)
    decreases t
  {
    if !Canonical(t.left) {
      ctx, addr, k := FreePair(CLeft(ctx0, t.right), t.left, at, level - 1, base, top);
    } else if !Canonical(t.right) {
      ctx, addr, k := FreePair(CRight(ctx0, t.left), t.right, at + SizeOf(level - 1), level - 1, base, top);
    } else {
      ctx, addr, k := ctx0, at, level - 1;
    }
  }

  // ----- merging two free buddies

  lemma PutParent(ctx: Ctx)
    requires !ctx.CTop? && Buddy(ctx).Free?
    ensures Put(ctx, Free) == Put(ctx.up, Split(Free, Free))
  {
  }

  lemma MergeSets(ctx: Ctx, p: nat, k: nat, base: nat, top: nat)
    requires Placed(ctx, p, k, base, top) && !ctx.CTop? && Buddy(ctx).Free?
    ensures var q := ParentAddr(ctx, p, k);
      && Placed(ctx.up, q, k + 1, base, top) && Fits(Put(ctx, Free), top) && Fits(Put(ctx.up, Free), top)
      && var fu, lu := FreesAround(ctx.up, q, k + 1, base, top), LivesAround(ctx.up, q, k + 1, base, top);
      var c, a, b := Chunk(q, k + 1), Chunk(q, k), Chunk(q + SizeOf(k), k);
      && Frees(Put(ctx, Free), base, top) == fu + {b} + {a} == fu + {a} + {b} && Lives(Put(ctx, Free), base, top) == lu
      && Frees(Put(ctx.up, Free), base, top) == fu + {c} && Lives(Put(ctx.up, Free), base, top) == lu
      && AllApart(fu, c) && AllApart(lu, c) && AllApart(fu, b) && AllApart(fu + {b}, a) && AllApart(fu, a) && AllApart(fu + {a}, b)
      && End(b) == End(c) && End(a) == b.addr && k < top
  {
    hide Frees, Lives, FreesAround, LivesAround, Put, Placed;
    ParentPlaced(ctx, p, k, base, top);
    var q := ParentAddr(ctx, p, k);
    PutParent(ctx);
    SplitSets(ctx.up, q, k + 1, base, top);
    TakeSets(ctx.up, q, k + 1, base, top);
    PlacedWithin(ctx.up, q, k + 1, base, top);
  }

  lemma ParentPlaced(ctx: Ctx, p: nat, k: nat, base: nat, top: nat)
    requires Placed(ctx, p, k, base, top) && !ctx.CTop?
    ensures ctx.CRight? ==> p >= SizeOf(k)
    ensures Placed(ctx.up, ParentAddr(ctx, p, k), k + 1, base, top)
  {
  }

  // A byte of the heap is in a free block exactly if it is in no live block.
  lemma {:induction false} BytesCovered(t: Block, at: nat, level: nat, x: nat)
    requires Fits(t, level) && at <= x < at + SizeOf(level)
    ensures (exists c :: c in Frees(t, at, level) && c.addr <= x < End(c)) <==>
      !(exists c :: c in Lives(t, at, level) && c.addr <= x < End(c))
  {
    if t.Split? {
      var mid := at + SizeOf(level - 1);
      assert SizeOf(level) == 2 * SizeOf(level - 1);
      HalfOf(t, at, level, x);
      if x < mid {
        BytesCovered(t.left, at, level - 1, x);
      } else {
        BytesCovered(t.right, mid, level - 1, x);
      }
    } else {
      assert t.Free? ==> Chunk(at, level) in Frees(t, at, level);
      assert t.Live? ==> Chunk(at, level) in Lives(t, at, level);
    }
  }

  // The block around a byte is in the half that the byte is in.
  lemma HalfOf(t: Block, at: nat, level: nat, x: nat)
    requires Fits(t, level) && t.Split?
    ensures var mid := at + SizeOf(level - 1);
      forall c: Chunk :: c.addr <= x < End(c) ==>
        && (c in Frees(t, at, level) <==> if x < mid then c in Frees(t.left, at, level - 1) else c in Frees(t.right, mid, level - 1))
        && (c in Lives(t, at, level) <==> if x < mid then c in Lives(t.left, at, level - 1) else c in Lives(t.right, mid, level - 1))
  {
    var mid := at + SizeOf(level - 1);
    ChunksWithin(t.left, at, level - 1);
    ChunksWithin(t.right, mid, level - 1);
    forall c: Chunk | c.addr <= x < End(c)
      ensures x < mid ==> c !in Chunks(t.right, mid, level - 1)
      ensures x >= mid ==> c !in Chunks(t.left, at, level - 1)
    {
    }
  }

  // ----- the size of the heap

  // A power of two rounded up to another one is the greater of the two.
  lemma AlignPow2(k: nat, j: nat, r: nat)
    requires Pow2(k) <= r < Pow2(k) + Pow2(j) && r % Pow2(j) == 0
    ensures r == if k < j then Pow2(j) else Pow2(k)
  {
    if k < j {
      Pow2Mono(k, j);
      ModIs(Pow2(j), Pow2(j), 1, 0);
      if r < Pow2(j) {
        ModIs(0, Pow2(j), 0, 0);
        ModSub(r, 0, Pow2(j));
      } else {
        ModSub(r, Pow2(j), Pow2(j));
      }
    } else {
      Pow2Multiple(k, j);
      ModSub(r, Pow2(k), Pow2(j));
    }
  }

  // A power of two and a multiple of the page size.
  // The size of a heap: the least power of two that reaches the size asked for and
  // a page.
  ghost predicate HeapFor(total: nat, size: nat, pageSize: nat) {
    && IsPow2(total) && size <= total && pageSize <= total
    && forall k: nat :: size <= Pow2(k) && pageSize <= Pow2(k) ==> total <= Pow2(k)
  }

  lemma RoundedHeap(size: nat, pageSize: nat) returns (top: nat)
    requires 0 < size <= Pow2(62) && IsPow2(pageSize) && 32 <= pageSize <= Pow2(62)
    ensures pageSize <= WORD
    ensures var total := AlignUp(BitCeil(size), pageSize);
      total == SizeOf(top) && size <= total < BitCeil(size) + pageSize && HeapFor(total, size, pageSize)
  {
    hide And, AlignUp, IsPow2, Log2, BitCeil;
    var k := BitCeilLeast(size);
    IsPow2Log2(pageSize);
    var j := Log2(pageSize);
    WordIsPow2();
    Pow2Order(62, k);
    Pow2Order(62, j);
    Pow2Order(j, 5);
    assert Pow2(5) == 32;
    assert Pow2(64) == 4 * Pow2(62);
    Pow2Mono(k, 62);
    AlignUpSpec(Pow2(k), j);
    AlignPow2(k, j, AlignUp(Pow2(k), Pow2(j)));
    top := (if k < j then j else k) - 5;
    LeastHeap(size, k, j);
  }

  lemma LeastHeap(size: nat, k: nat, j: nat)
    requires size <= Pow2(k) && forall i: nat :: size <= Pow2(i) ==> k <= i
    ensures HeapFor(Pow2(if k < j then j else k), size, Pow2(j))
  {
    hide IsPow2, Pow2;
    PowerIsPow2(if k < j then j else k);
    Pow2Order(k, j);
    if j <= k {
      Pow2Mono(j, k);
    }
    forall i: nat | size <= Pow2(i) && Pow2(j) <= Pow2(i)
      ensures Pow2(if k < j then j else k) <= Pow2(i)
    {
      Pow2Mono(k, i);
    }
  }
}
