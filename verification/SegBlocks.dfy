// What the segregated allocator keeps in memory - headers, footers, back bytes,
// list links, the mask of non-empty buckets - and its agreement with a set of
// free and a set of live blocks, one block at a time.
module SegBlocks {
  import opened BuddyTree
  import opened Links
  import opened BuddyLists

  const NUM_BUCKETS: nat := 25
  const MIN_BUCKET_ORDER: nat := 5
  const HEADER: nat := 1

  type Order = n: nat | n < 64

  datatype Header = Header(order: Order, isFree: bool, isPrevFree: bool)

  type Headers = map<Ptr, Header>
  type Footers = map<Ptr, nat>

  function LastByte(c: Chunk): nat {
    c.addr + SizeOf(c.level) - 1
  }

  // ----- buckets

  // The node in a bucket's list lies behind the header of its block.
  ghost predicate Listed(ls: Lists, frees: set<Chunk>) {
    && |ls| == NUM_BUCKETS
    && (forall k, p :: 0 <= k < NUM_BUCKETS ==> (p in ls[k] <==> p >= HEADER && Chunk(p - HEADER, k) in frees))
    && (forall c :: c in frees ==> c.level < NUM_BUCKETS)
  }

  // Bucket k holds the free blocks of level k, doubly linked.
  ghost predicate Queued(ls: Lists, m: LinkMemory, frees: set<Chunk>) {
    Listed(ls, frees) && Chains(m, ls)
  }

  function Node(c: Chunk): Ptr {
    c.addr + HEADER
  }

  lemma QueuedPop(ls: Lists, m: LinkMemory, frees: set<Chunk>, k: nat)
    requires Queued(ls, m, frees) && k < NUM_BUCKETS && ls[k] != []
    ensures var p := ls[k][0];
      && p in m && m[p].next == Head(ls[k][1..]) && (m[p].next != NULL ==> m[p].next in m)
      && p >= HEADER && Chunk(p - HEADER, k) in frees
      && Queued(PopAt(ls, k), PopMemory(m, p), frees - {Chunk(p - HEADER, k)})
  {
    var p := ls[k][0];
    PopChains(m, ls, k);
    assert p in ls[k];
    var ls' := ls[k := ls[k][1..]];
    assert Chain(m, ls[k]);
    forall j, q | 0 <= j < NUM_BUCKETS
      ensures q in ls'[j] <==> q >= HEADER && Chunk(q - HEADER, j) in frees - {Chunk(p - HEADER, k)}
    {
      assert q in ls[j] <==> q >= HEADER && Chunk(q - HEADER, j) in frees;
      PopElements(ls[k]);
    }
  }

  lemma QueuedPush(ls: Lists, m: LinkMemory, frees: set<Chunk>, c: Chunk)
    requires Queued(ls, m, frees) && c !in frees && c.level < NUM_BUCKETS
    requires forall k: nat :: Chunk(c.addr, k) !in frees
    ensures Head(ls[c.level]) != NULL ==> Head(ls[c.level]) in m
    ensures Queued(PushAt(ls, c.level, Node(c)), PushMemory(m, Head(ls[c.level]), Node(c)), frees + {c})
  {
    assert !InSome(ls, Node(c));
    PushChains(m, ls, c.level, Node(c));
  }

  lemma QueuedRemove(ls: Lists, m: LinkMemory, frees: set<Chunk>, c: Chunk)
    requires Queued(ls, m, frees) && c in frees
    ensures var p := Node(c);
      && c.level < NUM_BUCKETS && RemoveReady(m, ls, c.level, p)
      && Queued(UnlinkAt(ls, c.level, p), RemoveMemory(m, p), frees - {c})
  {
    var p, ls' := Node(c), UnlinkAt(ls, c.level, Node(c));
    assert p in ls[c.level];
    UnlinkChains(m, ls, c.level, p);
    NowhereElse(m, ls, c.level, p);
    RemovedChains(UnlinkMemory(m, p), ls', p);
    assert Listed(ls', frees - {c});
  }

  // ----- headers and footers

  // The header at the start of each block: its order, whether it is free, and
  // whether the block on its left is, given where the free blocks end.
  ghost predicate HeadersOk(h: Headers, cs: set<Chunk>, free: bool, ends: set<nat>) {
    forall c :: c in cs ==> HeaderOk(h, c, free, ends)
  }

  ghost predicate HeaderOk(h: Headers, c: Chunk, free: bool, ends: set<nat>) {
    c.level < NUM_BUCKETS && c.addr in h && h[c.addr] == Header(c.level + MIN_BUCKET_ORDER, free, c.addr in ends)
  }

  // The order in the last byte of each free block.
  ghost predicate FootersOk(f: Footers, cs: set<Chunk>) {
    forall c :: c in cs ==> FooterOk(f, c)
  }

  ghost predicate FooterOk(f: Footers, c: Chunk) {
    LastByte(c) in f && f[LastByte(c)] == c.level + MIN_BUCKET_ORDER
  }

  ghost predicate Tags(h: Headers, f: Footers, frees: set<Chunk>, lives: set<Chunk>, ends: set<nat>) {
    HeadersOk(h, frees, true, ends) && HeadersOk(h, lives, false, ends) && FootersOk(f, frees)
  }

  // A block start inside the heap learns whether its left neighbour is free.
  function SetPrev(h: Headers, e: nat, inside: bool, v: bool): Headers
    requires inside ==> e in h
  {
    if inside then h[e := h[e].(isPrevFree := v)] else h
  }

  ghost predicate NoneStartsAt(cs: set<Chunk>, e: nat) {
    forall c :: c in cs ==> c.addr != e
  }

  lemma HeadersElsewhere(h: Headers, h': Headers, cs: set<Chunk>, free: bool, ends: set<nat>, ends': set<nat>)
    requires HeadersOk(h, cs, free, ends)
    requires forall c :: c in cs && c.addr in h ==>
      c.addr in h' && h'[c.addr] == h[c.addr] && (c.addr in ends' <==> c.addr in ends)
    ensures HeadersOk(h', cs, free, ends')
  {
    forall c | c in cs
      ensures HeaderOk(h', c, free, ends')
    {
      assert HeaderOk(h, c, free, ends);
    }
  }

  lemma HeadersSetPrev(h: Headers, cs: set<Chunk>, free: bool, ends: set<nat>, e: nat, inside: bool, v: bool)
    requires HeadersOk(h, cs, free, ends) && (inside ==> e in h) && (!inside ==> NoneStartsAt(cs, e))
    ensures HeadersOk(SetPrev(h, e, inside, v), cs, free, if v then ends + {e} else ends - {e})
  {
    forall c | c in cs
      ensures HeaderOk(SetPrev(h, e, inside, v), c, free, if v then ends + {e} else ends - {e})
    {
      assert HeaderOk(h, c, free, ends);
    }
  }

  lemma FootersElsewhere(f: Footers, f': Footers, cs: set<Chunk>)
    requires FootersOk(f, cs) && forall c :: c in cs && LastByte(c) in f ==> LastByte(c) in f' && f'[LastByte(c)] == f[LastByte(c)]
    ensures FootersOk(f', cs)
  {
    forall c | c in cs
      ensures FooterOk(f', c)
    {
      assert FooterOk(f, c);
    }
  }

  lemma HeadersUnion(h: Headers, cs: set<Chunk>, c: Chunk, free: bool, ends: set<nat>)
    requires HeadersOk(h, cs, free, ends) && HeaderOk(h, c, free, ends)
    ensures HeadersOk(h, cs + {c}, free, ends)
  {
  }

  lemma FootersUnion(f: Footers, cs: set<Chunk>, c: Chunk)
    requires FootersOk(f, cs) && FooterOk(f, c)
    ensures FootersOk(f, cs + {c})
  {
  }

  // What is written inside the block c leaves the tags of all others as they are.
  lemma TagsInside(h: Headers, f: Footers, h': Headers, f': Footers, frees: set<Chunk>, lives: set<Chunk>,
                   ends: set<nat>, ends': set<nat>, c: Chunk)
    requires Tags(h, f, frees, lives, ends) && AllApart(frees, c) && AllApart(lives, c)
    requires forall p :: p in h && !(c.addr <= p < End(c)) ==> p in h' && h'[p] == h[p]
    requires forall p :: p in f && !(c.addr <= p < End(c)) ==> p in f' && f'[p] == f[p]
    requires forall p :: !(c.addr <= p < End(c)) ==> (p in ends' <==> p in ends)
    ensures Tags(h', f', frees, lives, ends')
  {
    HeadersElsewhere(h, h', frees, true, ends, ends');
    HeadersElsewhere(h, h', lives, false, ends, ends');
    FootersElsewhere(f, f', frees);
  }

  lemma TagsSetPrev(h: Headers, f: Footers, frees: set<Chunk>, lives: set<Chunk>, ends: set<nat>, e: nat, inside: bool, v: bool)
    requires Tags(h, f, frees, lives, ends) && (inside ==> e in h)
    requires !inside ==> NoneStartsAt(frees, e) && NoneStartsAt(lives, e)
    ensures Tags(SetPrev(h, e, inside, v), f, frees, lives, if v then ends + {e} else ends - {e})
  {
    HeadersSetPrev(h, frees, true, ends, e, inside, v);
    HeadersSetPrev(h, lives, false, ends, e, inside, v);
  }

  lemma TagsLess(h: Headers, f: Footers, frees: set<Chunk>, lives: set<Chunk>, frees': set<Chunk>, lives': set<Chunk>, ends: set<nat>)
    requires Tags(h, f, frees, lives, ends) && frees' <= frees && lives' <= lives
    ensures Tags(h, f, frees', lives', ends)
  {
  }

  // ----- the steps of the allocator, by the blocks fa and la around the block c

  // The two halves of a free block; the right one knows that the left one is free.
  function SplitHeaders(h: Headers, a: Chunk, b: Chunk): Headers
    requires a.addr in h && a.level < NUM_BUCKETS
  {
    var order := a.level + MIN_BUCKET_ORDER;
    h[a.addr := h[a.addr].(order := order, isFree := true)][b.addr := Header(order, true, true)]
  }

  function SplitFooters(f: Footers, a: Chunk, b: Chunk): Footers {
    f[LastByte(a) := a.level + MIN_BUCKET_ORDER][LastByte(b) := a.level + MIN_BUCKET_ORDER]
  }

  lemma TagsSplit(h: Headers, f: Footers, fa: set<Chunk>, la: set<Chunk>, ends: set<nat>, c: Chunk, a: Chunk, b: Chunk)
    requires Tags(h, f, fa + {c}, la, ends) && AllApart(fa, c) && AllApart(la, c)
    requires c.level > 0 && a == Chunk(c.addr, c.level - 1) && b == Chunk(c.addr + SizeOf(c.level - 1), c.level - 1)
    ensures c.level < NUM_BUCKETS && c.addr in h
    ensures Tags(SplitHeaders(h, a, b), SplitFooters(f, a, b), fa + {b} + {a}, la, ends + {b.addr})
  {
    assert c in fa + {c};
    assert HeaderOk(h, c, true, ends);
    assert SizeOf(c.level) == 2 * SizeOf(c.level - 1);
    var h', f', ends' := SplitHeaders(h, a, b), SplitFooters(f, a, b), ends + {b.addr};
    TagsLess(h, f, fa + {c}, la, fa, la, ends);
    TagsInside(h, f, h', f', fa, la, ends, ends', c);
    HeadersUnion(h', fa, b, true, ends');
    FootersUnion(f', fa, b);
    HeadersUnion(h', fa + {b}, a, true, ends');
    FootersUnion(f', fa + {b}, a);
  }

  // A free block becomes live; inside says that a block starts where it ends.
  function TakeHeaders(h: Headers, c: Chunk, inside: bool): Headers
    requires c.addr in h && (inside ==> End(c) in h)
  {
    SetPrev(h[c.addr := h[c.addr].(isFree := false)], End(c), inside, false)
  }

  lemma TagsTake(h: Headers, f: Footers, fa: set<Chunk>, la: set<Chunk>, ends: set<nat>, c: Chunk, inside: bool)
    requires Tags(h, f, fa + {c}, la, ends) && AllApart(fa, c) && AllApart(la, c) && (inside ==> End(c) in h)
    requires !inside ==> NoneStartsAt(fa, End(c)) && NoneStartsAt(la, End(c))
    ensures c.addr in h && h[c.addr].order == c.level + MIN_BUCKET_ORDER
    ensures Tags(TakeHeaders(h, c, inside), f, fa, la + {c}, ends - {End(c)})
  {
    assert c in fa + {c};
    assert HeaderOk(h, c, true, ends);
    var h' := h[c.addr := h[c.addr].(isFree := false)];
    TagsLess(h, f, fa + {c}, la, fa, la, ends);
    TagsInside(h, f, h', f, fa, la, ends, ends, c);
    HeadersUnion(h', la, c, false, ends);
    TagsSetPrev(h', f, fa, la + {c}, ends, End(c), inside, false);
  }

  // A live block becomes free.
  function GiveHeaders(h: Headers, c: Chunk, inside: bool): Headers
    requires c.addr in h && c.level < NUM_BUCKETS && (inside ==> End(c) in h)
  {
    SetPrev(h[c.addr := h[c.addr].(order := c.level + MIN_BUCKET_ORDER, isFree := true)], End(c), inside, true)
  }

  lemma TagsGive(h: Headers, f: Footers, fa: set<Chunk>, la: set<Chunk>, ends: set<nat>, c: Chunk, inside: bool)
    requires Tags(h, f, fa, la + {c}, ends) && AllApart(fa, c) && AllApart(la, c) && (inside ==> End(c) in h)
    requires !inside ==> NoneStartsAt(fa, End(c)) && NoneStartsAt(la, End(c))
    ensures c.addr in h && c.level < NUM_BUCKETS && h[c.addr].order == c.level + MIN_BUCKET_ORDER
    ensures Tags(GiveHeaders(h, c, inside), f[LastByte(c) := c.level + MIN_BUCKET_ORDER], fa + {c}, la, ends + {End(c)})
  {
    assert c in la + {c};
    assert HeaderOk(h, c, false, ends);
    var h' := h[c.addr := h[c.addr].(order := c.level + MIN_BUCKET_ORDER, isFree := true)];
    var f' := f[LastByte(c) := c.level + MIN_BUCKET_ORDER];
    TagsLess(h, f, fa, la + {c}, fa, la, ends);
    TagsInside(h, f, h', f', fa, la, ends, ends, c);
    HeadersUnion(h', fa, c, true, ends);
    FootersUnion(f', fa, c);
    TagsSetPrev(h', f', fa + {c}, la, ends, End(c), inside, true);
  }

  // Two free buddies, a on the left and b on the right, become the block c.
  function MergeHeaders(h: Headers, c: Chunk, inside: bool): Headers
    requires c.addr in h && c.level < NUM_BUCKETS && (inside ==> End(c) in h)
  {
    SetPrev(h[c.addr := h[c.addr].(order := c.level + MIN_BUCKET_ORDER)], End(c), inside, true)
  }

  lemma TagsMerge(h: Headers, f: Footers, fa: set<Chunk>, la: set<Chunk>, ends: set<nat>, c: Chunk, a: Chunk, b: Chunk, inside: bool)
    requires Tags(h, f, fa + {b} + {a}, la, ends) && AllApart(fa, c) && AllApart(la, c) && (inside ==> End(c) in h)
    requires !inside ==> NoneStartsAt(fa, End(c)) && NoneStartsAt(la, End(c))
    requires c.level > 0 && a == Chunk(c.addr, c.level - 1) && b == Chunk(c.addr + SizeOf(c.level - 1), c.level - 1)
    requires End(c) in ends && c.level < NUM_BUCKETS
    ensures c.addr in h
    ensures Tags(MergeHeaders(h, c, inside), f[LastByte(c) := c.level + MIN_BUCKET_ORDER], fa + {c}, la, ends - {b.addr})
  {
    assert a in fa + {b} + {a};
    assert HeaderOk(h, a, true, ends);
    assert SizeOf(c.level) == 2 * SizeOf(c.level - 1);
    var h' := h[c.addr := h[c.addr].(order := c.level + MIN_BUCKET_ORDER)];
    var f', ends' := f[LastByte(c) := c.level + MIN_BUCKET_ORDER], ends - {b.addr};
    TagsLess(h, f, fa + {b} + {a}, la, fa, la, ends);
    TagsInside(h, f, h', f', fa, la, ends, ends', c);
    HeadersUnion(h', fa, c, true, ends');
    FootersUnion(f', fa, c);
    TagsSetPrev(h', f', fa + {c}, la, ends', End(c), inside, true);
    assert ends' + {End(c)} == ends';
  }

  // ----- the buckets in those steps

  lemma ApartStart(cs: set<Chunk>, c: Chunk)
    requires AllApart(cs, c)
    ensures forall k: nat :: Chunk(c.addr, k) !in cs
  {
  }

  lemma QueuedSplit(ls: Lists, m: LinkMemory, fa: set<Chunk>, c: Chunk, a: Chunk, b: Chunk)
    requires |ls| == NUM_BUCKETS && Queued(ls, m, fa + {c}) && AllApart(fa, c) && AllApart(fa, b) && AllApart(fa + {b}, a) && c !in fa
    requires 0 < c.level < NUM_BUCKETS && ls[c.level] != [] && ls[c.level][0] == Node(c)
    requires a == Chunk(c.addr, c.level - 1) && b == Chunk(c.addr + SizeOf(c.level - 1), c.level - 1)
    ensures var k, p := c.level, Node(c);
      && PopReady(m, p) && m[p].next == Head(ls[k][1..])
      && (Head(ls[k - 1]) != NULL ==> Head(ls[k - 1]) in PopMemory(m, p))
      && Queued(SplitLists(ls, k), SplitMemory(m, p, Head(ls[k - 1]), Node(b)), fa + {b} + {a})
  {
    hide Queued, SplitMemory, AllApart, PushMemory, PopMemory;
    var k := c.level;
    QueuedPop(ls, m, fa + {c}, k);
    assert fa + {c} - {c} == fa;
    var ls1, m1 := PopAt(ls, k), PopMemory(m, Node(c));
    ApartStart(fa, b);
    QueuedPush(ls1, m1, fa, b);
    ApartStart(fa + {b}, a);
    QueuedPush(PushAt(ls1, k - 1, Node(b)), PushMemory(m1, Head(ls1[k - 1]), Node(b)), fa + {b}, a);
    SplitMemoryIs(ls1, m, Node(c), k - 1, Node(b));
  }

  lemma SplitMemoryIs(ls: Lists, m: LinkMemory, p: Ptr, k: nat, b: Ptr)
    requires k < |ls| && PopReady(m, p) && (Head(ls[k]) != NULL ==> Head(ls[k]) in PopMemory(m, p))
    ensures SplitMemory(m, p, Head(ls[k]), b) == PushMemory(PushMemory(PopMemory(m, p), Head(ls[k]), b), Head(PushAt(ls, k, b)[k]), p)
  {
  }

  // Two free buddies leave their bucket, and the block they make up joins the next.
  function MergeLists(ls: Lists, k: nat, p: Ptr, q: Ptr): Lists
    requires k + 1 < |ls|
  {
    PushAt(UnlinkAt(UnlinkAt(ls, k, p), k, q), k + 1, Lower(p, q))
  }

  function MergeLinks(m: LinkMemory, p: Ptr, q: Ptr, head: Ptr): LinkMemory
    requires Removable(m, p) && Removable(RemoveMemory(m, p), q)
    requires head != NULL ==> head in RemoveMemory(RemoveMemory(m, p), q)
  {
    PushMemory(RemoveMemory(RemoveMemory(m, p), q), head, Lower(p, q))
  }

  lemma QueuedMerge(ls: Lists, m: LinkMemory, fa: set<Chunk>, c: Chunk, a: Chunk, b: Chunk)
    requires |ls| == NUM_BUCKETS && Queued(ls, m, fa + {b} + {a}) && AllApart(fa, c) && AllApart(fa + {b}, a) && AllApart(fa, b)
    requires a.level == b.level && c == Chunk(Lower(a.addr, b.addr), a.level + 1) && c.level < NUM_BUCKETS
    ensures var k, p, q := a.level, Node(a), Node(b);
      && RemoveReady(m, ls, k, p) && RemoveReady(RemoveMemory(m, p), UnlinkAt(ls, k, p), k, q)
      && (Head(ls[k + 1]) != NULL ==> Head(ls[k + 1]) in RemoveMemory(RemoveMemory(m, p), q))
      && Queued(MergeLists(ls, k, p, q), MergeLinks(m, p, q, Head(ls[k + 1])), fa + {c})
  {
    hide Queued, RemoveMemory, PushMemory;
    ApartStart(fa + {b}, a);
    ApartStart(fa, b);
    ApartStart(fa, c);
    QueuedRemove(ls, m, fa + {b} + {a}, a);
    assert fa + {b} + {a} - {a} == fa + {b};
    var ls1, m1 := UnlinkAt(ls, a.level, Node(a)), RemoveMemory(m, Node(a));
    QueuedRemove(ls1, m1, fa + {b}, b);
    assert fa + {b} - {b} == fa;
    QueuedPush(UnlinkAt(ls1, a.level, Node(b)), RemoveMemory(m1, Node(b)), fa, c);
  }
}
