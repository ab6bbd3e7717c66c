// The states of the free-tree allocator: tags in memory, live allocations, and
// the free blocks in the tree.
module FreeTreeState {
  import opened Bits
  import opened Rows
  import opened Allocations
  import opened RBShape
  import opened RBMemory
  import opened RBSplice
  import opened FreeTreeBlocks

  type Words = map<Ptr, Metadata>
  type Backs = map<Ptr, Ptr>

  // The heap as the allocator sees it, but for the tree's nodes.
  datatype Tags = Tags(words: Words, backs: Backs)

  // ----- boundary tags

  ghost predicate Tagged(w: Words, b: Blk) {
    && b.addr in w && w[b.addr] == TagOf(b.size, b.taken)
    && Footer(b) in w && w[Footer(b)] == TagOf(b.size, b.taken)
    && b.addr % 8 == 0 && b.size % 8 == 0 && b.size >= NODE_SIZE
  }

  ghost predicate AllTagged(w: Words, bs: seq<Blk>) {
    forall b :: b in bs ==> Tagged(w, b)
  }

  // A footer that is taken lies in front of the first block, and a header that is
  // taken behind the last one.
  ghost predicate Fenced(w: Words, s: Ptr, e: Ptr) {
    && META <= s && e <= WORD / 2
    && s - META in w && w[s - META] == TagOf(0, true) && e in w && w[e] == TagOf(0, true)
  }

  // update_block
  function Update(w: Words, b: Blk): Words {
    w[b.addr := TagOf(b.size, b.taken)][Footer(b) := TagOf(b.size, b.taken)]
  }

  // The blocks in front of b, b itself, and those behind it.
  ghost predicate Row(w: Words, a: seq<Blk>, b: Blk, c: seq<Blk>, s: Ptr, e: Ptr) {
    && Tiled(a, s, b.addr) && Tiled(c, Past(b), e)
    && AllTagged(w, a) && Tagged(w, b) && AllTagged(w, c) && Fenced(w, s, e)
    && Spaced(a) && Spaced(c)
  }

  // The whole row: blocks without gaps, tags that agree at both ends, and no two
  // neighbours free.
  ghost predicate HeapOk(w: Words, bs: seq<Blk>, s: Ptr, e: Ptr) {
    Tiled(bs, s, e) && AllTagged(w, bs) && Fenced(w, s, e) && Spaced(bs)
  }

  lemma HeapAround(w: Words, a: seq<Blk>, b: Blk, c: seq<Blk>, s: Ptr, e: Ptr)
    ensures HeapOk(w, a + [b] + c, s, e) <==>
      Row(w, a, b, c, s, e) && (!b.taken ==> LastTaken(a) && FirstTaken(c))
  {
    hide Spaced, Tiled, Tagged, Fenced;
    TiledAround(a, b, c, s, e);
    SpacedAround(a, b, c);
    AllTaggedAround(w, a, b, c);
  }

  lemma NoneTagged(w: Words)
    ensures AllTagged(w, [])
  {
  }

  lemma AllTaggedAround(w: Words, a: seq<Blk>, b: Blk, c: seq<Blk>)
    ensures AllTagged(w, a + [b] + c) <==> AllTagged(w, a) && Tagged(w, b) && AllTagged(w, c)
  {
    hide Tagged;
    var bs := a + [b] + c;
    if AllTagged(w, bs) {
      forall x | x in a
        ensures Tagged(w, x)
      {
        assert x in bs;
      }
      forall x | x in c
        ensures Tagged(w, x)
      {
        assert x in bs;
      }
      assert b in bs;
    }
    if AllTagged(w, a) && Tagged(w, b) && AllTagged(w, c) {
      forall x | x in bs
        ensures Tagged(w, x)
      {
        assert x in a || x == b || x in c;
      }
    }
  }

  // Writes outside the range of a row of blocks leave their tags as they are.
  lemma TaggedElsewhere(w: Words, w': Words, bs: seq<Blk>, s: Ptr, e: Ptr)
    requires AllTagged(w, bs) && InRange(bs, s, e)
    requires forall p :: p in w && s <= p < e ==> p in w' && w'[p] == w[p]
    ensures AllTagged(w', bs)
  {
    forall b | b in bs
      ensures Tagged(w', b)
    {
      assert Tagged(w, b);
    }
  }

  // A block may be tagged anew as long as its new tags lie between a and c.
  lemma UpdateRow(w: Words, a: seq<Blk>, b: Blk, c: seq<Blk>, s: Ptr, e: Ptr)
    requires Tiled(a, s, b.addr) && Tiled(c, Past(b), e)
    requires AllTagged(w, a) && AllTagged(w, c) && Fenced(w, s, e) && Spaced(a) && Spaced(c)
    requires b.addr % 8 == 0 && b.size % 8 == 0 && b.size >= NODE_SIZE
    ensures Row(Update(w, b), a, b, c, s, e)
  {
    hide Tiled, Spaced, TagOf;
    TiledInRange(a, s, b.addr);
    TiledInRange(c, Past(b), e);
    TaggedElsewhere(w, Update(w, b), a, s, b.addr);
    TaggedElsewhere(w, Update(w, b), c, Past(b), e);
  }

  // What coalesce reads on the left of a block: the footer of the block there.
  lemma LeftNeighbour(w: Words, a: seq<Blk>, s: Ptr, at: Ptr)
    requires Tiled(a, s, at) && AllTagged(w, a) && META <= s <= at < WORD
    requires s - META in w && w[s - META] == TagOf(0, true)
    ensures META <= at && at - META in w && w[at - META].sizeAndFlags < WORD && w[at - META].Allocated() == LastTaken(a)
    ensures !LastTaken(a) ==> var l := a[|a| - 1];
      && Tiled(a[..|a| - 1], s, l.addr) && Past(l) == at && w[at - META].Size() == l.size && Tagged(w, l)
  {
    hide TagOf, Tiled, And, Not;
    TagReads(0, true);
    if a == [] {
      TiledEmpty(s, at);
    } else {
      var l := a[|a| - 1];
      TiledLast(a, s, at);
      assert l in a;
      TagReads(l.size, l.taken);
    }
  }

  // What it reads on the right: the header of the block there.
  lemma RightNeighbour(w: Words, c: seq<Blk>, at: Ptr, e: Ptr)
    requires Tiled(c, at, e) && AllTagged(w, c) && e < WORD && e in w && w[e] == TagOf(0, true)
    ensures at in w && w[at].sizeAndFlags < WORD && w[at].Allocated() == FirstTaken(c)
    ensures !FirstTaken(c) ==> var r := c[0];
      && Tiled(c[1..], Past(r), e) && r.addr == at && w[at].Size() == r.size && Tagged(w, r)
  {
    hide TagOf, And, Not;
    TagReads(0, true);
    TiledInRange(c, at, e);
    if c != [] {
      assert c[0] in c;
      TagReads(c[0].size, c[0].taken);
    }
  }

  lemma Neighbours(w: Words, a: seq<Blk>, b: Blk, c: seq<Blk>, s: Ptr, e: Ptr)
    requires Row(w, a, b, c, s, e)
    ensures META <= b.addr && b.addr - META in w && Past(b) in w
    ensures w[b.addr - META].sizeAndFlags < WORD && w[Past(b)].sizeAndFlags < WORD
    ensures w[b.addr - META].Allocated() == LastTaken(a) && w[Past(b)].Allocated() == FirstTaken(c)
    ensures !LastTaken(a) ==> var l := a[|a| - 1];
      && Tiled(a[..|a| - 1], s, l.addr) && Past(l) == b.addr && w[b.addr - META].Size() == l.size && Tagged(w, l)
    ensures !FirstTaken(c) ==> var r := c[0];
      && Tiled(c[1..], Past(r), e) && r.addr == Past(b) && w[Past(b)].Size() == r.size && Tagged(w, r)
  {
    hide TagOf, Spaced, Tiled, Tagged, AllTagged, And, Not;
    TiledInRange(a, s, b.addr);
    TiledInRange(c, Past(b), e);
    LeftNeighbour(w, a, s, b.addr);
    RightNeighbour(w, c, Past(b), e);
  }

  // ----- coalescing

  lemma JoinTagged(w: Words, bs: seq<Blk>)
    requires AllTagged(w, bs)
    ensures AllTagged(w, JoinLeft(bs)) && AllTagged(w, JoinRight(bs))
  {
  }

  // Writing the merged block's tags completes the merge.
  lemma CoalesceRow(w: Words, a: seq<Blk>, b: Blk, c: seq<Blk>, s: Ptr, e: Ptr)
    requires Row(w, a, b, c, s, e)
    ensures var b' := JoinBlk(a, b, c);
      && Row(Update(w, b'), JoinLeft(a), b', JoinRight(c), s, e)
      && LastTaken(JoinLeft(a)) && FirstTaken(JoinRight(c))
  {
    hide TagOf, Tiled, Spaced, AllTagged, Fenced, And, Not;
    Neighbours(w, a, b, c, s, e);
    SpacedEnds(a);
    SpacedEnds(c);
    JoinTagged(w, a);
    JoinTagged(w, c);
    UpdateRow(w, JoinLeft(a), JoinBlk(a, b, c), JoinRight(c), s, e);
  }

  lemma FreeSingle(b: Blk)
    ensures FreeSet([b]) == FreeOne(b)
  {
    assert [b][1..] == [];
  }

  // The free blocks in front, with and without the one that is merged.
  lemma JoinFreeLeft(a: seq<Blk>)
    ensures FreeSet(a) == FreeSet(JoinLeft(a)) + if LastTaken(a) then multiset{} else multiset{EntryOf(a[|a| - 1])}
  {
    hide FreeSet;
    if !LastTaken(a) {
      assert a == a[..|a| - 1] + [a[|a| - 1]];
      FreeSetSplit(a[..|a| - 1], [a[|a| - 1]]);
      FreeSingle(a[|a| - 1]);
    }
  }

  lemma JoinFreeRight(c: seq<Blk>)
    ensures FreeSet(c) == FreeSet(JoinRight(c)) + if FirstTaken(c) then multiset{} else multiset{EntryOf(c[0])}
  {
    hide FreeSet;
    if !FirstTaken(c) {
      assert c == [c[0]] + c[1..];
      FreeSetSplit([c[0]], c[1..]);
      FreeSingle(c[0]);
    }
  }

  // ----- splitting

  // The rest b2 of a free block b behind its taken part b1.
  lemma SplitRow(w: Words, a: seq<Blk>, b: Blk, c: seq<Blk>, s: Ptr, e: Ptr, b1: Blk, b2: Blk)
    requires Row(w, a, b, c, s, e) && FirstTaken(c)
    requires b1.addr == b.addr && b2.addr == Past(b1) && Past(b2) == Past(b) && b1.taken && !b2.taken
    requires b1.size % 8 == 0 && b1.size >= NODE_SIZE && b2.size >= NODE_SIZE
    ensures Row(Update(Update(w, b1), b2), a + [b1], b2, c, s, e) && LastTaken(a + [b1])
  {
    hide TagOf, Tiled, Spaced, AllTagged, Fenced;
    var w1 := Update(w, b1);
    EightApart(b.addr, b.size, b1.size, b2);
    SplitFirst(w, a, b, c, s, e, b1);
    NoneTagged(w1);
    AllTaggedAround(w1, a, b1, []);
    TiledAround(a, b1, [], s, Past(b1));
    TiledNone(Past(b1));
    assert a + [b1] + [] == a + [b1];
    SpacedAround(a, b1, []);
    UpdateRow(w1, a + [b1], b2, c, s, e);
  }

  // The tags of the taken part, inside the old block.
  lemma SplitFirst(w: Words, a: seq<Blk>, b: Blk, c: seq<Blk>, s: Ptr, e: Ptr, b1: Blk)
    requires Row(w, a, b, c, s, e) && b1.addr == b.addr && Past(b1) <= Past(b)
    requires b1.size % 8 == 0 && b1.size >= NODE_SIZE
    ensures var w1 := Update(w, b1);
      Tagged(w1, b1) && AllTagged(w1, a) && AllTagged(w1, c) && Fenced(w1, s, e)
  {
    hide TagOf, Tiled, Spaced;
    TiledInRange(a, s, b.addr);
    TiledInRange(c, Past(b), e);
    TaggedElsewhere(w, Update(w, b1), a, s, b.addr);
    TaggedElsewhere(w, Update(w, b1), c, Past(b), e);
  }

  // ----- the free blocks in the tree

  lemma Elsewhere(a: seq<Blk>, b: Blk, c: seq<Blk>, s: Ptr, e: Ptr)
    requires Tiled(a, s, b.addr) && Tiled(c, Past(b), e)
    ensures forall x :: x in FreeSet(a) + FreeSet(c) ==> x.ptr != Payload(b)
  {
    TiledInRange(a, s, b.addr);
    TiledInRange(c, Past(b), e);
    NodesElsewhere(a, s, b.addr, Payload(b));
    NodesElsewhere(c, Past(b), e, Payload(b));
  }

  // A free block's node can be taken out of the tree.
  lemma TreeWithout(es: seq<Entry>, a: seq<Blk>, b: Blk, c: seq<Blk>, s: Ptr, e: Ptr)
    requires Tiled(a, s, b.addr) && Tiled(c, Past(b), e)
    requires multiset(es) == FreeSet(a) + multiset{EntryOf(b)} + FreeSet(c)
    ensures EntryOf(b) in es && multiset(Removed(es, Payload(b))) == FreeSet(a) + FreeSet(c)
  {
    hide FreeSet, Tiled, Removed;
    Elsewhere(a, b, c, s, e);
    assert EntryOf(b) in multiset(es);
    forall x | x in es && x.ptr == Payload(b)
      ensures x == EntryOf(b)
    {
      assert x in multiset(es);
    }
    RemovedBag(es, EntryOf(b));
    BagMinus(FreeSet(a), EntryOf(b), FreeSet(c));
  }

  lemma BagMinus(m: multiset<Entry>, x: Entry, n: multiset<Entry>)
    ensures m + multiset{x} + n - multiset{x} == m + n
  {
  }

  // The node of a block that is not in the tree can be put in.
  lemma TreeWith(es: seq<Entry>, a: seq<Blk>, b: Blk, c: seq<Blk>, s: Ptr, e: Ptr)
    requires Tiled(a, s, b.addr) && Tiled(c, Past(b), e) && !b.taken
    requires multiset(es) == FreeSet(a) + FreeSet(c)
    ensures forall x :: x in es ==> x.ptr != Payload(b)
    ensures multiset(Inserted(es, EntryOf(b))) == FreeSet(a + [b] + c)
  {
    hide FreeSet, Tiled, Inserted;
    Elsewhere(a, b, c, s, e);
    forall x | x in es
      ensures x.ptr != Payload(b)
    {
      assert x in multiset(es);
    }
    InsertedBag(es, EntryOf(b));
    FreeSetAround(a, b, c);
  }

  // ----- live allocations

  // The range handed out is aligned and lies in the block's payload, behind the
  // pointer that leads back to the header.
  ghost predicate Record(backs: Backs, p: Ptr, a: Alloc<Blk>) {
    && Payload(a.block) + META <= p && p + a.size <= Footer(a.block) && a.size > 0
    && a.align > 0 && p % a.align == 0
    && p - META in backs && backs[p - META] == a.block.addr
  }

  // Each block that is taken belongs to one allocation.
  ghost predicate Records(backs: Backs, live: Allocs<Blk>, taken: set<Blk>) {
    && (forall p :: p in live ==> Record(backs, p, live[p]))
    && (forall p, q :: p in live && q in live && p != q ==> live[p].block != live[q].block)
    && taken == BlocksOf(live)
  }

  lemma RecordsAdd(backs: Backs, live: Allocs<Blk>, taken: set<Blk>, p: Ptr, a: Alloc<Blk>)
    requires Records(backs, live, taken) && forall d :: d in taken ==> Apart(d, a.block)
    requires p >= META && Record(backs[p - META := a.block.addr], p, a)
    ensures p !in live && Records(backs[p - META := a.block.addr], live[p := a], taken + {a.block})
  {
    var live', backs' := live[p := a], backs[p - META := a.block.addr];
    forall q | q in live
      ensures live[q].block != a.block && q != p && Record(backs', q, live[q])
    {
      assert live[q].block in BlocksOf(live);
      assert Apart(live[q].block, a.block);
      assert Record(backs, q, live[q]);
    }
    BlocksAdd(live, p, a);
  }

  lemma RecordsRemove(backs: Backs, live: Allocs<Blk>, taken: set<Blk>, p: Ptr)
    requires Records(backs, live, taken) && p in live
    ensures live[p].block in taken && Records(backs, live - {p}, taken - {live[p].block})
  {
    BlocksRemove(live, p);
  }

  // ----- the whole state

  ghost predicate State(m: Tags, st: Abstract, s: Ptr, e: Ptr) {
    HeapOk(m.words, st.blocks, s, e) && Records(m.backs, st.live, TakenSet(st.blocks))
  }

  // The tree's nodes are exactly the free blocks, each with its header's size.
  ghost predicate InTree(es: seq<Entry>, bs: seq<Blk>) {
    multiset(es) == FreeSet(bs)
  }

  // Best fit: no other free block that holds search bytes is smaller.
  ghost predicate BestBlock(bs: seq<Blk>, search: nat, i: nat) {
    && i < |bs| && !bs[i].taken && bs[i].size >= search
    && forall b :: b in bs && !b.taken && b.size >= search ==> bs[i].size <= b.size
  }

  ghost predicate NoBlock(bs: seq<Blk>, search: nat) {
    forall b :: b in bs && !b.taken ==> b.size < search
  }

  lemma BestInTree(m: Memory, es: seq<Entry>, bs: seq<Blk>, search: nat, best: Ptr) returns (i: nat)
    requires InTree(es, bs) && IsBestFit(m, es, search, best)
    ensures best == NIL ==> NoBlock(bs, search)
    ensures best != NIL ==> BestBlock(bs, search, i) && best == Payload(bs[i]) && best in m && m[best].size == bs[i].size
    ensures best != NIL ==> EntryOf(bs[i]) in es
  {
    hide FreeSet;
    i := 0;
    forall b | b in bs && !b.taken
      ensures EntryOf(b) in es
    {
      FreeSetIs(bs, EntryOf(b));
      assert EntryOf(b) in multiset(es);
    }
    if best == NIL {
      forall b | b in bs && !b.taken
        ensures b.size < search
      {
        assert EntryOf(b) in es;
      }
    } else {
      var x := Entry(best, m[best].size);
      assert x in multiset(es);
      FreeSetIs(bs, x);
      var b :| b in bs && !b.taken && x == EntryOf(b);
      i :| 0 <= i < |bs| && bs[i] == b;
      forall d | d in bs && !d.taken && d.size >= search
        ensures b.size <= d.size
      {
        assert EntryOf(d) in es;
      }
    }
  }
}
