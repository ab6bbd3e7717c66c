// What the free-tree allocator promises, and why its steps keep the promises.
module FreeTreeSpec {
  import opened Bits
  import opened Rows
  import opened Allocations
  import opened RBShape
  import opened RBMemory
  import opened RBSplice
  import opened FreeTreeBlocks
  import opened FreeTreeState

  // ----- sizes and addresses

  // Room for the data wherever alignment moves it, and for the way back.
  function SearchSize(size: nat, align: nat): nat
    requires align > 0
  {
    var s := AlignUp(size + (align - 1) + META, 8);
    if s < NODE_SIZE then AlignUp(NODE_SIZE, 8) else s
  }

  lemma AlignEight(a: nat)
    requires a + 7 < WORD
    ensures var r := AlignUp(a, 8); a <= r < a + 8 && r % 8 == 0
  {
    hide AlignUp, And;
    assert Pow2(3) == 8;
    AlignUpSpec(a, 3);
  }

  lemma SearchSpec(size: nat, align: nat)
    requires align > 0 && size + align + 2 * META <= WORD + 1
    ensures var r := SearchSize(size, align);
      r % 8 == 0 && r >= NODE_SIZE && r >= size + align - 1 + META && (r == NODE_SIZE || r < size + align + 2 * META - 1)
  {
    hide AlignUp, And;
    AlignEight(size + (align - 1) + META);
    AlignEight(NODE_SIZE);
    Between(AlignUp(NODE_SIZE, 8));
  }

  // Rounding the size of a request that is let through up wraps around exactly for
  // the last few sizes; the search is then for a block of the least size.
  lemma SearchWraps(size: nat, align: nat)
    requires align > 0 && size + align + META < WORD
    ensures SearchSize(size, align) >= size + align - 1 + META <==> size + align + 2 * META <= WORD + 1
    ensures size + align + 2 * META > WORD + 1 ==> SearchSize(size, align) == NODE_SIZE
  {
    hide AlignUp, And;
    if size + align + 2 * META <= WORD + 1 {
      SearchSpec(size, align);
    } else {
      assert Pow2(3) == 8;
      AlignUpWraps(size + (align - 1) + META, 3);
      AlignEight(NODE_SIZE);
      Between(AlignUp(NODE_SIZE, 8));
    }
  }

  lemma Between(r: nat)
    requires 40 <= r < 48 && r % 8 == 0
    ensures r == 40
  {
  }

  // Where the data of a block goes.
  lemma DataAt(header: Ptr, align: nat, size: nat, search: nat)
    requires IsPow2(align) && header + META + search <= WORD / 2 && search >= size + align - 1 + META
    ensures align <= WORD
    ensures var data := AlignUp(header + META + META, align);
      header + META + META <= data && data + size <= header + META + search && data % align == 0
  {
    hide AlignUp, And, Pow2, Log2;
    IsPow2Log2(align);
    var k := Log2(align);
    WordIsPow2();
    if k > 64 {
      Pow2Mono(64, k);
    }
    AlignUpSpec(header + META + META, k);
  }

  // ----- an allocation

  function SplitWords(w: Words, b: Blk, search: nat): Words
    requires b.size >= search
  {
    var ps := Pieces(b, search, MIN_SPLIT);
    if |ps| == 2 then Update(Update(w, ps[0]), ps[1]) else Update(w, ps[0])
  }

  lemma AllocHeap(w: Words, a: seq<Blk>, b: Blk, c: seq<Blk>, search: nat, s: Ptr, e: Ptr)
    requires HeapOk(w, a + [b] + c, s, e) && !b.taken && b.size >= search >= NODE_SIZE && search % 8 == 0
    ensures HeapOk(SplitWords(w, b, search), a + Pieces(b, search, MIN_SPLIT) + c, s, e)
    ensures TakenSet(a + Pieces(b, search, MIN_SPLIT) + c) == TakenSet(a) + {Pieces(b, search, MIN_SPLIT)[0]} + TakenSet(c)
  {
    hide Row, HeapOk, TakenSet, Tagged, Update;
    HeapAround(w, a, b, c, s, e);
    RowTagged(w, a, b, c, s, e);
    var ps := Pieces(b, search, MIN_SPLIT);
    var b1 := ps[0];
    if |ps| == 2 {
      var b2 := ps[1];
      SplitRow(w, a, b, c, s, e, b1, b2);
      HeapAround(SplitWords(w, b, search), a + [b1], b2, c, s, e);
      assert a + ps + c == a + [b1] + [b2] + c;
      TakenAround(a + [b1], b2, c);
      assert a + [b1] == a + [b1] + [];
      TakenAround(a, b1, []);
      TakenNone();
    } else {
      RowUpdated(w, a, b, c, s, e, b1);
      HeapAround(SplitWords(w, b, search), a, b1, c, s, e);
      assert ps == [b1];
      TakenAround(a, b1, c);
    }
  }

  lemma RowTagged(w: Words, a: seq<Blk>, b: Blk, c: seq<Blk>, s: Ptr, e: Ptr)
    requires Row(w, a, b, c, s, e)
    ensures Tagged(w, b) && Tiled(a, s, b.addr) && Tiled(c, Past(b), e) && Past(b) <= e <= WORD / 2 && META <= s <= b.addr
  {
    hide Tagged, Spaced, Tiled;
    TiledInRange(a, s, b.addr);
    TiledInRange(c, Past(b), e);
  }

  lemma RowUpdated(w: Words, a: seq<Blk>, b: Blk, c: seq<Blk>, s: Ptr, e: Ptr, b': Blk)
    requires Row(w, a, b, c, s, e) && b'.addr == b.addr && b'.size == b.size
    ensures Row(Update(w, b'), a, b', c, s, e)
  {
    hide Tiled, Spaced, AllTagged, Fenced, Update;
    UpdateRow(w, a, b', c, s, e);
  }

  lemma AllocState(m: Tags, st: Abstract, i: nat, search: nat, data: Ptr, size: nat, align: nat, s: Ptr, e: Ptr)
    requires State(m, st, s, e) && i < |st.blocks| && !st.blocks[i].taken
    requires st.blocks[i].size >= search >= NODE_SIZE && search % 8 == 0
    requires Payload(st.blocks[i]) + META <= data && data + size <= Payload(st.blocks[i]) + search && size > 0
    requires align > 0 && data % align == 0
    ensures data !in st.live
    ensures var b := st.blocks[i];
      State(Tags(SplitWords(m.words, b, search), m.backs[data - META := b.addr]), AllocAbstract(st, i, search, MIN_SPLIT, data, size, align), s, e)
  {
    hide HeapOk, TakenSet, Records, Pieces, SplitWords, Row;
    var a, b, c := st.blocks[..i], st.blocks[i], st.blocks[i + 1..];
    Cut(st.blocks, i);
    HeapAround(m.words, a, b, c, s, e);
    RowTagged(m.words, a, b, c, s, e);
    AllocHeap(m.words, a, b, c, search, s, e);
    TakenAround(a, b, c);
    FirstPiece(b, search, MIN_SPLIT);
    PieceApart(a, b, c, s, e, Pieces(b, search, MIN_SPLIT)[0]);
    RecordsAdd(m.backs, st.live, TakenSet(st.blocks), data, Alloc(Pieces(b, search, MIN_SPLIT)[0], size, align));
    UnionOrder(TakenSet(a), Pieces(b, search, MIN_SPLIT)[0], TakenSet(c));
  }

  // ----- a deallocation

  lemma FoundBlock(m: Tags, st: Abstract, p: Ptr, s: Ptr, e: Ptr) returns (i: nat)
    requires State(m, st, s, e) && p in st.live
    ensures i < |st.blocks| && st.blocks[i] == st.live[p].block && st.blocks[i].taken
    ensures Record(m.backs, p, st.live[p])
    ensures Row(m.words, st.blocks[..i], st.blocks[i], st.blocks[i + 1..], s, e)
  {
    hide HeapOk, Row, Record;
    var b := st.live[p].block;
    assert b in BlocksOf(st.live);
    assert b in TakenSet(st.blocks);
    i :| 0 <= i < |st.blocks| && st.blocks[i] == b;
    Cut(st.blocks, i);
    HeapAround(m.words, st.blocks[..i], b, st.blocks[i + 1..], s, e);
  }

  lemma FreeState(m: Tags, w: Words, st: Abstract, p: Ptr, i: nat, s: Ptr, e: Ptr)
    requires State(m, st, s, e) && p in st.live && i < |st.blocks| && st.blocks[i] == st.live[p].block && st.blocks[i].taken
    requires var a, b, c := st.blocks[..i], st.blocks[i], st.blocks[i + 1..];
      Tiled(a, s, b.addr) && Tiled(c, Past(b), e) && Row(w, JoinLeft(a), JoinBlk(a, b, c), JoinRight(c), s, e)
      && LastTaken(JoinLeft(a)) && FirstTaken(JoinRight(c))
    ensures State(Tags(w, m.backs), FreeAbstract(st, i, p), s, e)
  {
    hide HeapOk, Row, TakenSet, Records, Tiled;
    var a, b, c := st.blocks[..i], st.blocks[i], st.blocks[i + 1..];
    Cut(st.blocks, i);
    HeapAround(w, JoinLeft(a), JoinBlk(a, b, c), JoinRight(c), s, e);
    RecordsRemove(m.backs, st.live, TakenSet(st.blocks), p);
    TakenAround(a, b, c);
    TakenJoin(a, c);
    TakenApart(a, b, c, s, e);
    TakenAround(JoinLeft(a), JoinBlk(a, b, c), JoinRight(c));
    UnionMinus(TakenSet(a), b, TakenSet(c));
  }

  // ----- what holds of whole runs

  // Once nothing is live, one free block spans the heap, as after clear.
  lemma AllFreed(m: Tags, st: Abstract, s: Ptr, e: Ptr)
    requires State(m, st, s, e) && st.live == map[] && s < e
    ensures s + META + META <= e && st == Cleared(s, e)
  {
    NoneLive(st, s, e);
  }

  // The ranges handed out are aligned, lie inside the heap and do not overlap.
  lemma RangesDisjoint(m: Tags, st: Abstract, s: Ptr, e: Ptr, p: Ptr, q: Ptr)
    requires State(m, st, s, e) && p in st.live && q in st.live && p != q
    ensures s <= p && p + st.live[p].size <= e && st.live[p].align > 0 && p % st.live[p].align == 0
    ensures p + st.live[p].size <= q || q + st.live[q].size <= p
  {
    hide HeapOk, Row, Tiled, JoinLeft, JoinRight;
    var i := FoundBlock(m, st, p, s, e);
    RowTagged(m.words, st.blocks[..i], st.blocks[i], st.blocks[i + 1..], s, e);
    TakenApart(st.blocks[..i], st.blocks[i], st.blocks[i + 1..], s, e);
    var d := st.live[q].block;
    assert d in BlocksOf(st.live);
    Cut(st.blocks, i);
    TakenAround(st.blocks[..i], st.blocks[i], st.blocks[i + 1..]);
    assert d in TakenSet(st.blocks[..i]) + TakenSet(st.blocks[i + 1..]);
    assert Record(m.backs, p, st.live[p]) && Record(m.backs, q, st.live[q]);
  }

  // ----- what the operations promise

  // What alloc_raw lets through.
  predicate GoodRequest(size: nat, align: nat) {
    IsPow2(align) && size > 0 && size + AtLeast8(align) + META < WORD
  }

  function AtLeast8(align: nat): nat {
    if align < 8 then 8 else align
  }

  // Null and no change exactly if no free block holds the bytes searched for; else
  // the smallest one that does is handed out, aligned, and what is left of it stays
  // free if it can be a block that holds a node.
  ghost predicate Allocated(st: Abstract, st': Abstract, ptr: Ptr, size: nat, align: nat)
    requires 0 < AtLeast8(align) <= WORD
  {
    var search := SearchSize(size, AtLeast8(align));
    if NoBlock(st.blocks, search) then
      ptr == NIL && st' == st
    else
      exists i: nat :: BestBlock(st.blocks, search, i)
        && ptr == AlignUp(Payload(st.blocks[i]) + META, AtLeast8(align)) && ptr % AtLeast8(align) == 0
        && ptr !in st.live && st' == AllocAbstract(st, i, search, MIN_SPLIT, ptr, size, AtLeast8(align))
        && NoWaste(st', ptr, st.blocks[i], search, NODE_SIZE)
  }

  // Freeing at once what was allocated restores blocks and allocations.
  lemma FreeAfterAlloc(m: Tags, st: Abstract, m': Tags, st': Abstract, st'': Abstract, ptr: Ptr, size: nat, align: nat, s: Ptr, e: Ptr)
    requires 0 < AtLeast8(align) <= WORD && State(m, st, s, e) && State(m', st', s, e)
    requires Allocated(st, st', ptr, size, align) && ptr != NIL && ptr in st'.live && Deallocated(st', st'', ptr)
    ensures st'' == st
  {
    hide SearchSize, AlignUp, Spaced, Tiled, AllTagged, Fenced, Records, DistinctBlocks, Deallocated, AllocAbstract, IsPow2;
    TiledDistinct(st'.blocks, s, e);
    var search := SearchSize(size, AtLeast8(align));
    var i: nat :| BestBlock(st.blocks, search, i) && ptr !in st.live && st' == AllocAbstract(st, i, search, MIN_SPLIT, ptr, size, AtLeast8(align));
    FreeOfAlloc(st, i, search, MIN_SPLIT, ptr, size, AtLeast8(align), st'');
  }

  // ----- the pieces of the operations: what is read

  // The size of the heap: whole pages.
  lemma PageAligned(start: Ptr, size: nat, pageSize: nat)
    requires 0 < size && IsPow2(pageSize) && 4096 <= pageSize && size + pageSize <= WORD / 4 && start % pageSize == 0
    ensures pageSize <= WORD && start % 8 == 0
    ensures var total := AlignUp(size, pageSize); size <= total < size + pageSize && total % pageSize == 0 && 4096 <= total && total % 8 == 0
  {
    PageMultiple(start, size, pageSize);
  }

  lemma EightIs()
    ensures Pow2(3) == 8 && IsPow2(8)
  {
    assert And(8, 7) == 2 * And(4, 3);
  }

  lemma EightIsPow2(align: nat)
    requires IsPow2(align) && align < WORD
    ensures IsPow2(AtLeast8(align)) && 0 < AtLeast8(align) <= WORD
  {
    hide And, Pow2;
    EightIs();
  }

  lemma BlockRead(w: Words, a: seq<Blk>, b: Blk, c: seq<Blk>, s: Ptr, e: Ptr)
    requires Row(w, a, b, c, s, e)
    ensures b.addr in w && w[b.addr].sizeAndFlags < WORD && w[b.addr].Size() == b.size
    ensures META <= b.addr && Past(b) <= e <= WORD / 2 && Tiled(a, s, b.addr) && Tiled(c, Past(b), e)
  {
    hide TagOf, Tiled, Spaced, AllTagged;
    RowTagged(w, a, b, c, s, e);
    TagReads(b.size, b.taken);
  }

  // What coalesce reads: the tags on both sides, and the sizes they lead to.
  lemma CoalesceReads(w: Words, a: seq<Blk>, b: Blk, c: seq<Blk>, s: Ptr, e: Ptr)
    requires Row(w, a, b, c, s, e)
    ensures META <= b.addr && b.addr - META in w && Past(b) in w
    ensures w[b.addr - META].sizeAndFlags < WORD && w[Past(b)].sizeAndFlags < WORD
    ensures w[b.addr - META].Allocated() == LastTaken(a) && w[Past(b)].Allocated() == FirstTaken(c)
    ensures !LastTaken(a) ==> var l := a[|a| - 1];
      && b.addr - META - w[b.addr - META].Size() - META == l.addr
      && l.addr in w && w[l.addr].sizeAndFlags < WORD && w[l.addr].Size() == l.size
    ensures !FirstTaken(c) ==> c[0].addr == Past(b) && w[Past(b)].Size() == c[0].size
  {
    hide TagOf, Tiled, Spaced, AllTagged, Fenced;
    Neighbours(w, a, b, c, s, e);
    RowTagged(w, a, b, c, s, e);
    if !LastTaken(a) {
      var l := a[|a| - 1];
      TagReads(l.size, l.taken);
    }
  }

  lemma LeftReads(w: Words, a: seq<Blk>, b: Blk, c: seq<Blk>, s: Ptr, e: Ptr)
    requires Row(w, a, b, c, s, e)
    ensures Tiled(a, s, b.addr) && Tiled(c, Past(b), e)
    ensures META <= b.addr && b.addr - META in w && w[b.addr - META].sizeAndFlags < WORD
    ensures w[b.addr - META].Allocated() == LastTaken(a)
    ensures !LastTaken(a) ==> var l := a[|a| - 1];
      && b.addr - META - w[b.addr - META].Size() - META == l.addr
      && l.addr in w && w[l.addr].sizeAndFlags < WORD && w[l.addr].Size() == l.size
  {
    hide Row;
    BlockRead(w, a, b, c, s, e);
    CoalesceReads(w, a, b, c, s, e);
  }

  // The merged block's tags, once written.
  lemma JoinedRow(w: Words, a: seq<Blk>, b: Blk, c: seq<Blk>, s: Ptr, e: Ptr)
    requires Row(w, a, b, c, s, e)
    ensures var b', w' := JoinBlk(a, b, c), Update(w, JoinBlk(a, b, c));
      && Row(w', JoinLeft(a), b', JoinRight(c), s, e) && LastTaken(JoinLeft(a)) && FirstTaken(JoinRight(c))
      && b'.addr in w' && w'[b'.addr].sizeAndFlags < WORD && w'[b'.addr].Size() == b'.size
  {
    hide Row, Update, JoinBlk, JoinLeft, JoinRight;
    CoalesceRow(w, a, b, c, s, e);
    BlockRead(Update(w, JoinBlk(a, b, c)), JoinLeft(a), JoinBlk(a, b, c), JoinRight(c), s, e);
  }

  // ----- the pieces of the operations: the tree

  lemma FreeTakenLast(a: seq<Blk>, b: Blk)
    requires b.taken
    ensures FreeSet(a + [b]) == FreeSet(a) && FreeSet([b] + a) == FreeSet(a)
  {
    hide FreeSet;
    FreeSetSplit(a, [b]);
    FreeSetSplit([b], a);
    FreeSingle(b);
  }

  lemma RightLeaves(es: seq<Entry>, a: seq<Blk>, b: Blk, c: seq<Blk>, s: Ptr, e: Ptr)
    requires Tiled(a, s, b.addr) && Tiled(c, Past(b), e) && !FirstTaken(c)
    requires multiset(es) == FreeSet(a) + FreeSet(c)
    ensures EntryOf(c[0]) in es && multiset(Removed(es, Payload(c[0]))) == FreeSet(a) + FreeSet(JoinRight(c))
  {
    hide FreeSet;
    JoinFreeRight(c);
    var b' := b.(taken := true);
    FreeTakenLast(a, b');
    TiledWith(a, b', s, e);
    TreeWithout(es, a + [b'], c[0], c[1..], s, e);
  }

  lemma LeftLeaves(es: seq<Entry>, a: seq<Blk>, b: Blk, c: seq<Blk>, s: Ptr, e: Ptr)
    requires Tiled(a, s, b.addr) && Tiled(c, Past(b), e) && !LastTaken(a)
    requires multiset(es) == FreeSet(a) + FreeSet(JoinRight(c))
    ensures EntryOf(a[|a| - 1]) in es
    ensures multiset(Removed(es, Payload(a[|a| - 1]))) == FreeSet(JoinLeft(a)) + FreeSet(JoinRight(c))
  {
    hide FreeSet;
    JoinFreeLeft(a);
    TiledLast(a, s, b.addr);
    var b' := Blk(b.addr, b.size + if FirstTaken(c) then 0 else META + c[0].size + META, true);
    FreeTakenLast(JoinRight(c), b');
    TiledWith(JoinRight(c), b', s, e);
    TreeWithout(es, a[..|a| - 1], a[|a| - 1], [b'] + JoinRight(c), s, e);
  }

  // The free block that was found can leave the tree.
  lemma Chosen(m: Tags, st: Abstract, es: seq<Entry>, i: nat, search: nat, s: Ptr, e: Ptr)
    requires State(m, st, s, e) && InTree(es, st.blocks) && BestBlock(st.blocks, search, i)
    ensures i < |st.blocks|
    ensures var b := st.blocks[i];
      && !b.taken && b.size >= search && META <= s <= b.addr && b.addr + META + search <= WORD / 2
      && HeapOk(m.words, st.blocks, s, e)
      && EntryOf(b) in es && multiset(Removed(es, Payload(b))) == FreeSet(st.blocks[..i]) + FreeSet(st.blocks[i + 1..])
  {
    hide FreeSet, Row, HeapOk, Records, Tiled;
    var a, b, c := st.blocks[..i], st.blocks[i], st.blocks[i + 1..];
    Cut(st.blocks, i);
    HeapAround(m.words, a, b, c, s, e);
    RowTagged(m.words, a, b, c, s, e);
    FreeSetAround(a, b, c);
    TreeWithout(es, a, b, c, s, e);
  }

  // The rest of a split block can enter the tree.
  lemma RestEnters(w: Words, bs: seq<Blk>, es: seq<Entry>, i: nat, search: nat, s: Ptr, e: Ptr)
    requires HeapOk(w, bs, s, e) && i < |bs| && bs[i].size - search >= MIN_SPLIT
    requires multiset(es) == FreeSet(bs[..i]) + FreeSet(bs[i + 1..])
    ensures var b := bs[i];
      var b1, b2 := Blk(b.addr, search, true), Blk(b.addr + META + search + META, b.size - search - META - META, false);
      && (forall x :: x in es ==> x.ptr != Payload(b2))
      && InTree(Inserted(es, EntryOf(b2)), AllocBlocks(bs, i, search, MIN_SPLIT))
      && SplitWords(w, b, search) == Update(Update(w, b1), b2)
  {
    hide FreeSet, Row, HeapOk, Tiled, Update;
    var a, b, c := bs[..i], bs[i], bs[i + 1..];
    var b1, b2 := Blk(b.addr, search, true), Blk(b.addr + META + search + META, b.size - search - META - META, false);
    Cut(bs, i);
    HeapAround(w, a, b, c, s, e);
    RowTagged(w, a, b, c, s, e);
    FreeTakenLast(a, b1);
    TiledWith(a, b1, s, e);
    TreeWith(es, a + [b1], b2, c, s, e);
    assert AllocBlocks(bs, i, search, MIN_SPLIT) == a + [b1] + [b2] + c;
  }

  lemma WholeTaken(w: Words, bs: seq<Blk>, es: seq<Entry>, i: nat, search: nat)
    requires i < |bs| && 0 <= bs[i].size - search < MIN_SPLIT
    requires multiset(es) == FreeSet(bs[..i]) + FreeSet(bs[i + 1..])
    ensures InTree(es, AllocBlocks(bs, i, search, MIN_SPLIT))
    ensures SplitWords(w, bs[i], search) == Update(w, Blk(bs[i].addr, bs[i].size, true))
  {
    hide FreeSet, Update;
    FreeSetAround(bs[..i], bs[i].(taken := true), bs[i + 1..]);
  }

  lemma TakenOutside(bs: seq<Blk>, es: seq<Entry>, i: nat)
    requires InTree(es, bs) && i < |bs| && bs[i].taken
    ensures multiset(es) == FreeSet(bs[..i]) + FreeSet(bs[i + 1..])
  {
    hide FreeSet;
    Cut(bs, i);
    FreeSetAround(bs[..i], bs[i], bs[i + 1..]);
  }

  // The merged block can enter the tree.
  lemma JoinedEnters(w: Words, es: seq<Entry>, bs: seq<Blk>, i: nat, s: Ptr, e: Ptr)
    requires i < |bs|
    requires var a, c := JoinLeft(bs[..i]), JoinRight(bs[i + 1..]);
      && Row(w, a, JoinBlk(bs[..i], bs[i], bs[i + 1..]), c, s, e)
      && multiset(es) == FreeSet(a) + FreeSet(c)
    ensures var b := JoinBlk(bs[..i], bs[i], bs[i + 1..]);
      && META <= b.addr && (forall x :: x in es ==> x.ptr != Payload(b))
      && InTree(Inserted(es, EntryOf(b)), FreeBlocks(bs, i))
  {
    hide FreeSet, Row, JoinLeft, JoinRight;
    var a, b, c := JoinLeft(bs[..i]), JoinBlk(bs[..i], bs[i], bs[i + 1..]), JoinRight(bs[i + 1..]);
    RowTagged(w, a, b, c, s, e);
    TreeWith(es, a, b, c, s, e);
  }

  // ----- the pieces of the operations: the results

  lemma NothingFound(st: Abstract, size: nat, align: nat)
    requires 0 < AtLeast8(align) <= WORD && NoBlock(st.blocks, SearchSize(size, AtLeast8(align)))
    ensures Allocated(st, st, NIL, size, align)
  {
  }

  lemma AllocationDone(st: Abstract, i: nat, data: Ptr, size: nat, align: nat)
    requires 0 < AtLeast8(align) <= WORD
    requires var search := SearchSize(size, AtLeast8(align));
      BestBlock(st.blocks, search, i) && i < |st.blocks| && st.blocks[i].size >= search
    requires data == AlignUp(Payload(st.blocks[i]) + META, AtLeast8(align)) && data % AtLeast8(align) == 0 && data !in st.live
    ensures Allocated(st, AllocAbstract(st, i, SearchSize(size, AtLeast8(align)), MIN_SPLIT, data, size, AtLeast8(align)), data, size, align)
  {
    hide SearchSize, AlignUp, AllocAbstract, NoWaste;
    var search := SearchSize(size, AtLeast8(align));
    assert st.blocks[i] in st.blocks;
    NothingWasted(st, i, search, MIN_SPLIT, data, size, AtLeast8(align), NODE_SIZE);
  }

  // ----- the cleared state

  lemma ClearedState(w: Words, backs: Backs, s: Ptr, e: Ptr)
    requires s % 8 == 0 && e % 8 == 0 && s + META + NODE_SIZE + META <= e && Fenced(w, s, e)
    ensures var b := Blk(s, e - s - META - META, false);
      && State(Tags(Update(w, b), backs), Cleared(s, e), s, e)
      && InTree(Inserted([], EntryOf(b)), [b])
  {
    hide TagOf, HeapOk;
    var b := Blk(s, e - s - META - META, false);
    TiledNone(s);
    TiledNone(e);
    EightLess(s, e);
    UpdateRow(w, [], b, [], s, e);
    assert [] + [b] + [] == [b];
    HeapAround(Update(w, b), [], b, [], s, e);
    assert TakenSet([b]) == {} && BlocksOf<Blk>(map[]) == {};
    FreeSingle(b);
  }
}
