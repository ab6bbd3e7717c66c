// The states of the free-list allocator, what its steps make of them, and what
// the operations promise.
module FreeListSpec {
  import opened Bits
  import opened Rows
  import opened Allocations
  import opened FreeListState

  // A rest of this many bytes can hold a node.
  const MIN_REST: nat := 16

  // ----- writes to the list

  lemma RisingDistinct(fs: seq<Blk>)
    requires Rising(fs)
    ensures forall i, j :: 0 <= i < j < |fs| ==> fs[i].addr != fs[j].addr
  {
  }

  // A node b2 takes the place of b, between a and c.
  lemma SwapLinked(m: Nodes, a: seq<Blk>, b: Blk, c: seq<Blk>, b2: Blk)
    requires Linked(m, a + [b] + c, NULL) && Rising(a)
    requires b2.addr != NULL && NoneAt(a, b2.addr) && NoneAt(c, b2.addr) && NoneAt(c, LastOf(a)) && LastOf(a) != b2.addr
    ensures Lies(m, b, HeadOf(c, NULL)) && (LastOf(a) != NULL ==> LastOf(a) in m)
    ensures var m1 := m[b2.addr := Node(Whole(b2), m[b.addr].next)];
      var m2 := SetNext(m1, LastOf(a), b2.addr);
      && Linked(m2, a + [b2] + c, NULL)
      && SetHead(HeadOf(a + [b] + c, NULL), LastOf(a), b2.addr) == HeadOf(a + [b2] + c, NULL)
  {
    hide Linked;
    LinkedAround(m, a, b, c);
    RisingDistinct(a);
    Relink(m, a, b.addr, b2.addr);
    var n := Node(Whole(b2), m[b.addr].next);
    var m1 := m[b2.addr := n];
    LinkedElsewhere(m, b2.addr, n, a, b.addr);
    LinkedElsewhere(m, b2.addr, n, c, NULL);
    Relink(m1, a, b.addr, b2.addr);
    RelinkElsewhere(m1, c, NULL, LastOf(a), b2.addr);
    LinkedAround(SetNext(m1, LastOf(a), b2.addr), a, b2, c);
    HeadAround(a, b, c);
    HeadAround(a, b2, c);
  }

  lemma LinkedAround(m: Nodes, a: seq<Blk>, b: Blk, c: seq<Blk>)
    ensures Linked(m, a + [b] + c, NULL) <==>
      Linked(m, a, b.addr) && Lies(m, b, HeadOf(c, NULL)) && Linked(m, c, NULL)
  {
    LinkedSplit(m, a + [b], c, NULL);
    LinkedSplit(m, a, [b], HeadOf(c, NULL));
    assert [b][1..] == [];
  }

  lemma HeadAround(a: seq<Blk>, b: Blk, c: seq<Blk>)
    ensures HeadOf(a + [b] + c, NULL) == HeadOf(a, b.addr)
  {
  }

  // The node b leaves the list.
  lemma DropLinked(m: Nodes, a: seq<Blk>, b: Blk, c: seq<Blk>)
    requires Linked(m, a + [b] + c, NULL) && Rising(a) && NoneAt(c, LastOf(a))
    ensures Lies(m, b, HeadOf(c, NULL)) && (LastOf(a) != NULL ==> LastOf(a) in m)
    ensures var next := m[b.addr].next;
      && Linked(SetNext(m, LastOf(a), next), a + c, NULL)
      && SetHead(HeadOf(a + [b] + c, NULL), LastOf(a), next) == HeadOf(a + c, NULL)
  {
    hide Linked;
    LinkedAround(m, a, b, c);
    var next := m[b.addr].next;
    RisingDistinct(a);
    Relink(m, a, b.addr, next);
    RelinkElsewhere(m, c, NULL, LastOf(a), next);
    LinkedSplit(SetNext(m, LastOf(a), next), a, c, NULL);
    HeadAround(a, b, c);
  }

  // The node b joins the list, between a and c.
  lemma InsertLinked(m: Nodes, a: seq<Blk>, b: Blk, c: seq<Blk>)
    requires Linked(m, a + c, NULL) && Rising(a)
    requires b.addr != NULL && NoneAt(a, b.addr) && NoneAt(c, b.addr) && NoneAt(c, LastOf(a)) && LastOf(a) != b.addr
    ensures LastOf(a) != NULL ==> LastOf(a) in m
    ensures var m1 := m[b.addr := Node(Whole(b), HeadOf(c, NULL))];
      && Linked(SetNext(m1, LastOf(a), b.addr), a + [b] + c, NULL)
      && SetHead(HeadOf(a + c, NULL), LastOf(a), b.addr) == HeadOf(a + [b] + c, NULL)
  {
    hide Linked;
    LinkedSplit(m, a, c, NULL);
    var n := Node(Whole(b), HeadOf(c, NULL));
    var m1 := m[b.addr := n];
    RisingDistinct(a);
    Relink(m, a, HeadOf(c, NULL), b.addr);
    LinkedElsewhere(m, b.addr, n, a, HeadOf(c, NULL));
    LinkedElsewhere(m, b.addr, n, c, NULL);
    Relink(m1, a, HeadOf(c, NULL), b.addr);
    RelinkElsewhere(m1, c, NULL, LastOf(a), b.addr);
    LinkedAround(SetNext(m1, LastOf(a), b.addr), a, b, c);
    HeadAround(a, b, c);
  }

  // Two blocks that touch, one behind the other in the list, become one.
  function Merged(u: Blk, v: Blk): Blk {
    Blk(u.addr, u.size + META + v.size + META, false)
  }

  lemma MergeLinked(m: Nodes, a: seq<Blk>, u: Blk, v: Blk, c: seq<Blk>)
    requires Linked(m, a + [u] + ([v] + c), NULL) && NoneAt(a, u.addr) && NoneAt(c, u.addr)
    ensures Lies(m, u, v.addr) && Lies(m, v, HeadOf(c, NULL))
    ensures var m' := m[u.addr := Node(m[u.addr].size + m[v.addr].size, m[v.addr].next)];
      && Linked(m', a + [Merged(u, v)] + c, NULL)
      && HeadOf(a + [Merged(u, v)] + c, NULL) == HeadOf(a + [u] + ([v] + c), NULL)
  {
    hide Linked;
    LinkedAround(m, a, u, [v] + c);
    LinkedAround(m, [], v, c);
    assert [] + [v] + c == [v] + c;
    var n := Node(m[u.addr].size + m[v.addr].size, m[v.addr].next);
    LinkedElsewhere(m, u.addr, n, a, u.addr);
    LinkedElsewhere(m, u.addr, n, c, NULL);
    LinkedAround(m[u.addr := n], a, Merged(u, v), c);
    HeadAround(a, u, [v] + c);
    HeadAround(a, Merged(u, v), c);
  }

  // ----- the state

  // Nodes and headers are aligned for machine words.
  ghost predicate Eights(bs: seq<Blk>) {
    forall b :: b in bs ==> b.addr % 8 == 0 && b.size % 8 == 0
  }

  ghost predicate RowOk(bs: seq<Blk>, s: Ptr, e: Ptr) {
    Tiled(bs, s, e) && Spaced(bs) && Eights(bs) && s != NULL && e <= WORD / 2
  }

  // The list holds the free blocks, in the order of their addresses.
  ghost predicate ListOk(m: Nodes, head: Ptr, bs: seq<Blk>) {
    head == HeadOf(FreeOf(bs), NULL) && Linked(m, FreeOf(bs), NULL)
  }

  // The data is aligned and lies in its block; the header in front of it knows the
  // size of the block and how far it lies from the block's start.
  ghost predicate Record(h: Headers, p: Ptr, a: Alloc<Blk>) {
    && a.block.addr + HEADER <= p && p + a.size <= Past(a.block) && a.size > 0
    && a.align > 0 && p % a.align == 0
    && p - HEADER in h && h[p - HEADER] == Header(Whole(a.block), p - HEADER - a.block.addr)
  }

  ghost predicate Records(h: Headers, live: Allocs<Blk>, taken: set<Blk>) {
    && (forall p :: p in live ==> Record(h, p, live[p]))
    && (forall p, q :: p in live && q in live && p != q ==> live[p].block != live[q].block)
    && taken == BlocksOf(live)
  }

  ghost predicate State(m: Memory, head: Ptr, st: Abstract, s: Ptr, e: Ptr) {
    RowOk(st.blocks, s, e) && ListOk(m.nodes, head, st.blocks) && Records(m.headers, st.live, TakenSet(st.blocks))
  }

  lemma RecordsAdd(h: Headers, live: Allocs<Blk>, taken: set<Blk>, p: Ptr, a: Alloc<Blk>)
    requires Records(h, live, taken) && forall d :: d in taken ==> Apart(d, a.block)
    requires p >= HEADER + a.block.addr && Record(h[p - HEADER := Header(Whole(a.block), p - HEADER - a.block.addr)], p, a)
    ensures p !in live
    ensures Records(h[p - HEADER := Header(Whole(a.block), p - HEADER - a.block.addr)], live[p := a], taken + {a.block})
  {
    var live', h' := live[p := a], h[p - HEADER := Header(Whole(a.block), p - HEADER - a.block.addr)];
    forall q | q in live
      ensures live[q].block != a.block && q != p && Record(h', q, live[q])
    {
      assert live[q].block in BlocksOf(live);
      assert Apart(live[q].block, a.block);
      assert Record(h, q, live[q]);
    }
    BlocksAdd(live, p, a);
  }

  lemma RecordsRemove(h: Headers, live: Allocs<Blk>, taken: set<Blk>, p: Ptr)
    requires Records(h, live, taken) && p in live
    ensures live[p].block in taken && Records(h, live - {p}, taken - {live[p].block})
  {
    BlocksRemove(live, p);
  }

  // ----- sizes

  // The bytes an allocation takes of a free block at addr.
  function Required(addr: Ptr, size: nat, align: nat): nat
    requires align > 0
  {
    AlignUp(size + HEADER + CalcPad(addr + HEADER, align), 8)
  }

  predicate Fits(b: Blk, size: nat, align: nat)
    requires align > 0
  {
    Whole(b) >= Required(b.addr, size, align)
  }

  lemma EightIs()
    ensures Pow2(3) == 8
  {
  }

  // Aligned data of size bytes behind pad and header, in whole words.
  // The largest pad that a block of this alignment can need: blocks start at
  // multiples of 8.
  function PadBound(align: nat): nat {
    if align < 8 then 0 else align - 8
  }

  // Rounding up does not wrap around, whatever block the bytes are taken of.
  predicate NoWrap(size: nat, align: nat) {
    size + HEADER + PadBound(align) + 8 <= WORD
  }

  lemma PadSpec(addr: Ptr, align: nat)
    requires IsPow2(align) && addr % 8 == 0
    ensures var pad := CalcPad(addr + HEADER, align); pad <= PadBound(align) && (addr + pad + HEADER) % align == 0
  {
    hide CalcPad, And, Pow2, Log2;
    IsPow2Log2(align);
    var k := Log2(align);
    CalcPadSpec(addr + HEADER, k);
    EightIs();
    Pow2Order(k, 3);
    var pad := CalcPad(addr + HEADER, align);
    if k < 3 {
      MultipleMono(addr + HEADER, 3, k);
      NoPad(addr + HEADER, pad, align);
    } else {
      MultipleMono(addr + HEADER + pad, k, 3);
      ModAlign(align, k);
      PadOfEights(addr + HEADER, pad, align);
    }
  }

  lemma NoPad(a: nat, pad: nat, align: nat)
    requires pad < align && a % align == 0 && (a + pad) % align == 0
    ensures pad == 0
  {
    ModSub(a + pad, a, align);
  }

  lemma PadOfEights(a: nat, pad: nat, align: nat)
    requires pad < align && a % 8 == 0 && (a + pad) % 8 == 0 && align % 8 == 0
    ensures pad <= align - 8
  {
  }

  lemma ModAlign(align: nat, k: nat)
    requires align == Pow2(k) && k >= 3
    ensures align % 8 == 0
  {
    hide Pow2;
    EightIs();
    ModIs(align, align, 1, 0);
    MultipleMono(align, k, 3);
  }

  lemma RequiredSpec(addr: Ptr, size: nat, align: nat)
    requires IsPow2(align) && NoWrap(size, align) && addr % 8 == 0
    ensures var pad, r := CalcPad(addr + HEADER, align), Required(addr, size, align);
      && (addr + pad + HEADER) % align == 0
      && r % 8 == 0 && size + HEADER + pad <= r < size + HEADER + pad + 8
  {
    hide AlignUp, CalcPad, And, Pow2, Log2;
    PadSpec(addr, align);
    EightIs();
    AlignUpSpec(size + HEADER + CalcPad(addr + HEADER, align), 3);
  }

  // Whether the bytes an allocation takes hold header, pad and data.
  predicate Holds(addr: Ptr, size: nat, align: nat)
    requires align > 0
  {
    Required(addr, size, align) >= size + HEADER + CalcPad(addr + HEADER, align)
  }

  // The bytes taken suffice, whatever the block, exactly for the requests that do
  // not wrap around; for others they can be none at all.
  lemma RequiredWraps(size: nat, align: nat)
    requires IsPow2(align) && size + align + HEADER < WORD
    ensures (forall addr: Ptr :: addr % 8 == 0 ==> Holds(addr, size, align)) <==> NoWrap(size, align)
    ensures !NoWrap(size, align) ==> Required(PadBound(align), size, align) == 0
  {
    hide AlignUp, CalcPad, And, Pow2, Log2;
    if NoWrap(size, align) {
      forall addr: Ptr | addr % 8 == 0
        ensures Holds(addr, size, align)
      {
        RequiredSpec(addr, size, align);
      }
    } else {
      WidestPad(align);
      EightIs();
      AlignUpWraps(size + HEADER + PadBound(align), 3);
      assert !Holds(PadBound(align), size, align);
    }
  }

  // The block at this address needs the largest pad.
  lemma WidestPad(align: nat)
    requires IsPow2(align)
    ensures PadBound(align) % 8 == 0 && CalcPad(PadBound(align) + HEADER, align) == PadBound(align)
  {
    hide CalcPad, And, Pow2, Log2;
    IsPow2Log2(align);
    var k := Log2(align);
    EightIs();
    Pow2Order(k, 3);
    if k < 3 {
      PadSpec(0, align);
    } else {
      ModAlign(align, k);
      ModSub(align, 8, 8);
      CalcPadSpec(align - 8 + HEADER, k);
      var pad := CalcPad(align - 8 + HEADER, align);
      SamePad(align + 8, pad, align - 8, align);
    }
  }

  lemma SamePad(a: nat, p: nat, q: nat, d: nat)
    requires p < d && q < d && (a + p) % d == 0 && a + q == 2 * d
    ensures p == q
  {
    ModIs(2 * d, d, 2, 0);
    if p < q {
      ModSub(a + q, a + p, d);
    } else if q < p {
      ModSub(a + p, a + q, d);
    }
  }

  // ----- the row of blocks in the two operations

  lemma EightsAround(a: seq<Blk>, b: Blk, c: seq<Blk>)
    ensures Eights(a + [b] + c) <==> Eights(a) && Eights(c) && b.addr % 8 == 0 && b.size % 8 == 0
  {
    var bs := a + [b] + c;
    if Eights(bs) {
      assert b in bs;
      forall x | x in a || x in c
        ensures x.addr % 8 == 0 && x.size % 8 == 0
      {
        assert x in bs;
      }
    }
    if Eights(a) && Eights(c) && b.addr % 8 == 0 && b.size % 8 == 0 {
      forall x | x in bs
        ensures x.addr % 8 == 0 && x.size % 8 == 0
      {
        assert x in a || x == b || x in c;
      }
    }
  }

  lemma RowAround(a: seq<Blk>, b: Blk, c: seq<Blk>, s: Ptr, e: Ptr)
    ensures RowOk(a + [b] + c, s, e) <==>
      && Tiled(a, s, b.addr) && Tiled(c, Past(b), e) && s != NULL && e <= WORD / 2
      && Spaced(a) && Spaced(c) && (!b.taken ==> LastTaken(a) && FirstTaken(c))
      && Eights(a) && Eights(c) && b.addr % 8 == 0 && b.size % 8 == 0
  {
    hide Tiled, Spaced, Eights;
    TiledAround(a, b, c, s, e);
    SpacedAround(a, b, c);
    EightsAround(a, b, c);
  }

  lemma AllocRow(a: seq<Blk>, b: Blk, c: seq<Blk>, search: nat, s: Ptr, e: Ptr)
    requires RowOk(a + [b] + c, s, e) && !b.taken && b.size >= search && search % 8 == 0
    ensures RowOk(a + Pieces(b, search, MIN_REST) + c, s, e)
  {
    hide RowOk, Tiled, Spaced, Eights, JoinBlk, JoinLeft, JoinRight;
    RowAround(a, b, c, s, e);
    var ps := Pieces(b, search, MIN_REST);
    var b1 := ps[0];
    if |ps| == 2 {
      var b2 := ps[1];
      NoEights();
      TiledNone(Past(b1));
      assert a + [b1] + [] == a + [b1];
      EightApart(b.addr, b.size, b1.size, b2);
      TiledWith(a, b1, s, e);
      SpacedAround(a, b1, []);
      EightsAround(a, b1, []);
      RowAround(a + [b1], b2, c, s, e);
      assert a + ps + c == a + [b1] + [b2] + c;
    } else {
      RowAround(a, b1, c, s, e);
      assert ps == [b1];
    }
  }

  lemma AllocFreeOf(a: seq<Blk>, b: Blk, c: seq<Blk>, search: nat)
    requires b.size >= search
    ensures FreeOf(a + Pieces(b, search, MIN_REST) + c) == FreeOf(a) + (Pieces(b, search, MIN_REST)[1..]) + FreeOf(c)
  {
    hide FreeOf;
    var ps := Pieces(b, search, MIN_REST);
    var b1 := ps[0];
    if |ps| == 2 {
      FreeOfOne(b1);
      FreeOfSplit(a, [b1]);
      assert FreeOf(a) + [] == FreeOf(a);
      assert a + ps + c == a + [b1] + [ps[1]] + c && ps[1..] == [ps[1]];
      FreeOfAround(a + [b1], ps[1], c);
    } else {
      assert ps == [b1] && ps[1..] == [];
      FreeOfAround(a, b1, c);
    }
  }

  lemma AllocTaken(a: seq<Blk>, b: Blk, c: seq<Blk>, search: nat)
    requires b.size >= search
    ensures TakenSet(a + Pieces(b, search, MIN_REST) + c) == TakenSet(a) + {Pieces(b, search, MIN_REST)[0]} + TakenSet(c)
  {
    hide TakenSet;
    var ps := Pieces(b, search, MIN_REST);
    var b1 := ps[0];
    if |ps| == 2 {
      TakenNone();
      assert a + [b1] + [] == a + [b1];
      assert a + ps + c == a + [b1] + [ps[1]] + c;
      TakenAround(a + [b1], ps[1], c);
      TakenAround(a, b1, []);
    } else {
      assert ps == [b1];
      TakenAround(a, b1, c);
    }
  }

  lemma NoEights()
    ensures Eights([])
  {
  }

  lemma JoinEights(bs: seq<Blk>)
    requires Eights(bs)
    ensures Eights(JoinLeft(bs)) && Eights(JoinRight(bs))
    ensures bs != [] ==> bs[0].size % 8 == 0 && bs[|bs| - 1].addr % 8 == 0 && bs[|bs| - 1].size % 8 == 0
  {
  }

  lemma EightSum(x: nat, y: nat)
    requires x % 8 == 0 && y % 8 == 0
    ensures (x + META + y + META) % 8 == 0
  {
    var q, r := x / 8, y / 8;
    assert x == 8 * q && y == 8 * r;
    Times8(x + META + y + META, q + r + 2);
  }

  lemma EightJoin(a: seq<Blk>, b: Blk, c: seq<Blk>)
    requires Eights(a) && Eights(c) && b.addr % 8 == 0 && b.size % 8 == 0
    ensures JoinBlk(a, b, c).addr % 8 == 0 && JoinBlk(a, b, c).size % 8 == 0
  {
    hide Eights;
    JoinEights(a);
    JoinEights(c);
    var r := if FirstTaken(c) then b.size else b.size + META + c[0].size + META;
    if !FirstTaken(c) {
      EightSum(b.size, c[0].size);
    }
    if !LastTaken(a) {
      EightSum(r, a[|a| - 1].size);
    }
  }

  lemma JoinTiled(a: seq<Blk>, b: Blk, c: seq<Blk>, s: Ptr, e: Ptr)
    requires Tiled(a, s, b.addr) && Tiled(c, Past(b), e)
    ensures Tiled(JoinLeft(a), s, JoinBlk(a, b, c).addr) && Tiled(JoinRight(c), Past(JoinBlk(a, b, c)), e)
  {
    if a != [] {
      TiledLast(a, s, b.addr);
    }
  }

  lemma FreeRow(a: seq<Blk>, b: Blk, c: seq<Blk>, s: Ptr, e: Ptr)
    requires RowOk(a + [b] + c, s, e) && b.taken
    ensures var b' := JoinBlk(a, b, c);
      && RowOk(JoinLeft(a) + [b'] + JoinRight(c), s, e)
      && FreeOf(JoinLeft(a) + [b'] + JoinRight(c)) == FreeOf(JoinLeft(a)) + [b'] + FreeOf(JoinRight(c))
      && TakenSet(JoinLeft(a) + [b'] + JoinRight(c)) == TakenSet(a + [b] + c) - {b}
  {
    hide RowOk, TakenSet, Tiled, Spaced, Eights, FreeOf, JoinLeft, JoinRight;
    RowAround(a, b, c, s, e);
    SpacedEnds(a);
    SpacedEnds(c);
    JoinEights(a);
    JoinEights(c);
    EightJoin(a, b, c);
    JoinTiled(a, b, c, s, e);
    RowAround(JoinLeft(a), JoinBlk(a, b, c), JoinRight(c), s, e);
    FreeOfAround(JoinLeft(a), JoinBlk(a, b, c), JoinRight(c));
    TakenAround(a, b, c);
    TakenJoin(a, c);
    TakenApart(a, b, c, s, e);
    TakenAround(JoinLeft(a), JoinBlk(a, b, c), JoinRight(c));
    UnionMinus(TakenSet(a), b, TakenSet(c));
  }

  // ----- walking the list

  // Where the free block number j of the list lies in the row.
  lemma {:induction false} Position(bs: seq<Blk>, j: nat) returns (i: nat)
    requires j < |FreeOf(bs)|
    ensures i < |bs| && bs[i] == FreeOf(bs)[j] && !bs[i].taken
    ensures FreeOf(bs[..i]) == FreeOf(bs)[..j] && FreeOf(bs[i + 1..]) == FreeOf(bs)[j + 1..]
  {
    if !bs[0].taken && j == 0 {
      i := 0;
    } else {
      var k := Position(bs[1..], if bs[0].taken then j else j - 1);
      i := k + 1;
      assert bs[..i] == [bs[0]] + bs[1..][..k] && bs[i + 1..] == bs[1..][k + 1..];
      FreeOfSplit([bs[0]], bs[1..][..k]);
      FreeOfOne(bs[0]);
    }
  }

  lemma Drop(fs: seq<Blk>, j: nat)
    requires j < |fs|
    ensures fs[j..] == [fs[j]] + fs[j + 1..] && fs[..j + 1] == fs[..j] + [fs[j]]
    ensures fs == fs[..j] + [fs[j]] + fs[j + 1..]
  {
  }

  // The node that a walk over the list has come to.
  lemma Visit(m: Nodes, fs: seq<Blk>, j: nat)
    requires Linked(m, fs, NULL) && j <= |fs|
    ensures HeadOf(fs[j..], NULL) != NULL <==> j < |fs|
    ensures j < |fs| ==> HeadOf(fs[j..], NULL) == fs[j].addr && Lies(m, fs[j], HeadOf(fs[j + 1..], NULL)) && LastOf(fs[..j + 1]) == fs[j].addr
  {
    if j < |fs| {
      Drop(fs, j);
      LinkedAround(m, fs[..j], fs[j], fs[j + 1..]);
    }
  }

  // ----- an allocation

  predicate Rest(b: Blk, required: nat) {
    Whole(b) - required >= MIN_REST
  }

  function NewPtr(m: Nodes, b: Blk, required: nat): Ptr
    requires b.addr in m
  {
    if Rest(b, required) then b.addr + required else m[b.addr].next
  }

  // The nodes once b has left the list, or what is left of it has taken its place.
  function AllocNodes(m: Nodes, prev: Ptr, b: Blk, required: nat): Nodes
    requires b.addr in m && (prev != NULL ==> prev in m)
  {
    var m1 := if Rest(b, required) then m[b.addr + required := Node(Whole(b) - required, m[b.addr].next)] else m;
    SetNext(m1, prev, NewPtr(m, b, required))
  }

  lemma AllocList(m: Nodes, head: Ptr, a: seq<Blk>, b: Blk, c: seq<Blk>, required: nat, s: Ptr, e: Ptr)
    requires RowOk(a + [b] + c, s, e) && ListOk(m, head, a + [b] + c) && !b.taken
    requires HEADER <= required <= Whole(b) && required % 8 == 0
    ensures var prev, bs' := LastOf(FreeOf(a)), a + Pieces(b, required - HEADER, MIN_REST) + c;
      && b.addr in m && (prev != NULL ==> prev in m)
      && ListOk(AllocNodes(m, prev, b, required), SetHead(head, prev, NewPtr(m, b, required)), bs')
  {
    hide RowOk, Linked, FreeOf, Tiled, Spaced, Eights, AllocNodes, NewPtr, Pieces;
    RowAround(a, b, c, s, e);
    AllocFreeOf(a, b, c, required - HEADER);
    FreeOfAround(a, b, c);
    FreeSides(a, b, c, s, e);
    TiledInRange(a, s, b.addr);
    AllocLinked(m, FreeOf(a), b, FreeOf(c), required);
  }

  // The same for the nodes in front and behind.
  lemma AllocLinked(m: Nodes, fa: seq<Blk>, b: Blk, fc: seq<Blk>, required: nat)
    requires Linked(m, fa + [b] + fc, NULL) && Rising(fa) && b.addr != NULL && HEADER <= required <= Whole(b)
    requires (forall x :: x in fa ==> Past(x) <= b.addr) && (forall x :: x in fc ==> Past(b) <= x.addr)
    ensures var prev, l := LastOf(fa), fa + (Pieces(b, required - HEADER, MIN_REST)[1..]) + fc;
      && b.addr in m && (prev != NULL ==> prev in m)
      && Linked(AllocNodes(m, prev, b, required), l, NULL)
      && SetHead(HeadOf(fa + [b] + fc, NULL), prev, NewPtr(m, b, required)) == HeadOf(l, NULL)
  {
    hide Linked, Rising;
    Sides(fa, b, fc);
    var ps := Pieces(b, required - HEADER, MIN_REST);
    if Rest(b, required) {
      assert ps[1..] == [ps[1]] && Whole(ps[1]) == Whole(b) - required && ps[1].addr == b.addr + required;
      SwapLinked(m, fa, b, fc, ps[1]);
    } else {
      assert ps[1..] == [];
      assert fa + [] + fc == fa + fc;
      DropLinked(m, fa, b, fc);
    }
  }

  lemma EightMinus(r: nat)
    requires r % 8 == 0 && r >= 16
    ensures (r - 16) % 8 == 0
  {
    var q := r / 8;
    assert r == 8 * q;
    Times8(r - 16, q - 2);
  }

  // No address inside b is one of the nodes in front or behind.
  lemma Sides(fa: seq<Blk>, b: Blk, fc: seq<Blk>)
    requires forall x :: x in fa ==> Past(x) <= b.addr
    requires forall x :: x in fc ==> Past(b) <= x.addr
    requires b.addr != NULL
    ensures forall p :: b.addr <= p < Past(b) ==> NoneAt(fa, p) && NoneAt(fc, p) && LastOf(fa) != p
    ensures NoneAt(fc, LastOf(fa))
  {
    assert fa != [] ==> fa[|fa| - 1] in fa;
    forall p | b.addr <= p < Past(b)
      ensures NoneAt(fa, p) && NoneAt(fc, p) && LastOf(fa) != p
    {
      assert fa != [] ==> Past(fa[|fa| - 1]) <= b.addr;
    }
  }

  lemma AllocState(m: Memory, head: Ptr, st: Abstract, i: nat, required: nat, pad: nat, size: nat, align: nat, s: Ptr, e: Ptr)
    requires State(m, head, st, s, e) && i < |st.blocks| && !st.blocks[i].taken
    requires required <= Whole(st.blocks[i]) && required % 8 == 0 && size + HEADER + pad <= required && size > 0
    requires align > 0 && (st.blocks[i].addr + pad + HEADER) % align == 0
    ensures var b, prev := st.blocks[i], LastOf(FreeOf(st.blocks[..i]));
      var data, b1 := b.addr + pad + HEADER, Pieces(b, required - HEADER, MIN_REST)[0];
      && b.addr in m.nodes && (prev != NULL ==> prev in m.nodes) && data !in st.live
      && State(Memory(AllocNodes(m.nodes, prev, b, required), m.headers[b.addr + pad := Header(Whole(b1), pad)]),
               SetHead(head, prev, NewPtr(m.nodes, b, required)), AllocAbstract(st, i, required - HEADER, MIN_REST, data, size, align), s, e)
  {
    hide RowOk, ListOk, TakenSet, Records, Pieces, AllocNodes, NewPtr, FreeOf;
    var a, b, c := st.blocks[..i], st.blocks[i], st.blocks[i + 1..];
    FirstPiece(b, required - HEADER, MIN_REST);
    var b1 := Pieces(b, required - HEADER, MIN_REST)[0];
    Cut(st.blocks, i);
    EightMinus(required);
    RowAround(a, b, c, s, e);
    AllocRow(a, b, c, required - HEADER, s, e);
    AllocTaken(a, b, c, required - HEADER);
    AllocList(m.nodes, head, a, b, c, required, s, e);
    TakenAround(a, b, c);
    PieceApart(a, b, c, s, e, b1);
    RecordsAdd(m.headers, st.live, TakenSet(st.blocks), b.addr + pad + HEADER, Alloc(b1, size, align));
    UnionOrder(TakenSet(a), b1, TakenSet(c));
  }

  // ----- a deallocation

  // coalesce, to the right
  function RightNodes(m: Nodes, p: Ptr): Nodes
    requires p in m && (m[p].next != NULL ==> m[p].next in m)
  {
    var next := m[p].next;
    if next != NULL && p + m[p].size == next then m[p := Node(m[p].size + m[next].size, m[next].next)] else m
  }

  // and to the left
  function LeftNodes(m: Nodes, prev: Ptr, p: Ptr): Nodes
    requires p in m && (prev != NULL ==> prev in m)
  {
    if prev != NULL && prev + m[prev].size == p then m[prev := Node(m[prev].size + m[p].size, m[p].next)] else m
  }

  ghost function WithRight(b: Blk, c: seq<Blk>): Blk {
    if FirstTaken(c) then b else Merged(b, c[0])
  }

  lemma CoalesceRight(m: Nodes, a: seq<Blk>, b: Blk, c: seq<Blk>, s: Ptr, e: Ptr)
    requires Tiled(a, s, b.addr) && Tiled(c, Past(b), e) && Spaced(c) && s != NULL && !b.taken
    requires Linked(m, FreeOf(a) + [b] + FreeOf(c), NULL)
    ensures b.addr in m && (m[b.addr].next != NULL ==> m[b.addr].next in m)
    ensures var l, l' := FreeOf(a) + [b] + FreeOf(c), FreeOf(a) + [WithRight(b, c)] + FreeOf(JoinRight(c));
      Linked(RightNodes(m, b.addr), l', NULL) && HeadOf(l', NULL) == HeadOf(l, NULL)
  {
    hide Linked, FreeOf, Tiled, Spaced;
    TiledInRange(a, s, b.addr);
    FreeSides(a, b, c, s, e);
    Sides(FreeOf(a), b, FreeOf(c));
    FreeRight(b, c, e);
    LinkedAround(m, FreeOf(a), b, FreeOf(c));
    NextThere(m, FreeOf(c));
    HeadAround(FreeOf(a), b, FreeOf(c));
    HeadAround(FreeOf(a), WithRight(b, c), FreeOf(JoinRight(c)));
    if !FirstTaken(c) {
      NoneOf([c[0]], FreeOf(JoinRight(c)), b.addr);
      MergeLinked(m, FreeOf(a), b, c[0], FreeOf(JoinRight(c)));
    }
  }

  lemma NextThere(m: Nodes, fs: seq<Blk>)
    requires Linked(m, fs, NULL)
    ensures HeadOf(fs, NULL) != NULL ==> fs != [] && HeadOf(fs, NULL) in m
  {
  }

  lemma NoneOf(a: seq<Blk>, c: seq<Blk>, p: Ptr)
    requires NoneAt(a + c, p)
    ensures NoneAt(a, p) && NoneAt(c, p)
  {
    forall b | b in a || b in c
      ensures b.addr != p
    {
      assert b in a + c;
    }
  }

  lemma CoalesceLeft(m: Nodes, a: seq<Blk>, b: Blk, fc: seq<Blk>, s: Ptr)
    requires Tiled(a, s, b.addr) && Spaced(a) && s != NULL && !b.taken
    requires Linked(m, FreeOf(a) + [b] + fc, NULL) && (forall x :: x in fc ==> Past(b) <= x.addr)
    ensures var prev := LastOf(FreeOf(a));
      b.addr in m && (prev != NULL ==> prev in m)
    ensures var l' := FreeOf(JoinLeft(a)) + [if LastTaken(a) then b else Merged(a[|a| - 1], b)] + fc;
      Linked(LeftNodes(m, LastOf(FreeOf(a)), b.addr), l', NULL) && HeadOf(l', NULL) == HeadOf(FreeOf(a) + [b] + fc, NULL)
  {
    hide Linked, FreeOf, Tiled, Spaced;
    var fa := FreeOf(a);
    TiledInRange(a, s, b.addr);
    FreeRising(a, s, b.addr);
    FreeLeft(a, b, s);
    LinkedAround(m, fa, b, fc);
    if fa != [] {
      LastLies(m, fa, b.addr);
      LastIn(fa);
    }
    HeadAround(fa, b, fc);
    if !LastTaken(a) {
      var l, k := a[|a| - 1], FreeOf(JoinLeft(a));
      assert fa == k + [l] && fa[|fa| - 1] == l;
      RisingLast(k, l);
      assert k + [l] + [b] + fc == k + [l] + ([b] + fc);
      Beyond(fc, b, l);
      MergeLinked(m, k, l, b, fc);
      HeadAround(k, l, [b] + fc);
    }
  }

  lemma RisingLast(k: seq<Blk>, l: Blk)
    requires Rising(k + [l])
    ensures NoneAt(k, l.addr)
  {
    forall x | x in k
      ensures x.addr != l.addr
    {
      var i :| 0 <= i < |k| && k[i] == x;
      assert (k + [l])[i] == x && (k + [l])[|k|] == l;
    }
  }

  lemma Beyond(fc: seq<Blk>, b: Blk, l: Blk)
    requires (forall x :: x in fc ==> Past(b) <= x.addr) && Past(l) == b.addr
    ensures NoneAt(fc, l.addr)
  {
  }

  // The whole of coalesce: the list of the merged row.
  lemma CoalesceList(m: Nodes, a: seq<Blk>, b: Blk, c: seq<Blk>, s: Ptr, e: Ptr)
    requires Tiled(a, s, b.addr) && Tiled(c, Past(b), e) && Spaced(a) && Spaced(c) && s != NULL && !b.taken
    requires Linked(m, FreeOf(a) + [b] + FreeOf(c), NULL)
    ensures b.addr in m && (m[b.addr].next != NULL ==> m[b.addr].next in m)
    ensures var m1, prev := RightNodes(m, b.addr), LastOf(FreeOf(a));
      && b.addr in m1 && (prev != NULL ==> prev in m1)
      && var l' := FreeOf(JoinLeft(a)) + [JoinBlk(a, b, c)] + FreeOf(JoinRight(c));
      && Linked(LeftNodes(m1, prev, b.addr), l', NULL)
      && HeadOf(l', NULL) == HeadOf(FreeOf(a) + [b] + FreeOf(c), NULL)
  {
    hide Linked, FreeOf, Tiled, Spaced, LeftNodes, RightNodes;
    CoalesceRight(m, a, b, c, s, e);
    FreeSides(a, b, c, s, e);
    RightBeyond(a, b, c, s, e);
    CoalesceLeft(RightNodes(m, b.addr), a, WithRight(b, c), FreeOf(JoinRight(c)), s);
    JoinBlkIs(a, b, c);
  }

  lemma RightBeyond(a: seq<Blk>, b: Blk, c: seq<Blk>, s: Ptr, e: Ptr)
    requires Tiled(a, s, b.addr) && Tiled(c, Past(b), e)
    ensures forall x :: x in FreeOf(JoinRight(c)) ==> Past(WithRight(b, c)) <= x.addr
  {
    hide FreeOf;
    FreeRising(JoinRight(c), Past(WithRight(b, c)), e);
  }

  lemma FoundBlock(m: Memory, head: Ptr, st: Abstract, p: Ptr, s: Ptr, e: Ptr) returns (i: nat)
    requires State(m, head, st, s, e) && p in st.live
    ensures i < |st.blocks| && st.blocks[i] == st.live[p].block && st.blocks[i].taken
    ensures Record(m.headers, p, st.live[p]) && s <= st.blocks[i].addr && s != NULL
    ensures var a, b, c := st.blocks[..i], st.blocks[i], st.blocks[i + 1..];
      && Tiled(a, s, b.addr) && Tiled(c, Past(b), e) && Spaced(a) && Spaced(c)
      && Linked(m.nodes, FreeOf(a) + FreeOf(c), NULL) && head == HeadOf(FreeOf(a) + FreeOf(c), NULL)
      && FreeOf(st.blocks) == FreeOf(a) + FreeOf(c)
  {
    hide RowOk, Record, FreeOf, Linked, Tiled;
    var b := st.live[p].block;
    assert b in BlocksOf(st.live);
    assert b in TakenSet(st.blocks);
    i :| 0 <= i < |st.blocks| && st.blocks[i] == b;
    var a, c := st.blocks[..i], st.blocks[i + 1..];
    Cut(st.blocks, i);
    RowAround(a, b, c, s, e);
    TiledInRange(a, s, b.addr);
    FreeOfAround(a, b, c);
    assert FreeOf(a) + [] + FreeOf(c) == FreeOf(a) + FreeOf(c);
  }

  // The place of b in the list: behind all nodes at lower addresses.
  lemma PlaceFound(fa: seq<Blk>, fc: seq<Blk>, b: Blk, j: nat)
    requires j <= |fa + fc| && (forall x :: x in fa ==> Past(x) <= b.addr) && (forall x :: x in fc ==> Past(b) <= x.addr)
    requires forall k :: 0 <= k < j ==> (fa + fc)[k].addr < b.addr
    requires j < |fa + fc| ==> (fa + fc)[j].addr >= b.addr
    ensures j == |fa| && (fa + fc)[..j] == fa && (fa + fc)[j..] == fc
  {
    if j < |fa| {
      FirstHalf(fa, fc, j);
    }
    if j > |fa| {
      SecondHalf(fa, fc);
    }
  }

  lemma FirstHalf(fa: seq<Blk>, fc: seq<Blk>, j: nat)
    requires j < |fa|
    ensures fa[j] in fa && (fa + fc)[j] == fa[j]
  {
  }

  lemma SecondHalf(fa: seq<Blk>, fc: seq<Blk>)
    requires fc != []
    ensures fc[0] in fc && (fa + fc)[|fa|] == fc[0]
  {
  }

  // The list with the freed block in it.
  lemma FreeInserts(m: Nodes, a: seq<Blk>, b: Blk, c: seq<Blk>, s: Ptr, e: Ptr)
    requires Tiled(a, s, b.addr) && Tiled(c, Past(b), e) && s != NULL
    requires Linked(m, FreeOf(a) + FreeOf(c), NULL)
    ensures var prev := LastOf(FreeOf(a));
      var b', m1 := b.(taken := false), m[b.addr := Node(Whole(b), HeadOf(FreeOf(c), NULL))];
      && (prev != NULL ==> prev in m) && prev != b.addr
      && Linked(SetNext(m1, prev, b.addr), FreeOf(a) + [b'] + FreeOf(c), NULL)
      && SetHead(HeadOf(FreeOf(a) + FreeOf(c), NULL), prev, b.addr) == HeadOf(FreeOf(a) + [b'] + FreeOf(c), NULL)
  {
    hide FreeOf, Linked, Tiled;
    TiledInRange(a, s, b.addr);
    FreeSides(a, b, c, s, e);
    Sides(FreeOf(a), b, FreeOf(c));
    InsertLinked(m, FreeOf(a), b.(taken := false), FreeOf(c));
  }

  lemma FreeState(m: Memory, head: Ptr, st: Abstract, p: Ptr, i: nat, s: Ptr, e: Ptr, nodes: Nodes, head': Ptr)
    requires State(m, head, st, s, e) && p in st.live && i < |st.blocks| && st.blocks[i] == st.live[p].block && st.blocks[i].taken
    requires var a, b, c := st.blocks[..i], st.blocks[i], st.blocks[i + 1..];
      var l := FreeOf(JoinLeft(a)) + [JoinBlk(a, b, c)] + FreeOf(JoinRight(c));
      Linked(nodes, l, NULL) && head' == HeadOf(l, NULL)
    ensures State(Memory(nodes, m.headers), head', FreeAbstract(st, i, p), s, e)
  {
    hide RowOk, Records, FreeOf, Linked, TakenSet, JoinLeft, JoinRight, JoinBlk;
    Cut(st.blocks, i);
    FreeRow(st.blocks[..i], st.blocks[i], st.blocks[i + 1..], s, e);
    RecordsRemove(m.headers, st.live, TakenSet(st.blocks), p);
  }

  // ----- what the operations promise

  // What alloc_raw lets through.
  predicate GoodRequest(size: nat, align: nat) {
    IsPow2(align) && size > 0 && size + align + HEADER < WORD
  }

  // First fit: every free block in front is too small.
  ghost predicate FirstFit(bs: seq<Blk>, i: nat, size: nat, align: nat)
    requires align > 0
  {
    && i < |bs| && !bs[i].taken && Fits(bs[i], size, align)
    && forall k :: 0 <= k < i && !bs[k].taken ==> !Fits(bs[k], size, align)
  }

  ghost predicate NoneFits(bs: seq<Blk>, size: nat, align: nat)
    requires align > 0
  {
    forall b :: b in bs && !b.taken ==> !Fits(b, size, align)
  }

  // Null and no change exactly if no free block is large enough; else the first
  // one that is gives the required bytes, or all if the rest cannot hold a node.
  ghost predicate Allocated(st: Abstract, st': Abstract, ptr: Ptr, size: nat, align: nat)
    requires align > 0
  {
    if NoneFits(st.blocks, size, align) then
      ptr == NULL && st' == st
    else
      exists i: nat :: AllocatedAt(st, st', ptr, size, align, i)
  }

  ghost predicate AllocatedAt(st: Abstract, st': Abstract, ptr: Ptr, size: nat, align: nat, i: nat)
    requires align > 0
  {
    && FirstFit(st.blocks, i, size, align)
    && var b := st.blocks[i];
    var pad, required := CalcPad(b.addr + HEADER, align), Required(b.addr, size, align);
    && HEADER <= required && ptr == b.addr + pad + HEADER && ptr % align == 0 && ptr !in st.live
    && st' == AllocAbstract(st, i, required - HEADER, MIN_REST, ptr, size, align)
    && NoWaste(st', ptr, b, required - HEADER, 0)
  }

  lemma FirstFitAt(bs: seq<Blk>, i: nat, j: nat, size: nat, align: nat)
    requires align > 0 && i < |bs| && !bs[i].taken && Fits(bs[i], size, align)
    requires j <= |FreeOf(bs)| && FreeOf(bs[..i]) == FreeOf(bs)[..j]
    requires forall k :: 0 <= k < j ==> !Fits(FreeOf(bs)[k], size, align)
    ensures FirstFit(bs, i, size, align)
  {
    hide Fits, FreeOf;
    forall k | 0 <= k < i && !bs[k].taken
      ensures !Fits(bs[k], size, align)
    {
      assert bs[k] == bs[..i][k] && bs[k] in bs[..i];
      FreeOfIs(bs[..i], bs[k]);
      var l :| 0 <= l < j && FreeOf(bs)[..j][l] == bs[k];
      assert FreeOf(bs)[l] == bs[k];
    }
  }

  lemma NoneFound(st: Abstract, size: nat, align: nat)
    requires align > 0 && forall k :: 0 <= k < |FreeOf(st.blocks)| ==> !Fits(FreeOf(st.blocks)[k], size, align)
    ensures Allocated(st, st, NULL, size, align)
  {
    hide Fits, FreeOf;
    forall b | b in st.blocks && !b.taken
      ensures !Fits(b, size, align)
    {
      FreeOfIs(st.blocks, b);
      var k :| 0 <= k < |FreeOf(st.blocks)| && FreeOf(st.blocks)[k] == b;
    }
  }

  lemma AllocationDone(st: Abstract, i: nat, ptr: Ptr, size: nat, align: nat)
    requires IsPow2(align) && NoWrap(size, align) && FirstFit(st.blocks, i, size, align)
    requires i < |st.blocks| && st.blocks[i].addr % 8 == 0
    requires ptr == st.blocks[i].addr + CalcPad(st.blocks[i].addr + HEADER, align) + HEADER && ptr !in st.live
    ensures var required := Required(st.blocks[i].addr, size, align);
      HEADER <= required <= Whole(st.blocks[i])
      && Allocated(st, AllocAbstract(st, i, required - HEADER, MIN_REST, ptr, size, align), ptr, size, align)
  {
    hide CalcPad, Required, AllocAbstract, NoWaste, And, Pow2;
    RequiredSpec(st.blocks[i].addr, size, align);
    assert st.blocks[i] in st.blocks;
    var required := Required(st.blocks[i].addr, size, align);
    NothingWasted(st, i, required - HEADER, MIN_REST, ptr, size, align, 0);
    assert AllocatedAt(st, AllocAbstract(st, i, required - HEADER, MIN_REST, ptr, size, align), ptr, size, align, i);
  }

  // ----- what holds of whole runs

  // In every state the list is strictly ascending, no two entries touch, and all
  // blocks together make up the heap.
  lemma ListOfState(m: Memory, head: Ptr, st: Abstract, s: Ptr, e: Ptr)
    requires State(m, head, st, s, e)
    ensures var fs := FreeOf(st.blocks);
      && Linked(m.nodes, fs, NULL) && head == HeadOf(fs, NULL)
      && forall i :: 0 <= i < |fs| - 1 ==> Past(fs[i]) < fs[i + 1].addr
    ensures s + Bytes(st.blocks) == e
  {
    hide Linked, FreeOf;
    FreeRising(st.blocks, s, e);
    BytesAdd(st.blocks, s, e);
  }

  // Freeing at once what was allocated restores the list, whether the block was
  // split or absorbed.
  lemma FreeAfterAlloc(m: Memory, head: Ptr, st: Abstract, m': Memory, head': Ptr, st': Abstract, st'': Abstract,
                       ptr: Ptr, size: nat, align: nat, s: Ptr, e: Ptr)
    requires align > 0 && State(m, head, st, s, e) && State(m', head', st', s, e)
    requires Allocated(st, st', ptr, size, align) && ptr != NULL && ptr in st'.live && Deallocated(st', st'', ptr)
    ensures st'' == st
  {
    hide CalcPad, Required, Spaced, Tiled, Eights, ListOk, Records, DistinctBlocks, AllocAbstract, Deallocated;
    TiledDistinct(st'.blocks, s, e);
    var i: nat :| AllocatedAt(st, st', ptr, size, align, i);
    FreeOfAlloc(st, i, Required(st.blocks[i].addr, size, align) - HEADER, MIN_REST, ptr, size, align, st'');
  }

  // Once nothing is live, one free block spans the heap, as after clear.
  lemma AllFreed(m: Memory, head: Ptr, st: Abstract, s: Ptr, e: Ptr)
    requires State(m, head, st, s, e) && st.live == map[] && s < e
    ensures s + HEADER <= e && st == Cleared(s, e)
    ensures head == s && s in m.nodes && m.nodes[s] == Node(e - s, NULL)
  {
    NoneLive(st, s, e);
    FreeOfOne(st.blocks[0]);
  }

  // The ranges handed out are aligned, lie inside the heap and do not overlap.
  lemma RangesDisjoint(m: Memory, head: Ptr, st: Abstract, s: Ptr, e: Ptr, p: Ptr, q: Ptr)
    requires State(m, head, st, s, e) && p in st.live && q in st.live && p != q
    ensures s <= p && p + st.live[p].size <= e && st.live[p].align > 0 && p % st.live[p].align == 0
    ensures p + st.live[p].size <= q || q + st.live[q].size <= p
  {
    hide RowOk, Tiled, FreeOf, Linked;
    var i := FoundBlock(m, head, st, p, s, e);
    var a, b, c := st.blocks[..i], st.blocks[i], st.blocks[i + 1..];
    TiledInRange(a, s, b.addr);
    TiledInRange(c, Past(b), e);
    TakenApart(a, b, c, s, e);
    var d := st.live[q].block;
    assert d in BlocksOf(st.live);
    Cut(st.blocks, i);
    TakenAround(a, b, c);
    assert d in TakenSet(a) + TakenSet(c);
    assert Record(m.headers, p, st.live[p]) && Record(m.headers, q, st.live[q]);
  }

  // ----- the cleared state

  lemma ClearedState(m: Nodes, h: Headers, s: Ptr, e: Ptr)
    requires s != NULL && s % 8 == 0 && e % 8 == 0 && s + HEADER <= e <= WORD / 2
    ensures State(Memory(m[s := Node(e - s, NULL)], h), s, Cleared(s, e), s, e)
  {
    hide Tiled, Spaced;
    var b := Blk(s, e - s - HEADER, false);
    EightLess(s, e);
    TiledNone(s);
    TiledNone(e);
    NoEights();
    assert [] + [b] + [] == [b];
    RowAround([], b, [], s, e);
    FreeOfOne(b);
    assert [b][1..] == [];
    assert TakenSet([b]) == {} && BlocksOf<Blk>(map[]) == {};
    LinkedAround(m[s := Node(e - s, NULL)], [], b, []);
  }

  // ----- the pieces of the operations

  lemma EightEnd(s: nat, n: nat)
    requires s % 8 == 0 && n % 8 == 0
    ensures (s + n) % 8 == 0
  {
    var q, r := s / 8, n / 8;
    assert s == 8 * q && n == 8 * r;
    Times8(s + n, q + r);
  }

  // The size of the heap: whole pages.
  lemma PageAligned(start: Ptr, size: nat, pageSize: nat)
    requires 0 < size && IsPow2(pageSize) && 16 <= pageSize && size + pageSize <= WORD / 4 && start % pageSize == 0
    ensures pageSize <= WORD && start % 8 == 0
    ensures var total := AlignUp(size, pageSize); size <= total < size + pageSize && total % pageSize == 0 && HEADER <= total && total % 8 == 0
  {
    PageMultiple(start, size, pageSize);
  }

  lemma WholeIs(b: Blk, required: nat)
    requires HEADER <= required <= Whole(b)
    ensures required - HEADER <= b.size
    ensures Whole(Pieces(b, required - HEADER, MIN_REST)[0]) == if Whole(b) - required >= MIN_REST then required else Whole(b)
  {
  }

  lemma FitsIs(b: Blk, size: nat, align: nat)
    requires align > 0
    ensures Fits(b, size, align) <==> Whole(b) >= AlignUp(size + HEADER + CalcPad(b.addr + HEADER, align), 8)
  {
  }

  lemma WalkStart(m: Memory, head: Ptr, st: Abstract, s: Ptr, e: Ptr)
    requires State(m, head, st, s, e)
    ensures head == HeadOf(FreeOf(st.blocks)[0..], NULL) && LastOf(FreeOf(st.blocks)[..0]) == NULL
  {
    assert FreeOf(st.blocks)[0..] == FreeOf(st.blocks);
  }

  lemma WalkStep(m: Memory, head: Ptr, st: Abstract, j: nat, s: Ptr, e: Ptr)
    requires State(m, head, st, s, e) && j <= |FreeOf(st.blocks)| && HeadOf(FreeOf(st.blocks)[j..], NULL) != NULL
    ensures var fs := FreeOf(st.blocks);
      && j < |fs| && HeadOf(fs[j..], NULL) == fs[j].addr && Lies(m.nodes, fs[j], HeadOf(fs[j + 1..], NULL))
      && LastOf(fs[..j + 1]) == fs[j].addr && fs[j].addr % 8 == 0
  {
    Visit(m.nodes, FreeOf(st.blocks), j);
    FreeEights(st.blocks, FreeOf(st.blocks)[j]);
  }

  lemma FreeEights(bs: seq<Blk>, b: Blk)
    requires Eights(bs) && b in FreeOf(bs)
    ensures b.addr % 8 == 0
  {
    hide FreeOf;
    FreeOfIs(bs, b);
  }

  lemma WalkEnd(m: Memory, head: Ptr, st: Abstract, j: nat, s: Ptr, e: Ptr)
    requires State(m, head, st, s, e) && j <= |FreeOf(st.blocks)| && HeadOf(FreeOf(st.blocks)[j..], NULL) == NULL
    ensures j == |FreeOf(st.blocks)|
  {
    Visit(m.nodes, FreeOf(st.blocks), j);
  }

  // The nodes once b is back in the list.
  ghost function InsertedNodes(m: Nodes, a: seq<Blk>, b: Blk, c: seq<Blk>): Nodes
    requires var prev := LastOf(FreeOf(a)); prev != NULL ==> prev in m
  {
    SetNext(m[b.addr := Node(Whole(b), HeadOf(FreeOf(c), NULL))], LastOf(FreeOf(a)), b.addr)
  }

  // All writes of a deallocation together: b joins the list and is merged.
  ghost function FreedNodes(m: Nodes, a: seq<Blk>, b: Blk, c: seq<Blk>): Nodes
    requires FreedReady(m, a, b, c)
  {
    LeftNodes(RightNodes(InsertedNodes(m, a, b, c), b.addr), LastOf(FreeOf(a)), b.addr)
  }

  ghost predicate FreedReady(m: Nodes, a: seq<Blk>, b: Blk, c: seq<Blk>) {
    var prev := LastOf(FreeOf(a));
    && (prev != NULL ==> prev in m) && prev != b.addr
    && var m1 := InsertedNodes(m, a, b, c);
    && b.addr in m1 && (m1[b.addr].next != NULL ==> m1[b.addr].next in m1)
    && var m2 := RightNodes(m1, b.addr);
    && b.addr in m2 && (prev != NULL ==> prev in m2)
  }

  lemma FreeDone(m: Memory, head: Ptr, st: Abstract, p: Ptr, s: Ptr, e: Ptr) returns (i: nat)
    requires State(m, head, st, s, e) && p in st.live
    ensures i < |st.blocks| && st.blocks[i] == st.live[p].block
    ensures var a, b, c := st.blocks[..i], st.blocks[i], st.blocks[i + 1..];
      && Record(m.headers, p, st.live[p]) && (forall x :: x in FreeOf(a) ==> Past(x) <= b.addr) && (forall x :: x in FreeOf(c) ==> Past(b) <= x.addr)
      && Linked(m.nodes, FreeOf(a) + FreeOf(c), NULL) && head == HeadOf(FreeOf(a) + FreeOf(c), NULL)
      && FreedReady(m.nodes, a, b, c)
      && State(Memory(FreedNodes(m.nodes, a, b, c), m.headers), SetHead(head, LastOf(FreeOf(a)), b.addr), FreeAbstract(st, i, p), s, e)
  {
    hide State, FreeOf, Linked, Tiled, Spaced, JoinLeft, JoinRight, JoinBlk, LeftNodes, RightNodes, FreeBlocks, Whole, Record;
    i := FoundBlock(m, head, st, p, s, e);
    var a, b, c := st.blocks[..i], st.blocks[i], st.blocks[i + 1..];
    FreeSides(a, b, c, s, e);
    FreeInserts(m.nodes, a, b, c, s, e);
    CoalesceList(InsertedNodes(m.nodes, a, b, c), a, b.(taken := false), c, s, e);
    JoinIgnores(a, b, c, false);
    FreeState(m, head, st, p, i, s, e, FreedNodes(m.nodes, a, b, c), SetHead(head, LastOf(FreeOf(a)), b.addr));
  }
}
