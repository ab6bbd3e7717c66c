// A heap as a row of blocks without gaps, what allocation and deallocation make
// of that row, and which of its blocks are handed out.
module Rows {
  import opened Allocations

  // Besides its payload each block has room for twice META bytes about itself.
  const META: nat := 8

  // ----- a row of blocks

  // A block that starts at addr, with a payload of size bytes.
  datatype Blk = Blk(addr: nat, size: nat, taken: bool)

  function Past(b: Blk): nat {
    b.addr + META + b.size + META
  }

  // The blocks of bs lie one behind the other from s to e.
  ghost predicate Tiled(bs: seq<Blk>, s: nat, e: nat) {
    if bs == [] then s == e else bs[0].addr == s && Tiled(bs[1..], Past(bs[0]), e)
  }

  ghost function EndOf(bs: seq<Blk>, s: nat): nat {
    if bs == [] then s else EndOf(bs[1..], Past(bs[0]))
  }

  lemma {:induction false} TiledSplit(a: seq<Blk>, b: seq<Blk>, s: nat, e: nat)
    ensures Tiled(a + b, s, e) <==> Tiled(a, s, EndOf(a, s)) && Tiled(b, EndOf(a, s), e)
  {
    if a == [] {
      assert a + b == b;
    } else {
      assert (a + b)[0] == a[0] && (a + b)[1..] == a[1..] + b;
      TiledSplit(a[1..], b, Past(a[0]), e);
    }
  }

  // The blocks in front of b, b itself, and those behind it.
  lemma TiledAround(a: seq<Blk>, b: Blk, c: seq<Blk>, s: nat, e: nat)
    ensures Tiled(a + [b] + c, s, e) <==> Tiled(a, s, b.addr) && Tiled(c, Past(b), e)
  {
    TiledSplit(a + [b], c, s, e);
    TiledSplit(a, [b], s, EndOf(a + [b], s));
    EndOfIs(a, s, b.addr);
    EndOfSplit(a, b, s);
    if Tiled(a, s, b.addr) {
      assert Tiled([b], b.addr, Past(b)) by { assert [b][1..] == []; }
    }
    if Tiled([b], EndOf(a, s), EndOf(a + [b], s)) {
      assert [b][1..] == [];
    }
  }

  lemma {:induction false} EndOfSplit(a: seq<Blk>, b: Blk, s: nat)
    ensures EndOf(a + [b], s) == Past(b)
  {
    if a == [] {
      assert a + [b] == [b] && [b][1..] == [];
    } else {
      assert (a + [b])[0] == a[0] && (a + [b])[1..] == a[1..] + [b];
      EndOfSplit(a[1..], b, Past(a[0]));
    }
  }

  lemma {:induction false} EndOfIs(a: seq<Blk>, s: nat, e: nat)
    ensures Tiled(a, s, e) ==> EndOf(a, s) == e
  {
    if a != [] {
      EndOfIs(a[1..], Past(a[0]), e);
    }
  }

  ghost predicate InRange(bs: seq<Blk>, s: nat, e: nat) {
    forall b :: b in bs ==> s <= b.addr && Past(b) <= e
  }

  lemma {:induction false} TiledInRange(bs: seq<Blk>, s: nat, e: nat)
    requires Tiled(bs, s, e)
    ensures s <= e && InRange(bs, s, e)
  {
    if bs != [] {
      TiledInRange(bs[1..], Past(bs[0]), e);
      forall b | b in bs
        ensures s <= b.addr && Past(b) <= e
      {
        assert b == bs[0] || b in bs[1..];
      }
    }
  }

  // The last block of a row ends where the row ends.
  lemma TiledLast(bs: seq<Blk>, s: nat, e: nat)
    requires Tiled(bs, s, e) && bs != []
    ensures Past(bs[|bs| - 1]) == e && Tiled(bs[..|bs| - 1], s, bs[|bs| - 1].addr)
  {
    var a, b := bs[..|bs| - 1], bs[|bs| - 1];
    assert bs == a + [b] + [];
    TiledAround(a, b, [], s, e);
  }

  lemma TiledEmpty(s: nat, e: nat)
    ensures Tiled([], s, e) <==> s == e
  {
  }

  lemma TiledNone(s: nat)
    ensures Tiled([], s, s) && Spaced([])
  {
  }

  lemma Cut(bs: seq<Blk>, i: nat)
    requires i < |bs|
    ensures bs == bs[..i] + [bs[i]] + bs[i + 1..]
  {
  }

  lemma TiledDistinct(bs: seq<Blk>, s: nat, e: nat)
    requires Tiled(bs, s, e)
    ensures DistinctBlocks(bs)
  {
    forall i, j | 0 <= i < j < |bs|
      ensures bs[i] != bs[j]
    {
      Cut(bs, i);
      TiledAround(bs[..i], bs[i], bs[i + 1..], s, e);
      TiledInRange(bs[i + 1..], Past(bs[i]), e);
      assert bs[i + 1..][j - i - 1] == bs[j];
    }
  }

  ghost predicate DistinctBlocks(bs: seq<Blk>) {
    forall i, j :: 0 <= i < j < |bs| ==> bs[i] != bs[j]
  }

  // The blocks with their tags make up the whole heap.
  ghost function Bytes(bs: seq<Blk>): nat {
    if bs == [] then 0 else META + bs[0].size + META + Bytes(bs[1..])
  }

  lemma {:induction false} BytesAdd(bs: seq<Blk>, s: nat, e: nat)
    requires Tiled(bs, s, e)
    ensures s + Bytes(bs) == e
  {
    if bs != [] {
      BytesAdd(bs[1..], Past(bs[0]), e);
    }
  }

  // ----- no two neighbours are free

  ghost predicate Spaced(bs: seq<Blk>) {
    forall i :: 0 <= i < |bs| - 1 ==> bs[i].taken || bs[i + 1].taken
  }

  ghost predicate LastTaken(bs: seq<Blk>) {
    bs != [] ==> bs[|bs| - 1].taken
  }

  ghost predicate FirstTaken(bs: seq<Blk>) {
    bs != [] ==> bs[0].taken
  }

  lemma SpacedAround(a: seq<Blk>, b: Blk, c: seq<Blk>)
    ensures Spaced(a + [b] + c) <==>
      Spaced(a) && Spaced(c) && (!b.taken ==> LastTaken(a) && FirstTaken(c))
  {
    var bs := a + [b] + c;
    if Spaced(bs) {
      forall i | 0 <= i < |a| - 1
        ensures a[i].taken || a[i + 1].taken
      {
        assert bs[i] == a[i] && bs[i + 1] == a[i + 1];
      }
      forall i | 0 <= i < |c| - 1
        ensures c[i].taken || c[i + 1].taken
      {
        assert bs[|a| + 1 + i] == c[i] && bs[|a| + 1 + i + 1] == c[i + 1];
      }
      assert bs[|a|] == b;
      assert |a| > 0 ==> bs[|a| - 1] == a[|a| - 1] && (bs[|a| - 1].taken || bs[|a| - 1 + 1].taken);
      assert |c| > 0 ==> bs[|a| + 1] == c[0];
    }
    if Spaced(a) && Spaced(c) && (!b.taken ==> LastTaken(a) && FirstTaken(c)) {
      forall i | 0 <= i < |bs| - 1
        ensures bs[i].taken || bs[i + 1].taken
      {
        SpacedAt(a, b, c, i);
      }
    }
  }

  lemma SpacedAt(a: seq<Blk>, b: Blk, c: seq<Blk>, i: nat)
    requires Spaced(a) && Spaced(c) && (!b.taken ==> LastTaken(a) && FirstTaken(c)) && i + 1 < |a + [b] + c|
    ensures var bs := a + [b] + c; bs[i].taken || bs[i + 1].taken
  {
    var bs := a + [b] + c;
    if i + 1 < |a| {
      assert bs[i] == a[i] && bs[i + 1] == a[i + 1];
    } else if i + 1 == |a| {
      assert bs[i] == a[i] && bs[i + 1] == b;
    } else if i == |a| {
      assert bs[i] == b && bs[i + 1] == c[0];
    } else {
      var j := i - |a| - 1;
      assert bs[i] == c[j] && bs[i + 1] == c[j + 1];
    }
  }

  // ----- coalescing

  function JoinLeft(a: seq<Blk>): seq<Blk> {
    if a != [] && !a[|a| - 1].taken then a[..|a| - 1] else a
  }

  function JoinRight(c: seq<Blk>): seq<Blk> {
    if c != [] && !c[0].taken then c[1..] else c
  }

  // b together with the free neighbours it has.
  function JoinBlk(a: seq<Blk>, b: Blk, c: seq<Blk>): Blk {
    var r := if c != [] && !c[0].taken then META + c[0].size + META else 0;
    if a != [] && !a[|a| - 1].taken then
      Blk(a[|a| - 1].addr, b.size + r + (META + a[|a| - 1].size + META), false)
    else
      Blk(b.addr, b.size + r, false)
  }

  lemma JoinBlkIs(a: seq<Blk>, b: Blk, c: seq<Blk>)
    ensures JoinBlk(a, b, c) == Blk(if LastTaken(a) then b.addr else a[|a| - 1].addr,
      b.size + (if FirstTaken(c) then 0 else META + c[0].size + META) + (if LastTaken(a) then 0 else META + a[|a| - 1].size + META), false)
  {
  }

  lemma JoinIgnores(a: seq<Blk>, b: Blk, c: seq<Blk>, taken: bool)
    ensures JoinBlk(a, b.(taken := taken), c) == JoinBlk(a, b, c)
  {
  }

  // The row once block i is free and merged with its free neighbours.
  function FreeBlocks(bs: seq<Blk>, i: nat): seq<Blk>
    requires i < |bs|
  {
    JoinLeft(bs[..i]) + [JoinBlk(bs[..i], bs[i], bs[i + 1..])] + JoinRight(bs[i + 1..])
  }

  lemma SpacedEnds(bs: seq<Blk>)
    requires Spaced(bs)
    ensures Spaced(JoinLeft(bs)) && LastTaken(JoinLeft(bs))
    ensures Spaced(JoinRight(bs)) && FirstTaken(JoinRight(bs))
  {
    if bs != [] && !bs[|bs| - 1].taken {
      var a := bs[..|bs| - 1];
      if a != [] {
        var i := |bs| - 2;
        assert a[|a| - 1] == bs[i] && bs[i + 1] == bs[|bs| - 1];
      }
      forall i | 0 <= i < |a| - 1
        ensures a[i].taken || a[i + 1].taken
      {
        assert a[i] == bs[i] && a[i + 1] == bs[i + 1];
      }
    }
    if bs != [] && !bs[0].taken {
      var c := bs[1..];
      if c != [] {
        assert c[0] == bs[0 + 1];
      }
      forall i | 0 <= i < |c| - 1
        ensures c[i].taken || c[i + 1].taken
      {
        assert c[i] == bs[i + 1] && c[i + 1] == bs[i + 1 + 1];
      }
    }
  }

  // ----- splitting

  // What becomes of a free block that is handed out for search bytes: the rest is
  // split off if there are at least minSplit bytes of it.
  function Pieces(b: Blk, search: nat, minSplit: nat): seq<Blk>
    requires b.size >= search && minSplit >= META + META
  {
    if b.size - search >= minSplit then
      [Blk(b.addr, search, true), Blk(b.addr + META + search + META, b.size - search - META - META, false)]
    else
      [b.(taken := true)]
  }

  lemma FirstPiece(b: Blk, search: nat, minSplit: nat)
    requires b.size >= search && minSplit >= META + META
    ensures var ps := Pieces(b, search, minSplit);
      1 <= |ps| <= 2 && ps[0].addr == b.addr && search <= ps[0].size <= b.size && ps[0].taken
  {
  }

  lemma PieceAt(bs: seq<Blk>, i: nat, search: nat, minSplit: nat)
    requires i < |bs| && bs[i].size >= search && minSplit >= META + META
    ensures i < |AllocBlocks(bs, i, search, minSplit)| && AllocBlocks(bs, i, search, minSplit)[i] == Pieces(bs[i], search, minSplit)[0]
  {
  }

  function AllocBlocks(bs: seq<Blk>, i: nat, search: nat, minSplit: nat): seq<Blk>
    requires i < |bs| && bs[i].size >= search && minSplit >= META + META
  {
    bs[..i] + Pieces(bs[i], search, minSplit) + bs[i + 1..]
  }

  // Freeing what was just allocated restores the row of blocks.
  lemma FreeUndoesAlloc(bs: seq<Blk>, i: nat, search: nat, minSplit: nat)
    requires minSplit >= META + META && Spaced(bs) && i < |bs| && !bs[i].taken && bs[i].size >= search
    ensures i < |AllocBlocks(bs, i, search, minSplit)| && FreeBlocks(AllocBlocks(bs, i, search, minSplit), i) == bs
  {
    hide Spaced, FreeBlocks;
    var a, b, c := bs[..i], bs[i], bs[i + 1..];
    Cut(bs, i);
    SpacedAround(a, b, c);
    var ps := Pieces(b, search, minSplit);
    if |ps| == 2 {
      AroundPiece(a, ps[0], [ps[1]] + c);
      assert a + ps + c == a + [ps[0]] + ([ps[1]] + c);
      RestJoins(a, b, ps[0], ps[1], c);
    } else {
      AroundPiece(a, ps[0], c);
      WholeStays(a, b, c);
    }
  }

  lemma AroundPiece(a: seq<Blk>, b: Blk, c: seq<Blk>)
    ensures var bs := a + [b] + c;
      |a| < |bs| && FreeBlocks(bs, |a|) == JoinLeft(a) + [JoinBlk(a, b, c)] + JoinRight(c)
  {
    var bs := a + [b] + c;
    assert bs[..|a|] == a && bs[|a|] == b && bs[|a| + 1..] == c;
  }

  lemma RestJoins(a: seq<Blk>, b: Blk, b1: Blk, b2: Blk, c: seq<Blk>)
    requires LastTaken(a) && !b.taken && !b2.taken && b1.addr == b.addr && Past(b2) == Past(b) && b2.addr == Past(b1)
    ensures JoinLeft(a) + [JoinBlk(a, b1, [b2] + c)] + JoinRight([b2] + c) == a + [b] + c
  {
    assert ([b2] + c)[1..] == c;
  }

  lemma WholeStays(a: seq<Blk>, b: Blk, c: seq<Blk>)
    requires LastTaken(a) && FirstTaken(c) && !b.taken
    ensures JoinLeft(a) + [JoinBlk(a, b.(taken := true), c)] + JoinRight(c) == a + [b] + c
  {
  }

  // ----- live allocations

  ghost function TakenSet(bs: seq<Blk>): set<Blk> {
    set b | b in bs && b.taken
  }

  ghost predicate Apart(b: Blk, d: Blk) {
    Past(b) <= d.addr || Past(d) <= b.addr
  }

  lemma TakenAround(a: seq<Blk>, b: Blk, c: seq<Blk>)
    ensures TakenSet(a + [b] + c) == TakenSet(a) + (if b.taken then {b} else {}) + TakenSet(c)
  {
    var bs := a + [b] + c;
    forall x | x in TakenSet(a) + (if b.taken then {b} else {}) + TakenSet(c)
      ensures x in TakenSet(bs)
    {
      assert x in a || x == b || x in c;
    }
  }

  lemma TakenApart(a: seq<Blk>, b: Blk, c: seq<Blk>, s: nat, e: nat)
    requires Tiled(a, s, b.addr) && Tiled(c, Past(b), e)
    ensures forall d :: d in TakenSet(a) + TakenSet(c) ==> Apart(d, b) && d != b
  {
    TiledInRange(a, s, b.addr);
    TiledInRange(c, Past(b), e);
  }

  lemma TakenJoin(a: seq<Blk>, c: seq<Blk>)
    ensures TakenSet(JoinLeft(a)) == TakenSet(a) && TakenSet(JoinRight(c)) == TakenSet(c)
  {
    if !LastTaken(a) {
      assert a == a[..|a| - 1] + [a[|a| - 1]] + [];
      TakenAround(a[..|a| - 1], a[|a| - 1], []);
    }
    if !FirstTaken(c) {
      assert c == [] + [c[0]] + c[1..];
      TakenAround([], c[0], c[1..]);
    }
  }

  lemma TakenNone()
    ensures TakenSet([]) == {}
  {
  }

  lemma NoneTaken(bs: seq<Blk>)
    requires TakenSet(bs) == {}
    ensures forall b :: b in bs ==> !b.taken
  {
    forall b | b in bs
      ensures !b.taken
    {
      assert b.taken ==> b in TakenSet(bs);
    }
  }

  lemma OneTaken(bs: seq<Blk>)
    requires Spaced(bs) && |bs| > 1
    ensures exists b :: b in bs && b.taken
  {
    assert bs[0] in bs && bs[0 + 1] in bs;
  }

  lemma UnionOrder(x: set<Blk>, b: Blk, y: set<Blk>)
    ensures x + {} + y + {b} == x + {b} + y
  {
  }

  lemma UnionMinus(x: set<Blk>, b: Blk, y: set<Blk>)
    requires b !in x + y
    ensures x + {b} + y - {b} == x + {} + y
  {
  }

  lemma PieceApart(a: seq<Blk>, b: Blk, c: seq<Blk>, s: nat, e: nat, b1: Blk)
    requires Tiled(a, s, b.addr) && Tiled(c, Past(b), e) && b1.addr == b.addr && b1.size <= b.size
    ensures forall d :: d in TakenSet(a) + {} + TakenSet(c) ==> Apart(d, b1)
  {
    TakenApart(a, b, c, s, e);
    assert TakenSet(a) + {} + TakenSet(c) == TakenSet(a) + TakenSet(c);
  }

  lemma Times8(a: nat, q: int)
    requires a == 8 * q
    ensures a % 8 == 0
  {
  }

  lemma EightApart(addr: nat, size: nat, size1: nat, b2: Blk)
    requires addr % 8 == 0 && size % 8 == 0 && size1 % 8 == 0
    requires b2.addr == addr + META + size1 + META && addr + META + size + META == b2.addr + META + b2.size + META
    ensures b2.addr % 8 == 0 && b2.size % 8 == 0
  {
    var q, r, t := addr / 8, size / 8, size1 / 8;
    assert addr == 8 * q && size == 8 * r && size1 == 8 * t;
    Times8(b2.addr, q + t + 2);
    Times8(b2.size, r - t - 2);
  }

  lemma TiledWith(a: seq<Blk>, b: Blk, s: nat, e: nat)
    ensures Tiled(a, s, b.addr) ==> Tiled(a + [b], s, Past(b))
    ensures Tiled(a, Past(b), e) ==> Tiled([b] + a, b.addr, e)
  {
    assert a + [b] == a + [b] + [];
    TiledAround(a, b, [], s, Past(b));
    assert ([b] + a)[1..] == a;
  }

  lemma EightLess(s: nat, e: nat)
    requires s % 8 == 0 && e % 8 == 0 && s + 16 <= e
    ensures (e - s - 16) % 8 == 0
  {
    var q, r := s / 8, e / 8;
    assert s == 8 * q && e == 8 * r;
    Times8(e - s - 16, r - q - 2);
  }

  // ----- a heap: its blocks, and what is handed out of them

  datatype Abstract = Abstract(blocks: seq<Blk>, live: Allocs<Blk>)

  ghost function Cleared(s: nat, e: nat): Abstract
    requires s + META + META <= e
  {
    Abstract([Blk(s, e - s - META - META, false)], map[])
  }

  // search bytes of block i are handed out, the data at data.
  ghost function AllocAbstract(st: Abstract, i: nat, search: nat, minSplit: nat, data: nat, size: nat, align: nat): Abstract
    requires i < |st.blocks| && st.blocks[i].size >= search && minSplit >= META + META
  {
    Abstract(AllocBlocks(st.blocks, i, search, minSplit),
             st.live[data := Alloc(Pieces(st.blocks[i], search, minSplit)[0], size, align)])
  }

  // Of the free block b, ptr was given exactly search bytes if the rest can be a
  // block of its own, with a payload of least bytes, and that rest is free; else it
  // was given all of b.
  ghost predicate NoWaste(st': Abstract, ptr: nat, b: Blk, search: nat, least: nat) {
    && ptr in st'.live && st'.live[ptr].block in st'.blocks
    && var t := st'.live[ptr].block;
    && t.taken && t.addr == b.addr
    && if b.size >= search + META + META + least then
         t.size == search && Blk(t.addr + META + search + META, b.size - search - META - META, false) in st'.blocks
       else
         t.size == b.size
  }

  ghost function FreeAbstract(st: Abstract, i: nat, p: nat): Abstract
    requires i < |st.blocks|
  {
    Abstract(FreeBlocks(st.blocks, i), st.live - {p})
  }

  // A deallocation: the block is free and merged with its free neighbours.
  ghost predicate Deallocated(st: Abstract, st': Abstract, ptr: nat)
    requires ptr in st.live
  {
    exists i: nat :: i < |st.blocks| && st.blocks[i] == st.live[ptr].block && st' == FreeAbstract(st, i, ptr)
  }

  lemma NothingWasted(st: Abstract, i: nat, search: nat, minSplit: nat, data: nat, size: nat, align: nat, least: nat)
    requires i < |st.blocks| && st.blocks[i].size >= search && minSplit == META + META + least
    ensures NoWaste(AllocAbstract(st, i, search, minSplit, data, size, align), data, st.blocks[i], search, least)
  {
    var bs, ps := AllocBlocks(st.blocks, i, search, minSplit), Pieces(st.blocks[i], search, minSplit);
    PieceAt(st.blocks, i, search, minSplit);
    assert bs[i] in bs;
    if |ps| == 2 {
      assert bs[i + 1] == ps[1];
      assert ps[1] in bs;
    }
  }

  lemma FreeOfAlloc(st: Abstract, i: nat, search: nat, minSplit: nat, data: nat, size: nat, align: nat, st'': Abstract)
    requires Spaced(st.blocks) && i < |st.blocks| && !st.blocks[i].taken && st.blocks[i].size >= search && data !in st.live
    requires minSplit >= META + META
    requires var st' := AllocAbstract(st, i, search, minSplit, data, size, align);
      DistinctBlocks(st'.blocks) && Deallocated(st', st'', data)
    ensures st'' == st
  {
    hide FreeBlocks, Pieces, AllocBlocks, Spaced;
    var st' := AllocAbstract(st, i, search, minSplit, data, size, align);
    var j: nat :| j < |st'.blocks| && st'.blocks[j] == st'.live[data].block && st'' == FreeAbstract(st', j, data);
    PieceAt(st.blocks, i, search, minSplit);
    assert i == j;
    FreeUndoesAlloc(st.blocks, i, search, minSplit);
    assert st'.live - {data} == st.live;
  }

  // Once nothing is live, one free block spans the heap.
  lemma NoneLive(st: Abstract, s: nat, e: nat)
    requires Tiled(st.blocks, s, e) && Spaced(st.blocks) && TakenSet(st.blocks) == BlocksOf(st.live)
    requires st.live == map[] && s < e
    ensures s + META + META <= e && st == Cleared(s, e)
  {
    var bs := st.blocks;
    assert BlocksOf(st.live) == {};
    NoneTaken(bs);
    if |bs| > 1 {
      OneTaken(bs);
    }
    TiledEmpty(s, e);
    assert bs == [bs[0]] && bs[1..] == [];
    TiledEmpty(Past(bs[0]), e);
  }
}
