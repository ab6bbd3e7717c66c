// The free list: the free blocks of a row, linked in the order of their addresses.
module FreeListState {
  import opened Rows

  type Ptr = nat
  const NULL: Ptr := 0

  // What lies at the start of a free block, and in front of the data of a live one.
  datatype Node = Node(size: nat, next: Ptr)
  datatype Header = Header(size: nat, pad: nat)

  const HEADER: nat := 16

  type Nodes = map<Ptr, Node>
  type Headers = map<Ptr, Header>

  datatype Memory = Memory(nodes: Nodes, headers: Headers)

  // All bytes of a block.
  function Whole(b: Blk): nat {
    META + b.size + META
  }

  // ----- the free blocks of a row

  function FreeOf(bs: seq<Blk>): seq<Blk> {
    if bs == [] then [] else (if bs[0].taken then [] else [bs[0]]) + FreeOf(bs[1..])
  }

  lemma {:induction false} FreeOfSplit(a: seq<Blk>, b: seq<Blk>)
    ensures FreeOf(a + b) == FreeOf(a) + FreeOf(b)
  {
    if a == [] {
      assert a + b == b;
    } else {
      assert (a + b)[0] == a[0] && (a + b)[1..] == a[1..] + b;
      FreeOfSplit(a[1..], b);
    }
  }

  function OneFree(b: Blk): seq<Blk> {
    if b.taken then [] else [b]
  }

  lemma FreeOfOne(b: Blk)
    ensures FreeOf([b]) == OneFree(b)
  {
    assert [b][1..] == [];
  }

  lemma FreeOfAround(a: seq<Blk>, b: Blk, c: seq<Blk>)
    ensures FreeOf(a + [b] + c) == FreeOf(a) + OneFree(b) + FreeOf(c)
  {
    FreeOfSplit(a + [b], c);
    FreeOfSplit(a, [b]);
    FreeOfOne(b);
  }

  lemma {:induction false} FreeOfIs(bs: seq<Blk>, b: Blk)
    ensures b in FreeOf(bs) <==> b in bs && !b.taken
  {
    if bs != [] {
      FreeOfIs(bs[1..], b);
      assert b in bs <==> b == bs[0] || b in bs[1..];
    }
  }

  // ----- linked lists

  function HeadOf(fs: seq<Blk>, tail: Ptr): Ptr {
    if fs == [] then tail else fs[0].addr
  }

  ghost predicate Lies(m: Nodes, b: Blk, next: Ptr) {
    b.addr != NULL && b.addr in m && m[b.addr] == Node(Whole(b), next)
  }

  // The nodes of fs are linked in this order, and the last one to tail.
  ghost predicate Linked(m: Nodes, fs: seq<Blk>, tail: Ptr) {
    fs != [] ==> Lies(m, fs[0], HeadOf(fs[1..], tail)) && Linked(m, fs[1..], tail)
  }

  lemma {:induction false} LinkedSplit(m: Nodes, a: seq<Blk>, b: seq<Blk>, tail: Ptr)
    ensures Linked(m, a + b, tail) <==> Linked(m, a, HeadOf(b, tail)) && Linked(m, b, tail)
    ensures HeadOf(a + b, tail) == HeadOf(a, HeadOf(b, tail))
  {
    if a == [] {
      assert a + b == b;
    } else {
      assert (a + b)[0] == a[0] && (a + b)[1..] == a[1..] + b;
      LinkedSplit(m, a[1..], b, tail);
    }
  }

  ghost predicate NoneAt(fs: seq<Blk>, p: Ptr) {
    forall b :: b in fs ==> b.addr != p
  }

  lemma {:induction false} LinkedElsewhere(m: Nodes, p: Ptr, n: Node, fs: seq<Blk>, tail: Ptr)
    requires Linked(m, fs, tail) && NoneAt(fs, p)
    ensures Linked(m[p := n], fs, tail)
  {
    if fs != [] {
      assert fs[0] in fs;
      LinkedElsewhere(m, p, n, fs[1..], tail);
    }
  }

  // The address of the last node, or null.
  function LastOf(fs: seq<Blk>): Ptr {
    if fs == [] then NULL else fs[|fs| - 1].addr
  }

  // prev->next = v, or the head of the list if there is no prev.
  function SetNext(m: Nodes, prev: Ptr, v: Ptr): Nodes
    requires prev != NULL ==> prev in m
  {
    if prev == NULL then m else m[prev := m[prev].(next := v)]
  }

  function SetHead(head: Ptr, prev: Ptr, v: Ptr): Ptr {
    if prev == NULL then v else head
  }

  lemma LastLies(m: Nodes, fs: seq<Blk>, tail: Ptr)
    requires Linked(m, fs, tail) && fs != []
    ensures Lies(m, fs[|fs| - 1], tail) && LastOf(fs) != NULL && LastOf(fs) in m
  {
    var a, b := fs[..|fs| - 1], fs[|fs| - 1];
    assert fs == a + [b];
    LinkedSplit(m, a, [b], tail);
    assert [b][1..] == [];
  }

  // The list in front leads somewhere else.
  lemma Relink(m: Nodes, fs: seq<Blk>, tail: Ptr, v: Ptr)
    requires Linked(m, fs, tail) && forall i, j :: 0 <= i < j < |fs| ==> fs[i].addr != fs[j].addr
    ensures LastOf(fs) != NULL ==> LastOf(fs) in m
    ensures Linked(SetNext(m, LastOf(fs), v), fs, v)
    ensures SetHead(HeadOf(fs, tail), LastOf(fs), v) == HeadOf(fs, v)
  {
    if fs != [] {
      var a, b := fs[..|fs| - 1], fs[|fs| - 1];
      LastLies(m, fs, tail);
      assert fs == a + [b];
      LinkedSplit(m, a, [b], tail);
      var m' := m[b.addr := m[b.addr].(next := v)];
      LinkedElsewhere(m, b.addr, m[b.addr].(next := v), a, b.addr);
      assert [b][1..] == [];
      assert Linked(m', [b], v);
      LinkedSplit(m', a, [b], v);
    }
  }

  lemma RelinkElsewhere(m: Nodes, fs: seq<Blk>, tail: Ptr, prev: Ptr, v: Ptr)
    requires Linked(m, fs, tail) && NoneAt(fs, prev) && (prev != NULL ==> prev in m)
    ensures Linked(SetNext(m, prev, v), fs, tail)
  {
    if prev != NULL {
      LinkedElsewhere(m, prev, m[prev].(next := v), fs, tail);
    }
  }

  // ----- addresses in a row

  ghost predicate Rising(fs: seq<Blk>) {
    forall i, j :: 0 <= i < j < |fs| ==> fs[i].addr < fs[j].addr
  }

  // In the list of the free blocks of a row, each ends before the next one starts,
  // and if no two neighbours are free they do not even touch.
  lemma FreeRising(bs: seq<Blk>, s: Ptr, e: Ptr)
    requires Tiled(bs, s, e)
    ensures forall b :: b in FreeOf(bs) ==> s <= b.addr && Past(b) <= e
    ensures Rising(FreeOf(bs))
    ensures Spaced(bs) ==> forall i :: 0 <= i < |FreeOf(bs)| - 1 ==> Past(FreeOf(bs)[i]) < FreeOf(bs)[i + 1].addr
    ensures Spaced(bs) && FreeOf(bs) != [] && FirstTaken(bs) ==> s < FreeOf(bs)[0].addr
  {
    hide *;
    FreeWithin(bs, s, e);
    if Spaced(bs) {
      FreeGaps(bs, s, e);
    }
  }

  lemma {:induction false} FreeWithin(bs: seq<Blk>, s: Ptr, e: Ptr)
    requires Tiled(bs, s, e)
    ensures forall b :: b in FreeOf(bs) ==> s <= b.addr && Past(b) <= e
    ensures Rising(FreeOf(bs))
  {
    if bs != [] {
      FreeWithin(bs[1..], Past(bs[0]), e);
      TiledInRange(bs[1..], Past(bs[0]), e);
    }
  }

  lemma {:induction false} FreeGaps(bs: seq<Blk>, s: Ptr, e: Ptr)
    requires Tiled(bs, s, e) && Spaced(bs)
    ensures forall i :: 0 <= i < |FreeOf(bs)| - 1 ==> Past(FreeOf(bs)[i]) < FreeOf(bs)[i + 1].addr
    ensures FreeOf(bs) != [] && FirstTaken(bs) ==> s < FreeOf(bs)[0].addr
  {
    hide Spaced;
    if bs != [] {
      var b, c := bs[0], bs[1..];
      assert bs == [] + [b] + c;
      SpacedAround([], b, c);
      FreeGaps(c, Past(b), e);
      FreeWithin(c, Past(b), e);
    }
  }

  // The row around a block splits the list into what lies in front and behind.
  lemma FreeSides(a: seq<Blk>, b: Blk, c: seq<Blk>, s: Ptr, e: Ptr)
    requires Tiled(a, s, b.addr) && Tiled(c, Past(b), e)
    ensures forall x :: x in FreeOf(a) ==> Past(x) <= b.addr
    ensures forall x :: x in FreeOf(c) ==> Past(b) <= x.addr
    ensures Rising(FreeOf(a)) && Rising(FreeOf(c))
  {
    FreeRising(a, s, b.addr);
    FreeRising(c, Past(b), e);
  }

  // A free right neighbour is the next in the list, and only then is that touched.
  lemma FreeRight(b: Blk, c: seq<Blk>, e: Ptr)
    requires Tiled(c, Past(b), e) && Spaced(c)
    ensures FreeOf(c) != [] ==> (FreeOf(c)[0].addr == Past(b) <==> !FirstTaken(c))
    ensures !FirstTaken(c) ==> FreeOf(c) == [c[0]] + FreeOf(JoinRight(c))
    ensures FirstTaken(c) ==> JoinRight(c) == c
  {
    FreeRising(c, Past(b), e);
  }

  lemma FreeLeft(a: seq<Blk>, b: Blk, s: Ptr)
    requires Tiled(a, s, b.addr) && Spaced(a)
    ensures FreeOf(a) != [] ==> (Past(FreeOf(a)[|FreeOf(a)| - 1]) == b.addr <==> !LastTaken(a))
    ensures !LastTaken(a) ==> FreeOf(a) == FreeOf(JoinLeft(a)) + [a[|a| - 1]]
    ensures LastTaken(a) ==> JoinLeft(a) == a
  {
    hide FreeOf, Tiled, Spaced;
    if a != [] {
      var l, k := a[|a| - 1], a[..|a| - 1];
      assert a == k + [l];
      FreeOfSplit(k, [l]);
      FreeOfOne(l);
      TiledLast(a, s, b.addr);
      FreeRising(k, s, l.addr);
      LastIn(FreeOf(k));
    } else {
      FreeOfNone();
    }
  }

  lemma LastIn(fs: seq<Blk>)
    ensures fs != [] ==> fs[|fs| - 1] in fs
  {
  }

  lemma FreeOfNone()
    ensures FreeOf([]) == []
  {
  }
}
