// The boundary tags of the free-tree allocator, and its free blocks as a bag of
// tree entries.
module FreeTreeBlocks {
  import opened Bits
  import opened Rows
  import opened RBShape
  import opened RBSplice

  const NODE_SIZE: nat := 40
  const MIN_SPLIT: nat := META + META + NODE_SIZE

  // ----- tags

  // Sizes are multiples of 8, so the lowest bit is free for the flag.
  datatype Metadata = Metadata(sizeAndFlags: nat)
  {
    function Size(): nat
      requires sizeAndFlags < WORD
    {
      WordIsPow2();
      And(sizeAndFlags, Not(64, 7))
    }

    predicate Allocated() {
      And(sizeAndFlags, 1) != 0
    }
  }

  function TagOf(size: nat, taken: bool): Metadata {
    Metadata(Or(size, if taken then 1 else 0))
  }

  // What is written is what is read.
  lemma TagReads(size: nat, taken: bool)
    requires size % 8 == 0 && size + 1 < WORD
    ensures var t := TagOf(size, taken);
      t.sizeAndFlags < WORD && t.Size() == size && t.Allocated() == taken
  {
    hide And, Floor;
    WordIsPow2();
    OrOne(size);
    var w := TagOf(size, taken).sizeAndFlags;
    assert w == if taken then size + 1 else size;
    assert Pow2(3) == 8 && Pow2(1) == 2;
    assert Not(64, 7) == HighMask(64, 3);
    AndHighMask(64, w, 3);
    FloorMod(w, 3);
    AndLowMask(w, 1);
    FloorMod(w, 1);
    LowBits(size);
  }

  lemma OrOne(a: nat)
    requires a % 8 == 0
    ensures Or(a, 1) == a + 1 && Or(a, 0) == a
  {
    if a > 0 {
      assert Or(a, 1) == 2 * Or(a / 2, 0) + 1;
      assert Or(a / 2, 0) == a / 2;
    }
  }

  lemma LowBits(size: nat)
    requires size % 8 == 0
    ensures (size + 1) % 8 == 1 && (size + 1) % 2 == 1 && size % 2 == 0
  {
    EightTimes(size, size / 8);
  }

  lemma EightTimes(size: nat, q: nat)
    requires size == 8 * q
    ensures (size + 1) % 8 == 1 && (size + 1) % 2 == 1 && size % 2 == 0
  {
    ModIs(size + 1, 8, q, 1);
    ModIs(size + 1, 2, 4 * q, 1);
    ModIs(size, 2, 4 * q, 0);
  }

  // ----- a row of blocks

  function Payload(b: Blk): Ptr {
    b.addr + META
  }

  function Footer(b: Blk): Ptr {
    b.addr + META + b.size
  }

  function EntryOf(b: Blk): Entry {
    Entry(Payload(b), b.size)
  }

  // ----- free blocks

  ghost function FreeSet(bs: seq<Blk>): multiset<Entry> {
    if bs == [] then multiset{}
    else (if bs[0].taken then multiset{} else multiset{EntryOf(bs[0])}) + FreeSet(bs[1..])
  }

  lemma {:induction false} FreeSetSplit(a: seq<Blk>, b: seq<Blk>)
    ensures FreeSet(a + b) == FreeSet(a) + FreeSet(b)
  {
    if a == [] {
      assert a + b == b;
    } else {
      assert (a + b)[0] == a[0] && (a + b)[1..] == a[1..] + b;
      FreeSetSplit(a[1..], b);
    }
  }

  ghost function FreeOne(b: Blk): multiset<Entry> {
    if b.taken then multiset{} else multiset{EntryOf(b)}
  }

  lemma FreeSetAround(a: seq<Blk>, b: Blk, c: seq<Blk>)
    ensures FreeSet(a + [b] + c) == FreeSet(a) + FreeOne(b) + FreeSet(c)
  {
    FreeSetSplit(a + [b], c);
    FreeSetSplit(a, [b]);
    assert [b][1..] == [];
  }

  lemma {:induction false} FreeSetIs(bs: seq<Blk>, x: Entry)
    ensures x in FreeSet(bs) <==> exists b :: b in bs && !b.taken && x == EntryOf(b)
  {
    if bs != [] {
      FreeSetIs(bs[1..], x);
      if x in FreeSet(bs[1..]) {
        var b :| b in bs[1..] && !b.taken && x == EntryOf(b);
        assert b in bs;
      }
      if b :| b in bs && !b.taken && x == EntryOf(b) {
        assert b == bs[0] || b in bs[1..];
      }
      assert bs[0] in bs;
    }
  }

  // Free blocks elsewhere have their nodes elsewhere.
  lemma NodesElsewhere(bs: seq<Blk>, s: Ptr, e: Ptr, p: Ptr)
    requires InRange(bs, s, e) && !(s + META <= p < e)
    ensures forall x :: x in FreeSet(bs) ==> x.ptr != p
  {
    forall x | x in FreeSet(bs)
      ensures x.ptr != p
    {
      FreeSetIs(bs, x);
    }
  }

  // ----- the tree's entries as a bag

  lemma {:induction false} InsertedBag(es: seq<Entry>, e: Entry)
    ensures multiset(Inserted(es, e)) == multiset(es) + multiset{e}
  {
    if !(es == [] || e.size <= es[0].size) {
      InsertedBag(es[1..], e);
      assert es == [es[0]] + es[1..];
    }
  }

  lemma {:induction false} RemovedBag(es: seq<Entry>, e: Entry)
    requires e in es && forall x :: x in es && x.ptr == e.ptr ==> x == e
    ensures multiset(Removed(es, e.ptr)) == multiset(es) - multiset{e}
  {
    assert es == [es[0]] + es[1..];
    if es[0].ptr != e.ptr {
      RemovedBag(es[1..], e);
    }
  }
}
