// The free lists of the buddy allocator as sequences of addresses, one per level:
// what an allocation and a deallocation do to them.
module BuddyLists {
  import opened Bits
  import opened BuddyTree
  import opened Links

  const MAX_ORDER: nat := 32

  // The first block of level k is split; its left half ends up in front.
  function SplitLists(ls: Lists, k: nat): Lists
    requires 0 < k < |ls| && ls[k] != []
  {
    PushAt(PushAt(PopAt(ls, k), k - 1, ls[k][0] + SizeOf(k - 1)), k - 1, ls[k][0])
  }

  function Cascade(ls: Lists, k: nat, target: nat): (r: Lists)
    requires target <= k < |ls| && ls[k] != []
    ensures |r| == |ls| && r[target] != [] && r[target][0] == ls[k][0]
    decreases k
  {
    if k == target then ls else Cascade(SplitLists(ls, k), k - 1, target)
  }

  // The least level from k on with a free block, or the number of levels.
  function FirstFrom(ls: Lists, k: nat): (j: nat)
    requires k <= |ls|
    ensures k <= j <= |ls| && (j < |ls| ==> ls[j] != [])
    ensures forall i :: k <= i < j ==> ls[i] == []
    decreases |ls| - k
  {
    if k == |ls| || ls[k] != [] then k else FirstFrom(ls, k + 1)
  }

  function TakenAddr(ls: Lists, target: nat): Ptr
    requires target <= |ls| && FirstFrom(ls, target) < |ls|
  {
    ls[FirstFrom(ls, target)][0]
  }

  // An allocation of level target, when some block is large enough.
  function Taken(ls: Lists, target: nat): Lists
    requires target <= |ls| && FirstFrom(ls, target) < |ls|
  {
    PopAt(Cascade(ls, FirstFrom(ls, target), target), target)
  }

  function BuddyOf(base: Ptr, addr: Ptr, k: nat): Ptr
    requires base <= addr
  {
    base + Xor(addr - base, SizeOf(k))
  }

  function Lower(a: Ptr, b: Ptr): Ptr {
    if a < b then a else b
  }

  // A deallocation: the block at addr is merged with its buddy as long as that is
  // in the list of its level, and what comes of it goes to the front.
  function Merged(ls: Lists, base: Ptr, end: Ptr, addr: Ptr, k: nat): Lists
    requires |ls| == MAX_ORDER && k < MAX_ORDER && base <= addr
    decreases MAX_ORDER - k
  {
    var b := BuddyOf(base, addr, k);
    if k < MAX_ORDER - 1 && b < end && b in ls[k] then
      Merged(UnlinkAt(ls, k, b), base, end, Lower(addr, b), k + 1)
    else
      PushAt(ls, k, addr)
  }

  lemma BuddyAbove(base: Ptr, addr: Ptr, j: nat, k: nat)
    requires base <= addr && Aligned(addr - base, k + 5) && j < k
    ensures BuddyOf(base, addr, j) == addr + SizeOf(j)
  {
    AlignedBits(addr - base, j + 5, k + 5);
    XorPow2(addr - base, j + 5);
  }

  lemma {:induction false} AlignedBits(a: nat, j: nat, k: nat)
    requires Aligned(a, k) && j < k
    ensures !Bit(a, j)
  {
    if j > 0 {
      AlignedBits(a / 2, j - 1, k - 1);
    }
  }

  // The merge loop undoes the split cascade step for step.
  lemma {:induction false} MergeUndoesCascade(ls: Lists, base: Ptr, end: Ptr, k: nat, target: nat)
    requires |ls| == MAX_ORDER && target <= k < MAX_ORDER && ls[k] != []
    requires forall j :: target <= j < k ==> ls[j] == []
    requires var p := ls[k][0]; base <= p && Aligned(p - base, k + 5) && p + SizeOf(k) <= end
    ensures var p := ls[k][0];
      Merged(PopAt(Cascade(ls, k, target), target), base, end, p, target) == Merged(PopAt(ls, k), base, end, p, k)
    decreases k
  {
    if target < k {
      var p, b, ls1 := ls[k][0], ls[k][0] + SizeOf(k - 1), SplitLists(ls, k);
      assert SizeOf(k) == 2 * SizeOf(k - 1);
      AlignedLess(p - base, k + 4);
      MergeUndoesCascade(ls1, base, end, k - 1, target);
      BuddyAbove(base, p, k - 1, k);
      assert ls1[k - 1] == [p, b];
      var ls2 := PopAt(ls1, k - 1);
      assert ls2[k - 1] == [b];
      assert Without([b], b) == [];
      assert UnlinkAt(ls2, k - 1, b) == PopAt(ls, k);
    }
  }

  lemma {:induction false} AlignedLess(a: nat, e: nat)
    requires Aligned(a, e + 1)
    ensures Aligned(a, e)
  {
    if e > 0 {
      AlignedLess(a / 2, e - 1);
    }
  }

  // Freeing what was just allocated restores every list, contents and order.
  lemma MergedTaken(ls: Lists, base: Ptr, end: Ptr, target: nat)
    requires |ls| == MAX_ORDER && target < MAX_ORDER && FirstFrom(ls, target) < MAX_ORDER
    requires var k, p := FirstFrom(ls, target), TakenAddr(ls, target);
      && base <= p && Aligned(p - base, k + 5) && p + SizeOf(k) <= end
      && BuddyOf(base, p, k) !in ls[k]
    ensures Merged(Taken(ls, target), base, end, TakenAddr(ls, target), target) == ls
  {
    var k, p := FirstFrom(ls, target), TakenAddr(ls, target);
    MergeUndoesCascade(ls, base, end, k, target);
    assert [p] + ls[k][1..] == ls[k];
    assert PushAt(PopAt(ls, k), k, p) == ls;
  }

  // ----- the array of list heads

  lemma SplitHeads(heads: seq<Ptr>, ls: Lists, m: LinkMemory, k: nat)
    requires HeadsOf(heads, ls) && 0 < k < |ls| && ls[k] != [] && PopReady(m, ls[k][0]) && m[ls[k][0]].next == Head(ls[k][1..])
    ensures var p, b := ls[k][0], ls[k][0] + SizeOf(k - 1);
      HeadsOf(heads[k := m[p].next][k - 1 := b][k - 1 := p], SplitLists(ls, k))
      && heads[k := m[p].next][k - 1] == Head(ls[k - 1]) && heads[k] == p
  {
  }
}
