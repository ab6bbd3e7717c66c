// What is handed out, by address: shared by all allocators that record it.
module Allocations {
  // A live allocation: the block it lies in, the size that was asked for, and the
  // alignment it was given.
  datatype Alloc<B> = Alloc(block: B, size: nat, align: nat)

  type Allocs<B> = map<nat, Alloc<B>>

  ghost function BlocksOf<B>(live: Allocs<B>): set<B> {
    set p | p in live :: live[p].block
  }

  lemma BlocksAdd<B>(live: Allocs<B>, p: nat, a: Alloc<B>)
    requires p !in live
    ensures BlocksOf(live[p := a]) == BlocksOf(live) + {a.block}
  {
    var live' := live[p := a];
    assert p in live' && live'[p].block == a.block;
    forall d | d in BlocksOf(live)
      ensures d in BlocksOf(live')
    {
      var q :| q in live && live[q].block == d;
      assert q in live' && live'[q].block == d;
    }
  }

  lemma BlocksRemove<B>(live: Allocs<B>, p: nat)
    requires p in live && forall q :: q in live && q != p ==> live[q].block != live[p].block
    ensures live[p].block in BlocksOf(live) && BlocksOf(live - {p}) == BlocksOf(live) - {live[p].block}
  {
    var live' := live - {p};
    forall d | d in BlocksOf(live) - {live[p].block}
      ensures d in BlocksOf(live')
    {
      var q :| q in live && live[q].block == d;
      assert q in live' && live'[q].block == d;
    }
  }
}
