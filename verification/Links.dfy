// Intrusive doubly linked lists: chains of nodes through one shared memory.
module Links {

  type Ptr = nat
  const NULL: Ptr := 0

  datatype Link = Link(prev: Ptr, next: Ptr)

  type LinkMemory = map<Ptr, Link>

  function Head(s: seq<Ptr>): Ptr {
    if s == [] then NULL else s[0]
  }

  ghost predicate NoDup(s: seq<Ptr>) {
    forall i, j :: 0 <= i < j < |s| ==> s[i] != s[j]
  }

  // The nodes of s are linked in both directions, in this order, with null ends.
  ghost predicate Chain(m: LinkMemory, s: seq<Ptr>) {
    && NoDup(s)
    && forall i :: 0 <= i < |s| ==> LinkedAt(m, s, i)
  }

  ghost predicate LinkedAt(m: LinkMemory, s: seq<Ptr>, i: nat)
    requires i < |s|
  {
    && s[i] != NULL && s[i] in m
    && m[s[i]] == Link(if i == 0 then NULL else s[i - 1], if i + 1 < |s| then s[i + 1] else NULL)
  }

  function Without(s: seq<Ptr>, p: Ptr): seq<Ptr> {
    if s == [] then [] else if s[0] == p then s[1..] else [s[0]] + Without(s[1..], p)
  }

  // ----- what the list operations write

  // p becomes the first node of the list that starts at head.
  function PushMemory(m: LinkMemory, head: Ptr, p: Ptr): LinkMemory
    requires head != NULL ==> head in m
  {
    var m' := m[p := Link(NULL, head)];
    if head != NULL then m'[head := m'[head].(prev := p)] else m'
  }

  // The node after head becomes the first node.
  function PopMemory(m: LinkMemory, head: Ptr): LinkMemory
    requires head in m && (m[head].next != NULL ==> m[head].next in m)
  {
    var next := m[head].next;
    if next != NULL then m[next := m[next].(prev := NULL)] else m
  }

  // The neighbours of p become each other's neighbours.
  function UnlinkMemory(m: LinkMemory, p: Ptr): LinkMemory
    requires p in m && (m[p].prev != NULL ==> m[p].prev in m) && (m[p].next != NULL ==> m[p].next in m)
  {
    var prev, next := m[p].prev, m[p].next;
    var m' := if prev != NULL then m[prev := m[prev].(next := next)] else m;
    if next != NULL then m'[next := m'[next].(prev := prev)] else m'
  }

  ghost predicate PopReady(m: LinkMemory, p: Ptr) {
    p in m && (m[p].next != NULL ==> m[p].next in m)
  }

  // The links after the block p at the head of its list was popped and its halves
  // b and p were pushed to the list that started at head.
  ghost function SplitMemory(m: LinkMemory, p: Ptr, head: Ptr, b: Ptr): LinkMemory
    requires PopReady(m, p) && (head != NULL ==> head in PopMemory(m, p))
  {
    PushMemory(PushMemory(PopMemory(m, p), head, b), b, p)
  }

  lemma FrameChain(m: LinkMemory, m': LinkMemory, s: seq<Ptr>)
    requires Chain(m, s)
    requires forall p :: p in s && p in m ==> p in m' && m'[p] == m[p]
    ensures Chain(m', s)
  {
    forall i | 0 <= i < |s|
      ensures LinkedAt(m', s, i)
    {
      assert LinkedAt(m, s, i) && s[i] in s;
    }
  }

  lemma PushChain(m: LinkMemory, s: seq<Ptr>, p: Ptr)
    requires Chain(m, s) && p != NULL && p !in s
    ensures Head(s) != NULL ==> Head(s) in m
    ensures Chain(PushMemory(m, Head(s), p), [p] + s)
  {
    assert s != [] ==> LinkedAt(m, s, 0);
    var m', t := PushMemory(m, Head(s), p), [p] + s;
    forall i | 0 <= i < |t|
      ensures LinkedAt(m', t, i)
    {
      if i > 0 {
        assert LinkedAt(m, s, i - 1) && s[i - 1] in s;
      }
    }
  }

  lemma PopChain(m: LinkMemory, s: seq<Ptr>)
    requires Chain(m, s) && s != []
    ensures s[0] in m && s[0] != NULL && m[s[0]].next == Head(s[1..])
    ensures m[s[0]].next != NULL ==> m[s[0]].next in m
    ensures Chain(PopMemory(m, s[0]), s[1..])
  {
    assert LinkedAt(m, s, 0);
    assert |s| > 1 ==> LinkedAt(m, s, 1);
    var m', t := PopMemory(m, s[0]), s[1..];
    forall i | 0 <= i < |t|
      ensures LinkedAt(m', t, i)
    {
      assert LinkedAt(m, s, i + 1);
    }
  }

  lemma {:induction false} WithoutIs(s: seq<Ptr>, i: nat)
    requires NoDup(s) && i < |s|
    ensures Without(s, s[i]) == s[..i] + s[i + 1..]
    ensures NoDup(Without(s, s[i]))
    ensures forall p :: p in Without(s, s[i]) <==> p in s && p != s[i]
  {
    if i > 0 {
      WithoutIs(s[1..], i - 1);
      assert s[1..][i - 1] == s[i];
      assert [s[0]] + (s[1..][..i - 1] + s[1..][i..]) == s[..i] + s[i + 1..];
    }
    var t := s[..i] + s[i + 1..];
    forall p
      ensures p in t <==> p in s && p != s[i]
    {
      if p in s && p != s[i] {
        var j :| 0 <= j < |s| && s[j] == p;
        assert t[if j < i then j else j - 1] == p;
      }
    }
  }

  lemma PopElements(s: seq<Ptr>)
    requires NoDup(s) && s != []
    ensures forall q :: q in s[1..] <==> q in s && q != s[0]
  {
    forall q
      ensures q in s[1..] <==> q in s && q != s[0]
    {
      if q in s && q != s[0] {
        var i :| 0 <= i < |s| && s[i] == q;
        assert s[1..][i - 1] == q;
      }
    }
  }

  lemma UnlinkChain(m: LinkMemory, s: seq<Ptr>, i: nat)
    requires Chain(m, s) && i < |s|
    ensures s[i] in m
    ensures m[s[i]].prev == (if i == 0 then NULL else s[i - 1]) && m[s[i]].next == (if i + 1 < |s| then s[i + 1] else NULL)
    ensures (m[s[i]].prev != NULL ==> m[s[i]].prev in m) && (m[s[i]].next != NULL ==> m[s[i]].next in m)
    ensures Chain(UnlinkMemory(m, s[i]), s[..i] + s[i + 1..])
  {
    assert LinkedAt(m, s, i);
    assert i > 0 ==> LinkedAt(m, s, i - 1);
    assert i + 1 < |s| ==> LinkedAt(m, s, i + 1);
    var m', t := UnlinkMemory(m, s[i]), s[..i] + s[i + 1..];
    forall j | 0 <= j < |t|
      ensures LinkedAt(m', t, j)
    {
      assert LinkedAt(m, s, if j < i then j else j + 1);
    }
  }

  // ----- several lists in one memory

  type Lists = seq<seq<Ptr>>

  ghost predicate Chains(m: LinkMemory, lists: seq<seq<Ptr>>) {
    && (forall k :: 0 <= k < |lists| ==> Chain(m, lists[k]))
    && (forall j, k, p :: 0 <= j < k < |lists| && p in lists[j] ==> p !in lists[k])
  }

  ghost predicate InSome(lists: seq<seq<Ptr>>, p: Ptr) {
    exists k :: 0 <= k < |lists| && p in lists[k]
  }

  lemma PushChains(m: LinkMemory, lists: seq<seq<Ptr>>, k: nat, p: Ptr)
    requires Chains(m, lists) && k < |lists| && p != NULL && !InSome(lists, p)
    ensures Head(lists[k]) != NULL ==> Head(lists[k]) in m
    ensures Chains(PushMemory(m, Head(lists[k]), p), lists[k := [p] + lists[k]])
  {
    PushChain(m, lists[k], p);
    var m', lists' := PushMemory(m, Head(lists[k]), p), lists[k := [p] + lists[k]];
    forall j | 0 <= j < |lists|
      ensures Chain(m', lists'[j])
    {
      if j != k {
        FrameChain(m, m', lists[j]);
      }
    }
  }

  lemma PopChains(m: LinkMemory, lists: seq<seq<Ptr>>, k: nat)
    requires Chains(m, lists) && k < |lists| && lists[k] != []
    ensures lists[k][0] in m && lists[k][0] != NULL && m[lists[k][0]].next == Head(lists[k][1..])
    ensures m[lists[k][0]].next != NULL ==> m[lists[k][0]].next in m
    ensures Chains(PopMemory(m, lists[k][0]), lists[k := lists[k][1..]])
    ensures !InSome(lists[k := lists[k][1..]], lists[k][0])
  {
    PopChain(m, lists[k]);
    var m', lists' := PopMemory(m, lists[k][0]), lists[k := lists[k][1..]];
    assert |lists[k]| > 1 ==> lists[k][1] in lists[k];
    forall j | 0 <= j < |lists|
      ensures Chain(m', lists'[j])
    {
      if j != k {
        FrameChain(m, m', lists[j]);
      }
    }
  }

  lemma UnlinkChains(m: LinkMemory, lists: seq<seq<Ptr>>, k: nat, p: Ptr)
    requires Chains(m, lists) && k < |lists| && p in lists[k]
    ensures p in m && (m[p].prev != NULL ==> m[p].prev in m) && (m[p].next != NULL ==> m[p].next in m)
    ensures p != NULL && (m[p].prev == NULL <==> Head(lists[k]) == p)
    ensures Head(Without(lists[k], p)) == if Head(lists[k]) == p then m[p].next else Head(lists[k])
    ensures Chains(UnlinkMemory(m, p), lists[k := Without(lists[k], p)])
    ensures forall q :: q in Without(lists[k], p) <==> q in lists[k] && q != p
  {
    var i :| 0 <= i < |lists[k]| && lists[k][i] == p;
    UnlinkChain(m, lists[k], i);
    WithoutIs(lists[k], i);
    UnlinkedHead(m, lists[k], i);
    var m', lists' := UnlinkMemory(m, p), lists[k := Without(lists[k], p)];
    assert m[p].prev != NULL ==> m[p].prev in lists[k];
    assert m[p].next != NULL ==> m[p].next in lists[k];
    forall j | 0 <= j < |lists|
      ensures Chain(m', lists'[j])
    {
      if j != k {
        FrameChain(m, m', lists[j]);
      }
    }
  }

  lemma UnlinkedHead(m: LinkMemory, s: seq<Ptr>, i: nat)
    requires Chain(m, s) && i < |s|
    ensures s[i] in m && s[i] != NULL && (m[s[i]].prev == NULL <==> Head(s) == s[i])
    ensures Head(s[..i] + s[i + 1..]) == if Head(s) == s[i] then m[s[i]].next else Head(s)
  {
    assert LinkedAt(m, s, i);
    assert i > 0 ==> LinkedAt(m, s, i - 1);
  }

  // The first block of level k leaves its list.
  function PopAt(ls: Lists, k: nat): Lists
    requires k < |ls| && ls[k] != []
  {
    ls[k := ls[k][1..]]
  }

  function PushAt(ls: Lists, k: nat, p: Ptr): Lists
    requires k < |ls|
  {
    ls[k := [p] + ls[k]]
  }

  function UnlinkAt(ls: Lists, k: nat, p: Ptr): Lists
    requires k < |ls|
  {
    ls[k := Without(ls[k], p)]
  }

  ghost predicate HeadsOf(heads: seq<Ptr>, ls: Lists) {
    |heads| == |ls| && forall k :: 0 <= k < |ls| ==> heads[k] == Head(ls[k])
  }

  lemma TakeHeads(heads: seq<Ptr>, ls: Lists, m: LinkMemory, k: nat)
    requires HeadsOf(heads, ls) && k < |ls| && ls[k] != [] && PopReady(m, ls[k][0]) && m[ls[k][0]].next == Head(ls[k][1..])
    ensures heads[k] == ls[k][0] && HeadsOf(heads[k := m[ls[k][0]].next], PopAt(ls, k))
  {
  }

  lemma UnlinkHeads(heads: seq<Ptr>, ls: Lists, k: nat, b: Ptr, next: Ptr)
    requires HeadsOf(heads, ls) && k < |ls|
    requires Head(Without(ls[k], b)) == if Head(ls[k]) == b then next else Head(ls[k])
    ensures HeadsOf(if heads[k] == b then heads[k := next] else heads, UnlinkAt(ls, k, b))
  {
  }

  lemma PushHeads(heads: seq<Ptr>, ls: Lists, k: nat, p: Ptr)
    requires HeadsOf(heads, ls) && k < |ls|
    ensures heads[k] == Head(ls[k]) && HeadsOf(heads[k := p], PushAt(ls, k, p))
  {
  }

  // One block at p, of level top.
  function ClearLists(n: nat, p: Ptr, top: nat): Lists {
    seq(n, k => if k == top then [p] else [])
  }

  // remove_from_bucket
  function RemoveMemory(m: LinkMemory, p: Ptr): LinkMemory
    requires p in m && (m[p].prev != NULL ==> m[p].prev in m) && (m[p].next != NULL ==> m[p].next in m)
  {
    UnlinkMemory(m, p)[p := Link(NULL, NULL)]
  }

  ghost predicate Removable(m: LinkMemory, p: Ptr) {
    p in m && (m[p].prev != NULL ==> m[p].prev in m) && (m[p].next != NULL ==> m[p].next in m)
  }

  // p is in bucket k, at the head of its list exactly if nothing is linked before it.
  ghost predicate RemoveReady(m: LinkMemory, ls: Lists, k: nat, p: Ptr) {
    && k < |ls| && p in ls[k] && Removable(m, p)
    && (m[p].prev == NULL <==> Head(ls[k]) == p)
    && Head(Without(ls[k], p)) == if Head(ls[k]) == p then m[p].next else Head(ls[k])
  }

  lemma NowhereElse(m: LinkMemory, ls: Lists, k: nat, p: Ptr)
    requires Chains(m, ls) && k < |ls| && p in ls[k]
    requires forall q :: q in Without(ls[k], p) <==> q in ls[k] && q != p
    ensures !InSome(UnlinkAt(ls, k, p), p)
  {
  }

  lemma RemovedChains(m: LinkMemory, ls: Lists, p: Ptr)
    requires Chains(m, ls) && !InSome(ls, p)
    ensures Chains(m[p := Link(NULL, NULL)], ls)
  {
    forall k | 0 <= k < |ls|
      ensures Chain(m[p := Link(NULL, NULL)], ls[k])
    {
      FrameChain(m, m[p := Link(NULL, NULL)], ls[k]);
    }
  }

  lemma NoNull(m: LinkMemory, s: seq<Ptr>)
    requires Chain(m, s)
    ensures NULL !in s
  {
    forall i | 0 <= i < |s|
      ensures s[i] != NULL
    {
      assert LinkedAt(m, s, i);
    }
  }

  function HeadsWithout(heads: seq<Ptr>, m: LinkMemory, k: nat, p: Ptr): seq<Ptr>
    requires p in m && k < |heads|
  {
    if m[p].prev == NULL then heads[k := m[p].next] else heads
  }

  lemma HeadsRemove(heads: seq<Ptr>, m: LinkMemory, ls: Lists, k: nat, p: Ptr)
    requires HeadsOf(heads, ls) && RemoveReady(m, ls, k, p)
    ensures HeadsOf(HeadsWithout(heads, m, k, p), UnlinkAt(ls, k, p))
  {
    UnlinkHeads(heads, ls, k, p, m[p].next);
  }
}
