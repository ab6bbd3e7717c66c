// The slabs of the slab allocator: pages cut into equal slots, the free slots
// linked through themselves, and the lists that slabs move between.
module SlabState {
  import opened Bits
  import opened Links

  const NUM_CACHES: nat := 9
  const MIN_CACHE_ORDER: nat := 3
  const SLAB_HEADER: nat := 32

  // The three lists of each cache, for slabs with no slot in use, some, and all.
  datatype Kind = Empty | Partial | Full
  const NUM_LISTS: nat := 27

  function ListAt(cache: nat, kind: Kind): nat {
    3 * cache + match kind { case Empty => 0 case Partial => 1 case Full => 2 }
  }

  function ObjectSize(cache: nat): (r: nat)
    ensures r > 0
  {
    Pow2(cache + MIN_CACHE_ORDER)
  }

  datatype Slab = Slab(freeHead: Ptr, used: nat, capacity: nat, cache: nat)

  function KindOf(s: Slab): Kind {
    if s.used == 0 then Empty else if s.used == s.capacity then Full else Partial
  }

  type Slabs = map<Ptr, Slab>
  type Nexts = map<Ptr, Ptr>

  // The pages as the allocator sees them: slab headers, list links, and the next
  // free slot in each free slot.
  datatype Memory = Memory(slabs: Slabs, links: LinkMemory, nexts: Nexts)

  // ----- slots

  function Slot(page: Ptr, size: nat, k: nat): Ptr {
    page + SLAB_HEADER + k * size
  }

  function Capacity(pageSize: nat, size: nat): nat
    requires size > 0 && pageSize >= SLAB_HEADER
  {
    (pageSize - SLAB_HEADER) / size
  }

  ghost predicate IsSlot(page: Ptr, size: nat, capacity: nat, q: Ptr) {
    exists k: nat :: k < capacity && q == Slot(page, size, k)
  }

  lemma SlotsApart(page: Ptr, size: nat, j: nat, k: nat)
    requires j < k
    ensures Slot(page, size, j) + size <= Slot(page, size, k)
  {
    Distribute(j, k - j, size);
    AtLeastOnce(k - j, size);
  }

  lemma Distribute(j: nat, d: nat, size: nat)
    ensures (j + d) * size == j * size + d * size
  {
  }

  lemma {:induction false} AtLeastOnce(d: nat, size: nat)
    requires d > 0
    ensures d * size >= size
  {
    Distribute(1, d - 1, size);
  }

  // Slots lie inside their page, behind the header.
  lemma SlotInPage(page: Ptr, pageSize: nat, size: nat, k: nat)
    requires size > 0 && pageSize >= SLAB_HEADER && k < Capacity(pageSize, size)
    ensures page + SLAB_HEADER <= Slot(page, size, k) && Slot(page, size, k) + size <= page + pageSize
  {
    var c := Capacity(pageSize, size);
    assert (pageSize - SLAB_HEADER) / size * size <= pageSize - SLAB_HEADER;
    SlotsApart(page, size, k, k + 1);
    if k + 1 < c {
      SlotsApart(page, size, k + 1, c);
    }
  }

  // One slot more than those of a page would end outside it.
  lemma NoMoreSlots(page: Ptr, pageSize: nat, size: nat)
    requires size > 0 && pageSize >= SLAB_HEADER
    ensures Slot(page, size, Capacity(pageSize, size)) + size > page + pageSize
  {
    var room := pageSize - SLAB_HEADER;
    assert room == room / size * size + room % size;
    ModBound(room, size);
  }

  // ----- the free slots of a slab

  // The slots of s are linked in this order, and the last one is the end.
  ghost predicate Threaded(n: Nexts, s: seq<Ptr>) {
    forall i :: 0 <= i < |s| ==> NextAt(n, s, i)
  }

  ghost predicate NextAt(n: Nexts, s: seq<Ptr>, i: nat)
    requires i < |s|
  {
    s[i] in n && n[s[i]] == if i + 1 < |s| then s[i + 1] else NULL
  }

  ghost predicate AllSlots(page: Ptr, size: nat, capacity: nat, s: seq<Ptr>) {
    forall q :: q in s ==> IsSlot(page, size, capacity, q)
  }

  // The header of a slab against its free slots: each a slot of the page, none
  // twice, and as many as are not in use.
  ghost predicate SlabOk(h: Slab, n: Nexts, free: seq<Ptr>, page: Ptr, pageSize: nat)
    requires pageSize >= SLAB_HEADER
  {
    && page != NULL && page % pageSize == 0 && page + pageSize <= WORD / 2
    && h.cache < NUM_CACHES && h.capacity == Capacity(pageSize, ObjectSize(h.cache)) && h.capacity > 0
    && h.used + |free| == h.capacity && h.freeHead == Head(free)
    && NoDup(free) && Threaded(n, free) && AllSlots(page, ObjectSize(h.cache), h.capacity, free)
  }

  lemma ThreadedTail(n: Nexts, s: seq<Ptr>)
    requires Threaded(n, s) && NoDup(s) && s != []
    ensures s[0] in n && n[s[0]] == Head(s[1..]) && Threaded(n, s[1..]) && NoDup(s[1..]) && s[0] !in s[1..]
  {
    assert NextAt(n, s, 0);
    NoDupTail(s);
    forall i | 0 <= i < |s[1..]|
      ensures NextAt(n, s[1..], i)
    {
      assert NextAt(n, s, i + 1);
    }
  }

  lemma NoDupTail(s: seq<Ptr>)
    requires NoDup(s) && s != []
    ensures NoDup(s[1..]) && s[0] !in s[1..]
  {
    assert forall i :: 0 <= i < |s[1..]| ==> s[1..][i] == s[i + 1];
  }

  lemma ThreadedPush(n: Nexts, s: seq<Ptr>, q: Ptr)
    requires Threaded(n, s) && NoDup(s) && q !in s
    ensures Threaded(n[q := Head(s)], [q] + s) && NoDup([q] + s)
  {
    var t, n' := [q] + s, n[q := Head(s)];
    forall i | 0 <= i < |t|
      ensures NextAt(n', t, i)
    {
      if i > 0 {
        assert NextAt(n, s, i - 1) && s[i - 1] in s;
      }
    }
  }

  // The first free slot is handed out.
  lemma TakeSlot(h: Slab, n: Nexts, free: seq<Ptr>, page: Ptr, pageSize: nat)
    requires pageSize >= SLAB_HEADER && SlabOk(h, n, free, page, pageSize) && free != []
    ensures h.freeHead == free[0] && free[0] in n && h.used < h.capacity && free[0] !in free[1..]
    ensures SlabOk(h.(freeHead := n[free[0]], used := h.used + 1), n, free[1..], page, pageSize)
  {
    hide Capacity, ObjectSize, Threaded, NoDup, IsSlot;
    ThreadedTail(n, free);
  }

  // A slot in use becomes the first free slot.
  lemma GiveSlot(h: Slab, n: Nexts, free: seq<Ptr>, page: Ptr, pageSize: nat, q: Ptr)
    requires pageSize >= SLAB_HEADER && SlabOk(h, n, free, page, pageSize)
    requires IsSlot(page, ObjectSize(h.cache), h.capacity, q) && q !in free && h.used > 0
    ensures SlabOk(h.(freeHead := q, used := h.used - 1), n[q := h.freeHead], [q] + free, page, pageSize)
  {
    hide Capacity, ObjectSize, Threaded, NoDup, IsSlot;
    ThreadedPush(n, free, q);
  }

  // Writes outside a page leave its slab as it is.
  lemma SlabElsewhere(h: Slab, n: Nexts, n': Nexts, free: seq<Ptr>, page: Ptr, pageSize: nat)
    requires pageSize >= SLAB_HEADER && SlabOk(h, n, free, page, pageSize)
    requires forall p :: p in n && page <= p < page + pageSize ==> p in n' && n'[p] == n[p]
    ensures SlabOk(h, n', free, page, pageSize)
  {
    forall i | 0 <= i < |free|
      ensures NextAt(n', free, i)
    {
      assert NextAt(n, free, i) && free[i] in free;
      var k: nat :| k < h.capacity && free[i] == Slot(page, ObjectSize(h.cache), k);
      SlotInPage(page, pageSize, ObjectSize(h.cache), k);
    }
  }

  // ----- how many slots are in use

  ghost function Slots(page: Ptr, size: nat, n: nat): set<Ptr> {
    if n == 0 then {} else Slots(page, size, n - 1) + {Slot(page, size, n - 1)}
  }

  lemma {:induction false} SlotsAre(page: Ptr, size: nat, n: nat)
    requires size > 0
    ensures |Slots(page, size, n)| == n
    ensures forall q :: q in Slots(page, size, n) <==> IsSlot(page, size, n, q)
  {
    if n > 0 {
      SlotsAre(page, size, n - 1);
      forall k: nat | k < n - 1
        ensures Slot(page, size, k) != Slot(page, size, n - 1)
      {
        SlotsApart(page, size, k, n - 1);
      }
      forall q
        ensures q in Slots(page, size, n) <==> IsSlot(page, size, n, q)
      {
        if IsSlot(page, size, n, q) {
          var k: nat :| k < n && q == Slot(page, size, k);
          assert k < n - 1 ==> IsSlot(page, size, n - 1, q);
        }
      }
    }
  }

  ghost function Elements(s: seq<Ptr>): set<Ptr> {
    if s == [] then {} else {s[0]} + Elements(s[1..])
  }

  lemma {:induction false} ElementsAre(s: seq<Ptr>)
    ensures forall q :: q in Elements(s) <==> q in s
    ensures NoDup(s) ==> |Elements(s)| == |s|
  {
    if s != [] {
      ElementsAre(s[1..]);
      assert forall q :: q in s <==> q == s[0] || q in s[1..];
      if NoDup(s) {
        NoDupTail(s);
      }
    }
  }

  // The counter in the header is the number of slots that are not free.
  lemma UsedCounts(h: Slab, n: Nexts, free: seq<Ptr>, page: Ptr, pageSize: nat)
    requires pageSize >= SLAB_HEADER && SlabOk(h, n, free, page, pageSize)
    ensures |Slots(page, ObjectSize(h.cache), h.capacity) - Elements(free)| == h.used
  {
    hide Capacity, ObjectSize, Threaded, NoDup, IsSlot;
    SlotsAre(page, ObjectSize(h.cache), h.capacity);
    ElementsAre(free);
    CountMinus(Slots(page, ObjectSize(h.cache), h.capacity), Elements(free));
  }

  lemma CountMinus(a: set<Ptr>, b: set<Ptr>)
    requires b <= a
    ensures |a - b| == |a| - |b|
  {
    assert a == (a - b) + b;
  }
}
