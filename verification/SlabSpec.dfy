// The states of the slab allocator and what its steps make of them.
module SlabSpec {
  import opened Bits
  import opened Links
  import opened SlabState

  // What a slab stands for: its cache and its free slots in order.
  datatype View = View(cache: nat, free: seq<Ptr>)

  type Views = map<Ptr, View>

  datatype Abstract = Abstract(lists: Lists, slabs: Views)

  ghost predicate PageOk(pageSize: nat) {
    IsPow2(pageSize) && 4096 <= pageSize <= 0x8_0000
  }

  function SlotCount(cache: nat, pageSize: nat): nat
    requires pageSize >= SLAB_HEADER
  {
    Capacity(pageSize, ObjectSize(cache))
  }

  ghost function KindIn(v: View, pageSize: nat): Kind
    requires pageSize >= SLAB_HEADER
  {
    if |v.free| == SlotCount(v.cache, pageSize) then Empty else if v.free == [] then Full else Partial
  }

  ghost function ListIn(v: View, pageSize: nat): nat
    requires pageSize >= SLAB_HEADER
  {
    ListAt(v.cache, KindIn(v, pageSize))
  }

  // ----- lists of slabs

  // Each slab is in the list of its cache and kind, and in no other.
  ghost predicate Filed(ls: Lists, vs: Views, pageSize: nat)
    requires pageSize >= SLAB_HEADER
  {
    |ls| == NUM_LISTS && forall l, p :: 0 <= l < NUM_LISTS ==> (p in ls[l] <==> p in vs && ListIn(vs[p], pageSize) == l)
  }

  // The same but for slab p, which is in list k just now.
  ghost predicate FiledBut(ls: Lists, vs: Views, pageSize: nat, p: Ptr, k: nat)
    requires pageSize >= SLAB_HEADER
  {
    && |ls| == NUM_LISTS
    && (forall l :: 0 <= l < NUM_LISTS ==> (p in ls[l] <==> l == k))
    && (forall l, q :: 0 <= l < NUM_LISTS && q != p ==> (q in ls[l] <==> q in vs && ListIn(vs[q], pageSize) == l))
  }

  lemma FiledOne(ls: Lists, vs: Views, pageSize: nat, p: Ptr)
    requires pageSize >= SLAB_HEADER && p in vs
    ensures Filed(ls, vs, pageSize) <==> FiledBut(ls, vs, pageSize, p, ListIn(vs[p], pageSize))
  {
    hide SlotCount;
    if Filed(ls, vs, pageSize) {
      assert forall l :: 0 <= l < NUM_LISTS ==> (p in ls[l] <==> l == ListIn(vs[p], pageSize));
    }
    if FiledBut(ls, vs, pageSize, p, ListIn(vs[p], pageSize)) {
      forall l, q | 0 <= l < NUM_LISTS
        ensures q in ls[l] <==> q in vs && ListIn(vs[q], pageSize) == l
      {
      }
    }
  }

  lemma FiledView(ls: Lists, vs: Views, pageSize: nat, p: Ptr, k: nat, v: View)
    requires pageSize >= SLAB_HEADER && FiledBut(ls, vs, pageSize, p, k)
    ensures FiledBut(ls, vs[p := v], pageSize, p, k)
  {
    hide ListIn;
  }

  // A chain of lists with one slab in list k.
  ghost predicate Shelved(m: LinkMemory, heads: seq<Ptr>, ls: Lists, vs: Views, pageSize: nat, p: Ptr, k: nat)
    requires pageSize >= SLAB_HEADER
  {
    Chains(m, ls) && HeadsOf(heads, ls) && FiledBut(ls, vs, pageSize, p, k) && k < NUM_LISTS
  }

  function MovedLists(ls: Lists, p: Ptr, k: nat, j: nat): Lists
    requires k < |ls| && j < |ls|
  {
    PushAt(UnlinkAt(ls, k, p), j, p)
  }

  // remove_from_list and then push_to_list.
  lemma MoveShelf(m: LinkMemory, heads: seq<Ptr>, ls: Lists, vs: Views, pageSize: nat, p: Ptr, k: nat, j: nat)
    requires pageSize >= SLAB_HEADER && Shelved(m, heads, ls, vs, pageSize, p, k) && j < NUM_LISTS && j != k
    ensures |ls| == |heads| == NUM_LISTS && RemoveReady(m, ls, k, p)
    ensures var m1, heads1 := RemoveMemory(m, p), HeadsWithout(heads, m, k, p);
      && (heads1[j] != NULL ==> heads1[j] in m1)
      && Shelved(PushMemory(m1, heads1[j], p), heads1[j := p], MovedLists(ls, p, k, j), vs, pageSize, p, j)
  {
    hide ListIn, RemoveMemory, PushMemory;
    assert p in ls[k];
    UnlinkChains(m, ls, k, p);
    var ls1 := UnlinkAt(ls, k, p);
    NowhereElse(m, ls, k, p);
    RemovedShelf(m, ls, k, p);
    HeadsRemove(heads, m, ls, k, p);
    PushChains(RemoveMemory(m, p), ls1, j, p);
    PushHeads(HeadsWithout(heads, m, k, p), ls1, j, p);
    MoveFiled(ls, vs, pageSize, p, k, j);
  }

  lemma RemovedShelf(m: LinkMemory, ls: Lists, k: nat, p: Ptr)
    requires Chains(m, ls) && k < |ls| && p in ls[k]
    ensures RemoveReady(m, ls, k, p) && Chains(RemoveMemory(m, p), UnlinkAt(ls, k, p)) && !InSome(UnlinkAt(ls, k, p), p) && p != NULL
  {
    UnlinkChains(m, ls, k, p);
    NowhereElse(m, ls, k, p);
    RemovedChains(UnlinkMemory(m, p), UnlinkAt(ls, k, p), p);
  }

  lemma MoveFiled(ls: Lists, vs: Views, pageSize: nat, p: Ptr, k: nat, j: nat)
    requires pageSize >= SLAB_HEADER && FiledBut(ls, vs, pageSize, p, k) && k < NUM_LISTS && j < NUM_LISTS && j != k
    requires forall q :: q in Without(ls[k], p) <==> q in ls[k] && q != p
    ensures FiledBut(MovedLists(ls, p, k, j), vs, pageSize, p, j)
  {
    hide ListIn;
    var ls' := MovedLists(ls, p, k, j);
    forall l, q | 0 <= l < NUM_LISTS && q != p
      ensures q in ls'[l] <==> q in vs && ListIn(vs[q], pageSize) == l
    {
      assert q in ls[l] <==> q in vs && ListIn(vs[q], pageSize) == l;
    }
    forall l | 0 <= l < NUM_LISTS
      ensures p in ls'[l] <==> l == j
    {
      assert p in ls[l] <==> l == k;
    }
  }

  // A new slab joins a list.
  lemma NewShelf(m: LinkMemory, heads: seq<Ptr>, ls: Lists, vs: Views, pageSize: nat, p: Ptr, k: nat, v: View)
    requires pageSize >= SLAB_HEADER && Chains(m, ls) && HeadsOf(heads, ls) && Filed(ls, vs, pageSize)
    requires p !in vs && p != NULL && k < NUM_LISTS
    ensures |ls| == |heads| == NUM_LISTS && (heads[k] != NULL ==> heads[k] in m)
    ensures Shelved(PushMemory(m, heads[k], p), heads[k := p], PushAt(ls, k, p), vs[p := v], pageSize, p, k)
  {
    hide ListIn, PushMemory;
    assert !InSome(ls, p);
    PushChains(m, ls, k, p);
    PushHeads(heads, ls, k, p);
    var ls', vs' := PushAt(ls, k, p), vs[p := v];
    forall l, q | 0 <= l < NUM_LISTS && q != p
      ensures q in ls'[l] <==> q in vs' && ListIn(vs'[q], pageSize) == l
    {
      assert q in ls[l] <==> q in vs && ListIn(vs[q], pageSize) == l;
    }
    forall l | 0 <= l < NUM_LISTS
      ensures p in ls'[l] <==> l == k
    {
      assert p !in ls[l];
    }
  }

  // ----- the state

  ghost predicate SlabsOk(slabs: Slabs, n: Nexts, vs: Views, pageSize: nat)
    requires pageSize >= SLAB_HEADER
  {
    forall p :: p in vs ==> SlabAs(slabs, n, vs[p], p, pageSize)
  }

  ghost predicate SlabAs(slabs: Slabs, n: Nexts, v: View, p: Ptr, pageSize: nat)
    requires pageSize >= SLAB_HEADER
  {
    p in slabs && slabs[p].cache == v.cache && SlabOk(slabs[p], n, v.free, p, pageSize)
  }

  ghost predicate State(m: Memory, heads: seq<Ptr>, st: Abstract, pageSize: nat) {
    && PageOk(pageSize)
    && Chains(m.links, st.lists) && HeadsOf(heads, st.lists) && Filed(st.lists, st.slabs, pageSize)
    && SlabsOk(m.slabs, m.nexts, st.slabs, pageSize)
  }

  // ----- one slab changes

  lemma PagesApart(p: Ptr, q: Ptr, pageSize: nat)
    requires pageSize > 0 && p % pageSize == 0 && q % pageSize == 0 && p != q
    ensures p + pageSize <= q || q + pageSize <= p
  {
    if p < q {
      ModSub(q, p, pageSize);
    } else {
      ModSub(p, q, pageSize);
    }
  }

  // Writes to the header and inside the page of one slab.
  lemma OneSlab(slabs: Slabs, n: Nexts, vs: Views, pageSize: nat, p: Ptr, h: Slab, n': Nexts, v: View)
    requires pageSize >= SLAB_HEADER && SlabsOk(slabs, n, vs, pageSize) && p % pageSize == 0
    requires SlabAs(slabs[p := h], n', v, p, pageSize)
    requires forall q :: q in n && !(p <= q < p + pageSize) ==> q in n' && n'[q] == n[q]
    ensures SlabsOk(slabs[p := h], n', vs[p := v], pageSize)
  {
    hide SlabOk;
    forall q | q in vs && q != p
      ensures SlabAs(slabs[p := h], n', vs[q], q, pageSize)
    {
      assert SlabAs(slabs, n, vs[q], q, pageSize);
      SlabAligned(slabs[q], n, vs[q].free, q, pageSize);
      PagesApart(p, q, pageSize);
      SlabElsewhere(slabs[q], n, n', vs[q].free, q, pageSize);
    }
  }

  lemma SlabAligned(h: Slab, n: Nexts, free: seq<Ptr>, p: Ptr, pageSize: nat)
    requires pageSize >= SLAB_HEADER && SlabOk(h, n, free, p, pageSize)
    ensures p % pageSize == 0 && p != NULL && p + pageSize <= WORD / 2
  {
  }

  // The header's counter and the number of free slots tell the same.
  lemma KindsAgree(h: Slab, n: Nexts, free: seq<Ptr>, p: Ptr, pageSize: nat)
    requires pageSize >= SLAB_HEADER && SlabOk(h, n, free, p, pageSize)
    ensures h.capacity == SlotCount(h.cache, pageSize)
    ensures KindOf(h) == KindIn(View(h.cache, free), pageSize)
  {
  }

  // ----- taking and giving back a slot

  lemma SlotPage(h: Slab, n: Nexts, free: seq<Ptr>, p: Ptr, pageSize: nat, q: Ptr)
    requires pageSize >= SLAB_HEADER && SlabOk(h, n, free, p, pageSize) && IsSlot(p, ObjectSize(h.cache), h.capacity, q)
    ensures p + SLAB_HEADER <= q && q + ObjectSize(h.cache) <= p + pageSize
  {
    var k: nat :| k < h.capacity && q == Slot(p, ObjectSize(h.cache), k);
    SlotInPage(p, pageSize, ObjectSize(h.cache), k);
  }

  lemma TakeFrom(m: Memory, vs: Views, pageSize: nat, p: Ptr)
    requires PageOk(pageSize) && SlabsOk(m.slabs, m.nexts, vs, pageSize) && p in vs && vs[p].free != []
    ensures p in m.slabs && m.slabs[p].freeHead == vs[p].free[0] && m.slabs[p].freeHead in m.nexts
    ensures var h := m.slabs[p];
      var h' := h.(freeHead := m.nexts[h.freeHead], used := h.used + 1);
      var v' := vs[p].(free := vs[p].free[1..]);
      && SlabsOk(m.slabs[p := h'], m.nexts, vs[p := v'], pageSize)
      && h'.capacity == SlotCount(v'.cache, pageSize) && KindOf(h') == KindIn(v', pageSize) && KindIn(v', pageSize) != Empty
      && h'.cache == v'.cache < NUM_CACHES && (h'.used == h'.capacity <==> KindIn(v', pageSize) == Full)
  {
    hide SlabOk, IsPow2;
    var h, v := m.slabs[p], vs[p];
    assert SlabAs(m.slabs, m.nexts, v, p, pageSize);
    TakeSlot(h, m.nexts, v.free, p, pageSize);
    var h', v' := h.(freeHead := m.nexts[h.freeHead], used := h.used + 1), v.(free := v.free[1..]);
    SlabAligned(h, m.nexts, v.free, p, pageSize);
    OneSlab(m.slabs, m.nexts, vs, pageSize, p, h', m.nexts, v');
    KindsAgree(h', m.nexts, v'.free, p, pageSize);
    CacheBound(h', m.nexts, v'.free, p, pageSize);
  }

  lemma CacheBound(h: Slab, n: Nexts, free: seq<Ptr>, p: Ptr, pageSize: nat)
    requires pageSize >= SLAB_HEADER && SlabOk(h, n, free, p, pageSize)
    ensures h.cache < NUM_CACHES && h.capacity > 0 && h.used + |free| == h.capacity
  {
  }

  // q is a slot of page p that is not free.
  ghost predicate IsLive(vs: Views, pageSize: nat, p: Ptr, q: Ptr)
    requires pageSize >= SLAB_HEADER
  {
    p in vs && IsSlot(p, ObjectSize(vs[p].cache), SlotCount(vs[p].cache, pageSize), q) && q !in vs[p].free
  }

  lemma GiveTo(m: Memory, vs: Views, pageSize: nat, p: Ptr, q: Ptr)
    requires PageOk(pageSize) && SlabsOk(m.slabs, m.nexts, vs, pageSize) && IsLive(vs, pageSize, p, q)
    ensures p in m.slabs && m.slabs[p].used > 0
    ensures var h := m.slabs[p];
      var h' := h.(freeHead := q, used := h.used - 1);
      var v, v' := vs[p], vs[p].(free := [q] + vs[p].free);
      && SlabsOk(m.slabs[p := h'], m.nexts[q := h.freeHead], vs[p := v'], pageSize)
      && h'.cache == v'.cache < NUM_CACHES && KindIn(v, pageSize) != Empty && KindIn(v', pageSize) != Full
      && (h'.used == h'.capacity - 1 <==> KindIn(v, pageSize) == Full) && (h'.used == 0 <==> KindIn(v', pageSize) == Empty)
  {
    hide SlabOk, IsPow2, IsSlot;
    var h, v := m.slabs[p], vs[p];
    assert SlabAs(m.slabs, m.nexts, v, p, pageSize);
    KindsAgree(h, m.nexts, v.free, p, pageSize);
    CacheBound(h, m.nexts, v.free, p, pageSize);
    InUse(h, m.nexts, v.free, p, pageSize, q);
    GiveSlot(h, m.nexts, v.free, p, pageSize, q);
    SlotPage(h, m.nexts, v.free, p, pageSize, q);
    var h', v' := h.(freeHead := q, used := h.used - 1), v.(free := [q] + v.free);
    SlabAligned(h, m.nexts, v.free, p, pageSize);
    OneSlab(m.slabs, m.nexts, vs, pageSize, p, h', m.nexts[q := h.freeHead], v');
    KindsAgree(h', m.nexts[q := h.freeHead], v'.free, p, pageSize);
  }

  // A slot that is not free makes the counter positive.
  lemma InUse(h: Slab, n: Nexts, free: seq<Ptr>, p: Ptr, pageSize: nat, q: Ptr)
    requires pageSize >= SLAB_HEADER && SlabOk(h, n, free, p, pageSize)
    requires IsSlot(p, ObjectSize(h.cache), h.capacity, q) && q !in free
    ensures h.used > 0
  {
    hide SlabOk, IsSlot, ObjectSize;
    UsedCounts(h, n, free, p, pageSize);
    SlotsAre(p, ObjectSize(h.cache), h.capacity);
    ElementsAre(free);
    assert q in Slots(p, ObjectSize(h.cache), h.capacity) - Elements(free);
  }

  // ----- sizes

  const MAX_CACHE_SIZE: nat := 2048

  function SizeToCacheIdx(size: nat): int {
    if size <= 8 then 0 else CountrZero(BitCeil(size)) - MIN_CACHE_ORDER
  }

  // The least cache whose slots hold size bytes.
  lemma SizeToCacheLeast(size: nat)
    requires size <= MAX_CACHE_SIZE
    ensures 0 <= SizeToCacheIdx(size) < NUM_CACHES && size <= ObjectSize(SizeToCacheIdx(size))
    ensures forall j: nat :: size <= ObjectSize(j) ==> SizeToCacheIdx(size) <= j
  {
    assert Pow2(3) == 8;
    Pow2Add(8, 3);
    assert Pow2(8) == 256;
    if size > 8 {
      var k := BitCeilLeast(size);
      CountrZeroPow2(k);
      Pow2Order(3, k);
      assert k <= 11;
      forall j: nat | size <= ObjectSize(j)
        ensures SizeToCacheIdx(size) <= j
      {
        assert k <= j + 3;
      }
    }
  }

  // There is a cache for a size exactly up to the greatest one.
  lemma CacheInRange(size: nat)
    ensures SizeToCacheIdx(size) < NUM_CACHES <==> size <= MAX_CACHE_SIZE
  {
    hide Pow2;
    if size <= MAX_CACHE_SIZE {
      SizeToCacheLeast(size);
    } else {
      var k := BitCeilLeast(size);
      CountrZeroPow2(k);
      CacheSizes();
      Pow2Order(11, k);
    }
  }

  lemma CacheSizes()
    ensures Pow2(11) == MAX_CACHE_SIZE
  {
    assert Pow2(3) == 8;
    Pow2Add(8, 3);
    assert Pow2(8) == 256;
  }

  // A request is served from slabs exactly if there is a cache for it.
  lemma SmallIsCached(size: nat, align: nat)
    ensures Small(size, align) <==> SizeToCacheIdx(Max(size, align)) < NUM_CACHES
  {
    hide SizeToCacheIdx;
    CacheInRange(Max(size, align));
  }

  // What alloc_raw lets through, and what it serves from slabs.
  predicate GoodRequest(size: nat, align: nat) {
    IsPow2(align) && size > 0 && size + align < WORD
  }

  predicate Small(size: nat, align: nat) {
    size <= MAX_CACHE_SIZE && align <= MAX_CACHE_SIZE
  }

  function Max(a: nat, b: nat): nat {
    if a < b then b else a
  }

  lemma MultipleTimes(k: nat, size: nat, d: nat)
    requires d > 0 && size % d == 0
    ensures (k * size) % d == 0
  {
    var q := size / d;
    assert size == q * d;
    TimesAssoc(k, q, d);
    ModIs(k * size, d, k * q, 0);
  }

  lemma TimesAssoc(k: nat, q: nat, d: nat)
    ensures k * (q * d) == (k * q) * d
  {
  }

  lemma Pow2Least(k: nat)
    ensures 32 % Pow2(k) == 0 <==> k <= 5
  {
    assert Pow2(5) == 32;
    if k <= 5 {
      Pow2Multiple(5, k);
    } else {
      Pow2Mono(5, k);
      SmallMod(32, Pow2(k));
    }
  }

  // The header takes 32 bytes, so slots keep an alignment exactly up to 32.
  lemma SlotAlignment(page: Ptr, pageSize: nat, cache: nat, k: nat, align: nat)
    requires IsPow2(pageSize) && 4096 <= pageSize && page % pageSize == 0
    requires cache < NUM_CACHES && IsPow2(align) && align <= ObjectSize(cache)
    ensures Slot(page, ObjectSize(cache), k) % align == 0 <==> align <= 32
  {
    hide And, Log2;
    IsPow2Log2(pageSize);
    IsPow2Log2(align);
    var e, f, size := Log2(align), Log2(pageSize), ObjectSize(cache);
    Pow2Order(cache + 3, e);
    PageLog(f);
    MultipleMono(page, f, e);
    Pow2Multiple(cache + 3, e);
    MultipleTimes(k, size, align);
    Pow2Least(e);
    Pow2Order(5, e);
    assert Pow2(5) == 32;
    ModAdd(page, k * size, align);
    if Slot(page, size, k) % align == 0 {
      ModSub(Slot(page, size, k), page + k * size, align);
    }
    if 32 % align == 0 {
      ModAdd(page + k * size, 32, align);
    }
  }

  lemma PageLog(f: nat)
    requires 4096 <= Pow2(f)
    ensures f >= 12
  {
    Pow2Add(6, 6);
    assert Pow2(6) == 64;
    Pow2Order(f, 12);
  }

  // ----- a new slab

  function SlotSeq(page: Ptr, size: nat, n: nat): seq<Ptr> {
    seq(n, k requires 0 <= k < n => Slot(page, size, k))
  }

  function NewSlab(page: Ptr, cache: nat, pageSize: nat): Slab
    requires pageSize >= SLAB_HEADER
  {
    Slab(page + SLAB_HEADER, 0, SlotCount(cache, pageSize), cache)
  }

  ghost function NewView(page: Ptr, cache: nat, pageSize: nat): View
    requires pageSize >= SLAB_HEADER
  {
    View(cache, SlotSeq(page, ObjectSize(cache), SlotCount(cache, pageSize)))
  }

  // At least one slot, and few enough for a counter of 16 bits.
  lemma SlotCountBounds(cache: nat, pageSize: nat)
    requires PageOk(pageSize) && cache < NUM_CACHES
    ensures 1 <= SlotCount(cache, pageSize) < 0x1_0000
  {
    hide IsPow2;
    Pow2Mono(3, cache + 3);
    Pow2Mono(cache + 3, 11);
    assert Pow2(3) == 8;
    assert Pow2(8) == 256;
    Pow2Add(8, 3);
    QuotientBounds(pageSize - SLAB_HEADER, ObjectSize(cache));
  }

  // Every slot lies in the page, and no further one would.
  lemma SlotsFill(page: Ptr, cache: nat, pageSize: nat)
    requires PageOk(pageSize)
    ensures var n, size := SlotCount(cache, pageSize), ObjectSize(cache);
      && (forall k: nat :: k < n ==> Slot(page, size, k) + size <= page + pageSize)
      && Slot(page, size, n) + size > page + pageSize
  {
    hide IsPow2, Slot;
    var n, size := SlotCount(cache, pageSize), ObjectSize(cache);
    forall k: nat | k < n
      ensures Slot(page, size, k) + size <= page + pageSize
    {
      SlotInPage(page, pageSize, size, k);
    }
    NoMoreSlots(page, pageSize, size);
  }

  lemma QuotientBounds(a: nat, d: nat)
    requires 8 <= d <= a < 8 * 0x1_0000
    ensures 1 <= a / d < 0x1_0000
  {
    assert a == (a / d) * d + a % d;
    if a / d >= 0x1_0000 {
      Distribute(0x1_0000, a / d - 0x1_0000, d);
    }
    if a / d == 0 {
      ModBound(a, d);
    }
  }

  lemma SlotSeqOk(page: Ptr, size: nat, n: nat)
    requires size > 0
    ensures NoDup(SlotSeq(page, size, n)) && AllSlots(page, size, n, SlotSeq(page, size, n))
  {
    var s := SlotSeq(page, size, n);
    forall i, j | 0 <= i < j < |s|
      ensures s[i] != s[j]
    {
      SlotsApart(page, size, i, j);
    }
  }

  // A new slab, once its slots are threaded.
  lemma NewSlabOk(m: Memory, n: Nexts, vs: Views, page: Ptr, cache: nat, pageSize: nat)
    requires PageOk(pageSize) && cache < NUM_CACHES && SlabsOk(m.slabs, m.nexts, vs, pageSize)
    requires page != NULL && page % pageSize == 0 && page + pageSize <= WORD / 2
    requires Threaded(n, SlotSeq(page, ObjectSize(cache), SlotCount(cache, pageSize)))
    requires forall q :: q in m.nexts && !(page <= q < page + pageSize) ==> q in n && n[q] == m.nexts[q]
    ensures SlabsOk(m.slabs[page := NewSlab(page, cache, pageSize)], n, vs[page := NewView(page, cache, pageSize)], pageSize)
    ensures var v := NewView(page, cache, pageSize);
      v.free != [] && v.free[0] == page + SLAB_HEADER && KindIn(v, pageSize) == Empty
  {
    hide IsPow2, ObjectSize, Threaded, NoDup, IsSlot;
    SlotCountBounds(cache, pageSize);
    SlotSeqOk(page, ObjectSize(cache), SlotCount(cache, pageSize));
    OneSlab(m.slabs, m.nexts, vs, pageSize, page, NewSlab(page, cache, pageSize), n, NewView(page, cache, pageSize));
  }

  // ----- what the operations promise

  // The slab an allocation takes its slot from: the first partial one, else the
  // first empty one, else a new one in the page that the base allocator gave.
  ghost function Chosen(st: Abstract, cache: nat, page: Ptr): Ptr
    requires |st.lists| == NUM_LISTS && cache < NUM_CACHES
  {
    var partial, empty := st.lists[ListAt(cache, Partial)], st.lists[ListAt(cache, Empty)];
    if partial != [] then partial[0] else if empty != [] then empty[0] else page
  }

  ghost function Opened(st: Abstract, cache: nat, page: Ptr, pageSize: nat): Views
    requires |st.lists| == NUM_LISTS && cache < NUM_CACHES && pageSize >= SLAB_HEADER
  {
    var p := Chosen(st, cache, page);
    if p in st.slabs then st.slabs else st.slabs[p := NewView(p, cache, pageSize)]
  }

  // Null exactly if neither a slab of the cache has a free slot nor the base
  // allocator gave a page; else the first free slot of the chosen slab.
  ghost predicate Allocated(st: Abstract, st': Abstract, ptr: Ptr, cache: nat, page: Ptr, pageSize: nat)
    requires |st.lists| == NUM_LISTS && cache < NUM_CACHES && pageSize >= SLAB_HEADER
  {
    var p, vs := Chosen(st, cache, page), Opened(st, cache, page, pageSize);
    if p == NULL then
      ptr == NULL && st' == st
    else
      && p in vs && vs[p].cache == cache && vs[p].free != [] && ptr == vs[p].free[0] && ptr != NULL
      && var v := View(cache, vs[p].free[1..]);
      && st'.slabs == vs[p := v] && st'.lists == TakenLists(PickedLists(st, cache, page), p, v, pageSize)
  }

  // The lists once the chosen slab is the first of the partial ones.
  ghost function PickedLists(st: Abstract, cache: nat, page: Ptr): (ls: Lists)
    requires |st.lists| == NUM_LISTS && cache < NUM_CACHES
    ensures |ls| == NUM_LISTS
  {
    var partial, empty := ListAt(cache, Partial), ListAt(cache, Empty);
    if st.lists[partial] != [] then st.lists
    else if st.lists[empty] != [] then MovedLists(st.lists, st.lists[empty][0], empty, partial)
    else PushAt(st.lists, partial, page)
  }

  // A slab without a free slot becomes the first of the full ones.
  ghost function TakenLists(ls: Lists, p: Ptr, v: View, pageSize: nat): Lists
    requires |ls| == NUM_LISTS && v.cache < NUM_CACHES && pageSize >= SLAB_HEADER
  {
    if KindIn(v, pageSize) == Full then MovedLists(ls, p, ListAt(v.cache, Partial), ListAt(v.cache, Full)) else ls
  }

  // The lists once a slab that was v has one slot more and is v'. A full one with a
  // single slot moves twice.
  ghost function GivenLists(ls: Lists, p: Ptr, v: View, v': View, pageSize: nat): Lists
    requires |ls| == NUM_LISTS && v.cache < NUM_CACHES && pageSize >= SLAB_HEADER
  {
    var full, partial, empty := ListAt(v.cache, Full), ListAt(v.cache, Partial), ListAt(v.cache, Empty);
    var ls1 := if KindIn(v, pageSize) == Full then MovedLists(ls, p, full, partial) else ls;
    if KindIn(v', pageSize) == Empty then MovedLists(ls1, p, partial, empty) else ls1
  }

  // The slot becomes the first free one of its slab, which is filed anew.
  ghost predicate Deallocated(st: Abstract, st': Abstract, ptr: Ptr, p: Ptr, pageSize: nat)
    requires p in st.slabs && |st.lists| == NUM_LISTS && pageSize >= SLAB_HEADER
  {
    var v := st.slabs[p];
    var v' := v.(free := [ptr] + v.free);
    v.cache < NUM_CACHES && st'.slabs == st.slabs[p := v'] && st'.lists == GivenLists(st.lists, p, v, v', pageSize)
  }

  // Moving the first slab of a list away and back again changes nothing.
  lemma MoveBack(ls: Lists, p: Ptr, k: nat, j: nat)
    requires k < |ls| && j < |ls| && k != j && ls[k] != [] && ls[k][0] == p
    ensures MovedLists(MovedLists(ls, p, k, j), p, j, k) == ls
  {
    assert Without(ls[k], p) == ls[k][1..] && [p] + ls[k][1..] == ls[k];
    assert Without([p] + ls[j], p) == ls[j];
  }

  // A slab that was put in front of one list and then moved.
  lemma PushMove(ls: Lists, p: Ptr, k: nat, j: nat)
    requires k < |ls| && j < |ls| && k != j
    ensures MovedLists(PushAt(ls, k, p), p, k, j) == PushAt(ls, j, p)
  {
    assert Without([p] + ls[k], p) == ls[k];
  }

  // Freeing at once what was allocated restores slabs, free slots and lists with
  // their order, except that a page just taken stays, as the first empty slab.
  lemma FreeAfterAlloc(m: Memory, heads: seq<Ptr>, st: Abstract, st': Abstract, st'': Abstract, ptr: Ptr, cache: nat, page: Ptr, pageSize: nat)
    requires State(m, heads, st, pageSize) && cache < NUM_CACHES && ptr != NULL && |st'.lists| == NUM_LISTS
    requires Allocated(st, st', ptr, cache, page, pageSize) && Chosen(st, cache, page) in st'.slabs
    requires Deallocated(st', st'', ptr, Chosen(st, cache, page), pageSize)
    requires page !in st.slabs
    ensures var p := Chosen(st, cache, page);
      if p != page then st'' == st
      else st'' == Abstract(PushAt(st.lists, ListAt(cache, Empty), p), st.slabs[p := NewView(p, cache, pageSize)])
  {
    hide IsPow2, MovedLists, SlotCount, PushAt, SlabsOk, Chains;
    var p, vs := Chosen(st, cache, page), Opened(st, cache, page, pageSize);
    var empty, partial, full := ListAt(cache, Empty), ListAt(cache, Partial), ListAt(cache, Full);
    var ls := PickedLists(st, cache, page);
    FreeAgain(vs[p], ptr);
    ChosenKind(m, heads, st, cache, page, pageSize);
    PickedFirst(st, cache, page);
    MoveBack(ls, p, partial, full);
    assert st'.slabs[p].(free := [ptr] + st'.slabs[p].free) == vs[p];
    assert st'.slabs[p := vs[p]] == vs;
    if st.lists[partial] == [] {
      if st.lists[empty] != [] {
        MoveBack(st.lists, p, empty, partial);
      } else {
        PushMove(st.lists, p, partial, empty);
      }
    }
  }

  lemma FreeAgain(v: View, ptr: Ptr)
    requires v.free != [] && v.free[0] == ptr
    ensures [ptr] + v.free[1..] == v.free && View(v.cache, [ptr] + v.free[1..]) == v
  {
  }

  // What the chosen slab is before a slot is taken of it.
  lemma ChosenKind(m: Memory, heads: seq<Ptr>, st: Abstract, cache: nat, page: Ptr, pageSize: nat)
    requires State(m, heads, st, pageSize) && cache < NUM_CACHES && page !in st.slabs
    ensures |st.lists| == NUM_LISTS
    ensures var p, vs := Chosen(st, cache, page), Opened(st, cache, page, pageSize);
      && (p == page <==> st.lists[ListAt(cache, Partial)] == [] == st.lists[ListAt(cache, Empty)])
      && p in vs && KindIn(vs[p], pageSize) == (if st.lists[ListAt(cache, Partial)] != [] then Partial else Empty)
  {
    hide IsPow2, SlabsOk, ListIn;
    HeadSlab(m, heads, st, pageSize, cache, Partial);
    HeadSlab(m, heads, st, pageSize, cache, Empty);
    if st.lists[ListAt(cache, Partial)] != [] {
      ListTells(st.slabs[heads[ListAt(cache, Partial)]], pageSize, cache, Partial);
    } else if st.lists[ListAt(cache, Empty)] != [] {
      ListTells(st.slabs[heads[ListAt(cache, Empty)]], pageSize, cache, Empty);
    }
  }

  lemma PickedFirst(st: Abstract, cache: nat, page: Ptr)
    requires |st.lists| == NUM_LISTS && cache < NUM_CACHES
    ensures var l := PickedLists(st, cache, page)[ListAt(cache, Partial)]; l != [] && l[0] == Chosen(st, cache, page)
  {
  }

  // An allocation makes one more slot live, a deallocation one less.
  lemma AllocLive(m: Memory, heads: seq<Ptr>, st: Abstract, st': Abstract, ptr: Ptr, cache: nat, page: Ptr, pageSize: nat, p: Ptr, q: Ptr)
    requires State(m, heads, st, pageSize) && cache < NUM_CACHES && ptr != NULL
    requires Allocated(st, st', ptr, cache, page, pageSize)
    ensures var c := Chosen(st, cache, page);
      && !IsLive(st.slabs, pageSize, c, ptr)
      && (IsLive(st'.slabs, pageSize, p, q) <==> IsLive(st.slabs, pageSize, p, q) || (p == c && q == ptr))
  {
    hide IsPow2, ObjectSize, IsSlot;
    var c, vs := Chosen(st, cache, page), Opened(st, cache, page, pageSize);
    if c in st.slabs {
      assert SlabAs(m.slabs, m.nexts, st.slabs[c], c, pageSize);
    } else {
      SlotSeqOk(c, ObjectSize(cache), SlotCount(cache, pageSize));
      NoneLive(c, ObjectSize(cache), SlotCount(cache, pageSize), q);
    }
    NoDupTail(vs[c].free);
    assert vs[c].free == [ptr] + vs[c].free[1..];
    assert ptr in vs[c].free;
  }

  lemma NoneLive(page: Ptr, size: nat, n: nat, q: Ptr)
    ensures IsSlot(page, size, n, q) ==> q in SlotSeq(page, size, n)
  {
    if IsSlot(page, size, n, q) {
      var k: nat :| k < n && q == Slot(page, size, k);
      assert SlotSeq(page, size, n)[k] == q;
    }
  }

  lemma FreeLive(st: Abstract, st': Abstract, ptr: Ptr, page: Ptr, pageSize: nat, p: Ptr, q: Ptr)
    requires pageSize >= SLAB_HEADER && IsLive(st.slabs, pageSize, page, ptr)
    requires |st.lists| == NUM_LISTS && Deallocated(st, st', ptr, page, pageSize)
    ensures IsLive(st'.slabs, pageSize, p, q) <==> IsLive(st.slabs, pageSize, p, q) && !(p == page && q == ptr)
  {
  }

  // Slots in use do not overlap, whichever pages they are in.
  lemma LiveApart(m: Memory, heads: seq<Ptr>, st: Abstract, pageSize: nat, p: Ptr, q: Ptr, p': Ptr, q': Ptr)
    requires State(m, heads, st, pageSize) && IsLive(st.slabs, pageSize, p, q) && IsLive(st.slabs, pageSize, p', q')
    requires q != q'
    ensures q + ObjectSize(st.slabs[p].cache) <= q' || q' + ObjectSize(st.slabs[p'].cache) <= q
  {
    hide IsPow2, ObjectSize;
    assert SlabAs(m.slabs, m.nexts, st.slabs[p], p, pageSize);
    assert SlabAs(m.slabs, m.nexts, st.slabs[p'], p', pageSize);
    SlotPage(m.slabs[p], m.nexts, st.slabs[p].free, p, pageSize, q);
    SlotPage(m.slabs[p'], m.nexts, st.slabs[p'].free, p', pageSize, q');
    if p == p' {
      SamePage(p, ObjectSize(st.slabs[p].cache), SlotCount(st.slabs[p].cache, pageSize), q, q');
    } else {
      PagesApart(p, p', pageSize);
    }
  }

  lemma SamePage(p: Ptr, size: nat, n: nat, q: Ptr, q': Ptr)
    requires IsSlot(p, size, n, q) && IsSlot(p, size, n, q') && q != q'
    ensures q + size <= q' || q' + size <= q
  {
    var j: nat :| j < n && q == Slot(p, size, j);
    var k: nat :| k < n && q' == Slot(p, size, k);
    if j < k {
      SlotsApart(p, size, j, k);
    } else {
      SlotsApart(p, size, k, j);
    }
  }

  // The header is found by masking the pointer.
  lemma MaskedPage(pageSize: nat, p: Ptr, q: Ptr)
    requires PageOk(pageSize) && p % pageSize == 0 && p <= q < p + pageSize <= WORD / 2
    ensures pageSize <= WORD
    ensures WORD == Pow2(64) && And(q, Not(64, pageSize - 1)) == p
  {
    hide And, Log2, Pow2, Floor;
    WordIsPow2();
    IsPow2Log2(pageSize);
    var k := Log2(pageSize);
    Pow2Order(64, k);
    Pow2Mono(k, 64);
    assert Not(64, pageSize - 1) == HighMask(64, k);
    AndHighMask(64, q, k);
    FloorMod(q, k);
    Remainder(q, p, pageSize);
  }

  lemma Remainder(q: nat, p: nat, d: nat)
    requires d > 0 && p % d == 0 && p <= q < p + d
    ensures q % d == q - p
  {
    assert p == (p / d) * d;
    ModIs(q, d, p / d, q - p);
  }

  // ----- giving all pages back

  // The slabs of the first n caches, in the order in which clear returns them.
  function Flat(ls: Lists, n: nat): seq<Ptr>
    requires n <= NUM_CACHES && |ls| == NUM_LISTS
  {
    if n == 0 then []
    else Flat(ls, n - 1) + ls[ListAt(n - 1, Full)] + ls[ListAt(n - 1, Partial)] + ls[ListAt(n - 1, Empty)]
  }

  lemma {:induction false} FlatIs(ls: Lists, n: nat, p: Ptr)
    requires n <= NUM_CACHES && |ls| == NUM_LISTS
    ensures p in Flat(ls, n) <==> exists l :: 0 <= l < 3 * n && p in ls[l]
  {
    if n > 0 {
      FlatIs(ls, n - 1, p);
      if l :| 0 <= l < 3 * n && p in ls[l] {
        assert l < 3 * (n - 1) || l == ListAt(n - 1, Full) || l == ListAt(n - 1, Partial) || l == ListAt(n - 1, Empty);
      }
    }
  }

  lemma {:induction false} FlatOnce(m: LinkMemory, ls: Lists, n: nat)
    requires n <= NUM_CACHES && |ls| == NUM_LISTS && Chains(m, ls)
    ensures NoDup(Flat(ls, n))
  {
    if n > 0 {
      FlatOnce(m, ls, n - 1);
      var f, a, b, c := Flat(ls, n - 1), ls[ListAt(n - 1, Full)], ls[ListAt(n - 1, Partial)], ls[ListAt(n - 1, Empty)];
      assert Chain(m, a) && Chain(m, b) && Chain(m, c);
      forall p | p in f
        ensures p !in a && p !in b && p !in c
      {
        FlatIs(ls, n - 1, p);
      }
      NoDupJoin(f, a);
      NoDupJoin(f + a, b);
      NoDupJoin(f + a + b, c);
    }
  }

  lemma NoDupJoin(s: seq<Ptr>, t: seq<Ptr>)
    requires NoDup(s) && NoDup(t) && forall p :: p in s ==> p !in t
    ensures NoDup(s + t)
  {
    forall i, j | 0 <= i < j < |s + t|
      ensures (s + t)[i] != (s + t)[j]
    {
      if i < |s| <= j {
        assert (s + t)[i] in s && (s + t)[j] == t[j - |s|];
      }
    }
  }

  // Every page is returned, and none twice.
  lemma EachPageOnce(m: Memory, heads: seq<Ptr>, st: Abstract, pageSize: nat, p: Ptr)
    requires State(m, heads, st, pageSize)
    ensures NoDup(Flat(st.lists, NUM_CACHES)) && (p in Flat(st.lists, NUM_CACHES) <==> p in st.slabs)
  {
    hide IsPow2, SlabsOk, KindIn;
    FlatOnce(m.links, st.lists, NUM_CACHES);
    FlatIs(st.lists, NUM_CACHES, p);
    if p in st.slabs {
      SlabCache(m, heads, st, pageSize, p);
      assert p in st.lists[ListIn(st.slabs[p], pageSize)];
    }
  }

  lemma SlabCache(m: Memory, heads: seq<Ptr>, st: Abstract, pageSize: nat, p: Ptr)
    requires State(m, heads, st, pageSize) && p in st.slabs
    ensures st.slabs[p].cache < NUM_CACHES && 0 <= ListIn(st.slabs[p], pageSize) < NUM_LISTS
  {
    assert SlabAs(m.slabs, m.nexts, st.slabs[p], p, pageSize);
  }

  // ----- the pieces of the operations

  lemma StateShelf(m: Memory, heads: seq<Ptr>, st: Abstract, pageSize: nat, p: Ptr)
    requires State(m, heads, st, pageSize) && p in st.slabs
    ensures Shelved(m.links, heads, st.lists, st.slabs, pageSize, p, ListIn(st.slabs[p], pageSize))
  {
    hide IsPow2, SlabsOk, ListIn, Chains;
    SlabCache(m, heads, st, pageSize, p);
    FiledOne(st.lists, st.slabs, pageSize, p);
  }

  lemma HeadSlab(m: Memory, heads: seq<Ptr>, st: Abstract, pageSize: nat, cache: nat, kind: Kind)
    requires State(m, heads, st, pageSize) && cache < NUM_CACHES
    ensures var l := ListAt(cache, kind);
      && l < NUM_LISTS == |heads| == |st.lists| && heads[l] == Head(st.lists[l])
      && (heads[l] != NULL <==> st.lists[l] != [])
      && (heads[l] != NULL ==> heads[l] in st.slabs && ListIn(st.slabs[heads[l]], pageSize) == l)
  {
    hide IsPow2, SlabsOk, ListIn;
    var l := ListAt(cache, kind);
    assert Chain(m.links, st.lists[l]);
    NoNull(m.links, st.lists[l]);
    assert st.lists[l] != [] ==> st.lists[l][0] in st.lists[l];
  }

  // A list is for one cache and one kind.
  lemma ListTells(v: View, pageSize: nat, cache: nat, kind: Kind)
    requires pageSize >= SLAB_HEADER && ListIn(v, pageSize) == ListAt(cache, kind)
    ensures v.cache == cache && KindIn(v, pageSize) == kind
  {
  }

  // A slab of the list for partial or for empty ones has a free slot.
  lemma HasFree(m: Memory, vs: Views, pageSize: nat, p: Ptr)
    requires PageOk(pageSize) && SlabsOk(m.slabs, m.nexts, vs, pageSize) && p in vs && KindIn(vs[p], pageSize) != Full
    ensures vs[p].free != [] && p != NULL
  {
    hide IsPow2;
    assert SlabAs(m.slabs, m.nexts, vs[p], p, pageSize);
    CacheBound(m.slabs[p], m.nexts, vs[p].free, p, pageSize);
    KindsAgree(m.slabs[p], m.nexts, vs[p].free, p, pageSize);
  }

  // The state once the slab at hand is in the list of its kind.
  lemma StateBack(m: Memory, heads: seq<Ptr>, ls: Lists, vs: Views, pageSize: nat, p: Ptr)
    requires PageOk(pageSize) && p in vs && SlabsOk(m.slabs, m.nexts, vs, pageSize)
    requires Shelved(m.links, heads, ls, vs, pageSize, p, ListIn(vs[p], pageSize))
    ensures State(m, heads, Abstract(ls, vs), pageSize)
  {
    hide IsPow2, SlabsOk, ListIn, Chains;
    FiledOne(ls, vs, pageSize, p);
  }

  lemma ShelfView(m: LinkMemory, heads: seq<Ptr>, ls: Lists, vs: Views, pageSize: nat, p: Ptr, k: nat, v: View)
    requires pageSize >= SLAB_HEADER && Shelved(m, heads, ls, vs, pageSize, p, k)
    ensures |ls| == NUM_LISTS && Shelved(m, heads, ls, vs[p := v], pageSize, p, k)
  {
    hide Chains, ListIn;
    FiledView(ls, vs, pageSize, p, k, v);
  }

  lemma StatePage(m: Memory, heads: seq<Ptr>, st: Abstract, pageSize: nat)
    requires State(m, heads, st, pageSize)
    ensures PageOk(pageSize) && SlabsOk(m.slabs, m.nexts, st.slabs, pageSize)
    ensures Chains(m.links, st.lists) && HeadsOf(heads, st.lists) && Filed(st.lists, st.slabs, pageSize) && |heads| == NUM_LISTS == |st.lists|
  {
  }

  lemma ClearedState(m: Memory, heads: seq<Ptr>, pageSize: nat)
    requires PageOk(pageSize) && |heads| == NUM_LISTS && forall l :: 0 <= l < NUM_LISTS ==> heads[l] == NULL
    ensures State(m, heads, Abstract(ClearLists(NUM_LISTS, NULL, NUM_LISTS), map[]), pageSize)
  {
    hide IsPow2;
  }

  lemma AllLists(heads: seq<Ptr>)
    requires |heads| == NUM_LISTS && forall c, kind :: 0 <= c < NUM_CACHES ==> heads[ListAt(c, kind)] == NULL
    ensures forall l :: 0 <= l < NUM_LISTS ==> heads[l] == NULL
  {
    forall l | 0 <= l < NUM_LISTS
      ensures heads[l] == NULL
    {
      var kind := if l % 3 == 0 then Empty else if l % 3 == 1 then Partial else Full;
      assert l == ListAt(l / 3, kind);
    }
  }

  // A page that is no slab yet may be written to.
  lemma FrameLists(m: LinkMemory, ls: Lists, vs: Views, pageSize: nat, page: Ptr)
    requires pageSize >= SLAB_HEADER && Chains(m, ls) && Filed(ls, vs, pageSize) && page !in vs
    ensures Chains(m[page := Link(NULL, NULL)], ls)
  {
    hide ListIn;
    RemovedChains(m, ls, page);
  }

  lemma NotNull(m: Memory, vs: Views, pageSize: nat, p: Ptr)
    requires PageOk(pageSize) && SlabsOk(m.slabs, m.nexts, vs, pageSize) && p in vs && vs[p].free != []
    ensures vs[p].free[0] != NULL
  {
    hide IsPow2, ObjectSize;
    assert SlabAs(m.slabs, m.nexts, vs[p], p, pageSize);
    assert vs[p].free[0] in vs[p].free;
    SlotPage(m.slabs[p], m.nexts, vs[p].free, p, pageSize, vs[p].free[0]);
  }

  lemma FoundPage(m: Memory, vs: Views, pageSize: nat, p: Ptr, q: Ptr)
    requires PageOk(pageSize) && SlabsOk(m.slabs, m.nexts, vs, pageSize) && IsLive(vs, pageSize, p, q)
    ensures pageSize <= WORD && WORD == Pow2(64) && And(q, Not(64, pageSize - 1)) == p
  {
    hide ObjectSize, And, Not, Pow2;
    assert SlabAs(m.slabs, m.nexts, vs[p], p, pageSize);
    SlotPage(m.slabs[p], m.nexts, vs[p].free, p, pageSize, q);
    MaskedPage(pageSize, p, q);
  }

  lemma NextSlab(m: LinkMemory, ls: Lists, l: nat, i: nat)
    requires Chains(m, ls) && l < |ls| && i <= |ls[l]| && Head(ls[l][i..]) != NULL
    ensures i < |ls[l]| && ls[l][i] == Head(ls[l][i..]) && ls[l][i] in m && m[ls[l][i]].next == Head(ls[l][i + 1..])
    ensures ls[l][..i] + [ls[l][i]] == ls[l][..i + 1]
  {
    assert Chain(m, ls[l]);
    assert LinkedAt(m, ls[l], i);
    assert i + 1 < |ls[l]| ==> ls[l][i + 1..][0] == ls[l][i + 1];
  }

  lemma ListEnd(m: LinkMemory, ls: Lists, l: nat, i: nat)
    requires Chains(m, ls) && l < |ls| && i <= |ls[l]| && Head(ls[l][i..]) == NULL
    ensures i == |ls[l]| && ls[l][..i] == ls[l]
  {
    assert Chain(m, ls[l]);
    assert i < |ls[l]| ==> LinkedAt(m, ls[l], i);
  }

  // ----- threading a new slab

  // The first i slots of s lead to the ones behind them.
  ghost predicate ThreadedTo(n: Nexts, s: seq<Ptr>, i: nat) {
    i <= |s| && forall k :: 0 <= k < i && k + 1 < |s| ==> NextAt(n, s, k)
  }

  ghost predicate OutsideSame(n: Nexts, n': Nexts, page: Ptr, pageSize: nat) {
    forall q :: q in n && !(page <= q < page + pageSize) ==> q in n' && n'[q] == n[q]
  }

  lemma FirstSlot(n: Nexts, page: Ptr, pageSize: nat, size: nat, capacity: nat)
    ensures Slot(page, size, 0) == page + SLAB_HEADER
    ensures ThreadedTo(n, SlotSeq(page, size, capacity), 0) && OutsideSame(n, n, page, pageSize)
  {
  }

  lemma SameOutside(n0: Nexts, n: Nexts, page: Ptr, pageSize: nat)
    requires OutsideSame(n0, n, page, pageSize)
    ensures forall q :: q in n0 && !(page <= q < page + pageSize) ==> q in n && n[q] == n0[q]
  {
  }

  lemma ThreadStep(n0: Nexts, n: Nexts, page: Ptr, pageSize: nat, size: nat, capacity: nat, i: nat)
    requires size > 0 && pageSize >= SLAB_HEADER && capacity == Capacity(pageSize, size) && i + 1 < capacity
    requires ThreadedTo(n, SlotSeq(page, size, capacity), i) && OutsideSame(n0, n, page, pageSize)
    ensures var n' := n[Slot(page, size, i) := Slot(page, size, i) + size];
      && ThreadedTo(n', SlotSeq(page, size, capacity), i + 1) && OutsideSame(n0, n', page, pageSize)
      && Slot(page, size, i) + size == Slot(page, size, i + 1)
  {
    hide Slot, Capacity;
    NextSlot(page, size, i);
    SlotInPage(page, pageSize, size, i);
    SlotSeqOk(page, size, capacity);
    var s, n' := SlotSeq(page, size, capacity), n[Slot(page, size, i) := Slot(page, size, i) + size];
    forall k | 0 <= k < i + 1 && k + 1 < |s|
      ensures NextAt(n', s, k)
    {
      if k < i {
        assert NextAt(n, s, k) && s[k] != s[i];
      }
    }
  }

  lemma NextSlot(page: Ptr, size: nat, i: nat)
    ensures Slot(page, size, i) + size == Slot(page, size, i + 1)
  {
    Distribute(i, 1, size);
  }

  lemma ThreadEnd(n0: Nexts, n: Nexts, page: Ptr, pageSize: nat, size: nat, capacity: nat)
    requires size > 0 && pageSize >= SLAB_HEADER && capacity == Capacity(pageSize, size) && capacity > 0
    requires ThreadedTo(n, SlotSeq(page, size, capacity), capacity - 1) && OutsideSame(n0, n, page, pageSize)
    ensures var n' := n[Slot(page, size, capacity - 1) := NULL];
      Threaded(n', SlotSeq(page, size, capacity)) && OutsideSame(n0, n', page, pageSize)
  {
    hide Slot, Capacity;
    SlotInPage(page, pageSize, size, capacity - 1);
    SlotSeqOk(page, size, capacity);
    var s, n' := SlotSeq(page, size, capacity), n[Slot(page, size, capacity - 1) := NULL];
    forall k | 0 <= k < |s|
      ensures NextAt(n', s, k)
    {
      if k + 1 < |s| {
        assert NextAt(n, s, k) && s[k] != s[capacity - 1];
      }
    }
  }
}
