// The slab allocator: pages of a base allocator cut into equal slots, one cache
// for each power of two from 8 to 2048.
module SlabModel {
  import opened Bits
  import opened Links
  import opened SlabState
  import opened SlabSpec

  class SlabAllocator {
    const pageSize: nat
    const objectSizes: array<nat>
    // the first slab of each list; ListAt says which list is where
    const heads: array<Ptr>
    var mem: Memory
    ghost var st: Abstract

    constructor (pageSize: nat)
      requires PageOk(pageSize)
      ensures Valid() && fresh(heads) && fresh(objectSizes) && this.pageSize == pageSize
      ensures st.slabs == map[]
    {
      this.pageSize := pageSize;
      objectSizes := new nat[NUM_CACHES];
      heads := new Ptr[NUM_LISTS];
      mem := Memory(map[], map[], map[]);
      st := Abstract([], map[]);
      new;
      hide IsPow2;
      var i, size := 0, 8;
      assert Pow2(3) == 8;
      while i < NUM_CACHES
        invariant i <= NUM_CACHES && size == Pow2(i + 3)
        invariant forall c :: 0 <= c < i ==> objectSizes[c] == ObjectSize(c)
        invariant forall c, kind :: 0 <= c < i ==> heads[ListAt(c, kind)] == NULL
      {
        objectSizes[i] := size;
        heads[ListAt(i, Partial)] := NULL;
        heads[ListAt(i, Empty)] := NULL;
        heads[ListAt(i, Full)] := NULL;
        size := 2 * size;
        i := i + 1;
      }
      AllLists(heads[..]);
      ClearedState(mem, heads[..], pageSize);
      st := Abstract(ClearLists(NUM_LISTS, NULL, NUM_LISTS), map[]);
    }

    // What the lists need while a slab moves from one to another.
    ghost predicate Fixed()
      reads this, objectSizes, heads
    {
      && PageOk(pageSize) && heads.Length == NUM_LISTS && objectSizes.Length == NUM_CACHES && objectSizes != heads
      && forall c :: 0 <= c < NUM_CACHES ==> objectSizes[c] == ObjectSize(c)
    }

    ghost predicate Valid()
      reads this, objectSizes, heads
    {
      Fixed() && State(mem, heads[..], st, pageSize)
    }

    // slab becomes the first of a list.
    method PushToList(l: nat, slab: Ptr)
      requires l < heads.Length && (heads[l] != NULL ==> heads[l] in mem.links)
      modifies this`mem, heads
      ensures mem == old(mem).(links := PushMemory(old(mem).links, old(heads[l]), slab))
      ensures heads[..] == old(heads[..])[l := slab]
    {
      var links := mem.links[slab := Link(NULL, heads[l])];
      if heads[l] != NULL {
        links := links[heads[l] := links[heads[l]].(prev := slab)];
      }
      heads[l] := slab;
      mem := mem.(links := links);
    }

    // slab leaves a list.
    method RemoveFromList(l: nat, slab: Ptr)
      requires l < heads.Length && Removable(mem.links, slab)
      modifies this`mem, heads
      ensures mem == old(mem).(links := RemoveMemory(old(mem).links, slab))
      ensures heads[..] == HeadsWithout(old(heads[..]), old(mem).links, l, slab)
    {
      var links := mem.links;
      var prev, next := links[slab].prev, links[slab].next;
      if prev != NULL {
        links := links[prev := links[prev].(next := next)];
      } else {
        heads[l] := next;
      }
      if next != NULL {
        links := links[next := links[next].(prev := prev)];
      }
      mem := mem.(links := links[slab := Link(NULL, NULL)]);
    }

    // A slab leaves one list and joins another.
    method Move(slab: Ptr, k: nat, j: nat, ghost ls: Lists, ghost vs: Views) returns (ghost ls': Lists)
      requires Fixed() && Shelved(mem.links, heads[..], ls, vs, pageSize, slab, k) && j < NUM_LISTS && j != k
      modifies this`mem, heads
      ensures Fixed() && mem.slabs == old(mem).slabs && mem.nexts == old(mem).nexts
      ensures Shelved(mem.links, heads[..], ls', vs, pageSize, slab, j)
      ensures |ls| == NUM_LISTS && ls' == MovedLists(ls, slab, k, j)
    {
      hide Shelved, IsPow2, RemoveMemory, PushMemory, Without, HeadsWithout, ObjectSize;
      MoveShelf(mem.links, heads[..], ls, vs, pageSize, slab, k, j);
      RemoveFromList(k, slab);
      PushToList(j, slab);
      ls' := MovedLists(ls, slab, k, j);
    }

    // Cuts a page into slots and links them.
    method InitSlab(cache: nat, page: Ptr)
      requires Fixed() && cache < NUM_CACHES
      modifies this`mem
      ensures mem.slabs == old(mem).slabs[page := NewSlab(page, cache, pageSize)] && mem.links == old(mem).links[page := Link(NULL, NULL)]
      ensures Threaded(mem.nexts, SlotSeq(page, ObjectSize(cache), SlotCount(cache, pageSize)))
      ensures var n, size := mem.slabs[page].capacity, ObjectSize(cache);
        && (forall k: nat :: k < n ==> Slot(page, size, k) + size <= page + pageSize)
        && Slot(page, size, n) + size > page + pageSize
      ensures forall q :: q in old(mem).nexts && !(page <= q < page + pageSize) ==> q in mem.nexts && mem.nexts[q] == old(mem).nexts[q]
    {
      hide IsPow2, ObjectSize, Slot, Threaded, SlotSeq, ThreadedTo, OutsideSame;
      SlotCountBounds(cache, pageSize);
      SlotsFill(page, cache, pageSize);
      FirstSlot(mem.nexts, page, pageSize, ObjectSize(cache), SlotCount(cache, pageSize));
      var objectSize := objectSizes[cache];
      var capacity := Capacity(pageSize, objectSize);
      var freePtr := page + SLAB_HEADER;
      ghost var s := SlotSeq(page, objectSize, capacity);
      var nexts: Nexts := mem.nexts;
      var i := 0;
      while i < capacity - 1
        invariant mem == old(mem) && i <= capacity - 1 && freePtr == Slot(page, objectSize, i)
        invariant ThreadedTo(nexts, s, i) && OutsideSame(old(mem).nexts, nexts, page, pageSize)
      {
        var nextFreePtr := freePtr + objectSize;
        ThreadStep(old(mem).nexts, nexts, page, pageSize, objectSize, capacity, i);
        nexts := nexts[freePtr := nextFreePtr];
        freePtr := nextFreePtr;
        i := i + 1;
      }
      ThreadEnd(old(mem).nexts, nexts, page, pageSize, objectSize, capacity);
      nexts := nexts[freePtr := NULL];
      SameOutside(old(mem).nexts, nexts, page, pageSize);
      mem := Memory(mem.slabs[page := Slab(page + SLAB_HEADER, 0, capacity, cache)], mem.links[page := Link(NULL, NULL)], nexts);
    }

    // The slab that the next slot is taken from, in the list of partial ones; page
    // is what the base allocator gives if it is asked for one.
    method PickSlab(cache: nat, page: Ptr) returns (slab: Ptr, ghost ls: Lists, ghost vs: Views)
      requires Valid() && cache < NUM_CACHES
      requires page != NULL ==> page % pageSize == 0 && page + pageSize <= WORD / 2 && page !in st.slabs
      modifies this`mem, heads
      ensures Fixed() && |st.lists| == NUM_LISTS && slab == Chosen(st, cache, page)
      ensures slab == NULL ==> Valid()
      ensures slab != NULL ==> vs == Opened(st, cache, page, pageSize) && slab in vs && vs[slab].cache == cache && vs[slab].free != []
      ensures slab != NULL ==> SlabsOk(mem.slabs, mem.nexts, vs, pageSize)
      ensures slab != NULL ==> Shelved(mem.links, heads[..], ls, vs, pageSize, slab, ListAt(cache, Partial))
      ensures slab != NULL ==> ls == PickedLists(st, cache, page)
    {
      hide State, Shelved, SlabsOk, Chains, HeadsOf, Filed, IsPow2, PushMemory, ListIn, Threaded, SlotSeq;
      StatePage(mem, heads[..], st, pageSize);
      HeadSlab(mem, heads[..], st, pageSize, cache, Partial);
      HeadSlab(mem, heads[..], st, pageSize, cache, Empty);
      ls, vs := st.lists, st.slabs;
      slab := heads[ListAt(cache, Partial)];
      if slab == NULL {
        slab := heads[ListAt(cache, Empty)];
        if slab != NULL {
          ListTells(vs[slab], pageSize, cache, Empty);
          HasFree(mem, vs, pageSize, slab);
          StateShelf(mem, heads[..], st, pageSize, slab);
          ls := Move(slab, ListAt(cache, Empty), ListAt(cache, Partial), ls, vs);
        } else if page != NULL {
          slab := page;
          ghost var m0 := mem;
          InitSlab(cache, page);
          NewSlabOk(m0, mem.nexts, vs, page, cache, pageSize);
          FrameLists(m0.links, ls, vs, pageSize, page);
          NewShelf(mem.links, heads[..], ls, vs, pageSize, page, ListAt(cache, Partial), NewView(page, cache, pageSize));
          ls, vs := PushAt(ls, ListAt(cache, Partial), page), vs[page := NewView(page, cache, pageSize)];
          PushToList(ListAt(cache, Partial), page);
        }
      } else {
        ListTells(vs[slab], pageSize, cache, Partial);
        HasFree(mem, vs, pageSize, slab);
        StateShelf(mem, heads[..], st, pageSize, slab);
      }
    }

    // The first free slot of a slab in the list of partial ones is handed out.
    method TakeFirst(slab: Ptr, cache: nat, ghost ls0: Lists, ghost vs: Views) returns (ptr: Ptr)
      requires Fixed() && cache < NUM_CACHES && slab in vs && vs[slab].cache == cache && vs[slab].free != []
      requires SlabsOk(mem.slabs, mem.nexts, vs, pageSize)
      requires Shelved(mem.links, heads[..], ls0, vs, pageSize, slab, ListAt(cache, Partial))
      modifies this`mem, this`st, heads
      ensures Valid() && ptr == vs[slab].free[0]
      ensures var v := View(cache, vs[slab].free[1..]);
        st.slabs == vs[slab := v] && |ls0| == NUM_LISTS && st.lists == TakenLists(ls0, slab, v, pageSize)
    {
      hide State, Shelved, SlabsOk, IsPow2, ObjectSize, KindIn, SlotCount;
      TakeFrom(mem, vs, pageSize, slab);
      ghost var ls := ls0;
      ghost var v' := View(cache, vs[slab].free[1..]);
      ghost var vs' := vs[slab := v'];
      ShelfView(mem.links, heads[..], ls, vs, pageSize, slab, ListAt(cache, Partial), v');
      ptr := mem.slabs[slab].freeHead;
      var h := mem.slabs[slab].(freeHead := mem.nexts[ptr], used := mem.slabs[slab].used + 1);
      mem := mem.(slabs := mem.slabs[slab := h]);
      if h.used == h.capacity {
        ls := Move(slab, ListAt(cache, Partial), ListAt(cache, Full), ls, vs');
      }
      StateBack(mem, heads[..], ls, vs', pageSize, slab);
      st := Abstract(ls, vs');
    }

    // routed: the request is passed on to the base allocator. page is what that
    // gives if it is asked for a page.
    method AllocRaw(size: nat, align: nat, page: Ptr) returns (ptr: Ptr, routed: bool)
      requires Valid()
      requires page != NULL ==> page % pageSize == 0 && page + pageSize <= WORD / 2 && page !in st.slabs
      modifies this`mem, this`st, heads
      ensures Valid()
      ensures routed <==> GoodRequest(size, align) && SizeToCacheIdx(Max(size, align)) >= NUM_CACHES
      ensures !GoodRequest(size, align) ==> ptr == NULL
      ensures !GoodRequest(size, align) || routed ==> st == old(st)
      ensures GoodRequest(size, align) && !routed ==>
        var cache := SizeToCacheIdx(Max(size, align));
        && 0 <= cache < NUM_CACHES && |old(st).lists| == NUM_LISTS
        && Allocated(old(st), st, ptr, cache, page, pageSize)
    {
      hide State, Shelved, SlabsOk, IsPow2, ObjectSize, SizeToCacheIdx, Opened, Chosen, SlotCount, KindIn;
      SmallIsCached(size, align);
      ptr, routed := NULL, false;
      if !IsPow2(align) {
        return;
      }
      if size == 0 || size + align >= WORD {
        return;
      }
      if size > MAX_CACHE_SIZE || align > MAX_CACHE_SIZE {
        routed := true;
        return;
      }
      SizeToCacheLeast(Max(size, align));
      var cache := SizeToCacheIdx(Max(size, align));
      ghost var ls, vs;
      var slab;
      slab, ls, vs := PickSlab(cache, page);
      if slab == NULL {
        return;
      }
      NotNull(mem, vs, pageSize, slab);
      ptr := TakeFirst(slab, cache, ls, vs);
    }

    // ptr is null, or a slot of the page that was handed out and not freed since.
    method FreeRaw(ptr: Ptr, ghost page: Ptr)
      requires Valid() && (ptr != NULL ==> IsLive(st.slabs, pageSize, page, ptr))
      modifies this`mem, this`st, heads
      ensures Valid()
      ensures ptr == NULL ==> st == old(st)
      ensures ptr != NULL ==> page in old(st).slabs && |old(st).lists| == NUM_LISTS && Deallocated(old(st), st, ptr, page, pageSize)
    {
      hide State, Shelved, SlabsOk, IsPow2, ObjectSize, KindIn, SlotCount, IsSlot, And, Not;
      if ptr == NULL {
        return;
      }
      StatePage(mem, heads[..], st, pageSize);
      GiveTo(mem, st.slabs, pageSize, page, ptr);
      FoundPage(mem, st.slabs, pageSize, page, ptr);
      StateShelf(mem, heads[..], st, pageSize, page);
      ghost var v := st.slabs[page];
      ghost var v' := v.(free := [ptr] + v.free);
      ghost var ls, vs' := st.lists, st.slabs[page := v'];
      ShelfView(mem.links, heads[..], ls, st.slabs, pageSize, page, ListIn(v, pageSize), v');

      var header := And(ptr, Not(64, pageSize - 1));
      var h := mem.slabs[header];
      var h' := h.(freeHead := ptr, used := h.used - 1);
      mem := mem.(slabs := mem.slabs[header := h'], nexts := mem.nexts[ptr := h.freeHead]);
      if h'.used == h'.capacity - 1 {
        ls := Move(header, ListAt(h'.cache, Full), ListAt(h'.cache, Partial), ls, vs');
      }
      if h'.used == 0 {
        ls := Move(header, ListAt(h'.cache, Partial), ListAt(h'.cache, Empty), ls, vs');
      }
      StateBack(mem, heads[..], ls, vs', pageSize, page);
      st := Abstract(ls, vs');
    }

    // Returns the pages of one list to the base allocator.
    method ClearSlabList(l: nat, ghost ls: Lists) returns (returned: seq<Ptr>)
      requires l < heads.Length && |ls| == heads.Length && Chains(mem.links, ls) && heads[l] == Head(ls[l])
      modifies heads
      ensures returned == ls[l] && heads[l] == NULL
      ensures forall j :: 0 <= j < heads.Length && j != l ==> heads[j] == old(heads[j])
    {
      var curr := heads[l];
      returned := [];
      while curr != NULL
        invariant heads[..] == old(heads[..]) && |returned| <= |ls[l]| && returned == ls[l][..|returned|]
        invariant curr == Head(ls[l][|returned|..])
        decreases |ls[l]| - |returned|
      {
        NextSlab(mem.links, ls, l, |returned|);
        var next := mem.links[curr].next;
        returned := returned + [curr];
        curr := next;
      }
      ListEnd(mem.links, ls, l, |returned|);
      heads[l] := NULL;
    }

    // Returns all pages.
    method Clear() returns (returned: seq<Ptr>)
      requires Valid()
      modifies this`st, heads
      ensures Valid() && st.slabs == map[]
      ensures |old(st).lists| == NUM_LISTS && returned == Flat(old(st).lists, NUM_CACHES)
    {
      hide State, IsPow2, Chains, Filed, SlabsOk;
      StatePage(mem, heads[..], st, pageSize);
      ghost var ls := st.lists;
      returned := [];
      var i := 0;
      while i < NUM_CACHES
        invariant i <= NUM_CACHES && Fixed() && returned == Flat(ls, i)
        invariant forall l :: 0 <= l < 3 * i ==> heads[l] == NULL
        invariant forall l :: 3 * i <= l < NUM_LISTS ==> heads[l] == Head(ls[l])
      {
        var full := ClearSlabList(ListAt(i, Full), ls);
        var partial := ClearSlabList(ListAt(i, Partial), ls);
        var empty := ClearSlabList(ListAt(i, Empty), ls);
        returned := returned + full + partial + empty;
        i := i + 1;
      }
      ClearedState(mem, heads[..], pageSize);
      st := Abstract(ClearLists(NUM_LISTS, NULL, NUM_LISTS), map[]);
    }
  }
}
