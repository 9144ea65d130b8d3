/** kmalloc and kfree over slabs linked by `next` and `prev`, with each cache's three list heads. */
module Kmems {
  import opened Bits
  import opened Common
  import opened SlabModel
  import opened HeapModel
  import opened KmemModel
  import opened Slabs

  class KmemCache {
    const size: nat
    const objPerSlab: nat
    const order: nat
    var freeSlabs: SlabHeader?
    var partialSlabs: SlabHeader?
    var fullSlabs: SlabHeader?

    /** create_boot_cache: the lists are empty. */
    constructor (size: nat)
      requires CacheSize(size)
      ensures this.size == size && Sized() && freeSlabs == partialSlabs == fullSlabs == null
    {
      SlabPagesExact(size);
      this.size, objPerSlab, order := size, ObjPerSlab(PagesFor(size), size), BuddyModel.Log2(PagesFor(size));
      freeSlabs, partialSlabs, fullSlabs := null, null, null;
    }

    predicate Sized() {
      PagesFor(size) >= 1 && objPerSlab == ObjPerSlab(PagesFor(size), size) && Pow2(order) == SlabPages(size)
    }
  }

  lemma SlabFacts(k: Kmem, i: nat)
    requires PoolInv(k.pool) && i < |k.pool.cells|
    ensures var c := k.pool.cells[i];
            Inv(c.slab, c.live) && c.slab.obj < UINT_RANGE && (c.slab.active == 0 <==> c.live == {})
  {
    assert CellOk(k.pool.cells[i]);
    CellRange(k.pool, i);
    NoneLive(k.pool.cells[i]);
  }

  /** Released or not, as the model and as the code decide it. */
  lemma ReleasedOnTop(k: Kmem, i: nat)
    requires PoolInv(k.pool) && i < |k.pool.cells|
    ensures var p := k.pool.cells[i].place;
            k.pool.top <= (p.base + HEADER + PGSIZE * p.pages - HEADER) % UINT_RANGE <==> i == |k.pool.cells| - 1
    ensures var p, top := k.pool.cells[i].place, Release(Geometry(k.pool), i).top;
            i == |k.pool.cells| - 1 ==> top == (UINT_RANGE * p.pages + k.pool.top - PGSIZE * p.pages) % UINT_RANGE
  {
    hide Tiled, Release, CellOk;
    var h := Geometry(k.pool);
    ReleaseTiled(h, i);
    ReleaseWhen(h, i);
    assert h.slabs[i] == k.pool.cells[i].place && |h.slabs| == |k.pool.cells| && h.top == k.pool.top;
    hide Geometry;
  }

  lemma ReleaseWhen(h: Heap, i: nat)
    requires i < |h.slabs|
    ensures var p, h' := h.slabs[i], Release(h, i);
            if h.top > (p.base + HEADER + PGSIZE * p.pages - HEADER) % UINT_RANGE then h' == h
            else h' != h && h'.top == (UINT_RANGE * p.pages + h.top - PGSIZE * p.pages) % UINT_RANGE
  {
    assert |Release(h, i).slabs| != |h.slabs| || Release(h, i) == h;
  }

  /** No cache but `c` lists slab `i`. */
  ghost predicate OnlyHead(caches: seq<Cache>, c: nat, i: nat) {
    forall d :: 0 <= d < |caches| && d != c ==> caches[d].partial != Some(i) && caches[d].free != Some(i)
  }

  lemma HeadAlone(k: Kmem, c: nat, i: nat)
    requires KmemInv(k) && c < |k.caches| && Head(k.caches[c]) == Some(i)
    ensures OnlyHead(k.caches, c, i)
  {
    OneHead(k);
    forall d | 0 <= d < |k.caches| && d != c ensures Head(k.caches[d]) != Some(i) {
      assert d < c || c < d;
    }
  }

  /** What kfree does once cache `c` finds a live object. */
  lemma FoundIn(k: Kmem, c: nat, addr: nat)
    requires KmemInv(k) && c < |k.caches| && Live(k.pool, addr) && Finds(k, addr, c) && Finder(k, addr) == c
    ensures var i := k.caches[c].partial.value;
            && i < |k.pool.cells| && k.caches[c].partial == Some(i) && k.caches[c].free == None
            && OnlyHead(k.caches, c, i)
            && var s := k.pool.cells[i].slab;
            && s.size >= 1 && 1 <= s.active <= |s.freeList| && IdOf(s, addr) in k.pool.cells[i].live
            && PoolInv(GivenBack(k, i, IdOf(s, addr), addr).pool)
            && Kfree(k, addr) == Some(Unlist(GivenBack(k, i, IdOf(s, addr), addr), c, i))
            && KmemInv(Kfree(k, addr).value)
  {
    hide Kfree, Covers, Put, Accepts, CacheOk, PoolInv;
    var i, x :| 0 <= i < |k.pool.cells| && x in k.pool.cells[i].live && Covers(k.pool.cells[i], x, addr);
    OwnerFound(k.pool, i, x, addr);
    KfreeIs(k, i, x, addr);
    KfreeExactly(k, i, x, addr);
    OneHead(k);
    HeadAlone(k, c, i);
  }

  function WithHeads(k: Kmem, c: nat, partial: Option<nat>, free: Option<nat>): Kmem
    requires c < |k.caches|
  {
    k.(caches := k.caches[c := Cache(k.caches[c].size, partial, free)])
  }

  lemma NotFound(k: Kmem, addr: nat)
    requires Finder(k, addr) == |k.caches|
    ensures Kfree(k, addr) == None
  {
  }

  /** The heap with a new slab on top, in the terms its header is set up in. */
  lemma NewOnTop(k: Kmem, c: nat)
    requires KmemInv(k) && c < |k.caches| && Room(k, c)
    ensures var size, p := k.caches[c].size, PoolStep(k.pool, Create(k.caches[c].size));
            && PagesFor(size) >= 1 && CacheSize(size) && PoolInv(p)
            && p.top == k.pool.top + PGSIZE * SlabPages(size)
            && var s := NewSlab(k.pool.top, size, ObjPerSlab(PagesFor(size), size));
            && Fits(s) && p.cells == k.pool.cells + [Cell(Place(k.pool.top, SlabPages(size), size), s, {})]
  {
    assert CacheOk(k, c);
    FreshIs(k, c);
    SlabPagesExact(k.caches[c].size);
    ContentInside(Fresh(k, c).place);
  }

  class Allocator {
    const caches: seq<KmemCache>
    var heapTop: nat
    ghost var slabs: seq<SlabHeader>
    ghost var k: Kmem

    /** A list head and what the model says of it. */
    ghost predicate Points(head: SlabHeader?, to: Option<nat>)
      reads this
    {
      match to
      case None => head == null
      case Some(i) => i < |slabs| && head == slabs[i]
    }

    ghost predicate Apart()
      reads this
    {
      && Distinct(caches) && Distinct(slabs)
      && forall i, j :: 0 <= i < j < |slabs| ==> slabs[i].freeList != slabs[j].freeList
    }

    ghost predicate SlabTied(k: Kmem, i: nat)
      requires i < |slabs| == |k.pool.cells|
      reads this, slabs[i], slabs[i].freeList
    {
      k.pool.cells[i] == slabs[i].InPlace() && slabs[i].next == slabs[i].prev == null
    }

    ghost predicate CacheTied(k: Kmem, c: nat)
      requires c < |caches| == |k.caches|
      reads this, caches[c]
    {
      && k.caches[c].size == caches[c].size && caches[c].Sized() && caches[c].fullSlabs == null
      && Points(caches[c].partialSlabs, k.caches[c].partial) && Points(caches[c].freeSlabs, k.caches[c].free)
    }

    /** Slabs, list heads and heap top are as `k` says; no slab is linked to another, and no full list has a head. */
    ghost predicate Tied(k: Kmem)
      reads this, caches, slabs, set s | s in slabs :: s.freeList
    {
      && Apart() && |slabs| == |k.pool.cells| && |caches| == |k.caches| && k.pool.top == heapTop
      && (forall i :: 0 <= i < |slabs| ==> SlabTied(k, i))
      && (forall c :: 0 <= c < |caches| ==> CacheTied(k, c))
    }

    ghost predicate Valid()
      reads this, caches, slabs, set s | s in slabs :: s.freeList
    {
      Tied(k) && KmemInv(k)
    }

    constructor (caches: seq<KmemCache>)
      requires Distinct(caches)
      requires forall c :: 0 <= c < |caches| ==>
                 && CacheSize(caches[c].size) && caches[c].Sized()
                 && caches[c].freeSlabs == caches[c].partialSlabs == caches[c].fullSlabs == null
      ensures Valid() && this.caches == caches && heapTop == HEAP_START && slabs == []
    {
      this.caches, heapTop, slabs := caches, HEAP_START, [];
      var cs := seq(|caches|, c requires 0 <= c < |caches| => Cache(caches[c].size, None, None));
      k := Kmem(EMPTY, cs);
      StartInv(EMPTY, cs);
    }

    /** The slab leaves the partial list, as head, tail or middle, whichever its links make it. */
    method MoveOffPartial(slabp: SlabHeader, cache: KmemCache)
      requires slabp.prev != slabp && slabp.next != slabp
      modifies cache`partialSlabs, slabp`next, slabp`prev, slabp.prev, slabp.next
      ensures old(slabp.prev) == null ==>
                && cache.partialSlabs == old(slabp.next)
                && unchanged(slabp) && (slabp.next != null ==> unchanged(slabp.next))
      ensures old(slabp.prev) != null ==>
                cache.partialSlabs == old(cache.partialSlabs) && old(slabp.prev).next == old(slabp.next)
      ensures old(slabp.prev) != null && old(slabp.next) != null ==>
                old(slabp.next).prev == old(slabp.prev) && slabp.next == slabp.prev == null
    {
      if slabp.prev == null {
        cache.partialSlabs := slabp.next;
      } else if slabp.next == null {
        slabp.prev.next := null;
      } else {
        slabp.prev.next := slabp.next;
        slabp.next.prev := slabp.prev;
        slabp.next, slabp.prev := null, null;
      }
    }

    /** _check_free_buddy: the heap top moves down over the slab, if the slab is on top. */
    method CheckFree(slabp: SlabHeader) returns (released: bool)
      modifies this`heapTop
      ensures var end := (slabp.base + HEADER + PGSIZE * slabp.pages - HEADER) % UINT_RANGE;
              && released == (old(heapTop) <= end)
              && heapTop == if !released then old(heapTop)
                            else (UINT_RANGE * slabp.pages + old(heapTop) - PGSIZE * slabp.pages) % UINT_RANGE
    {
      if heapTop > (slabp.base + HEADER + PGSIZE * slabp.pages - HEADER) % UINT_RANGE {
        return false;
      }
      heapTop := (UINT_RANGE * slabp.pages + heapTop - PGSIZE * slabp.pages) % UINT_RANGE;
      return true;
    }

    /** The slab goes back to the page allocator, or to the free list, which is empty whenever this is called. */
    method MoveToFree(slabp: SlabHeader, cache: KmemCache)
      requires cache.freeSlabs == null
      modifies this`heapTop, cache`freeSlabs
      ensures var end := (slabp.base + HEADER + PGSIZE * slabp.pages - HEADER) % UINT_RANGE;
              if old(heapTop) <= end then
                && heapTop == (UINT_RANGE * slabp.pages + old(heapTop) - PGSIZE * slabp.pages) % UINT_RANGE
                && cache.freeSlabs == null
              else heapTop == old(heapTop) && cache.freeSlabs == slabp
    {
      var released := CheckFree(slabp);
      if !released {
        cache.freeSlabs := slabp;
      }
    }

    /** FreeObj on slab `i`, an object of which is live at `addr` if it is accepted. */
    method GiveBack(slabp: SlabHeader, addr: nat, ghost i: nat) returns (ok: bool)
      requires Valid() && i < |slabs| && slabp == slabs[i] && addr < UINT_RANGE
      requires Accepting(k.pool.cells[i], addr) ==> IdOf(k.pool.cells[i].slab, addr) in k.pool.cells[i].live
      modifies slabp`active, slabp`refNum, slabp`live, slabp.freeList
      ensures ok <==> Accepting(k.pool.cells[i], addr)
      ensures ok ==> var s := k.pool.cells[i].slab;
                && s.size >= 1 && 1 <= s.active <= |s.freeList| && Tied(GivenBack(k, i, IdOf(s, addr), addr))
      ensures !ok ==> Valid()
    {
      hide CacheOk, PoolInv, HeadsApart, Inv, Accepts;
      assert SlabTied(k, i);
      ghost var c := k.pool.cells[i];
      SlabFacts(k, i);
      hide KmemInv;
      var before;
      ok, before := slabp.FreeObj(addr);
      if ok {
        ghost var k1 := GivenBack(k, i, IdOf(c.slab, addr), addr);
        assert SlabTied(k1, i);
        forall j | 0 <= j < |slabs| && j != i ensures SlabTied(k1, j) {
          assert old(SlabTied(k, j)) && slabs[j] != slabp && slabs[j].freeList != slabp.freeList;
        }
        forall c | 0 <= c < |caches| ensures CacheTied(k1, c) {
          assert old(CacheTied(k, c));
        }
      }
    }

    /** Slab `i` leaves the partial list of cache `c`; empty, it is released or becomes the cache's free slab. */
    method TakeOff(c: nat, slabp: SlabHeader, ghost k1: Kmem, ghost i: nat)
      requires Tied(k1) && PoolInv(k1.pool) && c < |caches| && i < |slabs| && slabp == slabs[i]
      requires k1.caches[c].partial == Some(i) && k1.caches[c].free == None && OnlyHead(k1.caches, c, i)
      modifies this, caches[c], slabp`next, slabp`prev
      ensures Tied(Unlist(k1, c, i)) && k == Unlist(k1, c, i)
      ensures slabs == old(slabs) || slabs == old(slabs[..i])
    {
      hide Inv, PoolInv;
      var cache := caches[c];
      assert CacheTied(k1, c) && SlabTied(k1, i);
      SlabFacts(k1, i);
      UnlistIs(k1, c, i);
      ReleasedOnTop(k1, i);
      hide Release;
      MoveOffPartial(slabp, cache);
      k := Unlist(k1, c, i);
      if slabp.active == 0 {
        MoveToFree(slabp, cache);
        if cache.freeSlabs == null { slabs := slabs[..i]; }
      }
      assert heapTop == k.pool.top;
      forall j | 0 <= j < |slabs| ensures SlabTied(k, j) { assert old(SlabTied(k1, j)); }
      forall d | 0 <= d < |caches| ensures CacheTied(k, d) {
        assert old(CacheTied(k1, d)) && (d != c ==> caches[d] != cache);
      }
    }

    /** _free_obj_kmem_cache: ask the slabs of one cache, the full list being empty. */
    method FreeIn(c: nat, addr: nat) returns (ok: bool)
      requires Valid() && c < |caches| && addr < UINT_RANGE
      requires Finds(k, addr, c) ==> Live(k.pool, addr) && Finder(k, addr) == c
      modifies this, caches[c], slabs, set s | s in slabs :: s.freeList
      ensures Valid() && (ok <==> Finds(old(k), addr, c))
      ensures if ok then Kfree(old(k), addr) == Some(k)
              else k == old(k) && slabs == old(slabs) && heapTop == old(heapTop)
    {
      hide Live, CacheOk, PoolInv, HeadsApart, Kfree, Accepts, Unlist, Finder;
      var cache := caches[c];
      assert CacheTied(k, c) && cache.fullSlabs == null;
      var slabp := cache.partialSlabs;
      while slabp != null
        invariant Valid() && k == old(k) && slabs == old(slabs) && heapTop == old(heapTop)
        invariant if slabp == null then !Finds(k, addr, c) else slabp == cache.partialSlabs
        decreases if slabp == null then 0 else 1
      {
        ghost var i := k.caches[c].partial.value;
        assert CacheTied(k, c) && SlabTied(k, i);
        if Finds(k, addr, c) { FoundIn(k, c, addr); }
        ok := GiveBack(slabp, addr, i);
        if ok {
          TakeOff(c, slabp, GivenBack(old(k), i, IdOf(old(k).pool.cells[i].slab, addr), addr), i);
          return true;
        }
        assert SlabTied(k, i);
        slabp := slabp.next;
      }
      return false;
    }

    /** kfree: ask cache after cache; false is its panic. */
    method Free(addr: nat) returns (ok: bool)
      requires Valid() && addr < UINT_RANGE && (Live(k.pool, addr) || Finder(k, addr) == |k.caches|)
      modifies this, caches, slabs, set s | s in slabs :: s.freeList
      ensures Valid() && Kfree(old(k), addr) == if ok then Some(k) else None
      ensures !ok ==> k == old(k) && slabs == old(slabs) && heapTop == old(heapTop)
    {
      hide KmemInv, Live, Kfree;
      var c := 0;
      while c < |caches|
        invariant c <= |caches| && Valid() && k == old(k) && slabs == old(slabs) && heapTop == old(heapTop)
        invariant Finder(k, addr) == Finder(k, addr, c)
      {
        ok := FreeIn(c, addr);
        if ok {
          return true;
        }
        c := c + 1;
      }
      NotFound(k, addr);
      return false;
    }

    /** GetObj on slab `i`, which is at the head of cache `c`'s partial list. */
    method TakeObject(c: nat, slabp: SlabHeader, ghost k1: Kmem, ghost i: nat) returns (addr: nat)
      requires c < |k1.caches| && Tied(WithHeads(k1, c, Some(i), None))
      requires PoolInv(k1.pool) && i < |slabs| && slabp == slabs[i]
      modifies this`k, slabp`active, slabp`refNum, slabp`live
      ensures !GetOk(k1.pool.cells[i].slab) ==> addr == 0 && k == old(k)
      ensures GetOk(k1.pool.cells[i].slab) ==>
                && Tied(k) && k == TakeFrom(k1, c, i) && addr == Get(k1.pool.cells[i].slab).value.1
    {
      hide PoolInv, Inv;
      ghost var k2 := WithHeads(k1, c, Some(i), None);
      assert SlabTied(k2, i);
      SlabFacts(k1, i);
      addr := slabp.GetObj();
      if GetOk(k1.pool.cells[i].slab) {
        k := TakeFrom(k1, c, i);
        assert SlabTied(k, i);
        forall j | 0 <= j < |slabs| && j != i ensures SlabTied(k, j) {
          assert old(SlabTied(k2, j)) && slabs[j] != slabp;
        }
        forall d | 0 <= d < |caches| ensures CacheTied(k, d) { assert old(CacheTied(k2, d)); }
      }
    }

    /** apply_slab: a new slab for cache `c` on top of the heap. */
    method ApplySlab(c: nat) returns (slabp: SlabHeader)
      requires Valid() && c < |caches| && Room(k, c)
      modifies this`heapTop, this`slabs
      ensures fresh(slabp) && fresh(slabp.freeList) && slabs == old(slabs) + [slabp]
      ensures slabp.base == old(heapTop) && heapTop == slabp.base + PGSIZE * slabp.pages
      ensures slabp.obj == slabp.base + 40 + 2 * slabp.objNum
      ensures Tied(Kmem(PoolStep(k.pool, Create(k.caches[c].size)), k.caches))
    {
      hide PoolInv, PoolStep, CacheSize, SlabPages, CacheOk, HeadsApart, Inv, Room, Fits;
      assert CacheTied(k, c);
      ghost var k1 := Kmem(PoolStep(k.pool, Create(k.caches[c].size)), k.caches);
      NewOnTop(k, c);
      hide KmemInv;
      var cache := caches[c];
      slabp := new SlabHeader(heapTop, Pow2(cache.order), cache.size, cache.objPerSlab);
      slabs := slabs + [slabp];
      heapTop := heapTop + PGSIZE * slabp.pages;
      forall j | 0 <= j < |slabs| ensures SlabTied(k1, j) { assert j < |slabs| - 1 ==> old(SlabTied(k, j)); }
      forall d | 0 <= d < |caches| ensures CacheTied(k1, d) { assert old(CacheTied(k, d)); }
    }

    /**
      init_kmem_cache_alloc.  False when the heap is used up, or the slab at the head of the partial list is full: the
      code then looks for the end of the full list, which has no head, and nothing is promised from there.
     */
    method AllocFrom(c: nat) returns (addr: nat, ok: bool)
      requires Valid() && c < |caches|
      modifies this, caches[c], slabs
      ensures ok <==> Kmalloc(old(k), c).Some?
      ensures ok ==> Valid() && Kmalloc(old(k), c) == Some(k) && addr == Handed(old(k), c)
    {
      hide HeadsApart, PoolInv, CacheOk, PoolStep, TakeFrom;
      ghost var k0 := k;
      WithSlabInv(k, c);
      if Kmalloc(k, c).Some? {
        KmallocExactly(k, c);
        HandedIsNew(k, c);
      }
      hide KmemInv;
      ok := NeedSlab(c);
      if !ok {
        return 0, false;
      }
      ghost var k1, i := WithSlab(k0, c).value.0, WithSlab(k0, c).value.1;
      var slabp := caches[c].partialSlabs;
      assert slabp == slabs[i] && slabp in slabs;
      addr := TakeObject(c, slabp, k1, i);
      ok := addr != 0;
    }

    /** A new slab, listed nowhere yet, becomes the cache's free list. */
    method PutSpare(c: nat, slabp: SlabHeader, ghost k1: Kmem)
      requires c < |k1.caches| && Tied(k1) && Head(k1.caches[c]) == None && slabs != [] && slabp == slabs[|slabs| - 1]
      modifies caches[c]
      ensures Tied(WithHeads(k1, c, None, Some(|slabs| - 1)))
    {
      ghost var k2 := WithHeads(k1, c, None, Some(|slabs| - 1));
      var cache := caches[c];
      assert CacheTied(k1, c);
      cache.freeSlabs := slabp;
      forall j | 0 <= j < |slabs| ensures SlabTied(k2, j) { assert old(SlabTied(k1, j)); }
      forall d | 0 <= d < |caches| ensures CacheTied(k2, d) {
        assert old(CacheTied(k1, d)) && (d != c ==> caches[d] != cache);
      }
    }

    /** A new slab from the top of the heap goes to the partial list by way of the free list. */
    method NewSpare(c: nat)
      requires Valid() && c < |caches| && Room(k, c) && Head(k.caches[c]) == None
      modifies this`heapTop, this`slabs, caches[c], slabs
      ensures |slabs| == |old(slabs)| + 1 && slabs[..|old(slabs)|] == old(slabs)
      ensures var i := |slabs| - 1; fresh(slabs[i]) && caches[c].partialSlabs == slabs[i]
      ensures c < |k.caches|
      ensures var k1 := Kmem(PoolStep(k.pool, Create(k.caches[c].size)), k.caches);
              Tied(WithHeads(k1, c, Some(|slabs| - 1), None))
    {
      hide KmemInv, PoolStep, Room;
      ghost var k1 := Kmem(PoolStep(k.pool, Create(k.caches[c].size)), k.caches);
      var slabp := ApplySlab(c);
      PutSpare(c, slabp, k1);
      SpareToPartial(c, k1, |slabs| - 1);
    }

    /** The only slab of the free list becomes the only one of the partial list. */
    method SpareToPartial(c: nat, ghost k1: Kmem, ghost i: nat)
      requires c < |k1.caches| && Tied(WithHeads(k1, c, None, Some(i)))
      modifies caches[c], slabs
      ensures Tied(WithHeads(k1, c, Some(i), None)) && i < |slabs| && caches[c].partialSlabs == slabs[i]
    {
      ghost var k2, k3 := WithHeads(k1, c, None, Some(i)), WithHeads(k1, c, Some(i), None);
      var cache := caches[c];
      assert CacheTied(k2, c) && SlabTied(k2, i);
      cache.partialSlabs := cache.freeSlabs;
      cache.partialSlabs.refNum := (cache.partialSlabs.refNum + 1) % UINT_RANGE;
      cache.freeSlabs := null;
      forall j | 0 <= j < |slabs| ensures SlabTied(k3, j) { assert old(SlabTied(k2, j)); }
      forall d | 0 <= d < |caches| ensures CacheTied(k3, d) {
        assert old(CacheTied(k2, d)) && (d != c ==> caches[d] != cache);
      }
    }

    /** A slab at the head of the partial list: the one there, else the spare one, else a new one. */
    method NeedSlab(c: nat) returns (ok: bool)
      requires Valid() && c < |caches|
      modifies this, caches[c], slabs
      ensures k == old(k) && (ok <==> WithSlab(old(k), c).Some?)
      ensures forall s | s in slabs :: s in old(slabs) || fresh(s)
      ensures ok ==>
                var (k1, i) := WithSlab(old(k), c).value;
                && c < |k1.caches| && i < |slabs| && caches[c].partialSlabs == slabs[i]
                && Tied(WithHeads(k1, c, Some(i), None))
    {
      var cache := caches[c];
      ghost var k0 := k;
      assert CacheTied(k, c) && CacheOk(k, c);
      hide KmemInv, PoolStep, CacheOk, PoolInv, HeadsApart, CacheSize;
      if cache.partialSlabs == null {
        if cache.freeSlabs == null {
          if heapTop + PGSIZE * Pow2(cache.order) >= UINT_RANGE {
            return false;
          }
          NewSpare(c);
        } else {
          ghost var i := k.caches[c].free.value;
          assert WithHeads(k, c, None, Some(i)) == k;
          SpareToPartial(c, k, i);
        }
      } else {
        assert WithHeads(k, c, k.caches[c].partial, None) == k;
      }
      return true;
    }
  }
}
