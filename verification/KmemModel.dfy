/**
  kmalloc and kfree over the caches' lists of slabs, on values.  As the code is written a slab is put on a partial
  list only when that list is empty, a full slab stays at its head, and a freed object's slab is taken off whatever
  it still holds; so a list holds one slab at most.  `Kmem.dfy` proves that of the list pointers.
 */
module KmemModel {
  import opened Common
  import opened SlabModel
  import opened HeapModel

  /** A cache's object size and the slabs, by number, at the head of its partial and its free list. */
  datatype Cache = Cache(size: nat, partial: Option<nat>, free: Option<nat>)

  /** The list `full_slabs` is left out: it never gets a head. */
  datatype Kmem = Kmem(pool: Pool, caches: seq<Cache>)

  predicate Listed(k: Kmem, i: nat) {
    exists c :: 0 <= c < |k.caches| && k.caches[c].partial == Some(i)
  }

  predicate Spare(k: Kmem, i: nat) {
    exists c :: 0 <= c < |k.caches| && k.caches[c].free == Some(i)
  }

  // ---------- the operations ----------

  /** Take an object out of slab `i`, which becomes the head of cache `c`'s partial list. */
  ghost function TakeFrom(k: Kmem, c: nat, i: nat): Kmem
    requires c < |k.caches| && i < |k.pool.cells|
  {
    Kmem(PoolStep(k.pool, GetFrom(i)), k.caches[c := Cache(k.caches[c].size, Some(i), None)])
  }

  /** There is room for another slab of the cache below 4 GB. */
  predicate Room(k: Kmem, c: nat)
    requires c < |k.caches|
  {
    k.pool.top + PGSIZE * SlabPages(k.caches[c].size) < UINT_RANGE
  }

  /** The slab the next object of cache `c` comes from: the one listed, the spare one, or a new one on top. */
  ghost function WithSlab(k: Kmem, c: nat): Option<(Kmem, nat)>
    requires c < |k.caches|
  {
    var cache, n := k.caches[c], |k.pool.cells|;
    if cache.partial.Some? then Some((k, cache.partial.value))
    else if cache.free.Some? then Some((k, cache.free.value))
    else if Room(k, c) then Some((Kmem(PoolStep(k.pool, Create(cache.size)), k.caches), n))
    else None
  }

  /**
    init_kmem_cache_alloc.  None when the heap is used up, or the slab at the head of the partial list is full: the
    code then walks the full list, which has no head, through a null pointer.
   */
  ghost function Kmalloc(k: Kmem, c: nat): Option<Kmem>
    requires c < |k.caches|
  {
    match WithSlab(k, c)
    case None => None
    case Some((k1, i)) =>
      if i < |k1.pool.cells| && GetOk(k1.pool.cells[i].slab) then Some(TakeFrom(k1, c, i)) else None
  }

  /** The first cache, from number `c` on, the slab on whose partial list accepts the address. */
  function Finder(k: Kmem, addr: nat, c: nat := 0): (r: nat)
    requires c <= |k.caches|
    ensures c <= r <= |k.caches|
    decreases |k.caches| - c
  {
    if c == |k.caches| || Finds(k, addr, c) then c else Finder(k, addr, c + 1)
  }

  predicate Finds(k: Kmem, addr: nat, c: nat)
    requires c < |k.caches|
  {
    match k.caches[c].partial
    case None => false
    case Some(i) => i < |k.pool.cells| && Accepting(k.pool.cells[i], addr)
  }

  /** Slab `i` leaves the partial list of cache `c`; without live objects it is released, or becomes the spare. */
  function Unlist(k: Kmem, c: nat, i: nat): Kmem
    requires c < |k.caches| && i < |k.pool.cells|
  {
    var cache, h := k.caches[c], Geometry(k.pool);
    if k.pool.cells[i].slab.active != 0 then
      k.(caches := k.caches[c := cache.(partial := None)])
    else if Release(h, i) != h then
      Kmem(Pool(Release(h, i).top, k.pool.cells[..i] + k.pool.cells[i + 1..]),
           k.caches[c := cache.(partial := None)])
    else
      k.(caches := k.caches[c := cache.(partial := None, free := Some(i))])
  }

  /** kfree; None is its panic. */
  ghost function Kfree(k: Kmem, addr: nat): Option<Kmem> {
    var c := Finder(k, addr);
    if c == |k.caches| || !Finds(k, addr, c) then None
    else
      var i := k.caches[c].partial.value;
      var cell := k.pool.cells[i];
      if !(1 <= cell.slab.active <= |cell.slab.freeList|) then None
      else
        var cell' := Cell(cell.place, Put(cell.slab, addr), cell.live - {IdOf(cell.slab, addr)});
        Some(Unlist(k.(pool := k.pool.(cells := k.pool.cells[i := cell'])), c, i))
  }

  // ---------- invariant ----------

  ghost predicate CacheOk(k: Kmem, c: nat)
    requires c < |k.caches|
  {
    var cache, cells := k.caches[c], k.pool.cells;
    && CacheSize(cache.size) && !(cache.partial.Some? && cache.free.Some?)
    && (cache.partial.Some? ==>
          var i := cache.partial.value; i < |cells| && cells[i].place.size == cache.size && cells[i].live != {})
    && (cache.free.Some? ==>
          var i := cache.free.value; i < |cells| && cells[i].place.size == cache.size && cells[i].live == {})
  }

  /** The slab a cache lists, on one list or the other. */
  function Head(cache: Cache): Option<nat> {
    if cache.partial.Some? then cache.partial else cache.free
  }

  ghost predicate HeadsApart(caches: seq<Cache>) {
    forall c, d :: 0 <= c < d < |caches| && Head(caches[c]).Some? ==> Head(caches[c]) != Head(caches[d])
  }

  ghost predicate KmemInv(k: Kmem) {
    && PoolInv(k.pool) && (forall c :: 0 <= c < |k.caches| ==> CacheOk(k, c)) && HeadsApart(k.caches)
  }

  // ---------- finding ----------

  lemma {:induction false} FinderFirst(k: Kmem, addr: nat, c: nat, d: nat)
    requires d <= c < |k.caches| && Finds(k, addr, c)
    requires forall e :: d <= e < c ==> !Finds(k, addr, e)
    ensures Finder(k, addr, d) == c
    decreases c - d
  {
    if d < c { FinderFirst(k, addr, c, d + 1); }
  }

  lemma {:induction false} FinderStops(k: Kmem, addr: nat, d: nat)
    requires d <= |k.caches|
    ensures Finder(k, addr, d) < |k.caches| ==> Finds(k, addr, Finder(k, addr, d))
    decreases |k.caches| - d
  {
    if d < |k.caches| { FinderStops(k, addr, d + 1); }
  }

  /** A live object is found through its own slab and through no other, so only if that slab is listed. */
  lemma FindsListed(k: Kmem, i: nat, x: nat, addr: nat)
    requires KmemInv(k) && i < |k.pool.cells| && x in k.pool.cells[i].live && Covers(k.pool.cells[i], x, addr)
    ensures forall c :: 0 <= c < |k.caches| ==> (Finds(k, addr, c) <==> k.caches[c].partial == Some(i))
    ensures Listed(k, i) <==> Finder(k, addr) < |k.caches|
    ensures Listed(k, i) ==> k.caches[Finder(k, addr)].partial == Some(i)
  {
    OwnerFound(k.pool, i, x, addr);
    forall c | 0 <= c < |k.caches| ensures Finds(k, addr, c) <==> k.caches[c].partial == Some(i) {
      assert CacheOk(k, c);
    }
    FinderStops(k, addr, 0);
    if Listed(k, i) {
      var c :| 0 <= c < |k.caches| && k.caches[c].partial == Some(i);
      forall e | 0 <= e < c ensures !Finds(k, addr, e) {
        assert Head(k.caches[e]).Some? ==> Head(k.caches[e]) != Head(k.caches[c]);
      }
      FinderFirst(k, addr, c, 0);
    }
  }

  // ---------- freeing ----------

  lemma NoneLive(c: Cell)
    requires CellOk(c)
    ensures c.slab.active == 0 <==> c.live == {}
  {
  }

  /** The other caches' slabs stay where they are. */
  lemma OthersOk(k: Kmem, k': Kmem, c: nat, i: nat, d: nat)
    requires c < |k.caches| && d < |k.caches| && d != c && HeadsApart(k.caches) && CacheOk(k, d)
    requires Head(k.caches[c]) == Some(i) && |k'.caches| == |k.caches| && k'.caches[d] == k.caches[d]
    requires |k'.pool.cells| >= |k.pool.cells| - (if i == |k.pool.cells| - 1 then 1 else 0)
    requires forall j :: 0 <= j < |k.pool.cells| && j != i ==>
               j < |k'.pool.cells| && k'.pool.cells[j] == k.pool.cells[j]
    ensures CacheOk(k', d)
  {
    assert Head(k.caches[d]).Some? ==> Head(k.caches[d]) != Head(k.caches[c]);
  }

  lemma FewerHeads(caches: seq<Cache>, c: nat, cache: Cache)
    requires c < |caches| && HeadsApart(caches) && (Head(cache) == None || Head(cache) == Head(caches[c]))
    ensures HeadsApart(caches[c := cache])
  {
  }

  /** What taking slab `i` off its list leaves, field by field. */
  lemma UnlistIs(k: Kmem, c: nat, i: nat)
    requires PoolInv(k.pool) && c < |k.caches| && i < |k.pool.cells|
    ensures var k', gone := Unlist(k, c, i), k.pool.cells[i].live == {} && i == |k.pool.cells| - 1;
            var spare := if k.pool.cells[i].live == {} && !gone then Some(i) else k.caches[c].free;
            && PoolInv(k'.pool)
            && k'.pool.cells == (if gone then k.pool.cells[..i] else k.pool.cells)
            && k'.caches == k.caches[c := Cache(k.caches[c].size, None, spare)]
  {
    var p := k.pool;
    assert CellOk(p.cells[i]);
    NoneLive(p.cells[i]);
    ReleaseTiled(Geometry(p), i);
    ReleaseInv(p, i);
    hide CellOk, Tiled, Release, Places;
    assert i == |p.cells| - 1 ==> p.cells[..i] + p.cells[i + 1..] == p.cells[..i];
  }

  /** A slab, off the partial list, is released if it is on top and empty, kept as the spare if empty, else lost. */
  lemma UnlistInv(k: Kmem, c: nat, i: nat)
    requires PoolInv(k.pool) && HeadsApart(k.caches) && c < |k.caches| && i < |k.pool.cells|
    requires k.caches[c].partial == Some(i) && k.caches[c].free == None && CacheSize(k.caches[c].size)
    requires k.pool.cells[i].place.size == k.caches[c].size
    requires forall d :: 0 <= d < |k.caches| && d != c ==> CacheOk(k, d)
    ensures KmemInv(Unlist(k, c, i))
  {
    var k' := Unlist(k, c, i);
    UnlistIs(k, c, i);
    hide CacheOk, Unlist, PoolInv;
    FewerHeads(k.caches, c, k'.caches[c]);
    forall d | 0 <= d < |k'.caches| ensures CacheOk(k', d) {
      if d != c {
        OthersOk(k, k', c, i, d);
      } else {
        EmptiedOk(k', c);
      }
    }
  }

  lemma EmptiedOk(k: Kmem, c: nat)
    requires c < |k.caches| && k.caches[c].partial == None && CacheSize(k.caches[c].size)
    requires k.caches[c].free.Some? ==>
               var i := k.caches[c].free.value;
               i < |k.pool.cells| && k.pool.cells[i].place.size == k.caches[c].size && k.pool.cells[i].live == {}
    ensures CacheOk(k, c)
  {
  }

  /** The state a successful kfree takes its slab off the list in: the object given back. */
  ghost function GivenBack(k: Kmem, i: nat, x: nat, addr: nat): Kmem
    requires i < |k.pool.cells|
    requires var s := k.pool.cells[i].slab; s.size >= 1 && 1 <= s.active <= |s.freeList|
  {
    var cell := k.pool.cells[i];
    k.(pool := k.pool.(cells := k.pool.cells[i := Cell(cell.place, Put(cell.slab, addr), cell.live - {x})]))
  }

  lemma GivenBackInv(k: Kmem, i: nat, x: nat, addr: nat)
    requires KmemInv(k) && i < |k.pool.cells| && x in k.pool.cells[i].live && Covers(k.pool.cells[i], x, addr)
    ensures var s := k.pool.cells[i].slab; s.size >= 1 && 1 <= s.active <= |s.freeList|
    ensures PoolInv(GivenBack(k, i, x, addr).pool) && IdOf(k.pool.cells[i].slab, addr) == x
  {
    OwnerFound(k.pool, i, x, addr);
    CellRange(k.pool, i);
    PutCellOk(k.pool.cells[i], addr);
    hide CacheOk, HeadsApart;
    ReplaceInv(k.pool, i, GivenBack(k, i, x, addr).pool.cells[i]);
  }

  /**
    kfree of any address inside a live object succeeds exactly when the object's slab is listed.  It then frees that
    object and no other, and takes the slab off the partial list: for good if other objects in it are live.
   */
  lemma KfreeExactly(k: Kmem, i: nat, x: nat, addr: nat)
    requires KmemInv(k) && i < |k.pool.cells| && x in k.pool.cells[i].live && Covers(k.pool.cells[i], x, addr)
    ensures Kfree(k, addr).Some? <==> Listed(k, i)
    ensures Kfree(k, addr).Some? ==>
              var k', cell := Kfree(k, addr).value, k.pool.cells[i];
              var cell' := Cell(cell.place, Put(cell.slab, addr), cell.live - {x});
              && KmemInv(k') && !Listed(k', i) && (Spare(k', i) <==> cell'.live == {} && i < |k.pool.cells| - 1)
              && k'.pool.cells == (if cell'.live == {} && i == |k.pool.cells| - 1 then k.pool.cells[..i]
                                   else k.pool.cells[i := cell'])
  {
    KfreeIs(k, i, x, addr);
    if Listed(k, i) {
      var c, k1 := Finder(k, addr), GivenBack(k, i, x, addr);
      hide Put, Covers, Listed, Spare, Unlist, Kfree, Finder, CacheOk, HeadsApart, PoolInv;
      AfterUnlist(k, k1, c, i);
      UnlistIs(k1, c, i);
    }
  }

  /** kfree leaves every other slab on the list it is on, or off any. */
  lemma KfreeLists(k: Kmem, i: nat, x: nat, addr: nat, j: nat)
    requires KmemInv(k) && i < |k.pool.cells| && x in k.pool.cells[i].live && Covers(k.pool.cells[i], x, addr)
    requires Kfree(k, addr).Some? && j != i
    ensures Listed(Kfree(k, addr).value, j) <==> Listed(k, j)
    ensures Spare(Kfree(k, addr).value, j) <==> Spare(k, j)
  {
    hide Put, Covers, Listed, Spare, Unlist, Kfree, Finder, PoolInv, CacheOk, HeadsApart;
    KfreeIs(k, i, x, addr);
    var c, k1 := Finder(k, addr), GivenBack(k, i, x, addr);
    UnlistIs(k1, c, i);
    OneHead(k);
    hide KmemInv;
    OthersStay(k, Unlist(k1, c, i), c, i, j);
  }

  lemma OthersStay(k: Kmem, k': Kmem, c: nat, i: nat, j: nat)
    requires c < |k.caches| == |k'.caches| && k.caches[c].partial == Some(i) && k.caches[c].free == None && j != i
    requires k'.caches[c].partial == None && k'.caches[c].free in {None, Some(i)}
    requires forall d :: 0 <= d < |k.caches| && d != c ==> k'.caches[d] == k.caches[d]
    ensures (Listed(k', j) <==> Listed(k, j)) && (Spare(k', j) <==> Spare(k, j))
  {
    if Listed(k, j) {
      var d :| 0 <= d < |k.caches| && k.caches[d].partial == Some(j);
      assert k'.caches[d].partial == Some(j);
    }
    if Spare(k, j) {
      var d :| 0 <= d < |k.caches| && k.caches[d].free == Some(j);
      assert k'.caches[d].free == Some(j);
    }
  }

  lemma KfreeIs(k: Kmem, i: nat, x: nat, addr: nat)
    requires KmemInv(k) && i < |k.pool.cells| && x in k.pool.cells[i].live && Covers(k.pool.cells[i], x, addr)
    ensures var s, c := k.pool.cells[i].slab, Finder(k, addr);
            && s.size >= 1 && 1 <= s.active <= |s.freeList| && PoolInv(GivenBack(k, i, x, addr).pool)
            && (Listed(k, i) <==> c < |k.caches|)
            && (Listed(k, i) ==> k.caches[c].partial == Some(i))
            && Kfree(k, addr) == if Listed(k, i) then Some(Unlist(GivenBack(k, i, x, addr), c, i)) else None
  {
    FindsListed(k, i, x, addr);
    GivenBackInv(k, i, x, addr);
    hide Put, Covers, IdOf, Accepting, Unlist, PoolInv, CacheOk, HeadsApart;
    assert Finder(k, addr) < |k.caches| ==> Finds(k, addr, Finder(k, addr));
  }

  lemma OneHead(k: Kmem)
    requires KmemInv(k)
    ensures forall d :: 0 <= d < |k.caches| ==> k.caches[d].partial == None || k.caches[d].free == None
  {
    forall d | 0 <= d < |k.caches| ensures k.caches[d].partial == None || k.caches[d].free == None {
      assert CacheOk(k, d);
    }
  }

  lemma AfterUnlist(k: Kmem, k1: Kmem, c: nat, i: nat)
    requires KmemInv(k) && c < |k.caches| && k.caches[c].partial == Some(i) && k1.caches == k.caches
    requires PoolInv(k1.pool)
    requires i < |k.pool.cells| == |k1.pool.cells| && k1.pool.cells[i].place == k.pool.cells[i].place
    requires forall j :: 0 <= j < |k.pool.cells| && j != i ==> k1.pool.cells[j] == k.pool.cells[j]
    ensures var k' := Unlist(k1, c, i);
            && KmemInv(k') && !Listed(k', i)
            && (Spare(k', i) <==> k1.pool.cells[i].live == {} && i < |k.pool.cells| - 1)
  {
    GivenBackOk(k, k1, c, i);
    OneHead(k);
    hide Unlist, PoolInv, CacheOk, HeadsApart, Listed, Spare;
    UnlistInv(k1, c, i);
    UnlistIs(k1, c, i);
    HeadsElsewhere(k, Unlist(k1, c, i), c, i);
  }

  lemma GivenBackOk(k: Kmem, k1: Kmem, c: nat, i: nat)
    requires KmemInv(k) && c < |k.caches| && k.caches[c].partial == Some(i) && k1.caches == k.caches
    requires i < |k.pool.cells| == |k1.pool.cells| && k1.pool.cells[i].place == k.pool.cells[i].place
    requires forall j :: 0 <= j < |k.pool.cells| && j != i ==> k1.pool.cells[j] == k.pool.cells[j]
    ensures HeadsApart(k1.caches) && CacheSize(k1.caches[c].size) && k1.caches[c].free == None
    ensures k1.pool.cells[i].place.size == k1.caches[c].size
    ensures forall d :: 0 <= d < |k.caches| && d != c ==> CacheOk(k1, d)
  {
    assert CacheOk(k, c);
    forall d | 0 <= d < |k.caches| && d != c ensures CacheOk(k1, d) {
      OthersOk(k, k1, c, i, d);
    }
  }

  /** No cache but `c` listed slab `i`. */
  lemma HeadsElsewhere(k: Kmem, k': Kmem, c: nat, i: nat)
    requires HeadsApart(k.caches) && c < |k.caches| == |k'.caches| && k.caches[c].partial == Some(i)
    requires k'.caches[c].partial == None
    requires forall d :: 0 <= d < |k.caches| && d != c ==> k'.caches[d] == k.caches[d]
    requires forall d :: 0 <= d < |k.caches| ==> k.caches[d].partial == None || k.caches[d].free == None
    ensures !Listed(k', i) && (Spare(k', i) <==> k'.caches[c].free == Some(i))
  {
    forall d | 0 <= d < |k.caches| && d != c ensures Head(k.caches[d]) != Some(i) {
      assert Head(k.caches[c]) == Some(i);
    }
  }

  // ---------- allocating ----------

  /** A slab's object list after handing out its next object. */
  ghost function HandedOut(c: Cell): Cell
    requires GetOk(c.slab)
  {
    Cell(c.place, Get(c.slab).value.0, c.live + {c.slab.freeList[c.slab.active]})
  }

  lemma GetOkExactly(c: Cell)
    requires CellOk(c)
    ensures |c.live| <= c.slab.objNum && c.slab.objNum >= 1 && (GetOk(c.slab) <==> |c.live| < c.slab.objNum)
    ensures GetOk(c.slab) ==>
              HandedOut(c).live != {} && c.slab.freeList[c.slab.active] !in c.live && CellOk(HandedOut(c))
  {
    GetInv(c.slab, c.live);
    if GetOk(c.slab) {
      GetCellOk(c);
      assert c.slab.freeList[c.slab.active] in HandedOut(c).live;
    }
  }

  lemma TakeFromInv(k: Kmem, c: nat, i: nat)
    requires PoolInv(k.pool) && HeadsApart(k.caches) && c < |k.caches| && i < |k.pool.cells|
    requires CacheSize(k.caches[c].size) && k.pool.cells[i].place.size == k.caches[c].size
    requires forall d :: 0 <= d < |k.caches| && d != c ==> CacheOk(k, d) && Head(k.caches[d]) != Some(i)
    requires GetOk(k.pool.cells[i].slab)
    ensures KmemInv(TakeFrom(k, c, i))
    ensures TakeFrom(k, c, i).pool == k.pool.(cells := k.pool.cells[i := HandedOut(k.pool.cells[i])])
  {
    var k' := TakeFrom(k, c, i);
    PoolStepInv(k.pool, GetFrom(i));
    assert CellOk(k.pool.cells[i]);
    GetOkExactly(k.pool.cells[i]);
    hide PoolInv, CellOk, GetOk, CacheSize;
    assert HeadsApart(k'.caches);
    forall d | 0 <= d < |k.caches| ensures CacheOk(k', d) {
      if d != c { CacheStays(k, k', d, i); }
    }
  }

  lemma CacheStays(k: Kmem, k': Kmem, d: nat, i: nat)
    requires d < |k.caches| == |k'.caches| && k'.caches[d] == k.caches[d] && CacheOk(k, d)
    requires Head(k.caches[d]) != Some(i) && |k'.pool.cells| >= |k.pool.cells|
    requires forall j :: 0 <= j < |k.pool.cells| && j != i ==> k'.pool.cells[j] == k.pool.cells[j]
    ensures CacheOk(k', d)
  {
  }

  /** A new slab of the cache, nothing live in it. */
  ghost function Fresh(k: Kmem, c: nat): Cell
    requires c < |k.caches| && CacheSize(k.caches[c].size)
  {
    var size := k.caches[c].size;
    SlabPagesExact(size);
    var place := Place(k.pool.top, SlabPages(size), size);
    Cell(place, place.Content(), {})
  }

  /** A cache's new slab holds at least one object. */
  lemma FreshIs(k: Kmem, c: nat)
    requires PoolInv(k.pool) && c < |k.caches| && CacheSize(k.caches[c].size) && Room(k, c)
    ensures var p := PoolStep(k.pool, Create(k.caches[c].size));
            p.cells == k.pool.cells + [Fresh(k, c)] && PoolInv(p)
    ensures Fresh(k, c).slab.objNum >= 1
  {
    SlabPagesExact(k.caches[c].size);
    CreateInv(k.pool, k.caches[c].size);
    ContentInside(Fresh(k, c).place);
    hide PoolInv;
  }

  /** Whichever slab it is, nothing else lists it. */
  lemma WithSlabInv(k: Kmem, c: nat)
    requires KmemInv(k) && c < |k.caches|
    ensures CacheSize(k.caches[c].size)
    ensures WithSlab(k, c) == None <==> Head(k.caches[c]) == None && !Room(k, c)
    ensures WithSlab(k, c).Some? ==>
              var (k1, i) := WithSlab(k, c).value;
              && PoolInv(k1.pool) && k1.caches == k.caches && i < |k1.pool.cells|
              && k1.pool.cells[i].place.size == k.caches[c].size
              && (forall d :: 0 <= d < |k.caches| && d != c ==> CacheOk(k1, d) && Head(k.caches[d]) != Some(i))
              && if Head(k.caches[c]).Some? then k1 == k && Some(i) == Head(k.caches[c])
                 else i == |k.pool.cells| && k1.pool.cells == k.pool.cells + [Fresh(k, c)]
  {
    assert CacheOk(k, c);
    if Head(k.caches[c]).Some? {
      forall d | 0 <= d < |k.caches| && d != c ensures CacheOk(k, d) && Head(k.caches[d]) != Head(k.caches[c]) {
      }
    } else if Room(k, c) {
      FreshIs(k, c);
      hide PoolInv, PoolStep;
      forall d | 0 <= d < |k.caches| && d != c
        ensures CacheOk(WithSlab(k, c).value.0, d) && Head(k.caches[d]) != Some(|k.pool.cells|)
      {
        assert CacheOk(k, d);
      }
    }
  }

  /** All objects of the slab on the cache's partial list are live. */
  ghost predicate FullHead(k: Kmem, c: nat)
    requires c < |k.caches|
  {
    && k.caches[c].partial.Some? && k.caches[c].partial.value < |k.pool.cells|
    && var cell := k.pool.cells[k.caches[c].partial.value]; |cell.live| == cell.slab.objNum
  }

  /**
    kmalloc fails exactly when the listed slab is full, or none is listed and the heap is used up.  Otherwise it hands
    out an object that was not live, of the slab listed or of a new one on top, and that slab is listed.
   */
  lemma KmallocExactly(k: Kmem, c: nat)
    requires KmemInv(k) && c < |k.caches|
    ensures CacheSize(k.caches[c].size)
    ensures Kmalloc(k, c) == None <==>
              if Head(k.caches[c]) == None then !Room(k, c) else FullHead(k, c)
    ensures Kmalloc(k, c).Some? ==>
              var k', n := Kmalloc(k, c).value, |k.pool.cells|;
              var i := if Head(k.caches[c]).Some? then Head(k.caches[c]).value else n;
              var cell := if i < n then k.pool.cells[i] else Fresh(k, c);
              && KmemInv(k') && i <= n && GetOk(cell.slab) && cell.slab.freeList[cell.slab.active] !in cell.live
              && k'.pool.cells == (if i < n then k.pool.cells[i := HandedOut(cell)]
                                   else k.pool.cells + [HandedOut(cell)])
              && k'.caches == k.caches[c := Cache(k.caches[c].size, Some(i), None)]
  {
    KmallocIs(k, c);
    hide CacheOk, PoolInv, CacheSize, HeadsApart, WithSlab, Room, Kmalloc, GetOk;
    if Kmalloc(k, c).Some? {
      var (k1, i) := WithSlab(k, c).value;
      TakeFromInv(k1, c, i);
    }
  }

  lemma KmallocIs(k: Kmem, c: nat)
    requires KmemInv(k) && c < |k.caches|
    ensures CacheSize(k.caches[c].size)
    ensures Kmalloc(k, c) == None <==> if Head(k.caches[c]) == None then !Room(k, c) else FullHead(k, c)
    ensures Kmalloc(k, c).Some? ==>
              && WithSlab(k, c).Some?
              && var (k1, i) := WithSlab(k, c).value;
              && PoolInv(k1.pool) && k1.caches == k.caches && i < |k1.pool.cells|
              && k1.pool.cells[i].place.size == k.caches[c].size
              && GetOk(k1.pool.cells[i].slab)
              && k1.pool.cells[i].slab.freeList[k1.pool.cells[i].slab.active] !in k1.pool.cells[i].live
              && (forall d :: 0 <= d < |k.caches| && d != c ==> CacheOk(k1, d) && Head(k.caches[d]) != Some(i))
              && HeadsApart(k.caches) && Kmalloc(k, c).value == TakeFrom(k1, c, i)
              && if Head(k.caches[c]).Some? then k1 == k && Some(i) == Head(k.caches[c])
                 else i == |k.pool.cells| && k1.pool.cells == k.pool.cells + [Fresh(k, c)]
  {
    WithSlabInv(k, c);
    if WithSlab(k, c).Some? {
      var (k1, i) := WithSlab(k, c).value;
      assert CellOk(k1.pool.cells[i]);
      assert CacheOk(k, c);
      hide CellOk, PoolInv, GetOk, CacheSize, HeadsApart, TakeFrom, CacheOk;
      GetOkExactly(k1.pool.cells[i]);
    }
  }

  /** The address a successful kmalloc returns. */
  ghost function Handed(k: Kmem, c: nat): nat
    requires c < |k.caches| && Kmalloc(k, c).Some?
  {
    var (k1, i) := WithSlab(k, c).value;
    Get(k1.pool.cells[i].slab).value.1
  }

  /** Objects live before are live where they were. */
  ghost predicate Grown(k: Kmem, k': Kmem) {
    && |k.pool.cells| <= |k'.pool.cells|
    && forall j :: 0 <= j < |k.pool.cells| ==>
         && k.pool.cells[j].live <= k'.pool.cells[j].live
         && k.pool.cells[j].slab.obj == k'.pool.cells[j].slab.obj
         && k.pool.cells[j].slab.size == k'.pool.cells[j].slab.size
  }

  /** The slab an object is taken from, before and after. */
  lemma TakenIs(k: Kmem, c: nat)
    requires KmemInv(k) && c < |k.caches| && Kmalloc(k, c).Some?
    ensures WithSlab(k, c).Some?
    ensures var (k1, i) := WithSlab(k, c).value;
            var k', cell := Kmalloc(k, c).value, k1.pool.cells[i];
            && KmemInv(k') && i < |k1.pool.cells| && GetOk(cell.slab)
            && cell.slab.freeList[cell.slab.active] !in cell.live
            && |k.pool.cells| <= |k1.pool.cells| && k1.pool.cells[..|k.pool.cells|] == k.pool.cells
            && k'.pool.cells == k1.pool.cells[i := HandedOut(cell)]
            && k'.caches == k.caches[c := Cache(k.caches[c].size, Some(i), None)]
  {
    KmallocIs(k, c);
    KmallocExactly(k, c);
    var (k1, i) := WithSlab(k, c).value;
    hide KmemInv, WithSlab, Kmalloc, CacheOk, CacheSize, Room, FullHead, Fresh, PoolInv, HeadsApart, HandedOut, GetOk;
    TakeFromInv(k1, c, i);
  }

  lemma HandedIs(k: Kmem, c: nat) returns (i: nat, x: nat)
    requires KmemInv(k) && c < |k.caches| && Kmalloc(k, c).Some?
    ensures var k' := Kmalloc(k, c).value;
            && KmemInv(k') && Grown(k, k') && i < |k'.pool.cells| && x in k'.pool.cells[i].live
            && (i < |k.pool.cells| ==> x !in k.pool.cells[i].live)
            && Handed(k, c) == ObjAt(k'.pool.cells[i].slab, x) && k'.caches[c].partial == Some(i)
            && |k'.caches| == |k.caches| && k'.caches[c].size == k.caches[c].size
  {
    TakenIs(k, c);
    var k1 := WithSlab(k, c).value.0;
    i := WithSlab(k, c).value.1;
    var cell := k1.pool.cells[i];
    x := cell.slab.freeList[cell.slab.active];
    HandedOutIs(cell);
    hide KmemInv, WithSlab, Kmalloc, HandedOut, ObjAt, Grown, GetOk;
    GrownBy(k, k1, Kmalloc(k, c).value, i, HandedOut(cell));
    assert i < |k.pool.cells| ==> k.pool.cells[i] == k1.pool.cells[..|k.pool.cells|][i] == cell;
  }

  lemma GrownBy(k: Kmem, k1: Kmem, k': Kmem, i: nat, c: Cell)
    requires |k.pool.cells| <= |k1.pool.cells| && k1.pool.cells[..|k.pool.cells|] == k.pool.cells
    requires i < |k1.pool.cells| && k'.pool.cells == k1.pool.cells[i := c]
    requires k1.pool.cells[i].live <= c.live
    requires k1.pool.cells[i].slab.obj == c.slab.obj && k1.pool.cells[i].slab.size == c.slab.size
    ensures Grown(k, k')
  {
    forall j | 0 <= j < |k.pool.cells| ensures k1.pool.cells[j] == k.pool.cells[j] {
      assert k1.pool.cells[..|k.pool.cells|][j] == k.pool.cells[j];
    }
  }

  lemma HandedOutIs(c: Cell)
    requires GetOk(c.slab)
    ensures var c', x := HandedOut(c), c.slab.freeList[c.slab.active];
            && c'.live == c.live + {x} && c'.slab.obj == c.slab.obj && c'.slab.size == c.slab.size
            && Get(c.slab).value.1 == ObjAt(c'.slab, x)
  {
  }

  lemma CoversStart(c: Cell, x: nat)
    requires c.slab.size >= 1
    ensures Covers(c, x, ObjAt(c.slab, x))
  {
  }

  lemma CoversSame(c: Cell, c': Cell, x: nat, addr: nat)
    requires c.slab.obj == c'.slab.obj && c.slab.size == c'.slab.size
    ensures Covers(c, x, addr) <==> Covers(c', x, addr)
  {
  }

  /**
    It is the start of an object that was not live before and is live now; the object lies in the heap, clear of every
    slab's header and index table.
   */
  lemma HandedIsNew(k: Kmem, c: nat)
    requires KmemInv(k) && c < |k.caches| && Kmalloc(k, c).Some?
    ensures var k', a := Kmalloc(k, c).value, Handed(k, c);
            && Live(k'.pool, a) && !Live(k.pool, a) && a >= HEAP_START
            && OffTables(k'.pool, a, k.caches[c].size)
  {
    var i, x := HandedIs(k, c);
    var k', addr := Kmalloc(k, c).value, Handed(k, c);
    hide KmemInv, Kmalloc, Handed, Covers, Live;
    InHeapAt(k', i);
    CoversStart(k'.pool.cells[i], x);
    assert Live(k'.pool, addr) by { LiveAt(k'.pool, i, x, addr); }
    if Live(k.pool, addr) {
      var j, y := LiveWhere(k.pool, addr);
      CoversSame(k.pool.cells[j], k'.pool.cells[j], y, addr);
      OneObjectAt(k', i, x, j, y, addr);
    }
    StartsAbove(k'.pool.cells[i].slab, x);
    ListedSize(k', c);
    ClearOfAll(k'.pool, i, x);
  }

  lemma ListedSize(k: Kmem, c: nat)
    requires KmemInv(k) && c < |k.caches| && k.caches[c].partial.Some?
    ensures var i := k.caches[c].partial.value; i < |k.pool.cells| && k.pool.cells[i].slab.size == k.caches[c].size
    ensures PoolInv(k.pool)
  {
    assert CacheOk(k, c);
    assert CellOk(k.pool.cells[k.caches[c].partial.value]);
  }

  lemma StartsAbove(s: Slab, x: nat)
    ensures ObjAt(s, x) >= s.obj
  {
  }

  lemma LiveAt(p: Pool, i: nat, x: nat, addr: nat)
    requires i < |p.cells| && x in p.cells[i].live && Covers(p.cells[i], x, addr)
    ensures Live(p, addr)
  {
  }

  lemma LiveWhere(p: Pool, addr: nat) returns (i: nat, x: nat)
    requires Live(p, addr)
    ensures i < |p.cells| && x in p.cells[i].live && Covers(p.cells[i], x, addr)
  {
    i, x :| 0 <= i < |p.cells| && x in p.cells[i].live && Covers(p.cells[i], x, addr);
  }

  lemma OneObjectAt(k: Kmem, i: nat, x: nat, j: nat, y: nat, addr: nat)
    requires KmemInv(k) && i < |k.pool.cells| && x in k.pool.cells[i].live && Covers(k.pool.cells[i], x, addr)
    requires j < |k.pool.cells| && y in k.pool.cells[j].live && Covers(k.pool.cells[j], y, addr)
    ensures i == j && x == y
  {
    OwnerFound(k.pool, i, x, addr);
    OwnerFound(k.pool, j, y, addr);
  }

  lemma InHeapAt(k: Kmem, i: nat)
    requires KmemInv(k) && i < |k.pool.cells|
    ensures k.pool.cells[i].slab.obj >= HEAP_START && k.pool.cells[i].slab.size >= 1
  {
    assert CellOk(k.pool.cells[i]);
    CellRange(k.pool, i);
  }

  // ---------- runs ----------

  datatype KmemOp = Malloc(c: nat) | FreeAt(addr: nat)

  /** Clients free live objects only, by any address inside them.  None is a panic or a walk through the null head. */
  ghost function KmemStep(k: Kmem, op: KmemOp): Option<Kmem> {
    match op
    case Malloc(c) => if c < |k.caches| then Kmalloc(k, c) else Some(k)
    case FreeAt(addr) => if Live(k.pool, addr) then Kfree(k, addr) else Some(k)
  }

  ghost function KmemRun(k: Kmem, ops: seq<KmemOp>): Option<Kmem>
    decreases |ops|
  {
    if ops == [] then Some(k)
    else match KmemStep(k, ops[0])
      case None => None
      case Some(k') => KmemRun(k', ops[1..])
  }

  /** Slab `i` holds live objects and is on no list. */
  ghost predicate Stranded(k: Kmem, i: nat) {
    i < |k.pool.cells| && k.pool.cells[i].live != {} && !Listed(k, i) && !Spare(k, i)
  }

  /** A stranded slab stays as it is. */
  ghost predicate StaysStranded(k: Kmem, k': Kmem, i: nat) {
    Stranded(k, i) ==> Stranded(k', i) && k'.pool.cells[i] == k.pool.cells[i]
  }

  lemma MallocStep(k: Kmem, c: nat, i: nat)
    requires KmemInv(k) && c < |k.caches| && Kmalloc(k, c).Some?
    ensures KmemInv(Kmalloc(k, c).value) && StaysStranded(k, Kmalloc(k, c).value, i)
  {
    hide Kmalloc, CacheSize, GetOk, Fresh, KmemInv, Listed, Spare, FullHead, HandedOut;
    KmallocExactly(k, c);
    HeadMoves(k, Kmalloc(k, c).value, c,
              if Head(k.caches[c]).Some? then Head(k.caches[c]).value else |k.pool.cells|);
  }

  /** Only slab `j` comes onto a list. */
  lemma HeadMoves(k: Kmem, k': Kmem, c: nat, j: nat)
    requires c < |k.caches| && k'.caches == k.caches[c := Cache(k.caches[c].size, Some(j), None)]
    ensures forall i :: i != j ==> (Listed(k', i) ==> Listed(k, i)) && (Spare(k', i) ==> Spare(k, i))
    ensures Head(k.caches[c]) == Some(j) ==> Listed(k, j) || Spare(k, j)
  {
  }

  lemma FreeStep(k: Kmem, addr: nat, i: nat)
    requires KmemInv(k) && Live(k.pool, addr) && Kfree(k, addr).Some?
    ensures KmemInv(Kfree(k, addr).value) && StaysStranded(k, Kfree(k, addr).value, i)
  {
    hide KmemInv, Kfree, StaysStranded, Covers;
    var j, x :| 0 <= j < |k.pool.cells| && x in k.pool.cells[j].live && Covers(k.pool.cells[j], x, addr);
    FreeOneStep(k, j, x, addr, i);
  }

  lemma FreeOneStep(k: Kmem, j: nat, x: nat, addr: nat, i: nat)
    requires KmemInv(k) && j < |k.pool.cells| && x in k.pool.cells[j].live && Covers(k.pool.cells[j], x, addr)
    requires Kfree(k, addr).Some?
    ensures KmemInv(Kfree(k, addr).value) && StaysStranded(k, Kfree(k, addr).value, i)
  {
    hide Listed, Spare, Kfree, Covers, KmemInv, Put;
    KfreeExactly(k, j, x, addr);
    if i != j { KfreeLists(k, j, x, addr, i); }
  }

  /** Over every run lists and slabs fit together, and a stranded slab stays as it is. */
  lemma {:induction false} KmemRunInv(k: Kmem, ops: seq<KmemOp>, i: nat)
    requires KmemInv(k) && KmemRun(k, ops).Some?
    ensures KmemInv(KmemRun(k, ops).value) && StaysStranded(k, KmemRun(k, ops).value, i)
    decreases |ops|
  {
    hide KmemInv, Kfree, Kmalloc, Stranded, Live;
    if ops != [] {
      var k1 := KmemStep(k, ops[0]).value;
      match ops[0] {
        case Malloc(c) => if c < |k.caches| { MallocStep(k, c, i); }
        case FreeAt(addr) => if Live(k.pool, addr) { FreeStep(k, addr, i); }
      }
      KmemRunInv(k1, ops[1..], i);
    }
  }

  /** Before the first allocation, over any heap, the caches' lists are empty. */
  lemma StartInv(p: Pool, caches: seq<Cache>)
    requires PoolInv(p)
    requires forall c :: 0 <= c < |caches| ==> CacheSize(caches[c].size) && Head(caches[c]) == None
    ensures KmemInv(Kmem(p, caches))
  {
    hide CacheSize, PoolInv;
  }

  /**
    The second free fails: once an object of a slab has been freed while another one is live, no run of calls lists
    the slab again, so kfree of the other one panics whenever it comes.
   */
  lemma FreedOncePerSlab(k: Kmem, i: nat, x: nat, addr: nat, ops: seq<KmemOp>, y: nat, addr2: nat)
    requires KmemInv(k) && i < |k.pool.cells| && x in k.pool.cells[i].live && Covers(k.pool.cells[i], x, addr)
    requires y in k.pool.cells[i].live && y != x && Covers(k.pool.cells[i], y, addr2)
    requires KmemRun(k, [FreeAt(addr)] + ops).Some?
    ensures var k' := KmemRun(k, [FreeAt(addr)] + ops).value;
            && i < |k'.pool.cells| && y in k'.pool.cells[i].live && !Listed(k', i) && Kfree(k', addr2) == None
  {
    assert Live(k.pool, addr);
    assert ([FreeAt(addr)] + ops)[0] == FreeAt(addr) && ([FreeAt(addr)] + ops)[1..] == ops;
    var k1 := Kfree(k, addr).value;
    hide KmemInv, Kfree, Kmalloc, Listed, Spare, Covers;
    FirstFree(k, i, x, addr, y, addr2);
    KmemRunInv(k1, ops, i);
    KfreeExactly(KmemRun(k1, ops).value, i, y, addr2);
  }

  lemma FirstFree(k: Kmem, i: nat, x: nat, addr: nat, y: nat, addr2: nat)
    requires KmemInv(k) && i < |k.pool.cells| && x in k.pool.cells[i].live && Covers(k.pool.cells[i], x, addr)
    requires y in k.pool.cells[i].live && y != x && Covers(k.pool.cells[i], y, addr2)
    requires Kfree(k, addr).Some?
    ensures var k1 := Kfree(k, addr).value;
            && KmemInv(k1) && Stranded(k1, i) && y in k1.pool.cells[i].live && Covers(k1.pool.cells[i], y, addr2)
  {
    hide KmemInv, Kfree, Listed, Spare;
    KfreeExactly(k, i, x, addr);
  }

  lemma {:induction false} KmemRunSplit(k: Kmem, a: seq<KmemOp>, b: seq<KmemOp>)
    requires KmemRun(k, a).Some?
    ensures KmemRun(k, a + b) == KmemRun(KmemRun(k, a).value, b)
    decreases |a|
  {
    hide KmemStep;
    if a == [] {
      assert a + b == b;
    } else {
      assert (a + b)[0] == a[0] && (a + b)[1..] == a[1..] + b;
      KmemRunSplit(KmemStep(k, a[0]).value, a[1..], b);
    }
  }

  function FirstIds(n: nat): (ids: set<nat>)
    ensures forall x: nat :: x in ids <==> x < n
  {
    if n == 0 then {} else FirstIds(n - 1) + {n - 1}
  }

  /** One cache with one slab, at the bottom of the heap, whose first `n` objects are handed out. */
  ghost predicate FirstOut(k: Kmem, s: Slab, n: nat) {
    && KmemInv(k) && |k.pool.cells| == |k.caches| == 1 && k.caches[0].partial == Some(0)
    && k.pool.cells[0].slab == s.(active := n) && k.pool.cells[0].live == FirstIds(n)
  }

  /** The slab of a cache that is the heap's first. */
  function BottomSlab(size: nat): Slab
    requires CacheSize(size)
  {
    SlabPagesExact(size);
    Place(HEAP_START, SlabPages(size), size).Content()
  }

  lemma NextOut(k: Kmem, s: Slab, n: nat)
    requires FirstOut(k, s, n) && n < s.objNum == |s.freeList| && s.freeList[n] == n
    ensures KmemStep(k, Malloc(0)).Some? && FirstOut(KmemStep(k, Malloc(0)).value, s, n + 1)
  {
    hide CacheSize, Kmalloc, HeadsApart, PoolInv, CacheOk;
    KmallocExactly(k, 0);
    assert |k.pool.cells[0].live| == n by { LiveCount(k, 0); }
    assert FirstIds(n + 1) == FirstIds(n) + {n};
  }

  lemma LiveCount(k: Kmem, i: nat)
    requires KmemInv(k) && i < |k.pool.cells|
    ensures |k.pool.cells[i].live| == k.pool.cells[i].slab.active
  {
    assert CellOk(k.pool.cells[i]);
  }

  lemma FirstEverOut(size: nat)
    requires CacheSize(size)
    ensures var k := Kmem(EMPTY, [Cache(size, None, None)]);
            KmemStep(k, Malloc(0)).Some? && FirstOut(KmemStep(k, Malloc(0)).value, BottomSlab(size), 1)
  {
    var k := Kmem(EMPTY, [Cache(size, None, None)]);
    SlabPagesExact(size);
    StartInv(EMPTY, k.caches);
    KmallocExactly(k, 0);
    RoomForOne(size);
    hide CacheSize, Kmalloc, HeadsApart, PoolInv, CacheOk, KmemInv, SlabPages, PagesFor;
    assert FirstIds(1) == {0};
  }

  lemma RoomForOne(size: nat)
    requires CacheSize(size)
    ensures HEAP_START + PGSIZE * SlabPages(size) < UINT_RANGE
  {
    SlabPagesExact(size);
  }

  lemma BottomSlabIs(size: nat)
    requires CacheSize(size)
    ensures var s := BottomSlab(size);
            && s.objNum == ObjPerSlab(PagesFor(size), size) == |s.freeList| && 1 <= s.objNum <= 119
            && s.size == size >= 1 && forall j :: 0 <= j < s.objNum ==> s.freeList[j] == j
  {
    SlabPagesExact(size);
    KmallocSlabs(size);
  }

  /** Three objects of a fresh cache, two of them freed: the second kfree panics. */
  lemma ThreeThenTwo(size: nat)
    requires CacheSize(size) && ObjPerSlab(PagesFor(size), size) >= 3
    ensures var k, s := Kmem(EMPTY, [Cache(size, None, None)]), BottomSlab(size);
            var three := [Malloc(0), Malloc(0), Malloc(0)];
            && KmemRun(k, three).Some? && FirstOut(KmemRun(k, three).value, s, 3)
            && KmemRun(k, three + [FreeAt(ObjAt(s, 0))]).Some?
            && KmemRun(k, three + [FreeAt(ObjAt(s, 0)), FreeAt(ObjAt(s, 1))]) == None
  {
    var k, s, three := Kmem(EMPTY, [Cache(size, None, None)]), BottomSlab(size), [Malloc(0), Malloc(0), Malloc(0)];
    BottomSlabIs(size);
    hide KmemStep, FirstOut, CacheSize, BottomSlab, ObjPerSlab;
    FirstEverOut(size);
    var k1 := KmemStep(k, Malloc(0)).value;
    NextOut(k1, s, 1);
    var k2 := KmemStep(k1, Malloc(0)).value;
    NextOut(k2, s, 2);
    var k3 := KmemStep(k2, Malloc(0)).value;
    assert three[1..] == [Malloc(0), Malloc(0)] && three[1..][1..] == [Malloc(0)] && three[1..][1..][1..] == [];
    assert KmemRun(k, three) == Some(k3);
    TwoFrees(k3, s);
    KmemRunSplit(k, three, [FreeAt(ObjAt(s, 0))]);
    KmemRunSplit(k, three, [FreeAt(ObjAt(s, 0)), FreeAt(ObjAt(s, 1))]);
  }

  lemma TwoFrees(k: Kmem, s: Slab)
    requires FirstOut(k, s, 3) && s.size >= 1
    ensures KmemRun(k, [FreeAt(ObjAt(s, 0))]).Some?
    ensures KmemRun(k, [FreeAt(ObjAt(s, 0)), FreeAt(ObjAt(s, 1))]) == None
  {
    var a, b := ObjAt(s, 0), ObjAt(s, 1);
    assert Covers(k.pool.cells[0], 0, a) && Covers(k.pool.cells[0], 1, b);
    assert Listed(k, 0);
    hide KmemInv, Covers, Listed, ObjAt;
    OneThenOther(k, 0, 0, a, 1, b);
  }

  /** The object at one address is freed, the one at the other cannot be. */
  lemma OneThenOther(k: Kmem, i: nat, x: nat, a: nat, y: nat, b: nat)
    requires KmemInv(k) && i < |k.pool.cells| && x in k.pool.cells[i].live && Covers(k.pool.cells[i], x, a)
    requires y in k.pool.cells[i].live && y != x && Covers(k.pool.cells[i], y, b) && Listed(k, i)
    ensures KmemRun(k, [FreeAt(a)]).Some? && KmemRun(k, [FreeAt(a), FreeAt(b)]) == None
  {
    hide KmemInv, Kfree, Covers, Listed, Spare, KmemStep;
    FreeLive(k, i, x, a);
    FirstFree(k, i, x, a, y, b);
    var k1 := Kfree(k, a).value;
    FreeLive(k1, i, y, b);
    assert [FreeAt(a)][1..] == [] && [FreeAt(a), FreeAt(b)][1..] == [FreeAt(b)];
  }

  lemma FreeLive(k: Kmem, i: nat, x: nat, a: nat)
    requires KmemInv(k) && i < |k.pool.cells| && x in k.pool.cells[i].live && Covers(k.pool.cells[i], x, a)
    ensures KmemStep(k, FreeAt(a)) == Kfree(k, a) && (Kfree(k, a).Some? <==> Listed(k, i))
  {
    assert Live(k.pool, a);
    hide KmemInv, Kfree, Covers, Listed;
    KfreeExactly(k, i, x, a);
  }

  /** A cache whose slabs hold one object, as from 2 KB on, gives out one and fails at the second. */
  lemma OneAtATime(size: nat)
    requires CacheSize(size) && ObjPerSlab(PagesFor(size), size) == 1
    ensures KmemRun(Kmem(EMPTY, [Cache(size, None, None)]), [Malloc(0)]).Some?
    ensures KmemRun(Kmem(EMPTY, [Cache(size, None, None)]), [Malloc(0), Malloc(0)]) == None
  {
    var k := Kmem(EMPTY, [Cache(size, None, None)]);
    BottomSlabIs(size);
    FirstEverOut(size);
    var k1 := KmemStep(k, Malloc(0)).value;
    hide BottomSlab, CacheSize, ObjPerSlab, Kmalloc, KmemInv;
    LiveCount(k1, 0);
    KmallocExactly(k1, 0);
    assert [Malloc(0), Malloc(0)][1..] == [Malloc(0)] && [Malloc(0)][1..] == [];
  }
}
