/**
  The heap the slabs are carved from, with their contents: creation at the top, release at the top, and objects
  handed out and given back in between.
 */
module HeapModel {
  import opened Bits
  import opened Common
  import opened SlabModel

  const HEAP_START: nat := 0xE000_0000

  // ---------- places ----------

  /** A slab's place in the heap and the object size it was cut for. */
  datatype Place = Place(base: nat, pages: nat, size: nat) {
    function End(): nat {
      base + PGSIZE * pages
    }

    function Content(): Slab
      requires PagesFor(size) >= 1
    {
      NewSlab(base, size, ObjPerSlab(PagesFor(size), size))
    }
  }

  datatype Heap = Heap(top: nat, slabs: seq<Place>)

  /** apply_slab: the new slab starts at the old heap top. */
  function Apply(h: Heap, pages: nat, size: nat): Heap {
    Heap(h.top + PGSIZE * pages, h.slabs + [Place(h.top, pages, size)])
  }

  /** _check_free_buddy: released only when the heap top does not lie beyond the slab's end. */
  function Release(h: Heap, k: nat): Heap
    requires k < |h.slabs|
  {
    var p := h.slabs[k];
    if h.top > (p.base + HEADER + PGSIZE * p.pages - HEADER) % UINT_RANGE then h
    else Heap((UINT_RANGE * p.pages + h.top - PGSIZE * p.pages) % UINT_RANGE, h.slabs[..k] + h.slabs[k + 1..])
  }

  /** Where the first `n` slabs end. */
  function EndOf(slabs: seq<Place>, n: nat): nat
    requires n <= |slabs|
  {
    if n == 0 then HEAP_START else slabs[n - 1].End()
  }

  /** The slabs tile the heap from its start to its top. */
  predicate Tiled(h: Heap) {
    && (forall i :: 0 <= i < |h.slabs| ==> h.slabs[i].pages >= 1 && h.slabs[i].size >= 1)
    && (forall i {:trigger EndOf(h.slabs, i)} :: 0 <= i < |h.slabs| ==> h.slabs[i].base == EndOf(h.slabs, i))
    && h.top == EndOf(h.slabs, |h.slabs|) < UINT_RANGE
  }

  lemma {:induction false} Ascending(h: Heap, i: nat, j: nat)
    requires Tiled(h) && i < j < |h.slabs|
    ensures h.slabs[i].End() <= h.slabs[j].base && h.slabs[j].End() <= h.top
    decreases j - i, |h.slabs| - j
  {
    assert h.slabs[j].base == EndOf(h.slabs, j);
    if i + 1 < j { Ascending(h, i, j - 1); }
    if j + 1 < |h.slabs| {
      Ascending(h, j, j + 1);
    } else {
      assert h.top == EndOf(h.slabs, j + 1);
    }
  }

  lemma ApplyTiled(h: Heap, pages: nat, size: nat)
    requires Tiled(h) && pages >= 1 && size >= 1 && h.top + PGSIZE * pages < UINT_RANGE
    ensures Tiled(Apply(h, pages, size))
  {
    var h' := Apply(h, pages, size);
    var n := |h.slabs|;
    assert EndOf(h'.slabs, n) == EndOf(h.slabs, n);
    forall i | 0 <= i < |h'.slabs| ensures h'.slabs[i].base == EndOf(h'.slabs, i) {
      if i < n { assert h'.slabs[i] == h.slabs[i] && EndOf(h'.slabs, i) == EndOf(h.slabs, i); }
    }
  }

  lemma TopBack(top: nat, pages: nat)
    requires PGSIZE * pages <= top < UINT_RANGE
    ensures (UINT_RANGE * pages + top - PGSIZE * pages) % UINT_RANGE == top - PGSIZE * pages
  {
    DivUnique(UINT_RANGE * pages + top - PGSIZE * pages, UINT_RANGE, pages, top - PGSIZE * pages);
  }

  lemma DropLastTiled(h: Heap, k: nat)
    requires Tiled(h) && k < |h.slabs|
    ensures Tiled(Heap(h.slabs[k].base, h.slabs[..k]))
  {
    var slabs' := h.slabs[..k];
    assert EndOf(h.slabs, k) == h.slabs[k].base && EndOf(slabs', k) == EndOf(h.slabs, k);
    InHeap(h, k);
    forall i | 0 <= i < k ensures slabs'[i].base == EndOf(slabs', i) {
      assert EndOf(slabs', i) == EndOf(h.slabs, i);
    }
  }

  lemma TopIsLastEnd(h: Heap)
    requires Tiled(h) && h.slabs != []
    ensures h.top == h.slabs[|h.slabs| - 1].End()
  {
  }

  /** Only the slab at the heap's top is ever released. */
  lemma ReleaseTiled(h: Heap, k: nat)
    requires Tiled(h) && k < |h.slabs|
    ensures Tiled(Release(h, k)) && (Release(h, k) != h <==> k == |h.slabs| - 1)
  {
    InHeap(h, k);
    if k < |h.slabs| - 1 {
      Ascending(h, k, |h.slabs| - 1);
    } else {
      TopBack(h.top, h.slabs[k].pages);
      DropLastTiled(h, k);
      TopIsLastEnd(h);
      hide Tiled;
      assert h.slabs[..k] + h.slabs[k + 1..] == h.slabs[..k];
    }
  }

  lemma {:induction false} BaseAbove(h: Heap, k: nat)
    requires Tiled(h) && k < |h.slabs|
    ensures h.slabs[k].base >= HEAP_START
  {
    assert h.slabs[k].base == EndOf(h.slabs, k);
    if k > 0 { BaseAbove(h, k - 1); }
  }

  lemma InHeap(h: Heap, i: nat)
    requires Tiled(h) && i < |h.slabs|
    ensures HEAP_START <= h.slabs[i].base && h.slabs[i].End() <= h.top
  {
    BaseAbove(h, i);
    if i + 1 < |h.slabs| { Ascending(h, i, i + 1); }
  }

  /** A cache's slab lays its objects out inside its range, with ids that fit the index entries. */
  lemma ContentInside(p: Place)
    requires CacheSize(p.size) && p.pages == SlabPages(p.size) && p.End() < UINT_RANGE
    ensures PagesFor(p.size) >= 1
    ensures var s := p.Content();
            && s.obj == p.base + HEADER + 2 * s.objNum && s.obj + s.objNum * s.size <= p.End() && s.obj < UINT_RANGE
            && Fits(s) && s.objNum >= 1
  {
    SlabPagesExact(p.size);
    LayoutFits(p.pages, p.size);
    KmallocSlabs(p.size);
  }

  // ---------- slabs and objects together ----------

  /** A slab in its place, with its live ids. */
  datatype Cell = Cell(place: Place, slab: Slab, live: set<nat>) {
    /** Where the header, ten words, and the index table, two bytes an object, end. */
    function IndexEnd(): nat {
      place.base + 40 + 2 * slab.objNum
    }
  }

  datatype Pool = Pool(top: nat, cells: seq<Cell>)

  const EMPTY := Pool(HEAP_START, [])

  function Places(cells: seq<Cell>): (r: seq<Place>)
    ensures |r| == |cells| && forall i :: 0 <= i < |cells| ==> r[i] == cells[i].place
  {
    seq(|cells|, i requires 0 <= i < |cells| => cells[i].place)
  }

  function Geometry(p: Pool): Heap {
    Heap(p.top, Places(p.cells))
  }

  datatype PoolOp = Create(size: nat) | ReleaseSlab(k: nat) | GetFrom(k: nat) | FreeAddr(addr: nat)

  predicate Accepting(c: Cell, addr: nat) {
    c.slab.size >= 1 && Accepts(c.slab, addr)
  }

  /** The first slab, from number `k` on, whose FreeObj accepts the address; the number of slabs when none does. */
  function Owner(cells: seq<Cell>, addr: nat, k: nat := 0): (r: nat)
    requires k <= |cells|
    ensures k <= r <= |cells| && (r < |cells| ==> Accepting(cells[r], addr))
    ensures forall j :: k <= j < r ==> !Accepting(cells[j], addr)
    decreases |cells| - k
  {
    if k == |cells| || Accepting(cells[k], addr) then k else Owner(cells, addr, k + 1)
  }

  /** Some live object contains the address. */
  ghost predicate Live(p: Pool, addr: nat) {
    exists i, x :: 0 <= i < |p.cells| && x in p.cells[i].live && Covers(p.cells[i], x, addr)
  }

  predicate Covers(c: Cell, x: nat, addr: nat) {
    ObjAt(c.slab, x) <= addr < ObjAt(c.slab, x) + c.slab.size
  }

  /**
    Slabs are made for caches, below 4 GB, and released when nothing in them is live; clients give back live
    objects, by any address inside them.
   */
  ghost function PoolStep(p: Pool, op: PoolOp): Pool {
    match op
    case Create(size) =>
      if CacheSize(size) && PagesFor(size) >= 1 && p.top + PGSIZE * SlabPages(size) < UINT_RANGE then
        var place := Place(p.top, SlabPages(size), size);
        Pool(Apply(Geometry(p), place.pages, size).top, p.cells + [Cell(place, place.Content(), {})])
      else p
    case ReleaseSlab(k) =>
      if k < |p.cells| && p.cells[k].slab.active == 0 && Release(Geometry(p), k) != Geometry(p)
      then Pool(Release(Geometry(p), k).top, p.cells[..k] + p.cells[k + 1..])
      else p
    case GetFrom(k) =>
      if k < |p.cells| && GetOk(p.cells[k].slab) then
        var c := p.cells[k];
        p.(cells := p.cells[k := Cell(c.place, Get(c.slab).value.0, c.live + {c.slab.freeList[c.slab.active]})])
      else p
    case FreeAddr(addr) =>
      var k := Owner(p.cells, addr);
      if Live(p, addr) && k < |p.cells| && 1 <= p.cells[k].slab.active <= |p.cells[k].slab.freeList| then
        var c := p.cells[k];
        p.(cells := p.cells[k := Cell(c.place, Put(c.slab, addr), c.live - {IdOf(c.slab, addr)})])
      else p
  }

  predicate GetOk(s: Slab) {
    s.active <= |s.freeList| == s.objNum && Get(s).Some?
  }

  ghost function PoolRun(p: Pool, ops: seq<PoolOp>): Pool
    decreases |ops|
  {
    if ops == [] then p else PoolRun(PoolStep(p, ops[0]), ops[1..])
  }

  /** A cell's slab is the one laid out in its place, with its list of free ids right. */
  ghost predicate CellOk(c: Cell) {
    && CacheSize(c.place.size) && c.place.pages == SlabPages(c.place.size) && PagesFor(c.place.size) >= 1
    && Inv(c.slab, c.live)
    && c.slab.obj == c.place.Content().obj && c.slab.size == c.place.size && c.slab.objNum == c.place.Content().objNum
  }

  ghost predicate PoolInv(p: Pool) {
    Tiled(Geometry(p)) && forall k :: 0 <= k < |p.cells| ==> CellOk(p.cells[k])
  }

  lemma CreateInv(p: Pool, size: nat)
    requires PoolInv(p)
    ensures PoolInv(PoolStep(p, Create(size)))
  {
    var p' := PoolStep(p, Create(size));
    if CacheSize(size) && p.top + PGSIZE * SlabPages(size) < UINT_RANGE {
      SlabPagesExact(size);
      var place := Place(p.top, SlabPages(size), size);
      ContentInside(place);
      NewInv(place.base, size, ObjPerSlab(PagesFor(size), size));
      assert CellOk(Cell(place, place.Content(), {}));
      ApplyTiled(Geometry(p), place.pages, size);
      assert Places(p'.cells) == Places(p.cells) + [place];
      hide CellOk, Tiled;
    }
  }

  lemma ReleaseInv(p: Pool, k: nat)
    requires PoolInv(p)
    ensures PoolInv(PoolStep(p, ReleaseSlab(k)))
  {
    hide CellOk, Tiled;
    var p' := PoolStep(p, ReleaseSlab(k));
    if p' != p {
      ReleaseTiled(Geometry(p), k);
      assert Places(p'.cells) == Places(p.cells)[..k] + Places(p.cells)[k + 1..];
    }
  }

  /** Changing what a slab holds moves nothing. */
  lemma ReplaceInv(p: Pool, k: nat, c: Cell)
    requires PoolInv(p) && k < |p.cells| && CellOk(c) && c.place == p.cells[k].place
    ensures PoolInv(p.(cells := p.cells[k := c]))
  {
    hide CellOk, Tiled;
    assert Places(p.cells[k := c]) == Places(p.cells);
  }

  lemma GetCellOk(c: Cell)
    requires CellOk(c) && GetOk(c.slab)
    ensures CellOk(Cell(c.place, Get(c.slab).value.0, c.live + {c.slab.freeList[c.slab.active]}))
  {
    GetInv(c.slab, c.live);
    hide Inv;
  }

  lemma PutCellOk(c: Cell, addr: nat)
    requires CellOk(c) && addr < UINT_RANGE && c.slab.obj < UINT_RANGE && Accepts(c.slab, addr)
    requires IdOf(c.slab, addr) in c.live
    ensures c.slab.active >= 1
    ensures CellOk(Cell(c.place, Put(c.slab, addr), c.live - {IdOf(c.slab, addr)}))
  {
    PutAddr(c.slab, c.live, addr);
    hide Inv, Accepts;
  }

  /** The object area of a cell lies in its place, and its place in the heap. */
  lemma CellRange(p: Pool, k: nat)
    requires PoolInv(p) && k < |p.cells|
    ensures var c := p.cells[k];
            && HEAP_START <= c.place.base && c.slab.obj == c.IndexEnd() < UINT_RANGE
            && c.slab.obj + c.slab.objNum * c.slab.size <= c.place.End() <= p.top < UINT_RANGE
  {
    var c := p.cells[k];
    assert CellOk(c);
    InHeap(Geometry(p), k);
    ContentInside(c.place);
    hide Inv;
  }

  /** Any address is accepted by at most one slab. */
  lemma OneAccepts(p: Pool, addr: nat, i: nat, j: nat)
    requires PoolInv(p) && addr < UINT_RANGE && i < j < |p.cells|
    ensures p.cells[i].place.End() <= p.cells[j].place.base
    ensures !(Accepting(p.cells[i], addr) && Accepting(p.cells[j], addr))
  {
    assert CellOk(p.cells[i]) && CellOk(p.cells[j]);
    Ascending(Geometry(p), i, j);
    CellRange(p, i);
    CellRange(p, j);
    AcceptsExactly(p.cells[i].slab, addr);
    AcceptsExactly(p.cells[j].slab, addr);
    hide Tiled, Inv, Accepts;
  }

  /** An address inside a live object is accepted by that object's slab alone, which traces it back to the object. */
  lemma OwnerFound(p: Pool, i: nat, x: nat, addr: nat)
    requires PoolInv(p) && i < |p.cells| && x in p.cells[i].live && Covers(p.cells[i], x, addr)
    ensures addr < UINT_RANGE && Owner(p.cells, addr) == i && IdOf(p.cells[i].slab, addr) == x
    ensures forall k :: 0 <= k < |p.cells| ==> (Accepting(p.cells[k], addr) <==> k == i)
  {
    var c := p.cells[i];
    assert CellOk(c);
    CellRange(p, i);
    LiveDisjoint(c.slab, c.live, x, x);
    IdOfInside(c.slab, x, addr - ObjAt(c.slab, x));
    forall k | 0 <= k < |p.cells| && k != i ensures !Accepting(p.cells[k], addr) {
      if k < i { OneAccepts(p, addr, k, i); } else { OneAccepts(p, addr, i, k); }
    }
  }

  lemma FreeInv(p: Pool, addr: nat)
    requires PoolInv(p)
    ensures PoolInv(PoolStep(p, FreeAddr(addr)))
  {
    if Live(p, addr) {
      var i, x :| 0 <= i < |p.cells| && x in p.cells[i].live && Covers(p.cells[i], x, addr);
      OwnerFound(p, i, x, addr);
      CellRange(p, i);
      PutCellOk(p.cells[i], addr);
      ReplaceInv(p, i, Cell(p.cells[i].place, Put(p.cells[i].slab, addr), p.cells[i].live - {x}));
    }
  }

  lemma PoolStepInv(p: Pool, op: PoolOp)
    requires PoolInv(p)
    ensures PoolInv(PoolStep(p, op))
  {
    match op
    case Create(size) => CreateInv(p, size);
    case ReleaseSlab(k) => ReleaseInv(p, k);
    case GetFrom(k) =>
      if k < |p.cells| && GetOk(p.cells[k].slab) {
        var c := p.cells[k];
        GetCellOk(c);
        ReplaceInv(p, k, Cell(c.place, Get(c.slab).value.0, c.live + {c.slab.freeList[c.slab.active]}));
      }
    case FreeAddr(addr) => FreeInv(p, addr);
  }

  lemma {:induction false} PoolRunInv(p: Pool, ops: seq<PoolOp>)
    requires PoolInv(p)
    ensures PoolInv(PoolRun(p, ops))
    decreases |ops|
  {
    hide PoolInv, PoolStep;
    if ops != [] {
      PoolStepInv(p, ops[0]);
      PoolRunInv(PoolStep(p, ops[0]), ops[1..]);
    }
  }

  /** Two different live objects, of one slab or of two, share no byte, and both lie in the heap. */
  lemma LiveApart(p: Pool, i: nat, x: nat, j: nat, y: nat)
    requires PoolInv(p) && i <= j < |p.cells| && x in p.cells[i].live && y in p.cells[j].live && (i != j || x != y)
    ensures var a, b := ObjAt(p.cells[i].slab, x), ObjAt(p.cells[j].slab, y);
            var m, n := p.cells[i].slab.size, p.cells[j].slab.size;
            && HEAP_START <= a && a + m <= p.top && HEAP_START <= b && b + n <= p.top
            && (a + m <= b || b + n <= a)
  {
    assert CellOk(p.cells[i]) && CellOk(p.cells[j]);
    CellRange(p, i);
    CellRange(p, j);
    LiveDisjoint(p.cells[i].slab, p.cells[i].live, x, if i == j then y else x);
    LiveDisjoint(p.cells[j].slab, p.cells[j].live, y, y);
    if i < j { OneAccepts(p, 0, i, j); }
    hide Tiled, Inv;
  }

  /** A live object starts behind its slab's header and index table, and lies clear of every slab's. */
  lemma ClearOfTables(p: Pool, i: nat, x: nat, j: nat)
    requires PoolInv(p) && i < |p.cells| && x in p.cells[i].live && j < |p.cells|
    ensures var a, m := ObjAt(p.cells[i].slab, x), p.cells[i].slab.size;
            && p.cells[i].IndexEnd() <= a
            && (a + m <= p.cells[j].place.base || p.cells[j].IndexEnd() <= a)
  {
    hide PoolInv, ObjAt;
    InObjects(p, i, x);
    CellRange(p, i);
    CellRange(p, j);
    if i < j { OneAccepts(p, 0, i, j); }
    if j < i { OneAccepts(p, 0, j, i); }
  }

  /** `n` bytes from `a` on share none with any slab's header or index table. */
  predicate OffTables(p: Pool, a: nat, n: nat) {
    forall j :: 0 <= j < |p.cells| ==> a + n <= p.cells[j].place.base || p.cells[j].IndexEnd() <= a
  }

  lemma ClearOfAll(p: Pool, i: nat, x: nat)
    requires PoolInv(p) && i < |p.cells| && x in p.cells[i].live
    ensures OffTables(p, ObjAt(p.cells[i].slab, x), p.cells[i].slab.size)
  {
    hide PoolInv, ObjAt;
    forall j | 0 <= j < |p.cells|
      ensures var a, n := ObjAt(p.cells[i].slab, x), p.cells[i].slab.size;
              a + n <= p.cells[j].place.base || p.cells[j].IndexEnd() <= a
    {
      ClearOfTables(p, i, x, j);
    }
  }

  lemma InObjects(p: Pool, i: nat, x: nat)
    requires PoolInv(p) && i < |p.cells| && x in p.cells[i].live
    ensures var s := p.cells[i].slab;
            s.obj <= ObjAt(s, x) && ObjAt(s, x) + s.size <= s.obj + s.objNum * s.size
  {
    assert CellOk(p.cells[i]);
    LiveDisjoint(p.cells[i].slab, p.cells[i].live, x, x);
  }

  /**
    After any run of slab creation and release, gets and frees, from the empty heap: live objects share no byte with
    each other or with a slab's header or index table, and giving back any address inside one frees exactly that object
    of exactly its slab.
   */
  lemma HeapSafe(ops: seq<PoolOp>, i: nat, x: nat, j: nat, y: nat, addr: nat)
    requires var p := PoolRun(EMPTY, ops); i <= j < |p.cells| && x in p.cells[i].live && y in p.cells[j].live
    ensures var p := PoolRun(EMPTY, ops);
            && PoolInv(p)
            && (i != j || x != y ==>
                  var a, b := ObjAt(p.cells[i].slab, x), ObjAt(p.cells[j].slab, y);
                  a + p.cells[i].slab.size <= b || b + p.cells[j].slab.size <= a)
            && OffTables(p, ObjAt(p.cells[i].slab, x), p.cells[i].slab.size)
            && (Covers(p.cells[i], x, addr) ==>
                  var p', c := PoolStep(p, FreeAddr(addr)), p.cells[i];
                  && c.slab.size >= 1 && 1 <= c.slab.active <= |c.slab.freeList|
                  && p' == p.(cells := p.cells[i := Cell(c.place, Put(c.slab, addr), c.live - {x})]))
  {
    assert PoolInv(EMPTY);
    PoolRunInv(EMPTY, ops);
    var p := PoolRun(EMPTY, ops);
    hide PoolInv, OffTables;
    if i != j || x != y { LiveApart(p, i, x, j, y); }
    ClearOfAll(p, i, x);
    if Covers(p.cells[i], x, addr) {
      OwnerFound(p, i, x, addr);
      CellRange(p, i);
      PutCellOk(p.cells[i], addr);
    }
  }
}
