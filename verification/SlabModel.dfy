/** One slab on values: layout arithmetic and the list of free ids. */
module SlabModel {
  import opened Bits
  import BuddyModel
  import opened Common

  const PGSIZE: nat := 4096
  const HEADER: nat := 40            // sizeof(slab_t): ten 4-byte fields
  const UINT_RANGE: nat := 0x1_0000_0000
  const USHORT_RANGE: nat := 0x1_0000

  // ---------- layout ----------

  /** How many objects of `size` bytes, each with a 2-byte index entry, a slab of `pages` pages holds. */
  function ObjPerSlab(pages: nat, size: nat): nat
    requires pages >= 1
  {
    (PGSIZE * pages - HEADER) / (2 + size)
  }

  /** Header, index table and objects fit the slab, and one object more would not. */
  lemma LayoutFits(pages: nat, size: nat)
    requires pages >= 1
    ensures var n := ObjPerSlab(pages, size);
            && HEADER + 2 * n + n * size <= PGSIZE * pages
            && HEADER + 2 * (n + 1) + (n + 1) * size > PGSIZE * pages
  {
    var n, d, x := ObjPerSlab(pages, size), 2 + size, PGSIZE * pages - HEADER;
    assert x == n * d + x % d;
    assert n * d == 2 * n + n * size;
    assert (n + 1) * d == n * d + d;
    assert (n + 1) * d == 2 * (n + 1) + (n + 1) * size;
  }

  /** CalculatePages: one page below 4 KB, else twice the object's whole pages. */
  function PagesFor(size: nat): nat {
    if size < PGSIZE then 1 else size / PGSIZE * 2
  }

  /** The pages a slab gets: the cache keeps only the logarithm of the number calculated. */
  function SlabPages(size: nat): nat {
    Pow2(BuddyModel.Log2(PagesFor(size)))
  }

  const KMEM_CACHE: nat := 44   // sizeof(kmem_cache_t): eleven 4-byte fields

  /** The object sizes of the kernel's caches. */
  predicate CacheSize(size: nat) {
    || size in {KMEM_CACHE, 32, 64, 128, 192, 256, 512, 1024, 2048}
    || size in {0x1000, 0x2000, 0x4000, 0x8000, 0x1_0000, 0x2_0000}
  }

  /** Two pages for 4 KB, up to 64 for 128 KB: powers of two, so the logarithm loses nothing. */
  lemma SlabPagesExact(size: nat)
    requires CacheSize(size)
    ensures SlabPages(size) == PagesFor(size) >= 1
  {
    Pow2At17();
    if size < PGSIZE {
      assert SlabPages(size) == Pow2(0);
    } else {
      PowersTo64();
      var k := if size == 0x1000 then 1 else if size == 0x2000 then 2 else if size == 0x4000 then 3
               else if size == 0x8000 then 4 else if size == 0x1_0000 then 5 else 6;
      assert PagesFor(size) == Pow2(k);
      BuddyModel.Log2OfPow2(k);
    }
  }

  lemma PowersTo64()
    ensures Pow2(1) == 2 && Pow2(2) == 4 && Pow2(3) == 8 && Pow2(4) == 16 && Pow2(5) == 32 && Pow2(6) == 64
  {
  }

  lemma SmallSlabs(size: nat)
    requires 32 <= size <= 2048
    ensures 1 <= ObjPerSlab(1, size) <= 119
  {
    DivLess(PGSIZE - HEADER, 2 + size, 1);
    DivLess(PGSIZE - HEADER, 2 + size, 120);
  }

  lemma LargeSlabs(size: nat)
    requires size >= PGSIZE && size % PGSIZE == 0
    ensures PGSIZE * PagesFor(size) == 2 * size && ObjPerSlab(PagesFor(size), size) == 1
  {
    assert PGSIZE * PagesFor(size) == 2 * size;
    DivLess(2 * size - HEADER, 2 + size, 1);
    DivLess(2 * size - HEADER, 2 + size, 2);
  }

  /** Every cache has slabs with at least one and at most 119 objects; from 4 KB on exactly one. */
  lemma KmallocSlabs(size: nat)
    requires CacheSize(size)
    ensures 1 <= ObjPerSlab(PagesFor(size), size) <= 119
    ensures size >= PGSIZE ==> ObjPerSlab(PagesFor(size), size) == 1
  {
    hide ObjPerSlab;
    if size >= PGSIZE { LargeSlabs(size); } else { SmallSlabs(size); }
  }

  // ---------- one slab ----------

  /** `obj` is the address of object 0; `freeList[active..]` are the ids that can be handed out. */
  datatype Slab = Slab(obj: nat, size: nat, objNum: nat, active: nat, freeList: seq<nat>)

  function IndexEntries(n: nat): (r: seq<nat>)
    ensures |r| == n && forall i :: 0 <= i < n ==> r[i] == i % USHORT_RANGE
  {
    seq(n, i requires 0 <= i < n => i % USHORT_RANGE)
  }

  function NewSlab(base: nat, size: nat, objNum: nat): Slab {
    Slab(base + HEADER + 2 * objNum, size, objNum, 0, IndexEntries(objNum))
  }

  /** The object area lies in the 32-bit address space and ids fit the 16-bit index entries. */
  predicate Fits(s: Slab) {
    s.size >= 1 && s.objNum <= USHORT_RANGE && s.obj + s.objNum * s.size <= UINT_RANGE
  }

  function Get(s: Slab): Option<(Slab, nat)>
    requires s.active <= |s.freeList| == s.objNum
  {
    if s.active == s.objNum then None
    else Some((s.(active := s.active + 1), s.obj + s.size * s.freeList[s.active]))
  }

  /** The id `FreeObj` computes from an address, in unsigned 32-bit arithmetic. */
  function IdOf(s: Slab, addr: nat): nat
    requires s.size >= 1
  {
    (addr + UINT_RANGE - s.obj % UINT_RANGE) % UINT_RANGE / s.size
  }

  predicate Accepts(s: Slab, addr: nat)
    requires s.size >= 1
  {
    var id := IdOf(s, addr);
    id < UINT_RANGE / 2 && id < s.objNum
  }

  function Put(s: Slab, addr: nat): Slab
    requires s.size >= 1 && 1 <= s.active <= |s.freeList|
  {
    if !Accepts(s, addr) then s
    else s.(active := s.active - 1, freeList := s.freeList[s.active - 1 := IdOf(s, addr) % USHORT_RANGE])
  }

  /** `free` lists exactly the ids outside `live`, each once. */
  ghost predicate Lists(free: seq<nat>, live: set<nat>, n: nat) {
    && Distinct(free)
    && (forall x: nat :: x in free <==> x < n && x !in live)
  }

  ghost predicate Inv(s: Slab, live: set<nat>) {
    && Fits(s) && |s.freeList| == s.objNum && s.active <= s.objNum
    && (forall x :: x in live ==> x < s.objNum)
    && |live| == s.active && Lists(s.freeList[s.active..], live, s.objNum)
  }

  lemma ListsPop(free: seq<nat>, live: set<nat>, n: nat)
    requires Lists(free, live, n) && free != []
    ensures free[0] < n && free[0] !in live && Lists(free[1..], live + {free[0]}, n)
  {
    var rest := free[1..];
    assert free == [free[0]] + rest && free[0] in free;
    forall i, j | 0 <= i < j < |rest| ensures rest[i] != rest[j] {
      assert free[i + 1] == rest[i] && free[j + 1] == rest[j];
    }
    forall x: nat ensures x in rest <==> x < n && x !in live + {free[0]} {
      if x in rest {
        var j :| 0 <= j < |rest| && rest[j] == x;
        assert free[j + 1] == x && free[0] != free[j + 1] && x in free;
      }
    }
  }

  lemma ListsPush(id: nat, free: seq<nat>, live: set<nat>, n: nat)
    requires Lists(free, live, n) && id in live && id < n
    ensures Lists([id] + free, live - {id}, n)
  {
    var more := [id] + free;
    forall i, j | 0 <= i < j < |more| ensures more[i] != more[j] {
      assert more[j] == free[j - 1] && free[j - 1] in free;
      if i > 0 { assert more[i] == free[i - 1]; }
    }
  }

  lemma NewInv(base: nat, size: nat, objNum: nat)
    requires Fits(NewSlab(base, size, objNum))
    ensures Inv(NewSlab(base, size, objNum), {})
  {
    var s := NewSlab(base, size, objNum);
    assert s.freeList[0..] == s.freeList;
    forall x: nat | x < objNum ensures x in s.freeList { assert s.freeList[x] == x; }
  }

  /** Handing out: the id was free, is live afterwards, and the address is that object's. */
  lemma GetInv(s: Slab, live: set<nat>)
    requires Inv(s, live)
    ensures Get(s) == None <==> |live| == s.objNum
    ensures Get(s).Some? ==>
              var id := s.freeList[s.active];
              && id < s.objNum && id !in live
              && Inv(Get(s).value.0, live + {id}) && Get(s).value.1 == s.obj + s.size * id
  {
    if Get(s).Some? {
      var s' := Get(s).value.0;
      assert s.freeList[s.active..][0] == s.freeList[s.active];
      assert s.freeList[s.active..][1..] == s'.freeList[s'.active..];
      ListsPop(s.freeList[s.active..], live, s.objNum);
    }
  }

  /** An address inside object `id` is traced back to `id`. */
  lemma IdOfInside(s: Slab, id: nat, off: nat)
    requires Fits(s) && id < s.objNum && off < s.size
    ensures Accepts(s, s.obj + s.size * id + off) && IdOf(s, s.obj + s.size * id + off) == id
  {
    var d := id * s.size + off;
    MulBelow(id, s.objNum, s.size);
    MulComm(id, s.size);
    InsideCase(s, id, off, d);
  }

  lemma MulComm(x: nat, y: nat)
    ensures x * y == y * x
  {
  }

  lemma InsideCase(s: Slab, id: nat, off: nat, d: nat)
    requires s.size >= 1 && d == id * s.size + off && off < s.size && id < s.objNum <= USHORT_RANGE
    requires s.obj + d < UINT_RANGE
    ensures IdOf(s, s.obj + d) == id && Accepts(s, s.obj + d)
  {
    WrapBack(s.obj, d);
    DivUnique(d, s.size, id, off);
  }

  lemma MulBelow(i: nat, n: nat, k: nat)
    requires i < n
    ensures i * k + k <= n * k
  {
    var rest: nat := n - i - 1;
    assert n * k == (i + 1 + rest) * k == i * k + k + rest * k;
  }

  lemma DivLess(d: nat, size: nat, n: nat)
    requires size >= 1
    ensures d / size < n <==> d < n * size
  {
    var q := d / size;
    assert d == q * size + d % size;
    if q < n {
      MulBelow(q, n, size);
    } else {
      MulAtLeast(q, n, size);
    }
  }

  lemma MulAtLeast(q: nat, n: nat, k: nat)
    requires q >= n
    ensures q * k >= n * k
  {
  }

  lemma WrapBack(obj: nat, d: nat)
    requires obj <= UINT_RANGE && d < UINT_RANGE && obj + d < UINT_RANGE
    ensures (obj + d + UINT_RANGE - obj % UINT_RANGE) % UINT_RANGE == d
  {
  }

  /** `FreeObj` accepts an address exactly when it lies in this slab's object area. */
  lemma AcceptsExactly(s: Slab, addr: nat)
    requires Fits(s) && addr < UINT_RANGE && s.obj < UINT_RANGE
    ensures Accepts(s, addr) <==> s.obj <= addr < s.obj + s.objNum * s.size
  {
    var d := if addr >= s.obj then addr - s.obj else addr + UINT_RANGE - s.obj;
    WrapDiff(s.obj, addr);
    DivLess(d, s.size, s.objNum);
    QuotientBelow(d, s.size);
  }

  lemma WrapDiff(obj: nat, addr: nat)
    requires obj < UINT_RANGE && addr < UINT_RANGE
    ensures (addr + UINT_RANGE - obj % UINT_RANGE) % UINT_RANGE
        == if addr >= obj then addr - obj else addr + UINT_RANGE - obj
  {
  }

  lemma QuotientBelow(d: nat, size: nat)
    requires size >= 1
    ensures d / size <= d
  {
    var q := d / size;
    assert d == q * size + d % size;
    assert q * size >= q;
  }

  /** Giving back a live object: its id becomes free again, and is the next one handed out. */
  lemma PutInv(s: Slab, live: set<nat>, id: nat, off: nat)
    requires Inv(s, live) && id in live && off < s.size
    ensures s.active >= 1
    ensures var s' := Put(s, s.obj + s.size * id + off);
            Inv(s', live - {id}) && Get(s').Some? && Get(s').value.1 == s.obj + s.size * id
  {
    assert live != {};
    var addr := s.obj + s.size * id + off;
    IdOfInside(s, id, off);
    var s' := Put(s, addr);
    assert id % USHORT_RANGE == id;
    assert s'.freeList[s'.active..] == [id] + s.freeList[s.active..];
    ListsPush(id, s.freeList[s.active..], live, s.objNum);
  }

  /** What `FreeObj` does with an address it accepts. */
  lemma PutAddr(s: Slab, live: set<nat>, addr: nat)
    requires Inv(s, live) && addr < UINT_RANGE && s.obj < UINT_RANGE && Accepts(s, addr) && IdOf(s, addr) in live
    ensures s.active >= 1 && Inv(Put(s, addr), live - {IdOf(s, addr)})
  {
    var id := IdOf(s, addr);
    AcceptsExactly(s, addr);
    WrapDiff(s.obj, addr);
    var off := (addr - s.obj) % s.size;
    assert addr - s.obj == id * s.size + off;
    MulComm(id, s.size);
    PutInv(s, live, id, off);
  }

  /**
    Giving back an accepted address keeps the list right exactly when the object was live; otherwise its id is listed
    twice.
   */
  lemma PutRightExactly(s: Slab, live: set<nat>, addr: nat)
    requires Inv(s, live) && addr < UINT_RANGE && s.obj < UINT_RANGE && Accepts(s, addr) && s.active >= 1
    ensures (exists live' :: Inv(Put(s, addr), live')) <==> IdOf(s, addr) in live
  {
    var id, s' := IdOf(s, addr), Put(s, addr);
    if id in live {
      PutAddr(s, live, addr);
    } else {
      var free, free' := s.freeList[s.active..], s'.freeList[s'.active..];
      assert id in free;
      var k :| 0 <= k < |free| && free[k] == id;
      assert free' == [id] + free;
      assert free'[0] == free'[k + 1];
      assert !Distinct(free');
    }
  }

  /** Where object `id` starts. */
  function ObjAt(s: Slab, id: nat): nat {
    s.obj + s.size * id
  }

  /** Live objects lie in the object area, and different ones share no byte. */
  lemma LiveDisjoint(s: Slab, live: set<nat>, x: nat, y: nat)
    requires Inv(s, live) && x in live && y in live
    ensures s.obj <= ObjAt(s, x) && ObjAt(s, x) + s.size <= s.obj + s.objNum * s.size
    ensures x != y ==> ObjAt(s, x) + s.size <= ObjAt(s, y) || ObjAt(s, y) + s.size <= ObjAt(s, x)
  {
    MulBelow(x, s.objNum, s.size);
    MulComm(x, s.size);
    MulComm(y, s.size);
    if x < y { MulBelow(x, y, s.size); }
    if y < x { MulBelow(y, x, s.size); }
  }

  // ---------- runs on one slab ----------

  datatype ObjOp = GetObj | FreeObj(id: nat, off: nat)

  datatype Run = Run(slab: Slab, live: set<nat>)

  /** Clients give back only live objects, by any address inside them; a full slab hands out nothing. */
  function Step(r: Run, op: ObjOp): Run
    requires r.slab.size >= 1 && r.slab.active <= |r.slab.freeList| == r.slab.objNum
  {
    match op
    case GetObj =>
      (match Get(r.slab)
       case None => r
       case Some((s, _)) => Run(s, r.live + {r.slab.freeList[r.slab.active]}))
    case FreeObj(id, off) =>
      if id in r.live && off < r.slab.size && r.slab.active >= 1
      then Run(Put(r.slab, r.slab.obj + r.slab.size * id + off), r.live - {id})
      else r
  }

  lemma StepInv(r: Run, op: ObjOp)
    requires Inv(r.slab, r.live)
    ensures Inv(Step(r, op).slab, Step(r, op).live)
    ensures Step(r, op).slab.obj == r.slab.obj && Step(r, op).slab.size == r.slab.size
  {
    hide Lists, Fits, Accepts;
    match op
    case GetObj => GetInv(r.slab, r.live);
    case FreeObj(id, off) =>
      if id in r.live && off < r.slab.size { PutInv(r.slab, r.live, id, off); }
  }

  ghost function RunAll(r: Run, ops: seq<ObjOp>): Run
    requires Inv(r.slab, r.live)
    decreases |ops|
  {
    if ops == [] then r
    else
      StepInv(r, ops[0]);
      RunAll(Step(r, ops[0]), ops[1..])
  }

  /** Over every run the ids past `active` are exactly the free ones, each once, and `active` counts the live ones. */
  lemma {:induction false} RunInv(r: Run, ops: seq<ObjOp>)
    requires Inv(r.slab, r.live)
    ensures Inv(RunAll(r, ops).slab, RunAll(r, ops).live)
    ensures RunAll(r, ops).slab.obj == r.slab.obj && RunAll(r, ops).slab.size == r.slab.size
    decreases |ops|
  {
    if ops != [] {
      StepInv(r, ops[0]);
      RunInv(Step(r, ops[0]), ops[1..]);
    }
  }
}
