/**
  `map`, `unmap` and `getmapping` over a directory array, page tables in memory and the page records
  they count references in.
 */
module PageTables {
  import opened Bits
  import opened BuddyModel
  import opened Chains
  import opened Common
  import opened BuddyAllocator
  import opened VmModel

  function Refs(ps: seq<Page>): (r: seq<nat>)
    ensures |r| == |ps| && forall i :: 0 <= i < |ps| ==> r[i] == ps[i].refNum
  {
    seq(|ps|, i requires 0 <= i < |ps| => ps[i].refNum)
  }

  function Vas(ps: seq<Page>): (r: seq<nat>)
    ensures |r| == |ps| && forall i :: 0 <= i < |ps| ==> r[i] == ps[i].va
  {
    seq(|ps|, i requires 0 <= i < |ps| => ps[i].va)
  }

  /** Changing count and address of a page disturbs no chain. */
  lemma CountedGood(ps: seq<Page>, tb: seq<Item>, s: State, base: nat, total: nat, id: nat, n: nat, va: nat)
    requires Good(ps, tb, s, base, total) && id < |ps|
    ensures Good(ps[id := ps[id].(refNum := n, va := va)], tb, s, base, total)
  {
    var ps' := ps[id := ps[id].(refNum := n, va := va)];
    Recounted(ps, ps', s, base, total, id, n, va);
    hide Inv, TableOk, StartsOk, AllLinked;
  }

  lemma Recounted(ps: seq<Page>, ps': seq<Page>, s: State, base: nat, total: nat, id: nat, n: nat, va: nat)
    requires AllLinked(ps, s) && StartsOk(ps, base, total) && id < |ps|
    requires ps' == ps[id := ps[id].(refNum := n, va := va)]
    ensures AllLinked(ps', s) && StartsOk(ps', base, total)
  {
    assert SameLinks([], ps, ps');
    forall i | 0 <= i < |s.free| ensures Linked(ps', Flat(s.free[i])) { LinkedElsewhere(ps, ps', [], Flat(s.free[i])); }
    forall h | 0 <= h < |s.held| ensures Linked(ps', s.held[h]) { LinkedElsewhere(ps, ps', [], s.held[h]); }
  }

  lemma RecountedAttrs(ps: seq<Page>, ps': seq<Page>, s: State, id: nat, n: nat, va: nat)
    requires AttrsOk(ps, s) && id < |ps| && ps' == ps[id := ps[id].(refNum := n, va := va)]
    requires id in FreePages(s.free) ==> n == 0
    ensures AttrsOk(ps', s)
  {
    hide Flat, FreePages;
  }

  /** The search of the records finds what `IndexOf` says. */
  lemma FoundIndex(m: Machine, ps: seq<Page>, p: nat, i: int)
    requires m.Real() && StartsOk(ps, m.base, m.total)
    requires i == -1 ==> forall q :: 0 <= q < |ps| ==> ps[q].startAddr != p
    requires i != -1 ==> 0 <= i < |ps| && ps[i].startAddr == p && forall q :: 0 <= q < i ==> ps[q].startAddr != p
    ensures i == m.IndexOf(p)
  {
    MachineSize(m);
    var j := m.IndexOf(p);
    if j != -1 { assert ps[j].startAddr == p; }
    if i != -1 && i < m.total { assert p == m.At(i); }
  }

  lemma SameColumns(ps: seq<Page>, ps': seq<Page>)
    requires SameRefs(ps, ps')
    ensures Refs(ps) == Refs(ps') && Vas(ps) == Vas(ps')
  {
  }

  /** `map` is the table, then the entry and the count; what that keeps. */
  lemma MapParts(m: Machine, vm: Vm, fixed: set<nat>, flags: uint, p: uint, v: uint)
    requires VmInv(m, vm, fixed)
    ensures var made, id, e := EnsureTable(m, vm, PgdIdx(v)), m.IndexOf(p), Or(Mask(p), flags);
            && (made == None ==> VmModel.Map(m, vm, flags, p, v) == None && TableOf(vm, PgdIdx(v)) == 0)
            && (made.Some? ==>
                  && Wf(made.value) && TableOf(made.value, PgdIdx(v)) != 0
                  && VmModel.Map(m, vm, flags, p, v) ==
                     if id < 0 then None else Some(Enter(made.value, VPage(v), e, id, v)))
            && (made.Some? && id >= 0 ==>
                  id < MAX_PG_NUM && Enter(made.value, VPage(v), e, id, v).buddy == made.value.buddy)
            && (made.Some? && MayMap(m, vm, fixed, flags, p, v) ==>
                  && VmInv(m, Enter(made.value, VPage(v), e, id, v), fixed)
                  && id !in FreePages(made.value.buddy.free))
  {
    MachineSize(m);
    MapMakes(m, vm, fixed, flags, p, v);
    if EnsureTable(m, vm, PgdIdx(v)).Some? && MayMap(m, vm, fixed, flags, p, v) {
      MapInv(m, vm, fixed, flags, p, v);
      EnsureTableInv(m, vm, fixed, PgdIdx(v));
      NotOnFreeList(m, EnsureTable(m, vm, PgdIdx(v)).value, fixed, m.IndexOf(p));
    }
    hide VmInv, Wf, EnsureTable, FreePages, Or, TableOf;
  }

  /** `unmap` is clearing the entry and dropping the count; what that keeps. */
  lemma UnmapParts(m: Machine, vm: Vm, fixed: set<nat>, v: uint)
    requires VmInv(m, vm, fixed)
    ensures TableOf(vm, PgdIdx(v)) == 0 ==> VmModel.Unmap(m, vm, v) == Some(vm)
    ensures TableOf(vm, PgdIdx(v)) != 0 ==>
              var id := m.IndexOf(Mask(Entry(vm, VPage(v))));
              && id < MAX_PG_NUM
              && VmModel.Unmap(m, vm, v) == if id < 0 then None else Some(Clear(vm, VPage(v), id))
    ensures PgdIdx(v) !in fixed ==>
              VmModel.Unmap(m, vm, v).Some? && VmInv(m, VmModel.Unmap(m, vm, v).value, fixed)
  {
    MachineSize(m);
    if PgdIdx(v) !in fixed {
      UnmapInv(m, vm, fixed, v);
    }
  }

  /** What the allocation of a page for a table leaves, and why that page can be installed. */
  lemma TableAfterAlloc(m: Machine, vm: Vm, vma: Vm, fixed: set<nat>, slot: nat, ok: bool, ps: seq<Page>)
    requires VmInv(m, vm, fixed) && slot < ENTRIES && TableOf(vm, slot) == 0 && StartsOk(ps, m.base, m.total)
    requires ok <==> Alloc(vm.buddy, 1).Some?
    requires vma == if ok then vm.(buddy := Alloc(vm.buddy, 1).value) else vm
    ensures !ok ==> EnsureTable(m, vm, slot) == None
    ensures ok ==>
              var pg := NewPage(vm);
              && pg < m.total && vma.buddy.held != [] && vma.buddy.held[|vma.buddy.held| - 1] != []
              && pg == vma.buddy.held[|vma.buddy.held| - 1][0]
              && pg !in FreePages(vma.buddy.free) && pg < |ps| && ps[pg].startAddr == m.At(pg) < 0x1_0000_0000
              && EnsureTable(m, vm, slot) == if DirectMap(KernelView(m.At(pg))) == Some(m.At(pg))
                                             then Some(InstallTable(m, vma, slot, pg)) else None
  {
    MachineSize(m);
    if ok {
      var b := vma.buddy.held[|vma.buddy.held| - 1];
      NewPageIsFree(m, vm, fixed);
      NewPageHeld(m, vm, fixed);
      AllocInv(m, vm, fixed, 1);
      NotOnFreeList(m, vma, fixed, NewPage(vm));
      assert IsOrderSize(|b|);
      var t := m.At(NewPage(vm));
      assert t % 4096 == 0 && 0 < t < 0x1_0000_0000;
      DirectMapReaches(t);
      EnsureTableIs(m, vm, slot);
      hide EnsureTable, InstallTable, DirectMap, KernelView, VmInv;
    }
  }

  class Vmm {
    const m: Machine
    const buddy: Buddy
    const pgd: array<nat>
    var tables: map<nat, seq<nat>>
    ghost const fixed: set<nat>

    ghost function Abs(): Vm
      reads this, buddy, buddy.pages, pgd
    {
      Vm(buddy.s, pgd[..], tables, Refs(buddy.pages[..]), Vas(buddy.pages[..]))
    }

    ghost predicate Valid()
      reads this, buddy, buddy.pages, buddy.table, pgd
    {
      buddy.Valid() && buddy.base == m.base && buddy.total == m.total && VmInv(m, Abs(), fixed)
    }

    constructor (m: Machine, buddy: Buddy, pgd: array<nat>, tables: map<nat, seq<nat>>, ghost fixed: set<nat>)
      requires buddy.Valid() && buddy.base == m.base && buddy.total == m.total
      requires VmInv(m, Vm(buddy.s, pgd[..], tables, Refs(buddy.pages[..]), Vas(buddy.pages[..])), fixed)
      ensures Valid() && this.m == m && this.buddy == buddy && this.pgd == pgd && this.fixed == fixed
      ensures this.tables == tables
    {
      this.m, this.buddy, this.pgd, this.tables, this.fixed := m, buddy, pgd, tables, fixed;
    }

    /** Record `id` gets reference count `n` and mapped address `va`. */
    method SetCount(id: nat, n: nat, va: nat)
      requires buddy.Linkage() && id < MAX_PG_NUM
      modifies buddy.pages
      ensures buddy.Linkage()
      ensures old(buddy.Valid()) && (id in FreePages(buddy.s.free) ==> n == 0) ==> buddy.Valid()
      ensures Abs() == old(Abs()).(ref := old(Abs()).ref[id := n], va := old(Abs()).va[id := va])
    {
      ghost var ps, tb := buddy.pages[..], buddy.table[..];
      ghost var ps' := ps[id := ps[id].(refNum := n, va := va)];
      CountedGood(ps, tb, buddy.s, buddy.base, buddy.total, id, n, va);
      if AttrsOk(ps, buddy.s) && (id in FreePages(buddy.s.free) ==> n == 0) {
        RecountedAttrs(ps, ps', buddy.s, id, n, va);
      }
      hide Good, AttrsOk, HeldSized;
      buddy.pages[id] := buddy.pages[id].(refNum := n, va := va);
      assert buddy.pages[..] == ps';
      assert Refs(ps') == Refs(ps)[id := n] && Vas(ps') == Vas(ps)[id := va];
      assert buddy.table[..] == tb;
    }

    method FindIndex(p: nat) returns (id: int)
      requires buddy.Valid() && buddy.base == m.base && buddy.total == m.total && m.Real()
      ensures id == m.IndexOf(p)
    {
      id := buddy.FindPageIndex(p);
      FoundIndex(m, buddy.pages[..], p, id);
    }

    /** The physical address behind a virtual one, if mapped. */
    method GetMapping(v: uint) returns (found: bool, p: nat)
      requires Valid()
      ensures VmModel.GetMapping(Abs(), v) == if found then Some(p) else None
    {
      var t := Mask(pgd[PgdIdx(v)]);
      if t == 0 {
        return false, 0;
      }
      assert TableOf(Abs(), PgdIdx(v)) == t;
      var e := tables[t][PteIdx(v)];
      if e != 0 {
        return true, Mask(e);
      }
      return false, 0;
    }

    /** Page `pg` becomes the cleared table of `slot`. */
    method InstallNew(slot: nat, pg: nat)
      requires buddy.Linkage() && buddy.base == m.base && slot < pgd.Length && pg < buddy.total && pg < MAX_PG_NUM
      modifies this, pgd, buddy.pages
      ensures buddy.Linkage() && Abs() == InstallTable(m, old(Abs()), slot, pg)
      ensures old(buddy.Valid()) && pg !in FreePages(old(buddy.s).free) ==> buddy.Valid()
    {
      hide AttrsOk, HeldSized, FreePages;
      ghost var vm := Abs();
      var t := buddy.pages[pg].startAddr;
      assert t == m.At(pg);
      hide Good;
      SetCount(pg, buddy.pages[pg].refNum + 1, (t + PAGE_OFFSET) % 0x1_0000_0000);
      pgd[slot] := Or(t, TABLE_FLAGS);
      tables := tables[t := Zeros()];
      assert pgd[..] == vm.pgd[slot := Or(t, TABLE_FLAGS)];
    }

    /** `alloc_pages(1)`; false when the allocator has no page. */
    method AllocOne() returns (blk: int, ok: bool)
      requires Valid()
      modifies buddy, buddy.pages, buddy.table
      ensures buddy.Valid() && (ok <==> Alloc(old(buddy.s), 1).Some?)
      ensures Abs() == if ok then old(Abs()).(buddy := Alloc(old(buddy.s), 1).value) else old(Abs())
      ensures ok ==> blk == Ptr(buddy.s.held[|buddy.s.held| - 1], 0)
    {
      hide Good, VmInv, HeldSized, AttrsOk;
      ghost var ps := buddy.pages[..];
      assert PagesFor(4) == 1;
      var past;
      blk, ok, past := buddy.AllocBuddy(4);
      SameColumns(ps, buddy.pages[..]);
    }

    /**
      Make sure `slot` has a page table; false when no page can be allocated for one (the kernel panics), or the
      page is out of reach (the code goes on and clears other memory; nothing is promised from there).
     */
    method NeedTable(slot: nat) returns (ok: bool)
      requires Valid() && slot < ENTRIES
      modifies this, pgd, buddy, buddy.pages, buddy.table
      ensures buddy.Valid() && (ok <==> EnsureTable(m, old(Abs()), slot).Some?)
      ensures ok ==> Some(Abs()) == EnsureTable(m, old(Abs()), slot)
      ensures !ok && Alloc(old(buddy.s), 1) == None ==> Abs() == old(Abs())
    {
      hide HeldSized, AttrsOk, InstallTable, DirectMap, KernelView, Machine.Clear;
      ghost var vm := Abs();
      if Mask(pgd[slot]) == 0 {
        var blk, flag := AllocOne();
        TableAfterAlloc(m, vm, Abs(), fixed, slot, flag, buddy.pages[..]);
        hide Good, VmInv, EnsureTable;
        if !flag {
          return false;
        }
        var t := buddy.pages[blk].startAddr;
        if DirectMap(KernelView(t)) != Some(t) {
          return false;
        }
        InstallNew(slot, blk);
      }
      return true;
    }

    method WriteEntry(v: uint, e: nat)
      requires Wf(Abs()) && TableOf(Abs(), PgdIdx(v)) != 0
      modifies this
      ensures Abs() == SetEntry(old(Abs()), VPage(v), e)
    {
      var t := Mask(pgd[PgdIdx(v)]);
      assert TableOf(Abs(), PgdIdx(v)) == t;
      var written: seq<nat> := tables[t][PteIdx(v) := e];
      tables := tables[t := written];
    }

    /**
      Map virtual address `v` to the page at `p`.  False when no page table could be made for `v`, or no page
      starts at `p` (the code then counts outside the records; nothing is promised from there).  The invariant is
      kept under the clients' discipline; without it the tables still change as the model says.
     */
    method Map(flags: uint, p: uint, v: uint) returns (ok: bool)
      requires Valid()
      modifies this, pgd, buddy, buddy.pages, buddy.table
      ensures ok <==> VmModel.Map(m, old(Abs()), flags, p, v).Some?
      ensures ok ==> Some(Abs()) == VmModel.Map(m, old(Abs()), flags, p, v) && buddy.Linkage()
      ensures ok && MayMap(m, old(Abs()), fixed, flags, p, v) ==> Valid()
      ensures !ok && 0 <= m.IndexOf(p) && Alloc(old(buddy.s), 1) == None ==> Valid() && Abs() == old(Abs())
    {
      hide Good, HeldSized, AttrsOk, EnsureTable, SetEntry, Or, VmModel.Map, Enter, MayMap, Machine.Clear;
      ghost var vm := Abs();
      MapParts(m, vm, fixed, flags, p, v);
      assert m.Real();
      hide VmInv, Wf, Machine.Real;
      ok := NeedTable(PgdIdx(v));
      if ok {
        var id := FindIndex(p);
        if id < 0 {
          return false;
        }
        EnterEntry(Or(Mask(p), flags), id, v);
      }
    }

    /** The table being there, write the entry and count the reference to page `id`. */
    method EnterEntry(e: nat, id: nat, v: uint)
      requires buddy.Valid() && Wf(Abs()) && TableOf(Abs(), PgdIdx(v)) != 0 && id < MAX_PG_NUM
      modifies this, buddy.pages
      ensures buddy.Linkage() && (id !in FreePages(buddy.s.free) ==> buddy.Valid())
      ensures Abs() == Enter(old(Abs()), VPage(v), e, id, v)
    {
      hide Good, HeldSized, AttrsOk, Wf, FreePages;
      WriteEntry(v, e);
      SetCount(id, buddy.pages[id].refNum + 1, v);
    }

    /** The table being there, clear the entry and drop the reference to page `id`. */
    method ClearEntry(v: uint, id: nat)
      requires buddy.Valid() && Wf(Abs()) && TableOf(Abs(), PgdIdx(v)) != 0
      requires id < MAX_PG_NUM && (id in FreePages(buddy.s.free) ==> Abs().ref[id] == 0)
      modifies this, buddy.pages
      ensures buddy.Valid() && Abs() == Clear(old(Abs()), VPage(v), id)
    {
      hide Good, HeldSized, AttrsOk, Wf, FreePages;
      WriteEntry(v, 0);
      SetCount(id, if buddy.pages[id].refNum > 0 then buddy.pages[id].refNum - 1 else 0, 0);
    }

    /**
      Remove the mapping of `v`, if any.  False when the entry names no known page (the code then counts outside
      the records; nothing is promised from there), which only a boot-time slot's entry can do.
     */
    method Unmap(v: uint) returns (ok: bool)
      requires Valid()
      modifies this, buddy.pages
      ensures ok <==> VmModel.Unmap(m, old(Abs()), v).Some?
      ensures ok ==> Some(Abs()) == VmModel.Unmap(m, old(Abs()), v) && buddy.Valid()
      ensures PgdIdx(v) !in fixed ==> ok && Valid()
    {
      ghost var vm := Abs();
      UnmapParts(m, vm, fixed, v);
      assert m.Real() && Wf(vm) && FreeUnreferenced(vm);
      var t := Mask(pgd[PgdIdx(v)]);
      assert t == TableOf(vm, PgdIdx(v));
      if t == 0 {
        return true;
      }
      var id := FindIndex(Mask(tables[t][PteIdx(v)]));
      assert id in FreePages(vm.buddy.free) ==> vm.ref[id] == 0;
      hide VmInv, Good, HeldSized, AttrsOk, Wf, FreePages, VmModel.Unmap, Clear, FreeUnreferenced;
      ok := id >= 0;
      if ok {
        ClearEntry(v, id);
      }
    }
  }
}
