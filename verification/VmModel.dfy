/**
  Two-level page tables and page reference counts, on values.  Section 4.3 of the Intel SDM
  volume 3A (32-bit paging): a directory of 1024 entries, tables of 1024 entries, frame address in the upper
  20 bits of an entry.
 */
module VmModel {
  import opened Bits
  import opened BuddyModel
  import opened Common
  import opened ImageModel

  const ENTRIES: nat := 1024
  const VPAGES: nat := 0x10_0000
  const PAGE_OFFSET: nat := 0xC000_0000
  const TABLE_FLAGS: nat := 3   // PTE_P | PTE_W
  const DIRECT_END: nat := 0x2000_0000   // the direct map ends here, where the last page the boot scan takes may start

  type uint = x: nat | x < 0x1_0000_0000

  /** `x & PAGE_MASK`. */
  function Mask(x: nat): nat {
    x - x % 4096
  }

  function PgdIdx(v: uint): (i: nat)
    ensures i < ENTRIES
  {
    v / 0x40_0000 % 1024
  }

  function PteIdx(v: uint): (i: nat)
    ensures i < ENTRIES
  {
    v / 4096 % 1024
  }

  /** The virtual page an address lies in. */
  function VPage(v: uint): (p: nat)
    ensures p < VPAGES && p / ENTRIES == PgdIdx(v) && p % ENTRIES == PteIdx(v)
  {
    v / 4096
  }

  /**
    The allocator, the directory, the page tables by physical address, and per page record
    the reference count and the address it is mapped at.
   */
  datatype Vm = Vm(buddy: State, pgd: seq<nat>, tables: map<nat, seq<nat>>, ref: seq<nat>, va: seq<nat>)

  /** The machine's pages, `total` of them from physical address `base` on, and the kernel loaded in it. */
  datatype Machine = Machine(base: nat, total: nat, image: Image) {
    /** Memory starts above 1 MB, on a page boundary; as in the boot scan the last page may start at 512 MB. */
    predicate Real() {
      base >= 0x10_0000 && base % 4096 == 0 && 1 <= total && base + 4096 * (total - 1) <= MAXSIZE
    }

    /** The pages lie behind the kernel's text, data and bss: none is part of the page records or a static table. */
    predicate Clear() {
      image.Linked() && image.BssEnd() <= base
    }

    function At(i: nat): nat {
      Addr(base, i)
    }

    /** The record of the page starting at `p`; address 0 finds the first unused, zeroed record. */
    function IndexOf(p: nat): int {
      if base <= p < base + 4096 * total && (p - base) % 4096 == 0 then (p - base) / 4096
      else if p == 0 then total
      else -1
    }
  }

  lemma MachineSize(m: Machine)
    requires m.Real()
    ensures m.total < MAX_PG_NUM
    ensures forall i :: 0 <= i < m.total ==> m.IndexOf(m.At(i)) == i && Mask(m.At(i)) == m.At(i) != 0
  {
  }

  // ---------- the tables as a partial map ----------

  function TableOf(vm: Vm, slot: nat): nat
    requires slot < |vm.pgd|
  {
    Mask(vm.pgd[slot])
  }

  /** Every directory entry in use points to a table of its own, which the direct map reaches. */
  predicate Wf(vm: Vm) {
    && |vm.pgd| == ENTRIES && |vm.ref| == |vm.va| == MAX_PG_NUM
    && (forall i :: 0 <= i < ENTRIES ==> TableOf(vm, i) < DIRECT_END)
    && (forall i :: 0 <= i < ENTRIES && TableOf(vm, i) != 0 ==>
          TableOf(vm, i) in vm.tables && |vm.tables[TableOf(vm, i)]| == ENTRIES)
    && (forall i, j :: 0 <= i < j < ENTRIES && TableOf(vm, i) != 0 ==> TableOf(vm, i) != TableOf(vm, j))
  }

  /** The table entry of a virtual page; 0 when its table does not exist. */
  function Entry(vm: Vm, vp: nat): nat
    requires Wf(vm) && vp < VPAGES
  {
    var t := TableOf(vm, vp / ENTRIES);
    if t == 0 then 0 else vm.tables[t][vp % ENTRIES]
  }

  /** What the tables mean: the frame of every mapped virtual page. */
  function Translation(vm: Vm): map<nat, nat>
    requires Wf(vm)
  {
    map vp | 0 <= vp < VPAGES && Entry(vm, vp) != 0 :: Mask(Entry(vm, vp))
  }

  // ---------- the operations ----------

  function GetMapping(vm: Vm, v: uint): Option<nat>
    requires Wf(vm)
  {
    var t := TableOf(vm, PgdIdx(v));
    if t == 0 then None
    else
      var e := vm.tables[t][PteIdx(v)];
      if e != 0 then Some(Mask(e)) else None
  }

  function Zeros(): (s: seq<nat>)
    ensures |s| == ENTRIES && forall i :: 0 <= i < ENTRIES ==> s[i] == 0
  {
    seq(ENTRIES, _ => 0)
  }

  /** The physical address behind a virtual one in the part of the address space set up at boot. */
  function DirectMap(v: uint): Option<nat> {
    var slot := PgdIdx(v);
    if 0x300 <= slot < 0x300 + 128 then
      var i := (slot - 0x300) * ENTRIES + PteIdx(v);
      if i >= 1 then Some(4096 * i) else None
    else None
  }

  /** Where the code goes when it means the page at `t`. */
  function KernelView(t: nat): uint {
    (t + PAGE_OFFSET) % 0x1_0000_0000
  }

  /**
    The view of a page leads to that page exactly when it starts below 512 MB; the one at 512 MB looks like the heap.
   */
  lemma DirectMapReaches(t: uint)
    requires t % 4096 == 0 && 0 < t
    ensures DirectMap(KernelView(t)) == Some(t) <==> t < DIRECT_END
    ensures KernelView(DIRECT_END) == 0xE000_0000 && DirectMap(0xE000_0000) == None
  {
    var p := t / 4096;
    assert t == 4096 * p;
    if t < DIRECT_END {
      var v := KernelView(t);
      assert v / 4096 == p + 0xC_0000 && v / 0x40_0000 == p / 1024 + 0x300;
      assert PgdIdx(v) == p / 1024 + 0x300 && PteIdx(v) == p % 1024;
    }
  }

  /**
    Allocate and clear a page table for `slot`.  None when no page can be had (the kernel panics), and when the
    page cannot be reached through the direct map: the code then clears other memory, or faults.
   */
  function AddTable(m: Machine, vm: Vm, slot: nat): Option<Vm>
    requires Wf(vm) && WellSized(vm.buddy.free) && slot < ENTRIES
  {
    match Alloc(vm.buddy, 1)
    case None => None
    case Some(b) =>
      var pg := Head(b.held[|b.held| - 1]);
      if pg >= |vm.ref| || m.At(pg) >= DIRECT_END then None
      else Some(InstallTable(m, vm.(buddy := b), slot, pg))
  }

  /** Page `pg`, cleared, becomes the table of `slot`. */
  function InstallTable(m: Machine, vm: Vm, slot: nat, pg: nat): Vm
    requires slot < |vm.pgd| && pg < |vm.ref| && pg < |vm.va|
  {
    var t := m.At(pg);
    Vm(vm.buddy, vm.pgd[slot := Or(t, TABLE_FLAGS)], vm.tables[t := Zeros()],
       vm.ref[pg := vm.ref[pg] + 1], vm.va[pg := (t + PAGE_OFFSET) % 0x1_0000_0000])
  }

  function EnsureTable(m: Machine, vm: Vm, slot: nat): Option<Vm>
    requires Wf(vm) && WellSized(vm.buddy.free) && slot < ENTRIES
  {
    if TableOf(vm, slot) == 0 then AddTable(m, vm, slot) else Some(vm)
  }

  /** Write one table entry. */
  function SetEntry(vm: Vm, vp: nat, e: nat): Vm
    requires Wf(vm) && vp < VPAGES && TableOf(vm, vp / ENTRIES) != 0
  {
    var t := TableOf(vm, vp / ENTRIES);
    var written: seq<nat> := vm.tables[t][vp % ENTRIES := e];
    vm.(tables := vm.tables[t := written])
  }

  /** `map`; None stands for a panic, or for writing outside `phy_pages` when `p` is no page's start address. */
  function Map(m: Machine, vm: Vm, flags: uint, p: uint, v: uint): Option<Vm>
    requires Wf(vm) && WellSized(vm.buddy.free)
  {
    match EnsureTable(m, vm, PgdIdx(v))
    case None => None
    case Some(vm1) =>
      var id := m.IndexOf(p);
      if !Wf(vm1) || TableOf(vm1, PgdIdx(v)) == 0 || id < 0 || id >= MAX_PG_NUM then None
      else
        Some(Enter(vm1, VPage(v), Or(Mask(p), flags), id, v))
  }

  /** `unmap`; None stands for writing outside `phy_pages` when the entry names no known page. */
  function Unmap(m: Machine, vm: Vm, v: uint): Option<Vm>
    requires Wf(vm)
  {
    var t := TableOf(vm, PgdIdx(v));
    if t == 0 then Some(vm)
    else
      var id := m.IndexOf(Mask(vm.tables[t][PteIdx(v)]));
      if id < 0 || id >= MAX_PG_NUM then None
      else
        Some(Clear(vm, VPage(v), id))
  }

  // ---------- refinement of a finite map ----------

  lemma GetMappingIsLookup(vm: Vm, v: uint)
    requires Wf(vm)
    ensures GetMapping(vm, v) == if VPage(v) in Translation(vm) then Some(Translation(vm)[VPage(v)]) else None
  {
  }

  /** Writing an entry changes that page's entry and no other. */
  lemma SetEntryMeaning(vm: Vm, vp: nat, e: nat)
    requires Wf(vm) && vp < VPAGES && TableOf(vm, vp / ENTRIES) != 0
    ensures Wf(SetEntry(vm, vp, e))
    ensures forall q :: 0 <= q < VPAGES ==> Entry(SetEntry(vm, vp, e), q) == if q == vp then e else Entry(vm, q)
  {
    var vm' := SetEntry(vm, vp, e);
    assert forall i :: 0 <= i < ENTRIES ==> TableOf(vm', i) == TableOf(vm, i);
    assert Wf(vm');
    forall q | 0 <= q < VPAGES ensures Entry(vm', q) == if q == vp then e else Entry(vm, q) {
      if q / ENTRIES == vp / ENTRIES {
        assert q % ENTRIES == vp % ENTRIES ==> q == vp;
      } else {
        assert TableOf(vm, q / ENTRIES) != 0 ==> TableOf(vm, q / ENTRIES) != TableOf(vm, vp / ENTRIES);
      }
    }
  }

  /** A page table put into an empty slot, cleared, leaves every translation as it was. */
  lemma InstallTableMeaning(m: Machine, vm: Vm, slot: nat, pg: nat)
    requires m.Real() && Wf(vm) && slot < ENTRIES && TableOf(vm, slot) == 0 && pg < MAX_PG_NUM && m.At(pg) < DIRECT_END
    requires forall i :: 0 <= i < ENTRIES ==> TableOf(vm, i) != m.At(pg)
    ensures var vm' := InstallTable(m, vm, slot, pg);
            && Wf(vm')
            && (forall i :: 0 <= i < ENTRIES ==> TableOf(vm', i) == if i == slot then m.At(pg) else TableOf(vm, i))
            && (forall q :: 0 <= q < VPAGES ==> Entry(vm', q) == Entry(vm, q))
  {
    var vm', t := InstallTable(m, vm, slot, pg), m.At(pg);
    assert t % 4096 == 0;
    EntryKeepsFrame(t, TABLE_FLAGS);
    assert forall i :: 0 <= i < ENTRIES ==> TableOf(vm', i) == if i == slot then t else TableOf(vm, i);
    hide Mask, InstallTable;
  }

  /** Flags below bit 12 do not disturb the frame address of an entry. */
  lemma EntryKeepsFrame(t: nat, flags: nat)
    requires t % 4096 == 0 && flags < 4096
    ensures Mask(Or(t, flags)) == t && Or(t, flags) == t + flags
  {
    Pow2At17();
    OrIsSum(t, flags, 12);
    hide Or, Pow2;
    DivUnique(t + flags, 4096, t / 4096, flags);
  }

  /** The page the allocator hands out for a page table. */
  function NewPage(vm: Vm): nat
    requires WellSized(vm.buddy.free)
  {
    match Alloc(vm.buddy, 1)
    case None => 0
    case Some(b) => if b.held == [] then 0 else Head(b.held[|b.held| - 1])
  }

  /** Read off the free lists: there is a page for a table, and the code can reach it. */
  predicate TableToBeHad(m: Machine, free: seq<seq<Block>>)
    requires WellSized(free)
  {
    FirstPage(free).Some? && m.At(FirstPage(free).value) < DIRECT_END
  }

  lemma NewPageIsFirst(vm: Vm)
    requires WellSized(vm.buddy.free)
    ensures Alloc(vm.buddy, 1).Some? <==> FirstPage(vm.buddy.free).Some?
    ensures Alloc(vm.buddy, 1).Some? ==> FirstPage(vm.buddy.free) == Some(NewPage(vm))
  {
    OnePageMeaning(vm.buddy);
    hide Alloc, FirstPage, WellSized;
  }

  // ---------- invariant ----------

  ghost predicate Held(vm: Vm, f: nat) {
    f in multiset(Flat(vm.buddy.held))
  }

  /** Virtual pages, outside the static slots, whose entry names frame `f`. */
  ghost function Names(m: Machine, vm: Vm, fixed: set<nat>, f: nat): set<nat>
    requires Wf(vm)
  {
    set vp | 0 <= vp < VPAGES && vp / ENTRIES !in fixed && Entry(vm, vp) != 0 && Mask(Entry(vm, vp)) == m.At(f)
  }

  /** Directory slots, outside the static ones, whose table is frame `f`. */
  ghost function TablesAt(m: Machine, vm: Vm, fixed: set<nat>, f: nat): set<nat>
    requires |vm.pgd| == ENTRIES
  {
    set slot | 0 <= slot < ENTRIES && slot !in fixed && TableOf(vm, slot) == m.At(f)
  }

  /** Reference counts count entries and tables; records of no page are unreferenced. */
  ghost predicate RefsCount(m: Machine, vm: Vm, fixed: set<nat>)
    requires m.Real() && Wf(vm)
  {
    && (forall f :: 0 <= f < m.total ==> vm.ref[f] == |Names(m, vm, fixed, f)| + |TablesAt(m, vm, fixed, f)|)
    && (forall f :: m.total <= f < MAX_PG_NUM ==> vm.ref[f] == 0)
  }

  /** Entries outside the static slots name pages of the machine. */
  ghost predicate EntriesKnown(m: Machine, vm: Vm, fixed: set<nat>)
    requires Wf(vm)
  {
    forall vp :: 0 <= vp < VPAGES && vp / ENTRIES !in fixed && Entry(vm, vp) != 0 ==>
      0 <= m.IndexOf(Mask(Entry(vm, vp))) < m.total && m.At(m.IndexOf(Mask(Entry(vm, vp)))) == Mask(Entry(vm, vp))
  }

  /** Tables of the static slots are not among the allocator's pages; the others are held. */
  ghost predicate TablesPlaced(m: Machine, vm: Vm, fixed: set<nat>)
    requires |vm.pgd| == ENTRIES
  {
    forall slot, f :: 0 <= slot < ENTRIES && 0 <= f < m.total && TableOf(vm, slot) == m.At(f) ==>
      slot !in fixed && Held(vm, f)
  }

  ghost predicate FreeUnreferenced(vm: Vm) {
    forall f: nat :: f in FreePages(vm.buddy.free) ==> f < |vm.ref| && vm.ref[f] == 0
  }

  /**
    The state the kernel's memory is in after any number of allocations, frees, maps and unmaps.
    `fixed` are the directory slots set up at boot (the direct map), whose tables are static.
   */
  ghost predicate VmInv(m: Machine, vm: Vm, fixed: set<nat>) {
    && m.Real() && m.Clear() && Wf(vm) && Sound(vm.buddy, Placed(m.total))
    && RefsCount(m, vm, fixed) && EntriesKnown(m, vm, fixed) && TablesPlaced(m, vm, fixed) && FreeUnreferenced(vm)
  }

  lemma PlacedIsReal(m: Machine, vm: Vm, x: nat)
    requires m.Real() && Inv(vm.buddy, Placed(m.total)) && x in AllPages(vm.buddy)
    ensures x < m.total
  {
    IdsOnce(Placed(m.total), x);
  }

  /** The heart of it: a page on a free list is named by no entry and is no page table. */
  lemma FreePagesUnmapped(m: Machine, vm: Vm, fixed: set<nat>, f: nat)
    requires VmInv(m, vm, fixed) && f in FreePages(vm.buddy.free)
    ensures Names(m, vm, fixed, f) == {} && TablesAt(m, vm, fixed, f) == {}
  {
    PlacedIsReal(m, vm, f);
  }

  // ---------- every operation keeps the invariant ----------

  lemma NewPageIsFree(m: Machine, vm: Vm, fixed: set<nat>)
    requires VmInv(m, vm, fixed) && Alloc(vm.buddy, 1).Some?
    ensures var pg := NewPage(vm);
            && pg in FreePages(vm.buddy.free) && pg < m.total && vm.ref[pg] == 0 && !Held(vm, pg)
            && Names(m, vm, fixed, pg) == {} && TablesAt(m, vm, fixed, pg) == {}
            && (forall i :: 0 <= i < ENTRIES ==> TableOf(vm, i) != m.At(pg))
  {
    var pg, b := NewPage(vm), Alloc(vm.buddy, 1).value;
    AllocTakesFree(vm.buddy, Placed(m.total), 1, pg);
    AllocKeeps(vm.buddy, 1);
    assert IsOrderSize(|b.held[|b.held| - 1]|);
    assert pg in multiset(b.held[|b.held| - 1]);
    InvIsPartition(vm.buddy, Placed(m.total), pg);
    FreePagesUnmapped(m, vm, fixed, pg);
    PlacedIsReal(m, vm, pg);
    FreeIsNoTable(m, vm, fixed, pg);
    hide TablesPlaced, TableOf, AllPages, WellSized, HeldSized, Alloc, RefsCount, EntriesKnown, Names, TablesAt, Wf;
  }

  /** A page nobody holds is no page table, of the static slots or the others. */
  lemma FreeIsNoTable(m: Machine, vm: Vm, fixed: set<nat>, f: nat)
    requires VmInv(m, vm, fixed) && f < m.total && !Held(vm, f)
    ensures forall i :: 0 <= i < ENTRIES ==> TableOf(vm, i) != m.At(f)
  {
    hide RefsCount, EntriesKnown, FreeUnreferenced, Sound, Wf, Held, Mask;
  }

  /** Allocation moves pages from free to held; counts and tables stay as they are. */
  lemma AllocInv(m: Machine, vm: Vm, fixed: set<nat>, n: nat)
    requires VmInv(m, vm, fixed) && Alloc(vm.buddy, n).Some?
    ensures VmInv(m, vm.(buddy := Alloc(vm.buddy, n).value), fixed)
    ensures forall f: nat :: Held(vm, f) ==> Held(vm.(buddy := Alloc(vm.buddy, n).value), f)
  {
    hide AllPages, HeldSized, WellSized, Alloc;
    var vm' := vm.(buddy := Alloc(vm.buddy, n).value);
    AllocKeeps(vm.buddy, n);
    forall f: nat
      ensures Held(vm, f) ==> Held(vm', f)
      ensures f in FreePages(vm'.buddy.free) ==> f in FreePages(vm.buddy.free)
    {
      AllocTakesFree(vm.buddy, Placed(m.total), n, f);
    }
    SameTables(m, vm, vm', fixed);
    SameCounts(m, vm, vm', fixed);
    assert forall i :: 0 <= i < ENTRIES ==> TableOf(vm', i) == TableOf(vm, i);
    hide TableOf, Names, TablesAt, RefsCount, EntriesKnown, Wf;
    assert TablesPlaced(m, vm', fixed);
    assert FreeUnreferenced(vm');
  }

  /** Names, tables and known entries depend on the directory and the tables alone. */
  lemma SameTables(m: Machine, vm: Vm, vm': Vm, fixed: set<nat>)
    requires Wf(vm) && vm'.pgd == vm.pgd && vm'.tables == vm.tables && |vm'.ref| == |vm'.va| == MAX_PG_NUM
    ensures Wf(vm') && forall q :: 0 <= q < VPAGES ==> Entry(vm', q) == Entry(vm, q)
    ensures forall f: nat :: Names(m, vm', fixed, f) == Names(m, vm, fixed, f)
    ensures forall f: nat :: TablesAt(m, vm', fixed, f) == TablesAt(m, vm, fixed, f)
    ensures EntriesKnown(m, vm, fixed) ==> EntriesKnown(m, vm', fixed)
  {
    assert forall i :: 0 <= i < ENTRIES ==> TableOf(vm', i) == TableOf(vm, i);
  }

  lemma InstallTableInv(m: Machine, vm: Vm, fixed: set<nat>, slot: nat, pg: nat)
    requires VmInv(m, vm, fixed) && slot < ENTRIES && slot !in fixed && TableOf(vm, slot) == 0
    requires pg < m.total && m.At(pg) < DIRECT_END && Held(vm, pg)
    requires forall i :: 0 <= i < ENTRIES ==> TableOf(vm, i) != m.At(pg)
    ensures VmInv(m, InstallTable(m, vm, slot, pg), fixed)
  {
    var vm' := InstallTable(m, vm, slot, pg);
    InstallTableMeaning(m, vm, slot, pg);
    InstallRefs(m, vm, slot, pg);
    NotOnFreeList(m, vm, fixed, pg);
    MachineSize(m);
    InstallRefsCount(m, vm, fixed, slot, pg);
    EntriesUnchangedKnown(m, vm, vm', fixed);
    assert |vm'.pgd| == ENTRIES;
    hide InstallTable, Wf, Entry, TableOf, Sound, Mask, EntriesKnown, RefsCount;
    assert TablesPlaced(m, vm', fixed);
  }

  lemma InstallRefsCount(m: Machine, vm: Vm, fixed: set<nat>, slot: nat, pg: nat)
    requires VmInv(m, vm, fixed) && slot < ENTRIES && slot !in fixed && TableOf(vm, slot) == 0
    requires pg < m.total && m.At(pg) < DIRECT_END && forall i :: 0 <= i < ENTRIES ==> TableOf(vm, i) != m.At(pg)
    ensures Wf(InstallTable(m, vm, slot, pg)) && RefsCount(m, InstallTable(m, vm, slot, pg), fixed)
  {
    var vm' := InstallTable(m, vm, slot, pg);
    MachineSize(m);
    InstallTableMeaning(m, vm, slot, pg);
    InstallRefs(m, vm, slot, pg);
    InstallCounts(m, vm, fixed, slot, pg);
    hide InstallTable, Wf, Entry, TableOf, Sound, Mask, Names, TablesAt, EntriesKnown, TablesPlaced, FreeUnreferenced;
    forall f | 0 <= f < m.total ensures vm'.ref[f] == |Names(m, vm', fixed, f)| + |TablesAt(m, vm', fixed, f)| {
      NamesSame(m, vm, vm', fixed, f);
    }
  }

  lemma InstallRefs(m: Machine, vm: Vm, slot: nat, pg: nat)
    requires Wf(vm) && slot < ENTRIES && pg < MAX_PG_NUM
    ensures var vm' := InstallTable(m, vm, slot, pg);
            vm'.buddy == vm.buddy && vm'.ref == vm.ref[pg := vm.ref[pg] + 1]
  {
  }

  lemma NotOnFreeList(m: Machine, vm: Vm, fixed: set<nat>, pg: nat)
    requires VmInv(m, vm, fixed) && Held(vm, pg)
    ensures pg !in FreePages(vm.buddy.free)
  {
    InvIsPartition(vm.buddy, Placed(m.total), pg);
  }

  lemma InstallCounts(m: Machine, vm: Vm, fixed: set<nat>, slot: nat, pg: nat)
    requires m.Real() && Wf(vm) && slot < ENTRIES && slot !in fixed && TableOf(vm, slot) == 0 && pg < MAX_PG_NUM
    requires m.At(pg) < DIRECT_END && forall i :: 0 <= i < ENTRIES ==> TableOf(vm, i) != m.At(pg)
    ensures Wf(InstallTable(m, vm, slot, pg))
    ensures forall f: nat :: |TablesAt(m, InstallTable(m, vm, slot, pg), fixed, f)|
                          == |TablesAt(m, vm, fixed, f)| + if f == pg then 1 else 0
  {
    var vm' := InstallTable(m, vm, slot, pg);
    InstallTableMeaning(m, vm, slot, pg);
    hide InstallTable, Wf, TableOf, TablesAt;
    forall f: nat ensures |TablesAt(m, vm', fixed, f)| == |TablesAt(m, vm, fixed, f)| + if f == pg then 1 else 0 {
      OneMoreTable(m, vm, vm', fixed, slot, pg, f);
    }
  }

  lemma OneMoreTable(m: Machine, vm: Vm, vm': Vm, fixed: set<nat>, slot: nat, pg: nat, f: nat)
    requires m.Real() && |vm.pgd| == |vm'.pgd| == ENTRIES && slot < ENTRIES && slot !in fixed && TableOf(vm, slot) == 0
    requires forall i :: 0 <= i < ENTRIES ==> TableOf(vm, i) != m.At(pg)
    requires forall i :: 0 <= i < ENTRIES ==> TableOf(vm', i) == if i == slot then m.At(pg) else TableOf(vm, i)
    ensures |TablesAt(m, vm', fixed, f)| == |TablesAt(m, vm, fixed, f)| + if f == pg then 1 else 0
  {
    hide TableOf;
    if f == pg {
      assert TablesAt(m, vm', fixed, f) == TablesAt(m, vm, fixed, f) + {slot};
    } else {
      assert m.At(f) != m.At(pg) && m.At(f) != 0;
      assert TablesAt(m, vm', fixed, f) == TablesAt(m, vm, fixed, f);
    }
  }

  /** The part of `map` after the table is there: write the entry, count the reference. */
  function Enter(vm: Vm, vp: nat, e: nat, id: nat, v: nat): Vm
    requires Wf(vm) && vp < VPAGES && TableOf(vm, vp / ENTRIES) != 0 && id < MAX_PG_NUM
  {
    var vm1 := SetEntry(vm, vp, e);
    vm1.(ref := vm1.ref[id := vm1.ref[id] + 1], va := vm1.va[id := v])
  }

  /** The part of `unmap` after the table is found: clear the entry, drop the reference. */
  function Clear(vm: Vm, vp: nat, id: nat): Vm
    requires Wf(vm) && vp < VPAGES && TableOf(vm, vp / ENTRIES) != 0 && id < MAX_PG_NUM
  {
    var vm1 := SetEntry(vm, vp, 0);
    vm1.(ref := vm1.ref[id := if vm1.ref[id] > 0 then vm1.ref[id] - 1 else 0], va := vm1.va[id := 0])
  }

  lemma EntryWritten(vm: Vm, vm': Vm, vp: nat, e: nat)
    requires Wf(vm) && vp < VPAGES && TableOf(vm, vp / ENTRIES) != 0
    requires vm' == SetEntry(vm, vp, e).(ref := vm'.ref, va := vm'.va) && |vm'.ref| == |vm'.va| == MAX_PG_NUM
    ensures Wf(vm') && vm'.buddy == vm.buddy
    ensures forall q :: 0 <= q < VPAGES ==> Entry(vm', q) == if q == vp then e else Entry(vm, q)
    ensures forall i :: 0 <= i < ENTRIES ==> TableOf(vm', i) == TableOf(vm, i)
  {
    SetEntryMeaning(vm, vp, e);
    SameTables(Machine(0, 0, Image(0, 0, 0, 0, 0)), SetEntry(vm, vp, e), vm', {});
  }

  /** One more entry, naming `id`. */
  lemma NamesGrow(m: Machine, vm: Vm, vm': Vm, fixed: set<nat>, vp: nat, id: nat, f: nat)
    requires Wf(vm) && Wf(vm') && vp < VPAGES && vp / ENTRIES !in fixed
    requires forall q :: 0 <= q < VPAGES && q != vp ==> Entry(vm', q) == Entry(vm, q)
    requires Entry(vm, vp) == 0 && Entry(vm', vp) != 0 && Mask(Entry(vm', vp)) == m.At(id)
    ensures |Names(m, vm', fixed, f)| == |Names(m, vm, fixed, f)| + if f == id then 1 else 0
  {
    hide Wf, Entry, Mask;
    if f == id {
      assert Names(m, vm', fixed, f) == Names(m, vm, fixed, f) + {vp};
    } else {
      assert m.At(f) != m.At(id);
      assert Names(m, vm', fixed, f) == Names(m, vm, fixed, f);
    }
  }

  lemma TablesUntouched(m: Machine, vm: Vm, vm': Vm, fixed: set<nat>)
    requires |vm.pgd| == |vm'.pgd| == ENTRIES && vm'.buddy == vm.buddy
    requires forall i :: 0 <= i < ENTRIES ==> TableOf(vm', i) == TableOf(vm, i)
    ensures forall f: nat :: TablesAt(m, vm', fixed, f) == TablesAt(m, vm, fixed, f)
    ensures TablesPlaced(m, vm, fixed) ==> TablesPlaced(m, vm', fixed)
  {
    hide TableOf;
  }

  lemma EntriesStayKnown(m: Machine, vm: Vm, vm': Vm, fixed: set<nat>, vp: nat)
    requires Wf(vm) && Wf(vm') && vp < VPAGES && EntriesKnown(m, vm, fixed)
    requires forall q :: 0 <= q < VPAGES && q != vp ==> Entry(vm', q) == Entry(vm, q)
    requires Entry(vm', vp) != 0 ==>
      0 <= m.IndexOf(Mask(Entry(vm', vp))) < m.total && m.At(m.IndexOf(Mask(Entry(vm', vp)))) == Mask(Entry(vm', vp))
    ensures EntriesKnown(m, vm', fixed)
  {
    hide Wf, Entry, Mask;
  }

  lemma EntriesUnchangedKnown(m: Machine, vm: Vm, vm': Vm, fixed: set<nat>)
    requires Wf(vm) && Wf(vm') && EntriesKnown(m, vm, fixed)
    requires forall q :: 0 <= q < VPAGES ==> Entry(vm', q) == Entry(vm, q)
    ensures EntriesKnown(m, vm', fixed)
  {
    hide Wf, Entry, Mask;
  }

  lemma EnterInv(m: Machine, vm: Vm, fixed: set<nat>, vp: nat, e: nat, id: nat, v: nat)
    requires VmInv(m, vm, fixed) && vp < VPAGES && vp / ENTRIES !in fixed && TableOf(vm, vp / ENTRIES) != 0
    requires Entry(vm, vp) == 0 && e != 0 && id < m.total && Mask(e) == m.At(id) && Held(vm, id)
    ensures VmInv(m, Enter(vm, vp, e, id, v), fixed)
  {
    var vm' := Enter(vm, vp, e, id, v);
    assert vm'.ref == vm.ref[id := vm.ref[id] + 1];
    EntryWritten(vm, vm', vp, e);
    MachineSize(m);
    assert |vm'.pgd| == ENTRIES;
    EntriesStayKnown(m, vm, vm', fixed, vp);
    TablesUntouched(m, vm, vm', fixed);
    NotOnFreeList(m, vm, fixed, id);
    CountsAfterEnter(m, vm, vm', fixed, vp, id);
    hide Enter, Wf, Entry, TableOf, Sound, Mask, EntriesKnown, TablesPlaced, RefsCount;
    assert FreeUnreferenced(vm');
  }

  lemma CountsAfterEnter(m: Machine, vm: Vm, vm': Vm, fixed: set<nat>, vp: nat, id: nat)
    requires m.Real() && Wf(vm) && Wf(vm') && RefsCount(m, vm, fixed) && vp < VPAGES && vp / ENTRIES !in fixed
    requires id < m.total && vm'.ref == vm.ref[id := vm.ref[id] + 1]
    requires forall q :: 0 <= q < VPAGES && q != vp ==> Entry(vm', q) == Entry(vm, q)
    requires Entry(vm, vp) == 0 && Entry(vm', vp) != 0 && Mask(Entry(vm', vp)) == m.At(id)
    requires forall f: nat :: TablesAt(m, vm', fixed, f) == TablesAt(m, vm, fixed, f)
    ensures RefsCount(m, vm', fixed)
  {
    hide Entry, Mask, Names, TablesAt;
    forall f | 0 <= f < m.total ensures vm'.ref[f] == |Names(m, vm', fixed, f)| + |TablesAt(m, vm', fixed, f)| {
      NamesGrow(m, vm, vm', fixed, vp, id, f);
    }
  }

  lemma ClearInv(m: Machine, vm: Vm, fixed: set<nat>, vp: nat, id: nat)
    requires VmInv(m, vm, fixed) && vp < VPAGES && vp / ENTRIES !in fixed && TableOf(vm, vp / ENTRIES) != 0
    requires id == m.IndexOf(Mask(Entry(vm, vp))) && id < MAX_PG_NUM
    ensures VmInv(m, Clear(vm, vp, id), fixed)
  {
    var vm', e := Clear(vm, vp, id), Entry(vm, vp);
    assert vm'.ref == vm.ref[id := if vm.ref[id] > 0 then vm.ref[id] - 1 else 0];
    EntryWritten(vm, vm', vp, 0);
    MachineSize(m);
    assert e == 0 ==> id == m.total;
    assert e != 0 ==> id < m.total && m.At(id) == Mask(e);
    assert |vm'.pgd| == ENTRIES;
    hide Clear, Wf, Entry, TableOf, Sound, Mask, Names, TablesAt, EntriesKnown, TablesPlaced;
    EntriesStayKnown(m, vm, vm', fixed, vp);
    TablesUntouched(m, vm, vm', fixed);
    CountsAfterClear(m, vm, vm', fixed, vp, id);
    hide RefsCount, EntriesKnown;
  }

  lemma CountsAfterClear(m: Machine, vm: Vm, vm': Vm, fixed: set<nat>, vp: nat, id: nat)
    requires m.Real() && Wf(vm) && Wf(vm') && RefsCount(m, vm, fixed) && vp < VPAGES && vp / ENTRIES !in fixed
    requires id < MAX_PG_NUM && vm'.ref == vm.ref[id := if vm.ref[id] > 0 then vm.ref[id] - 1 else 0]
    requires forall q :: 0 <= q < VPAGES ==> Entry(vm', q) == if q == vp then 0 else Entry(vm, q)
    requires if Entry(vm, vp) == 0 then id == m.total else id < m.total && m.At(id) == Mask(Entry(vm, vp))
    requires forall f: nat :: TablesAt(m, vm', fixed, f) == TablesAt(m, vm, fixed, f)
    ensures RefsCount(m, vm', fixed)
  {
    MachineSize(m);
    assert |vm.pgd| == |vm'.pgd| == ENTRIES && |vm.ref| == |vm'.ref| == MAX_PG_NUM;
    hide Wf, Entry, Mask, Names, TablesAt;
    forall f | 0 <= f < m.total ensures vm'.ref[f] == |Names(m, vm', fixed, f)| + |TablesAt(m, vm', fixed, f)| {
      if Entry(vm, vp) != 0 {
        NamesGrow(m, vm', vm, fixed, vp, id, f);
      } else {
        NamesSame(m, vm, vm', fixed, f);
      }
    }
  }

  lemma NamesSame(m: Machine, vm: Vm, vm': Vm, fixed: set<nat>, f: nat)
    requires Wf(vm) && Wf(vm') && forall q :: 0 <= q < VPAGES ==> Entry(vm', q) == Entry(vm, q)
    ensures Names(m, vm', fixed, f) == Names(m, vm, fixed, f)
  {
    hide Wf, Entry, Mask;
  }

  lemma TableIsReferenced(m: Machine, vm: Vm, fixed: set<nat>, slot: nat, f: nat)
    requires VmInv(m, vm, fixed) && slot < ENTRIES && f < m.total && TableOf(vm, slot) == m.At(f)
    ensures vm.ref[f] > 0 && Held(vm, f) && slot !in fixed
  {
    assert slot in TablesAt(m, vm, fixed, f);
  }

  /** A block none of whose pages is referenced can be freed: it holds no mapped page and no table. */
  lemma FreeInv(r: Reading, m: Machine, vm: Vm, fixed: set<nat>, k: nat)
    requires VmInv(m, vm, fixed) && k < |vm.buddy.held|
    requires forall f :: f in vm.buddy.held[k] ==> f < |vm.ref| && vm.ref[f] == 0
    ensures Free(r, m.base, vm.buddy, k).Some?
    ensures VmInv(m, vm.(buddy := Free(r, m.base, vm.buddy, k).value), fixed)
  {
    Pow2At17();
    MachineSize(m);
    FreeSafe(r, m.base, vm.buddy, Placed(m.total), k);
    var vm' := vm.(buddy := Free(r, m.base, vm.buddy, k).value);
    FreeKeepsPlaced(r, m, vm, fixed, k);
    SameTables(m, vm, vm', fixed);
    SameCounts(m, vm, vm', fixed);
  }

  lemma SameCounts(m: Machine, vm: Vm, vm': Vm, fixed: set<nat>)
    requires m.Real() && Wf(vm) && Wf(vm') && vm'.ref == vm.ref && RefsCount(m, vm, fixed)
    requires forall f: nat :: Names(m, vm', fixed, f) == Names(m, vm, fixed, f)
    requires forall f: nat :: TablesAt(m, vm', fixed, f) == TablesAt(m, vm, fixed, f)
    ensures RefsCount(m, vm', fixed)
  {
    hide Wf, Names, TablesAt;
  }

  lemma FreeKeepsPlaced(r: Reading, m: Machine, vm: Vm, fixed: set<nat>, k: nat)
    requires VmInv(m, vm, fixed) && k < |vm.buddy.held| && Placed(m.total) < Pow2(ORDERS)
    requires forall f :: f in vm.buddy.held[k] ==> f < |vm.ref| && vm.ref[f] == 0
    requires Free(r, m.base, vm.buddy, k).Some?
    ensures var vm' := vm.(buddy := Free(r, m.base, vm.buddy, k).value);
            TablesPlaced(m, vm', fixed) && FreeUnreferenced(vm')
  {
    hide Machine.Clear, Machine.Real, RefsCount, EntriesKnown, Entry, Free;
    var vm' := vm.(buddy := Free(r, m.base, vm.buddy, k).value);
    assert forall i :: 0 <= i < ENTRIES ==> TableOf(vm', i) == TableOf(vm, i);
    hide TableOf, TablesPlaced, Sound;
    forall slot, f | 0 <= slot < ENTRIES && 0 <= f < m.total && TableOf(vm', slot) == m.At(f)
      ensures slot !in fixed && Held(vm', f)
    {
      TableIsReferenced(m, vm, fixed, slot, f);
      FreedStays(r, m, vm, fixed, k, f);
    }
    TablesPlacedIntro(m, vm', fixed);
    forall f: nat | f in FreePages(vm'.buddy.free) ensures f < |vm.ref| && vm.ref[f] == 0 {
      FreedStays(r, m, vm, fixed, k, f);
    }
  }

  lemma FreedStays(r: Reading, m: Machine, vm: Vm, fixed: set<nat>, k: nat, f: nat)
    requires Sound(vm.buddy, Placed(m.total)) && k < |vm.buddy.held| && Placed(m.total) < Pow2(ORDERS)
    requires forall g :: g in vm.buddy.held[k] ==> g < |vm.ref| && vm.ref[g] == 0
    requires Free(r, m.base, vm.buddy, k).Some?
    ensures var vm' := vm.(buddy := Free(r, m.base, vm.buddy, k).value);
            && (Held(vm, f) && f < |vm.ref| && vm.ref[f] > 0 ==> Held(vm', f))
            && (f in FreePages(vm'.buddy.free) ==> f in FreePages(vm.buddy.free) || (f < |vm.ref| && vm.ref[f] == 0))
  {
    hide Free, Sound;
    FreeMoves(r, m.base, vm.buddy, Placed(m.total), k, f);
    assert f in multiset(vm.buddy.held[k]) <==> f in vm.buddy.held[k];
  }

  lemma TablesPlacedIntro(m: Machine, vm: Vm, fixed: set<nat>)
    requires |vm.pgd| == ENTRIES
    requires forall slot, f :: 0 <= slot < ENTRIES && 0 <= f < m.total && TableOf(vm, slot) == m.At(f) ==>
               slot !in fixed && Held(vm, f)
    ensures TablesPlaced(m, vm, fixed)
  {
  }

  lemma FreeMoves(r: Reading, base: nat, s: State, placed: nat, k: nat, x: nat)
    requires Sound(s, placed) && placed < Pow2(ORDERS) && k < |s.held|
    ensures Free(r, base, s, k).Some?
    ensures var s' := Free(r, base, s, k).value;
            && FreePages(s'.free)[x] == FreePages(s.free)[x] + multiset(s.held[k])[x]
            && multiset(Flat(s.held))[x] == multiset(Flat(s'.held))[x] + multiset(s.held[k])[x]
  {
    FreeSafe(r, base, s, placed, k);
    IdsOnce(placed, x);
    FreeCount(s, Free(r, base, s, k).value, k, x);
  }

  // ---------- map and unmap ----------

  /** The table for an address is made, if missing, of a page that was free; no translation changes. */
  lemma EnsureTableInv(m: Machine, vm: Vm, fixed: set<nat>, slot: nat)
    requires VmInv(m, vm, fixed) && slot < ENTRIES && slot !in fixed
    ensures EnsureTable(m, vm, slot).Some? <==> TableOf(vm, slot) != 0 || TableToBeHad(m, vm.buddy.free)
    ensures EnsureTable(m, vm, slot).Some? ==>
              var vm1 := EnsureTable(m, vm, slot).value;
              && VmInv(m, vm1, fixed) && TableOf(vm1, slot) != 0
              && (forall q :: 0 <= q < VPAGES ==> Entry(vm1, q) == Entry(vm, q))
              && (forall f: nat :: Held(vm, f) ==> Held(vm1, f))
  {
    NewPageIsFirst(vm);
    if TableOf(vm, slot) == 0 && Alloc(vm.buddy, 1).Some? {
      var vma, pg := vm.(buddy := Alloc(vm.buddy, 1).value), NewPage(vm);
      NewPageIsFree(m, vm, fixed);
      AllocForTable(m, vm, fixed);
      EnsureTableIs(m, vm, slot);
      hide Wf, Entry, TableOf, VmInv, InstallTable, Alloc, Mask, EnsureTable, Held;
      if m.At(pg) < DIRECT_END {
        VmInvGives(m, vma, fixed);
        InstallTableMeaning(m, vma, slot, pg);
        InstallTableInv(m, vma, fixed, slot, pg);
        InstallHeld(m, vma, slot, pg);
        MachineSize(m);
      }
    }
  }

  lemma VmInvGives(m: Machine, vm: Vm, fixed: set<nat>)
    requires VmInv(m, vm, fixed)
    ensures m.Real() && Wf(vm)
  {
  }

  lemma InstallHeld(m: Machine, vm: Vm, slot: nat, pg: nat)
    requires Wf(vm) && slot < ENTRIES && pg < MAX_PG_NUM
    ensures forall f: nat :: Held(vm, f) ==> Held(InstallTable(m, vm, slot, pg), f)
  {
    InstallRefs(m, vm, slot, pg);
    hide InstallTable, Flat;
  }

  /** With a page to be had, the table is that page, if it is within reach. */
  lemma EnsureTableIs(m: Machine, vm: Vm, slot: nat)
    requires Wf(vm) && WellSized(vm.buddy.free) && slot < ENTRIES && TableOf(vm, slot) == 0
    requires Alloc(vm.buddy, 1).Some? && Alloc(vm.buddy, 1).value.held != [] && NewPage(vm) < MAX_PG_NUM
    ensures EnsureTable(m, vm, slot) ==
            if m.At(NewPage(vm)) >= DIRECT_END then None
            else Some(InstallTable(m, vm.(buddy := Alloc(vm.buddy, 1).value), slot, NewPage(vm)))
  {
    hide TableOf, Alloc, InstallTable;
  }

  /** The state between allocating a page for a table and installing it. */
  lemma AllocForTable(m: Machine, vm: Vm, fixed: set<nat>)
    requires VmInv(m, vm, fixed) && Alloc(vm.buddy, 1).Some?
    ensures var vma := vm.(buddy := Alloc(vm.buddy, 1).value);
            && vma.buddy.held != [] && VmInv(m, vma, fixed) && Wf(vma) && Held(vma, NewPage(vm))
            && (forall i :: 0 <= i < ENTRIES ==> TableOf(vma, i) == TableOf(vm, i))
            && (forall q :: 0 <= q < VPAGES ==> Entry(vma, q) == Entry(vm, q))
            && (forall f: nat :: Held(vm, f) ==> Held(vma, f))
  {
    AllocInv(m, vm, fixed, 1);
    NewPageHeld(m, vm, fixed);
    SameTables(m, vm, vm.(buddy := Alloc(vm.buddy, 1).value), fixed);
    hide Alloc, RefsCount, EntriesKnown, TablesPlaced, FreeUnreferenced, Sound;
  }

  lemma NewPageHeld(m: Machine, vm: Vm, fixed: set<nat>)
    requires VmInv(m, vm, fixed) && Alloc(vm.buddy, 1).Some?
    ensures Alloc(vm.buddy, 1).value.held != []
    ensures NewPage(vm) == Head(Alloc(vm.buddy, 1).value.held[|Alloc(vm.buddy, 1).value.held| - 1])
    ensures Held(vm.(buddy := Alloc(vm.buddy, 1).value), NewPage(vm))
  {
    var b, pg := Alloc(vm.buddy, 1).value, NewPage(vm);
    AllocTakesFree(vm.buddy, Placed(m.total), 1, pg);
    AllocKeeps(vm.buddy, 1);
    assert IsOrderSize(|b.held[|b.held| - 1]|);
    assert pg in multiset(b.held[|b.held| - 1]);
  }

  /** A client maps an unmapped address, outside the static slots, to a page it was given. */
  ghost predicate MayMap(m: Machine, vm: Vm, fixed: set<nat>, flags: uint, p: uint, v: uint)
    requires Wf(vm)
  {
    && PgdIdx(v) !in fixed && VPage(v) !in Translation(vm) && flags < 4096
    && 0 <= m.IndexOf(p) < m.total && Held(vm, m.IndexOf(p))
  }

  lemma PageOf(m: Machine, p: nat)
    requires m.Real() && 0 <= m.IndexOf(p) < m.total
    ensures p == m.At(m.IndexOf(p)) && p % 4096 == 0 && Mask(p) == p != 0 && m.IndexOf(p) < MAX_PG_NUM
  {
  }

  lemma MapInv(m: Machine, vm: Vm, fixed: set<nat>, flags: uint, p: uint, v: uint)
    requires VmInv(m, vm, fixed) && MayMap(m, vm, fixed, flags, p, v)
    ensures Map(m, vm, flags, p, v).Some? <==> TableOf(vm, PgdIdx(v)) != 0 || TableToBeHad(m, vm.buddy.free)
    ensures Map(m, vm, flags, p, v).Some? ==> VmInv(m, Map(m, vm, flags, p, v).value, fixed)
  {
    EnsureTableInv(m, vm, fixed, PgdIdx(v));
    MapEnters(m, vm, fixed, flags, p, v);
    hide VmInv, Wf, Entry, EnsureTable, Enter, Or, Map, MayMap, TableToBeHad, FirstPage, WellSized, TableOf;
    if EnsureTable(m, vm, PgdIdx(v)).Some? {
      var vm1 := EnsureTable(m, vm, PgdIdx(v)).value;
      EnterInv(m, vm1, fixed, VPage(v), Or(Mask(p), flags), m.IndexOf(p), v);
    }
  }

  /** Under the clients' discipline `map` is making the table, then entering a page it was given. */
  lemma MapEnters(m: Machine, vm: Vm, fixed: set<nat>, flags: uint, p: uint, v: uint)
    requires VmInv(m, vm, fixed) && MayMap(m, vm, fixed, flags, p, v)
    ensures var id, e := m.IndexOf(p), Or(Mask(p), flags);
            && PgdIdx(v) !in fixed && Entry(vm, VPage(v)) == 0
            && 0 <= id < MAX_PG_NUM && id < m.total && Held(vm, id) && Mask(e) == m.At(id) && e != 0
            && match EnsureTable(m, vm, PgdIdx(v))
               case None => Map(m, vm, flags, p, v) == None
               case Some(vm1) =>
                 Wf(vm1) && TableOf(vm1, PgdIdx(v)) != 0 ==>
                   Map(m, vm, flags, p, v) == Some(Enter(vm1, VPage(v), e, id, v))
  {
    assert Entry(vm, VPage(v)) == 0;
    VmInvGives(m, vm, fixed);
    hide VmInv, Wf, EnsureTable, Enter, Translation, Or;
    PageOf(m, p);
    EntryKeepsFrame(p, flags);
  }

  lemma UnmapInv(m: Machine, vm: Vm, fixed: set<nat>, v: uint)
    requires VmInv(m, vm, fixed) && PgdIdx(v) !in fixed
    ensures Unmap(m, vm, v).Some? && VmInv(m, Unmap(m, vm, v).value, fixed)
  {
    MachineSize(m);
    if TableOf(vm, PgdIdx(v)) != 0 {
      var id := m.IndexOf(Mask(Entry(vm, VPage(v))));
      assert 0 <= id < MAX_PG_NUM;
      ClearInv(m, vm, fixed, VPage(v), id);
    }
  }

  lemma TranslationByEntries(vm: Vm, vm': Vm, vp: nat)
    requires Wf(vm) && Wf(vm') && vp < VPAGES
    requires forall q :: 0 <= q < VPAGES && q != vp ==> Entry(vm', q) == Entry(vm, q)
    ensures Translation(vm') == if Entry(vm', vp) != 0 then Translation(vm)[vp := Mask(Entry(vm', vp))]
                                else Translation(vm) - {vp}
  {
    hide Wf, Entry, Mask;
  }

  /**
    `map` refines adding one pair to the finite map, whatever the flags and whether or not a table had to
    be made: the page gets the frame, no other page's translation changes.
   */
  lemma MapRefines(m: Machine, vm: Vm, fixed: set<nat>, flags: uint, p: uint, v: uint)
    requires VmInv(m, vm, fixed) && Map(m, vm, flags, p, v).Some?
    ensures var vm', e := Map(m, vm, flags, p, v).value, Or(Mask(p), flags);
            && Wf(vm')
            && Translation(vm') == (if e != 0 then Translation(vm)[VPage(v) := Mask(e)]
                                    else Translation(vm) - {VPage(v)})
            && (flags < 4096 ==> Mask(e) == Mask(p) && (e == 0 <==> Mask(p) == 0 && flags == 0))
            && GetMapping(vm', v) == if e != 0 then Some(Mask(e)) else None
  {
    if TableOf(vm, PgdIdx(v)) == 0 { NewPageIsFree(m, vm, fixed); }
    hide TableOf, Map, Translation, Mask, Or, GetMapping, RefsCount, EntriesKnown, TablesPlaced, FreeUnreferenced;
    MapMeaning(m, vm, flags, p, v);
  }

  lemma MapMeaning(m: Machine, vm: Vm, flags: uint, p: uint, v: uint)
    requires m.Real() && Wf(vm) && WellSized(vm.buddy.free) && Map(m, vm, flags, p, v).Some?
    requires TableOf(vm, PgdIdx(v)) == 0 ==> forall i :: 0 <= i < ENTRIES ==> TableOf(vm, i) != m.At(NewPage(vm))
    ensures var vm', e := Map(m, vm, flags, p, v).value, Or(Mask(p), flags);
            && Wf(vm')
            && Translation(vm') == (if e != 0 then Translation(vm)[VPage(v) := Mask(e)]
                                    else Translation(vm) - {VPage(v)})
            && (flags < 4096 ==> Mask(e) == Mask(p) && (e == 0 <==> Mask(p) == 0 && flags == 0))
            && GetMapping(vm', v) == if e != 0 then Some(Mask(e)) else None
  {
    var vm', e := Map(m, vm, flags, p, v).value, Or(Mask(p), flags);
    var vm1 := EnsureTable(m, vm, PgdIdx(v)).value;
    if flags < 4096 { EntryKeepsFrame(Mask(p), flags); }
    EnsureTableMeaning(m, vm, PgdIdx(v));
    EntryWritten(vm1, vm', VPage(v), e);
    GetMappingIsLookup(vm', v);
    hide Wf, Entry, Map, EnsureTable, TableOf, Or, Mask, GetMapping, WellSized;
    TranslationByEntries(vm, vm', VPage(v));
  }

  lemma EnsureTableMeaning(m: Machine, vm: Vm, slot: nat)
    requires m.Real() && Wf(vm) && WellSized(vm.buddy.free) && slot < ENTRIES && EnsureTable(m, vm, slot).Some?
    requires TableOf(vm, slot) == 0 ==> forall i :: 0 <= i < ENTRIES ==> TableOf(vm, i) != m.At(NewPage(vm))
    ensures var vm1 := EnsureTable(m, vm, slot).value;
            Wf(vm1) && TableOf(vm1, slot) != 0 && forall q :: 0 <= q < VPAGES ==> Entry(vm1, q) == Entry(vm, q)
  {
    if TableOf(vm, slot) == 0 {
      var vma := vm.(buddy := Alloc(vm.buddy, 1).value);
      SameTables(m, vm, vma, {});
      assert forall i :: 0 <= i < ENTRIES ==> TableOf(vma, i) == TableOf(vm, i);
      InstallTableMeaning(m, vma, slot, NewPage(vm));
    }
  }

  /** `map` is making the table, then entering. */
  lemma MapMakes(m: Machine, vm: Vm, fixed: set<nat>, flags: uint, p: uint, v: uint)
    requires VmInv(m, vm, fixed)
    ensures var made, id := EnsureTable(m, vm, PgdIdx(v)), m.IndexOf(p);
            && (made == None ==> Map(m, vm, flags, p, v) == None && TableOf(vm, PgdIdx(v)) == 0)
            && (made.Some? ==>
                  && id < MAX_PG_NUM && Wf(made.value) && TableOf(made.value, PgdIdx(v)) != 0
                  && Map(m, vm, flags, p, v) ==
                     if id < 0 then None else Some(Enter(made.value, VPage(v), Or(Mask(p), flags), id, v)))
  {
    MachineSize(m);
    if TableOf(vm, PgdIdx(v)) == 0 && Alloc(vm.buddy, 1).Some? {
      NewPageIsFree(m, vm, fixed);
    }
    if EnsureTable(m, vm, PgdIdx(v)).Some? {
      EnsureTableMeaning(m, vm, PgdIdx(v));
    }
    hide VmInv, Wf, Or, Entry, InstallTable;
  }

  /** `unmap` refines removing the page from the finite map. */
  lemma UnmapRefines(m: Machine, vm: Vm, v: uint)
    requires Wf(vm) && Unmap(m, vm, v).Some?
    ensures Wf(Unmap(m, vm, v).value)
    ensures Translation(Unmap(m, vm, v).value) == Translation(vm) - {VPage(v)}
    ensures GetMapping(Unmap(m, vm, v).value, v) == None
  {
    var vm' := Unmap(m, vm, v).value;
    if TableOf(vm, PgdIdx(v)) != 0 {
      EntryWritten(vm, vm', VPage(v), 0);
      TranslationByEntries(vm, vm', VPage(v));
    } else {
      assert Entry(vm, VPage(v)) == 0;
    }
    GetMappingIsLookup(vm', v);
  }

  /**
    Mapping over a mapped address is where the count goes wrong: the old frame's reference is never
    dropped.  With the frame known and held, the counts stay right exactly when the page was unmapped.
   */
  lemma CountsSurviveIffUnmapped(m: Machine, vm: Vm, fixed: set<nat>, vp: nat, e: nat, id: nat, v: nat)
    requires VmInv(m, vm, fixed) && vp < VPAGES && vp / ENTRIES !in fixed && TableOf(vm, vp / ENTRIES) != 0
    requires e != 0 && id < m.total && Mask(e) == m.At(id) && Held(vm, id)
    ensures Wf(Enter(vm, vp, e, id, v))
    ensures RefsCount(m, Enter(vm, vp, e, id, v), fixed) <==> Entry(vm, vp) == 0
  {
    var vm', e0 := Enter(vm, vp, e, id, v), Entry(vm, vp);
    EntryWritten(vm, vm', vp, e);
    if e0 == 0 {
      EnterInv(m, vm, fixed, vp, e, id, v);
    } else {
      var f := m.IndexOf(Mask(e0));
      assert 0 <= f < m.total && m.At(f) == Mask(e0);
      assert vm'.ref == vm.ref[id := vm.ref[id] + 1];
      MachineSize(m);
      TablesUntouched(m, vm, vm', fixed);
      NamesReplaced(m, vm, vm', fixed, vp, f, id);
      hide Enter, Wf, Entry, TableOf, Mask, TablesAt, Names, EntriesKnown, TablesPlaced, Sound;
      assert vm'.ref[f] != |Names(m, vm', fixed, f)| + |TablesAt(m, vm', fixed, f)|;
    }
  }

  lemma NamesReplaced(m: Machine, vm: Vm, vm': Vm, fixed: set<nat>, vp: nat, f: nat, id: nat)
    requires Wf(vm) && Wf(vm') && vp < VPAGES && vp / ENTRIES !in fixed
    requires forall q :: 0 <= q < VPAGES && q != vp ==> Entry(vm', q) == Entry(vm, q)
    requires Entry(vm, vp) != 0 && Mask(Entry(vm, vp)) == m.At(f)
    requires Entry(vm', vp) != 0 && Mask(Entry(vm', vp)) == m.At(id)
    ensures |Names(m, vm', fixed, f)| == |Names(m, vm, fixed, f)| - if f == id then 0 else 1
  {
    hide Wf, Entry, Mask;
    if f == id {
      assert Names(m, vm', fixed, f) == Names(m, vm, fixed, f);
    } else {
      assert m.At(f) != m.At(id);
      assert Names(m, vm, fixed, f) == Names(m, vm', fixed, f) + {vp};
    }
  }

  // ---------- runs ----------

  datatype VmOp =
    | AllocPages(n: nat)
    | FreeBlock(k: nat)
    | MapPage(flags: uint, p: uint, v: uint)
    | UnmapPage(v: uint)

  /** One kernel call.  Calls outside the clients' discipline are not made; None is a panic. */
  ghost function VmStep(r: Reading, m: Machine, vm: Vm, fixed: set<nat>, op: VmOp): Option<Vm>
    requires Wf(vm) && WellSized(vm.buddy.free)
  {
    match op
    case AllocPages(n) =>
      if Alloc(vm.buddy, n).Some? then Some(vm.(buddy := Alloc(vm.buddy, n).value)) else Some(vm)
    case FreeBlock(k) =>
      if k < |vm.buddy.held| && (forall f :: f in vm.buddy.held[k] ==> f < |vm.ref| && vm.ref[f] == 0)
      then
        (match Free(r, m.base, vm.buddy, k)
         case None => None
         case Some(b) => Some(vm.(buddy := b)))
      else Some(vm)
    case MapPage(flags, p, v) => if MayMap(m, vm, fixed, flags, p, v) then Map(m, vm, flags, p, v) else Some(vm)
    case UnmapPage(v) => if PgdIdx(v) !in fixed then Unmap(m, vm, v) else Some(vm)
  }

  ghost function VmRun(r: Reading, m: Machine, vm: Vm, fixed: set<nat>, ops: seq<VmOp>): Option<Vm>
    requires Wf(vm) && WellSized(vm.buddy.free)
    decreases |ops|
  {
    if ops == [] then Some(vm)
    else match VmStep(r, m, vm, fixed, ops[0])
      case None => None
      case Some(vm') => if Wf(vm') && WellSized(vm'.buddy.free) then VmRun(r, m, vm', fixed, ops[1..]) else None
  }

  /** Each call keeps the invariant; what can fail is making a page table, for want of a page within reach. */
  lemma VmStepInv(r: Reading, m: Machine, vm: Vm, fixed: set<nat>, op: VmOp)
    requires VmInv(m, vm, fixed)
    ensures VmStep(r, m, vm, fixed, op).Some? ==> VmInv(m, VmStep(r, m, vm, fixed, op).value, fixed)
    ensures VmStep(r, m, vm, fixed, op) == None ==>
              op.MapPage? && TableOf(vm, PgdIdx(op.v)) == 0 && !TableToBeHad(m, vm.buddy.free)
  {
    hide RefsCount, EntriesKnown, TablesPlaced, FreeUnreferenced, Wf, AllPages, WellSized, HeldSized, MayMap,
        TableOf, Map, Unmap;
    match op
    case AllocPages(n) =>
      if Alloc(vm.buddy, n).Some? { AllocInv(m, vm, fixed, n); }
    case FreeBlock(k) =>
      if k < |vm.buddy.held| && (forall f :: f in vm.buddy.held[k] ==> f < |vm.ref| && vm.ref[f] == 0) {
        FreeInv(r, m, vm, fixed, k);
      }
    case MapPage(flags, p, v) =>
      if MayMap(m, vm, fixed, flags, p, v) { MapInv(m, vm, fixed, flags, p, v); }
    case UnmapPage(v) =>
      if PgdIdx(v) !in fixed { UnmapInv(m, vm, fixed, v); }
  }

  /**
    Over every run, a page's reference count is the number of entries naming it, plus one if it is a page
    table; so no page on a free list is mapped, and none that an allocation hands out.
   */
  lemma {:induction false} VmRunInv(r: Reading, m: Machine, vm: Vm, fixed: set<nat>, ops: seq<VmOp>, n: nat)
    requires VmInv(m, vm, fixed) && VmRun(r, m, vm, fixed, ops).Some?
    ensures var w := VmRun(r, m, vm, fixed, ops).value;
            && VmInv(m, w, fixed)
            && (forall f: nat :: f in FreePages(w.buddy.free) ==>
                  Names(m, w, fixed, f) == {} && TablesAt(m, w, fixed, f) == {})
            && (Alloc(w.buddy, n).Some? ==>
                  forall f :: f in Alloc(w.buddy, n).value.held[|w.buddy.held|] ==> Names(m, w, fixed, f) == {})
    decreases |ops|
  {
    hide RefsCount, EntriesKnown, TablesPlaced, FreeUnreferenced, AllPages, WellSized, HeldSized, VmStep, Names,
        TablesAt, Alloc;
    if ops == [] {
      forall f: nat | f in FreePages(vm.buddy.free)
        ensures Names(m, vm, fixed, f) == {} && TablesAt(m, vm, fixed, f) == {}
      {
        FreePagesUnmapped(m, vm, fixed, f);
      }
      if Alloc(vm.buddy, n).Some? {
        AllocHeld(vm.buddy, n);
        var b := Alloc(vm.buddy, n).value.held[|vm.buddy.held|];
        forall f | f in b ensures Names(m, vm, fixed, f) == {} {
          AllocTakesFree(vm.buddy, Placed(m.total), n, f);
          assert f in multiset(b);
        }
      }
    } else {
      VmStepInv(r, m, vm, fixed, ops[0]);
      VmRunInv(r, m, VmStep(r, m, vm, fixed, ops[0]).value, fixed, ops[1..], n);
    }
  }

  /**
    After boot: an empty address space outside the direct map, all pages free.  The tables of the slots set up at boot
    are parts of the image, or lie below it.
   */
  lemma BootInv(m: Machine, vm: Vm, fixed: set<nat>)
    requires m.Real() && Wf(vm) && vm.buddy == State(InitFree(m.total), [])
    requires forall slot :: 0 <= slot < ENTRIES && slot !in fixed ==> TableOf(vm, slot) == 0
    requires m.Clear() && forall slot :: 0 <= slot < ENTRIES ==> TableOf(vm, slot) < m.image.BssEnd()
    requires forall f :: 0 <= f < MAX_PG_NUM ==> vm.ref[f] == 0
    ensures VmInv(m, vm, fixed)
  {
    MachineSize(m);
    Pow2At17();
    InitInv(m.total);
    forall f | 0 <= f < m.total ensures Names(m, vm, fixed, f) == {} && TablesAt(m, vm, fixed, f) == {} {
      assert forall vp :: 0 <= vp < VPAGES && vp / ENTRIES !in fixed ==> Entry(vm, vp) == 0;
    }
    forall f: nat | f in FreePages(vm.buddy.free) ensures f < |vm.ref| {
      PlacedIsReal(m, vm, f);
    }
  }

  /** With all pages within reach, a table can be had as long as any page is free. */
  lemma AnyPageWillDo(m: Machine, vm: Vm, fixed: set<nat>)
    requires VmInv(m, vm, fixed)
    ensures TableToBeHad(m, vm.buddy.free) <==>
              FirstPage(vm.buddy.free).Some? && m.At(FirstPage(vm.buddy.free).value) != DIRECT_END
    ensures m.At(m.total - 1) != DIRECT_END ==>
              (TableToBeHad(m, vm.buddy.free) <==> exists i :: 0 <= i < ORDERS && vm.buddy.free[i] != [])
  {
    OnePageMeaning(vm.buddy);
    NewPageIsFirst(vm);
    if Alloc(vm.buddy, 1).Some? {
      NewPageIsFree(m, vm, fixed);
      hide FirstPage, WellSized, Wf, Sound, RefsCount, EntriesKnown, TablesPlaced, FreeUnreferenced, TableOf, Alloc,
          NewPage, FreePages, Names, TablesAt, Held;
      assert m.At(NewPage(vm)) <= m.At(m.total - 1) <= DIRECT_END;
    }
  }

  /**
    The boot scan takes a page that starts at 512 MB, which the direct map does not reach.  On a machine with that
    page, it is the first single page handed out after boot, and the first table cannot be made, exactly when the
    first page starts 12 KB above a multiple of 16 KB.
   */
  lemma LastPageLost(m: Machine, vm: Vm, fixed: set<nat>, flags: uint, p: uint, v: uint)
    requires VmInv(m, vm, fixed) && vm.buddy == State(InitFree(m.total), []) && m.total >= 2
    requires m.At(m.total - 1) == DIRECT_END && PgdIdx(v) !in fixed && TableOf(vm, PgdIdx(v)) == 0
    ensures TableToBeHad(m, vm.buddy.free) <==> m.base % 0x4000 != 0x3000
    ensures Map(m, vm, flags, p, v) == None <==> m.base % 0x4000 == 0x3000 || m.IndexOf(p) < 0
  {
    MachineSize(m);
    FirstIsLast(m, vm, fixed);
    EnsureTableInv(m, vm, fixed, PgdIdx(v));
    VmInvGives(m, vm, fixed);
    if EnsureTable(m, vm, PgdIdx(v)).Some? { VmInvGives(m, EnsureTable(m, vm, PgdIdx(v)).value, fixed); }
    hide FirstPage, VmInv, TableOf, EnsureTable, InitFree, Mask, TableToBeHad, Enter, Wf;
  }

  lemma FirstIsLast(m: Machine, vm: Vm, fixed: set<nat>)
    requires VmInv(m, vm, fixed) && vm.buddy == State(InitFree(m.total), []) && m.total >= 2
    requires m.At(m.total - 1) == DIRECT_END
    ensures TableToBeHad(m, vm.buddy.free) <==> m.base % 0x4000 != 0x3000
  {
    MachineSize(m);
    Pow2At17();
    FirstPageAtBoot(m.total);
    AnyPageWillDo(m, vm, fixed);
    LastOfFour(m);
    hide FirstPage, VmInv, InitFree, Pow2, TableToBeHad;
  }

  lemma LastOfFour(m: Machine)
    requires m.Real() && m.At(m.total - 1) == DIRECT_END
    ensures m.total % 4 == 2 <==> m.base % 0x4000 == 0x3000
    ensures forall i :: m.At(i) == DIRECT_END <==> i == m.total - 1
  {
  }

  // ---------- clearing a new table ----------

  /** The reference counts after the page at `p` is cleared. */
  function CountsCleared(m: Machine, ref: seq<nat>, p: nat): (res: seq<nat>)
    ensures |res| == |ref|
  {
    seq(|ref|, i requires 0 <= i < |ref| => if m.image.CountInside(p, i) then 0 else ref[i])
  }

  /** In every state of a run, clearing a page of the allocator touches neither page records nor static tables. */
  lemma ClearingIsHarmless(m: Machine, vm: Vm, fixed: set<nat>, f: nat)
    requires VmInv(m, vm, fixed) && f < m.total
    ensures CountsCleared(m, vm.ref, m.At(f)) == vm.ref
    ensures !Overlap(m.At(f), 4096, m.image.records, RECORDS) && !Overlap(m.At(f), 4096, m.image.tables, TABLES)
  {
    hide VmInv;
    assert m.Clear() by { VmInvClear(m, vm, fixed); }
    forall i | 0 <= i < |vm.ref| ensures CountsCleared(m, vm.ref, m.At(f))[i] == vm.ref[i] {
      ClearOfRecords(m.image, m.At(f), i);
    }
    ClearOfRecords(m.image, m.At(f), 0);
  }

  lemma VmInvClear(m: Machine, vm: Vm, fixed: set<nat>)
    requires VmInv(m, vm, fixed)
    ensures m.Clear()
  {
  }

  /** A kernel linked as it has to be, within what the entry code maps. */
  function SmallKernel(): Image {
    Image(0x2000, 0x3F_E000, 0x2000, 0x18_0000, 0x48_0000)
  }

  /** The pages the scan takes for it, its image counted in words, when memory ends at 258 MB. */
  function SmallMachine(): Machine {
    var base := ScanBase(AsWritten, SmallKernel());
    Machine(base, ScanTotal(base, 0x1020_0000), SmallKernel())
  }

  lemma SmallMachineIs()
    ensures SmallKernel().Linked() && SmallKernel().End() <= LOW_MAPPED
    ensures SmallMachine() == Machine(0x20_0000, 0x1_0000, SmallKernel())
    ensures SmallMachine().Real() && !SmallMachine().Clear()
  {
  }

  /**
    With the image counted in words clearing does harm: on this machine the seventeenth request for a single page
    gets the first page, all others being held.  Making it a table zeroes the reference counts of pages 21846 to
    22015, whatever they are, and no others.
   */
  lemma TableWipesCounts(r: Reading, ref: seq<nat>)
    requires |ref| == MAX_PG_NUM
    ensures var m, s0 := SmallMachine(), State(InitFree(SmallMachine().total), []);
            && WellSized(s0.free) && Run(r, m.base, s0, Singles(16)).Some?
            && var free := Run(r, m.base, s0, Singles(16)).value.free;
            && WellSized(free) && FirstPage(free) == Some(0) && FreePages(free) == multiset{0}
            && (forall i :: 0 <= i < MAX_PG_NUM ==>
                  CountsCleared(m, ref, m.At(0))[i] == if 21846 <= i < 22016 then 0 else ref[i])
  {
    Pow2At17();
    SmallMachineIs();
    hide SmallMachine, Run, FirstPage, WellSized, InitFree, FreePages, Pow2;
    FirstPageLast(r, 0x20_0000, 16);
  }
}
