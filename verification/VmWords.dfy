/**
  What `map` and `unmap` write, word by word: table entries with their flags, directory entries, and the reference
  count and mapped address of the page records.
 */
module VmWords {
  import opened Bits
  import opened BuddyModel
  import opened Common
  import opened VmModel

  /** The page `map` makes a table of, if it has to make one. */
  function TablePage(vm: Vm, v: uint): Option<nat>
    requires |vm.pgd| == ENTRIES && WellSized(vm.buddy.free)
  {
    if TableOf(vm, PgdIdx(v)) == 0 then FirstPage(vm.buddy.free) else None
  }

  lemma TableMade(m: Machine, vm: Vm, fixed: set<nat>, slot: nat)
    requires VmInv(m, vm, fixed) && slot < ENTRIES && TableOf(vm, slot) == 0 && EnsureTable(m, vm, slot).Some?
    ensures FirstPage(vm.buddy.free) == Some(NewPage(vm)) && NewPage(vm) < m.total && m.At(NewPage(vm)) < DIRECT_END
    ensures Alloc(vm.buddy, 1).Some?
    ensures EnsureTable(m, vm, slot)
         == Some(InstallTable(m, vm.(buddy := Alloc(vm.buddy, 1).value), slot, NewPage(vm)))
  {
    NewPageIsFirst(vm);
    NewPageIsFree(m, vm, fixed);
    NewPageHeld(m, vm, fixed);
    MachineSize(m);
    EnsureTableIs(m, vm, slot);
    hide InstallTable, Alloc, NewPage, FirstPage, RefsCount, EntriesKnown, TablesPlaced, FreeUnreferenced;
  }

  /** Directory, counts and addresses after the table is there, and what the memory of the tables holds. */
  lemma EnsureWrites(m: Machine, vm: Vm, fixed: set<nat>, v: uint)
    requires VmInv(m, vm, fixed) && EnsureTable(m, vm, PgdIdx(v)).Some?
    ensures var vm1, page := EnsureTable(m, vm, PgdIdx(v)).value, TablePage(vm, v);
            && (page.Some? <==> TableOf(vm, PgdIdx(v)) == 0) && (page.Some? ==> page.value < m.total)
            && Wf(vm1) && TableOf(vm1, PgdIdx(v)) != 0
            && (forall q :: 0 <= q < VPAGES ==> Entry(vm1, q) == Entry(vm, q))
            && (forall s :: 0 <= s < ENTRIES ==>
                  vm1.pgd[s] == if page.Some? && s == PgdIdx(v) then m.At(page.value) + 3 else vm.pgd[s])
            && (forall i :: 0 <= i < MAX_PG_NUM ==>
                  && vm1.va[i] == (if page == Some(i) then m.At(i) + 0xC000_0000 else vm.va[i])
                  && vm1.ref[i] == vm.ref[i] + if page == Some(i) then 1 else 0)
            && (page.Some? ==> Alloc(vm.buddy, 1).Some?)
            && vm1.buddy == if page.Some? then Alloc(vm.buddy, 1).value else vm.buddy
  {
    var slot := PgdIdx(v);
    MachineSize(m);
    if TableOf(vm, slot) == 0 {
      NewPageIsFree(m, vm, fixed) by { TableMade(m, vm, fixed, slot); }
      TableMade(m, vm, fixed, slot);
      EntryKeepsFrame(m.At(NewPage(vm)), TABLE_FLAGS);
    }
    EnsureTableMeaning(m, vm, slot);
    hide Alloc, FirstPage, NewPage, Or, Entry, EnsureTable, VmInv;
  }

  /**
    Everything a successful `map` writes.  The entry of the address holds the frame and the flags; the record of the
    page counts one more and carries the address.  If a table had to be made, its directory word is its address, present
    and writable, and its page's record counts one more and carries the address the kernel sees it at.  Every other
    entry, directory word and record is as before.
   */
  lemma MapWrites(m: Machine, vm: Vm, fixed: set<nat>, flags: uint, p: uint, v: uint)
    requires VmInv(m, vm, fixed) && Map(m, vm, flags, p, v).Some? && flags < 4096
    ensures var vm', page, id := Map(m, vm, flags, p, v).value, TablePage(vm, v), m.IndexOf(p);
            && (page.Some? <==> TableOf(vm, PgdIdx(v)) == 0) && (page.Some? ==> page.value < m.total)
            && 0 <= id < MAX_PG_NUM && Wf(vm')
            && Entry(vm', VPage(v)) % 4096 == flags && Entry(vm', VPage(v)) / 4096 == p / 4096
            && (forall q :: 0 <= q < VPAGES && q != VPage(v) ==> Entry(vm', q) == Entry(vm, q))
            && (forall s :: 0 <= s < ENTRIES ==>
                  vm'.pgd[s] == if page.Some? && s == PgdIdx(v) then m.At(page.value) + 3 else vm.pgd[s])
            && (forall i :: 0 <= i < MAX_PG_NUM ==>
                  && vm'.va[i] == (if i == id then v else if page == Some(i) then m.At(i) + 0xC000_0000 else vm.va[i])
                  && vm'.ref[i] == vm.ref[i] + (if i == id then 1 else 0) + (if page == Some(i) then 1 else 0))
  {
    VmInvGives(m, vm, fixed);
    hide VmInv, EnsureTable, Map, TablePage, Wf, Entry, TableOf, Or, Enter, Mask, Machine.IndexOf;
    MapMakes(m, vm, fixed, flags, p, v);
    EnsureWrites(m, vm, fixed, v);
    EnterWrites(EnsureTable(m, vm, PgdIdx(v)).value, VPage(v), Or(Mask(p), flags), m.IndexOf(p), v);
    MaskAligned(p);
    EntryKeepsFrame(Mask(p), flags);
    WordParts(p, flags);
  }

  lemma MaskAligned(p: nat)
    ensures Mask(p) % 4096 == 0
  {
  }

  lemma WordParts(p: nat, flags: nat)
    requires flags < 4096
    ensures (Mask(p) + flags) % 4096 == flags && (Mask(p) + flags) / 4096 == p / 4096
  {
    assert Mask(p) == p / 4096 * 4096;
    DivUnique(Mask(p) + flags, 4096, p / 4096, flags);
  }

  lemma EnterWrites(vm: Vm, vp: nat, e: nat, id: nat, v: nat)
    requires Wf(vm) && vp < VPAGES && TableOf(vm, vp / ENTRIES) != 0 && id < MAX_PG_NUM
    ensures var vm' := Enter(vm, vp, e, id, v);
            && Wf(vm') && vm'.pgd == vm.pgd && vm'.buddy == vm.buddy
            && (forall q :: 0 <= q < VPAGES ==> Entry(vm', q) == if q == vp then e else Entry(vm, q))
            && (forall i :: 0 <= i < MAX_PG_NUM ==>
                  && vm'.va[i] == (if i == id then v else vm.va[i])
                  && vm'.ref[i] == vm.ref[i] + if i == id then 1 else 0)
  {
    EntryWritten(vm, Enter(vm, vp, e, id, v), vp, e);
  }

  /**
    Everything `unmap` writes: with no table nothing; otherwise the address's entry becomes 0, and the record of the
    page it named counts one less and carries no address.  Every other entry, record and directory word is as before.
   */
  lemma UnmapWrites(m: Machine, vm: Vm, v: uint)
    requires m.Real() && Wf(vm) && Unmap(m, vm, v).Some?
    ensures TableOf(vm, PgdIdx(v)) == 0 ==> Unmap(m, vm, v).value == vm
    ensures TableOf(vm, PgdIdx(v)) != 0 ==>
              var vm', id := Unmap(m, vm, v).value, m.IndexOf(Mask(Entry(vm, VPage(v))));
              && 0 <= id < MAX_PG_NUM && Wf(vm') && vm'.pgd == vm.pgd && vm'.buddy == vm.buddy
              && Entry(vm', VPage(v)) == 0
              && (forall q :: 0 <= q < VPAGES && q != VPage(v) ==> Entry(vm', q) == Entry(vm, q))
              && (forall i :: 0 <= i < MAX_PG_NUM ==>
                    && vm'.va[i] == (if i == id then 0 else vm.va[i])
                    && vm'.ref[i] == if i == id && vm.ref[i] > 0 then vm.ref[i] - 1 else vm.ref[i])
  {
    if TableOf(vm, PgdIdx(v)) != 0 {
      EntryWritten(vm, Unmap(m, vm, v).value, VPage(v), 0);
    }
  }

  // ---------- over runs ----------

  /** Directory words of tables made by `map`: present, writable, and nothing else in the low bits. */
  ghost predicate WordsOk(vm: Vm, fixed: set<nat>)
    requires |vm.pgd| == ENTRIES
  {
    forall s :: 0 <= s < ENTRIES && s !in fixed && TableOf(vm, s) != 0 ==> vm.pgd[s] % 4096 == 3
  }

  /** The record of a page used as a table carries the address the kernel sees it at. */
  ghost predicate TablesMarked(m: Machine, vm: Vm, fixed: set<nat>)
    requires |vm.pgd| == ENTRIES && |vm.va| == MAX_PG_NUM
  {
    forall s, f ::
      0 <= s < ENTRIES && s !in fixed && 0 <= f < m.total && f < MAX_PG_NUM && TableOf(vm, s) == m.At(f) ==>
      vm.va[f] == m.At(f) + 0xC000_0000
  }

  /** No table is mapped as a page, outside the boot-time slots. */
  ghost predicate TablesUnnamed(m: Machine, vm: Vm, fixed: set<nat>)
    requires Wf(vm)
  {
    forall s, q ::
      (0 <= s < ENTRIES && 0 <= q < VPAGES && s !in fixed && q / ENTRIES !in fixed && TableOf(vm, s) != 0
       && Entry(vm, q) != 0) ==> Mask(Entry(vm, q)) != TableOf(vm, s)
  }

  /** A page held by a client is not the one a table is made of. */
  lemma NewTablePage(m: Machine, vm: Vm, fixed: set<nat>, v: uint, f: nat)
    requires VmInv(m, vm, fixed) && TablePage(vm, v) == Some(f)
    ensures f < m.total < MAX_PG_NUM && !Held(vm, f) && Names(m, vm, fixed, f) == {} && TablesAt(m, vm, fixed, f) == {}
    ensures m.At(f) % 4096 == 0 && m.At(f) > 0
  {
    MachineSize(m);
    NewPageIsFirst(vm);
    NewPageIsFree(m, vm, fixed);
    hide Alloc, FirstPage, NewPage, Held, Names, TablesAt, RefsCount, EntriesKnown, TablesPlaced, FreeUnreferenced;
  }

  /** Tables after `map`. */
  lemma TablesAfterMap(m: Machine, vm: Vm, fixed: set<nat>, flags: uint, p: uint, v: uint)
    requires VmInv(m, vm, fixed) && Map(m, vm, flags, p, v).Some? && flags < 4096
    ensures var vm', page := Map(m, vm, flags, p, v).value, TablePage(vm, v);
            && |vm'.pgd| == ENTRIES
            && (forall s :: 0 <= s < ENTRIES ==>
                  TableOf(vm', s) == if page.Some? && s == PgdIdx(v) then m.At(page.value) else TableOf(vm, s))
            && (WordsOk(vm, fixed) ==> WordsOk(vm', fixed))
  {
    VmInvGives(m, vm, fixed);
    hide VmInv, Map, TablePage, Entry, Wf, Held, Names, TablesAt;
    MapWrites(m, vm, fixed, flags, p, v);
    var vm', page := Map(m, vm, flags, p, v).value, TablePage(vm, v);
    DirectorySize(vm');
    if page.Some? {
      NewTablePage(m, vm, fixed, v, page.value);
      TableWord(m.At(page.value));
    }
    hide Mask;
  }

  lemma DirectorySize(vm: Vm)
    requires Wf(vm)
    ensures |vm.pgd| == ENTRIES && |vm.va| == MAX_PG_NUM
  {
  }

  lemma TableWord(t: nat)
    requires t % 4096 == 0
    ensures Mask(t + 3) == t && (t + 3) % 4096 == 3
  {
  }

  /**
    Mapping keeps the records of the tables right exactly when the page is not a table itself, or is mapped where
    the kernel sees it anyway.
   */
  lemma MapMarksExactly(m: Machine, vm: Vm, fixed: set<nat>, flags: uint, p: uint, v: uint)
    requires VmInv(m, vm, fixed) && MayMap(m, vm, fixed, flags, p, v) && Map(m, vm, flags, p, v).Some?
    requires TablesMarked(m, vm, fixed)
    ensures Wf(Map(m, vm, flags, p, v).value)
    ensures TablesMarked(m, Map(m, vm, flags, p, v).value, fixed)
       <==> TablesAt(m, vm, fixed, m.IndexOf(p)) == {} || v == p + 0xC000_0000
  {
    var vm', page, id := Map(m, vm, flags, p, v).value, TablePage(vm, v), m.IndexOf(p);
    MapWrites(m, vm, fixed, flags, p, v);
    TablesAfterMap(m, vm, fixed, flags, p, v);
    PageOf(m, p);
    if page.Some? { NewTablePage(m, vm, fixed, v, page.value); }
    MarksAfter(m, vm, vm', fixed, page, PgdIdx(v), id, v) by {
      hide VmInv, Map, TablePage, Entry, Mask, Names;
    }
  }

  lemma MarksAfter(m: Machine, vm: Vm, vm': Vm, fixed: set<nat>, page: Option<nat>, slot: nat, id: nat, v: nat)
    requires |vm.pgd| == |vm'.pgd| == ENTRIES && |vm.va| == |vm'.va| == MAX_PG_NUM && m.total < MAX_PG_NUM
    requires slot !in fixed && id < m.total && page != Some(id) && TablesMarked(m, vm, fixed)
    requires page.Some? ==> page.value < m.total && TablesAt(m, vm, fixed, page.value) == {}
    requires forall s :: 0 <= s < ENTRIES ==>
               TableOf(vm', s) == if page.Some? && s == slot then m.At(page.value) else TableOf(vm, s)
    requires page.Some? ==> slot < ENTRIES && TableOf(vm, slot) == 0 && m.At(id) > 0
    requires forall i :: 0 <= i < MAX_PG_NUM ==>
               vm'.va[i] == if i == id then v else if page == Some(i) then m.At(i) + 0xC000_0000 else vm.va[i]
    ensures TablesMarked(m, vm', fixed) <==> TablesAt(m, vm, fixed, id) == {} || v == m.At(id) + 0xC000_0000
  {
    hide TableOf;
    if TablesAt(m, vm, fixed, id) != {} {
      var s :| s in TablesAt(m, vm, fixed, id);
      assert TableOf(vm', s) == m.At(id);
    }
    forall s, f | 0 <= s < ENTRIES && s !in fixed && 0 <= f < m.total && TableOf(vm', s) == m.At(f)
      ensures f == id || vm'.va[f] == m.At(f) + 0xC000_0000
      ensures f == id ==> s in TablesAt(m, vm, fixed, id)
    {
      if !(page.Some? && s == slot) { assert s in TablesAt(m, vm, fixed, f); }
    }
  }

  /** A page that is no table, mapped: no table is named afterwards either. */
  lemma MapUnnamed(m: Machine, vm: Vm, fixed: set<nat>, flags: uint, p: uint, v: uint)
    requires VmInv(m, vm, fixed) && MayMap(m, vm, fixed, flags, p, v) && Map(m, vm, flags, p, v).Some?
    requires TablesUnnamed(m, vm, fixed) && TablesAt(m, vm, fixed, m.IndexOf(p)) == {}
    ensures Wf(Map(m, vm, flags, p, v).value) && TablesUnnamed(m, Map(m, vm, flags, p, v).value, fixed)
  {
    var vm', page, id := Map(m, vm, flags, p, v).value, TablePage(vm, v), m.IndexOf(p);
    VmInvGives(m, vm, fixed);
    hide VmInv, Map, TablePage, Entry, Wf, TableOf, Translation, Held;
    MapWrites(m, vm, fixed, flags, p, v);
    TablesAfterMap(m, vm, fixed, flags, p, v);
    PageOf(m, p);
    WordParts(p, flags);
    assert Mask(Entry(vm', VPage(v))) == m.At(id);
    if page.Some? { NewTablePage(m, vm, fixed, v, page.value); }
    hide Mask, Machine.IndexOf;
    UnnamedAfter(m, vm, vm', fixed, page, PgdIdx(v), id, VPage(v));
  }

  lemma UnnamedAfter(m: Machine, vm: Vm, vm': Vm, fixed: set<nat>, page: Option<nat>, slot: nat, id: nat, vp: nat)
    requires Wf(vm) && Wf(vm') && TablesUnnamed(m, vm, fixed) && TablesAt(m, vm, fixed, id) == {}
    requires page.Some? ==> Names(m, vm, fixed, page.value) == {} && page.value != id
    requires forall s :: 0 <= s < ENTRIES ==>
               TableOf(vm', s) == if page.Some? && s == slot then m.At(page.value) else TableOf(vm, s)
    requires vp < VPAGES && Mask(Entry(vm', vp)) == m.At(id)
    requires forall q :: 0 <= q < VPAGES && q != vp ==> Entry(vm', q) == Entry(vm, q)
    ensures TablesUnnamed(m, vm', fixed)
  {
    DirectorySize(vm);
    DirectorySize(vm');
    hide Entry, Wf, TableOf, Mask;
    forall s, q | 0 <= s < ENTRIES && 0 <= q < VPAGES && s !in fixed && q / ENTRIES !in fixed && TableOf(vm', s) != 0
        && Entry(vm', q) != 0
      ensures Mask(Entry(vm', q)) != TableOf(vm', s)
    {
      if page.Some? && s == slot {
        assert q != vp ==> q !in Names(m, vm, fixed, page.value);
      } else {
        assert q == vp ==> s !in TablesAt(m, vm, fixed, id);
      }
    }
  }

  /** Unmapping keeps them right exactly when the entry named no table. */
  lemma UnmapMarksExactly(m: Machine, vm: Vm, fixed: set<nat>, v: uint)
    requires VmInv(m, vm, fixed) && PgdIdx(v) !in fixed && TablesMarked(m, vm, fixed)
    ensures Unmap(m, vm, v).Some? && Wf(Unmap(m, vm, v).value)
    ensures TablesMarked(m, Unmap(m, vm, v).value, fixed)
       <==> Entry(vm, VPage(v)) == 0 || TablesAt(m, vm, fixed, m.IndexOf(Mask(Entry(vm, VPage(v))))) == {}
  {
    VmInvGives(m, vm, fixed);
    if Entry(vm, VPage(v)) != 0 { NamedPage(m, vm, fixed, v); }
    if TableOf(vm, PgdIdx(v)) == 0 { NoTableNoEntry(vm, v); }
    hide VmInv, Unmap, Entry, Mask, Machine.IndexOf, TableOf, Wf;
    UnmapInv(m, vm, fixed, v);
    UnmapWrites(m, vm, v);
    MachineSize(m);
    var vm', e := Unmap(m, vm, v).value, Entry(vm, VPage(v));
    DirectorySize(vm);
    if TableOf(vm, PgdIdx(v)) != 0 {
      DirectorySize(vm');
      if e != 0 { ClearedMarks(m, vm, vm', fixed, m.IndexOf(Mask(e))); } else { ZeroEntry(m); }
    }
  }

  lemma NamedPage(m: Machine, vm: Vm, fixed: set<nat>, v: uint)
    requires VmInv(m, vm, fixed) && PgdIdx(v) !in fixed && Entry(vm, VPage(v)) != 0
    ensures var id := m.IndexOf(Mask(Entry(vm, VPage(v)))); 0 <= id < m.total && m.At(id) == Mask(Entry(vm, VPage(v)))
    ensures TableOf(vm, PgdIdx(v)) != 0
  {
  }

  lemma NoTableNoEntry(vm: Vm, v: uint)
    requires Wf(vm) && TableOf(vm, PgdIdx(v)) == 0
    ensures Entry(vm, VPage(v)) == 0
  {
  }

  lemma ZeroEntry(m: Machine)
    requires m.Real()
    ensures m.IndexOf(Mask(0)) == m.total
  {
  }

  lemma ClearedMarks(m: Machine, vm: Vm, vm': Vm, fixed: set<nat>, id: nat)
    requires |vm.pgd| == |vm'.pgd| == ENTRIES && |vm.va| == |vm'.va| == MAX_PG_NUM && vm'.pgd == vm.pgd
    requires id < m.total < MAX_PG_NUM && TablesMarked(m, vm, fixed)
    requires forall i :: 0 <= i < MAX_PG_NUM ==> vm'.va[i] == if i == id then 0 else vm.va[i]
    ensures TablesMarked(m, vm', fixed) <==> TablesAt(m, vm, fixed, id) == {}
  {
    assert forall s :: 0 <= s < ENTRIES ==> TableOf(vm', s) == TableOf(vm, s);
    hide TableOf;
    if TablesAt(m, vm, fixed, id) != {} {
      var s :| s in TablesAt(m, vm, fixed, id);
      assert TableOf(vm', s) == m.At(id) && vm'.va[id] == 0;
    }
    forall s, f | 0 <= s < ENTRIES && s !in fixed && 0 <= f < m.total && TableOf(vm', s) == m.At(f)
      ensures f == id ==> s in TablesAt(m, vm, fixed, id)
    {
    }
  }

  /** What `map` and `unmap` keep of the words and records of page tables. */
  ghost predicate TablesRight(m: Machine, vm: Vm, fixed: set<nat>)
    requires Wf(vm)
  {
    WordsOk(vm, fixed) && TablesMarked(m, vm, fixed) && TablesUnnamed(m, vm, fixed)
  }

  lemma UnmapTables(m: Machine, vm: Vm, fixed: set<nat>, v: uint)
    requires VmInv(m, vm, fixed) && PgdIdx(v) !in fixed && TablesRight(m, vm, fixed)
    ensures Unmap(m, vm, v).Some? && Wf(Unmap(m, vm, v).value) && TablesRight(m, Unmap(m, vm, v).value, fixed)
  {
    UnmapMarksExactly(m, vm, fixed, v);
    VmInvGives(m, vm, fixed);
    UnmapWrites(m, vm, v);
    var vm', e := Unmap(m, vm, v).value, Entry(vm, VPage(v));
    assert forall s :: 0 <= s < ENTRIES ==> TableOf(vm', s) == TableOf(vm, s);
    if e != 0 { NamedIsNoTable(m, vm, fixed, VPage(v)); }
    hide VmInv, Unmap, Entry, Mask, Wf, TableOf, TablesMarked;
    assert TablesUnnamed(m, vm', fixed);
  }

  lemma NamedIsNoTable(m: Machine, vm: Vm, fixed: set<nat>, q: nat)
    requires VmInv(m, vm, fixed) && q < VPAGES && q / ENTRIES !in fixed && Entry(vm, q) != 0
    requires TablesUnnamed(m, vm, fixed)
    ensures TablesAt(m, vm, fixed, m.IndexOf(Mask(Entry(vm, q)))) == {}
  {
    var id := m.IndexOf(Mask(Entry(vm, q)));
    assert 0 <= id < m.total && m.At(id) == Mask(Entry(vm, q)) > 0;
    hide Entry, Mask, TableOf;
  }

  /** The client maps no page table: what it maps is a page it asked for. */
  ghost predicate LeavesTables(m: Machine, vm: Vm, fixed: set<nat>, op: VmOp)
    requires |vm.pgd| == ENTRIES
  {
    op.MapPage? && 0 <= m.IndexOf(op.p) ==> TablesAt(m, vm, fixed, m.IndexOf(op.p)) == {}
  }

  ghost predicate TablesLeftAlone(r: Reading, m: Machine, vm: Vm, fixed: set<nat>, ops: seq<VmOp>)
    requires Wf(vm) && WellSized(vm.buddy.free)
    decreases |ops|
  {
    if ops == [] then true
    else
      LeavesTables(m, vm, fixed, ops[0]) &&
      match VmStep(r, m, vm, fixed, ops[0])
      case None => true
      case Some(vm') => Wf(vm') && WellSized(vm'.buddy.free) ==> TablesLeftAlone(r, m, vm', fixed, ops[1..])
  }

  /** Allocating and freeing touch none of it. */
  lemma SameMemory(m: Machine, vm: Vm, vm': Vm, fixed: set<nat>)
    requires Wf(vm) && vm'.pgd == vm.pgd && vm'.tables == vm.tables && vm'.va == vm.va && |vm'.ref| == MAX_PG_NUM
    ensures Wf(vm') && (WordsOk(vm, fixed) ==> WordsOk(vm', fixed))
    ensures TablesRight(m, vm, fixed) ==> TablesRight(m, vm', fixed)
  {
    SameTables(m, vm, vm', fixed);
    assert forall s :: 0 <= s < ENTRIES ==> TableOf(vm', s) == TableOf(vm, s);
    hide Entry, Mask, TableOf;
  }

  lemma UnmapWords(m: Machine, vm: Vm, fixed: set<nat>, v: uint)
    requires VmInv(m, vm, fixed) && Unmap(m, vm, v).Some?
    ensures |Unmap(m, vm, v).value.pgd| == ENTRIES
    ensures WordsOk(vm, fixed) ==> WordsOk(Unmap(m, vm, v).value, fixed)
  {
    VmInvGives(m, vm, fixed);
    UnmapWrites(m, vm, v);
    assert forall s :: 0 <= s < ENTRIES ==> TableOf(Unmap(m, vm, v).value, s) == TableOf(vm, s);
    hide Unmap, Entry, VmInv;
  }

  lemma MapTables(m: Machine, vm: Vm, fixed: set<nat>, flags: uint, p: uint, v: uint)
    requires VmInv(m, vm, fixed) && MayMap(m, vm, fixed, flags, p, v) && Map(m, vm, flags, p, v).Some?
    ensures Wf(Map(m, vm, flags, p, v).value)
    ensures WordsOk(vm, fixed) ==> WordsOk(Map(m, vm, flags, p, v).value, fixed)
    ensures TablesAt(m, vm, fixed, m.IndexOf(p)) == {} && TablesRight(m, vm, fixed) ==>
              TablesRight(m, Map(m, vm, flags, p, v).value, fixed)
  {
    TablesAfterMap(m, vm, fixed, flags, p, v);
    MapWrites(m, vm, fixed, flags, p, v);
    hide VmInv, Map, TablePage, Entry, TableOf;
    if TablesRight(m, vm, fixed) && TablesAt(m, vm, fixed, m.IndexOf(p)) == {} {
      MapMarksExactly(m, vm, fixed, flags, p, v);
      MapUnnamed(m, vm, fixed, flags, p, v);
    }
  }

  lemma StepTables(r: Reading, m: Machine, vm: Vm, fixed: set<nat>, op: VmOp)
    requires VmInv(m, vm, fixed) && VmStep(r, m, vm, fixed, op).Some?
    ensures Wf(VmStep(r, m, vm, fixed, op).value)
    ensures WordsOk(vm, fixed) ==> WordsOk(VmStep(r, m, vm, fixed, op).value, fixed)
    ensures LeavesTables(m, vm, fixed, op) && TablesRight(m, vm, fixed) ==>
              TablesRight(m, VmStep(r, m, vm, fixed, op).value, fixed)
  {
    VmInvGives(m, vm, fixed);
    hide VmInv, Wf, Map, Unmap, TablesRight, WordsOk, Alloc, Free;
    match op {
      case AllocPages(n) => SameMemory(m, vm, VmStep(r, m, vm, fixed, op).value, fixed);
      case FreeBlock(k) => SameMemory(m, vm, VmStep(r, m, vm, fixed, op).value, fixed);
      case MapPage(flags, p, v) => if MayMap(m, vm, fixed, flags, p, v) { MapTables(m, vm, fixed, flags, p, v); }
      case UnmapPage(v) =>
        if PgdIdx(v) !in fixed {
          UnmapInv(m, vm, fixed, v);
          UnmapWords(m, vm, fixed, v);
          if TablesRight(m, vm, fixed) { UnmapTables(m, vm, fixed, v); }
          UnmapWf(m, vm, fixed, v);
        }
    }
  }

  lemma UnmapWf(m: Machine, vm: Vm, fixed: set<nat>, v: uint)
    requires VmInv(m, vm, fixed) && Unmap(m, vm, v).Some?
    ensures Wf(Unmap(m, vm, v).value)
  {
    UnmapWrites(m, vm, v);
  }

  /**
    Over every run from a state with no table outside the boot-time slots, every directory word there is that of a
    present, writable table; and as long as clients leave the tables alone, the record of each page used as a table
    carries the address the kernel sees it at, and no table is mapped.
   */
  lemma {:induction false} RunTables(r: Reading, m: Machine, vm: Vm, fixed: set<nat>, ops: seq<VmOp>)
    requires VmInv(m, vm, fixed) && VmRun(r, m, vm, fixed, ops).Some? && WordsOk(vm, fixed)
    ensures Wf(VmRun(r, m, vm, fixed, ops).value) && WordsOk(VmRun(r, m, vm, fixed, ops).value, fixed)
    ensures TablesRight(m, vm, fixed) && TablesLeftAlone(r, m, vm, fixed, ops) ==>
              TablesRight(m, VmRun(r, m, vm, fixed, ops).value, fixed)
    decreases |ops|
  {
    VmInvGives(m, vm, fixed);
    hide VmInv, VmStep, TablesRight, WordsOk, LeavesTables, Wf;
    if ops != [] {
      StepTables(r, m, vm, fixed, ops[0]);
      VmStepInv(r, m, vm, fixed, ops[0]);
      RunTables(r, m, VmStep(r, m, vm, fixed, ops[0]).value, fixed, ops[1..]);
    }
  }

  /** Boot leaves nothing to be right about. */
  lemma BootTables(m: Machine, vm: Vm, fixed: set<nat>)
    requires Wf(vm) && forall s :: 0 <= s < ENTRIES && s !in fixed ==> TableOf(vm, s) == 0
    ensures WordsOk(vm, fixed) && (m.Real() ==> TablesRight(m, vm, fixed))
  {
  }
}
