/** A slab's header fields and its index table, updated in place. */
module Slabs {
  import opened Common
  import opened SlabModel
  import opened HeapModel

  lemma EmptyExactly(s: Slab, live: set<nat>)
    requires Inv(s, live)
    ensures s.active == 0 <==> live == {}
    ensures s.active <= |s.freeList|
  {
  }

  class SlabHeader {
    const base: nat
    const pages: nat
    const obj: nat
    const size: nat
    const objNum: nat
    const freeList: array<nat>
    var active: nat
    var refNum: nat
    var next: SlabHeader?
    var prev: SlabHeader?
    ghost var live: set<nat>

    ghost function Abs(): Slab
      reads this, freeList
    {
      Slab(obj, size, objNum, active, freeList[..])
    }

    ghost predicate Valid()
      reads this, freeList
    {
      Inv(Abs(), live)
    }

    /** The slab in its place in the heap. */
    ghost function InPlace(): Cell
      reads this, freeList
    {
      Cell(Place(base, pages, size), Abs(), live)
    }

    /** apply_slab's set-up of the header and the index table at the slab's start. */
    constructor (base: nat, pages: nat, size: nat, objNum: nat)
      requires Fits(NewSlab(base, size, objNum))
      ensures Valid() && InPlace() == Cell(Place(base, pages, size), NewSlab(base, size, objNum), {})
      ensures obj == base + 40 + 2 * objNum && freeList.Length == objNum
      ensures forall j :: 0 <= j < objNum ==> freeList[j] == j % USHORT_RANGE
      ensures refNum == 0 && next == prev == null && fresh(freeList)
    {
      this.base, this.pages, this.size, this.objNum, next, prev := base, pages, size, objNum, null, null;
      obj := base + HEADER + 2 * objNum;
      active, refNum, live := 0, 0, {};
      freeList := new nat[objNum];
      new;
      var i := 0;
      while i < objNum
        invariant 0 <= i <= objNum && active == 0 && live == {} && refNum == 0 && next == prev == null
        invariant forall j :: 0 <= j < i ==> freeList[j] == j % USHORT_RANGE
      {
        freeList[i] := i % USHORT_RANGE;
        i := i + 1;
      }
      assert freeList[..] == IndexEntries(objNum);
      NewInv(base, size, objNum);
    }

    /** The address of a free object, or 0 (NULL) when the slab is full. */
    method GetObj() returns (addr: nat)
      requires Valid()
      modifies this`active, this`refNum, this`live
      ensures Valid()
      ensures match Get(old(Abs()))
              case None => addr == 0 && Abs() == old(Abs()) && live == old(live) && |live| == objNum
              case Some((s, a)) => addr == a && Abs() == s && refNum == (old(refNum) + 1) % UINT_RANGE
                                   && var id := old(freeList[active]);
                                   && id < objNum && id !in old(live) && live == old(live) + {id}
                                   && addr == obj + size * id
    {
      GetInv(Abs(), live);
      if active == objNum {
        return 0;
      }
      var id := freeList[active];
      addr := obj + size * id;
      active := active + 1;
      refNum := (refNum + 1) % UINT_RANGE;
      live := live + {id};
    }

    /**
      Give back the object `addr` lies in; not accepted when `addr` is outside this slab's object area.  An object
      that is not live is given back all the same; with nothing live the code writes before its list (`before`),
      and nothing is promised from there.
     */
    method FreeObj(addr: nat) returns (ok: bool, before: bool)
      requires Valid() && addr < UINT_RANGE && obj < UINT_RANGE
      modifies this`active, this`refNum, this`live, freeList
      ensures ok <==> obj <= addr < obj + objNum * size
      ensures ok <==> Accepts(old(Abs()), addr)
      ensures before <==> ok && old(live) == {}
      ensures !ok ==> Valid() && Abs() == old(Abs()) && live == old(live) && refNum == old(refNum)
      ensures ok && !before ==> Abs() == Put(old(Abs()), addr) && refNum == (old(refNum) + UINT_RANGE - 1) % UINT_RANGE
      ensures ok && IdOf(old(Abs()), addr) in old(live) ==>
                Valid() && !before && live == old(live) - {IdOf(old(Abs()), addr)}
    {
      ghost var s := Abs();
      AcceptsExactly(s, addr);
      var d := (addr + UINT_RANGE - obj % UINT_RANGE) % UINT_RANGE;
      var id := d / size;
      if id >= UINT_RANGE / 2 || id >= objNum {
        return false, false;
      }
      if id in live { PutAddr(s, live, addr); }
      EmptyExactly(s, live);
      hide Inv, Accepts;
      if active == 0 {
        return true, true;
      }
      active := active - 1;
      refNum := (refNum + UINT_RANGE - 1) % UINT_RANGE;
      freeList[active] := id % USHORT_RANGE;
      live := live - {id};
      assert Abs() == Put(s, addr);
      return true, false;
    }
  }
}
