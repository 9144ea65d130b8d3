/**
  How complete coalescing is, with the buddy test and the blend as intended: no two blocks of a list are
  ever left unmerged, and exactly which split blocks come back together.
 */
module BuddyMerging {
  import opened Bits
  import opened BuddyModel
  import opened Common

  lemma {:induction false} XorComm(a: nat, b: nat)
    ensures Xor(a, b) == Xor(b, a)
  {
    if a != 0 && b != 0 {
      XorComm(a / 2, b / 2);
    }
  }

  lemma HalfSum(a: nat, p: nat)
    ensures (a + 2 * p) / 2 == a / 2 + p && (a + 2 * p) % 2 == a % 2
  {
  }

  /** Adding a power of two flips just that bit exactly when the bit was clear. */
  lemma {:induction false} XorSum(a: nat, k: nat)
    ensures Xor(a, a + Pow2(k)) == Pow2(k) <==> Bit(a, k) == 0
    decreases k
  {
    var b := a + Pow2(k);
    if Xor(a, b) == Pow2(k) {
      XorPow2(a, b, k);
    }
    XorHalves(a, b);
    if k == 0 {
      XorZero(a / 2, b / 2);
    } else {
      HalfSum(a, Pow2(k - 1));
      XorSum(a / 2, k - 1);
    }
  }

  predicate Buddies(base: nat, a: Block, b: Block, t: nat) {
    Matches(Intended, base, Head(a), Head(b), t)
  }

  lemma BuddiesComm(base: nat, a: Block, b: Block, t: nat)
    ensures Buddies(base, a, b, t) <==> Buddies(base, b, a, t)
  {
    XorComm(Addr(base, Head(a)), Addr(base, Head(b)));
  }

  /** No two blocks of a list of order `t` could still be merged. */
  predicate Unpaired(base: nat, bs: seq<Block>, t: nat) {
    forall j, k :: 0 <= j < k < |bs| ==> !Buddies(base, bs[j], bs[k], t)
  }

  predicate NoPairs(base: nat, free: seq<seq<Block>>) {
    forall t :: 0 <= t < |free| ==> Unpaired(base, free[t], t)
  }

  /** A search that comes back empty has tested every block. */
  lemma NoneFound(base: nat, bs: seq<Block>, blk: Block, t: nat)
    requires FindBuddy(Intended, base, bs, blk, t) == |bs|
    ensures forall k :: 0 <= k < |bs| ==> !Buddies(base, bs[k], blk, t)
  {
    forall k | 0 <= k < |bs| ensures !Buddies(base, bs[k], blk, t) {
      FindBuddyFirst(Intended, base, bs, blk, t, 0, k);
    }
  }

  lemma {:induction false} AllFailed(base: nat, bs: seq<Block>, blk: Block, t: nat, j: nat)
    requires j <= |bs| && forall k :: j <= k < |bs| ==> !Buddies(base, bs[k], blk, t)
    ensures FindBuddy(Intended, base, bs, blk, t, j) == |bs|
    decreases |bs| - j
  {
    if j < |bs| {
      AllFailed(base, bs, blk, t, j + 1);
    }
  }

  lemma RemoveUnpaired(base: nat, bs: seq<Block>, t: nat, j: nat)
    requires j < |bs| && Unpaired(base, bs, t)
    ensures Unpaired(base, Remove(bs, j), t)
  {
    var rest := Remove(bs, j);
    assert forall k :: 0 <= k < |rest| ==> rest[k] == bs[if k < j then k else k + 1];
    hide Buddies;
  }

  lemma AppendUnpaired(base: nat, bs: seq<Block>, blk: Block, t: nat)
    requires Unpaired(base, bs, t) && forall k :: 0 <= k < |bs| ==> !Buddies(base, bs[k], blk, t)
    ensures Unpaired(base, bs + [blk], t)
  {
    hide Buddies;
  }

  lemma {:induction false} CoalesceNoPairs(base: nat, free: seq<seq<Block>>, blk: Block, t: nat)
    requires |free| == ORDERS && t <= ORDERS && NoPairs(base, free)
    ensures var res := Coalesce(Intended, base, free, blk, t); res.Some? ==> NoPairs(base, res.value)
    decreases ORDERS - t
  {
    if t == ORDERS { return; }
    hide Unpaired;
    var j := FindBuddy(Intended, base, free[t], blk, t);
    if j == |free[t]| {
      NoneFound(base, free[t], blk, t);
      AppendUnpaired(base, free[t], blk, t);
    } else {
      RemoveUnpaired(base, free[t], t, j);
      CoalesceNoPairs(base, free[t := Remove(free[t], j)], Blend(Intended, base, free[t][j], blk, t), t + 1);
    }
  }

  /** A split puts its lower half on an empty list. */
  lemma AllocNoPairs(base: nat, s: State, n: nat)
    requires WellSized(s.free) && NoPairs(base, s.free) && Alloc(s, n).Some?
    ensures NoPairs(base, Alloc(s, n).value.free)
  {
    hide Buddies;
    var i := FitOrder(s.free, n);
    var free' := Alloc(s, n).value.free;
    forall t | 0 <= t < ORDERS ensures Unpaired(base, free'[t], t) {
      assert Unpaired(base, s.free[t], t);
    }
  }

  lemma StepNoPairs(base: nat, s: State, placed: nat, op: Op)
    requires Sound(s, placed) && placed < Pow2(ORDERS) && NoPairs(base, s.free)
    ensures Step(Intended, base, s, op).Some? && NoPairs(base, Step(Intended, base, s, op).value.free)
  {
    StepSafe(Intended, base, s, placed, op);
    hide NoPairs, Alloc, AllPages, HeldSized;
    match op
    case AllocOp(n) =>
      if Alloc(s, n).Some? { AllocNoPairs(base, s, n); }
    case FreeOp(k) =>
      if k < |s.held| { CoalesceNoPairs(base, s.free, s.held[k], Log2(|s.held[k]|)); }
  }

  lemma {:induction false} RunNoPairs(base: nat, s: State, placed: nat, ops: seq<Op>)
    requires Sound(s, placed) && placed < Pow2(ORDERS) && NoPairs(base, s.free)
    ensures Run(Intended, base, s, ops).Some? && Sound(Run(Intended, base, s, ops).value, placed)
    ensures NoPairs(base, Run(Intended, base, s, ops).value.free)
    decreases |ops|
  {
    hide NoPairs, Step, AllPages, HeldSized;
    if ops != [] {
      StepSafe(Intended, base, s, placed, ops[0]);
      StepNoPairs(base, s, placed, ops[0]);
      RunNoPairs(base, Step(Intended, base, s, ops[0]).value, placed, ops[1..]);
    }
  }

  lemma BootNoPairs(base: nat, pages: nat)
    ensures NoPairs(base, InitFree(pages))
  {
    hide Buddies;
  }

  /**
    As intended, coalescing is complete: after any run from boot no list holds two blocks whose start addresses
    differ in bit 12+i alone.
   */
  lemma RunMergesAll(base: nat, pages: nat, ops: seq<Op>, t: nat, j: nat, k: nat)
    requires 1 <= pages < Pow2(ORDERS)
    ensures WellSized(InitFree(pages)) && Run(Intended, base, State(InitFree(pages), []), ops).Some?
    ensures var free := Run(Intended, base, State(InitFree(pages), []), ops).value.free;
            |free| == ORDERS && (t < ORDERS && j < k < |free[t]| ==>
              Xor(Addr(base, Head(free[t][j])), Addr(base, Head(free[t][k]))) != Pow2(12 + t))
  {
    InitInv(pages);
    BootNoPairs(base, pages);
    RunNoPairs(base, State(InitFree(pages), []), Placed(pages), ops);
    hide Run, AllPages, HeldSized, Xor;
    var free := Run(Intended, base, State(InitFree(pages), []), ops).value.free;
    if t < ORDERS && j < k < |free[t]| {
      assert Unpaired(base, free[t], t);
      assert !Buddies(base, free[t][j], free[t][k], t);
    }
  }

  /** The halves of a block pass the buddy test exactly when the halving bit of its start address is clear. */
  lemma HalvesAreBuddies(base: nat, b: Block, i: nat)
    requires i >= 1 && |b| == Pow2(i) && Contiguous(b)
    ensures Buddies(base, b[..Pow2(i - 1)], b[Pow2(i - 1)..], i - 1) <==> Bit(Addr(base, Head(b)), 11 + i) == 0
  {
    var h := Pow2(i - 1);
    assert b[h..][0] == b[h] == b[0] + h && b[..h][0] == b[0];
    AddrOfBlock(base, b[0], b[h], i - 1);
    XorSum(Addr(base, b[0]), 11 + i);
  }

  /** What a split and the release of its upper half leave behind. */
  function Reunited(base: nat, s: State, i: nat): seq<seq<Block>>
    requires 1 <= i < |s.free| && s.free[i] != [] && |s.free[i][0]| == Pow2(i)
  {
    var b, h := s.free[i][0], Pow2(i - 1);
    if Bit(Addr(base, Head(b)), 11 + i) == 0 then s.free[i := s.free[i][1..] + [b]]
    else s.free[i := s.free[i][1..]][i - 1 := [b[..h], b[h..]]]
  }

  /** The lower half alone on its list: the upper half blends with it, or lines up behind it. */
  lemma HalfReturns(base: nat, free: seq<seq<Block>>, b: Block, i: nat)
    requires |free| == ORDERS && 1 <= i < ORDERS && |b| == Pow2(i) && Contiguous(b)
    requires free[i - 1] == [b[..Pow2(i - 1)]] && forall k :: 0 <= k < |free[i]| ==> !Buddies(base, free[i][k], b, i)
    ensures Coalesce(Intended, base, free, b[Pow2(i - 1)..], i - 1) == Some(
              if Bit(Addr(base, Head(b)), 11 + i) == 0 then free[i - 1 := []][i := free[i] + [b]]
              else free[i - 1 := free[i - 1] + [b[Pow2(i - 1)..]]])
  {
    var h := Pow2(i - 1);
    var lo, hi := b[..h], b[h..];
    HalvesAreBuddies(base, b, i);
    assert lo[0] == b[0];
    if Bit(Addr(base, Head(b)), 11 + i) == 0 {
      assert FindBuddy(Intended, base, free[i - 1], hi, i - 1) == 0;
      assert Remove(free[i - 1], 0) == [];
      assert Blend(Intended, base, lo, hi, i - 1) == lo + hi == b;
      AllFailed(base, free[i], b, i, 0);
      assert free[i - 1 := []][i] == free[i];
    } else {
      AllFailed(base, free[i - 1], hi, i - 1, 0);
    }
  }

  /** The two updates of a list in the order the code makes them. */
  lemma UpdatesAgree(free: seq<seq<Block>>, i: nat, rest: seq<Block>, lo: Block, hi: Block, b: Block)
    requires 1 <= i < |free| && free[i - 1] == []
    ensures var split := free[i := rest][i - 1 := [lo]];
            && split[i - 1] == [lo] && split[i] == rest
            && split[i - 1 := []][i := rest + [b]] == free[i := rest + [b]]
            && split[i - 1 := [lo] + [hi]] == free[i := rest][i - 1 := [lo, hi]]
  {
    assert [lo] + [hi] == [lo, hi];
  }

  lemma SplitAlloc(s: State, n: nat)
    requires WellSized(s.free) && Alloc(s, n).Some? && FitOrder(s.free, n) > NeedOrder(n)
    ensures var i := FitOrder(s.free, n);
            && 1 <= i < ORDERS && s.free[i] != [] && |s.free[i][0]| == Pow2(i) && s.free[i - 1] == []
            && Alloc(s, n) == Some(State(s.free[i := s.free[i][1..]][i - 1 := [s.free[i][0][..Pow2(i - 1)]]],
                                         s.held + [s.free[i][0][Pow2(i - 1)..]]))
  {
    var lo := s.free[FitOrder(s.free, n)][0][..Pow2(FitOrder(s.free, n) - 1)];
    assert [] + [lo] == [lo];
  }

  lemma FreeLast(base: nat, s: State, b: Block, t: nat)
    requires |s.free| == ORDERS && t < ORDERS && |b| == Pow2(t)
    ensures var s1 := s.(held := s.held + [b]);
            Free(Intended, base, s1, |s.held|) == match Coalesce(Intended, base, s.free, b, t)
                                                  case None => None
                                                  case Some(free) => Some(State(free, s.held))
  {
    var s1 := s.(held := s.held + [b]);
    Log2OfPow2(t);
    assert Remove(s1.held, |s.held|) == s.held;
  }

  /**
    Allocating by a split and giving the block back, as intended: the block is whole again, at the end of its
    list, when bit 11+i of its start address is clear; otherwise its halves stay apart on the list below.
   */
  lemma SplitReunitesExactly(base: nat, s: State, placed: nat, n: nat)
    requires Sound(s, placed) && placed < Pow2(ORDERS) && AllContiguous(s) && NoPairs(base, s.free)
    requires Alloc(s, n).Some? && FitOrder(s.free, n) > NeedOrder(n)
    ensures var s1 := Alloc(s, n).value;
            && s1.held != [] && Free(Intended, base, s1, |s1.held| - 1)
                             == Some(State(Reunited(base, s, FitOrder(s.free, n)), s.held))
  {
    hide AllPages, HeldSized, Alloc, Free, Coalesce, Buddies;
    var i := FitOrder(s.free, n);
    SplitAlloc(s, n);
    var bs, b, h := s.free[i], s.free[i][0], Pow2(i - 1);
    UpdatesAgree(s.free, i, bs[1..], b[..h], b[h..], b);
    var split := s.free[i := bs[1..]][i - 1 := [b[..h]]];
    assert Unpaired(base, bs, i) && Contiguous(b);
    forall k | 0 <= k < |bs| - 1 ensures !Buddies(base, bs[1..][k], b, i) {
      BuddiesComm(base, bs[k + 1], b, i);
    }
    HalfReturns(base, split, b, i);
    FreeLast(base, State(split, s.held), b[h..], i - 1);
  }

  /** Two pages at boot, one allocated and given back. */
  lemma TwoPagesReturn(base: nat)
    ensures WellSized(InitFree(2)) && |InitFree(2)[1]| == 1 && |InitFree(2)[1][0]| == Pow2(1)
    ensures Run(Intended, base, State(InitFree(2), []), [AllocOp(1), FreeOp(0)])
         == Some(State(Reunited(base, State(InitFree(2), []), 1), []))
  {
    Pow2At17();
    Pow2Monotonic(2, 17);
    var s0 := State(InitFree(2), []);
    InitInv(2);
    BootNoPairs(base, 2);
    TwoPages();
    StepSafe(Intended, base, s0, 2, AllocOp(1));
    hide AllPages, HeldSized, Free, Coalesce, Reunited, NoPairs, AllContiguous, Run;
    SplitAlloc(s0, 1);
    var s1 := Alloc(s0, 1).value;
    SplitReunitesExactly(base, s0, 2, 1);
    StepSafe(Intended, base, s1, 2, FreeOp(0));
    RunTwo(Intended, base, s0, s1, State(Reunited(base, s0, 1), []), AllocOp(1), FreeOp(0));
  }

  /**
    The smallest machine that shows it: of two pages one is allocated and given back.  Both are free again, yet
    a request for two is met exactly when memory starts at a multiple of 8 KB.
   */
  lemma TwoPageMachine(base: nat)
    requires base % 4096 == 0
    ensures WellSized(InitFree(2)) && Run(Intended, base, State(InitFree(2), []), [AllocOp(1), FreeOp(0)]).Some?
    ensures var s := Run(Intended, base, State(InitFree(2), []), [AllocOp(1), FreeOp(0)]).value;
            && WellSized(s.free) && s.held == []
            && (Alloc(s, 2).Some? <==> base % 8192 == 0)
  {
    TwoPagesReturn(base);
    TwoPages();
    PageBit(base);
    hide Run;
    var free := InitFree(2);
    var free' := Reunited(base, State(free, []), 1);
    assert Head([0, 1]) == 0 && Addr(base, 0) == base;
    assert Pow2(1) == 2 && Pow2(0) == 1 && NeedOrder(2) == 1;
    if base % 8192 == 0 {
      assert free' == free[1 := free[1][1..] + [[0, 1]]];
      assert free'[1] == [[0, 1]];
    } else {
      assert free' == free[1 := free[1][1..]][0 := [[0, 1][..1], [0, 1][1..]]];
      EmptyAbove(free', 1);
    }
  }

  lemma {:induction false} EmptyAbove(free: seq<seq<Block>>, i: nat)
    requires i <= |free| && forall j :: i <= j < |free| ==> free[j] == []
    ensures FirstFit(free, i) == |free|
    decreases |free| - i
  {
    if i < |free| { EmptyAbove(free, i + 1); }
  }

  lemma PageBit(base: nat)
    requires base % 4096 == 0
    ensures Bit(base, 12) == 0 <==> base % 8192 == 0
  {
    Pow2At17();
    BitIsDigit(base, 12);
  }

  lemma TwoPages()
    ensures InitFree(2) == seq(ORDERS, i => if i == 1 then [[0, 1]] else [])
    ensures NeedOrder(1) == 0 && FitOrder(InitFree(2), 1) == 1
  {
    var f := InitFree(2);
    forall i | 0 <= i < ORDERS ensures f[i] == if i == 1 then [[0, 1]] else [] {
      if i >= 2 { assert Pow2(2) == 4; Pow2Monotonic(2, i); SmallHasNoBit(2, i); }
      if i == 1 {
        assert Pow2(2) == 4 && ClearLow(2, 2) == 0 && Bit(2, 1) == 1 && Pow2(1) == 2;
        assert Ids(0, 2) == [0, 1];
      }
    }
    assert FirstFit(f, 0) == 1;
  }
}
