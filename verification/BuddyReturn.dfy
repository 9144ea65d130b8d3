/**
  What is left when everything has been given back, with the buddy test and the blend as intended: the lists are
  again those of boot, whatever happened in between, exactly when every boot block starts at an aligned address.
 */
module BuddyReturn {
  import opened Bits
  import opened BuddyModel
  import opened BuddyMerging
  import opened Common

  /** The first page of the block boot puts on list `i`. */
  function Start(n: nat, i: nat): nat {
    ClearLow(n, i + 1)
  }

  /** The bits that coalescing up to a boot block's own order tests are clear in its start address. */
  predicate BootAligned(base: nat, n: nat) {
    forall i, k :: 0 <= k < i < ORDERS && PlacedAt(n, i) ==> TestedBit(Addr(base, Start(n, i)), k) == 0
  }

  /** The bit in which the start addresses of two buddies of order `k` differ. */
  function TestedBit(addr: nat, k: nat): nat {
    Bit(addr, 12 + k)
  }

  // ---------- arithmetic of aligned addresses, bit by bit ----------

  /** The lowest `n` bits are clear. */
  predicate ZeroBits(x: nat, n: nat) {
    n == 0 || (x % 2 == 0 && ZeroBits(x / 2, n - 1))
  }

  /** A multiple of the bytes of a block of order `k`. */
  predicate Aligned(x: nat, k: nat) {
    ZeroBits(x, 12 + k)
  }

  lemma {:induction false} OneMoreBit(x: nat, n: nat)
    ensures ZeroBits(x, n + 1) <==> ZeroBits(x, n) && Bit(x, n) == 0
    decreases n
  {
    if n > 0 { OneMoreBit(x / 2, n - 1); }
  }

  lemma {:induction false} ScaledZero(q: nat, n: nat)
    ensures ZeroBits(Pow2(n) * q, n)
    decreases n
  {
    if n > 0 {
      ScaledZero(q, n - 1);
      DoubleFirst(Pow2(n - 1), q);
    }
  }

  /** Page addresses with the tested bits below `k` clear are aligned. */
  lemma {:induction false} BitsAligned(x: nat, k: nat)
    requires x % 4096 == 0 && forall j :: 0 <= j < k ==> TestedBit(x, j) == 0
    ensures Aligned(x, k)
    decreases k
  {
    if k == 0 {
      Pow2At17();
      ScaledZero(x / 4096, 12);
    } else {
      BitsAligned(x, k - 1);
      assert TestedBit(x, k - 1) == 0;
      OneMoreBit(x, 12 + k - 1);
    }
  }

  /** Two stretches, each aligned to its own size, with a point in common: the larger contains the smaller. */
  lemma {:induction false} Nested(c: nat, b: nat, n: nat, m: nat, x: nat)
    requires n <= m && ZeroBits(c, n) && ZeroBits(b, m) && c <= x < c + Pow2(n) && b <= x < b + Pow2(m)
    ensures b <= c && c + Pow2(n) <= b + Pow2(m)
    decreases n
  {
    if n > 0 { Nested(c / 2, b / 2, n - 1, m - 1, x / 2); }
  }

  /** The end of a larger aligned stretch is aligned too, so it is not the middle of a smaller one. */
  lemma {:induction false} Misfit(a: nat, b: nat, k: nat, i: nat)
    requires k < i && ZeroBits(a, k + 1) && ZeroBits(b, i)
    ensures a + Pow2(k) != b + Pow2(i)
    decreases k
  {
    if k > 0 { Misfit(a / 2, b / 2, k - 1, i - 1); }
  }

  /** The middle of an aligned stretch is aligned to its halves. */
  lemma {:induction false} MiddleAligned(x: nat, n: nat)
    requires n >= 1 && ZeroBits(x, n)
    ensures ZeroBits(x, n - 1) && ZeroBits(x + Pow2(n - 1), n - 1)
    decreases n
  {
    if n > 1 {
      MiddleAligned(x / 2, n - 1);
      assert (x + Pow2(n - 1)) / 2 == x / 2 + Pow2(n - 2);
    }
  }

  /** The halves of an aligned stretch are aligned. */
  lemma HalvesAligned(base: nat, p: nat, k: nat)
    requires k >= 1 && Aligned(Addr(base, p), k)
    ensures Aligned(Addr(base, p), k - 1) && Aligned(Addr(base, p + Pow2(k - 1)), k - 1)
  {
    var x, y := Addr(base, p), Addr(base, p + Pow2(k - 1));
    AddrOfBlock(base, p, p + Pow2(k - 1), k - 1);
    hide Pow2, Addr, ZeroBits;
    MiddleAligned(x, 12 + k);
  }

  // ---------- boot blocks ----------

  /** The 2^k pages from `p` on lie in the block boot puts on list `i`. */
  predicate Within(n: nat, i: nat, p: nat, k: nat) {
    k <= i < ORDERS && PlacedAt(n, i) && Start(n, i) <= p && p + Pow2(k) <= Start(n, i) + Pow2(i)
  }

  /** Boot puts larger blocks at lower addresses, one after the other. */
  lemma LargerFirst(n: nat, i: nat, j: nat)
    requires PlacedAt(n, i) && PlacedAt(n, j) && j < i
    ensures Start(n, i) + Pow2(i) <= Start(n, j)
  {
    ClearLowStep(n, i);
    ClearLowMonotonic(n, j + 1, i);
  }

  /** A stretch lies in one boot block only. */
  lemma OneBootBlock(n: nat, i: nat, j: nat, p: nat, k: nat, q: nat, l: nat, x: nat)
    requires Within(n, i, p, k) && Within(n, j, q, l) && p <= x < p + Pow2(k) && q <= x < q + Pow2(l)
    ensures i == j
  {
    if i < j { LargerFirst(n, j, i); }
    if j < i { LargerFirst(n, i, j); }
  }

  /** All pages of a boot block are placed. */
  lemma BootBlockPlaced(n: nat, i: nat)
    requires PlacedAt(n, i)
    ensures Start(n, i) + Pow2(i) <= Placed(n)
  {
    if n < 2 {
      DivUnique(n, 2, 0, n);
      assert Pow2(1) == 2 && ClearLow(n, 1) == 0;
    } else {
      ClearLowStep(n, i);
      ClearLowMonotonic(n, 1, i);
      assert Pow2(1) == 2 && ClearLow(n, 1) == n - n % 2;
    }
  }

  // ---------- every block is an aligned part of a boot block ----------

  /** A block of order `k`: consecutive pages, aligned to its size, within one boot block. */
  predicate Part(base: nat, n: nat, b: Block, k: nat) {
    && |b| == Pow2(k) && Contiguous(b) && Aligned(Addr(base, b[0]), k)
    && exists i :: 0 <= i < ORDERS && Within(n, i, b[0], k)
  }

  predicate FreeParts(base: nat, n: nat, free: seq<seq<Block>>) {
    |free| == ORDERS && forall i, j :: 0 <= i < ORDERS && 0 <= j < |free[i]| ==> Part(base, n, free[i][j], i)
  }

  predicate HeldParts(base: nat, n: nat, held: seq<Block>) {
    forall h :: 0 <= h < |held| ==> Log2(|held[h]|) < ORDERS && Part(base, n, held[h], Log2(|held[h]|))
  }

  lemma BootParts(base: nat, n: nat)
    requires base % 4096 == 0 && BootAligned(base, n)
    ensures FreeParts(base, n, InitFree(n))
  {
    hide Part, Start, Pow2, BootAligned;
    var free := InitFree(n);
    forall i, j | 0 <= i < ORDERS && 0 <= j < |free[i]| ensures Part(base, n, free[i][j], i) {
      BootListIs(n, i);
      BootPart(base, n, i);
    }
  }

  lemma BootListIs(n: nat, i: nat)
    requires i < ORDERS
    ensures InitFree(n)[i] == if PlacedAt(n, i) then [Ids(Start(n, i), Pow2(i))] else []
  {
  }

  lemma BootPart(base: nat, n: nat, i: nat)
    requires i < ORDERS && PlacedAt(n, i) && base % 4096 == 0 && BootAligned(base, n)
    ensures Part(base, n, Ids(Start(n, i), Pow2(i)), i)
  {
    hide Start, PlacedAt, BootAligned;
    var b := Ids(Start(n, i), Pow2(i));
    assert b[0] == Start(n, i);
    BootStartAligned(base, n, i);
    assert Within(n, i, b[0], i);
  }

  /** Both halves of a part are parts. */
  lemma HalvesAreParts(base: nat, n: nat, lo: Block, hi: Block, k: nat)
    requires |lo| == |hi| == Pow2(k) && Part(base, n, lo + hi, k + 1)
    ensures Part(base, n, lo, k) && Part(base, n, hi, k)
  {
    var b := lo + hi;
    JoinContiguous(lo, hi);
    assert b[0] == lo[0];
    HalvesAligned(base, b[0], k + 1);
    hide Aligned, Contiguous;
    var i :| 0 <= i < ORDERS && Within(n, i, b[0], k + 1);
    assert Within(n, i, lo[0], k) && Within(n, i, hi[0], k);
  }

  /** Two parts that pass the buddy test come from the same boot block. */
  lemma BuddiesWithin(base: nat, n: nat, p: nat, q: nat, k: nat, i: nat, j: nat)
    requires base % 4096 == 0 && BootAligned(base, n) && q == p + Pow2(k)
    requires Aligned(Addr(base, p), k + 1) && Within(n, i, p, k) && Within(n, j, q, k)
    ensures i == j
  {
    if i < j { LargerFirst(n, j, i); assert false; }
    if j < i {
      LargerFirst(n, i, j);
      assert q == Start(n, i) + Pow2(i);
      BootStartAligned(base, n, i);
      AddrOfBlock(base, Start(n, i), q, i);
      AddrOfBlock(base, p, q, k);
      hide BootAligned, ZeroBits, Start, PlacedAt, Pow2, Addr;
      Misfit(Addr(base, p), Addr(base, Start(n, i)), 12 + k, 12 + i);
      assert false;
    }
  }

  lemma BootStartAligned(base: nat, n: nat, i: nat)
    requires base % 4096 == 0 && BootAligned(base, n) && PlacedAt(n, i) && i < ORDERS
    ensures Aligned(Addr(base, Start(n, i)), i)
  {
    hide Start, PlacedAt, TestedBit;
    var x := Addr(base, Start(n, i));
    assert x % 4096 == 0 && forall k :: 0 <= k < i ==> TestedBit(x, k) == 0;
    BitsAligned(x, i);
  }

  /** Two buddies, the one at the lower address first. */
  lemma JoinParts(base: nat, n: nat, a: Block, b: Block, k: nat)
    requires base % 4096 == 0 && BootAligned(base, n) && k < ORDERS && Part(base, n, a, k) && Part(base, n, b, k)
    requires b[0] == a[0] + Pow2(k) && TestedBit(Addr(base, a[0]), k) == 0
    ensures Part(base, n, a + b, k + 1)
  {
    AlignedUp(Addr(base, a[0]), k);
    JoinedWithin(base, n, a[0], b[0], k, k + 1);
    hide BootAligned, Within, Addr, TestedBit, Aligned;
    JoinContiguous(a, b);
    assert (a + b)[0] == a[0];
  }

  lemma AlignedUp(x: nat, k: nat)
    requires Aligned(x, k) && TestedBit(x, k) == 0
    ensures Aligned(x, k + 1)
  {
    OneMoreBit(x, 12 + k);
  }

  lemma JoinedWithin(base: nat, n: nat, p: nat, q: nat, k: nat, l: nat)
    requires l == k + 1 && base % 4096 == 0 && BootAligned(base, n) && q == p + Pow2(k) && Aligned(Addr(base, p), k + 1)
    requires exists i :: 0 <= i < ORDERS && Within(n, i, p, k)
    requires exists j :: 0 <= j < ORDERS && Within(n, j, q, k)
    ensures exists i :: 0 <= i < ORDERS && Within(n, i, p, l)
  {
    hide BootAligned, Within, Addr, Aligned, Pow2;
    var i :| 0 <= i < ORDERS && Within(n, i, p, k);
    var j :| 0 <= j < ORDERS && Within(n, j, q, k);
    BuddiesWithin(base, n, p, q, k, i, j);
    FitsOnce(n, i, p, k);
    assert Within(n, i, p, l);
  }

  lemma FitsOnce(n: nat, i: nat, p: nat, k: nat)
    requires Within(n, i, p, k) && Within(n, i, p + Pow2(k), k)
    ensures Within(n, i, p, k + 1)
  {
    if k == i { assert false; }
  }

  /** Blending two parts that pass the buddy test gives a part. */
  lemma BlendParts(base: nat, n: nat, buddy: Block, blk: Block, k: nat)
    requires base % 4096 == 0 && BootAligned(base, n) && k < ORDERS
    requires Part(base, n, buddy, k) && Part(base, n, blk, k) && Matches(Intended, base, Head(buddy), Head(blk), k)
    ensures Part(base, n, Blend(Intended, base, buddy, blk, k), k + 1)
  {
    var x, y := Addr(base, buddy[0]), Addr(base, blk[0]);
    XorPow2(x, y, 12 + k);
    AddrOfBlock(base, buddy[0], blk[0], k);
    AddrOfBlock(base, blk[0], buddy[0], k);
    hide Part;
    if Bit(x, 12 + k) == 0 { JoinParts(base, n, buddy, blk, k); } else { JoinParts(base, n, blk, buddy, k); }
  }

  lemma {:induction false} CoalesceParts(base: nat, n: nat, free: seq<seq<Block>>, blk: Block, t: nat)
    requires base % 4096 == 0 && BootAligned(base, n) && t <= ORDERS && FreeParts(base, n, free)
    requires t < ORDERS ==> Part(base, n, blk, t)
    ensures var res := Coalesce(Intended, base, free, blk, t); res.Some? ==> FreeParts(base, n, res.value)
    decreases ORDERS - t
  {
    if t == ORDERS { return; }
    hide Part;
    var j := FindBuddy(Intended, base, free[t], blk, t);
    if j < |free[t]| {
      FindBuddyFirst(Intended, base, free[t], blk, t, 0, j);
      BlendParts(base, n, free[t][j], blk, t);
      var rest := free[t := Remove(free[t], j)];
      forall i, k | 0 <= i < ORDERS && 0 <= k < |rest[i]| ensures Part(base, n, rest[i][k], i) {
        if i == t { assert rest[t][k] == free[t][if k < j then k else k + 1]; }
      }
      CoalesceParts(base, n, rest, Blend(Intended, base, free[t][j], blk, t), t + 1);
    }
  }

  lemma RemoveParts(base: nat, n: nat, held: seq<Block>, k: nat)
    requires HeldParts(base, n, held) && k < |held|
    ensures HeldParts(base, n, Remove(held, k))
  {
    hide Part;
    var rest := Remove(held, k);
    forall h | 0 <= h < |rest| ensures Log2(|rest[h]|) < ORDERS && Part(base, n, rest[h], Log2(|rest[h]|)) {
      assert rest[h] == held[if h < k then h else h + 1];
    }
  }

  lemma HoldPart(base: nat, n: nat, held: seq<Block>, b: Block, k: nat)
    requires HeldParts(base, n, held) && k < ORDERS && Part(base, n, b, k)
    ensures HeldParts(base, n, held + [b])
  {
    Log2OfPow2(k);
    assert |b| == Pow2(k);
    hide Part;
  }

  lemma AllocParts(base: nat, n: nat, s: State, m: nat)
    requires WellSized(s.free) && FreeParts(base, n, s.free) && HeldParts(base, n, s.held) && Alloc(s, m).Some?
    ensures FreeParts(base, n, Alloc(s, m).value.free) && HeldParts(base, n, Alloc(s, m).value.held)
  {
    hide Part, HeldParts;
    var i := FitOrder(s.free, m);
    var b := s.free[i][0];
    if i == NeedOrder(m) {
      HoldPart(base, n, s.held, b, i);
    } else {
      assert b == b[..Pow2(i - 1)] + b[Pow2(i - 1)..];
      HalvesAreParts(base, n, b[..Pow2(i - 1)], b[Pow2(i - 1)..], i - 1);
      HoldPart(base, n, s.held, b[Pow2(i - 1)..], i - 1);
    }
  }

  lemma StepParts(base: nat, n: nat, s: State, placed: nat, op: Op)
    requires base % 4096 == 0 && BootAligned(base, n) && Sound(s, placed) && placed < Pow2(ORDERS)
    requires FreeParts(base, n, s.free) && HeldParts(base, n, s.held)
    ensures Step(Intended, base, s, op).Some?
    ensures var s' := Step(Intended, base, s, op).value; FreeParts(base, n, s'.free) && HeldParts(base, n, s'.held)
  {
    StepSafe(Intended, base, s, placed, op);
    hide Part, HeldParts, FreeParts, BootAligned, Alloc, AllPages, HeldSized;
    match op
    case AllocOp(m) =>
      if Alloc(s, m).Some? { AllocParts(base, n, s, m); }
    case FreeOp(k) =>
      if k < |s.held| {
        RemoveParts(base, n, s.held, k);
        HeldPart(base, n, s.held, k);
        CoalesceParts(base, n, s.free, s.held[k], Log2(|s.held[k]|));
      }
  }

  lemma HeldPart(base: nat, n: nat, held: seq<Block>, k: nat)
    requires HeldParts(base, n, held) && k < |held|
    ensures Log2(|held[k]|) < ORDERS && Part(base, n, held[k], Log2(|held[k]|))
  {
  }

  lemma {:induction false} RunParts(base: nat, n: nat, s: State, placed: nat, ops: seq<Op>)
    requires base % 4096 == 0 && BootAligned(base, n) && Sound(s, placed) && placed < Pow2(ORDERS)
    requires FreeParts(base, n, s.free) && HeldParts(base, n, s.held)
    ensures Run(Intended, base, s, ops).Some?
    ensures var s' := Run(Intended, base, s, ops).value; FreeParts(base, n, s'.free) && HeldParts(base, n, s'.held)
    decreases |ops|
  {
    hide Step, AllPages, HeldSized, FreeParts, HeldParts, BootAligned;
    if ops != [] {
      StepSafe(Intended, base, s, placed, ops[0]);
      StepParts(base, n, s, placed, ops[0]);
      RunParts(base, n, Step(Intended, base, s, ops[0]).value, placed, ops[1..]);
    }
  }

  // ---------- where a page is ----------

  lemma {:induction false} InFlat(bs: seq<Block>, x: nat) returns (j: nat)
    requires x in Flat(bs)
    ensures j < |bs| && x in bs[j]
  {
    if x in bs[0] {
      j := 0;
    } else {
      j := InFlat(bs[1..], x);
      j := j + 1;
    }
  }

  lemma {:induction false} InFree(free: seq<seq<Block>>, x: nat) returns (i: nat, j: nat)
    requires x in FreePages(free)
    ensures i < |free| && j < |free[i]| && x in free[i][j]
  {
    if x in multiset(Flat(free[0])) {
      i := 0;
      j := InFlat(free[0], x);
    } else {
      i, j := InFree(free[1..], x);
      i := i + 1;
    }
  }

  lemma {:induction false} FlatCounts(bs: seq<Block>, x: nat, j: nat)
    requires j < |bs| && x in bs[j]
    ensures multiset(Flat(bs))[x] >= 1
  {
    if j > 0 { FlatCounts(bs[1..], x, j - 1); }
    assert multiset(Flat(bs)) == multiset(bs[0]) + multiset(Flat(bs[1..]));
  }

  lemma {:induction false} FlatCountsTwo(bs: seq<Block>, x: nat, j: nat, k: nat)
    requires j < k < |bs| && x in bs[j] && x in bs[k]
    ensures multiset(Flat(bs))[x] >= 2
  {
    if j > 0 { FlatCountsTwo(bs[1..], x, j - 1, k - 1); } else { FlatCounts(bs[1..], x, k - 1); }
    assert multiset(Flat(bs)) == multiset(bs[0]) + multiset(Flat(bs[1..]));
  }

  lemma {:induction false} FreeCounts(free: seq<seq<Block>>, x: nat, i: nat, j: nat)
    requires i < |free| && j < |free[i]| && x in free[i][j]
    ensures FreePages(free)[x] >= 1
  {
    hide Flat;
    if i > 0 { FreeCounts(free[1..], x, i - 1, j); } else { FlatCounts(free[0], x, j); }
  }

  lemma {:induction false} FreeCountsTwo(free: seq<seq<Block>>, x: nat, i: nat, j: nat, a: nat, b: nat)
    requires i <= a < |free| && j < |free[i]| && b < |free[a]| && (i == a ==> j < b)
    requires x in free[i][j] && x in free[a][b]
    ensures FreePages(free)[x] >= 2
  {
    hide Flat;
    if i > 0 {
      FreeCountsTwo(free[1..], x, i - 1, j, a - 1, b);
    } else if a > 0 {
      FlatCounts(free[0], x, j);
      FreeCounts(free[1..], x, a - 1, b);
    } else {
      FlatCountsTwo(free[0], x, j, b);
    }
  }

  /** A page that is free once is in one block. */
  lemma OneBlock(free: seq<seq<Block>>, x: nat, i: nat, j: nat, a: nat, b: nat)
    requires FreePages(free)[x] <= 1 && i < |free| && j < |free[i]| && a < |free| && b < |free[a]|
    requires x in free[i][j] && x in free[a][b]
    ensures i == a && j == b
  {
    if i < a || (i == a && j < b) { FreeCountsTwo(free, x, i, j, a, b); }
    if a < i || (i == a && b < j) { FreeCountsTwo(free, x, a, b, i, j); }
  }

  // ---------- everything given back ----------

  /** All placed pages are free, in aligned parts of boot blocks, no two of which could still be merged. */
  ghost predicate AllBack(base: nat, n: nat, free: seq<seq<Block>>) {
    && FreeParts(base, n, free) && NoPairs(base, free)
    && forall x: nat :: FreePages(free)[x] == if x < Placed(n) then 1 else 0
  }

  lemma InPart(base: nat, n: nat, b: Block, k: nat, x: nat)
    requires Part(base, n, b, k)
    ensures x in b <==> b[0] <= x < b[0] + Pow2(k)
  {
    if b[0] <= x < b[0] + Pow2(k) { assert b[x - b[0]] == x; }
  }

  /** Free block `j` of list `a` contains the 2^k pages from `p` on. */
  predicate Holds(free: seq<seq<Block>>, a: nat, j: nat, p: nat, k: nat) {
    && k <= a < |free| && j < |free[a]| && free[a][j] != []
    && free[a][j][0] <= p && p + Pow2(k) <= free[a][j][0] + Pow2(a)
  }

  /** A free block that holds half of an aligned stretch, and is larger than it, holds all of it. */
  lemma LargerHoldsAll(base: nat, n: nat, free: seq<seq<Block>>, a: nat, j: nat, p: nat, k: nat, x: nat)
    requires FreeParts(base, n, free) && k <= a < ORDERS && j < |free[a]| && x in free[a][j]
    requires Aligned(Addr(base, p), k) && p <= x < p + Pow2(k)
    ensures Holds(free, a, j, p, k)
  {
    var b := free[a][j];
    assert Part(base, n, b, a);
    InPart(base, n, b, a, x);
    AddrOfBlock(base, p, p + Pow2(k), k);
    AddrOfBlock(base, b[0], b[0] + Pow2(a), a);
    hide Part;
    Nested(Addr(base, p), Addr(base, b[0]), 12 + k, 12 + a, Addr(base, x));
  }

  lemma PageHeld(base: nat, n: nat, free: seq<seq<Block>>, i: nat, p: nat) returns (a: nat, j: nat)
    requires AllBack(base, n, free) && Within(n, i, p, 0) && Aligned(Addr(base, p), 0)
    ensures Holds(free, a, j, p, 0)
  {
    hide Part, NoPairs;
    BootBlockPlaced(n, i);
    assert FreePages(free)[p] == 1;
    a, j := InFree(free, p);
    LargerHoldsAll(base, n, free, a, j, p, 0, p);
  }

  /** Every aligned stretch of a boot block lies in one free block: its halves do, and buddies are merged. */
  lemma {:induction false} Covered(base: nat, n: nat, free: seq<seq<Block>>, i: nat, p: nat, k: nat)
      returns (a: nat, j: nat)
    requires base % 4096 == 0 && BootAligned(base, n) && AllBack(base, n, free)
    requires Within(n, i, p, k) && Aligned(Addr(base, p), k)
    ensures Holds(free, a, j, p, k)
    decreases k
  {
    hide Part, NoPairs, BootAligned;
    if k == 0 {
      a, j := PageHeld(base, n, free, i, p);
    } else {
      var h := Pow2(k - 1);
      HalvesAligned(base, p, k);
      a, j := Covered(base, n, free, i, p, k - 1);
      var a', j' := Covered(base, n, free, i, p + h, k - 1);
      BothHalves(base, n, free, p, k, a, j, a', j');
      if a == k - 1 { a, j := a', j'; }
    }
  }

  lemma BothHalves(base: nat, n: nat, free: seq<seq<Block>>, p: nat, k: nat, a: nat, j: nat, a': nat, j': nat)
    requires AllBack(base, n, free) && k >= 1 && Aligned(Addr(base, p), k)
    requires Holds(free, a, j, p, k - 1) && Holds(free, a', j', p + Pow2(k - 1), k - 1)
    ensures if a == k - 1 then Holds(free, a', j', p, k) else Holds(free, a, j, p, k)
  {
    hide Part, NoPairs;
    var h := Pow2(k - 1);
    InPart(base, n, free[a][j], a, p);
    InPart(base, n, free[a'][j'], a', p + h);
    if a >= k {
      LargerHoldsAll(base, n, free, a, j, p, k, p);
    } else if a' >= k {
      LargerHoldsAll(base, n, free, a', j', p, k, p + h);
    } else {
      NeverBuddies(base, free, k - 1, j, j');
      HalvesMatch(base, p, k - 1, free[k - 1][j], free[k - 1][j']);
      assert false;
    }
  }

  /** Two halves of an aligned stretch are buddies. */
  lemma HalvesMatch(base: nat, p: nat, k: nat, b: Block, c: Block)
    requires Aligned(Addr(base, p), k + 1) && Head(b) == p && Head(c) == p + Pow2(k)
    ensures Buddies(base, b, c, k)
  {
    var x := Addr(base, p);
    OneMoreBit(x, 12 + k);
    XorSum(x, 12 + k);
    AddrOfBlock(base, p, p + Pow2(k), k);
  }

  lemma NeverBuddies(base: nat, free: seq<seq<Block>>, k: nat, j: nat, j': nat)
    requires NoPairs(base, free) && k < |free| && j < |free[k]| && j' < |free[k]| && j != j'
    ensures !Buddies(base, free[k][j], free[k][j'], k)
  {
    assert Unpaired(base, free[k], k);
    BuddiesComm(base, free[k][j], free[k][j'], k);
    hide Buddies;
  }

  lemma BootBlockBack(base: nat, n: nat, free: seq<seq<Block>>, i: nat) returns (j: nat)
    requires base % 4096 == 0 && BootAligned(base, n) && AllBack(base, n, free) && i < ORDERS && PlacedAt(n, i)
    ensures j < |free[i]| && free[i][j] == Ids(Start(n, i), Pow2(i))
  {
    BootStartAligned(base, n, i);
    var a;
    a, j := Covered(base, n, free, i, Start(n, i), i);
    var b := free[a][j];
    assert Part(base, n, b, a);
    var m :| 0 <= m < ORDERS && Within(n, m, b[0], a);
    OneBootBlock(n, i, m, Start(n, i), i, b[0], a, Start(n, i));
    if a > i { assert false; }
    WholeBlock(b, Start(n, i), Pow2(i));
  }

  lemma WholeBlock(b: Block, p: nat, k: nat)
    requires k > 0 && |b| == k && Contiguous(b) && b[0] == p
    ensures b == Ids(p, k)
  {
  }

  /** Whatever block is on list `i` is the one boot put there. */
  lemma OnlyBootBlock(base: nat, n: nat, free: seq<seq<Block>>, i: nat, j: nat)
    requires base % 4096 == 0 && BootAligned(base, n) && AllBack(base, n, free) && i < ORDERS && j < |free[i]|
    ensures PlacedAt(n, i) && free[i][j] == Ids(Start(n, i), Pow2(i))
  {
    var m, x := PartOf(base, n, free, i, j);
    hide AllBack, BootAligned, Start, PlacedAt, Pow2;
    var jm := BootBlockBack(base, n, free, m);
    InIds(Start(n, m), Pow2(m), x);
    FreeOnce(base, n, free, x);
    OneBlock(free, x, i, j, m, jm);
  }

  /** The boot block a free block is part of, and a page of both. */
  lemma PartOf(base: nat, n: nat, free: seq<seq<Block>>, i: nat, j: nat) returns (m: nat, x: nat)
    requires AllBack(base, n, free) && i < ORDERS && j < |free[i]|
    ensures |free| == ORDERS && m < ORDERS && PlacedAt(n, m) && x in free[i][j]
    ensures Start(n, m) <= x < Start(n, m) + Pow2(m)
  {
    var b := free[i][j];
    assert Part(base, n, b, i);
    x := b[0];
    m :| 0 <= m < ORDERS && Within(n, m, b[0], i);
  }

  lemma InIds(lo: nat, k: nat, x: nat)
    requires lo <= x < lo + k
    ensures x in Ids(lo, k)
  {
    assert Ids(lo, k)[x - lo] == x;
  }

  lemma FreeOnce(base: nat, n: nat, free: seq<seq<Block>>, x: nat)
    requires AllBack(base, n, free)
    ensures FreePages(free)[x] <= 1 && |free| == ORDERS
  {
  }

  lemma BackIsBoot(base: nat, n: nat, free: seq<seq<Block>>)
    requires base % 4096 == 0 && BootAligned(base, n) && AllBack(base, n, free)
    ensures free == InitFree(n)
  {
    hide AllBack, BootAligned, Start, PlacedAt, Pow2;
    FreeOnce(base, n, free, 0);
    forall i | 0 <= i < ORDERS ensures free[i] == InitFree(n)[i] {
      BootListIs(n, i);
      if free[i] != [] {
        OnlyBootBlock(base, n, free, i, 0);
        if |free[i]| > 1 {
          OnlyBootBlock(base, n, free, i, 1);
          InIds(Start(n, i), Pow2(i), Start(n, i));
          FreeOnce(base, n, free, Start(n, i));
          OneBlock(free, Start(n, i), i, 0, i, 1);
        }
      } else if PlacedAt(n, i) {
        var j := BootBlockBack(base, n, free, i);
      }
    }
  }

  /**
    Aligned boot blocks come back: after any run from boot that ends with nothing held, the free lists are exactly
    those of boot, however the blocks were cut up in between.
   */
  lemma AllReturns(base: nat, n: nat, ops: seq<Op>)
    requires n < Pow2(ORDERS) && base % 4096 == 0 && BootAligned(base, n)
    ensures WellSized(InitFree(n)) && Run(Intended, base, State(InitFree(n), []), ops).Some?
    ensures var s := Run(Intended, base, State(InitFree(n), []), ops).value; s.held == [] ==> s.free == InitFree(n)
  {
    var s0 := State(InitFree(n), []);
    InitInv(n);
    RunSafe(Intended, base, s0, Placed(n), ops);
    BootNoPairs(base, n);
    BootParts(base, n);
    hide Run, InitFree, NoPairs, FreeParts, BootAligned, Pow2, Placed;
    RunNoPairs(base, s0, Placed(n), ops);
    RunParts(base, n, s0, Placed(n), ops);
    var s := Run(Intended, base, s0, ops).value;
    if s.held == [] { AllIsBack(base, n, s); }
  }

  lemma AllIsBack(base: nat, n: nat, s: State)
    requires base % 4096 == 0 && BootAligned(base, n) && Inv(s, Placed(n)) && s.held == []
    requires FreeParts(base, n, s.free) && NoPairs(base, s.free)
    ensures s.free == InitFree(n)
  {
    hide InitFree, NoPairs, FreeParts, BootAligned, Pow2, Placed;
    forall x: nat ensures FreePages(s.free)[x] == if x < Placed(n) then 1 else 0 { InvIsPartition(s, Placed(n), x); }
    BackIsBoot(base, n, s.free);
  }

  // ---------- a boot block that does not come back ----------

  predicate Above(bs: seq<Block>, start: nat) {
    forall j :: 0 <= j < |bs| ==> Head(bs[j]) >= start
  }

  lemma {:induction false} RunAppend(base: nat, s: State, a: seq<Op>, b: seq<Op>)
    requires WellSized(s.free) && Run(Intended, base, s, a).Some? && WellSized(Run(Intended, base, s, a).value.free)
    ensures Run(Intended, base, s, a + b) == Run(Intended, base, Run(Intended, base, s, a).value, b)
    decreases |a|
  {
    hide Step, WellSized;
    if a == [] {
      assert a + b == b;
    } else {
      assert (a + b)[0] == a[0] && (a + b)[1..] == a[1..] + b;
      RunAppend(base, Step(Intended, base, s, a[0]).value, a[1..], b);
    }
  }

  lemma RunStep(base: nat, s: State, s1: State, op: Op, rest: seq<Op>)
    requires WellSized(s.free) && WellSized(s1.free) && Step(Intended, base, s, op) == Some(s1)
    ensures Run(Intended, base, s, [op] + rest) == Run(Intended, base, s1, rest)
  {
    assert ([op] + rest)[0] == op && ([op] + rest)[1..] == rest;
    hide Step;
  }

  /** Lists below `j` are empty, those from `j` on as at boot; what is held lies behind where boot block `i` starts. */
  predicate Lower(s: State, n: nat, i: nat, j: nat) {
    && WellSized(s.free) && j <= i < ORDERS && PlacedAt(n, i) && Above(s.held, Start(n, i))
    && forall t :: 0 <= t < ORDERS ==> s.free[t] == if t < j then [] else InitFree(n)[t]
  }

  lemma ExactNeed(k: nat)
    ensures NeedOrder(Pow2(k)) == k
  {
    Log2OfPow2(k);
  }

  lemma TakeLowest(s: State, n: nat, i: nat, j: nat)
    requires Lower(s, n, i, j) && j < i
    ensures if PlacedAt(n, j) then Alloc(s, Pow2(j)).Some? && Lower(Alloc(s, Pow2(j)).value, n, i, j + 1)
            else Lower(s, n, i, j + 1)
  {
    BootListIs(n, j);
    if PlacedAt(n, j) {
      ExactNeed(j);
      LargerFirst(n, i, j);
      TakeFirstShape(s, j);
      hide Start, PlacedAt, Pow2, NeedOrder, WellSized;
      assert Alloc(s, Pow2(j)) == Some(TakeFirst(s, j));
      assert s.free[j][0] == Ids(Start(n, j), Pow2(j));
    }
  }

  /** Hold all boot blocks smaller than block `i`. */
  lemma {:induction false} TakeLower(base: nat, s: State, n: nat, i: nat, j: nat) returns (ops: seq<Op>)
    requires Lower(s, n, i, j)
    ensures WellSized(s.free) && Run(Intended, base, s, ops).Some? && Lower(Run(Intended, base, s, ops).value, n, i, i)
    decreases i - j
  {
    hide Alloc, InitFree, PlacedAt, Above;
    ops := [];
    if j < i {
      TakeLowest(s, n, i, j);
      if PlacedAt(n, j) {
        var s1 := Alloc(s, Pow2(j)).value;
        var rest := TakeLower(base, s1, n, i, j + 1);
        RunStep(base, s, s1, AllocOp(Pow2(j)), rest);
        ops := [AllocOp(Pow2(j))] + rest;
      } else {
        ops := TakeLower(base, s, n, i, j + 1);
      }
    }
  }

  /** The first 2^t pages of the block that starts at `start` are alone on their list, nothing is on the ones below. */
  predicate CutDown(s: State, start: nat, t: nat) {
    && WellSized(s.free) && t < ORDERS && Above(s.held, start) && s.free[t] == [Ids(start, Pow2(t))]
    && forall u :: 0 <= u < t ==> s.free[u] == []
  }

  lemma CutOnce(s: State, start: nat, t: nat)
    requires CutDown(s, start, t) && t > 0
    ensures Alloc(s, Pow2(t - 1)).Some? && CutDown(Alloc(s, Pow2(t - 1)).value, start, t - 1)
  {
    var h, b := Pow2(t - 1), s.free[t][0];
    ExactNeed(t - 1);
    assert FirstFit(s.free, t - 1) == t;
    SplitFirstShape(s, t);
    assert b[..h] == Ids(start, h) && b[h..][0] == start + h;
    assert s.free[t - 1] + [b[..h]] == [Ids(start, h)];
    hide Pow2, NeedOrder, WellSized;
    assert Alloc(s, h) == Some(SplitFirst(s, t));
  }

  /** Requests of half the size each time cut the block down from order `t` to order `k`. */
  lemma {:induction false} CutTo(base: nat, s: State, start: nat, t: nat, k: nat) returns (ops: seq<Op>)
    requires CutDown(s, start, t) && k <= t
    ensures WellSized(s.free) && Run(Intended, base, s, ops).Some?
    ensures CutDown(Run(Intended, base, s, ops).value, start, k)
    decreases t - k
  {
    hide Alloc, Above;
    ops := [];
    if k < t {
      CutOnce(s, start, t);
      var s1 := Alloc(s, Pow2(t - 1)).value;
      var rest := CutTo(base, s1, start, t - 1, k);
      RunStep(base, s, s1, AllocOp(Pow2(t - 1)), rest);
      ops := [AllocOp(Pow2(t - 1))] + rest;
    }
  }

  /** Whatever is on the lists up to `k` lies from `start` on, and the first 2^k pages there are a block of list `k`. */
  predicate Kept(free: seq<seq<Block>>, start: nat, k: nat) {
    && |free| == ORDERS && k < ORDERS && Ids(start, Pow2(k)) in free[k]
    && forall u :: 0 <= u <= k ==> Above(free[u], start)
  }

  lemma RemoveAbove(bs: seq<Block>, start: nat, j: nat)
    requires Above(bs, start) && j < |bs|
    ensures Above(Remove(bs, j), start)
  {
    var rest := Remove(bs, j);
    forall k | 0 <= k < |rest| ensures Head(rest[k]) >= start { assert rest[k] == bs[if k < j then k else k + 1]; }
  }

  /** The block of order `k` that starts at `start` passes the test with nothing that lies behind. */
  ghost predicate Unmatched(base: nat, start: nat, k: nat) {
    forall h :: h >= start ==> !Matches(Intended, base, start, h, k)
  }

  /** So it is when its buddy would lie before it. */
  lemma BuddyBefore(base: nat, start: nat, k: nat)
    requires TestedBit(Addr(base, start), k) == 1
    ensures Unmatched(base, start, k)
  {
    forall h | h >= start ensures !Matches(Intended, base, start, h, k) {
      if Matches(Intended, base, start, h, k) { XorPow2(Addr(base, start), Addr(base, h), 12 + k); }
    }
  }

  lemma KeptWithout(base: nat, free: seq<seq<Block>>, blk: Block, t: nat, start: nat, k: nat, j: nat)
    requires Kept(free, start, k) && Unmatched(base, start, k) && t < ORDERS
    requires (t <= k ==> Head(blk) >= start) && j < |free[t]| && Matches(Intended, base, Head(free[t][j]), Head(blk), t)
    ensures Kept(free[t := Remove(free[t], j)], start, k)
  {
    var b, rest := Ids(start, Pow2(k)), Remove(free[t], j);
    if t <= k { RemoveAbove(free[t], start, j); }
    if t == k {
      var m :| 0 <= m < |free[k]| && free[k][m] == b;
      assert Head(b) == start;
      assert rest[if m < j then m else m - 1] == b;
    }
  }

  lemma KeptWith(free: seq<seq<Block>>, blk: Block, t: nat, start: nat, k: nat)
    requires Kept(free, start, k) && t < ORDERS && (t <= k ==> Head(blk) >= start)
    ensures Kept(free[t := free[t] + [blk]], start, k)
  {
    var b := Ids(start, Pow2(k));
    if t == k { assert b in free[k] + [blk]; }
  }

  lemma {:induction false} CoalesceKept(base: nat, free: seq<seq<Block>>, blk: Block, t: nat, start: nat, k: nat)
    requires Kept(free, start, k) && Unmatched(base, start, k) && t <= ORDERS
    requires t <= k ==> Head(blk) >= start
    requires WellSized(free) && |blk| == Pow2(t)
    ensures var res := Coalesce(Intended, base, free, blk, t); res.Some? ==> Kept(res.value, start, k)
    decreases ORDERS - t
  {
    if t == ORDERS { return; }
    hide Kept, Matches, WellSized, Blend;
    var j := FindBuddy(Intended, base, free[t], blk, t);
    if j == |free[t]| {
      KeptWith(free, blk, t, start, k);
    } else {
      var rest, both := free[t := Remove(free[t], j)], Blend(Intended, base, free[t][j], blk, t);
      FindBuddyFirst(Intended, base, free[t], blk, t, 0, j);
      BlendStep(Intended, base, free, blk, t, j);
      KeptWithout(base, free, blk, t, start, k, j);
      if t <= k { HeadAbove(free, t, j, start, k); }
      BlendHead(base, free[t][j], blk, t, start);
      CoalesceKept(base, rest, both, t + 1, start, k);
    }
  }

  lemma BlendHead(base: nat, buddy: Block, blk: Block, t: nat, start: nat)
    ensures Head(buddy) >= start && Head(blk) >= start ==> Head(Blend(Intended, base, buddy, blk, t)) >= start
  {
  }

  lemma HeadAbove(free: seq<seq<Block>>, t: nat, j: nat, start: nat, k: nat)
    requires Kept(free, start, k) && t <= k && j < |free[t]|
    ensures Head(free[t][j]) >= start
  {
    assert Above(free[t], start);
  }

  lemma FreeKept(base: nat, s: State, placed: nat, start: nat, k: nat)
    requires Sound(s, placed) && placed < Pow2(ORDERS) && s.held != []
    requires Kept(s.free, start, k) && Above(s.held, start) && Unmatched(base, start, k)
    ensures Free(Intended, base, s, 0).Some?
    ensures var s' := Free(Intended, base, s, 0).value;
            Sound(s', placed) && |s'.held| == |s.held| - 1 && Kept(s'.free, start, k) && Above(s'.held, start)
  {
    FreeSafe(Intended, base, s, placed, 0);
    assert IsOrderSize(|s.held[0]|) && Head(s.held[0]) >= start;
    hide Kept, Coalesce;
    CoalesceKept(base, s.free, s.held[0], Log2(|s.held[0]|), start, k);
    RemoveAbove(s.held, start, 0);
  }

  /** Give everything back, first block first. */
  lemma {:induction false} GiveAll(base: nat, s: State, placed: nat, start: nat, k: nat) returns (ops: seq<Op>)
    requires Sound(s, placed) && placed < Pow2(ORDERS)
    requires Kept(s.free, start, k) && Above(s.held, start) && Unmatched(base, start, k)
    ensures Run(Intended, base, s, ops).Some?
    ensures var s' := Run(Intended, base, s, ops).value; s'.held == [] && Kept(s'.free, start, k)
    decreases |s.held|
  {
    hide Free, Kept, Above, AllPages, HeldSized;
    ops := [];
    if s.held != [] {
      FreeKept(base, s, placed, start, k);
      var s1 := Free(Intended, base, s, 0).value;
      var rest := GiveAll(base, s1, placed, start, k);
      RunStep(base, s, s1, FreeOp(0), rest);
      ops := [FreeOp(0)] + rest;
    }
  }

  /** A boot block with a tested bit set: a run that ends with nothing held and leaves a piece of it. */
  lemma PieceLeft(base: nat, n: nat, i: nat, k: nat) returns (ops: seq<Op>)
    requires n < Pow2(ORDERS) && k < i < ORDERS && PlacedAt(n, i) && TestedBit(Addr(base, Start(n, i)), k) == 1
    ensures WellSized(InitFree(n)) && Run(Intended, base, State(InitFree(n), []), ops).Some?
    ensures var s := Run(Intended, base, State(InitFree(n), []), ops).value;
            s.held == [] && s.free != InitFree(n)
  {
    var s0, start := State(InitFree(n), []), Start(n, i);
    InitInv(n);
    hide Run, Step, InitFree, TestedBit, WellSized, Placed;
    assert Lower(s0, n, i, 0);
    var lower := TakeLower(base, s0, n, i, 0);
    var s1 := Run(Intended, base, s0, lower).value;
    LowerIsCut(s1, n, i);
    var cuts := CutTo(base, s1, start, i, k);
    var s2 := Run(Intended, base, s1, cuts).value;
    RunAppend(base, s0, lower, cuts);
    RunSafe(Intended, base, s0, Placed(n), lower + cuts);
    CutIsKept(s2, start, k);
    BuddyBefore(base, start, k);
    var back := GiveAll(base, s2, Placed(n), start, k);
    RunAppend(base, s0, lower + cuts, back);
    ops := lower + cuts + back;
    PieceIsNew(n, i, k, Run(Intended, base, s2, back).value.free);
  }

  lemma LowerIsCut(s: State, n: nat, i: nat)
    requires Lower(s, n, i, i)
    ensures CutDown(s, Start(n, i), i)
  {
    BootListIs(n, i);
  }

  lemma CutIsKept(s: State, start: nat, k: nat)
    requires CutDown(s, start, k)
    ensures Kept(s.free, start, k) && Above(s.held, start)
  {
    assert s.free[k][0] == Ids(start, Pow2(k));
  }

  lemma PieceIsNew(n: nat, i: nat, k: nat, free: seq<seq<Block>>)
    requires k < i < ORDERS && PlacedAt(n, i) && Kept(free, Start(n, i), k)
    ensures free != InitFree(n)
  {
    BootListIs(n, k);
    if PlacedAt(n, k) {
      LargerFirst(n, i, k);
      assert Ids(Start(n, k), Pow2(k))[0] != Ids(Start(n, i), Pow2(k))[0];
    }
  }

  /** A run that ends with nothing held ends with the lists of boot. */
  predicate ComesBack(base: nat, n: nat, ops: seq<Op>) {
    WellSized(InitFree(n)) &&
    match Run(Intended, base, State(InitFree(n), []), ops)
    case None => false
    case Some(s) => s.held == [] ==> s.free == InitFree(n)
  }

  /**
    For every page count: all runs that give everything back restore the lists of boot exactly when the tested bits
    of every boot block's start address are clear.
   */
  lemma ReturnsExactly(base: nat, n: nat)
    requires n < Pow2(ORDERS) && base % 4096 == 0
    ensures (forall ops :: ComesBack(base, n, ops)) <==> BootAligned(base, n)
  {
    if BootAligned(base, n) {
      forall ops ensures ComesBack(base, n, ops) { AllReturns(base, n, ops); }
    } else {
      var i, k :| 0 <= k < i < ORDERS && PlacedAt(n, i) && TestedBit(Addr(base, Start(n, i)), k) != 0;
      var ops := PieceLeft(base, n, i, k);
      assert !ComesBack(base, n, ops);
    }
  }
}
