/**
  What the buddy page allocator computes, on values: 17 free lists of blocks, the blocks
  callers hold, and allocation, freeing and boot-time set-up as functions between such states.
  `Buddy.dfy` holds the pointer code; its methods are proved to compute these functions.
 */
module BuddyModel {
  import opened Bits
  import opened Common

  const ORDERS: nat := 17
  const MAX_PG_NUM: nat := 0x2_0000
  const MAX_REQUEST: nat := 0x1_0000

  /** A block lists the indices of its page records in chain order. */
  type Block = seq<nat>

  /** `free[i]` is free list `i`; `held` are the blocks handed out and not yet given back. */
  datatype State = State(free: seq<seq<Block>>, held: seq<Block>)

  /**
    How the slips of the source are read.  `AsWritten`: the buddy test parses as `a ^ (b == mask)` and the blend tests
    the bit above the one the pair differs in; the size of the image is counted in words.  `Intended`: the test is
    `(a ^ b) == mask` and the blend tests that bit; the image is counted in bytes.
   */
  datatype Reading = AsWritten | Intended

  // ---------- pages of a state ----------

  function Flat(bs: seq<Block>): seq<nat> {
    if bs == [] then [] else bs[0] + Flat(bs[1..])
  }

  function FreePages(free: seq<seq<Block>>): multiset<nat> {
    if free == [] then multiset{} else multiset(Flat(free[0])) + FreePages(free[1..])
  }

  function AllPages(s: State): multiset<nat> {
    FreePages(s.free) + multiset(Flat(s.held))
  }

  predicate WellSized(free: seq<seq<Block>>) {
    |free| == ORDERS &&
    forall i, j :: 0 <= i < ORDERS && 0 <= j < |free[i]| ==> |free[i][j]| == Pow2(i)
  }

  predicate IsOrderSize(n: nat) {
    Log2(n) < ORDERS && n == Pow2(Log2(n))
  }

  predicate HeldSized(held: seq<Block>) {
    forall h :: 0 <= h < |held| ==> IsOrderSize(|held[h]|)
  }

  /** List `i` holds blocks of 2^i pages, and every page placed at boot is in exactly one block, once. */
  predicate Inv(s: State, placed: nat) {
    WellSized(s.free) && AllPages(s) == multiset(Ids(0, placed))
  }

  /** Moreover every held block has the size of some order. */
  predicate Sound(s: State, placed: nat) {
    Inv(s, placed) && HeldSized(s.held)
  }

  /** Physically consecutive, ascending: page records of adjacent pages are adjacent. */
  predicate Contiguous(b: Block) {
    forall k :: 0 <= k < |b| ==> b[k] == b[0] + k
  }

  predicate ListContiguous(bs: seq<Block>) {
    forall j :: 0 <= j < |bs| ==> Contiguous(bs[j])
  }

  predicate FreeContiguous(free: seq<seq<Block>>) {
    forall i :: 0 <= i < |free| ==> ListContiguous(free[i])
  }

  predicate AllContiguous(s: State) {
    FreeContiguous(s.free) && ListContiguous(s.held)
  }

  // ---------- sequence and multiset facts ----------

  lemma {:induction false} FlatConcat(a: seq<Block>, b: seq<Block>)
    ensures Flat(a + b) == Flat(a) + Flat(b)
  {
    if a == [] {
      assert a + b == b;
    } else {
      var t := a[1..];
      FlatConcat(t, b);
      assert (a + b)[0] == a[0] && (a + b)[1..] == t + b;
      assert Flat(a + b) == a[0] + Flat(t + b) && Flat(a) == a[0] + Flat(t);
      hide Flat;
      JoinAssoc(a[0], Flat(t), Flat(b));
    }
  }

  lemma JoinAssoc(a: Block, b: Block, c: Block)
    ensures a + (b + c) == a + b + c
  {
  }

  lemma FlatOne(b: Block)
    ensures Flat([b]) == b
  {
    assert Flat([b]) == b + Flat([]);
  }

  lemma {:induction false} FlatSplit(bs: seq<Block>, j: nat)
    requires j < |bs|
    ensures Flat(bs) == Flat(bs[..j]) + bs[j] + Flat(bs[j + 1..])
  {
    assert bs == bs[..j] + ([bs[j]] + bs[j + 1..]);
    FlatConcat(bs[..j], [bs[j]] + bs[j + 1..]);
    FlatConcat([bs[j]], bs[j + 1..]);
    FlatOne(bs[j]);
  }

  lemma {:induction false} FlatLength(bs: seq<Block>, n: nat)
    requires forall j :: 0 <= j < |bs| ==> |bs[j]| == n
    ensures |Flat(bs)| == |bs| * n
  {
    if bs != [] {
      FlatLength(bs[1..], n);
    }
  }

  lemma {:induction false} FreePagesUpdate(free: seq<seq<Block>>, i: nat, bs: seq<Block>)
    requires i < |free|
    ensures FreePages(free[i := bs]) + multiset(Flat(free[i])) == FreePages(free) + multiset(Flat(bs))
  {
    if i == 0 {
      assert free[i := bs][1..] == free[1..];
    } else {
      var rest := free[1..];
      FreePagesUpdate(rest, i - 1, bs);
      assert free[i := bs][1..] == rest[i - 1 := bs];
      AddToBoth(multiset(Flat(free[0])), FreePages(rest[i - 1 := bs]), multiset(Flat(free[i])),
                FreePages(rest), multiset(Flat(bs)));
    }
  }

  lemma AddToBoth(a: multiset<nat>, b: multiset<nat>, c: multiset<nat>, d: multiset<nat>, e: multiset<nat>)
    requires b + c == d + e
    ensures a + b + c == a + d + e
  {
    assert a + b + c == a + (b + c);
  }

  lemma Cancel(a: multiset<nat>, b: multiset<nat>, y: multiset<nat>)
    requires a + y == b + y
    ensures a == b
  {
    forall x ensures a[x] == b[x] {
      assert (a + y)[x] == (b + y)[x];
    }
  }

  lemma MoveBetween(a: multiset<nat>, x: multiset<nat>, y: multiset<nat>, b: multiset<nat>, m: multiset<nat>,
          c: multiset<nat>)
    requires b + x == a + y
    requires x == y + m
    ensures b + (c + m) == a + c
  {
    assert a + y == (b + m) + y;
    Cancel(a, b + m, y);
  }

  /** Taking block `j` out of a list takes exactly its pages out. */
  lemma RemovePages(bs: seq<Block>, j: nat)
    requires j < |bs|
    ensures multiset(Flat(bs)) == multiset(Flat(Remove(bs, j))) + multiset(bs[j])
  {
    FlatSplit(bs, j);
    FlatConcat(bs[..j], bs[j + 1..]);
  }

  function Remove<T>(s: seq<T>, j: nat): (r: seq<T>)
    requires j < |s|
    ensures |r| == |s| - 1
  {
    s[..j] + s[j + 1..]
  }

  lemma AppendPages(bs: seq<Block>, b: Block)
    ensures multiset(Flat(bs + [b])) == multiset(Flat(bs)) + multiset(b)
  {
    hide Flat;
    FlatConcat(bs, [b]);
    FlatOne(b);
  }

  // ---------- allocation ----------

  /** Floor of the binary logarithm; 0 below 2, as the C loop gives. */
  function Log2(x: nat): nat {
    if x < 2 then 0 else 1 + Log2(x / 2)
  }

  lemma {:induction false} Log2Bounds(x: nat)
    requires x >= 1
    ensures Pow2(Log2(x)) <= x < 2 * Pow2(Log2(x))
  {
    if x >= 2 { Log2Bounds(x / 2); }
  }

  lemma {:induction false} Log2OfPow2(k: nat)
    ensures Log2(Pow2(k)) == k
  {
    if k > 0 { Log2OfPow2(k - 1); }
  }

  /** The order searched first for a request of `n` pages. */
  function NeedOrder(n: nat): nat {
    var k := Log2(n);
    if Pow2(k) < n then k + 1 else k
  }

  /** It is the least order whose blocks hold `n` pages. */
  lemma NeedOrderIsCeiling(n: nat)
    ensures n <= Pow2(NeedOrder(n))
    ensures forall j: nat :: n <= Pow2(j) ==> NeedOrder(n) <= j
    ensures NeedOrder(n) < ORDERS <==> n <= MAX_REQUEST
  {
    if n >= 1 { Log2Bounds(n); }
    forall j: nat | n <= Pow2(j) ensures NeedOrder(n) <= j {
      if j < NeedOrder(n) {
        if j < Log2(n) { Pow2Monotonic(j, Log2(n)); }
      }
    }
    Pow2At17();
    if NeedOrder(n) < ORDERS { Pow2Monotonic(NeedOrder(n), 16); }
  }

  /** The first non-empty list at or above order `i`, or ORDERS when all are empty. */
  function FirstFit(free: seq<seq<Block>>, i: nat): (r: nat)
    requires i <= |free|
    ensures i <= r <= |free|
    ensures forall j :: i <= j < r ==> free[j] == []
    ensures r < |free| ==> free[r] != []
    decreases |free| - i
  {
    if i == |free| || free[i] != [] then i else FirstFit(free, i + 1)
  }

  /** Cut the first block off list `i`. */
  function TakeFirst(s: State, i: nat): State
    requires i < |s.free| && s.free[i] != []
  {
    State(s.free[i := s.free[i][1..]], s.held + [s.free[i][0]])
  }

  /** Cut the first block of list `i` in two; the lower half joins list `i - 1`, the upper half is handed out. */
  function SplitFirst(s: State, i: nat): State
    requires 1 <= i < |s.free| && s.free[i] != [] && |s.free[i][0]| == Pow2(i)
  {
    var b := s.free[i][0];
    State(s.free[i := s.free[i][1..]][i - 1 := s.free[i - 1] + [b[..Pow2(i - 1)]]],
          s.held + [b[Pow2(i - 1)..]])
  }

  /** The order of the list an allocation of `n` pages takes from, or ORDERS. */
  function FitOrder(free: seq<seq<Block>>, n: nat): nat
    requires |free| == ORDERS
  {
    if NeedOrder(n) >= ORDERS then ORDERS else FirstFit(free, NeedOrder(n))
  }

  function Alloc(s: State, n: nat): Option<State>
    requires WellSized(s.free)
  {
    var i := FitOrder(s.free, n);
    if i == ORDERS then None
    else if i == NeedOrder(n) then Some(TakeFirst(s, i))
    else Some(SplitFirst(s, i))
  }

  lemma TakeFirstPages(s: State, i: nat)
    requires i < |s.free| && s.free[i] != []
    ensures AllPages(TakeFirst(s, i)) == AllPages(s)
  {
    var bs, rest := s.free[i], s.free[i][1..];
    RemovePages(bs, 0);
    assert Remove(bs, 0) == rest;
    FreePagesUpdate(s.free, i, rest);
    AppendPages(s.held, bs[0]);
    MoveBetween(FreePages(s.free), multiset(Flat(bs)), multiset(Flat(rest)), FreePages(s.free[i := rest]),
                multiset(bs[0]), multiset(Flat(s.held)));
  }

  /** Moving the lower half of the last held block to the list below keeps the pages. */
  lemma SplitFirstPages(s: State, i: nat)
    requires 1 <= i < |s.free| && s.free[i] != [] && |s.free[i][0]| == Pow2(i)
    ensures AllPages(SplitFirst(s, i)) == AllPages(s)
  {
    var b := s.free[i][0];
    var lo, hi := b[..Pow2(i - 1)], b[Pow2(i - 1)..];
    var t := TakeFirst(s, i);
    var u := SplitFirst(s, i);
    TakeFirstPages(s, i);
    assert b == lo + hi;
    assert multiset(b) == multiset(lo) + multiset(hi);
    AppendPages(s.held, b);
    AppendPages(s.held, hi);
    AppendPages(s.free[i - 1], lo);
    FreePagesUpdate(t.free, i - 1, s.free[i - 1] + [lo]);
    assert u.free == t.free[i - 1 := s.free[i - 1] + [lo]];
    Regroup(FreePages(t.free), FreePages(u.free), multiset(Flat(s.free[i - 1])), multiset(lo), multiset(hi),
            multiset(Flat(s.held)));
  }

  lemma Regroup(a: multiset<nat>, b: multiset<nat>, x: multiset<nat>, lo: multiset<nat>, hi: multiset<nat>,
          c: multiset<nat>)
    requires b + x == a + (x + lo)
    ensures b + (c + hi) == a + (c + (lo + hi))
  {
    assert a + (x + lo) == (a + lo) + x;
    Cancel(b, a + lo, x);
  }

  lemma TakeFirstShape(s: State, i: nat)
    requires WellSized(s.free) && i < ORDERS && s.free[i] != []
    ensures WellSized(TakeFirst(s, i).free)
    ensures AllContiguous(s) ==> AllContiguous(TakeFirst(s, i))
  {
  }

  lemma SplitFirstShape(s: State, i: nat)
    requires WellSized(s.free) && 1 <= i < ORDERS && s.free[i] != []
    ensures WellSized(SplitFirst(s, i).free)
    ensures AllContiguous(s) ==> AllContiguous(SplitFirst(s, i))
  {
    var b := s.free[i][0];
    if AllContiguous(s) {
      assert Contiguous(b);
      assert Contiguous(b[..Pow2(i - 1)]) && Contiguous(b[Pow2(i - 1)..]);
      assert ListContiguous(s.free[i - 1] + [b[..Pow2(i - 1)]]);
    }
  }

  /**
    Allocation fails exactly when every list from the needed order up is empty.  Otherwise, with
    `i` the first non-empty one, the caller gets all of its first block, or, when `i` is above
    the needed order, that block's upper half: one split, however much larger the block is.
   */
  lemma AllocMeaning(s: State, n: nat)
    requires WellSized(s.free)
    ensures Alloc(s, n) == None <==> forall j :: NeedOrder(n) <= j < ORDERS ==> s.free[j] == []
    ensures Alloc(s, n).Some? ==>
              var i := FitOrder(s.free, n);
              var b := s.free[i][0];
              var got := if i == NeedOrder(n) then b else b[Pow2(i - 1)..];
              && Alloc(s, n).value.held == s.held + [got]
              && |got| == Pow2(if i == NeedOrder(n) then i else i - 1)
              && n <= |got|
  {
    NeedOrderIsCeiling(n);
    if Alloc(s, n).Some? && FitOrder(s.free, n) > NeedOrder(n) {
      Pow2Monotonic(NeedOrder(n), FitOrder(s.free, n) - 1);
    }
  }

  /** Read off the lists: the page an allocation of one page hands out first. */
  function FirstPage(free: seq<seq<Block>>): Option<nat>
    requires WellSized(free)
  {
    var i := FirstFit(free, 0);
    if i == ORDERS then None
    else if i == 0 then Some(free[0][0][0])
    else Some(free[i][0][Pow2(i - 1)])
  }

  lemma OnePageMeaning(s: State)
    requires WellSized(s.free)
    ensures Alloc(s, 1).Some? <==> FirstPage(s.free).Some?
    ensures FirstPage(s.free).Some? <==> exists i :: 0 <= i < ORDERS && s.free[i] != []
    ensures Alloc(s, 1).Some? ==>
              var got := Alloc(s, 1).value.held[|s.held|];
              Alloc(s, 1).value.held == s.held + [got] && got != [] && FirstPage(s.free) == Some(got[0])
  {
    AllocMeaning(s, 1);
    assert NeedOrder(1) == 0;
    var i := FirstFit(s.free, 0);
    if i < ORDERS {
      assert |s.free[i][0]| == Pow2(i);
    }
  }

  /** Allocation keeps shape and pages, and never breaks a run of consecutive pages. */
  lemma AllocKeeps(s: State, n: nat)
    requires WellSized(s.free) && HeldSized(s.held) && Alloc(s, n).Some?
    ensures WellSized(Alloc(s, n).value.free) && HeldSized(Alloc(s, n).value.held)
    ensures AllPages(Alloc(s, n).value) == AllPages(s)
    ensures AllContiguous(s) ==> AllContiguous(Alloc(s, n).value)
  {
    var i := FitOrder(s.free, n);
    if i == NeedOrder(n) {
      TakeFirstPages(s, i);
      TakeFirstShape(s, i);
      SizedOrder(i);
    } else {
      SplitFirstPages(s, i);
      SplitFirstShape(s, i);
      assert |s.free[i][0][Pow2(i - 1)..]| == Pow2(i - 1);
      SizedOrder(i - 1);
    }
  }

  // ---------- freeing ----------

  function Addr(base: nat, p: nat): nat {
    base + 4096 * p
  }

  function Head(b: Block): nat {
    if b == [] then 0 else b[0]
  }

  /** The buddy test between the start pages of a listed block and of the block being freed. */
  predicate Matches(r: Reading, base: nat, listed: nat, freed: nat, t: nat) {
    AddrsMatch(r, Addr(base, listed), Addr(base, freed), t)
  }

  predicate AddrsMatch(r: Reading, listed: nat, freed: nat, t: nat) {
    var mask := Pow2(12 + t);
    match r
    case AsWritten => Xor(listed, if freed == mask then 1 else 0) != 0
    case Intended => Xor(listed, freed) == mask
  }

  /** The number of the first matching block from block `j` on; the list's length when none matches. */
  function FindBuddy(r: Reading, base: nat, bs: seq<Block>, blk: Block, t: nat, j: nat := 0): (res: nat)
    requires j <= |bs|
    ensures j <= res <= |bs|
    decreases |bs| - j
  {
    if j == |bs| || Matches(r, base, Head(bs[j]), Head(blk), t) then j
    else FindBuddy(r, base, bs, blk, t, j + 1)
  }

  lemma {:induction false} FindBuddyFirst(r: Reading, base: nat, bs: seq<Block>, blk: Block, t: nat, j: nat, k: nat)
    requires j <= k < |bs| && k <= FindBuddy(r, base, bs, blk, t, j)
    ensures Matches(r, base, Head(bs[k]), Head(blk), t) <==> k == FindBuddy(r, base, bs, blk, t, j)
    decreases |bs| - j
  {
    if j < k {
      FindBuddyFirst(r, base, bs, blk, t, j + 1, k);
    }
  }

  /** Which bit of the buddy's address decides the order of the two halves when two order-`t` blocks blend. */
  function BlendBit(r: Reading, t: nat): nat {
    match r
    case AsWritten => 12 + t + 1
    case Intended => 12 + t
  }

  function Blend(r: Reading, base: nat, buddy: Block, blk: Block, t: nat): Block {
    if Bit(Addr(base, Head(buddy)), BlendBit(r, t)) == 0 then buddy + blk else blk + buddy
  }

  /** Insert `blk` at order `t`, blending upwards.  None stands for indexing past `buddy_table[16]`. */
  function Coalesce(r: Reading, base: nat, free: seq<seq<Block>>, blk: Block, t: nat): Option<seq<seq<Block>>>
    requires |free| == ORDERS && t <= ORDERS
    decreases ORDERS - t
  {
    if t == ORDERS then None
    else
      var j := FindBuddy(r, base, free[t], blk, t);
      if j == |free[t]| then Some(free[t := free[t] + [blk]])
      else Coalesce(r, base, free[t := Remove(free[t], j)], Blend(r, base, free[t][j], blk, t), t + 1)
  }

  function Free(r: Reading, base: nat, s: State, k: nat): Option<State>
    requires |s.free| == ORDERS && k < |s.held|
  {
    var t := Log2(|s.held[k]|);
    if t >= ORDERS then None
    else match Coalesce(r, base, s.free, s.held[k], t)
      case None => None
      case Some(free) => Some(State(free, Remove(s.held, k)))
  }

  /** Taking a buddy off list `t` and blending: shape of the intermediate state. */
  lemma BlendStep(r: Reading, base: nat, free: seq<seq<Block>>, blk: Block, t: nat, j: nat)
    requires WellSized(free) && t < ORDERS && j < |free[t]| && |blk| == Pow2(t)
    ensures WellSized(free[t := Remove(free[t], j)])
    ensures |Blend(r, base, free[t][j], blk, t)| == Pow2(t + 1)
  {
    var rest := free[t := Remove(free[t], j)];
    forall i, k | 0 <= i < ORDERS && 0 <= k < |rest[i]| ensures |rest[i][k]| == Pow2(i) {
      if i == t { assert rest[t][k] == free[t][if k < j then k else k + 1]; }
    }
  }

  lemma BlendPages(r: Reading, base: nat, free: seq<seq<Block>>, blk: Block, t: nat, j: nat)
    requires t < |free| && j < |free[t]|
    ensures FreePages(free[t := Remove(free[t], j)]) + multiset(Blend(r, base, free[t][j], blk, t))
         == FreePages(free) + multiset(blk)
  {
    var buddy, rest := free[t][j], Remove(free[t], j);
    RemovePages(free[t], j);
    FreePagesUpdate(free, t, rest);
    assert multiset(Blend(r, base, buddy, blk, t)) == multiset(blk) + multiset(buddy);
    MoveBetween(FreePages(free), multiset(Flat(free[t])), multiset(Flat(rest)), FreePages(free[t := rest]),
                multiset(buddy), multiset(blk));
  }

  lemma InsertShape(free: seq<seq<Block>>, blk: Block, t: nat)
    requires WellSized(free) && t < ORDERS && |blk| == Pow2(t)
    ensures WellSized(free[t := free[t] + [blk]])
  {
  }

  lemma InsertPages(free: seq<seq<Block>>, blk: Block, t: nat)
    requires t < |free|
    ensures FreePages(free[t := free[t] + [blk]]) == FreePages(free) + multiset(blk)
  {
    hide Flat, FreePages;
    var x := multiset(Flat(free[t]));
    AppendPages(free[t], blk);
    FreePagesUpdate(free, t, free[t] + [blk]);
    SwapLast(FreePages(free), x, multiset(blk));
    Cancel(FreePages(free[t := free[t] + [blk]]), FreePages(free) + multiset(blk), x);
  }

  lemma SwapLast(a: multiset<nat>, x: multiset<nat>, y: multiset<nat>)
    ensures a + (x + y) == (a + y) + x
  {
  }

  lemma InsertStep(free: seq<seq<Block>>, blk: Block, t: nat)
    requires WellSized(free) && t < ORDERS && |blk| == Pow2(t)
    ensures WellSized(free[t := free[t] + [blk]])
    ensures FreePages(free[t := free[t] + [blk]]) == FreePages(free) + multiset(blk)
  {
    InsertShape(free, blk, t);
    InsertPages(free, blk, t);
    hide WellSized, FreePages;
  }

  /** With fewer than 2^17 pages in play, coalescing stays inside the table and neither loses nor doubles a page. */
  lemma {:induction false} CoalesceSafe(r: Reading, base: nat, free: seq<seq<Block>>, blk: Block, t: nat)
    requires WellSized(free) && t <= ORDERS && |blk| == Pow2(t)
    requires |FreePages(free)| + |blk| < Pow2(ORDERS)
    ensures Coalesce(r, base, free, blk, t).Some?
    ensures WellSized(Coalesce(r, base, free, blk, t).value)
    ensures FreePages(Coalesce(r, base, free, blk, t).value) == FreePages(free) + multiset(blk)
    decreases ORDERS - t
  {
    if t < ORDERS {
      var j := FindBuddy(r, base, free[t], blk, t);
      if j == |free[t]| {
        InsertStep(free, blk, t);
      } else {
        BlendStep(r, base, free, blk, t, j);
        BlendPages(r, base, free, blk, t, j);
        var rest, both := free[t := Remove(free[t], j)], Blend(r, base, free[t][j], blk, t);
        assert |FreePages(rest) + multiset(both)| == |FreePages(free) + multiset(blk)|;
        CoalesceSafe(r, base, rest, both, t + 1);
        assert Coalesce(r, base, free, blk, t) == Coalesce(r, base, rest, both, t + 1);
        hide Coalesce, FreePages, WellSized, Blend, FindBuddy;
      }
    }
  }

  lemma {:induction false} HeldRemove(s: State, k: nat)
    requires k < |s.held|
    ensures AllPages(s) == AllPages(s.(held := Remove(s.held, k))) + multiset(s.held[k])
  {
    RemovePages(s.held, k);
  }

  lemma IdsCount(n: nat)
    ensures |multiset(Ids(0, n))| == n
  {
  }

  lemma FreeFits(s: State, placed: nat, k: nat)
    requires Inv(s, placed) && k < |s.held|
    ensures |FreePages(s.free)| + |s.held[k]| <= placed
  {
    HeldRemove(s, k);
    IdsCount(placed);
    assert |AllPages(s)| == placed;
  }

  lemma RemoveSized(held: seq<Block>, k: nat)
    requires HeldSized(held) && k < |held|
    ensures HeldSized(Remove(held, k))
  {
    var rest := Remove(held, k);
    forall h | 0 <= h < |rest| ensures IsOrderSize(|rest[h]|) {
      assert rest[h] == held[if h < k then h else h + 1];
    }
  }

  lemma FreeSafe(r: Reading, base: nat, s: State, placed: nat, k: nat)
    requires Sound(s, placed) && placed < Pow2(ORDERS) && k < |s.held|
    ensures Free(r, base, s, k).Some? && Sound(Free(r, base, s, k).value, placed)
  {
    var b, o := s.held[k], Log2(|s.held[k]|);
    assert IsOrderSize(|b|);
    FreeFits(s, placed, k);
    CoalesceSafe(r, base, s.free, b, o);
    RemoveSized(s.held, k);
    var free' := Coalesce(r, base, s.free, b, o).value;
    RemovePages(s.held, k);
    var m := multiset(Flat(Remove(s.held, k)));
    assert FreePages(s.free) + multiset(b) + m == FreePages(s.free) + (m + multiset(b));
  }

  // ---------- runs ----------

  datatype Op = AllocOp(n: nat) | FreeOp(k: nat)

  /** Requests above 2^16 pages and frees of blocks nobody holds are not made; a failed allocation changes nothing. */
  function Step(r: Reading, base: nat, s: State, op: Op): Option<State>
    requires WellSized(s.free)
  {
    match op
    case AllocOp(n) => if Alloc(s, n).Some? then Alloc(s, n) else Some(s)
    case FreeOp(k) => if k < |s.held| then Free(r, base, s, k) else Some(s)
  }

  function Run(r: Reading, base: nat, s: State, ops: seq<Op>): Option<State>
    requires WellSized(s.free)
    decreases |ops|
  {
    if ops == [] then Some(s)
    else match Step(r, base, s, ops[0])
      case None => None
      case Some(s') => if WellSized(s'.free) then Run(r, base, s', ops[1..]) else None
  }

  lemma StepSafe(r: Reading, base: nat, s: State, placed: nat, op: Op)
    requires Sound(s, placed) && placed < Pow2(ORDERS)
    ensures Step(r, base, s, op).Some? && Sound(Step(r, base, s, op).value, placed)
  {
    match op
    case AllocOp(n) =>
      if Alloc(s, n).Some? {
        AllocKeeps(s, n);
      }
    case FreeOp(k) =>
      if k < |s.held| { FreeSafe(r, base, s, placed, k); }
  }

  /** Conservation, shape and table bounds over every run, under either reading. */
  lemma {:induction false} RunSafe(r: Reading, base: nat, s: State, placed: nat, ops: seq<Op>)
    requires Sound(s, placed) && placed < Pow2(ORDERS)
    ensures Run(r, base, s, ops).Some? && Sound(Run(r, base, s, ops).value, placed)
    decreases |ops|
  {
    if ops != [] {
      StepSafe(r, base, s, placed, ops[0]);
      RunSafe(r, base, Step(r, base, s, ops[0]).value, placed, ops[1..]);
    }
  }

  /** What conservation means page by page: in every state of a run each placed page is on exactly one chain, once. */
  lemma InvIsPartition(s: State, placed: nat, p: nat)
    requires Inv(s, placed)
    ensures FreePages(s.free)[p] + multiset(Flat(s.held))[p] == (if p < placed then 1 else 0)
  {
    IdsOnce(placed, p);
    assert AllPages(s)[p] == FreePages(s.free)[p] + multiset(Flat(s.held))[p];
  }

  // ---------- contiguity ----------

  lemma AddrOfBlock(base: nat, p: nat, q: nat, t: nat)
    ensures Addr(base, q) == Addr(base, p) + Pow2(12 + t) <==> q == p + Pow2(t)
  {
    Pow2Sum(12, t);
    Pow2At17();
  }

  lemma JoinContiguous(a: Block, b: Block)
    requires a != [] && b != []
    ensures Contiguous(a + b) <==> Contiguous(a) && Contiguous(b) && b[0] == a[0] + |a|
  {
    var c := a + b;
    if Contiguous(c) {
      forall k | 0 <= k < |a| ensures a[k] == a[0] + k { assert c[k] == a[k]; }
      forall k | 0 <= k < |b| ensures b[k] == a[0] + |a| + k { assert c[|a| + k] == b[k]; }
    }
  }

  /** Start addresses that differ in bit 12+t alone belong to adjacent blocks, whatever their alignment. */
  lemma BlendContiguous(base: nat, buddy: Block, blk: Block, t: nat)
    requires |buddy| == |blk| == Pow2(t) && Contiguous(buddy) && Contiguous(blk)
    requires Matches(Intended, base, Head(buddy), Head(blk), t)
    ensures Contiguous(Blend(Intended, base, buddy, blk, t))
  {
    XorPow2(Addr(base, Head(buddy)), Addr(base, Head(blk)), 12 + t);
    AddrOfBlock(base, Head(buddy), Head(blk), t);
    AddrOfBlock(base, Head(blk), Head(buddy), t);
    JoinContiguous(buddy, blk);
    JoinContiguous(blk, buddy);
  }

  lemma {:induction false} CoalesceContiguous(base: nat, free: seq<seq<Block>>, blk: Block, t: nat)
    requires WellSized(free) && t <= ORDERS && |blk| == Pow2(t)
    requires FreeContiguous(free) && Contiguous(blk)
    ensures var res := Coalesce(Intended, base, free, blk, t); res.Some? ==> FreeContiguous(res.value)
    decreases ORDERS - t
  {
    if t == ORDERS { return; }
    var j := FindBuddy(Intended, base, free[t], blk, t);
    if j < |free[t]| {
      FindBuddyFirst(Intended, base, free[t], blk, t, 0, j);
      BlendStep(Intended, base, free, blk, t, j);
      BlendContiguous(base, free[t][j], blk, t);
      RemoveContiguous(free[t], j);
      CoalesceContiguous(base, free[t := Remove(free[t], j)], Blend(Intended, base, free[t][j], blk, t), t + 1);
    }
  }

  lemma RemoveContiguous(bs: seq<Block>, j: nat)
    requires j < |bs| && ListContiguous(bs)
    ensures ListContiguous(Remove(bs, j))
  {
    forall k | 0 <= k < |bs| - 1 ensures Contiguous(Remove(bs, j)[k]) {
      assert Remove(bs, j)[k] == bs[if k < j then k else k + 1];
    }
  }

  predicate AllocOnly(ops: seq<Op>) {
    forall i :: 0 <= i < |ops| ==> ops[i].AllocOp?
  }

  lemma StepContiguous(r: Reading, base: nat, s: State, placed: nat, op: Op)
    requires Sound(s, placed) && placed < Pow2(ORDERS) && AllContiguous(s)
    requires r == Intended || op.AllocOp?
    ensures Step(r, base, s, op).Some? && AllContiguous(Step(r, base, s, op).value)
  {
    match op
    case AllocOp(n) =>
      if Alloc(s, n).Some? { AllocKeeps(s, n); }
    case FreeOp(k) =>
      if k < |s.held| {
        FreeSafe(r, base, s, placed, k);
        assert IsOrderSize(|s.held[k]|);
        CoalesceContiguous(base, s.free, s.held[k], Log2(|s.held[k]|));
        RemoveContiguous(s.held, k);
      }
  }

  /**
    Every free or held block stays consecutive: through any run as intended, through allocation-only runs as written.
   */
  lemma {:induction false} RunContiguous(r: Reading, base: nat, s: State, placed: nat, ops: seq<Op>)
    requires Sound(s, placed) && placed < Pow2(ORDERS) && AllContiguous(s)
    requires r == Intended || AllocOnly(ops)
    ensures Run(r, base, s, ops).Some? && AllContiguous(Run(r, base, s, ops).value)
    decreases |ops|
  {
    if ops != [] {
      StepSafe(r, base, s, placed, ops[0]);
      StepContiguous(r, base, s, placed, ops[0]);
      RunContiguous(r, base, Step(r, base, s, ops[0]).value, placed, ops[1..]);
    }
  }

  // ---------- the code as written ----------

  /** As written, the buddy test accepts every block of a machine whose memory starts above address 1. */
  lemma AsWrittenMatchesAll(base: nat, p: nat, q: nat, t: nat)
    requires base >= 2
    ensures Matches(AsWritten, base, p, q, t)
  {
    XorZero(Addr(base, p), if Addr(base, q) == Pow2(12 + t) then 1 else 0);
  }

  /**
    Read off the start addresses before the call: walking up from order `t` while the list is
    non-empty, the first block of each list lies right before or right after the block built so far,
    on the side the tested bit (one too high) will put it.
   */
  predicate InOrder(base: nat, free: seq<seq<Block>>, start: nat, t: nat)
    requires |free| == ORDERS && t <= ORDERS
    decreases ORDERS - t
  {
    if t == ORDERS || free[t] == [] then true
    else
      var b := Addr(base, Head(free[t][0]));
      if Bit(b, 12 + t + 1) == 0
      then start == b + Pow2(12 + t) && InOrder(base, free, b, t + 1)
      else b == start + Pow2(12 + t) && InOrder(base, free, start, t + 1)
  }

  lemma {:induction false} InOrderAbove(base: nat, free: seq<seq<Block>>, bs: seq<Block>, start: nat, i: nat, t: nat)
    requires |free| == ORDERS && i < t <= ORDERS
    ensures InOrder(base, free[i := bs], start, t) == InOrder(base, free, start, t)
    decreases ORDERS - t
  {
    if t < ORDERS && free[t] != [] {
      var b := Addr(base, Head(free[t][0]));
      InOrderAbove(base, free, bs, b, i, t + 1);
      InOrderAbove(base, free, bs, start, i, t + 1);
    }
  }

  /** A block that is not consecutive stays so however it is blended. */
  lemma {:induction false} BrokenStaysBroken(r: Reading, base: nat, free: seq<seq<Block>>, blk: Block, t: nat)
    requires WellSized(free) && t <= ORDERS && |blk| == Pow2(t) && !Contiguous(blk)
    requires Coalesce(r, base, free, blk, t).Some?
    ensures !FreeContiguous(Coalesce(r, base, free, blk, t).value)
    decreases ORDERS - t
  {
    var j := FindBuddy(r, base, free[t], blk, t);
    if j == |free[t]| {
      var res := free[t := free[t] + [blk]];
      assert res[t][|free[t]|] == blk;
      assert !ListContiguous(res[t]);
    } else {
      BlendStep(r, base, free, blk, t, j);
      JoinContiguous(blk, free[t][j]);
      JoinContiguous(free[t][j], blk);
      BrokenStaysBroken(r, base, free[t := Remove(free[t], j)], Blend(r, base, free[t][j], blk, t), t + 1);
    }
  }

  /** As written, coalescing blends with the first block of the list at hand. */
  lemma CoalesceOnce(base: nat, free: seq<seq<Block>>, blk: Block, t: nat)
    requires WellSized(free) && t < ORDERS && |blk| == Pow2(t) && base >= 2 && free[t] != []
    ensures var rest, both := free[t := Remove(free[t], 0)], Blend(AsWritten, base, free[t][0], blk, t);
            && Coalesce(AsWritten, base, free, blk, t) == Coalesce(AsWritten, base, rest, both, t + 1)
            && WellSized(rest) && |both| == Pow2(t + 1)
  {
    AsWrittenMatchesAll(base, Head(free[t][0]), Head(blk), t);
    assert FindBuddy(AsWritten, base, free[t], blk, t) == 0;
    BlendStep(AsWritten, base, free, blk, t, 0);
    hide Matches, WellSized, Blend;
  }

  /** One level of the condition: this blend is in order, and so are the ones above it. */
  lemma InOrderOnce(base: nat, free: seq<seq<Block>>, blk: Block, t: nat)
    requires WellSized(free) && t < ORDERS && |blk| == Pow2(t) && free[t] != []
    requires FreeContiguous(free) && Contiguous(blk)
    ensures var rest, both := free[t := Remove(free[t], 0)], Blend(AsWritten, base, free[t][0], blk, t);
            InOrder(base, free, Addr(base, Head(blk)), t)
            <==> Contiguous(both) && InOrder(base, rest, Addr(base, Head(both)), t + 1)
  {
    var buddy := free[t][0];
    AddrOfBlock(base, Head(buddy), Head(blk), t);
    AddrOfBlock(base, Head(blk), Head(buddy), t);
    JoinContiguous(buddy, blk);
    JoinContiguous(blk, buddy);
    InOrderAbove(base, free, Remove(free[t], 0), Addr(base, Head(Blend(AsWritten, base, buddy, blk, t))), t, t + 1);
  }

  lemma {:induction false} CoalesceAsWritten(base: nat, free: seq<seq<Block>>, blk: Block, t: nat)
    requires WellSized(free) && t <= ORDERS && |blk| == Pow2(t) && base >= 2
    requires FreeContiguous(free) && Contiguous(blk)
    requires Coalesce(AsWritten, base, free, blk, t).Some?
    ensures FreeContiguous(Coalesce(AsWritten, base, free, blk, t).value)
       <==> InOrder(base, free, Addr(base, Head(blk)), t)
    decreases ORDERS - t
  {
    if free[t] == [] {
      assert FreeContiguous(free[t := [blk]]);
    } else {
      var rest, both := free[t := Remove(free[t], 0)], Blend(AsWritten, base, free[t][0], blk, t);
      CoalesceOnce(base, free, blk, t);
      InOrderOnce(base, free, blk, t);
      RemoveContiguous(free[t], 0);
      assert FreeContiguous(rest);
      hide FreeContiguous, Contiguous, Coalesce, InOrder, WellSized, Blend;
      if Contiguous(both) {
        CoalesceAsWritten(base, rest, both, t + 1);
      } else {
        BrokenStaysBroken(AsWritten, base, rest, both, t + 1);
      }
    }
  }

  /** As written, a free keeps all blocks consecutive exactly when the start addresses line up beforehand. */
  lemma FreeAsWrittenExact(base: nat, s: State, placed: nat, k: nat)
    requires Sound(s, placed) && placed < Pow2(ORDERS) && base >= 2 && k < |s.held| && AllContiguous(s)
    requires Log2(|s.held[k]|) < ORDERS
    ensures Free(AsWritten, base, s, k).Some?
    ensures AllContiguous(Free(AsWritten, base, s, k).value)
       <==> InOrder(base, s.free, Addr(base, Head(s.held[k])), Log2(|s.held[k]|))
  {
    FreeSafe(AsWritten, base, s, placed, k);
    assert IsOrderSize(|s.held[k]|);
    CoalesceAsWritten(base, s.free, s.held[k], Log2(|s.held[k]|));
    RemoveContiguous(s.held, k);
  }

  /** An empty table but for the given lists of order 1 and 2. */
  function SmallTable(one: seq<Block>, two: seq<Block>): (free: seq<seq<Block>>)
    ensures |free| == ORDERS && free[1] == one && free[2] == two
    ensures forall i :: 0 <= i < ORDERS && i != 1 && i != 2 ==> free[i] == []
  {
    seq(ORDERS, i requires 0 <= i < ORDERS => if i == 1 then one else if i == 2 then two else [])
  }

  /**
    The condition can fail from boot.  Four pages: allocating two and freeing them leaves all consecutive exactly when
    bit 14 of the first page's address is clear.  It is set at 0x1E_4000, where the pages come back as 2, 3, 0, 1.
   */
  lemma AsWrittenScrambles(base: nat)
    requires base >= 2
    ensures WellSized(InitFree(4))
    ensures var b := if base / 0x4000 % 2 == 0 then [0, 1, 2, 3] else [2, 3, 0, 1];
            && Run(AsWritten, base, State(InitFree(4), []), [AllocOp(2), FreeOp(0)])
               == Some(State(SmallTable([], [b]), []))
            && (AllContiguous(State(SmallTable([], [b]), [])) <==> base / 0x4000 % 2 == 0)
  {
    hide Alloc, Free, WellSized, SmallTable, InitFree, Contiguous;
    InitSized(4);
    ScrambleAlloc();
    ScrambleFree(base);
    var b: Block := if base / 0x4000 % 2 == 0 then [0, 1, 2, 3] else [2, 3, 0, 1];
    var s0, s1, s2 := State(InitFree(4), []), State(SmallTable([[0, 1]], []), [[2, 3]]), State(SmallTable([], [b]), []);
    RunTwo(AsWritten, base, s0, s1, s2, AllocOp(2), FreeOp(0));
    Scrambled();
    assert s2.free[2] == [b] && s2.free[2][0] == b;
    assert AllContiguous(s2) <==> Contiguous(b);
  }

  lemma Scrambled()
    ensures !Contiguous([2, 3, 0, 1]) && Contiguous([0, 1, 2, 3])
  {
    var b: Block := [2, 3, 0, 1];
    assert b[2] != b[0] + 2;
  }

  lemma RunTwo(r: Reading, base: nat, s0: State, s1: State, s2: State, a: Op, b: Op)
    requires WellSized(s0.free) && WellSized(s1.free) && WellSized(s2.free)
    requires Step(r, base, s0, a) == Some(s1) && Step(r, base, s1, b) == Some(s2)
    ensures Run(r, base, s0, [a, b]) == Some(s2)
  {
    hide Step, WellSized;
    assert [a, b][1..] == [b] && [b][1..] == [];
    assert Run(r, base, s2, []) == Some(s2);
    assert Run(r, base, s1, [b]) == Some(s2);
  }

  lemma ScrambleAlloc()
    ensures WellSized(InitFree(4)) && WellSized(SmallTable([[0, 1]], []))
    ensures Alloc(State(InitFree(4), []), 2) == Some(State(SmallTable([[0, 1]], []), [[2, 3]]))
  {
    InitSized(4);
    FourPages();
    var s0, s1 := State(InitFree(4), []), State(SmallTable([[0, 1]], []), [[2, 3]]);
    assert FirstFit(s0.free, 1) == 2;
    assert Pow2(1) == 2 && NeedOrder(2) == 1;
    var b := s0.free[2][0];
    assert b == [0, 1, 2, 3] && b[..2] == [0, 1] && b[2..] == [2, 3];
    assert s0.free[2][1..] == [] && s0.free[1] + [b[..2]] == [[0, 1]];
    assert SplitFirst(s0, 2).free == s1.free;
    assert SplitFirst(s0, 2).held == [b[2..]] == s1.held;
  }

  lemma ScrambleFree(base: nat)
    requires base >= 2
    ensures var b := if base / 0x4000 % 2 == 0 then [0, 1, 2, 3] else [2, 3, 0, 1];
            && WellSized(SmallTable([], [b]))
            && Free(AsWritten, base, State(SmallTable([[0, 1]], []), [[2, 3]]), 0)
               == Some(State(SmallTable([], [b]), []))
  {
    var b: Block := if base / 0x4000 % 2 == 0 then [0, 1, 2, 3] else [2, 3, 0, 1];
    var f1, mid, f2 := SmallTable([[0, 1]], []), SmallTable([], []), SmallTable([], [b]);
    assert Pow2(2) == 4;
    Pow2At17();
    assert Pow2(14) == 0x4000;
    AsWrittenMatchesAll(base, 0, 2, 1);
    BitIsDigit(base, 14);
    assert Blend(AsWritten, base, [0, 1], [2, 3], 1) == b;
    assert f1[1 := Remove(f1[1], 0)] == mid;
    assert mid[2] + [b] == [b] == f2[2];
    assert mid[2 := mid[2] + [b]] == f2;
    assert FindBuddy(AsWritten, base, f1[1], [2, 3], 1) == 0;
    assert Coalesce(AsWritten, base, f1, [2, 3], 1) == Coalesce(AsWritten, base, mid, b, 2);
    assert Coalesce(AsWritten, base, mid, b, 2) == Some(f2);
    assert Log2(2) == 1;
  }

  lemma FourPages()
    ensures InitFree(4) == SmallTable([], [[0, 1, 2, 3]])
  {
    var f := InitFree(4);
    forall i | 0 <= i < ORDERS ensures f[i] == SmallTable([], [[0, 1, 2, 3]])[i] {
      if i >= 3 { assert Pow2(3) == 8; Pow2Monotonic(3, i); SmallHasNoBit(4, i); }
      if i == 2 {
        assert Pow2(3) == 8 && ClearLow(4, 3) == 0 && Bit(4, 2) == 1;
        assert Ids(0, 4) == [0, 1, 2, 3];
      }
      if i == 1 { assert Bit(4, 1) == 0; }
    }
  }

  lemma {:induction false} SmallHasNoBit(x: nat, k: nat)
    requires x < Pow2(k)
    ensures Bit(x, k) == 0
    decreases k
  {
    if k > 0 { SmallHasNoBit(x / 2, k - 1); }
  }

  // ---------- boot ----------

  /** Order `i` gets a block at boot: bit `i` of the page count, a last odd page being left out. */
  predicate PlacedAt(n: nat, i: nat) {
    if n < 2 then i == 0 else i >= 1 && Bit(n, i) == 1
  }

  /** The number of page records put on the lists at boot. */
  function Placed(n: nat): nat {
    if n < 2 then 1 else n - n % 2
  }

  function InitList(n: nat, i: nat): seq<Block> {
    if PlacedAt(n, i) then [Ids(ClearLow(n, i + 1), Pow2(i))] else []
  }

  function InitFree(n: nat): (free: seq<seq<Block>>)
    ensures |free| == ORDERS && forall i :: 0 <= i < ORDERS ==> free[i] == InitList(n, i)
  {
    seq(ORDERS, i requires 0 <= i < ORDERS => InitList(n, i))
  }

  lemma IdsJoin(m: nat, k: nat)
    ensures multiset(Ids(0, m + k)) == multiset(Ids(m, k)) + multiset(Ids(0, m))
  {
    assert Ids(0, m + k) == Ids(0, m) + Ids(m, k);
  }

  lemma {:induction false} InitTiles(n: nat, i: nat)
    requires 2 <= n < Pow2(ORDERS) && 1 <= i <= ORDERS
    ensures FreePages(InitFree(n)[i..]) == multiset(Ids(0, ClearLow(n, i)))
    decreases ORDERS - i
  {
    hide InitList, Pow2, ClearLow, Flat;
    var free := InitFree(n);
    if i == ORDERS {
      ClearAll(n);
      assert Ids(0, 0) == [];
    } else {
      InitTiles(n, i + 1);
      InitListPages(n, i);
      assert free[i..][0] == InitList(n, i) && free[i..][1..] == free[i + 1..];
    }
  }

  lemma InitListPages(n: nat, i: nat)
    requires 2 <= n && 1 <= i
    ensures multiset(Flat(InitList(n, i))) + multiset(Ids(0, ClearLow(n, i + 1))) == multiset(Ids(0, ClearLow(n, i)))
  {
    var m := ClearLow(n, i + 1);
    ClearLowStep(n, i);
    if Bit(n, i) == 1 {
      assert InitList(n, i) == [Ids(m, Pow2(i))];
      FlatOne(Ids(m, Pow2(i)));
      IdsJoin(m, Pow2(i));
    } else {
      assert Flat(InitList(n, i)) == [];
    }
  }

  lemma InitSized(n: nat)
    ensures WellSized(InitFree(n)) && FreeContiguous(InitFree(n))
  {
  }

  /** The first single page handed out after boot is the last page iff the page count is 2 modulo 4, or 1. */
  lemma FirstPageAtBoot(n: nat)
    requires n < Pow2(ORDERS)
    ensures WellSized(InitFree(n)) && FirstPage(InitFree(n)).Some?
    ensures FirstPage(InitFree(n)).value == n - 1 <==> n % 4 == 2 || n == 1
  {
    InitSized(n);
    if n < 2 { FirstOfOne(n); } else { FirstOfMany(n); }
  }

  lemma FirstOfOne(n: nat)
    requires n < 2 && WellSized(InitFree(n))
    ensures FirstPage(InitFree(n)) == Some(0)
  {
    SmallPowers(n);
    assert ClearLow(n, 1) == 0;
    assert InitFree(n)[0] == InitList(n, 0) == [Ids(0, 1)];
  }

  lemma FirstOfMany(n: nat)
    requires 2 <= n < Pow2(ORDERS) && WellSized(InitFree(n))
    ensures FirstPage(InitFree(n)).Some?
    ensures FirstPage(InitFree(n)).value == n - 1 <==> n % 4 == 2
  {
    var free := InitFree(n);
    var i := FirstFit(free, 0);
    LowestBit(n, i);
    hide WellSized, Pow2, ClearLow;
    BootLowest(n, i);
    UpperHalf(n, i);
    hide InitFree, FirstFit, FirstPage;
  }

  lemma UpperHalf(n: nat, i: nat)
    requires 2 <= n && 1 <= i < ORDERS && i == FirstFit(InitFree(n), 0) && Bit(n, i) == 1 && WellSized(InitFree(n))
    ensures Pow2(i) == 2 * Pow2(i - 1) && FirstPage(InitFree(n)) == Some(ClearLow(n, i + 1) + Pow2(i - 1))
  {
    assert Pow2(i) == 2 * Pow2(i - 1);
    hide ClearLow, Bit, WellSized, Pow2, FirstFit;
    assert InitFree(n)[i] == InitList(n, i) == [Ids(ClearLow(n, i + 1), Pow2(i))];
  }

  lemma LowestBit(n: nat, i: nat)
    requires 2 <= n && i == FirstFit(InitFree(n), 0)
    ensures 1 <= i <= ORDERS && (forall j :: 1 <= j < i ==> Bit(n, j) == 0) && (i < ORDERS ==> Bit(n, i) == 1)
  {
    hide Bit, FirstFit, ClearLow, Pow2;
    assert InitFree(n)[0] == InitList(n, 0) == [];
    forall j | 1 <= j < i ensures Bit(n, j) == 0 {
      assert InitFree(n)[j] == InitList(n, j) == [];
    }
    if i < ORDERS { assert InitFree(n)[i] == InitList(n, i) != []; }
  }

  /** The lowest block placed at boot, of order `i`, ends at the last page, an odd one left out. */
  lemma BootLowest(n: nat, i: nat)
    requires 2 <= n < Pow2(ORDERS) && 1 <= i <= ORDERS && forall j :: 1 <= j < i ==> Bit(n, j) == 0
    requires i < ORDERS ==> Bit(n, i) == 1
    ensures i < ORDERS && ClearLow(n, i + 1) + Pow2(i) == n - n % 2
    ensures i == 1 <==> n % 4 >= 2
    ensures if i == 1 then Pow2(i - 1) == 1 else Pow2(i - 1) >= 2
  {
    LowBitsClear(n, i);
    SmallPowers(n);
    if i < ORDERS { ClearLowStep(n, i); }
    if 1 < i { Pow2Monotonic(1, i - 1); }
    hide Pow2, Bit, ClearLow;
    if i == ORDERS {
      ClearAll(n);
    }
  }

  lemma ClearAll(n: nat)
    requires n < Pow2(ORDERS)
    ensures ClearLow(n, ORDERS) == 0
  {
    DivUnique(n, Pow2(ORDERS), 0, n);
    hide Pow2;
  }

  lemma SmallPowers(n: nat)
    ensures Pow2(0) == 1 && Pow2(1) == 2 && (Bit(n, 1) == 1 <==> n % 4 >= 2)
  {
    assert Bit(n, 1) == n / 2 % 2;
  }

  lemma {:induction false} LowBitsClear(n: nat, i: nat)
    requires 1 <= i && forall j :: 1 <= j < i ==> Bit(n, j) == 0
    ensures ClearLow(n, i) == n - n % 2
    decreases i
  {
    if i > 1 {
      LowBitsClear(n, i - 1);
      ClearLowStep(n, i - 1);
    } else {
      assert Pow2(1) == 2;
    }
  }

  /** Boot puts one block of consecutive pages on each order of the page count's bits, tiling the pages in order. */
  lemma InitInv(n: nat)
    requires n < Pow2(ORDERS)
    ensures Sound(State(InitFree(n), []), Placed(n)) && AllContiguous(State(InitFree(n), []))
    ensures Placed(n) < Pow2(ORDERS)
  {
    var free := InitFree(n);
    InitSized(n);
    Pow2At17();
    if n < 2 {
      EmptyPages(free[1..]);
      assert free[0] == [Ids(ClearLow(n, 1), 1)];
      DivUnique(n, 2, 0, n);
      assert Pow2(1) == 2;
      FlatOne(Ids(0, 1));
    } else {
      InitTiles(n, 1);
      assert free[0] == [] && Flat(free[0]) == [];
      assert ClearLow(n, 1) == n / 2 * 2 == Placed(n);
    }
  }

  lemma {:induction false} EmptyPages(free: seq<seq<Block>>)
    requires forall i :: 0 <= i < |free| ==> free[i] == []
    ensures FreePages(free) == multiset{}
  {
    if free != [] { EmptyPages(free[1..]); }
  }

  /** All that is free is one block of 2^i pages, the lowest. */
  predicate OnlyLowest(free: seq<seq<Block>>, i: nat) {
    |free| == ORDERS && forall j :: 0 <= j < ORDERS ==> free[j] == if j == i then [Ids(0, Pow2(i))] else []
  }

  lemma LowestHalved(s: State, i: nat)
    requires OnlyLowest(s.free, i) && 1 <= i < ORDERS && WellSized(s.free)
    ensures Alloc(s, 1).Some? && OnlyLowest(Alloc(s, 1).value.free, i - 1) && WellSized(Alloc(s, 1).value.free)
  {
    assert FirstFit(s.free, 0) == i && NeedOrder(1) == 0;
    var b, free' := s.free[i][0], Alloc(s, 1).value.free;
    assert b[..Pow2(i - 1)] == Ids(0, Pow2(i - 1));
    assert s.free[i][1..] == [] && s.free[i - 1] + [b[..Pow2(i - 1)]] == [Ids(0, Pow2(i - 1))];
  }

  /** `k` requests for a single page. */
  function Singles(k: nat): (ops: seq<Op>)
    ensures |ops| == k && forall i :: 0 <= i < k ==> ops[i] == AllocOp(1)
  {
    seq(k, _ => AllocOp(1))
  }

  lemma LowestAlone(free: seq<seq<Block>>)
    requires OnlyLowest(free, 0) && WellSized(free)
    ensures FirstPage(free) == Some(0) && FreePages(free) == multiset{0}
  {
    assert Pow2(0) == 1 && free[0] == [Ids(0, 1)] && Ids(0, 1) == [0];
    FlatOne([0]);
    EmptyPages(free[1..]);
  }

  /** Requests for single pages halve the block each time; page 0 is the one handed out last. */
  lemma {:induction false} LowestLast(r: Reading, base: nat, s: State, i: nat)
    requires OnlyLowest(s.free, i) && i < ORDERS && WellSized(s.free)
    ensures Run(r, base, s, Singles(i)).Some?
    ensures var free := Run(r, base, s, Singles(i)).value.free;
            WellSized(free) && FirstPage(free) == Some(0) && FreePages(free) == multiset{0}
    decreases i
  {
    hide OnlyLowest, FirstPage, FreePages, Alloc;
    if i == 0 {
      LowestAlone(s.free);
    } else {
      LowestHalved(s, i);
      LowestLast(r, base, Alloc(s, 1).value, i - 1);
      assert Singles(i)[0] == AllocOp(1) && Singles(i)[1..] == Singles(i - 1);
    }
  }

  /** From boot with 2^k pages, the first page is the one that request number k + 1 for a single page gets. */
  lemma FirstPageLast(r: Reading, base: nat, k: nat)
    requires 1 <= k < ORDERS
    ensures WellSized(InitFree(Pow2(k))) && Run(r, base, State(InitFree(Pow2(k)), []), Singles(k)).Some?
    ensures var free := Run(r, base, State(InitFree(Pow2(k)), []), Singles(k)).value.free;
            WellSized(free) && FirstPage(free) == Some(0) && FreePages(free) == multiset{0}
  {
    InitSized(Pow2(k));
    PowerAtBoot(k);
    hide InitFree, Run, FirstPage, FreePages, WellSized;
    LowestLast(r, base, State(InitFree(Pow2(k)), []), k);
  }

  lemma PowerAtBoot(k: nat)
    requires 1 <= k < ORDERS
    ensures OnlyLowest(InitFree(Pow2(k)), k)
  {
    var n := Pow2(k);
    Pow2Monotonic(1, k);
    forall j | 0 <= j < ORDERS ensures InitFree(n)[j] == if j == k then [Ids(0, n)] else [] {
      BitOfPow2(k, j);
      if j == k { DivUnique(n, Pow2(k + 1), 0, n); }
    }
  }

  lemma {:induction false} BitOfPow2(k: nat, j: nat)
    ensures Bit(Pow2(k), j) == if j == k then 1 else 0
    decreases k
  {
    if k > 0 && j > 0 {
      BitOfPow2(k - 1, j - 1);
    } else if k == 0 && j > 0 {
      SmallHasNoBit(1, j) by { Pow2Monotonic(1, j); }
    }
  }

  // ---------- what the slips amount to ----------

  predicate AtMostOne(free: seq<seq<Block>>) {
    forall i :: 0 <= i < |free| ==> |free[i]| <= 1
  }

  lemma {:induction false} CoalesceAtMostOne(base: nat, free: seq<seq<Block>>, blk: Block, t: nat)
    requires |free| == ORDERS && t <= ORDERS && base >= 2 && AtMostOne(free)
    requires Coalesce(AsWritten, base, free, blk, t).Some?
    ensures AtMostOne(Coalesce(AsWritten, base, free, blk, t).value)
    decreases ORDERS - t
  {
    if free[t] != [] {
      AsWrittenMatchesAll(base, Head(free[t][0]), Head(blk), t);
      CoalesceAtMostOne(base, free[t := Remove(free[t], 0)], Blend(AsWritten, base, free[t][0], blk, t), t + 1);
    }
  }

  lemma StepAtMostOne(base: nat, s: State, placed: nat, op: Op)
    requires Sound(s, placed) && placed < Pow2(ORDERS) && base >= 2 && AtMostOne(s.free)
    ensures Step(AsWritten, base, s, op).Some? && AtMostOne(Step(AsWritten, base, s, op).value.free)
  {
    hide AllPages, HeldSized;
    StepSafe(AsWritten, base, s, placed, op);
    if op.FreeOp? && op.k < |s.held| {
      CoalesceAtMostOne(base, s.free, s.held[op.k], Log2(|s.held[op.k]|));
    }
  }

  /** As written, no list ever holds two blocks: a free carries upwards past every non-empty list. */
  lemma {:induction false} RunAtMostOne(base: nat, s: State, placed: nat, ops: seq<Op>)
    requires Sound(s, placed) && placed < Pow2(ORDERS) && base >= 2 && AtMostOne(s.free)
    ensures Run(AsWritten, base, s, ops).Some? && AtMostOne(Run(AsWritten, base, s, ops).value.free)
    decreases |ops|
  {
    hide Step, AllPages, HeldSized;
    if ops != [] {
      StepSafe(AsWritten, base, s, placed, ops[0]);
      StepAtMostOne(base, s, placed, ops[0]);
      RunAtMostOne(base, Step(AsWritten, base, s, ops[0]).value, placed, ops[1..]);
    }
  }

  lemma CountAt(free: seq<seq<Block>>, i: nat)
    requires WellSized(free) && AtMostOne(free) && i < ORDERS
    ensures |FreePages(free[i..])| == |FreePages(free[i + 1..])| + (if free[i] == [] then 0 else Pow2(i))
  {
    assert free[i..][0] == free[i] && free[i..][1..] == free[i + 1..];
    if free[i] != [] {
      assert free[i] == [free[i][0]];
      FlatOne(free[i][0]);
    }
  }

  lemma {:induction false} CountAtLeast(free: seq<seq<Block>>, i: nat, j: nat)
    requires WellSized(free) && AtMostOne(free) && i <= j < ORDERS && free[j] != []
    ensures |FreePages(free[i..])| >= Pow2(j)
    decreases j - i
  {
    CountAt(free, i);
    if i < j { CountAtLeast(free, i + 1, j); }
  }

  lemma {:induction false} CountBelow(free: seq<seq<Block>>, i: nat, k: nat)
    requires WellSized(free) && AtMostOne(free) && i <= k <= ORDERS
    requires forall j :: k <= j < ORDERS ==> free[j] == []
    ensures |FreePages(free[i..])| <= Pow2(k) - Pow2(i)
    decreases k - i
  {
    if i == k {
      EmptyPages(free[i..]);
    } else {
      CountBelow(free, i + 1, k);
      CountAt(free, i);
    }
  }

  /**
    Consequently the code as written never fails for fragmentation: after any run from boot, a request
    for `n` pages succeeds exactly when at least 2^ceil(log2 n) pages are free, wherever they lie.
   */
  lemma AllocSucceedsByCount(base: nat, pages: nat, ops: seq<Op>, n: nat)
    requires 1 <= pages < Pow2(ORDERS) && base >= 2
    ensures WellSized(InitFree(pages)) && Run(AsWritten, base, State(InitFree(pages), []), ops).Some?
    ensures var s := Run(AsWritten, base, State(InitFree(pages), []), ops).value;
            && WellSized(s.free)
            && (Alloc(s, n).Some? <==> |FreePages(s.free)| >= Pow2(NeedOrder(n)))
  {
    InitInv(pages);
    var s0 := State(InitFree(pages), []);
    RunSafe(AsWritten, base, s0, Placed(pages), ops);
    RunAtMostOne(base, s0, Placed(pages), ops);
    var s := Run(AsWritten, base, s0, ops).value;
    assert s.free[0..] == s.free;
    NeedOrderIsCeiling(n);
    AllocMeaning(s, n);
    var k := NeedOrder(n);
    if Alloc(s, n).Some? {
      CountAtLeast(s.free, 0, FitOrder(s.free, n));
      Pow2Monotonic(k, FitOrder(s.free, n));
    } else if k <= ORDERS {
      CountBelow(s.free, 0, k);
    } else {
      CountBelow(s.free, 0, ORDERS);
      Pow2Monotonic(ORDERS, k);
    }
  }

  // ---------- the moves a free is made of ----------

  /** Held block `k` becomes the last one. */
  function MoveLast(s: State, k: nat): State
    requires k < |s.held|
  {
    s.(held := Remove(s.held, k) + [s.held[k]])
  }

  /** Block `j` of list `i` leaves the list and is held. */
  function TakeAt(s: State, i: nat, j: nat): State
    requires i < |s.free| && j < |s.free[i]|
  {
    State(s.free[i := Remove(s.free[i], j)], s.held + [s.free[i][j]])
  }

  /** The last two held blocks, a block and its buddy, become one. */
  function BlendLast(r: Reading, base: nat, s: State, t: nat): State
    requires |s.held| >= 2
  {
    var n := |s.held|;
    s.(held := s.held[..n - 2] + [Blend(r, base, s.held[n - 1], s.held[n - 2], t)])
  }

  /** The last held block joins list `i`. */
  function InsertLast(s: State, i: nat): State
    requires i < |s.free| && s.held != []
  {
    var n := |s.held|;
    State(s.free[i := s.free[i] + [s.held[n - 1]]], s.held[..n - 1])
  }

  lemma SizedOrder(k: nat)
    requires k < ORDERS
    ensures IsOrderSize(Pow2(k))
  {
    Log2OfPow2(k);
  }

  lemma TakeFirstInv(s: State, placed: nat, i: nat)
    requires Inv(s, placed) && i < ORDERS && s.free[i] != []
    ensures Inv(TakeFirst(s, i), placed)
  {
    TakeFirstPages(s, i);
    TakeFirstShape(s, i);
  }

  lemma SplitFirstInv(s: State, placed: nat, i: nat)
    requires Inv(s, placed) && 1 <= i < ORDERS && s.free[i] != []
    ensures Inv(SplitFirst(s, i), placed)
  {
    SplitFirstPages(s, i);
    SplitFirstShape(s, i);
    assert |s.free[i][0][Pow2(i - 1)..]| == Pow2(i - 1);
  }

  lemma MoveLastInv(s: State, placed: nat, k: nat)
    requires Inv(s, placed) && k < |s.held|
    ensures Inv(MoveLast(s, k), placed)
  {
    RemovePages(s.held, k);
    AppendPages(Remove(s.held, k), s.held[k]);
  }

  lemma TakeAtInv(s: State, placed: nat, i: nat, j: nat)
    requires Inv(s, placed) && i < ORDERS && j < |s.free[i]|
    ensures Inv(TakeAt(s, i, j), placed)
  {
    var bs, rest := s.free[i], Remove(s.free[i], j);
    RemovePages(bs, j);
    FreePagesUpdate(s.free, i, rest);
    AppendPages(s.held, bs[j]);
    MoveBetween(FreePages(s.free), multiset(Flat(bs)), multiset(Flat(rest)), FreePages(s.free[i := rest]),
                multiset(bs[j]), multiset(Flat(s.held)));
    BlendStep(Intended, 0, s.free, bs[j], i, j);
  }

  lemma InsertLastInv(s: State, placed: nat, i: nat)
    requires Inv(s, placed) && i < ORDERS && s.held != [] && |s.held[|s.held| - 1]| == Pow2(i)
    ensures Inv(InsertLast(s, i), placed)
  {
    var n := |s.held|;
    var b, rest := s.held[n - 1], s.held[..n - 1];
    assert s.held == rest + [b];
    AppendPages(rest, b);
    InsertStep(s.free, b, i);
    assert AllPages(InsertLast(s, i)) == AllPages(s);
  }

  function PagesOf(bs: seq<Block>): multiset<nat> {
    multiset(Flat(bs))
  }

  lemma TwoMore(rest: seq<Block>, a: Block, b: Block)
    ensures PagesOf(rest + [a] + [b]) == PagesOf(rest) + multiset(a) + multiset(b)
  {
    AppendPages(rest + [a], b);
    AppendPages(rest, a);
    hide Flat;
  }

  lemma LastTwoPages(held: seq<Block>)
    requires |held| >= 2
    ensures PagesOf(held) == PagesOf(held[..|held| - 2]) + multiset(held[|held| - 2]) + multiset(held[|held| - 1])
  {
    hide PagesOf;
    var n := |held|;
    TwoMore(held[..n - 2], held[n - 2], held[n - 1]);
    assert held == held[..n - 2] + [held[n - 2]] + [held[n - 1]];
  }

  /** Two order-16 blocks cannot coexist: fewer than 2^17 pages were placed. */
  lemma BlendFits(s: State, placed: nat, t: nat)
    requires Inv(s, placed) && placed < Pow2(ORDERS) && |s.held| >= 2
    requires |s.held[|s.held| - 1]| == |s.held[|s.held| - 2]| == Pow2(t)
    ensures t + 1 < ORDERS
  {
    LastTwoPages(s.held);
    IdsCount(placed);
    assert |AllPages(s)| == |FreePages(s.free)| + |multiset(Flat(s.held))|;
    if t + 1 >= ORDERS { Pow2Monotonic(ORDERS, t + 1); }
  }

  lemma BlendLastPages(r: Reading, base: nat, s: State, t: nat)
    requires |s.held| >= 2
    ensures AllPages(BlendLast(r, base, s, t)) == AllPages(s)
  {
    var n := |s.held|;
    var both := Blend(r, base, s.held[n - 1], s.held[n - 2], t);
    LastTwoPages(s.held);
    AppendPages(s.held[..n - 2], both);
    assert multiset(both) == multiset(s.held[n - 2]) + multiset(s.held[n - 1]);
  }

  lemma BlendLastInv(r: Reading, base: nat, s: State, placed: nat, t: nat)
    requires Inv(s, placed) && placed < Pow2(ORDERS) && |s.held| >= 2
    requires |s.held[|s.held| - 1]| == |s.held[|s.held| - 2]| == Pow2(t)
    ensures t + 1 < ORDERS && Inv(BlendLast(r, base, s, t), placed)
  {
    BlendFits(s, placed, t);
    BlendLastPages(r, base, s, t);
  }

  // ---------- what moves between free and held ----------

  lemma AllocCount(s: State, s': State, b: Block, x: nat)
    requires AllPages(s') == AllPages(s) && s'.held == s.held + [b] && AllPages(s)[x] <= 1
    ensures FreePages(s'.free)[x] + multiset(b)[x] == FreePages(s.free)[x] <= 1
    ensures multiset(Flat(s'.held))[x] == multiset(Flat(s.held))[x] + multiset(b)[x]
  {
    AppendPages(s.held, b);
    assert AllPages(s')[x] == FreePages(s'.free)[x] + multiset(Flat(s'.held))[x];
    assert AllPages(s)[x] == FreePages(s.free)[x] + multiset(Flat(s.held))[x];
  }

  lemma FreeCount(s: State, s': State, k: nat, x: nat)
    requires k < |s.held| && s'.held == Remove(s.held, k) && AllPages(s') == AllPages(s) && AllPages(s)[x] <= 1
    ensures FreePages(s'.free)[x] == FreePages(s.free)[x] + multiset(s.held[k])[x]
    ensures multiset(Flat(s.held))[x] == multiset(Flat(s'.held))[x] + multiset(s.held[k])[x] <= 1
  {
    RemovePages(s.held, k);
    assert AllPages(s')[x] == FreePages(s'.free)[x] + multiset(Flat(s'.held))[x];
    assert AllPages(s)[x] == FreePages(s.free)[x] + multiset(Flat(s.held))[x];
  }

  lemma AllocHeld(s: State, n: nat)
    requires WellSized(s.free) && Alloc(s, n).Some?
    ensures var s' := Alloc(s, n).value; s'.held != [] && s'.held == s.held + [s'.held[|s'.held| - 1]]
  {
  }

  /** An allocated block comes off the free lists, page by page. */
  lemma AllocTakesFree(s: State, placed: nat, n: nat, x: nat)
    requires Sound(s, placed) && Alloc(s, n).Some?
    ensures var s' := Alloc(s, n).value;
            && s'.held == s.held + [s'.held[|s'.held| - 1]]
            && FreePages(s'.free)[x] + multiset(s'.held[|s'.held| - 1])[x] == FreePages(s.free)[x]
            && multiset(Flat(s'.held))[x] == multiset(Flat(s.held))[x] + multiset(s'.held[|s'.held| - 1])[x]
  {
    var s' := Alloc(s, n).value;
    AllocKeeps(s, n);
    AllocHeld(s, n);
    IdsOnce(placed, x);
    AllocCount(s, s', s'.held[|s'.held| - 1], x);
  }
}
