/**
  The buddy allocator's pointer code: an array of page records linked through index-valued
  `next`/`prev` fields, and a table of 17 list heads with block counts.  Every method is proved
  to turn the abstract state `s` into the one `BuddyModel` computes.
 */
module BuddyAllocator {
  import opened Bits
  import opened BuddyModel
  import opened Chains
  import opened Common

  const PHY_FREE: nat := 0
  const PHY_BUSY: nat := 1

  /** One entry of `buddy_table`. */
  datatype Item = Item(list: int, blkNum: int)

  /** Everything about a page but its links is unchanged. */
  predicate SameAttributes(ps: seq<Page>, ps': seq<Page>) {
    |ps| == |ps'| &&
    forall x :: 0 <= x < |ps| ==>
      ps'[x].refNum == ps[x].refNum && ps'[x].flags == ps[x].flags &&
      ps'[x].startAddr == ps[x].startAddr && ps'[x].va == ps[x].va
  }

  /** Reference counts, mapped addresses and start addresses are unchanged. */
  predicate SameRefs(ps: seq<Page>, ps': seq<Page>) {
    |ps| == |ps'| &&
    forall x :: 0 <= x < |ps| ==>
      ps'[x].refNum == ps[x].refNum && ps'[x].startAddr == ps[x].startAddr && ps'[x].va == ps[x].va
  }

  predicate TableOk(tb: seq<Item>, free: seq<seq<Block>>) {
    |tb| == |free| == ORDERS &&
    forall i :: 0 <= i < ORDERS ==> tb[i] == Item(Ptr(Flat(free[i]), 0), |free[i]|)
  }

  /** Records of real pages carry consecutive addresses; the rest of the array is zero. */
  predicate StartsOk(ps: seq<Page>, base: nat, total: nat) {
    |ps| == MAX_PG_NUM &&
    forall p :: 0 <= p < |ps| ==> ps[p].startAddr == if p < total then Addr(base, p) else 0
  }

  /** Records, table and abstract state agree. */
  ghost predicate Good(ps: seq<Page>, tb: seq<Item>, s: State, base: nat, total: nat) {
    Inv(s, Placed(total)) && AllLinked(ps, s) && TableOk(tb, s.free) && StartsOk(ps, base, total)
  }

  lemma TableUpdate(tb: seq<Item>, free: seq<seq<Block>>, i: nat, bs: seq<Block>)
    requires TableOk(tb, free) && i < ORDERS
    ensures TableOk(tb[i := Item(Ptr(Flat(bs), 0), |bs|)], free[i := bs])
  {
  }

  lemma StartsKept(ps: seq<Page>, ps': seq<Page>, base: nat, total: nat)
    requires StartsOk(ps, base, total) && SameAttributes(ps, ps')
    ensures StartsOk(ps', base, total)
  {
  }

  lemma TakeFirstGood(ps: seq<Page>, ps': seq<Page>, tb: seq<Item>, s: State, base: nat, total: nat, i: nat)
    requires Good(ps, tb, s, base, total) && i < ORDERS && s.free[i] != []
    requires CutAfter(ps, ps', Flat(s.free[i]), Pow2(i)) && SameAttributes(ps, ps')
    ensures Good(ps', tb[i := Item(Ptr(Flat(s.free[i]), Pow2(i)), |s.free[i]| - 1)], TakeFirst(s, i), base, total)
  {
    TakeFirstLinked(ps, ps', s, Placed(total), i);
    TakeFirstInv(s, Placed(total), i);
    StartsKept(ps, ps', base, total);
    FirstOfFlat(s.free[i]);
    TableUpdate(tb, s.free, i, s.free[i][1..]);
  }

  /** Pages on a free list are unreferenced and marked free; held pages are marked busy. */
  ghost predicate AttrsOk(ps: seq<Page>, s: State) {
    forall x: nat ::
      && (x in FreePages(s.free) ==> x < |ps| && ps[x].refNum == 0 && ps[x].flags == PHY_FREE)
      && (x in multiset(Flat(s.held)) ==> x < |ps| && ps[x].flags == PHY_BUSY)
  }

  /** `ps'` is `ps` with `b` linked behind `d`. */
  predicate Attached(ps: seq<Page>, ps': seq<Page>, d: seq<nat>, b: seq<nat>) {
    SameLinks(d + b, ps, ps') && Linked(ps', d + b) && SameAttributes(ps, ps')
  }

  lemma JoinEitherOrder(ps: seq<Page>, last: nat, first: nat)
    requires last < |ps| && first < |ps| && last != first
    ensures Chains.SetNext(Chains.SetPrev(ps, first, last), last, first) == Join(ps, last, first)
    ensures SameAttributes(ps, Join(ps, last, first))
  {
  }

  lemma AttachLinked(ps: seq<Page>, d: seq<nat>, b: seq<nat>)
    requires Linked(ps, d) && Linked(ps, b) && d != [] && b != [] && Distinct(d) && Distinct(b) && Apart(d, b)
    ensures Attached(ps, Join(ps, d[|d| - 1], b[0]), d, b)
  {
    var last, first, c := d[|d| - 1], b[0], d + b;
    JoinEitherOrder(ps, last, first);
    JoinChains(ps, d, b);
    assert c[|d| - 1] == last && c[|d|] == first;
    TouchLocal(ps, last, first, c);
  }

  lemma AttachFirst(ps: seq<Page>, b: seq<nat>)
    requires Linked(ps, b) && b != [] && Distinct(b)
    ensures Linked(Chains.SetPrev(ps, b[0], NULL), b)
  {
    var ps' := Chains.SetPrev(ps, b[0], NULL);
    forall k | 1 <= k < |b| ensures ps'[b[k]].prev == b[k - 1] {}
  }

  lemma AttachFirstLocal(ps: seq<Page>, first: nat, b: seq<nat>)
    requires first < |ps| && first in b
    ensures SameLinks(b, ps, Chains.SetPrev(ps, first, NULL))
    ensures SameAttributes(ps, Chains.SetPrev(ps, first, NULL))
  {
  }

  lemma SameAttributesTrans(a: seq<Page>, b: seq<Page>, c: seq<Page>)
    requires SameAttributes(a, b) && SameAttributes(b, c)
    ensures SameAttributes(a, c)
  {
  }

  lemma AttachedNone(ps: seq<Page>, d: seq<nat>, b: seq<nat>)
    requires Linked(ps, b) && d == []
    ensures Attached(ps, ps, d, b)
  {
    assert d + b == b;
  }

  lemma TouchAttributes(ps: seq<Page>, last: nat, first: nat)
    requires last < |ps| && first < |ps|
    ensures SameAttributes(ps, Cut(ps, last, first)) && SameAttributes(ps, Join(ps, last, first))
  {
  }

  lemma UnlinkAttributes(ps: seq<Page>, pre: seq<nat>, mid: seq<nat>, post: seq<nat>)
    requires mid != [] && Linked(ps, pre + mid + post)
    ensures SameAttributes(ps, Unlink(ps, pre, mid, post))
  {
    hide SameAttributes, Cut, Join;
    var c := pre + mid + post;
    ThreeSlices(pre, mid, post);
    SameAttributesRefl(ps);
    if post == [] {
      if pre != [] { TouchAttributes(ps, pre[|pre| - 1], mid[0]); }
    } else {
      assert c[|pre| + |mid| - 1] < |ps| && c[|pre| + |mid|] < |ps|;
      TouchAttributes(ps, mid[|mid| - 1], post[0]);
      var cut := Cut(ps, mid[|mid| - 1], post[0]);
      CutLength(ps, mid[|mid| - 1], post[0]);
      if pre != [] {
        assert c[|pre| - 1] < |ps|;
        TouchAttributes(cut, pre[|pre| - 1], post[0]);
        SameAttributesTrans(ps, cut, Join(cut, pre[|pre| - 1], post[0]));
      }
    }
  }

  lemma CutLength(ps: seq<Page>, last: nat, first: nat)
    requires last < |ps| && first < |ps|
    ensures |Cut(ps, last, first)| == |ps|
  {
  }

  lemma SameAttributesRefl(ps: seq<Page>)
    ensures SameAttributes(ps, ps)
  {
  }

  lemma SplitGood(ps: seq<Page>, ps1: seq<Page>, ps2: seq<Page>, tb: seq<Item>, s: State, base: nat, total: nat, i: nat)
    requires WellSized(s.free) && 1 <= i < ORDERS && s.free[i] != [] && Inv(s, Placed(total))
    requires Good(ps, tb, TakeFirst(s, i), base, total)
    requires var d, b := Flat(s.free[i - 1]), s.free[i][0];
             Attached(ps, ps1, d, b) && CutAfter(ps1, ps2, d + b, |d| + Pow2(i - 1)) && SameAttributes(ps1, ps2)
    ensures Good(ps2, tb[i - 1 := Item(Ptr(Flat(s.free[i - 1]) + s.free[i][0], 0), |s.free[i - 1]| + 1)],
                 SplitFirst(s, i), base, total)
  {
    hide Linked, SameLinks, SameAttributes, CutAfter, StartsOk, AllLinked, Flat, AllPages;
    var d, b, half := Flat(s.free[i - 1]), s.free[i][0], Pow2(i - 1);
    var lo, hi, t := b[..half], b[half..], TakeFirst(s, i);
    SplitChains(ps, ps1, ps2, t, Placed(total), i - 1, b, half);
    assert t.free[i - 1] == s.free[i - 1];
    assert b == lo + hi;
    GiveLowRelinked(ps, ps2, t, Placed(total), i - 1, lo, hi);
    assert t.held[..|t.held| - 1] == s.held;
    assert SplitFirst(s, i) == State(t.free[i - 1 := t.free[i - 1] + [lo]], t.held[..|t.held| - 1] + [hi]);
    SplitFirstInv(s, Placed(total), i);
    StartsKept(ps, ps1, base, total);
    StartsKept(ps1, ps2, base, total);
    FlatAppend(s.free[i - 1], lo);
    TableUpdate(tb, t.free, i - 1, t.free[i - 1] + [lo]);
  }

  lemma SplitChains(ps: seq<Page>, ps1: seq<Page>, ps2: seq<Page>, t: State, placed: nat, n: nat, b: Block, half: nat)
    requires Inv(t, placed) && AllLinked(ps, t) && n < ORDERS && t.held != [] && t.held[|t.held| - 1] == b
    requires 0 < half < |b|
    requires var d := Flat(t.free[n]);
             SameLinks(d + b, ps, ps1) && Linked(ps1, d + b) && CutAfter(ps1, ps2, d + b, |d| + half)
    ensures var d := Flat(t.free[n]);
            SameLinks(d + b, ps, ps2) && Linked(ps2, d + b[..half]) && Linked(ps2, b[half..])
  {
    hide Linked, SameLinks, SameAttributes, Distinct, Apart, CutAfter, Flat, AllPages;
    var d: seq<nat> := Flat(t.free[n]);
    FreeDistinct(t, placed, n);
    HeldDistinct(t, placed, |t.held| - 1);
    FreeHeldApart(t, placed, n, |t.held| - 1);
    DistinctJoin(d, b);
    CutAfterLinked(ps1, ps2, d + b, |d| + half);
    SliceJoin(d, b, half);
    Chains.SameLinksTrans(d + b, ps, ps1, ps2);
  }

  lemma SliceJoin(d: seq<nat>, b: seq<nat>, half: nat)
    requires half <= |b|
    ensures (d + b)[..|d| + half] == d + b[..half] && (d + b)[|d| + half..] == b[half..]
  {
  }

  lemma DistinctJoin(a: seq<nat>, b: seq<nat>)
    requires Distinct(a) && Distinct(b) && Apart(a, b)
    ensures Distinct(a + b)
  {
  }

  lemma ListAndBlock(ps: seq<Page>, s: State, placed: nat, i: nat, h: nat)
    requires Inv(s, placed) && AllLinked(ps, s) && i < ORDERS && h < |s.held|
    ensures Linked(ps, Flat(s.free[i])) && Linked(ps, s.held[h])
    ensures Distinct(Flat(s.free[i])) && Distinct(s.held[h]) && Apart(Flat(s.free[i]), s.held[h])
  {
    FreeDistinct(s, placed, i);
    HeldDistinct(s, placed, h);
    FreeHeldApart(s, placed, i, h);
  }

  /** `ps'` is `ps` with the flags of the records in `c` set to `f`. */
  predicate Flagged(ps: seq<Page>, ps': seq<Page>, c: seq<nat>, f: nat) {
    |ps'| == |ps| && forall x :: 0 <= x < |ps| ==> ps'[x] == if x in c then ps[x].(flags := f) else ps[x]
  }

  lemma FlaggedGood(ps: seq<Page>, ps': seq<Page>, tb: seq<Item>, s: State, base: nat, total: nat, c: seq<nat>, f: nat)
    requires Good(ps, tb, s, base, total) && Flagged(ps, ps', c, f)
    ensures Good(ps', tb, s, base, total)
  {
    forall i | 0 <= i < |s.free| ensures Linked(ps', Flat(s.free[i])) { LinkedFlagged(ps, ps', c, f, Flat(s.free[i])); }
    forall h | 0 <= h < |s.held| ensures Linked(ps', s.held[h]) { LinkedFlagged(ps, ps', c, f, s.held[h]); }
  }

  lemma FlagStep(ps: seq<Page>, cur: seq<Page>, c: seq<nat>, k: nat, f: nat)
    requires k < |c| && c[k] < |ps| && Distinct(c) && Flagged(ps, cur, c[..k], f)
    ensures Flagged(ps, cur[c[k] := cur[c[k]].(flags := f)], c[..k + 1], f)
    ensures cur[c[k]] == ps[c[k]]
  {
    assert c[k] !in c[..k];
    assert c[..k + 1] == c[..k] + [c[k]];
  }

  lemma LinkedFlagged(ps: seq<Page>, ps': seq<Page>, c: seq<nat>, f: nat, d: seq<nat>)
    requires Linked(ps, d) && Flagged(ps, ps', c, f)
    ensures Linked(ps', d)
  {
  }

  lemma AllocAttrs(ps: seq<Page>, ps': seq<Page>, s: State, s': State, b: Block)
    requires AttrsOk(ps, s) && AllPages(s') == AllPages(s) && s'.held == s.held + [b]
    requires Flagged(ps, ps', b, PHY_BUSY)
    requires forall x: nat :: AllPages(s)[x] <= 1
    ensures AttrsOk(ps', s')
  {
    AppendPages(s.held, b);
    forall x: nat
      ensures x in FreePages(s'.free) ==> x < |ps'| && ps'[x].refNum == 0 && ps'[x].flags == PHY_FREE
      ensures x in multiset(Flat(s'.held)) ==> x < |ps'| && ps'[x].flags == PHY_BUSY
    {
      AllocCount(s, s', b, x);
      assert x in multiset(b) <==> x in b;
    }
  }

  lemma FreshFlags(ps: seq<Page>, s: State, s': State, b: Block)
    requires AttrsOk(ps, s) && AllPages(s') == AllPages(s) && s'.held == s.held + [b]
    requires forall x: nat :: AllPages(s)[x] <= 1
    ensures forall k :: 0 <= k < |b| ==> b[k] < |ps| && ps[b[k]].flags == PHY_FREE
  {
    forall k | 0 <= k < |b| ensures b[k] < |ps| && ps[b[k]].flags == PHY_FREE {
      AllocCount(s, s', b, b[k]);
      assert b[k] in multiset(b);
    }
  }

  lemma AttrsKept(ps: seq<Page>, ps': seq<Page>, s: State)
    requires AttrsOk(ps, s) && SameAttributes(ps, ps')
    ensures AttrsOk(ps', s)
  {
  }

  lemma RefsKept(a: seq<Page>, b: seq<Page>, c: seq<Page>)
    requires SameAttributes(a, b) && SameRefs(b, c)
    ensures SameRefs(a, c)
  {
  }

  lemma AttributesGiveRefs(a: seq<Page>, b: seq<Page>)
    requires SameAttributes(a, b)
    ensures SameRefs(a, b)
  {
  }

  lemma FlaggedRefs(ps: seq<Page>, ps': seq<Page>, c: seq<nat>, f: nat)
    requires Flagged(ps, ps', c, f)
    ensures SameRefs(ps, ps')
  {
  }

  // ---------- freeing ----------

  /** The pages of list `bs` before, in and after block `j`. */
  lemma AroundBlock(bs: seq<Block>, j: nat, n: nat)
    requires j < |bs| && n > 0 && forall i :: 0 <= i < |bs| ==> |bs[i]| == n
    ensures Flat(bs) == Flat(bs[..j]) + bs[j] + Flat(bs[j + 1..])
    ensures Flat(Remove(bs, j)) == Flat(bs[..j]) + Flat(bs[j + 1..])
    ensures |Flat(bs[..j])| == j * n && (Flat(bs[..j]) == [] <==> j == 0)
  {
    FlatSplit(bs, j);
    FlatConcat(bs[..j], bs[j + 1..]);
    FlatLength(bs[..j], n);
    assert j >= 1 ==> j * n >= n;
  }

  lemma UnlinkedGood(ps: seq<Page>, ps': seq<Page>, tb: seq<Item>, s: State, base: nat, total: nat, i: nat, j: nat)
    requires Good(ps, tb, s, base, total) && i < ORDERS && j < |s.free[i]| && SameAttributes(ps, ps')
    requires SameLinks(Flat(s.free[i]), ps, ps')
    requires Linked(ps', s.free[i][j]) && Linked(ps', Flat(Remove(s.free[i], j)))
    ensures Good(ps', tb[i := Item(Ptr(Flat(Remove(s.free[i], j)), 0), |s.free[i]| - 1)], TakeAt(s, i, j), base, total)
  {
    RemoveRelinked(ps, ps', s, Placed(total), i, j);
    TakeAtInv(s, Placed(total), i, j);
    StartsKept(ps, ps', base, total);
    TableUpdate(tb, s.free, i, Remove(s.free[i], j));
  }

  lemma AttachedGood(ps: seq<Page>, ps': seq<Page>, tb: seq<Item>, s: State, base: nat, total: nat, i: nat)
    requires Good(ps, tb, s, base, total) && i < ORDERS && s.held != [] && |s.held[|s.held| - 1]| == Pow2(i)
    requires Attached(ps, ps', Flat(s.free[i]), s.held[|s.held| - 1])
    ensures Good(ps', tb[i := Item(Ptr(Flat(s.free[i]) + s.held[|s.held| - 1], 0), |s.free[i]| + 1)],
                 InsertLast(s, i), base, total)
  {
    var b := s.held[|s.held| - 1];
    InsertRelinked(ps, ps', s, Placed(total), i);
    InsertLastInv(s, Placed(total), i);
    StartsKept(ps, ps', base, total);
    FlatAppend(s.free[i], b);
    TableUpdate(tb, s.free, i, s.free[i] + [b]);
  }

  lemma BlendedGood(ps: seq<Page>, ps': seq<Page>, tb: seq<Item>, s: State, s': State, base: nat, total: nat,
          both: Block)
    requires Good(ps, tb, s, base, total) && |s.held| >= 2 && Inv(s', Placed(total))
    requires s' == s.(held := s.held[..|s.held| - 2] + [both])
    requires SameLinks(s.held[|s.held| - 2] + s.held[|s.held| - 1], ps, ps') && SameAttributes(ps, ps')
    requires Linked(ps', both)
    ensures Good(ps', tb, s', base, total)
  {
    BlendRelinked(ps, ps', s, Placed(total), both);
    StartsKept(ps, ps', base, total);
  }

  lemma MoveLastGood(ps: seq<Page>, tb: seq<Item>, s: State, base: nat, total: nat, k: nat)
    requires Good(ps, tb, s, base, total) && k < |s.held|
    ensures Good(ps, tb, MoveLast(s, k), base, total)
  {
    MoveLastInv(s, Placed(total), k);
    var held' := MoveLast(s, k).held;
    forall h | 0 <= h < |held'| ensures Linked(ps, held'[h]) {
      assert held'[h] == s.held[if h < k then h else if h < |s.held| - 1 then h + 1 else k];
    }
  }

  /** The page a chain of the state starts with is a real one, so its record carries its address. */
  lemma RealStart(ps: seq<Page>, s: State, base: nat, total: nat, x: nat)
    requires Inv(s, Placed(total)) && StartsOk(ps, base, total) && 1 <= total < MAX_PG_NUM && x in AllPages(s)
    ensures x < total && x < |ps| && ps[x].startAddr == Addr(base, x)
  {
    IdsOnce(Placed(total), x);
  }

  lemma BlockInList(s: State, i: nat, j: nat)
    requires WellSized(s.free) && i < ORDERS && j < |s.free[i]|
    ensures s.free[i][j] != [] && s.free[i][j][0] in AllPages(s)
  {
    var x := s.free[i][j][0];
    RemovePages(s.free[i], j);
    assert x in multiset(s.free[i][j]);
    CountInList(s.free, i, x);
  }

  lemma BlockHeld(s: State, h: nat)
    requires h < |s.held| && s.held[h] != []
    ensures s.held[h][0] in AllPages(s)
  {
    var x := s.held[h][0];
    assert x in multiset(s.held[h]);
    CountInHeld(s.held, h, x);
  }

  lemma FreeAttrs(ps: seq<Page>, ps1: seq<Page>, ps2: seq<Page>, s: State, s': State, k: nat)
    requires AttrsOk(ps, s) && k < |s.held| && s'.held == Remove(s.held, k)
    requires AllPages(s') == AllPages(s) && forall x: nat :: AllPages(s)[x] <= 1
    requires forall i :: 0 <= i < |s.held[k]| ==> s.held[k][i] < |ps| && ps[s.held[k][i]].refNum == 0
    requires Flagged(ps, ps1, s.held[k], PHY_FREE) && SameAttributes(ps1, ps2)
    ensures AttrsOk(ps2, s')
  {
    forall x: nat
      ensures x in FreePages(s'.free) ==> x < |ps2| && ps2[x].refNum == 0 && ps2[x].flags == PHY_FREE
      ensures x in multiset(Flat(s'.held)) ==> x < |ps2| && ps2[x].flags == PHY_BUSY
    {
      FreeCount(s, s', k, x);
      assert x in multiset(s.held[k]) <==> x in s.held[k];
    }
  }

  /** The chain of list `i` around its block `j`. */
  lemma Slices(ps: seq<Page>, s: State, placed: nat, i: nat, j: nat)
    returns (pre: seq<nat>, mid: seq<nat>, post: seq<nat>)
    requires Inv(s, placed) && AllLinked(ps, s) && i < ORDERS && j < |s.free[i]|
    ensures mid == s.free[i][j] && |mid| == Pow2(i) && (pre == [] <==> j * Pow2(i) == 0)
    ensures Flat(s.free[i]) == pre + mid + post && Flat(Remove(s.free[i], j)) == pre + post
    ensures Linked(ps, pre + mid + post) && Distinct(pre + mid + post)
  {
    pre, mid, post := Flat(s.free[i][..j]), s.free[i][j], Flat(s.free[i][j + 1..]);
    AroundBlock(s.free[i], j, Pow2(i));
    FreeDistinct(s, placed, i);
    assert Linked(ps, Flat(s.free[i]));
  }

  lemma TwoHeld(ps: seq<Page>, s: State, placed: nat, h: nat, g: nat)
    requires Inv(s, placed) && AllLinked(ps, s) && h < |s.held| && g < |s.held| && h != g
    ensures Linked(ps, s.held[h]) && Linked(ps, s.held[g])
    ensures Distinct(s.held[h]) && Distinct(s.held[g]) && Apart(s.held[h], s.held[g]) && Apart(s.held[g], s.held[h])
  {
    HeldDistinct(s, placed, h);
    HeldDistinct(s, placed, g);
    HeldApart(s, placed, h, g);
    HeldApart(s, placed, g, h);
  }

  lemma SwapTouched(a: seq<nat>, b: seq<nat>, ps: seq<Page>, ps': seq<Page>)
    requires SameLinks(a + b, ps, ps') || SameLinks(b + a, ps, ps')
    ensures SameLinks(a + b, ps, ps')
  {
    assert forall x :: x in a + b <==> x in b + a;
  }

  /** `s` and `buddy` are what the buddy search makes of `cur` at order `t`. */
  predicate AfterSearch(r: Reading, base: nat, cur: State, t: nat, s: State, buddy: int) {
    t < |cur.free| && cur.held != [] &&
    var bs, b := cur.free[t], cur.held[|cur.held| - 1];
    var j := FindBuddy(r, base, bs, b, t);
    if j == |bs| then buddy == NULL && s == cur
    else buddy == Ptr(bs[j], 0) && buddy != NULL && s == TakeAt(cur, t, j)
  }

  lemma SearchLengths(r: Reading, base: nat, cur: State, placed: nat, t: nat, s: State, buddy: int)
    requires AfterSearch(r, base, cur, t, s, buddy) && buddy != NULL && Inv(cur, placed) && t < ORDERS
    requires |cur.held[|cur.held| - 1]| == Pow2(t)
    ensures |s.held| == |cur.held| + 1 && s.held[|s.held| - 2] == cur.held[|cur.held| - 1]
    ensures buddy == Ptr(s.held[|s.held| - 1], 0)
    ensures |s.held[|s.held| - 1]| == |s.held[|s.held| - 2]| == Pow2(t)
    ensures s.held[..|s.held| - 2] == cur.held[..|cur.held| - 1]
  {
  }

  lemma CoalesceEnd(r: Reading, base: nat, cur: State, t: nat)
    requires |cur.free| == ORDERS && t < ORDERS && cur.held != []
    requires FindBuddy(r, base, cur.free[t], cur.held[|cur.held| - 1], t) == |cur.free[t]|
    ensures Coalesce(r, base, cur.free, cur.held[|cur.held| - 1], t) == Some(InsertLast(cur, t).free)
  {
  }

  /** A successful search followed by a blend is one unfolding of the coalescing function. */
  lemma CoalesceUnfold(r: Reading, base: nat, cur: State, t: nat, next: State)
    requires |cur.free| == ORDERS && t + 1 < ORDERS && cur.held != []
    requires var j := FindBuddy(r, base, cur.free[t], cur.held[|cur.held| - 1], t);
             j < |cur.free[t]| && next == BlendLast(r, base, TakeAt(cur, t, j), t)
    ensures next.held != [] && |next.held| == |cur.held| && next.held[..|next.held| - 1] == cur.held[..|cur.held| - 1]
    ensures Coalesce(r, base, cur.free, cur.held[|cur.held| - 1], t)
         == Coalesce(r, base, next.free, next.held[|next.held| - 1], t + 1)
  {
    var j := FindBuddy(r, base, cur.free[t], cur.held[|cur.held| - 1], t);
    var mid := TakeAt(cur, t, j);
    assert mid.held[|cur.held|] == cur.free[t][j] && mid.held[|cur.held| - 1] == cur.held[|cur.held| - 1];
    assert mid.held[..|cur.held| - 1] == cur.held[..|cur.held| - 1];
  }

  /** Blocks of 2^t pages that start at real pages. */
  predicate RealBlocks(bs: seq<Block>, t: nat, total: nat) {
    forall j :: 0 <= j < |bs| ==> |bs[j]| == Pow2(t) && bs[j][0] < total
  }

  lemma ListsAreReal(ps: seq<Page>, s: State, base: nat, total: nat, t: nat, h: nat)
    requires Inv(s, Placed(total)) && StartsOk(ps, base, total) && 1 <= total < MAX_PG_NUM && t < ORDERS
    requires h < |s.held| && s.held[h] != []
    ensures RealBlocks(s.free[t], t, total) && s.held[h][0] < total
  {
    BlockHeld(s, h);
    RealStart(ps, s, base, total, s.held[h][0]);
    forall j | 0 <= j < |s.free[t]| ensures |s.free[t][j]| == Pow2(t) && s.free[t][j][0] < total {
      BlockInList(s, t, j);
      RealStart(ps, s, base, total, s.free[t][j][0]);
    }
  }

  lemma ChainNext(ps: seq<Page>, c: seq<nat>, k: nat)
    requires Linked(ps, c) && k < |c|
    ensures Ptr(c, k) == c[k] < |ps| && ps[c[k]].next == Ptr(c, k + 1)
  {
  }

  lemma MulMonotonic(a: nat, b: nat, n: nat)
    requires a <= b
    ensures a * n <= b * n
  {
    assert b * n == a * n + (b - a) * n;
  }

  lemma MulNext(a: nat, n: nat)
    ensures (a + 1) * n == a * n + n
  {
  }

  /** Comparing with the start of block `j` is comparing block numbers. */
  lemma BlockBelow(k: nat, j: nat, n: nat)
    ensures k <= j ==> k * n <= j * n
    ensures k < j ==> k * n + n <= j * n
  {
    if k <= j { MulMonotonic(k, j, n); }
    if k < j { MulMonotonic(k + 1, j, n); MulNext(k, n); }
  }

  /** Where block `j` starts in its list's chain. */
  function StartOf(j: nat, n: nat): nat {
    j * n
  }

  /** The page reached is page `cnt % n` of block `cnt / n`; it comes no later than block `j`. */
  lemma WhichBlock(blocks: nat, n: nat, cnt: nat, j: nat)
    requires n > 0 && j <= blocks && cnt < StartOf(blocks, n) && cnt <= StartOf(j, n)
    ensures var at, off := cnt / n, cnt % n;
            && at < blocks && at <= j && (off > 0 ==> at < j)
            && (off == 0 ==> cnt == StartOf(at, n)) && (off == 0 && at == j <==> cnt == StartOf(j, n))
  {
    var at, off := cnt / n, cnt % n;
    assert cnt == at * n + off;
    BlockBelow(blocks, at, n);
    BlockBelow(j, at, n);
    BlockBelow(at, j, n);
  }

  /** A list's block `j` starts at its page `j * n`. */
  lemma BlockStart(bs: seq<Block>, j: nat, n: nat)
    requires j < |bs| && n > 0 && forall i :: 0 <= i < |bs| ==> |bs[i]| == n
    ensures StartOf(j, n) < |Flat(bs)| && Flat(bs)[StartOf(j, n)] == bs[j][0]
  {
    AroundBlock(bs, j, n);
  }

  lemma ListEnd(bs: seq<Block>, j: nat, n: nat)
    requires n > 0 && j <= |bs| && forall i :: 0 <= i < |bs| ==> |bs[i]| == n
    ensures |Flat(bs)| == StartOf(|bs|, n) == |bs| * n && (j < |bs| ==> StartOf(j, n) < StartOf(|bs|, n))
  {
    FlatLength(bs, n);
    BlockBelow(j, |bs|, n);
  }

  lemma RefsSame(ps: seq<Page>)
    ensures SameRefs(ps, ps)
  {
  }

  lemma PlacedFits(total: nat)
    requires 1 <= total < MAX_PG_NUM
    ensures Placed(total) < Pow2(ORDERS)
  {
    Pow2At17();
  }

  lemma BlockReady(ps: seq<Page>, s: State, placed: nat, k: nat)
    requires Inv(s, placed) && AllLinked(ps, s) && HeldSized(s.held) && k < |s.held|
    ensures Linked(ps, s.held[k]) && Distinct(s.held[k]) && s.held[k] != []
    ensures Log2(|s.held[k]|) < ORDERS && |s.held[k]| == Pow2(Log2(|s.held[k]|))
  {
    HeldDistinct(s, placed, k);
    assert IsOrderSize(|s.held[k]|);
  }

  lemma ReleasedAttrs(r: Reading, base: nat, ps: seq<Page>, ps1: seq<Page>, ps2: seq<Page>, s: State, s': State,
          placed: nat, k: nat)
    requires Inv(s, placed) && Inv(s', placed) && HeldSized(s.held) && AttrsOk(ps, s) && k < |s.held|
    requires Log2(|s.held[k]|) < ORDERS
    requires Coalesce(r, base, s.free, s.held[k], Log2(|s.held[k]|)) == Some(s'.free) && s'.held == Remove(s.held, k)
    requires forall i :: 0 <= i < |s.held[k]| ==> s.held[k][i] < |ps| && ps[s.held[k][i]].refNum == 0
    requires Flagged(ps, ps1, s.held[k], PHY_FREE) && SameAttributes(ps1, ps2)
    ensures Free(r, base, s, k) == Some(s') && AttrsOk(ps2, s') && HeldSized(s'.held) && SameRefs(ps, ps2)
  {
    OnceEach(s, placed);
    FreeAttrs(ps, ps1, ps2, s, s', k);
    RemoveSized(s.held, k);
    FlaggedRefs(ps, ps1, s.held[k], PHY_FREE);
    RefsThenAttributes(ps, ps1, ps2);
  }

  lemma RefsThenAttributes(a: seq<Page>, b: seq<Page>, c: seq<Page>)
    requires SameRefs(a, b) && SameAttributes(b, c)
    ensures SameRefs(a, c)
  {
  }

  lemma HeldIsLinked(ps: seq<Page>, s: State, h: nat)
    requires AllLinked(ps, s) && h < |s.held|
    ensures Linked(ps, s.held[h])
  {
  }

  lemma ListLinked(ps: seq<Page>, s: State, i: nat)
    requires AllLinked(ps, s) && i < |s.free|
    ensures Linked(ps, Flat(s.free[i]))
  {
  }

  // ---------- boot ----------

  /** Lists of order `lim` and above are set up, those below are still empty. */
  predicate InitSoFar(ps: seq<Page>, tb: seq<Item>, n: nat, lim: nat) {
    && |tb| == ORDERS && lim <= ORDERS
    && (forall i :: lim <= i < ORDERS ==> tb[i] == Item(Ptr(Flat(InitList(n, i)), 0), |InitList(n, i)|))
    && (forall i :: lim <= i < ORDERS ==> Linked(ps, Flat(InitList(n, i))))
    && (forall i :: 0 <= i < lim ==> tb[i] == Item(NULL, 0))
  }

  lemma InitChain(n: nat, i: nat)
    ensures Flat(InitList(n, i)) == if PlacedAt(n, i) then Ids(ClearLow(n, i + 1), Pow2(i)) else []
  {
    if PlacedAt(n, i) { FlatOne(Ids(ClearLow(n, i + 1), Pow2(i))); }
  }

  /** The pages of the blocks placed so far precede the pages still to be placed. */
  lemma InitBelow(n: nat, i: nat, lim: nat)
    requires lim <= i && n >= 2
    ensures forall k :: 0 <= k < |Flat(InitList(n, i))| ==> Flat(InitList(n, i))[k] < ClearLow(n, lim)
  {
    InitChain(n, i);
    ClearLowStep(n, i);
    ClearLowMonotonic(n, lim, i);
  }

  lemma InitStep(ps: seq<Page>, ps': seq<Page>, tb: seq<Item>, n: nat, lim: nat, idx: nat, start: nat)
    requires n >= 1 && InitSoFar(ps, tb, n, lim) && idx < lim && start == ClearLow(n, idx + 1) == ClearLow(n, lim)
    requires PlacedAt(n, idx) && forall i :: idx < i < lim ==> !PlacedAt(n, i)
    requires n == 1 ==> lim == ORDERS
    requires SameLinks(Ids(start, Pow2(idx)), ps, ps') && Linked(ps', Ids(start, Pow2(idx)))
    ensures InitSoFar(ps', tb[idx := Item(start, 1)], n, idx)
  {
    hide Linked, SameLinks, ClearLow, Flat, Ids;
    var tb' := tb[idx := Item(start, 1)];
    InitChain(n, idx);
    EmptyLinked(ps');
    assert |Ids(start, Pow2(idx))| == Pow2(idx) && Ids(start, Pow2(idx))[0] == start;
    forall i | idx <= i < ORDERS
      ensures tb'[i] == Item(Ptr(Flat(InitList(n, i)), 0), |InitList(n, i)|) && Linked(ps', Flat(InitList(n, i)))
    {
      InitChain(n, i);
      if i >= lim {
        InitBelow(n, i, lim);
        IdsApart(Flat(InitList(n, i)), start, Pow2(idx));
        LinkedElsewhere(ps, ps', Ids(start, Pow2(idx)), Flat(InitList(n, i)));
      }
    }
  }

  lemma IdsApart(c: seq<nat>, start: nat, k: nat)
    requires forall j :: 0 <= j < |c| ==> c[j] < start
    ensures Apart(c, Ids(start, k))
  {
  }

  lemma InitDone(ps: seq<Page>, tb: seq<Item>, base: nat, n: nat, lim: nat)
    requires 1 <= n < MAX_PG_NUM && InitSoFar(ps, tb, n, lim) && StartsOk(ps, base, n)
    requires forall i :: 0 <= i < lim ==> !PlacedAt(n, i)
    ensures Good(ps, tb, State(InitFree(n), []), base, n)
  {
    hide Linked, StartsOk, Flat, Ids;
    Pow2At17();
    InitInv(n);
    EmptyLinked(ps);
    var free := InitFree(n);
    forall i | 0 <= i < ORDERS
      ensures Linked(ps, Flat(free[i])) && tb[i] == Item(Ptr(Flat(free[i]), 0), |free[i]|)
    {
      InitChain(n, i);
    }
  }

  lemma ItemBelow(ps: seq<Page>, tb: seq<Item>, n: nat, lim: nat, i: nat)
    requires InitSoFar(ps, tb, n, lim) && i < lim
    ensures i < |tb| && tb[i] == Item(NULL, 0)
  {
  }

  /** What is left below bit `lim` is less than 2^lim, so its leading bit is below `lim`. */
  lemma LeftFits(n: nat, lim: nat, idx: nat)
    requires Pow2(idx) <= n - ClearLow(n, lim)
    ensures idx < lim
  {
    ModAtMost(n, Pow2(lim));
    if idx >= lim { Pow2Monotonic(lim, idx); }
  }

  lemma SmallRest(n: nat, lim: nat, sum: nat)
    requires sum == n - ClearLow(n, lim) && n >= 1 && (n == 1 <==> lim == 0)
    ensures Log2(sum) != 0 ==> sum >= 2 && n >= 2
    ensures n == 1 ==> sum == 0
  {
    assert Pow2(0) == 1;
  }

  lemma NothingLeft(n: nat, lim: nat, sum: nat)
    requires sum == n - ClearLow(n, lim) && Log2(sum) == 0 && n >= 1 && (n == 1 <==> lim == 0)
    ensures forall i :: 0 <= i < lim ==> !PlacedAt(n, i)
  {
    if lim > 0 {
      assert Pow2(1) == 2;
      NoBitsBetween(n, 0, lim);
    }
  }

  lemma InitStart(ps: seq<Page>, tb: seq<Item>, n: nat)
    requires n < MAX_PG_NUM && |tb| == ORDERS && forall i :: 0 <= i < ORDERS ==> tb[i] == Item(NULL, 0)
    ensures InitSoFar(ps, tb, n, ORDERS) && ClearLow(n, ORDERS) == 0
  {
    Pow2At17();
    DivUnique(n, Pow2(ORDERS), 0, n);
  }

  lemma InitAttrs(ps0: seq<Page>, ps: seq<Page>, n: nat)
    requires 1 <= n < MAX_PG_NUM && |ps| == MAX_PG_NUM && SameAttributes(ps0, ps)
    requires forall p :: 0 <= p < |ps0| ==> ps0[p].refNum == 0 && ps0[p].flags == PHY_FREE
    ensures AttrsOk(ps, State(InitFree(n), [])) && HeldSized([])
  {
    Pow2At17();
    InitInv(n);
    forall x: nat | x in FreePages(InitFree(n)) ensures x < |ps| {
      InvIsPartition(State(InitFree(n), []), Placed(n), x);
    }
  }

  lemma OnceEach(s: State, placed: nat)
    requires Inv(s, placed)
    ensures forall x: nat :: AllPages(s)[x] <= 1
  {
    forall x: nat ensures AllPages(s)[x] <= 1 { Once(s, placed, x); }
  }

  lemma ListEmpty(free: seq<seq<Block>>, i: nat)
    requires WellSized(free) && i < ORDERS
    ensures Ptr(Flat(free[i]), 0) == NULL <==> free[i] == []
  {
    if free[i] != [] { FirstOfFlat(free[i]); }
  }

  method ComputeLog2(x: int) returns (res: nat)
    ensures res == if x < 0 then 0 else Log2(x)
  {
    var v := 1;
    res := 0;
    while v * 2 <= x
      invariant v == Pow2(res) && (res == 0 || v <= x)
      decreases x - v
    {
      v := v * 2;
      res := res + 1;
    }
    if x >= 1 {
      Log2Bounds(x);
      if Log2(x) < res { Pow2Monotonic(Log2(x), res); }
      if res < Log2(x) { Pow2Monotonic(res, Log2(x)); }
    }
  }

  method ComputePow2(x: nat) returns (res: nat)
    ensures res == Pow2(x)
  {
    res := 1;
    for i := 0 to x
      invariant res == Pow2(i)
    {
      res := res * 2;
    }
  }

  /** Kilobytes to pages, rounding up. */
  function PagesFor(memsize: nat): (n: nat)
    ensures 4 * n >= memsize && (n > 0 ==> 4 * (n - 1) < memsize)
  {
    if memsize % 4 != 0 then memsize / 4 + 1 else memsize / 4
  }

  /** A page of the chain, from its page number `off` on, is referenced. */
  predicate Referenced(ps: seq<Page>, c: seq<nat>, off: nat) {
    exists i :: off <= i < |c| && c[i] < |ps| && ps[c[i]].refNum > 0
  }

  /** Walking a chain from one of its pages on. */
  lemma RestOfChain(ps: seq<Page>, c: seq<nat>, off: nat)
    requires Linked(ps, c) && off < |c|
    ensures Linked(ps, c[off..]) && Ptr(c[off..], 0) == Ptr(c, off)
    ensures Referenced(ps, c, off) <==>
              !forall i :: 0 <= i < |c[off..]| ==> c[off..][i] < |ps| && ps[c[off..][i]].refNum == 0
  {
    var rest := c[off..];
    assert c == c[..off] + rest;
    SuffixLinked(ps, c[..off], rest);
    if Referenced(ps, c, off) {
      var i :| off <= i < |c| && c[i] < |ps| && ps[c[i]].refNum > 0;
      assert rest[i - off] == c[i];
    }
  }

  class Buddy {
    const reading: Reading
    const base: nat
    const phyPageNum: nat
    const total: nat      // records in play: on a machine with no page the code uses record 0 all the same
    const pages: array<Page>
    const table: array<Item>
    ghost var s: State

    ghost predicate Linkage()
      reads this, pages, table
    {
      && 1 <= total < MAX_PG_NUM
      && pages.Length == MAX_PG_NUM && table.Length == ORDERS
      && Good(pages[..], table[..], s, base, total)
    }

    ghost predicate Valid()
      reads this, pages, table
    {
      Linkage() && HeldSized(s.held) && AttrsOk(pages[..], s)
    }

    /** `n` steps along `next`. */
    method Walk(p: int, n: nat, ghost c: seq<nat>, ghost at: nat) returns (q: int)
      requires Linked(pages[..], c) && at + n <= |c| && p == Ptr(c, at)
      ensures q == Ptr(c, at + n)
    {
      q := p;
      var cnt := 0;
      while cnt < n
        invariant 0 <= cnt <= n && q == Ptr(c, at + cnt)
      {
        assert c[at + cnt] < |pages[..]|;
        q := pages[q].next;
        cnt := cnt + 1;
      }
    }

    /** The last record of a non-empty chain. */
    method Tail(p: nat, ghost c: seq<nat>) returns (q: nat)
      requires Linked(pages[..], c) && c != [] && p == c[0]
      ensures q == c[|c| - 1]
    {
      q := p;
      ghost var k := 0;
      assert c[0] < |pages[..]|;
      while pages[q].next != NULL
        invariant 0 <= k < |c| && q == c[k] && q < pages.Length
        decreases |c| - k
      {
        assert c[k + 1] < |pages[..]|;
        q := pages[q].next;
        k := k + 1;
      }
    }

    method CountPages(p: int, ghost c: seq<nat>) returns (res: nat)
      requires Linked(pages[..], c) && p == Ptr(c, 0)
      ensures res == |c|
    {
      res := 0;
      var q := p;
      while q != NULL
        invariant 0 <= res <= |c| && q == Ptr(c, res)
        decreases |c| - res
      {
        assert c[res] < |pages[..]|;
        q := pages[q].next;
        res := res + 1;
      }
    }

    /** Can the block be freed: is no page of it referenced? */
    method CheckFreePages(p: int, ghost c: seq<nat>) returns (ok: bool)
      requires Linked(pages[..], c) && p == Ptr(c, 0)
      ensures ok <==> forall k :: 0 <= k < |c| ==> c[k] < pages.Length && pages[c[k]].refNum == 0
    {
      var q := p;
      ghost var j := 0;
      while q != NULL
        invariant 0 <= j <= |c| && q == Ptr(c, j)
        invariant forall k :: 0 <= k < j ==> c[k] < pages.Length && pages[c[k]].refNum == 0
        decreases |c| - j
      {
        assert c[j] < |pages[..]|;
        if pages[q].refNum > 0 {
          return false;
        }
        q := pages[q].next;
        j := j + 1;
      }
      return true;
    }

    /** Index of the record whose page starts at `paddr`, or -1. */
    method FindPageIndex(paddr: nat) returns (i: int)
      requires pages.Length == MAX_PG_NUM
      ensures i == -1 ==> forall p :: 0 <= p < MAX_PG_NUM ==> pages[p].startAddr != paddr
      ensures i != -1 ==>
                && 0 <= i < MAX_PG_NUM && pages[i].startAddr == paddr
                && forall p :: 0 <= p < i ==> pages[p].startAddr != paddr
    {
      i := 0;
      while i < MAX_PG_NUM
        invariant 0 <= i <= MAX_PG_NUM && forall p :: 0 <= p < i ==> pages[p].startAddr != paddr
      {
        if pages[i].startAddr == paddr {
          return;
        }
        i := i + 1;
      }
      i := -1;
    }

    method SetNext(p: nat, q: int)
      requires p < pages.Length
      modifies pages
      ensures pages[..] == Chains.SetNext(old(pages[..]), p, q)
    {
      pages[p] := pages[p].(next := q);
    }

    method SetPrev(p: nat, q: int)
      requires p < pages.Length
      modifies pages
      ensures pages[..] == Chains.SetPrev(old(pages[..]), p, q)
    {
      pages[p] := pages[p].(prev := q);
    }

    method SetItem(i: nat, list: int, blkNum: int)
      requires i < table.Length
      modifies table
      ensures table[..] == old(table[..])[i := Item(list, blkNum)]
    {
      table[i] := Item(list, blkNum);
    }

    ghost method Become(t: State)
      requires 1 <= total < MAX_PG_NUM && pages.Length == MAX_PG_NUM && table.Length == ORDERS
      requires Good(pages[..], table[..], t, base, total)
      modifies this
      ensures Linkage() && s == t
    {
      s := t;
    }

    /** Cut chain `c` in front of `p`, its record number `n`; `p` is NULL at the chain's end. */
    method CutBefore(p: int, ghost c: seq<nat>, ghost n: nat)
      requires Linked(pages[..], c) && 0 < n <= |c| && p == Ptr(c, n)
      modifies pages
      ensures CutAfter(old(pages[..]), pages[..], c, n) && SameAttributes(old(pages[..]), pages[..])
    {
      if p != NULL {
        assert c[n] < |pages[..]| && c[n - 1] < |pages[..]|;
        SetNext(pages[p].prev, NULL);
        SetPrev(p, NULL);
      }
    }

    /** Cut the first block off list `i`. */
    method CutFirst(i: nat) returns (blk: nat)
      requires Linkage() && i < ORDERS && s.free[i] != []
      modifies this, pages, table
      ensures Linkage() && s == TakeFirst(old(s), i) && blk == old(s).free[i][0][0]
      ensures SameAttributes(old(pages[..]), pages[..])
    {
      hide AllLinked, StartsOk, AllPages, Linked, SameAttributes, CutAfter;
      ghost var ps, tb, s0, c := pages[..], table[..], s, Flat(s.free[i]);
      assert Linked(ps, c) by { ListLinked(ps, s0, i); }
      FirstOfFlat(s0.free[i]);
      blk := table[i].list;
      var p := Walk(blk, Pow2(i), c, 0);
      CutBefore(p, c, Pow2(i));
      SetItem(i, p, table[i].blkNum - 1);
      ghost var ps', tb' := pages[..], table[..];
      assert tb' == tb[i := Item(Ptr(c, Pow2(i)), |s0.free[i]| - 1)];
      TakeFirstGood(ps, ps', tb, s0, base, total, i);
      Become(TakeFirst(s0, i));
    }

    /** Link block `b` behind chain `d`, whose last record is `p` (NULL when `d` is empty). */
    method Attach(p: int, blk: nat, ghost d: seq<nat>, ghost b: seq<nat>)
      requires Linked(pages[..], d) && Linked(pages[..], b) && b != [] && blk == b[0]
      requires Distinct(d) && Distinct(b) && Apart(d, b)
      requires p == if d == [] then NULL else d[|d| - 1]
      modifies pages
      ensures Attached(old(pages[..]), pages[..], d, b)
    {
      ghost var ps := pages[..];
      assert b[0] < |ps|;
      SetPrev(blk, p);
      if p != NULL {
        assert d[|d| - 1] < |ps|;
        SetNext(p, blk);
        JoinEitherOrder(ps, p, blk);
        AttachLinked(ps, d, b);
      } else {
        assert d + b == b;
        AttachFirst(ps, b);
        assert b[0] in b;
        AttachFirstLocal(ps, blk, b);
      }
    }

    /** The last record of list `i`, found by counting its pages; NULL when the list is empty. */
    method ListTail(i: nat) returns (p: int)
      requires Linkage() && i < ORDERS
      ensures var d := Flat(s.free[i]); p == if d == [] then NULL else d[|d| - 1]
    {
      FlatLength(s.free[i], Pow2(i));
      p := table[i].list;
      var pgNum := table[i].blkNum * Pow2(i);
      if pgNum > 0 {
        p := Walk(p, pgNum - 1, Flat(s.free[i]), 0);
      }
    }

    /** Split the first block of list `idx`; the upper half is returned, the lower one joins the list below. */
    method SplitBlock(idx: nat) returns (blk: nat)
      requires Linkage() && 1 <= idx < ORDERS && s.free[idx] != []
      modifies this, pages, table
      ensures Linkage() && s == SplitFirst(old(s), idx)
      ensures blk == old(s).free[idx][0][Pow2(idx - 1)..][0]
      ensures SameAttributes(old(pages[..]), pages[..])
    {
      hide AllLinked, StartsOk, TableOk, Linked, SameLinks, SameAttributes, AllPages, CutAfter, Flat;
      ghost var s0 := s;
      var blk0 := CutFirst(idx);
      ghost var ps, tb, mid := pages[..], table[..], [];
      blk, mid := GiveLowHalf(idx, blk0, s0);
      ghost var ps' := pages[..];
      SplitGood(ps, mid, ps', tb, s0, base, total, idx);
      Become(SplitFirst(s0, idx));
      SameAttributesTrans(ps, mid, ps');
      SameAttributesTrans(old(pages[..]), ps, ps');
    }

    /** Link `b` behind `d` and cut the result `half` records into `b`. */
    method AttachAndHalve(p: int, blk0: nat, half: nat, ghost d: seq<nat>, ghost b: seq<nat>)
      returns (blk: nat, ghost mid: seq<Page>)
      requires Linked(pages[..], d) && Linked(pages[..], b) && blk0 == Ptr(b, 0)
      requires Distinct(d) && Distinct(b) && Apart(d, b) && 0 < half < |b|
      requires p == if d == [] then NULL else d[|d| - 1]
      modifies pages
      ensures Attached(old(pages[..]), mid, d, b)
      ensures CutAfter(mid, pages[..], d + b, |d| + half) && SameAttributes(mid, pages[..])
      ensures blk == b[half]
    {
      // through a null tail, the write at address 0 reads back as the block itself
      Attach(p, blk0, d, b);
      mid := pages[..];
      assert (d + b)[|d|] == b[0] && (d + b)[|d| + half] == b[half];
      var q := Walk(blk0, half, d + b, |d|);
      CutBefore(q, d + b, |d| + half);
      blk := q;
    }

    /** Link the block just cut off list `idx` behind the list below and cut its upper half off again. */
    method GiveLowHalf(idx: nat, blk0: nat, ghost s0: State) returns (blk: nat, ghost mid: seq<Page>)
      requires Linkage() && 1 <= idx < ORDERS && |s0.free| == ORDERS && s0.free[idx] != []
      requires |s0.free[idx][0]| == Pow2(idx) && s == TakeFirst(s0, idx) && blk0 == s0.free[idx][0][0]
      modifies pages, table
      ensures var d, b := Flat(s0.free[idx - 1]), s0.free[idx][0];
              && Attached(old(pages[..]), mid, d, b)
              && CutAfter(mid, pages[..], d + b, |d| + Pow2(idx - 1)) && SameAttributes(mid, pages[..])
              && table[..] == old(table[..])[idx - 1 := Item(Ptr(d + b, 0), |s0.free[idx - 1]| + 1)]
              && blk == b[Pow2(idx - 1)]
    {
      hide StartsOk, AllPages, Linked, SameLinks, SameAttributes, CutAfter, Distinct, Apart, Flat;
      var nextid := idx - 1;
      ghost var d, b := Flat(s.free[nextid]), s.held[|s0.held|];
      assert s.free[nextid] == s0.free[nextid] && b == s0.free[idx][0];
      var p := ListTail(nextid);
      ListAndBlock(pages[..], s, Placed(total), nextid, |s0.held|);
      assert 0 < Pow2(nextid) < Pow2(idx);
      blk, mid := AttachAndHalve(p, blk0, Pow2(nextid), d, b);
      SetItem(nextid, if p == NULL then blk0 else table[nextid].list, table[nextid].blkNum + 2 - 1);
    }

    method SetFlags(p: nat, f: nat)
      requires p < pages.Length
      modifies pages
      ensures pages[..] == old(pages[..])[p := old(pages[p]).(flags := f)]
    {
      pages[p] := pages[p].(flags := f);
    }

    /** `flags |= PHY_BUSY` along a chain of free pages. */
    method MarkBusy(p: int, ghost c: seq<nat>)
      requires Linked(pages[..], c) && Distinct(c) && p == Ptr(c, 0)
      requires forall k :: 0 <= k < |c| ==> c[k] < pages.Length && pages[c[k]].flags == PHY_FREE
      modifies pages
      ensures Flagged(old(pages[..]), pages[..], c, PHY_BUSY)
    {
      var q := p;
      ghost var k, ps := 0, pages[..];
      while q != NULL
        invariant 0 <= k <= |c| && q == Ptr(c, k)
        invariant Flagged(ps, pages[..], c[..k], PHY_BUSY)
        decreases |c| - k
      {
        assert c[k] < |ps|;
        FlagStep(ps, pages[..], c, k, PHY_BUSY);
        SetFlags(q, Or(pages[q].flags, PHY_BUSY));
        q := pages[q].next;
        k := k + 1;
      }
      assert c[..k] == c;
    }

    method MarkFree(p: int, ghost c: seq<nat>)
      requires Linked(pages[..], c) && Distinct(c) && p == Ptr(c, 0)
      modifies pages
      ensures Flagged(old(pages[..]), pages[..], c, PHY_FREE)
    {
      var q := p;
      ghost var k, ps := 0, pages[..];
      while q != NULL
        invariant 0 <= k <= |c| && q == Ptr(c, k)
        invariant Flagged(ps, pages[..], c[..k], PHY_FREE)
        decreases |c| - k
      {
        assert c[k] < |ps|;
        FlagStep(ps, pages[..], c, k, PHY_FREE);
        SetFlags(q, PHY_FREE);
        q := pages[q].next;
        k := k + 1;
      }
      assert c[..k] == c;
    }

    /**
      Split list `i` for a smaller request.  The guard that would split further is never true after the first split.
     */
    method SplitDown(i: nat) returns (blk: nat)
      requires Linkage() && 1 <= i < ORDERS && s.free[i] != []
      modifies this, pages, table
      ensures Linkage() && s == SplitFirst(old(s), i)
      ensures blk == Ptr(s.held[|s.held| - 1], 0)
      ensures SameAttributes(old(pages[..]), pages[..])
    {
      hide AllLinked, StartsOk, TableOk, AllPages, SameAttributes, Flat;
      blk := SplitBlock(i);
      ghost var b := s.held[|s.held| - 1];
      HeldIsLinked(pages[..], s, |s.held| - 1);
      var cnt := CountPages(blk, b);
      assert !(cnt > 2 * Pow2(i));
    }

    /** The first non-empty list from order `idx` up, or 17. */
    method FindList(idx: nat) returns (i: nat)
      requires Linkage() && idx <= ORDERS
      ensures i == FirstFit(s.free, idx)
    {
      i := idx;
      while i < ORDERS
        invariant idx <= i <= ORDERS && forall j :: idx <= j < i ==> s.free[j] == []
      {
        ListEmpty(s.free, i);
        if table[i].list != NULL {
          return;
        }
        i := i + 1;
      }
    }

    /** The order searched first. */
    method StartOrder(n: nat) returns (idx: nat)
      ensures idx == NeedOrder(n)
    {
      idx := ComputeLog2(n);
      var size := ComputePow2(idx);
      if size < n {
        idx := idx + 1;
      }
    }

    /**
      Find and cut off a block for `n` pages; the pages are not marked yet.  `past` when the first list looked
      at would already lie past the table; the code reads there, nothing is promised of what it finds.
     */
    method TakeBlock(n: nat) returns (blk: int, past: bool)
      requires Linkage()
      modifies this, pages, table
      ensures past <==> n > MAX_REQUEST
      ensures Linkage() && SameAttributes(old(pages[..]), pages[..])
      ensures blk == NULL <==> Alloc(old(s), n) == None
      ensures blk == NULL ==> s == old(s) && pages[..] == old(pages[..]) && table[..] == old(table[..])
      ensures blk != NULL ==> Alloc(old(s), n) == Some(s) && blk == Ptr(s.held[|s.held| - 1], 0)
    {
      NeedOrderIsCeiling(n);
      var idx := StartOrder(n);
      SameAttributesRefl(pages[..]);
      hide NeedOrder, SameAttributes;
      past := idx >= ORDERS;
      if past {
        return NULL, true;
      }
      var i := FindList(idx);
      assert i == FitOrder(s.free, n);
      if i == ORDERS {
        blk := NULL;
      } else if i == idx {
        blk := CutFirst(i);
      } else {
        blk := SplitDown(i);
      }
    }

    /** Allocate pages for `memsize` kilobytes. */
    method AllocBuddy(memsize: nat) returns (blk: int, flag: bool, past: bool)
      requires Valid()
      modifies this, pages, table
      ensures Valid() && (past <==> memsize > 4 * MAX_REQUEST)
      ensures flag <==> Alloc(old(s), PagesFor(memsize)).Some?
      ensures flag ==> s == Alloc(old(s), PagesFor(memsize)).value && blk == Ptr(s.held[|s.held| - 1], 0)
      ensures !flag ==> s == old(s) && blk == NULL && pages[..] == old(pages[..])
      ensures SameRefs(old(pages[..]), pages[..])
    {
      hide AllLinked, TableOk, StartsOk, WellSized, SameAttributes, SameRefs, AttrsOk, HeldSized, AllPages, Alloc;
      ghost var s0 := s;
      var n := memsize / 4;
      if memsize % 4 != 0 {
        n := n + 1;
      }
      blk, past := TakeBlock(n);
      ghost var ps := pages[..];
      flag := blk != NULL;
      if !flag {
        AttributesGiveRefs(old(pages[..]), ps);
        return;
      }
      AttrsKept(old(pages[..]), ps, s0);
      AllocHeld(s0, n);
      AllocKeeps(s0, n);
      MarkTaken(blk, s0);
      RefsKept(old(pages[..]), ps, pages[..]);
    }

    method MarkTaken(blk: int, ghost s0: State)
      requires Linkage() && s.held != [] && blk == Ptr(s.held[|s.held| - 1], 0)
      requires Inv(s0, Placed(total)) && s.held == s0.held + [s.held[|s.held| - 1]] && AttrsOk(pages[..], s0)
      requires HeldSized(s.held)
      modifies pages
      ensures Valid() && SameRefs(old(pages[..]), pages[..])
    {
      ghost var ps, b := pages[..], s.held[|s.held| - 1];
      HeldDistinct(s, Placed(total), |s.held| - 1);
      OnceEach(s0, Placed(total));
      FreshFlags(ps, s0, s, b);
      MarkBusy(blk, b);
      ghost var ps' := pages[..];
      FlaggedGood(ps, ps', table[..], s, base, total, b, PHY_BUSY);
      AllocAttrs(ps, ps', s0, s, b);
      FlaggedRefs(ps, ps', b, PHY_BUSY);
    }

    /**
      The test made at page `cnt` of the list: only a block's first page is tested; the first match stops the search.
     */
    method TestAt(p: nat, blk: nat, idx: nat, cnt: nat, ghost bs: seq<Block>, ghost b: Block) returns (yes: bool)
      requires StartsOk(pages[..], base, total) && total < MAX_PG_NUM && RealBlocks(bs, idx, total)
      requires b != [] && b[0] < total && blk == b[0]
      requires cnt < StartOf(|bs|, Pow2(idx)) == |Flat(bs)| && p == Flat(bs)[cnt]
      requires cnt <= StartOf(FindBuddy(reading, base, bs, b, idx), Pow2(idx))
      ensures yes ==> FindBuddy(reading, base, bs, b, idx) < |bs| && p == bs[FindBuddy(reading, base, bs, b, idx)][0]
      ensures yes <==> cnt == StartOf(FindBuddy(reading, base, bs, b, idx), Pow2(idx))
    {
      var pgCnt := ComputePow2(idx);
      ghost var j, at := FindBuddy(reading, base, bs, b, idx), cnt / pgCnt;
      WhichBlock(|bs|, pgCnt, cnt, j);
      hide StartOf, Flat;
      yes := false;
      if cnt % pgCnt == 0 {
        BlockStart(bs, at, pgCnt);
        yes := AddrsMatch(reading, pages[p].startAddr, pages[blk].startAddr, idx);
        FindBuddyFirst(reading, base, bs, b, idx, 0, at);
      }
    }

    /** Search list `idx`, page by page, for the first block that passes the buddy test. */
    method SearchBuddy(blk: nat, idx: nat, ghost bs: seq<Block>, ghost b: Block) returns (p: int, cnt: nat)
      requires StartsOk(pages[..], base, total) && total < MAX_PG_NUM && RealBlocks(bs, idx, total)
      requires b != [] && b[0] < total && blk == b[0] && Linked(pages[..], Flat(bs))
      requires idx < table.Length && table[idx] == Item(Ptr(Flat(bs), 0), |bs|)
      ensures var j := FindBuddy(reading, base, bs, b, idx);
              && (p == NULL <==> j == |bs|)
              && (p != NULL ==> p == bs[j][0] && cnt == StartOf(j, Pow2(idx)))
    {
      ghost var c := Flat(bs);
      var pgCnt := ComputePow2(idx);
      cnt := 0;
      p := table[idx].list;
      ghost var j := FindBuddy(reading, base, bs, b, idx);
      ListEnd(bs, j, pgCnt);
      var end := table[idx].blkNum * pgCnt;
      assert end == |c|;
      hide FindBuddy, Flat, RealBlocks, StartsOk, StartOf;
      while cnt < end
        invariant cnt <= |c| && p == Ptr(c, cnt) && cnt <= StartOf(j, pgCnt)
        decreases |c| - cnt
      {
        ChainNext(pages[..], c, cnt);
        var yes := TestAt(p, blk, idx, cnt, bs, b);
        if yes {
          return;
        }
        p := pages[p].next;
        cnt := cnt + 1;
      }
      p := NULL;
    }

    /** Unlink `mid`, the records from `p` on, from the end of `pre + mid`. */
    method UnlinkEnd(p: nat, isFirst: bool, ghost pre: seq<nat>, ghost mid: seq<nat>)
      requires Linked(pages[..], pre + mid) && mid != [] && p == mid[0] < pages.Length && (isFirst <==> pre == [])
      requires pre != [] ==> pre[|pre| - 1] < pages.Length
      modifies pages
      ensures pages[..] == if pre == [] then old(pages[..]) else Cut(old(pages[..]), pre[|pre| - 1], mid[0])
    {
      ghost var c, m := pre + mid, |pre|;
      assert c[m] == mid[0];
      assert pre != [] ==> c[m - 1] == pre[m - 1] && pages[p].prev == pre[m - 1];
      hide Linked;
      if !isFirst {
        SetNext(pages[p].prev, NULL);
        SetPrev(p, NULL);
      }
    }

    /** Unlink `mid`, the records from `p` up to `pp`, out of `pre + mid + post`. */
    method UnlinkInside(p: nat, pp: nat, isFirst: bool, ghost pre: seq<nat>, ghost mid: seq<nat>, ghost post: seq<nat>)
      requires mid != [] && post != [] && p == mid[0] < pages.Length && pp == post[0] < pages.Length && p != pp
      requires pages[pp].prev == mid[|mid| - 1] < pages.Length && (isFirst <==> pre == [])
      requires pre != [] ==> pages[p].prev == pre[|pre| - 1] < pages.Length
      modifies pages
      ensures var cut := Cut(old(pages[..]), mid[|mid| - 1], post[0]);
              pages[..] == if pre == [] then cut else Join(cut, pre[|pre| - 1], post[0])
    {
      ghost var ps := pages[..];
      CutEffect(ps, mid[|mid| - 1], pp);
      SetNext(pages[pp].prev, NULL);
      SetPrev(pp, NULL);
      assert pages[..] == Cut(ps, mid[|mid| - 1], pp);
      hide Cut;
      assert pages[p].prev == pages[..][p].prev;
      if !isFirst {
        SetNext(pages[p].prev, pp);
        SetPrev(pp, pages[p].prev);
      }
    }

    /** Unlink the records `mid`, from `p` up to `pp`, out of `pre + mid + post`. */
    method UnlinkRecords(p: nat, pp: int, isFirst: bool, ghost pre: seq<nat>, ghost mid: seq<nat>, ghost post: seq<nat>)
      requires Linked(pages[..], pre + mid + post) && Distinct(pre + mid + post)
      requires mid != [] && p == mid[0] && pp == Ptr(post, 0) && (isFirst <==> pre == [])
      modifies pages
      ensures pages[..] == Unlink(old(pages[..]), pre, mid, post)
      ensures SameAttributes(old(pages[..]), pages[..])
    {
      ghost var ps := pages[..];
      Neighbours(ps, pre, mid, post);
      UnlinkAttributes(ps, pre, mid, post);
      hide Linked, SameAttributes, Distinct, Cut, Join;
      if pp == NULL {
        assert post == [] && pre + mid + post == pre + mid;
        UnlinkEnd(p, isFirst, pre, mid);
      } else {
        UnlinkInside(p, pp, isFirst, pre, mid, post);
      }
    }

    /** Unlink the block `mid` starting at `p`, `cnt` pages into list `idx`, and take it off the list. */
    method UnlinkFromList(p: nat, idx: nat, cnt: nat, ghost pre: seq<nat>, ghost mid: seq<nat>, ghost post: seq<nat>)
      requires Linked(pages[..], pre + mid + post) && Distinct(pre + mid + post)
      requires |mid| == Pow2(idx) && p == mid[0] && (cnt == 0 <==> pre == [])
      requires idx < table.Length && table[idx].list == Ptr(pre + mid + post, 0)
      modifies pages, table
      ensures Linked(pages[..], mid) && Linked(pages[..], pre + post)
      ensures SameLinks(pre + mid + post, old(pages[..]), pages[..]) && SameAttributes(old(pages[..]), pages[..])
      ensures table[..] == old(table[..])[idx := Item(Ptr(pre + post, 0), old(table[idx]).blkNum - 1)]
    {
      hide Linked, SameLinks, SameAttributes, Distinct;
      ghost var ps := pages[..];
      assert Ptr(pre + mid + post, |pre|) == mid[0];
      var pp := Walk(p, Pow2(idx), pre + mid + post, |pre|);
      assert pp == Ptr(post, 0);
      UnlinkRecords(p, pp, cnt == 0, pre, mid, post);
      UnlinkLinked(ps, pre, mid, post);
      UnlinkLocal(ps, pre, mid, post);
      assert Ptr(pre + post, 0) == if pre == [] then pp else Ptr(pre + mid + post, 0);
      SetItem(idx, if cnt == 0 then pp else table[idx].list, table[idx].blkNum - 1);
    }

    /** Take block `j` out of list `idx`. */
    method CutOut(p: nat, idx: nat, cnt: nat, ghost j: nat)
      requires Linkage() && idx < ORDERS && j < |s.free[idx]| && p == Ptr(s.free[idx][j], 0)
      requires cnt == StartOf(j, Pow2(idx))
      modifies pages, table, this
      ensures Linkage() && s == TakeAt(old(s), idx, j) && SameAttributes(old(pages[..]), pages[..])
    {
      ghost var ps, tb, s0 := pages[..], table[..], s;
      assert Good(ps, tb, s0, base, total);
      ghost var pre, mid, post := Slices(ps, s0, Placed(total), idx, j);
      UnlinkFromList(p, idx, cnt, pre, mid, post);
      ghost var ps', tb' := pages[..], table[..];
      assert tb' == tb[idx := Item(Ptr(pre + post, 0), |s0.free[idx]| - 1)];
      UnlinkedGood(ps, ps', tb, s0, base, total, idx, j);
      Become(TakeAt(s0, idx, j));
    }

    /** Take the buddy of the last held block out of list `idx`; NULL when no block passes the test. */
    method FindBuddyBlock(blk: nat, idx: nat) returns (p: int)
      requires Linkage() && idx < ORDERS && s.held != [] && s.held[|s.held| - 1] != []
      requires blk == Ptr(s.held[|s.held| - 1], 0)
      modifies pages, table, this
      ensures Linkage() && SameAttributes(old(pages[..]), pages[..])
      ensures AfterSearch(reading, base, old(s), idx, s, p)
    {
      ghost var bs, b := s.free[idx], s.held[|s.held| - 1];
      ListsAreReal(pages[..], s, base, total, idx, |s.held| - 1);
      assert Linked(pages[..], Flat(bs));
      var cnt;
      p, cnt := SearchBuddy(blk, idx, bs, b);
      if p != NULL {
        CutOut(p, idx, cnt, FindBuddy(reading, base, bs, b, idx));
      }
    }

    method JoinBlocks(res: nat, other: nat, ghost a: seq<nat>, ghost b: seq<nat>)
      requires Linked(pages[..], a) && Linked(pages[..], b) && a != [] && b != []
      requires Distinct(a) && Distinct(b) && Apart(a, b) && res == a[0] && other == b[0]
      modifies pages
      ensures Attached(old(pages[..]), pages[..], a, b)
    {
      var p := Tail(res, a);
      Attach(p, other, a, b);
    }

    /** Join a buddy `b` and a block `a`, the buddy first when its tested address bit is clear. */
    method JoinInOrder(buddy: nat, blk: nat, t: nat, ghost a: seq<nat>, ghost b: seq<nat>)
      returns (res: nat, ghost both: Block)
      requires Linked(pages[..], a) && Linked(pages[..], b) && a != [] && b != []
      requires Distinct(a) && Distinct(b) && Apart(a, b) && Apart(b, a) && blk == a[0] && buddy == b[0]
      requires buddy < pages.Length && pages[buddy].startAddr == Addr(base, b[0])
      modifies pages
      ensures both == Blend(reading, base, b, a, t) && both != [] && res == both[0] && Linked(pages[..], both)
      ensures SameLinks(a + b, old(pages[..]), pages[..]) && SameAttributes(old(pages[..]), pages[..])
    {
      ghost var ps := pages[..];
      both := Blend(reading, base, b, a, t);
      if Bit(pages[buddy].startAddr, BlendBit(reading, t)) == 0 {
        JoinBlocks(buddy, blk, b, a);
        res := buddy;
      } else {
        JoinBlocks(blk, buddy, a, b);
        res := blk;
      }
      SwapTouched(a, b, ps, pages[..]);
    }

    /** Join the last two held blocks, a block and its buddy, in the order the tested address bit says. */
    method BlendBlk(buddy: nat, blk: nat, t: nat) returns (res: nat)
      requires Linkage() && Placed(total) < Pow2(ORDERS) && |s.held| >= 2
      requires buddy == Ptr(s.held[|s.held| - 1], 0) && blk == Ptr(s.held[|s.held| - 2], 0)
      requires |s.held[|s.held| - 1]| == |s.held[|s.held| - 2]| == Pow2(t)
      modifies pages, this
      ensures t + 1 < ORDERS && Linkage() && s == BlendLast(reading, base, old(s), t)
      ensures res == Ptr(s.held[|s.held| - 1], 0) && SameAttributes(old(pages[..]), pages[..])
    {
      hide Linked, SameLinks, SameAttributes, Distinct, Apart, StartsOk, TableOk, AllLinked, WellSized, AllPages,
          Blend, Bit;
      ghost var ps, tb, s0, g, h := pages[..], table[..], s, |s.held| - 1, |s.held| - 2;
      ghost var a, b := s0.held[h], s0.held[g];
      assert Good(ps, tb, s0, base, total);
      BlendLastInv(reading, base, s0, Placed(total), t);
      BlockHeld(s0, g);
      RealStart(ps, s0, base, total, buddy);
      TwoHeld(ps, s0, Placed(total), h, g);
      ghost var both;
      res, both := JoinInOrder(buddy, blk, t, a, b);
      ghost var ps', s1 := pages[..], BlendLast(reading, base, s0, t);
      assert table[..] == tb;
      BlendedGood(ps, ps', tb, s0, s1, base, total, both);
      Become(s1);
    }

    /** Put block `b` at the tail of list `t`, whose chain is `d`. */
    method AppendToList(blk: nat, t: nat, ghost d: seq<nat>, ghost b: seq<nat>)
      requires t < table.Length && table[t].list == Ptr(d, 0)
      requires Linked(pages[..], d) && Linked(pages[..], b) && b != [] && blk == b[0]
      requires Distinct(d) && Distinct(b) && Apart(d, b)
      modifies pages, table
      ensures Attached(old(pages[..]), pages[..], d, b)
      ensures table[..] == old(table[..])[t := Item(Ptr(d + b, 0), old(table[t]).blkNum + 1)]
    {
      hide Linked, SameLinks, SameAttributes, Distinct, Apart;
      if table[t].list == NULL {
        AttachedNone(pages[..], d, b);
        assert d + b == b;
        SetItem(t, blk, table[t].blkNum + 1);
      } else {
        JoinBlocks(table[t].list, blk, d, b);
        SetItem(t, table[t].list, table[t].blkNum + 1);
      }
    }

    /** Put the last held block at the tail of list `t`. */
    method InsertBlock(blk: nat, t: nat)
      requires Linkage() && t < ORDERS && s.held != [] && blk == Ptr(s.held[|s.held| - 1], 0)
      requires |s.held[|s.held| - 1]| == Pow2(t)
      modifies pages, table, this
      ensures Linkage() && s == InsertLast(old(s), t) && SameAttributes(old(pages[..]), pages[..])
    {
      hide Inv, AllLinked, StartsOk, Linked, SameAttributes, FreeLinked, HeldLinked, WellSized;
      ghost var ps, tb, s0 := pages[..], table[..], s;
      ghost var d, b := Flat(s0.free[t]), s0.held[|s0.held| - 1];
      ListAndBlock(ps, s0, Placed(total), t, |s0.held| - 1);
      AppendToList(blk, t, d, b);
      ghost var ps', tb' := pages[..], table[..];
      assert tb' == tb[t := Item(Ptr(d + b, 0), |s0.free[t]| + 1)];
      AttachedGood(ps, ps', tb, s0, base, total, t);
      Become(InsertLast(s0, t));
    }

    /**
      The coalescing loop's invariant: the block `cur` held last starts at `blk` and has order `t`, the
      search at that order found `buddy`, and what is left to compute is what was asked for.
     */
    ghost predicate Rising(cur: State, t: nat, blk: int, buddy: int, rest: seq<Block>, want: Option<seq<seq<Block>>>)
      reads this, pages, table
    {
      && Linkage() && t < ORDERS && Inv(cur, Placed(total)) && AfterSearch(reading, base, cur, t, s, buddy)
      && cur.held[..|cur.held| - 1] == rest
      && blk == Ptr(cur.held[|cur.held| - 1], 0) && |cur.held[|cur.held| - 1]| == Pow2(t)
      && want == Coalesce(reading, base, cur.free, cur.held[|cur.held| - 1], t)
    }

    /** One round of the coalescing loop: blend with the buddy found, then search one order up. */
    method BlendAndSearch(buddy: nat, blk: nat, t: nat, ghost cur: State, ghost rest: seq<Block>,
            ghost want: Option<seq<seq<Block>>>)
      returns (blk': nat, buddy': int, ghost cur': State)
      requires Placed(total) < Pow2(ORDERS) && Rising(cur, t, blk, buddy, rest, want)
      modifies pages, table, this
      ensures Rising(cur', t + 1, blk', buddy', rest, want) && SameAttributes(old(pages[..]), pages[..])
    {
      hide AllLinked, TableOk, StartsOk, SameAttributes, AllPages, Coalesce, FindBuddy;
      ghost var ps := pages[..];
      SearchLengths(reading, base, cur, Placed(total), t, s, buddy);
      blk' := BlendBlk(buddy, blk, t);
      ghost var ps' := pages[..];
      cur' := s;
      CoalesceUnfold(reading, base, cur, t, cur');
      assert |cur'.held[|cur'.held| - 1]| == Pow2(t + 1);
      buddy' := FindBuddyBlock(blk', t + 1);
      SameAttributesTrans(ps, ps', pages[..]);
    }

    /** Blend the last held block upwards from order `t` and insert the result. */
    method CoalesceUp(pgBlk: nat, t: nat)
      requires Linkage() && Placed(total) < Pow2(ORDERS) && t < ORDERS && s.held != []
      requires pgBlk == Ptr(s.held[|s.held| - 1], 0) && |s.held[|s.held| - 1]| == Pow2(t)
      modifies pages, table, this
      ensures Linkage() && SameAttributes(old(pages[..]), pages[..])
      ensures Coalesce(reading, base, old(s).free, old(s).held[|old(s).held| - 1], t) == Some(s.free)
      ensures s.held == old(s).held[..|old(s).held| - 1]
    {
      hide AllLinked, TableOk, StartsOk, SameAttributes, AllPages, Coalesce, FindBuddy;
      ghost var ps, cur := pages[..], s;
      ghost var rest := cur.held[..|cur.held| - 1];
      ghost var want := Coalesce(reading, base, cur.free, cur.held[|cur.held| - 1], t);
      var tmp, blk := t, pgBlk;
      var buddy := FindBuddyBlock(blk, tmp);
      while buddy != NULL
        invariant Rising(cur, tmp, blk, buddy, rest, want) && SameAttributes(ps, pages[..])
        decreases ORDERS - tmp
      {
        ghost var ps' := pages[..];
        blk, buddy, cur := BlendAndSearch(buddy, blk, tmp, cur, rest, want);
        tmp := tmp + 1;
        SameAttributesTrans(ps, ps', pages[..]);
      }
      ghost var ps' := pages[..];
      CoalesceEnd(reading, base, cur, tmp);
      InsertBlock(blk, tmp);
      SameAttributesTrans(ps, ps', pages[..]);
    }

    /**
      Give back block `k` of the held ones, unless one of its pages is still referenced.  From a page inside the block,
      number `off`, the pages from there on are looked at; nothing happens if one of them is referenced, and a caller
      that frees an unreferenced rest of a block is not covered.
     */
    method FreeBuddy(pgBlk: nat, ghost k: nat, ghost off: nat)
      requires Valid() && k < |s.held| && off < |s.held[k]| && pgBlk == Ptr(s.held[k], off)
      requires off == 0 || Referenced(pages[..], s.held[k], off)
      modifies pages, table, this
      ensures Valid() && SameRefs(old(pages[..]), pages[..])
      ensures if Referenced(old(pages[..]), old(s).held[k], off)
              then s == old(s) && pages[..] == old(pages[..]) && table[..] == old(table[..])
              else Free(reading, base, old(s), k) == Some(s)
    {
      hide TableOk, StartsOk, WellSized, AttrsOk, SameAttributes, SameRefs, AllPages, IsOrderSize, Referenced;
      ghost var ps, c := pages[..], s.held[k];
      assert Linked(ps, c);
      RestOfChain(ps, c, off);
      var ok := CheckFreePages(pgBlk, c[off..]);
      if !ok {
        RefsSame(ps);
        return;
      }
      assert c[off..] == c;
      Release(pgBlk, k);
    }

    /** The freeing itself, once no page of the block is referenced. */
    method Release(pgBlk: nat, ghost k: nat)
      requires Valid() && k < |s.held| && pgBlk == Ptr(s.held[k], 0)
      requires forall i :: 0 <= i < |s.held[k]| ==> s.held[k][i] < pages.Length && pages[s.held[k][i]].refNum == 0
      modifies pages, table, this
      ensures Valid() && SameRefs(old(pages[..]), pages[..])
      ensures Free(reading, base, old(s), k) == Some(s)
    {
      hide TableOk, StartsOk, WellSized, AllLinked, AttrsOk, SameAttributes, SameRefs, AllPages, HeldSized,
          Coalesce, Flagged, Distinct, Linked;
      ghost var ps, tb, s0, c := pages[..], table[..], s, s.held[k];
      BlockReady(ps, s0, Placed(total), k);
      MarkFree(pgBlk, c);
      var pgNum := CountPages(pgBlk, c);
      var idx := ComputeLog2(pgNum);
      ghost var ps1 := pages[..];
      FlaggedGood(ps, ps1, tb, s0, base, total, c, PHY_FREE);
      MoveLastGood(ps1, tb, s0, base, total, k);
      Become(MoveLast(s0, k));
      PlacedFits(total);
      CoalesceUp(pgBlk, idx);
      ghost var ps2 := pages[..];
      ReleasedAttrs(reading, base, ps, ps1, ps2, s0, s, Placed(total), k);
    }

    /** `phyPageNum` page records for the pages from `base` on, all unlinked, and zeroed records after them. */
    constructor (reading: Reading, base: nat, phyPageNum: nat)
      ensures this.reading == reading && this.phyPageNum == phyPageNum
      ensures if phyPageNum == 0 then this.base == 0 && total == 1 else this.base == base && total == phyPageNum
      ensures fresh(pages) && fresh(table) && pages.Length == MAX_PG_NUM && table.Length == ORDERS
      ensures StartsOk(pages[..], this.base, total)
      ensures forall p :: 0 <= p < MAX_PG_NUM ==>
                pages[p] == Page(0, PHY_FREE, if p < phyPageNum then Addr(base, p) else 0, 0, NULL, NULL)
    {
      this.reading, this.phyPageNum := reading, phyPageNum;
      this.base, this.total := if phyPageNum == 0 then 0 else base, if phyPageNum == 0 then 1 else phyPageNum;
      pages := new Page[MAX_PG_NUM](p =>
        Page(0, PHY_FREE, if 0 <= p < phyPageNum then Addr(base, p) else 0, 0, NULL, NULL));
      table := new Item[ORDERS](_ => Item(NULL, 0));
    }

    /** Link the records from `start` on into one chain of `n`. */
    method LinkRun(start: nat, n: nat)
      requires n > 0 && start + n <= pages.Length
      modifies pages
      ensures Linked(pages[..], Ids(start, n)) && SameLinks(Ids(start, n), old(pages[..]), pages[..])
      ensures SameAttributes(old(pages[..]), pages[..])
    {
      ghost var ps := pages[..];
      var i := 0;
      while i < n
        invariant 0 <= i <= n && SameAttributes(ps, pages[..])
        invariant forall k :: start <= k < start + i ==> pages[k].next == if k + 1 < start + i then k + 1 else NULL
        invariant forall k :: start < k < start + i ==> pages[k].prev == k - 1
        invariant forall x :: 0 <= x < pages.Length && !(start <= x < start + i) ==> pages[x] == ps[x]
      {
        if i == 0 {
          pages[start] := pages[start].(next := NULL, prev := NULL);
        } else {
          pages[start + i] := pages[start + i].(prev := start + i - 1);
          pages[start + i - 1] := pages[start + i - 1].(next := start + i);
          pages[start + i] := pages[start + i].(next := NULL);
        }
        i := i + 1;
      }
      forall x | start <= x < start + n ensures x in Ids(start, n) {
        assert Ids(start, n)[x - start] == x;
      }
    }

    method ClearTable()
      requires table.Length == ORDERS
      modifies table
      ensures forall i :: 0 <= i < ORDERS ==> table[i] == Item(NULL, 0)
    {
      for i := 0 to ORDERS
        invariant forall j :: 0 <= j < i ==> table[j] == Item(NULL, 0)
      {
        table[i] := Item(NULL, 0);
      }
    }

    /** One block of 2^idx pages, from page `start` on, becomes list `idx`. */
    method PlaceBlock(start: nat, idx: nat, ghost lim: nat)
      requires 1 <= total < MAX_PG_NUM && pages.Length == MAX_PG_NUM && table.Length == ORDERS
      requires InitSoFar(pages[..], table[..], total, lim) && start == ClearLow(total, lim)
      requires idx < lim && Pow2(idx) <= total - start < Pow2(idx + 1) && (total == 1 <==> idx == 0)
      requires total == 1 ==> lim == ORDERS
      modifies pages, table
      ensures InitSoFar(pages[..], table[..], total, idx) && start + Pow2(idx) == ClearLow(total, idx)
      ensures SameAttributes(old(pages[..]), pages[..])
    {
      hide InitSoFar, SameAttributes, Linked, SameLinks, ClearLow, Ids;
      ghost var ps, tb := pages[..], table[..];
      LeadingBit(total, idx, lim);
      ClearLowStep(total, idx);
      var pgNum := ComputePow2(idx);
      LinkRun(start, pgNum);
      ghost var ps' := pages[..];
      ItemBelow(ps, tb, total, lim, idx);
      SetItem(idx, start, table[idx].blkNum + 1);
      InitStep(ps, ps', tb, total, lim, idx, start);
    }

    /** Set up the lists at boot. */
    method InitBuddy()
      requires total < MAX_PG_NUM && pages.Length == MAX_PG_NUM && table.Length == ORDERS
      requires total == (if phyPageNum == 0 then 1 else phyPageNum) && StartsOk(pages[..], base, total)
      requires forall p :: 0 <= p < MAX_PG_NUM ==> pages[p].refNum == 0 && pages[p].flags == PHY_FREE
      modifies pages, table, this
      ensures Valid() && s == State(InitFree(total), [])
    {
      hide InitSoFar, SameAttributes, ClearLow, StartsOk, Good, AttrsOk, PlacedAt;
      ghost var ps := pages[..];
      ghost var lim: nat := ORDERS;
      ClearTable();
      InitStart(ps, table[..], total);
      SameAttributesRefl(ps);
      var sum: int, start: nat := phyPageNum, 0;
      ghost var d := total - phyPageNum;
      Log2Bounds(total);
      var idx := ComputeLog2(sum);
      var more := true;
      while more
        invariant InitSoFar(pages[..], table[..], total, lim) && SameAttributes(ps, pages[..])
        invariant lim <= ORDERS && start == ClearLow(total, lim) && sum + d == total - start && idx == Log2(sum + d)
        invariant more ==> sum + d >= 1 && (idx == 0 <==> total == 1) && (total == 1 ==> lim == ORDERS)
        invariant !more ==> idx == 0 && lim < ORDERS && (total == 1 <==> lim == 0)
        decreases sum + d, more
      {
        ghost var ps' := pages[..];
        var size := ComputePow2(idx);
        Log2Bounds(sum + d);
        LeftFits(total, lim, idx);
        PlaceBlock(start, idx, lim);
        lim := idx;
        start := start + size;
        sum := sum - size;
        SmallRest(total, lim, sum + d);
        SameAttributesTrans(ps, ps', pages[..]);
        idx := ComputeLog2(sum);
        more := idx != 0;
      }
      NothingLeft(total, lim, sum + d);
      ghost var ps1, tb1 := pages[..], table[..];
      StartsKept(ps, ps1, base, total);
      InitDone(ps1, tb1, base, total, lim);
      InitAttrs(ps, ps1, total);
      Become(State(InitFree(total), []));
    }
  }
}
