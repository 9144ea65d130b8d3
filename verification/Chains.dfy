/**
  Null-terminated chains threaded through the `next` and `prev` fields of the page records.
  A chain is the sequence of record indices met by following `next`; `prev` is meaningful
  only behind the first record.
 */
module Chains {
  import opened BuddyModel
  import opened Bits
  import opened Common

  const NULL := -1

  /** One page record; pointers to records are their indices. */
  datatype Page = Page(refNum: nat, flags: nat, startAddr: nat, va: nat, next: int, prev: int)

  function Ptr(c: seq<nat>, j: nat): int {
    if j < |c| then c[j] else NULL
  }

  predicate Linked(ps: seq<Page>, c: seq<nat>) {
    && (forall k :: 0 <= k < |c| ==> c[k] < |ps|)
    && (forall k :: 0 <= k < |c| ==> ps[c[k]].next == Ptr(c, k + 1))
    && (forall k :: 1 <= k < |c| ==> ps[c[k]].prev == c[k - 1])
  }

  predicate Apart(a: seq<nat>, b: seq<nat>) {
    forall j, k :: 0 <= j < |a| && 0 <= k < |b| ==> a[j] != b[k]
  }

  /** Links of records outside `c` are as before. */
  predicate SameLinks(c: seq<nat>, ps: seq<Page>, ps': seq<Page>) {
    |ps| == |ps'| &&
    forall x :: 0 <= x < |ps| && x !in c ==> ps[x].next == ps'[x].next && ps[x].prev == ps'[x].prev
  }

  function SetNext(ps: seq<Page>, p: nat, q: int): (r: seq<Page>)
    requires p < |ps|
    ensures |r| == |ps|
  {
    ps[p := ps[p].(next := q)]
  }

  function SetPrev(ps: seq<Page>, p: nat, q: int): (r: seq<Page>)
    requires p < |ps|
    ensures |r| == |ps|
  {
    ps[p := ps[p].(prev := q)]
  }

  lemma LinkedElsewhere(ps: seq<Page>, ps': seq<Page>, touched: seq<nat>, c: seq<nat>)
    requires Linked(ps, c) && SameLinks(touched, ps, ps') && Apart(c, touched)
    ensures Linked(ps', c)
  {
    forall k | 0 <= k < |c| ensures c[k] !in touched {}
  }

  function Cut(ps: seq<Page>, last: nat, first: nat): seq<Page>
    requires last < |ps| && first < |ps|
  {
    SetPrev(SetNext(ps, last, NULL), first, NULL)
  }

  function Join(ps: seq<Page>, last: nat, first: nat): seq<Page>
    requires last < |ps| && first < |ps|
  {
    SetPrev(SetNext(ps, last, first), first, last)
  }

  lemma CutEffect(ps: seq<Page>, last: nat, first: nat)
    requires last < |ps| && first < |ps|
    ensures |Cut(ps, last, first)| == |ps|
    ensures forall y :: 0 <= y < |ps| ==>
              && Cut(ps, last, first)[y].next == (if y == last then NULL else ps[y].next)
              && Cut(ps, last, first)[y].prev == (if y == first then NULL else ps[y].prev)
  {
  }

  lemma CutPrefix(ps: seq<Page>, c: seq<nat>, k: nat)
    requires Linked(ps, c) && Distinct(c) && 0 < k < |c|
    ensures Linked(Cut(ps, c[k - 1], c[k]), c[..k])
  {
    CutEffect(ps, c[k - 1], c[k]);
    hide Cut;
  }

  lemma CutSuffix(ps: seq<Page>, c: seq<nat>, k: nat)
    requires Linked(ps, c) && Distinct(c) && 0 < k < |c|
    ensures Linked(Cut(ps, c[k - 1], c[k]), c[k..])
  {
    CutEffect(ps, c[k - 1], c[k]);
    hide Cut;
  }

  lemma CutChain(ps: seq<Page>, c: seq<nat>, k: nat)
    requires Linked(ps, c) && Distinct(c) && 0 < k < |c|
    ensures Linked(Cut(ps, c[k - 1], c[k]), c[..k])
    ensures Linked(Cut(ps, c[k - 1], c[k]), c[k..])
  {
    CutPrefix(ps, c, k);
    CutSuffix(ps, c, k);
    hide Cut, Distinct;
  }

  lemma JoinEffect(ps: seq<Page>, last: nat, first: nat)
    requires last < |ps| && first < |ps|
    ensures |Join(ps, last, first)| == |ps|
    ensures forall y :: 0 <= y < |ps| ==>
              && Join(ps, last, first)[y].next == (if y == last then first else ps[y].next)
              && Join(ps, last, first)[y].prev == (if y == first then last else ps[y].prev)
  {
  }

  lemma SuffixLinked(ps: seq<Page>, a: seq<nat>, x: seq<nat>)
    requires Linked(ps, a + x)
    ensures Linked(ps, x)
  {
    var c := a + x;
    assert forall k :: 0 <= k < |x| ==> c[|a| + k] == x[k];
  }

  /** Linking `b` behind `a` when `x` followed `a` so far: `a + b` is a chain afterwards. */
  lemma JoinPrefix(ps: seq<Page>, a: seq<nat>, x: seq<nat>, b: seq<nat>)
    requires Linked(ps, a + x) && Linked(ps, b) && a != [] && b != []
    requires Distinct(a) && Distinct(b) && Apart(a, b)
    ensures a[|a| - 1] < |ps| && b[0] < |ps|
    ensures Linked(Join(ps, a[|a| - 1], b[0]), a + b)
  {
    var whole := a + x;
    assert forall k :: 0 <= k < |a| ==> whole[k] == a[k];
    assert whole[|a| - 1] < |ps|;
    var last, first := a[|a| - 1], b[0];
    var ps', c := Join(ps, last, first), a + b;
    JoinEffect(ps, last, first);
    forall k | 0 <= k < |c| ensures c[k] < |ps'| && ps'[c[k]].next == Ptr(c, k + 1) {
      if k < |a| { assert whole[k] == c[k] < |ps|; } else { assert c[k] == b[k - |a|]; }
    }
    forall k | 1 <= k < |c| ensures ps'[c[k]].prev == c[k - 1] {
      if k < |a| { assert c[k] == whole[k] && c[k - 1] == whole[k - 1] && whole[k] != first; }
      else if k > |a| { assert c[k] == b[k - |a|] && c[k - 1] == b[k - |a| - 1]; }
    }
  }

  lemma JoinLeaves(ps: seq<Page>, a: seq<nat>, x: seq<nat>, b: seq<nat>)
    requires Linked(ps, a + x) && Linked(ps, b) && a != [] && b != []
    requires Distinct(a + x) && Apart(a + x, b)
    ensures a[|a| - 1] < |ps| && b[0] < |ps|
    ensures Linked(Join(ps, a[|a| - 1], b[0]), x)
  {
    var whole := a + x;
    assert whole[|a| - 1] == a[|a| - 1];
    var last, first := a[|a| - 1], b[0];
    SuffixLinked(ps, a, x);
    JoinEffect(ps, last, first);
    forall k | 0 <= k < |x| ensures x[k] != last && x[k] != first {
      assert whole[|a| + k] == x[k];
    }
    LinkedElsewhere(ps, Join(ps, last, first), [last, first], x);
  }

  lemma JoinChains(ps: seq<Page>, a: seq<nat>, b: seq<nat>)
    requires Linked(ps, a) && Linked(ps, b) && a != [] && b != []
    requires Distinct(a) && Distinct(b) && Apart(a, b)
    ensures Linked(Join(ps, a[|a| - 1], b[0]), a + b)
  {
    assert a + [] == a;
    JoinPrefix(ps, a, [], b);
  }

  // ---------- the chains of an allocator state ----------

  predicate FreeLinked(ps: seq<Page>, free: seq<seq<Block>>) {
    forall i :: 0 <= i < |free| ==> Linked(ps, Flat(free[i]))
  }

  predicate HeldLinked(ps: seq<Page>, held: seq<Block>) {
    forall h :: 0 <= h < |held| ==> Linked(ps, held[h])
  }

  predicate AllLinked(ps: seq<Page>, s: State) {
    FreeLinked(ps, s.free) && HeldLinked(ps, s.held)
  }

  function ListOccurs(bs: seq<Block>, x: nat): nat {
    multiset(Flat(bs))[x]
  }

  function FreeOccurs(free: seq<seq<Block>>, x: nat): nat {
    FreePages(free)[x]
  }

  lemma FreeCountFirst(free: seq<seq<Block>>, x: nat)
    requires free != []
    ensures FreeOccurs(free, x) == ListOccurs(free[0], x) + FreeOccurs(free[1..], x)
  {
    assert FreePages(free) == multiset(Flat(free[0])) + FreePages(free[1..]);
  }

  lemma {:induction false} CountInList(free: seq<seq<Block>>, i: nat, x: nat)
    requires i < |free|
    ensures ListOccurs(free[i], x) <= FreeOccurs(free, x)
  {
    FreeCountFirst(free, x);
    hide ListOccurs, FreeOccurs;
    if i > 0 { CountInList(free[1..], i - 1, x); }
  }

  lemma {:induction false} CountInTwoLists(free: seq<seq<Block>>, i: nat, j: nat, x: nat)
    requires i < j < |free|
    ensures ListOccurs(free[i], x) + ListOccurs(free[j], x) <= FreeOccurs(free, x)
  {
    FreeCountFirst(free, x);
    hide ListOccurs, FreeOccurs;
    if i == 0 {
      CountInList(free[1..], j - 1, x);
    } else {
      CountInTwoLists(free[1..], i - 1, j - 1, x);
    }
  }

  function Occurs(b: Block, x: nat): nat {
    multiset(b)[x]
  }

  lemma FlatCount(held: seq<Block>, x: nat)
    requires held != []
    ensures ListOccurs(held, x) == Occurs(held[0], x) + ListOccurs(held[1..], x)
  {
    assert multiset(Flat(held)) == multiset(held[0]) + multiset(Flat(held[1..]));
  }

  lemma {:induction false} CountInHeld(held: seq<Block>, h: nat, x: nat)
    requires h < |held|
    ensures Occurs(held[h], x) <= ListOccurs(held, x)
  {
    FlatCount(held, x);
    hide ListOccurs, Occurs;
    if h > 0 { CountInHeld(held[1..], h - 1, x); }
  }

  lemma {:induction false} CountInTwoHeld(held: seq<Block>, h: nat, g: nat, x: nat)
    requires h < g < |held|
    ensures Occurs(held[h], x) + Occurs(held[g], x) <= ListOccurs(held, x)
  {
    FlatCount(held, x);
    hide ListOccurs, Occurs;
    if h == 0 {
      CountInHeld(held[1..], g - 1, x);
    } else {
      CountInTwoHeld(held[1..], h - 1, g - 1, x);
    }
  }

  lemma DistinctByCount(c: seq<nat>)
    requires forall x: nat :: multiset(c)[x] <= 1
    ensures Distinct(c)
  {
    forall j, k | 0 <= j < k < |c| ensures c[j] != c[k] {
      assert c == c[..k] + c[k..];
      assert c[..k][j] == c[j] && c[k..][0] == c[k];
      assert multiset(c[..k])[c[j]] >= 1 && multiset(c[k..])[c[k]] >= 1;
      assert multiset(c)[c[k]] == multiset(c[..k])[c[k]] + multiset(c[k..])[c[k]];
    }
  }

  lemma Once(s: State, placed: nat, x: nat)
    requires Inv(s, placed)
    ensures FreePages(s.free)[x] + multiset(Flat(s.held))[x] <= 1
    ensures x >= placed ==> FreePages(s.free)[x] + multiset(Flat(s.held))[x] == 0
  {
    InvIsPartition(s, placed, x);
  }

  lemma FreeDistinct(s: State, placed: nat, i: nat)
    requires Inv(s, placed) && i < ORDERS
    ensures Distinct(Flat(s.free[i])) && forall x :: x in Flat(s.free[i]) ==> x < placed
  {
    var c: seq<nat> := Flat(s.free[i]);
    forall x: nat ensures multiset(c)[x] <= 1 && (x in c ==> x < placed) {
      CountInList(s.free, i, x);
      Once(s, placed, x);
    }
    DistinctByCount(c);
  }

  lemma HeldDistinct(s: State, placed: nat, h: nat)
    requires Inv(s, placed) && h < |s.held|
    ensures Distinct(s.held[h]) && forall x :: x in s.held[h] ==> x < placed
  {
    var c: seq<nat> := s.held[h];
    forall x: nat ensures multiset(c)[x] <= 1 && (x in c ==> x < placed) {
      CountInHeld(s.held, h, x);
      Once(s, placed, x);
    }
    DistinctByCount(c);
  }

  lemma FreeApart(s: State, placed: nat, i: nat, j: nat)
    requires Inv(s, placed) && i < ORDERS && j < ORDERS && i != j
    ensures Apart(Flat(s.free[i]), Flat(s.free[j]))
  {
    var a, b := Flat(s.free[i]), Flat(s.free[j]);
    forall k, m | 0 <= k < |a| && 0 <= m < |b| ensures a[k] != b[m] {
      assert multiset(a)[a[k]] >= 1 && multiset(b)[b[m]] >= 1;
      Once(s, placed, a[k]);
      if i < j { CountInTwoLists(s.free, i, j, a[k]); } else { CountInTwoLists(s.free, j, i, a[k]); }
    }
  }

  lemma FreeHeldApart(s: State, placed: nat, i: nat, h: nat)
    requires Inv(s, placed) && i < ORDERS && h < |s.held|
    ensures Apart(Flat(s.free[i]), s.held[h]) && Apart(s.held[h], Flat(s.free[i]))
  {
    var a, b := Flat(s.free[i]), s.held[h];
    forall k, m | 0 <= k < |a| && 0 <= m < |b| ensures a[k] != b[m] {
      assert multiset(a)[a[k]] >= 1 && multiset(b)[b[m]] >= 1;
      Once(s, placed, a[k]);
      CountInList(s.free, i, a[k]);
      CountInHeld(s.held, h, a[k]);
    }
  }

  lemma HeldApart(s: State, placed: nat, h: nat, g: nat)
    requires Inv(s, placed) && h < |s.held| && g < |s.held| && h != g
    ensures Apart(s.held[h], s.held[g])
  {
    var a, b := s.held[h], s.held[g];
    forall k, m | 0 <= k < |a| && 0 <= m < |b| ensures a[k] != b[m] {
      assert multiset(a)[a[k]] >= 1 && multiset(b)[b[m]] >= 1;
      Once(s, placed, a[k]);
      if h < g { CountInTwoHeld(s.held, h, g, a[k]); } else { CountInTwoHeld(s.held, g, h, a[k]); }
    }
  }

  // ---------- moves between chains ----------

  function ListAt(free: seq<seq<Block>>, i: nat): seq<nat> {
    if i < |free| then Flat(free[i]) else []
  }

  function HeldAt(held: seq<Block>, h: nat): seq<nat> {
    if h < |held| then held[h] else []
  }

  /** Changing links inside list `i` and held blocks `h` and `g` (each optional) leaves every other chain intact. */
  lemma OthersLinked(ps: seq<Page>, ps': seq<Page>, s: State, placed: nat, i: nat, h: nat, g: nat)
    requires Inv(s, placed) && AllLinked(ps, s)
    requires SameLinks(ListAt(s.free, i) + HeldAt(s.held, h) + HeldAt(s.held, g), ps, ps')
    ensures forall j :: 0 <= j < ORDERS && j != i ==> Linked(ps', Flat(s.free[j]))
    ensures forall k :: 0 <= k < |s.held| && k != h && k != g ==> Linked(ps', s.held[k])
  {
    var a, b, c := ListAt(s.free, i), HeldAt(s.held, h), HeldAt(s.held, g);
    forall j | 0 <= j < ORDERS && j != i ensures Linked(ps', Flat(s.free[j])) {
      if i < ORDERS { FreeApart(s, placed, j, i); }
      if h < |s.held| { FreeHeldApart(s, placed, j, h); }
      if g < |s.held| { FreeHeldApart(s, placed, j, g); }
      ApartFromAll(Flat(s.free[j]), a, b, c);
      LinkedElsewhere(ps, ps', a + b + c, Flat(s.free[j]));
    }
    forall k | 0 <= k < |s.held| && k != h && k != g ensures Linked(ps', s.held[k]) {
      if i < ORDERS { FreeHeldApart(s, placed, i, k); }
      if h < |s.held| { HeldApart(s, placed, k, h); }
      if g < |s.held| { HeldApart(s, placed, k, g); }
      ApartFromAll(s.held[k], a, b, c);
      LinkedElsewhere(ps, ps', a + b + c, s.held[k]);
    }
  }

  lemma ApartFromAll(x: seq<nat>, a: seq<nat>, b: seq<nat>, c: seq<nat>)
    requires Apart(x, a) && Apart(x, b) && Apart(x, c)
    ensures Apart(x, a + b + c)
  {
  }

  /** The first `n` pages of a list's chain are its first block. */
  lemma FirstOfFlat(bs: seq<Block>)
    requires bs != []
    ensures Flat(bs) == bs[0] + Flat(bs[1..])
    ensures Flat(bs)[..|bs[0]|] == bs[0] && Flat(bs)[|bs[0]|..] == Flat(bs[1..])
  {
  }

  /** `ps'` is `ps` with chain `c` cut after its first `n` records. */
  predicate CutAfter(ps: seq<Page>, ps': seq<Page>, c: seq<nat>, n: nat) {
    && 0 < n <= |c|
    && (forall k :: 0 <= k < |c| ==> c[k] < |ps|)
    && ps' == (if n < |c| then Cut(ps, c[n - 1], c[n]) else ps)
  }

  lemma CutAfterLinked(ps: seq<Page>, ps': seq<Page>, c: seq<nat>, n: nat)
    requires CutAfter(ps, ps', c, n) && Linked(ps, c) && Distinct(c)
    ensures Linked(ps', c[..n]) && Linked(ps', c[n..]) && SameLinks(c, ps, ps')
  {
    if n < |c| {
      CutChain(ps, c, n);
      assert c[n - 1] in c && c[n] in c;
      hide Linked, Distinct, SameLinks;
      TouchLocal(ps, c[n - 1], c[n], c);
      hide Cut;
    } else {
      assert c[..n] == c && c[n..] == [];
      hide Distinct;
    }
  }

  lemma FreeRelinked(ps: seq<Page>, free: seq<seq<Block>>, i: nat, bs: seq<Block>)
    requires i < |free| && Linked(ps, Flat(bs))
    requires forall j :: 0 <= j < |free| && j != i ==> Linked(ps, Flat(free[j]))
    ensures FreeLinked(ps, free[i := bs])
  {
    var free' := free[i := bs];
    forall j | 0 <= j < |free'| ensures Linked(ps, Flat(free'[j])) {
      if j != i { assert free'[j] == free[j]; }
    }
  }

  lemma TakeFirstLinked(ps: seq<Page>, ps': seq<Page>, s: State, placed: nat, i: nat)
    requires Inv(s, placed) && AllLinked(ps, s) && i < ORDERS && s.free[i] != []
    requires CutAfter(ps, ps', Flat(s.free[i]), Pow2(i))
    ensures AllLinked(ps', TakeFirst(s, i))
  {
    var c: seq<nat> := Flat(s.free[i]);
    FreeDistinct(s, placed, i);
    CutAfterLinked(ps, ps', c, Pow2(i));
    FirstOfFlat(s.free[i]);
    TakeFirstRelinked(ps, ps', s, placed, i);
  }

  lemma TakeFirstRelinked(ps: seq<Page>, ps': seq<Page>, s: State, placed: nat, i: nat)
    requires Inv(s, placed) && AllLinked(ps, s) && i < ORDERS && s.free[i] != []
    requires SameLinks(Flat(s.free[i]), ps, ps')
    requires Linked(ps', s.free[i][0]) && Linked(ps', Flat(s.free[i][1..]))
    ensures AllLinked(ps', TakeFirst(s, i))
  {
    hide Linked, SameLinks, AllPages, Flat;
    NoThird(Flat(s.free[i]), []);
    assert Flat(s.free[i]) + [] == Flat(s.free[i]);
    OthersLinked(ps, ps', s, placed, i, |s.held|, |s.held|);
    FreeRelinked(ps', s.free, i, s.free[i][1..]);
  }

  lemma FlatAppend(bs: seq<Block>, b: Block)
    ensures Flat(bs + [b]) == Flat(bs) + b
  {
    FlatConcat(bs, [b]);
    FlatOne(b);
  }

  /** The last held block gives its first part `lo` to the tail of list `i` and keeps the rest. */
  lemma GiveLowRelinked(ps: seq<Page>, ps': seq<Page>, s: State, placed: nat, i: nat, lo: Block, hi: Block)
    requires Inv(s, placed) && AllLinked(ps, s) && i < ORDERS && s.held != [] && s.held[|s.held| - 1] == lo + hi
    requires SameLinks(Flat(s.free[i]) + (lo + hi), ps, ps')
    requires Linked(ps', Flat(s.free[i]) + lo) && Linked(ps', hi)
    ensures AllLinked(ps', State(s.free[i := s.free[i] + [lo]], s.held[..|s.held| - 1] + [hi]))
  {
    hide Linked, SameLinks, AllPages, Flat;
    var h := |s.held| - 1;
    NoThird(Flat(s.free[i]), lo + hi);
    OthersLinked(ps, ps', s, placed, i, h, |s.held|);
    FlatAppend(s.free[i], lo);
    FreeRelinked(ps', s.free, i, s.free[i] + [lo]);
    HeldRelinked(ps', s.held, h, hi);
  }

  lemma NoThird(a: seq<nat>, b: seq<nat>)
    ensures a + b + [] == a + b
  {
  }

  /** The last held block joins the tail of list `i`. */
  lemma InsertRelinked(ps: seq<Page>, ps': seq<Page>, s: State, placed: nat, i: nat)
    requires Inv(s, placed) && AllLinked(ps, s) && i < ORDERS && s.held != []
    requires SameLinks(Flat(s.free[i]) + s.held[|s.held| - 1], ps, ps')
    requires Linked(ps', Flat(s.free[i]) + s.held[|s.held| - 1])
    ensures AllLinked(ps', State(s.free[i := s.free[i] + [s.held[|s.held| - 1]]], s.held[..|s.held| - 1]))
  {
    hide Linked, SameLinks, AllPages, Flat;
    var h := |s.held| - 1;
    NoThird(Flat(s.free[i]), s.held[h]);
    OthersLinked(ps, ps', s, placed, i, h, |s.held|);
    FlatAppend(s.free[i], s.held[h]);
    FreeRelinked(ps', s.free, i, s.free[i] + [s.held[h]]);
  }

  /** Block `j` leaves list `i` and is held. */
  lemma RemoveRelinked(ps: seq<Page>, ps': seq<Page>, s: State, placed: nat, i: nat, j: nat)
    requires Inv(s, placed) && AllLinked(ps, s) && i < ORDERS && j < |s.free[i]|
    requires SameLinks(Flat(s.free[i]), ps, ps')
    requires Linked(ps', s.free[i][j]) && Linked(ps', Flat(Remove(s.free[i], j)))
    ensures AllLinked(ps', State(s.free[i := Remove(s.free[i], j)], s.held + [s.free[i][j]]))
  {
    hide Linked, SameLinks, AllPages, Flat;
    NoThird(Flat(s.free[i]), []);
    assert Flat(s.free[i]) + [] == Flat(s.free[i]);
    OthersLinked(ps, ps', s, placed, i, |s.held|, |s.held|);
    FreeRelinked(ps', s.free, i, Remove(s.free[i], j));
  }

  /** The last two held blocks become one. */
  lemma BlendRelinked(ps: seq<Page>, ps': seq<Page>, s: State, placed: nat, both: Block)
    requires Inv(s, placed) && AllLinked(ps, s) && |s.held| >= 2
    requires SameLinks(s.held[|s.held| - 2] + s.held[|s.held| - 1], ps, ps')
    requires Linked(ps', both)
    ensures AllLinked(ps', State(s.free, s.held[..|s.held| - 2] + [both]))
  {
    var h, g := |s.held| - 2, |s.held| - 1;
    var none: seq<nat> := ListAt(s.free, ORDERS);
    assert none == [];
    assert none + s.held[h] == s.held[h];
    OthersLinked(ps, ps', s, placed, ORDERS, h, g);
    assert FreeLinked(ps', s.free);
    HeldRelinked(ps', s.held, h, both);
  }

  lemma HeldRelinked(ps: seq<Page>, held: seq<Block>, h: nat, both: Block)
    requires h <= |held| && Linked(ps, both)
    requires forall k :: 0 <= k < h ==> Linked(ps, held[k])
    ensures HeldLinked(ps, held[..h] + [both])
  {
  }

  /** Unlinking `mid` from `pre + mid + post`, the way the buddy search does it. */
  function Unlink(ps: seq<Page>, pre: seq<nat>, mid: seq<nat>, post: seq<nat>): seq<Page>
    requires mid != [] && forall k :: 0 <= k < |pre + mid + post| ==> (pre + mid + post)[k] < |ps|
  {
    assert forall k :: 0 <= k < |pre| ==> pre[k] == (pre + mid + post)[k];
    assert forall k :: 0 <= k < |mid| ==> mid[k] == (pre + mid + post)[|pre| + k];
    assert forall k :: 0 <= k < |post| ==> post[k] == (pre + mid + post)[|pre| + |mid| + k];
    if post == [] then
      if pre == [] then ps else Cut(ps, pre[|pre| - 1], mid[0])
    else
      var cut := Cut(ps, mid[|mid| - 1], post[0]);
      if pre == [] then cut else Join(cut, pre[|pre| - 1], post[0])
  }

  lemma ThreeSlices(pre: seq<nat>, mid: seq<nat>, post: seq<nat>)
    requires mid != []
    ensures var c, m, n := pre + mid + post, |pre|, |pre| + |mid|;
            && c[..m] == pre && c[m..] == mid + post && c[..n] == pre + mid && c[n..] == post
            && c[n - 1] == mid[|mid| - 1] && c[m] == mid[0]
            && (pre != [] ==> c[m - 1] == pre[m - 1]) && (post != [] ==> c[n] == post[0])
  {
  }

  /** The records around `mid` and the links between them. */
  lemma Neighbours(ps: seq<Page>, pre: seq<nat>, mid: seq<nat>, post: seq<nat>)
    requires mid != [] && Linked(ps, pre + mid + post) && Distinct(pre + mid + post)
    ensures forall k :: 0 <= k < |pre + mid + post| ==> (pre + mid + post)[k] < |ps|
    ensures mid[0] < |ps| && mid[|mid| - 1] < |ps|
    ensures pre != [] ==> pre[|pre| - 1] < |ps| && ps[mid[0]].prev == pre[|pre| - 1]
    ensures post != [] ==> post[0] < |ps| && ps[post[0]].prev == mid[|mid| - 1] && post[0] != mid[0]
  {
    ThreeSlices(pre, mid, post);
    var c, m, n := pre + mid + post, |pre|, |pre| + |mid|;
    assert c[m] < |ps| && c[n - 1] < |ps|;
    assert pre != [] ==> c[m - 1] < |ps| && ps[c[m]].prev == c[m - 1];
    assert post != [] ==> c[n] < |ps| && ps[c[n]].prev == c[n - 1] && c[m] != c[n];
  }

  lemma UnlinkLinked(ps: seq<Page>, pre: seq<nat>, mid: seq<nat>, post: seq<nat>)
    requires mid != [] && Linked(ps, pre + mid + post) && Distinct(pre + mid + post)
    ensures Linked(Unlink(ps, pre, mid, post), mid)
    ensures Linked(Unlink(ps, pre, mid, post), pre + post)
  {
    ThreeSlices(pre, mid, post);
    if post == [] {
      UnlinkTail(ps, pre, mid, post);
    } else {
      UnlinkInner(ps, pre, mid, post);
    }
  }

  lemma UnlinkTail(ps: seq<Page>, pre: seq<nat>, mid: seq<nat>, post: seq<nat>)
    requires mid != [] && post == [] && Linked(ps, pre + mid + post) && Distinct(pre + mid + post)
    ensures Linked(Unlink(ps, pre, mid, post), mid)
    ensures Linked(Unlink(ps, pre, mid, post), pre + post)
  {
    hide Linked, Distinct, Cut;
    var c, m := pre + mid + post, |pre|;
    ThreeSlices(pre, mid, post);
    assert mid + post == mid && pre + post == pre;
    if pre == [] {
      assert c == mid;
      EmptyLinked(ps);
    } else {
      CutChain(ps, c, m);
    }
  }

  lemma EmptyLinked(ps: seq<Page>)
    ensures Linked(ps, [])
  {
  }

  lemma UnlinkInner(ps: seq<Page>, pre: seq<nat>, mid: seq<nat>, post: seq<nat>)
    requires mid != [] && post != [] && Linked(ps, pre + mid + post) && Distinct(pre + mid + post)
    ensures Linked(Unlink(ps, pre, mid, post), mid)
    ensures Linked(Unlink(ps, pre, mid, post), pre + post)
  {
    var c, n := pre + mid + post, |pre| + |mid|;
    ThreeSlices(pre, mid, post);
    Neighbours(ps, pre, mid, post);
    CutChain(ps, c, n);
    hide Linked, Distinct, Cut;
    if pre == [] {
      assert pre + mid == mid && pre + post == post;
    } else {
      PrefixApart(c, n);
      hide Apart, Join;
      JoinAround(Cut(ps, c[n - 1], c[n]), pre, mid, post);
    }
  }

  lemma JoinAround(cut: seq<Page>, pre: seq<nat>, mid: seq<nat>, post: seq<nat>)
    requires pre != [] && mid != [] && post != [] && Linked(cut, pre + mid) && Linked(cut, post)
    requires Distinct(pre + mid) && Distinct(post) && Apart(pre + mid, post)
    ensures pre[|pre| - 1] < |cut| && post[0] < |cut|
    ensures Linked(Join(cut, pre[|pre| - 1], post[0]), mid) && Linked(Join(cut, pre[|pre| - 1], post[0]), pre + post)
  {
    PrefixApart(pre + mid, |pre|);
    assert (pre + mid)[..|pre|] == pre;
    ApartPrefix(pre, mid, post);
    JoinPrefix(cut, pre, mid, post);
    JoinLeaves(cut, pre, mid, post);
  }

  lemma ApartPrefix(a: seq<nat>, x: seq<nat>, b: seq<nat>)
    requires Apart(a + x, b)
    ensures Apart(a, b)
  {
    assert forall j :: 0 <= j < |a| ==> (a + x)[j] == a[j];
  }

  lemma TouchLocal(ps: seq<Page>, last: nat, first: nat, c: seq<nat>)
    requires last < |ps| && first < |ps| && last in c && first in c
    ensures SameLinks(c, ps, Cut(ps, last, first)) && SameLinks(c, ps, Join(ps, last, first))
  {
    forall x | 0 <= x < |ps| && x !in c ensures x != last && x != first {}
  }

  lemma SameLinksTrans(c: seq<nat>, ps: seq<Page>, ps1: seq<Page>, ps2: seq<Page>)
    requires SameLinks(c, ps, ps1) && SameLinks(c, ps1, ps2)
    ensures SameLinks(c, ps, ps2)
  {
  }

  lemma Members(pre: seq<nat>, mid: seq<nat>, post: seq<nat>)
    requires mid != []
    ensures var c := pre + mid + post;
            && mid[0] in c && mid[|mid| - 1] in c
            && (pre != [] ==> pre[|pre| - 1] in c) && (post != [] ==> post[0] in c)
  {
    ThreeSlices(pre, mid, post);
  }

  lemma UnlinkLocal(ps: seq<Page>, pre: seq<nat>, mid: seq<nat>, post: seq<nat>)
    requires mid != [] && Linked(ps, pre + mid + post)
    ensures SameLinks(pre + mid + post, ps, Unlink(ps, pre, mid, post))
  {
    var c := pre + mid + post;
    Members(pre, mid, post);
    assert forall x :: x in c ==> x < |ps|;
    hide Linked, SameLinks;
    if post != [] {
      if pre == [] {
        TouchLocal(ps, mid[|mid| - 1], post[0], c);
      } else {
        CutJoinLocal(ps, c, mid[|mid| - 1], post[0], pre[|pre| - 1]);
      }
    } else if pre != [] {
      TouchLocal(ps, pre[|pre| - 1], mid[0], c);
    } else {
      SameLinksRefl(c, ps);
    }
  }

  lemma CutJoinLocal(ps: seq<Page>, c: seq<nat>, last: nat, first: nat, before: nat)
    requires last < |ps| && first < |ps| && before < |ps| && last in c && first in c && before in c
    ensures |Cut(ps, last, first)| == |ps| && SameLinks(c, ps, Join(Cut(ps, last, first), before, first))
  {
    var cut := Cut(ps, last, first);
    TouchLocal(ps, last, first, c);
    TouchLocal(cut, before, first, c);
    hide SameLinks, Cut, Join;
    SameLinksTrans(c, ps, cut, Join(cut, before, first));
  }

  lemma SameLinksRefl(c: seq<nat>, ps: seq<Page>)
    ensures SameLinks(c, ps, ps)
  {
  }

  lemma PrefixApart(c: seq<nat>, n: nat)
    requires Distinct(c) && n <= |c|
    ensures Distinct(c[..n]) && Distinct(c[n..]) && Apart(c[..n], c[n..])
  {
  }
}
