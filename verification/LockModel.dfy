/**
  The binary semaphore and the re-entrant lock built on it, as a machine whose steps are the
  atomic pieces of `req_lock` and `lock_release`, taken by any thread in any order.  A bracket of
  `local_intr_save`/`local_intr_restore`, and each retest after a wakeup, is one step; every other
  statement that touches the lock is a step of its own.  `thread_block` has the meaning its header
  declares: the thread runs again only after `thread_unblock`.
 */
module LockModel {
  import opened Common

  type Tid = nat

  const UINT_RANGE: nat := 0x1_0000_0000

  /** Where a thread stands between two of its steps. */
  datatype Pc =
    | Idle
    | WantsP                 // saw a holder other than itself, about to enter sema_down
    | Waiting                // blocked, in the waiter list
    | Woken                  // unblocked, about to retest the value
    | Passed                 // took the semaphore, holder not yet set
    | HolderSet              // holder set, count not yet looked at
    | CountChecked           // saw the count at 0, about to set it
    | Holding(depth: nat)    // inside, with `depth` unreleased requests
    | Nesting(depth: nat)    // saw itself as the holder, about to count up
    | Checked(depth: nat)    // releasing, saw itself as the holder
    | Lowering(depth: nat)   // releasing, saw the count above 1
    | Lowest                 // releasing, saw the count not above 1
    | LastRelease            // saw the count at 1, about to clear the holder
    | HolderCleared          // holder cleared, count not yet
    | CountCleared           // count cleared, V still to come
  {
    /** Between its P and its V. */
    predicate Inside() {
      Passed? || IsHolder() || HolderCleared? || CountCleared?
    }

    predicate IsHolder() {
      HolderSet? || CountChecked? || Holding? || Nesting? || Checked? || Lowering? || Lowest? || LastRelease?
    }
  }

  datatype Lock = Lock(value: nat, waiters: seq<Tid>, holder: Option<Tid>, repeat: nat, pc: map<Tid, Pc>)

  datatype Action =
    | Request(t: Tid)      // req_lock's test of the holder
    | CountUp(t: Tid)
    | TryP(t: Tid)         // one pass of sema_down's loop
    | SetHolder(t: Tid)
    | CheckCount(t: Tid)   // req_lock's assertion
    | SetCount(t: Tid)
    | Release(t: Tid)      // lock_release's assertion on the holder
    | TestCount(t: Tid)
    | CountDown(t: Tid)
    | CheckLast(t: Tid)    // lock_release's assertion on the count
    | ClearHolder(t: Tid)
    | ClearCount(t: Tid)
    | DoV(t: Tid)          // sema_up

  datatype Outcome = Next(state: Lock) | AssertFails

  /** lock_init, with every thread idle. */
  function Init(threads: set<Tid>): Lock {
    Lock(1, [], None, 0, map t | t in threads :: Idle)
  }

  /** The action is the thread's next one; a thread releases only what it holds. */
  predicate Enabled(s: Lock, a: Action) {
    a.t in s.pc &&
    var p := s.pc[a.t];
    match a
    case Request(_) => p.Idle? || p.Holding?
    case CountUp(_) => p.Nesting?
    case TryP(_) => p.WantsP? || p.Woken?
    case SetHolder(_) => p.Passed?
    case CheckCount(_) => p.HolderSet?
    case SetCount(_) => p.CountChecked?
    case Release(_) => p.Holding?
    case TestCount(_) => p.Checked?
    case CountDown(_) => p.Lowering?
    case CheckLast(_) => p.Lowest?
    case ClearHolder(_) => p.LastRelease?
    case ClearCount(_) => p.HolderCleared?
    case DoV(_) => p.CountCleared?
  }

  function Depth(p: Pc): nat {
    if p.Holding? || p.Nesting? || p.Checked? || p.Lowering? then p.depth else 0
  }

  function At(s: Lock, t: Tid, p: Pc): Lock {
    s.(pc := s.pc[t := p])
  }

  function Step(s: Lock, a: Action): Outcome
    requires Enabled(s, a)
  {
    var depth := Depth(s.pc[a.t]);
    match a
    case Request(t) => Next(At(s, t, if s.holder != Some(t) then WantsP else Nesting(depth)))
    case CountUp(t) => Next(At(s.(repeat := (s.repeat + 1) % UINT_RANGE), t, Holding(depth + 1)))
    case TryP(t) =>
      if s.value == 0 then
        if t in s.waiters then AssertFails
        else Next(At(s.(waiters := s.waiters + [t]), t, Waiting))
      else if s.value != 1 then AssertFails
      else Next(At(s.(value := s.value - 1), t, Passed))
    case SetHolder(t) => Next(At(s.(holder := Some(t)), t, HolderSet))
    case CheckCount(t) => if s.repeat != 0 then AssertFails else Next(At(s, t, CountChecked))
    case SetCount(t) => Next(At(s.(repeat := 1), t, Holding(1)))
    case Release(t) => if s.holder != Some(t) then AssertFails else Next(At(s, t, Checked(depth)))
    case TestCount(t) => Next(At(s, t, if s.repeat > 1 then Lowering(depth) else Lowest))
    case CountDown(t) =>
      Next(At(s.(repeat := (s.repeat + UINT_RANGE - 1) % UINT_RANGE), t, Holding(if depth > 0 then depth - 1 else 0)))
    case CheckLast(t) => if s.repeat != 1 then AssertFails else Next(At(s, t, LastRelease))
    case ClearHolder(t) => Next(At(s.(holder := None), t, HolderCleared))
    case ClearCount(t) => Next(At(s.(repeat := 0), t, CountCleared))
    case DoV(t) =>
      if s.value != 0 then AssertFails
      else if s.waiters == [] then Next(At(s.(value := 1), t, Idle))
      else
        var w := s.waiters[0];
        if w !in s.pc || !s.pc[w].Waiting? then AssertFails
        else Next(At(At(s.(value := 1, waiters := s.waiters[1..]), w, Woken), t, Idle))
  }

  // ---------- the invariant ----------

  function Inside(s: Lock): set<Tid> {
    set t | t in s.pc && s.pc[t].Inside()
  }

  /** `value` and the threads between P and V add up to one. */
  predicate Exclusive(s: Lock) {
    s.value + |Inside(s)| == 1
  }

  /** The waiter list holds each blocked thread once, and no other. */
  predicate WaitersOk(s: Lock) {
    && Distinct(s.waiters)
    && (forall t :: t in s.waiters ==> t in s.pc && s.pc[t].Waiting?)
    && (forall t :: t in s.pc && s.pc[t].Waiting? ==> t in s.waiters)
  }

  predicate HolderOk(s: Lock) {
    && (forall t :: t in s.pc && s.pc[t].IsHolder() ==> s.holder == Some(t))
    && (s.holder.Some? ==> s.holder.value in s.pc && s.pc[s.holder.value].IsHolder())
  }

  /** What a thread at `p` can rely on the repeat count being. */
  predicate CountAt(p: Pc, repeat: nat) {
    match p
    case Holding(k) => 1 <= k < UINT_RANGE && repeat == k
    case Checked(k) => 1 <= k < UINT_RANGE && repeat == k
    case Nesting(k) => 1 <= k < UINT_RANGE - 1 && repeat == k
    case Lowering(k) => 2 <= k < UINT_RANGE && repeat == k
    case Lowest => repeat == 1
    case LastRelease => repeat == 1
    case HolderCleared => repeat == 1
    case Passed => repeat == 0
    case HolderSet => repeat == 0
    case CountChecked => repeat == 0
    case CountCleared => repeat == 0
    case _ => true
  }

  /** The repeat count is the holder's nesting depth. */
  predicate CountOk(s: Lock) {
    && (s.value == 1 ==> s.repeat == 0)
    && (forall t :: t in s.pc ==> CountAt(s.pc[t], s.repeat))
  }

  /** If the lock is free while threads wait, one that was woken has yet to retest. */
  predicate NoLostWakeup(s: Lock) {
    s.value == 1 && s.waiters != [] ==> exists t :: t in s.pc && s.pc[t].Woken?
  }

  predicate Inv(s: Lock) {
    Exclusive(s) && WaitersOk(s) && HolderOk(s) && CountOk(s) && NoLostWakeup(s)
  }

  /** Nesting stays below 2^32, where the `uint` count would wrap. */
  predicate Disciplined(s: Lock, a: Action) {
    Enabled(s, a) && (a.Request? && s.pc[a.t].Holding? ==> s.pc[a.t].depth + 1 < UINT_RANGE)
  }

  lemma InitInv(threads: set<Tid>)
    ensures Inv(Init(threads))
  {
    assert Inside(Init(threads)) == {};
  }

  lemma OneInside(s: Lock, t: Tid, u: Tid)
    requires Exclusive(s) && t in s.pc && u in s.pc && s.pc[t].Inside() && s.pc[u].Inside()
    ensures t == u && s.value == 0
  {
    if t != u {
      assert {t, u} <= Inside(s);
      CardinalitySubset({t, u}, Inside(s));
    }
    assert t in Inside(s);
  }

  lemma CardinalitySubset(a: set<Tid>, b: set<Tid>)
    requires a <= b
    ensures |a| <= |b|
  {
    assert b == a + (b - a);
  }

  /** Moving one thread: who is inside afterwards. */
  lemma InsideAfter(s: Lock, s': Lock, t: Tid)
    requires t in s.pc && s'.pc.Keys == s.pc.Keys
    requires forall u :: u in s.pc && u != t ==> s'.pc[u].Inside() == s.pc[u].Inside()
    ensures |Inside(s')| == |Inside(s)| - (if s.pc[t].Inside() then 1 else 0) + (if s'.pc[t].Inside() then 1 else 0)
  {
    var a, b := Inside(s), Inside(s');
    assert a - {t} == b - {t};
    assert t in a ==> a == (a - {t}) + {t};
    assert t in b ==> b == (b - {t}) + {t};
    assert t !in a ==> a == a - {t};
    assert t !in b ==> b == b - {t};
  }

  /** Who is outside relies on nothing. */
  lemma OutsideCount(p: Pc, repeat: nat)
    requires !p.Inside()
    ensures CountAt(p, repeat)
  {
  }

  /** Missing the semaphore: the thread joins the waiters, and whoever is inside or woken still is. */
  lemma MissInv(s: Lock, t: Tid)
    requires Inv(s) && Enabled(s, TryP(t)) && s.value == 0
    ensures Step(s, TryP(t)) == Next(At(s.(waiters := s.waiters + [t]), t, Waiting))
    ensures Inv(At(s.(waiters := s.waiters + [t]), t, Waiting))
  {
    var s' := At(s.(waiters := s.waiters + [t]), t, Waiting);
    assert !s.pc[t].Waiting? && !s.pc[t].Inside() && t !in s.waiters;
    InsideAfter(s, s', t);
    hide CountAt;
    assert CountAt(Waiting, s.repeat) by { OutsideCount(Waiting, s.repeat); }
  }

  /** Taking the semaphore: nobody was inside, now the thread alone is. */
  lemma TakeInv(s: Lock, t: Tid)
    requires Inv(s) && Enabled(s, TryP(t)) && s.value != 0
    ensures Step(s, TryP(t)) == Next(At(s.(value := 0), t, Passed)) && Inv(At(s.(value := 0), t, Passed))
  {
    var s' := At(s.(value := 0), t, Passed);
    assert s.value == 1 && Inside(s) == {};
    forall u | u in s.pc ensures !s.pc[u].Inside() { assert u !in Inside(s); }
    InsideAfter(s, s', t);
    assert CountAt(Passed, 0);
    hide CountAt;
  }

  lemma TryPInv(s: Lock, t: Tid)
    requires Inv(s) && Enabled(s, TryP(t))
    ensures Step(s, TryP(t)).Next? && Inv(Step(s, TryP(t)).state)
  {
    hide Inv;
    if s.value == 0 { MissInv(s, t); } else { TakeInv(s, t); }
  }

  /** The state after a V, whose assertions hold because the waiters are blocked and the value is 0. */
  function AfterV(s: Lock, t: Tid): Lock {
    if s.waiters == [] then At(s.(value := 1), t, Idle)
    else At(At(s.(value := 1, waiters := s.waiters[1..]), s.waiters[0], Woken), t, Idle)
  }

  /** Waking the first waiter, if any, and leaving: the waiter list stays right. */
  lemma WakeWaiters(s: Lock, s': Lock, t: Tid)
    requires WaitersOk(s) && t in s.pc && !s.pc[t].Waiting?
    requires s' == AfterV(s, t)
    ensures WaitersOk(s') && NoLostWakeup(s')
  {
    if s.waiters != [] {
      var w := s.waiters[0];
      assert s'.pc[w].Woken?;
      assert forall u :: u in s.waiters <==> u == w || u in s.waiters[1..];
    }
  }

  lemma DoVStep(s: Lock, t: Tid)
    requires WaitersOk(s) && Enabled(s, DoV(t)) && s.value == 0
    ensures Step(s, DoV(t)) == Next(AfterV(s, t))
    ensures var s' := AfterV(s, t);
            && s'.value == 1 && s'.repeat == s.repeat && s'.holder == s.holder && s'.pc.Keys == s.pc.Keys
            && (forall u :: u in s.pc ==> s'.pc[u] == s.pc[u] || (u == t && s'.pc[u].Idle?)
                                          || (s.pc[u].Waiting? && s'.pc[u].Woken?))
            && s'.pc[t] == Idle
  {
    assert s.waiters != [] ==> s.waiters[0] in s.waiters;
  }

  /** Giving the semaphore back wakes the longest waiting thread. */
  lemma DoVInv(s: Lock, t: Tid)
    requires Inv(s) && Enabled(s, DoV(t))
    ensures Step(s, DoV(t)).Next? && Inv(Step(s, DoV(t)).state)
  {
    OneInside(s, t, t);
    assert s.repeat == 0 by { assert CountAt(s.pc[t], s.repeat); }
    DoVStep(s, t);
    WakeWaiters(s, AfterV(s, t), t);
    hide WaitersOk, NoLostWakeup, CountAt, Step, AfterV;
    var s' := AfterV(s, t);
    forall u | u in s.pc && u != t ensures !s.pc[u].Inside() && !s'.pc[u].Inside() {
      if s.pc[u].Inside() { OneInside(s, t, u); }
    }
    InsideAfter(s, s', t);
    forall u | u in s'.pc ensures CountAt(s'.pc[u], 0) {
      OutsideCount(s'.pc[u], 0);
    }
  }

  /** The thread's own view of the count is right after a step of `req_lock`. */
  lemma RequestCount(s: Lock, a: Action)
    requires Inv(s) && Disciplined(s, a)
    requires a.Request? || a.CountUp? || a.SetHolder? || a.CheckCount? || a.SetCount?
    ensures Step(s, a).Next? && CountAt(Step(s, a).state.pc[a.t], Step(s, a).state.repeat)
    ensures s.pc[a.t].Inside() || Step(s, a).state.repeat == s.repeat
  {
    assert CountAt(s.pc[a.t], s.repeat);
    hide Exclusive, WaitersOk, NoLostWakeup, CountOk;
  }

  /** ... and after a step of `lock_release`. */
  lemma ReleaseCount(s: Lock, a: Action)
    requires Inv(s) && Disciplined(s, a)
    requires a.Release? || a.TestCount? || a.CountDown? || a.CheckLast? || a.ClearHolder? || a.ClearCount?
    ensures Step(s, a).Next? && CountAt(Step(s, a).state.pc[a.t], Step(s, a).state.repeat)
    ensures s.pc[a.t].Inside()
  {
    assert CountAt(s.pc[a.t], s.repeat);
    hide Exclusive, WaitersOk, NoLostWakeup, CountOk;
  }

  lemma LocalCount(s: Lock, a: Action)
    requires Inv(s) && Disciplined(s, a) && !a.TryP? && !a.DoV?
    ensures Step(s, a).Next? && CountAt(Step(s, a).state.pc[a.t], Step(s, a).state.repeat)
    ensures s.pc[a.t].Inside() || Step(s, a).state.repeat == s.repeat
  {
    hide Inv, Step, CountAt, Disciplined;
    if a.Request? || a.CountUp? || a.SetHolder? || a.CheckCount? || a.SetCount? {
      RequestCount(s, a);
    } else {
      ReleaseCount(s, a);
    }
  }

  lemma LocalHolder(s: Lock, a: Action)
    requires Inv(s) && Disciplined(s, a) && !a.TryP? && !a.DoV?
    ensures Step(s, a).Next? && HolderOk(Step(s, a).state) && CountOk(Step(s, a).state)
  {
    var t := a.t;
    LocalCount(s, a);
    LocalFrame(s, a);
    var s' := Step(s, a).state;
    if s.pc[t].Inside() {
      OneInside(s, t, t);
      forall u | u in s.pc && s.pc[u].Inside() ensures u == t { OneInside(s, t, u); }
      forall u | u in s'.pc ensures CountAt(s'.pc[u], s'.repeat) {
        if u != t { OutsideCount(s'.pc[u], s'.repeat); }
      }
      LocalOwner(s, a);
    } else {
      hide CountAt;
      assert s'.holder == s.holder;
    }
  }

  /** The thread inside is alone with the holder field. */
  lemma LocalOwner(s: Lock, a: Action)
    requires Inv(s) && Disciplined(s, a) && !a.TryP? && !a.DoV? && Step(s, a).Next? && s.pc[a.t].Inside()
    requires forall u :: u in s.pc && s.pc[u].Inside() ==> u == a.t
    ensures HolderOk(Step(s, a).state)
  {
    hide Exclusive, WaitersOk, NoLostWakeup, CountOk;
  }

  /** Such a step leaves value, waiters and the other threads alone, and the thread as far inside as it was. */
  lemma LocalFrame(s: Lock, a: Action)
    requires Inv(s) && Disciplined(s, a) && !a.TryP? && !a.DoV? && Step(s, a).Next?
    ensures var s' := Step(s, a).state;
            && s'.value == s.value && s'.waiters == s.waiters && s'.pc.Keys == s.pc.Keys
            && (forall u :: u in s.pc && u != a.t ==> s'.pc[u] == s.pc[u])
            && s'.pc[a.t].Inside() == s.pc[a.t].Inside()
            && !s.pc[a.t].Waiting? && !s.pc[a.t].Woken? && !s'.pc[a.t].Waiting?
  {
    hide Exclusive, WaitersOk, NoLostWakeup, CountOk;
  }

  /** The steps that touch holder and count. */
  lemma LocalInv(s: Lock, a: Action)
    requires Inv(s) && Disciplined(s, a) && !a.TryP? && !a.DoV?
    ensures Step(s, a).Next? && Inv(Step(s, a).state)
  {
    LocalHolder(s, a);
    LocalFrame(s, a);
    hide HolderOk, CountOk, Step, Disciplined;
    var s' := Step(s, a).state;
    assert Inside(s') == Inside(s);
    if s.value == 1 && s.waiters != [] {
      var w :| w in s.pc && s.pc[w].Woken?;
      assert s'.pc[w].Woken?;
    }
  }

  lemma StepInv(s: Lock, a: Action)
    requires Inv(s) && Disciplined(s, a)
    ensures Step(s, a).Next? && Inv(Step(s, a).state)
  {
    hide Inv, Step;
    match a
    case TryP(t) => TryPInv(s, t);
    case DoV(t) => DoVInv(s, t);
    case _ => LocalInv(s, a);
  }

  // ---------- runs ----------

  /** Actions a thread is not ready for, or that would nest 2^32 deep, are not taken. */
  function Run(s: Lock, actions: seq<Action>): Outcome
    decreases |actions|
  {
    if actions == [] then Next(s)
    else if !Disciplined(s, actions[0]) then Run(s, actions[1..])
    else match Step(s, actions[0])
      case AssertFails => AssertFails
      case Next(s') => Run(s', actions[1..])
  }

  lemma {:induction false} RunInv(s: Lock, actions: seq<Action>)
    requires Inv(s)
    ensures Run(s, actions).Next? && Inv(Run(s, actions).state)
    decreases |actions|
  {
    hide Inv, Step;
    if actions != [] {
      if Disciplined(s, actions[0]) {
        StepInv(s, actions[0]);
        RunInv(Step(s, actions[0]).state, actions[1..]);
      } else {
        RunInv(s, actions[1..]);
      }
    }
  }

  /**
    In every interleaving no assertion of the lock code fires, at most one thread is between its P and its V,
    and whenever a thread waits another one is inside or has been woken: waiting threads are never stranded.
   */
  lemma MutualExclusion(threads: set<Tid>, actions: seq<Action>)
    ensures Run(Init(threads), actions).Next?
    ensures var s := Run(Init(threads), actions).state;
            && s.value + |Inside(s)| == 1
            && (forall t, u :: t in s.pc && u in s.pc && s.pc[t].Inside() && s.pc[u].Inside() ==> t == u)
            && (forall t :: t in s.pc && s.pc[t].Holding? ==> s.holder == Some(t) && s.repeat == s.pc[t].depth)
            && (s.value == 1 && s.waiters != [] ==> exists t :: t in s.pc && s.pc[t].Woken?)
            && (s.waiters != [] ==> exists t :: t in s.pc && (s.pc[t].Woken? || s.pc[t].Inside()))
  {
    InitInv(threads);
    RunInv(Init(threads), actions);
    var s := Run(Init(threads), actions).state;
    forall t, u | t in s.pc && u in s.pc && s.pc[t].Inside() && s.pc[u].Inside() ensures t == u {
      OneInside(s, t, u);
    }
    if s.waiters != [] && s.value == 0 {
      assert Inside(s) != {};
      var t :| t in Inside(s);
      assert s.pc[t].Inside();
    }
  }

  /** A run without the bound on nesting; actions a thread is not ready for are not taken. */
  function Play(s: Lock, actions: seq<Action>): Outcome
    decreases |actions|
  {
    if actions == [] then Next(s)
    else if !Enabled(s, actions[0]) then Play(s, actions[1..])
    else match Step(s, actions[0])
      case AssertFails => AssertFails
      case Next(s') => Play(s', actions[1..])
  }

  lemma PlayNext(s: Lock, a: Action, s': Lock, rest: seq<Action>)
    requires Enabled(s, a) && Step(s, a) == Next(s')
    ensures Play(s, [a] + rest) == Play(s', rest)
  {
    assert ([a] + rest)[1..] == rest;
    hide Step, Enabled;
  }

  lemma PlaySkip(s: Lock, a: Action, rest: seq<Action>)
    requires !Enabled(s, a)
    ensures Play(s, [a] + rest) == Play(s, rest)
  {
    assert ([a] + rest)[1..] == rest;
    hide Step, Enabled;
  }

  lemma AtTwice(s: Lock, t: Tid, p: Pc, q: Pc)
    ensures At(At(s, t, p), t, q) == At(s, t, q)
  {
    assert s.pc[t := p][t := q] == s.pc[t := q];
  }

  /** The steps of a nested request, up to the check its release starts with. */
  lemma NestingUp(s: Lock, t: Tid, d: nat, s2: Lock)
    requires t in s.pc && s.pc[t] == Holding(d) && s.holder == Some(t)
    requires s2 == s.(repeat := (s.repeat + 1) % UINT_RANGE)
    ensures var (p, q, r) := (At(s, t, Nesting(d)), At(s2, t, Holding(d + 1)), At(s2, t, Checked(d + 1)));
            && Enabled(s, Request(t)) && Step(s, Request(t)) == Next(p)
            && Enabled(p, CountUp(t)) && Step(p, CountUp(t)) == Next(q)
            && Enabled(q, Release(t)) && Step(q, Release(t)) == Next(r)
  {
    AtTwice(s2, t, Nesting(d), Holding(d + 1));
    AtTwice(s2, t, Holding(d + 1), Checked(d + 1));
  }

  /** The steps of its release when the count did not wrap. */
  lemma NestingDown(s: Lock, t: Tid, d: nat, s2: Lock)
    requires t in s.pc && s.pc[t] == Holding(d) && s.repeat == d && 1 <= d && s2 == s.(repeat := d + 1)
    requires d + 1 < UINT_RANGE
    ensures var (r, l) := (At(s2, t, Checked(d + 1)), At(s2, t, Lowering(d + 1)));
            && Enabled(r, TestCount(t)) && Step(r, TestCount(t)) == Next(l)
            && Enabled(l, CountDown(t)) && Step(l, CountDown(t)) == Next(s)
            && !Enabled(s, CheckLast(t))
  {
    AtTwice(s2, t, Checked(d + 1), Lowering(d + 1));
    AtTwice(s, t, Lowering(d + 1), Holding(d));
    assert s.pc[t := Holding(d)] == s.pc;
    assert (d + 1 + UINT_RANGE - 1) % UINT_RANGE == d;
  }

  /** ... and when it did. */
  lemma NestingWraps(s: Lock, t: Tid, d: nat, s2: Lock)
    requires t in s.pc && s2 == s.(repeat := 0)
    ensures var (r, l) := (At(s2, t, Checked(d + 1)), At(s2, t, Lowest));
            && Enabled(r, TestCount(t)) && Step(r, TestCount(t)) == Next(l)
            && !Enabled(l, CountDown(t))
            && Enabled(l, CheckLast(t)) && Step(l, CheckLast(t)) == AssertFails
  {
    AtTwice(s2, t, Checked(d + 1), Lowest);
  }

  /**
    A nested request and its release cancel out exactly as long as the count does not wrap; when it does, the
    release fails its assertion.
   */
  lemma NestingRoundTrip(s: Lock, t: Tid)
    requires Inv(s) && t in s.pc && s.pc[t].Holding?
    ensures Play(s, [Request(t), CountUp(t), Release(t), TestCount(t), CountDown(t), CheckLast(t)])
         == if s.pc[t].depth + 1 < UINT_RANGE then Next(s) else AssertFails
  {
    var d := s.pc[t].depth;
    assert CountAt(s.pc[t], s.repeat);
    assert s.holder == Some(t) && s.repeat == d && s.pc[t] == Holding(d);
    hide Inv, Step, Enabled, Play, At;
    var s2 := s.(repeat := (d + 1) % UINT_RANGE);
    var a3 := [TestCount(t), CountDown(t), CheckLast(t)];
    PlayUp(s, t, d, s2, a3);
    PlayDown(s, t, d, s2);
    assert [Request(t)] + ([CountUp(t)] + ([Release(t)] + a3))
        == [Request(t), CountUp(t), Release(t), TestCount(t), CountDown(t), CheckLast(t)];
  }

  lemma PlayUp(s: Lock, t: Tid, d: nat, s2: Lock, rest: seq<Action>)
    requires t in s.pc && s.pc[t] == Holding(d) && s.holder == Some(t)
    requires s2 == s.(repeat := (s.repeat + 1) % UINT_RANGE)
    ensures Play(s, [Request(t)] + ([CountUp(t)] + ([Release(t)] + rest))) == Play(At(s2, t, Checked(d + 1)), rest)
  {
    hide Step, Enabled, Play, At;
    var p, q, r := At(s, t, Nesting(d)), At(s2, t, Holding(d + 1)), At(s2, t, Checked(d + 1));
    NestingUp(s, t, d, s2);
    PlayNext(s, Request(t), p, [CountUp(t)] + ([Release(t)] + rest));
    PlayNext(p, CountUp(t), q, [Release(t)] + rest);
    PlayNext(q, Release(t), r, rest);
  }

  lemma PlayDown(s: Lock, t: Tid, d: nat, s2: Lock)
    requires t in s.pc && s.pc[t] == Holding(d) && s.repeat == d && 1 <= d < UINT_RANGE
    requires s2 == s.(repeat := (d + 1) % UINT_RANGE)
    ensures Play(At(s2, t, Checked(d + 1)), [TestCount(t), CountDown(t), CheckLast(t)])
         == if d + 1 < UINT_RANGE then Next(s) else AssertFails
  {
    hide Step, Enabled, Play, At;
    var r, a4, a5 := At(s2, t, Checked(d + 1)), [CountDown(t), CheckLast(t)], [CheckLast(t)];
    assert [TestCount(t)] + a4 == [TestCount(t), CountDown(t), CheckLast(t)];
    assert [CountDown(t)] + a5 == a4 && [CheckLast(t)] + [] == a5;
    if d + 1 < UINT_RANGE {
      NestingDown(s, t, d, s2);
      PlayNext(r, TestCount(t), At(s2, t, Lowering(d + 1)), a4);
      PlayNext(At(s2, t, Lowering(d + 1)), CountDown(t), s, a5);
      PlaySkip(s, CheckLast(t), []);
      PlayNothing(s);
    } else {
      NestingWraps(s, t, d, s2);
      PlayNext(r, TestCount(t), At(s2, t, Lowest), a4);
      PlaySkip(At(s2, t, Lowest), CountDown(t), a5);
      PlayFails(At(s2, t, Lowest), CheckLast(t), []);
    }
  }

  lemma PlayNothing(s: Lock)
    ensures Play(s, []) == Next(s)
  {
  }

  lemma PlayFails(s: Lock, a: Action, rest: seq<Action>)
    requires Enabled(s, a) && Step(s, a) == AssertFails
    ensures Play(s, [a] + rest) == AssertFails
  {
    hide Step, Enabled;
  }
}
