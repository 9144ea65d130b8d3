/**
  The lock's fields and the code that changes them.  A method here is a call, or a stretch of one, that no
  other thread interrupts; every access in it is shown to be one step of `LockModel`, so other threads' steps
  may come between any two.  The assertions of the C code appear as assertions and are proved.
 */
module Locks {
  import opened Common
  import opened LockModel
  import opened LockOrder

  lemma Took(s: Lock, a: Action, s': Lock)
    requires Inv(s) && Disciplined(s, a) && Step(s, a) == Next(s')
    ensures Inv(s')
  {
    StepInv(s, a);
  }

  /** A thread that is idle or holds the lock: what holder, count and value are. */
  lemma HolderStands(s: Lock, t: Tid)
    requires Inv(s) && t in s.pc && (s.pc[t].Idle? || s.pc[t].Holding?)
    ensures s.value <= 1 && (s.holder == Some(t) <==> s.pc[t].Holding?)
    ensures s.pc[t].Holding? ==> s.repeat == s.pc[t].depth && 1 <= s.repeat < UINT_RANGE && s.value == 0
  {
    assert CountAt(s.pc[t], s.repeat);
    if s.pc[t].Holding? {
      OneInside(s, t, t);
    }
  }

  lemma NestingStands(s: Lock, t: Tid)
    requires Inv(s) && t in s.pc && s.pc[t].Nesting?
    ensures s.value == 0 && s.holder == Some(t) && s.repeat == s.pc[t].depth < UINT_RANGE - 1
  {
    assert CountAt(s.pc[t], s.repeat);
    OneInside(s, t, t);
  }

  /** The lock after `t`'s request got through, its `d`th. */
  function Acquired(s: Lock, t: Tid, d: nat): Lock {
    At(s.(value := 0, holder := Some(t), repeat := d), t, Holding(d))
  }

  /** The lock after `t`'s request missed. */
  function Queued(s: Lock, t: Tid): Lock {
    At(s.(waiters := s.waiters + [t]), t, Waiting)
  }

  lemma RequestedSame(s: Lock, t: Tid, p: Pc, d: nat)
    ensures Acquired(At(s, t, p), t, d) == Acquired(s, t, d) && Queued(At(s, t, p), t) == Queued(s, t)
  {
    assert s.pc[t := p][t := Holding(d)] == s.pc[t := Holding(d)];
    assert s.pc[t := p][t := Waiting] == s.pc[t := Waiting];
  }

  lemma NoCountYet(s: Lock, t: Tid)
    requires Inv(s) && t in s.pc && s.pc[t].HolderSet?
    ensures s.repeat == 0
  {
    assert CountAt(s.pc[t], s.repeat);
  }

  lemma Known(s: Lock)
    requires Inv(s)
    ensures s.value <= 1 && WaitersOk(s)
  {
  }

  lemma Vacates(s: Lock, t: Tid)
    requires Inv(s) && t in s.pc && s.pc[t].CountCleared?
    ensures Step(s, DoV(t)) == Next(AfterV(s, t))
  {
    OneInside(s, t, t);
    DoVStep(s, t);
  }

  /** Where the leaving thread stood just before does not show afterwards. */
  lemma AfterVSame(s: Lock, t: Tid, p: Pc)
    ensures AfterV(At(s, t, p), t) == AfterV(s, t)
  {
    if s.waiters == [] {
      assert s.pc[t := p][t := Idle] == s.pc[t := Idle];
    } else {
      var w := s.waiters[0];
      assert s.pc[t := p][w := Woken][t := Idle] == s.pc[w := Woken][t := Idle];
    }
  }

  /** The two steps of an inner release. */
  lemma DownSteps(s: Lock, t: Tid, d: nat)
    requires t in s.pc && s.pc[t] == Checked(d) && s.repeat == d && 1 < d < UINT_RANGE
    ensures var (p, q) := (At(s, t, Lowering(d)), At(s.(repeat := d - 1), t, Holding(d - 1)));
            && Disciplined(s, TestCount(t)) && Step(s, TestCount(t)) == Next(p)
            && Disciplined(p, CountDown(t)) && Step(p, CountDown(t)) == Next(q)
  {
    AtTwice(s.(repeat := d - 1), t, Lowering(d), Holding(d - 1));
    assert (d + UINT_RANGE - 1) % UINT_RANGE == d - 1;
  }

  /** The step a thread's request starts with, and the one that is next. */
  lemma RequestStep(s: Lock, t: Tid)
    requires t in s.pc && (s.pc[t].Idle? || s.pc[t].Holding?)
    ensures var (s', b) := if s.holder == Some(t) then (At(s, t, Nesting(Depth(s.pc[t]))), CountUp(t))
                           else (At(s, t, WantsP), TryP(t));
            Enabled(s, Request(t)) && Step(s, Request(t)) == Next(s') && Disciplined(s', b)
  {
  }

  /** The same for its release. */
  lemma ReleaseStep(s: Lock, t: Tid)
    requires t in s.pc && s.pc[t].Holding? && s.holder == Some(t)
    ensures var s' := At(s, t, Checked(s.pc[t].depth));
            Disciplined(s, Release(t)) && Step(s, Release(t)) == Next(s') && Disciplined(s', TestCount(t))
  {
  }

  lemma CheckedCount(s: Lock, t: Tid)
    requires Inv(s) && t in s.pc && s.pc[t].Checked?
    ensures s.repeat == s.pc[t].depth && 1 <= s.repeat < UINT_RANGE
  {
    assert CountAt(s.pc[t], s.repeat);
  }

  class KLock {
    var value: nat
    var waiters: seq<Tid>
    var holder: Option<Tid>
    var repeat: nat
    ghost var pc: map<Tid, Pc>

    ghost function Abs(): Lock
      reads this
    {
      Lock(value, waiters, holder, repeat, pc)
    }

    /** `current` may take `a` now. */
    ghost predicate Ready(a: Action)
      reads this
    {
      Inv(Abs()) && Disciplined(Abs(), a)
    }

    constructor (ghost threads: set<Tid>)
      ensures Abs() == Init(threads) && Inv(Abs())
    {
      value, waiters, holder, repeat := 1, [], None, 0;
      pc := map t | t in threads :: Idle;
      InitInv(threads);
    }

    /** One pass of `sema_down`'s loop: take the semaphore, or join the waiters and block. */
    method SemaTryDown(current: Tid) returns (passed: bool)
      requires Ready(TryP(current))
      modifies this
      ensures Step(old(Abs()), TryP(current)) == Next(Abs()) && Inv(Abs())
      ensures passed <==> old(value) != 0
      ensures !passed ==> waiters == old(waiters) + [current] && current in pc && pc[current].Waiting?
    {
      StepInv(Abs(), TryP(current));
      passed := value != 0;
      if !passed {
        assert current !in waiters;
        waiters := waiters + [current];
        pc := pc[current := Waiting];
      } else {
        value := value - 1;
        assert value == 0;
        pc := pc[current := Passed];
      }
    }

    /**
      `req_lock` from `sema_down` on, entered for the first time or after a wakeup: the thread ends up inside
      with a count of 1, or waiting at the end of the list with holder and count untouched.
     */
    method DownAndTake(current: Tid) returns (acquired: bool)
      requires Ready(TryP(current))
      modifies this
      ensures Inv(Abs()) && (acquired <==> old(value) == 1)
      ensures Abs() == if acquired then Acquired(old(Abs()), current, 1) else Queued(old(Abs()), current)
      ensures waiters == if acquired then old(waiters) else old(waiters) + [current]
      ensures acquired ==> holder == Some(current) && repeat == 1
    {
      ghost var s0 := Abs();
      hide Inv;
      Known(s0);
      acquired := SemaTryDown(current);
      if !acquired {
        return;
      }
      ghost var s1 := Abs();
      holder := Some(current);
      pc := pc[current := HolderSet];
      Took(s1, SetHolder(current), Abs());
      NoCountYet(Abs(), current);
      assert repeat == 0;
      ghost var s2 := Abs();
      pc := pc[current := CountChecked];
      Took(s2, CheckCount(current), Abs());
      ghost var s3 := Abs();
      repeat := 1;
      pc := pc[current := Holding(1)];
      Took(s3, SetCount(current), Abs());
      assert pc == s0.pc[current := Holding(1)];
      assert Abs() == Acquired(s0, current, 1);
    }

    /** `req_lock`: one more request of the holder, or the way through the semaphore. */
    method ReqLock(current: Tid) returns (acquired: bool)
      requires Ready(Request(current))
      modifies this
      ensures Inv(Abs())
      ensures acquired <==> old(value) == 1 || old(holder) == Some(current)
      ensures Abs() == if acquired then Acquired(old(Abs()), current, Depth(old(pc)[current]) + 1)
                       else Queued(old(Abs()), current)
      ensures waiters == if acquired then old(waiters) else old(waiters) + [current]
      ensures acquired ==> holder == Some(current)
    {
      ghost var s0, d := Abs(), Depth(pc[current]);
      HolderStands(s0, current);
      RequestStep(s0, current);
      hide Inv, Step, Enabled, Disciplined, Acquired, Queued;
      if holder != Some(current) {
        pc := pc[current := WantsP];
        Took(s0, Request(current), Abs());
        RequestedSame(s0, current, WantsP, 1);
        acquired := DownAndTake(current);
      } else {
        pc := pc[current := Nesting(d)];
        Took(s0, Request(current), Abs());
        RequestedSame(s0, current, Nesting(d), d + 1);
        CountUpOne(current, d);
        acquired := true;
      }
    }

    method CountUpOne(current: Tid, ghost d: nat)
      requires Ready(CountUp(current)) && pc[current] == Nesting(d)
      modifies this
      ensures Inv(Abs()) && Abs() == Acquired(old(Abs()), current, d + 1)
    {
      ghost var s1 := Abs();
      NestingStands(s1, current);
      hide Inv;
      repeat := (repeat + 1) % UINT_RANGE;
      pc := pc[current := Holding(d + 1)];
      Took(s1, CountUp(current), Abs());
    }

    /** `sema_up`: wake the first waiter, if any, and give the value back. */
    method SemaUp(current: Tid) returns (woken: Option<Tid>)
      requires Ready(DoV(current))
      modifies this
      ensures Step(old(Abs()), DoV(current)) == Next(Abs()) && Inv(Abs())
      ensures woken == if old(waiters) == [] then None else Some(old(waiters)[0])
      ensures woken.Some? ==> woken.value in pc && pc[woken.value].Woken? && woken.value !in waiters
      ensures waiters == if old(waiters) == [] then [] else old(waiters)[1..]
    {
      StepInv(Abs(), DoV(current));
      WakesFirst(Abs(), current);
      assert value == 0;
      woken := None;
      if waiters != [] {
        var w := waiters[0];
        waiters := waiters[1..];
        assert pc[w].Waiting?;
        pc := pc[w := Woken];
        woken := Some(w);
      }
      value := value + 1;
      assert value == 1;
      pc := pc[current := Idle];
    }

    /** The outermost release up to the V: the count is 1, holder and count are cleared. */
    method ClearLock(current: Tid)
      requires Ready(TestCount(current)) && repeat == 1
      modifies this
      ensures Inv(Abs()) && Abs() == At(old(Abs()).(holder := None, repeat := 0), current, CountCleared)
    {
      ghost var s1 := Abs();
      hide Inv;
      pc := pc[current := Lowest];
      Took(s1, TestCount(current), Abs());
      assert repeat == 1;
      ghost var s2 := Abs();
      pc := pc[current := LastRelease];
      Took(s2, CheckLast(current), Abs());
      ghost var s3 := Abs();
      holder := None;
      pc := pc[current := HolderCleared];
      Took(s3, ClearHolder(current), Abs());
      ghost var s4 := Abs();
      repeat := 0;
      pc := pc[current := CountCleared];
      Took(s4, ClearCount(current), Abs());
      assert pc == s1.pc[current := CountCleared];
    }

    /** An inner release counts down. */
    method CountDownOne(current: Tid, ghost d: nat)
      requires Ready(TestCount(current)) && pc[current] == Checked(d) && d > 1
      modifies this
      ensures Inv(Abs()) && Abs() == At(old(Abs()).(repeat := d - 1), current, Holding(d - 1))
    {
      ghost var s1 := Abs();
      CheckedCount(s1, current);
      DownSteps(s1, current, d);
      hide Inv, Step, Disciplined, Enabled;
      pc := pc[current := Lowering(d)];
      Took(s1, TestCount(current), Abs());
      ghost var s2 := Abs();
      repeat := repeat - 1;
      pc := pc[current := Holding(d - 1)];
      assert pc == s1.pc[current := Holding(d - 1)];
      Took(s2, CountDown(current), Abs());
    }

    /** The outermost release, after the holder was checked. */
    method Leave(current: Tid) returns (woken: Option<Tid>)
      requires Ready(TestCount(current)) && repeat == 1
      modifies this
      ensures Inv(Abs()) && Abs() == AfterV(old(Abs()).(holder := None, repeat := 0), current)
      ensures woken == if old(waiters) == [] then None else Some(old(waiters)[0])
      ensures woken.Some? ==> woken.value in pc && pc[woken.value].Woken? && woken.value !in waiters
      ensures waiters == if old(waiters) == [] then [] else old(waiters)[1..]
    {
      ghost var cleared := Abs().(holder := None, repeat := 0);
      ClearLock(current);
      AfterVSame(cleared, current, CountCleared);
      Vacates(Abs(), current);
      hide Inv, AfterV, Step;
      woken := SemaUp(current);
    }

    /** `lock_release`: an inner release counts down; the outermost frees the lock and wakes the first waiter. */
    method LockRelease(current: Tid) returns (woken: Option<Tid>)
      requires Ready(Release(current))
      modifies this
      ensures Inv(Abs())
      ensures var d := old(pc)[current].depth;
              && (d > 1 ==> woken == None && Abs() == At(old(Abs()).(repeat := d - 1), current, Holding(d - 1)))
              && (d == 1 ==> woken == (if old(waiters) == [] then None else Some(old(waiters)[0]))
                             && Abs() == AfterV(old(Abs()).(holder := None, repeat := 0), current))
      ensures woken.Some? ==> woken.value in pc && pc[woken.value].Woken? && woken.value !in waiters
      ensures waiters == if woken == None then old(waiters) else old(waiters)[1..]
    {
      ghost var s0, d := Abs(), pc[current].depth;
      HolderStands(s0, current);
      ReleaseStep(s0, current);
      hide Inv, AfterV, Step, CountAt, Enabled, Disciplined;
      assert holder == Some(current);
      pc := pc[current := Checked(d)];
      Took(s0, Release(current), Abs());
      if repeat > 1 {
        AtTwice(s0.(repeat := d - 1), current, Checked(d), Holding(d - 1));
        CountDownOne(current, d);
        return None;
      }
      AfterVSame(s0.(holder := None, repeat := 0), current, Checked(d));
      woken := Leave(current);
    }
  }
}
