/**
  Round-robin scheduling driven by timer ticks, on values: the running thread, the ready
  queue in order, and the next process id.
 */
module SchedModel {
  import opened Common

  const UCHAR_RANGE: nat := 256

  datatype ProcState = CREATE | READY | RUNNING | BLOCKED | HANGING | WAITING | END

  /** `ticks` is what is left of the slice, `prio` what a new slice gets; both are `uchar`. */
  datatype Thread = Thread(pid: nat, prio: nat, ticks: nat, state: ProcState)

  datatype State = State(current: Thread, ready: seq<Thread>, nowPid: nat)

  datatype Op = Tick | Create(prio: nat) | Block(state: ProcState)

  /** schedule(): act only when the slice is used up. */
  function Schedule(s: State): State {
    if s.current.ticks != 0 then s
    else
      var renewed := s.current.(ticks := s.current.prio);
      if s.ready != [] then
        State(s.ready[0].(state := RUNNING), s.ready[1..] + [renewed.(state := READY)], s.nowPid)
      else s.(current := renewed)
  }

  /** timer_callback(): one tick of the running thread, with the wrap-around of `uchar`. */
  function OnTick(s: State): State {
    Schedule(s.(current := s.current.(ticks := (s.current.ticks + UCHAR_RANGE - 1) % UCHAR_RANGE)))
  }

  predicate IsBlocked(p: ProcState) {
    p == WAITING || p == HANGING || p == BLOCKED
  }

  /** thread_block() by the running thread: mark it, then schedule. */
  function OnBlock(s: State, p: ProcState): State {
    Schedule(s.(current := s.current.(state := p)))
  }

  /** kthread_create(): a full slice, at the end of the queue. */
  function OnCreate(s: State, prio: nat): State {
    State(s.current, s.ready + [Thread(s.nowPid, prio, prio, READY)], s.nowPid + 1)
  }

  function Step(s: State, op: Op): State {
    match op
    case Tick => OnTick(s)
    case Create(prio) => OnCreate(s, prio % UCHAR_RANGE)
    case Block(p) => if IsBlocked(p) then OnBlock(s, p) else s
  }

  function Run(s: State, ops: seq<Op>): State
    decreases |ops|
  {
    if ops == [] then s else Run(Step(s, ops[0]), ops[1..])
  }

  function Ticks(ops: seq<Op>): nat {
    if ops == [] then 0 else (if ops[0].Tick? then 1 else 0) + Ticks(ops[1..])
  }

  // ---------- invariant ----------

  predicate Fresh(t: Thread) {
    t.prio < UCHAR_RANGE && t.ticks == t.prio && t.state == READY
  }

  /** Queued threads are READY and have full slices; every id below the next one to give out occurs exactly once. */
  predicate Inv(s: State) {
    && s.current.prio < UCHAR_RANGE && s.current.ticks < UCHAR_RANGE
    && (forall i :: 0 <= i < |s.ready| ==> Fresh(s.ready[i]))
    && multiset(Pids(s)) == multiset(Ids(0, s.nowPid))
  }

  function PidsOf(ts: seq<Thread>): (r: seq<nat>)
    ensures |r| == |ts| && forall i :: 0 <= i < |ts| ==> r[i] == ts[i].pid
  {
    seq(|ts|, i requires 0 <= i < |ts| => ts[i].pid)
  }

  function Pids(s: State): seq<nat> {
    [s.current.pid] + PidsOf(s.ready)
  }

  lemma CreateInv(s: State, prio: nat)
    requires Inv(s) && prio < UCHAR_RANGE
    ensures Inv(OnCreate(s, prio))
  {
    var s' := OnCreate(s, prio);
    assert PidsOf(s'.ready) == PidsOf(s.ready) + [s.nowPid];
    assert Pids(s') == Pids(s) + [s.nowPid];
    assert Ids(0, s'.nowPid) == Ids(0, s.nowPid) + [s.nowPid];
  }

  /** Rotating the queue permutes the ids. */
  lemma RotatePids(cur: nat, ready: seq<Thread>, last: Thread)
    requires ready != [] && last.pid == cur
    ensures multiset([ready[0].pid] + PidsOf(ready[1..] + [last])) == multiset([cur] + PidsOf(ready))
  {
    assert PidsOf(ready) == [ready[0].pid] + PidsOf(ready[1..]);
    assert PidsOf(ready[1..] + [last]) == PidsOf(ready[1..]) + [cur];
  }

  lemma RotateInv(s: State, s': State, last: Thread)
    requires Inv(s) && s.ready != [] && Fresh(last) && last.pid == s.current.pid
    requires s' == State(s.ready[0].(state := RUNNING), s.ready[1..] + [last], s.nowPid)
    ensures Inv(s')
  {
    hide Ids, PidsOf, Fresh;
    RotatePids(s.current.pid, s.ready, last);
    assert multiset(Pids(s')) == multiset(Pids(s));
    assert Fresh(s.ready[0]);
    assert s'.current.prio < UCHAR_RANGE && s'.current.ticks < UCHAR_RANGE by { FreshBounds(s.ready[0]); }
    forall i | 0 <= i < |s'.ready| ensures Fresh(s'.ready[i]) {
      if i < |s.ready| - 1 { assert s'.ready[i] == s.ready[i + 1]; }
    }
  }

  lemma FreshBounds(t: Thread)
    requires Fresh(t)
    ensures t.prio < UCHAR_RANGE && t.ticks < UCHAR_RANGE
  {
  }

  /** The queue keeps its shape whatever is left of the running thread's slice and however it is marked. */
  lemma ScheduleInv(s: State, s0: State)
    requires Inv(s0) && s.ready == s0.ready && s.nowPid == s0.nowPid
    requires s.current.pid == s0.current.pid && s.current.prio == s0.current.prio && s.current.ticks < UCHAR_RANGE
    ensures Inv(Schedule(s))
  {
    assert Pids(s) == Pids(s0);
    if s.current.ticks == 0 && s.ready != [] {
      RotateInv(s, Schedule(s), s.current.(ticks := s.current.prio, state := READY));
    } else {
      assert Pids(Schedule(s)) == Pids(s);
    }
  }

  lemma Bounds(s: State)
    requires Inv(s)
    ensures s.current.ticks < UCHAR_RANGE
  {
  }

  lemma StepInv(s: State, op: Op)
    requires Inv(s)
    ensures Inv(Step(s, op))
  {
    hide Inv, Schedule, OnCreate;
    match op
    case Create(prio) => CreateInv(s, prio % UCHAR_RANGE);
    case Tick =>
      Bounds(s);
      ScheduleInv(s.(current := s.current.(ticks := (s.current.ticks + UCHAR_RANGE - 1) % UCHAR_RANGE)), s);
    case Block(p) =>
      Bounds(s);
      ScheduleInv(s.(current := s.current.(state := p)), s);
  }

  /**
    Over every run of ticks, creations and blocks, `current` and the ready queue hold each live thread exactly once.
   */
  lemma {:induction false} RunInv(s: State, ops: seq<Op>)
    requires Inv(s)
    ensures Inv(Run(s, ops))
    decreases |ops|
  {
    if ops != [] {
      StepInv(s, ops[0]);
      RunInv(Step(s, ops[0]), ops[1..]);
    }
  }

  // ---------- the exact waiting time ----------

  /** Ticks a counter of `n` lasts: 0 wraps around and lasts 256. */
  function Q(n: nat): nat {
    if n == 0 then UCHAR_RANGE else n
  }

  function SliceSum(ts: seq<Thread>): nat {
    if ts == [] then 0 else Q(ts[0].prio) + SliceSum(ts[1..])
  }

  /** Ticks until the thread at ready position `k` runs: what is left of this slice, and the slices queued before it. */
  function Wait(s: State, k: nat): nat
    requires k <= |s.ready|
  {
    Q(s.current.ticks) + SliceSum(s.ready[..k])
  }

  lemma TickShortensWait(s: State, k: nat)
    requires Inv(s) && k < |s.ready|
    ensures Wait(s, k) == 1 ==> OnTick(s).current == s.ready[k].(state := RUNNING)
    ensures Wait(s, k) > 1 ==>
              var s' := OnTick(s);
              var k' := if s.current.ticks == 1 then k - 1 else k;
              && 0 <= k' < |s'.ready| && s'.ready[k'] == s.ready[k] && Wait(s', k') == Wait(s, k) - 1
  {
    var s' := OnTick(s);
    if s.current.ticks == 1 {
      if k > 0 {
        assert s.ready[..k][0] == s.ready[0];
        assert s.ready[..k][1..] == s'.ready[..k - 1];
      }
    } else {
      assert s'.ready == s.ready;
    }
  }

  lemma CreateKeepsWait(s: State, prio: nat, k: nat)
    requires k < |s.ready|
    ensures OnCreate(s, prio).ready[k] == s.ready[k] && Wait(OnCreate(s, prio), k) == Wait(s, k)
  {
    assert OnCreate(s, prio).ready[..k] == s.ready[..k];
  }

  /**
    In any run of ticks and creations no longer than its waiting time, the thread at ready position `k`
    is running exactly when that many ticks have passed: never earlier, and never later.
   */
  lemma {:induction false} ExactWait(s: State, k: nat, ops: seq<Op>)
    requires Inv(s) && k < |s.ready| && Ticks(ops) <= Wait(s, k) && forall i :: 0 <= i < |ops| ==> !ops[i].Block?
    ensures Run(s, ops).current.pid == s.ready[k].pid <==> Ticks(ops) == Wait(s, k)
    decreases |ops|
  {
    if ops == [] {
      DistinctPids(s, k);
    } else {
      StepInv(s, ops[0]);
      match ops[0]
      case Create(prio) =>
        CreateKeepsWait(s, prio % UCHAR_RANGE, k);
        ExactWait(Step(s, ops[0]), k, ops[1..]);
      case Tick =>
        TickShortensWait(s, k);
        if Wait(s, k) == 1 {
          NoTicksNoSwitch(Step(s, ops[0]), ops[1..]);
        } else {
          ExactWait(Step(s, ops[0]), if s.current.ticks == 1 then k - 1 else k, ops[1..]);
        }
    }
  }

  lemma DistinctPids(s: State, k: nat)
    requires Inv(s) && k < |s.ready|
    ensures s.current.pid != s.ready[k].pid
  {
    var a: seq<nat>, b: seq<nat> := [s.current.pid], PidsOf(s.ready);
    assert multiset(Pids(s)) == multiset(a) + multiset(b);
    assert b[k] == s.ready[k].pid && b[k] in multiset(b);
    IdsOnce(s.nowPid, s.current.pid);
    assert multiset(Pids(s))[s.current.pid] == multiset(a)[s.current.pid] + multiset(b)[s.current.pid];
  }

  lemma {:induction false} NoTicksNoSwitch(s: State, ops: seq<Op>)
    requires Ticks(ops) == 0 && forall i :: 0 <= i < |ops| ==> !ops[i].Block?
    ensures Run(s, ops).current == s.current
    decreases |ops|
  {
    if ops != [] {
      NoTicksNoSwitch(Step(s, ops[0]), ops[1..]);
    }
  }

  /**
    No starvation: whatever is created meanwhile, every queued thread gets its turn within 256 ticks per thread ahead.
   */
  lemma WaitBounded(s: State, k: nat)
    requires Inv(s) && k < |s.ready|
    ensures 1 <= Wait(s, k) <= UCHAR_RANGE * (k + 1)
  {
    SliceSumBounded(s.ready[..k]);
  }

  lemma {:induction false} SliceSumBounded(ts: seq<Thread>)
    requires forall i :: 0 <= i < |ts| ==> ts[i].prio < UCHAR_RANGE
    ensures SliceSum(ts) <= UCHAR_RANGE * |ts|
  {
    if ts != [] { SliceSumBounded(ts[1..]); }
  }

  /** A block, which schedules on an expired slice only, never moves a queued thread further back. */
  lemma BlockKeepsWait(s: State, p: ProcState, k: nat)
    requires Inv(s) && k < |s.ready|
    ensures var s' := OnBlock(s, p);
            if s.current.ticks != 0 then s'.ready == s.ready && Wait(s', k) == Wait(s, k)
            else if k == 0 then s'.current.pid == s.ready[0].pid
            else s'.ready[k - 1] == s.ready[k] && Wait(s', k - 1) == Wait(s, k) - UCHAR_RANGE
  {
    var s' := OnBlock(s, p);
    if s.current.ticks == 0 && k > 0 {
      assert s.ready[..k][0] == s.ready[0] && Fresh(s.ready[0]);
      assert s.ready[..k][1..] == s'.ready[..k - 1];
    }
  }

  /** One step of a run, and what is still to come of it. */
  lemma LaterTurn(s: State, ops: seq<Op>, m: nat)
    requires ops != [] && m < |ops|
    ensures Run(s, ops[..m + 1]) == Run(Step(s, ops[0]), ops[1..][..m])
    ensures Ticks(ops[..m + 1]) == Ticks(ops[1..][..m]) + TicksIn(ops[0])
  {
    assert ops[..m + 1][0] == ops[0] && ops[..m + 1][1..] == ops[1..][..m];
  }

  function TicksIn(op: Op): nat {
    if op.Tick? then 1 else 0
  }

  /** One operation either runs the thread, or leaves it queued with its wait shortened by the ticks it took. */
  lemma StepTurn(s: State, k: nat, op: Op) returns (k': nat)
    requires Inv(s) && k < |s.ready|
    ensures var s' := Step(s, op);
            || s'.current.pid == s.ready[k].pid
            || (k' < |s'.ready| && s'.ready[k'].pid == s.ready[k].pid && Wait(s', k') + TicksIn(op) <= Wait(s, k))
  {
    k' := k;
    match op
    case Create(prio) => CreateKeepsWait(s, prio % UCHAR_RANGE, k);
    case Tick =>
      TickShortensWait(s, k);
      if s.current.ticks == 1 && k > 0 { k' := k - 1; }
    case Block(p) =>
      BlockKeepsWait(s, p, k);
      if IsBlocked(p) && s.current.ticks == 0 && k > 0 { k' := k - 1; }
  }

  /**
    Once as many ticks have passed as its waiting time, the thread at ready position `k` has had its turn, and had it
    within that time, whatever threads were created and however the running ones called thread_block.
   */
  lemma {:induction false} RunsWithin(s: State, k: nat, ops: seq<Op>)
    requires Inv(s) && k < |s.ready| && Ticks(ops) >= Wait(s, k)
    ensures exists m ::
              0 <= m <= |ops| && Run(s, ops[..m]).current.pid == s.ready[k].pid && Ticks(ops[..m]) <= Wait(s, k)
    decreases |ops|
  {
    hide Inv;
    WaitBounded(s, k);
    StepInv(s, ops[0]);
    var s' := Step(s, ops[0]);
    var k' := StepTurn(s, k, ops[0]);
    if s'.current.pid == s.ready[k].pid {
      LaterTurn(s, ops, 0);
    } else {
      RunsWithin(s', k', ops[1..]);
      var m :| 0 <= m <= |ops| - 1 && Run(s', ops[1..][..m]).current.pid == s'.ready[k'].pid
               && Ticks(ops[1..][..m]) <= Wait(s', k');
      LaterTurn(s, ops, m);
    }
  }

  // ---------- blocking and unblocking, as written ----------

  datatype Target = Current | Queued(k: nat)

  datatype Unblocked = Requeued(s: State) | AssertFails | Panics

  /** thread_unblock() on the running thread or on the one at ready position `k`. */
  function Unblock(s: State, who: Target): Unblocked
    requires who.Queued? ==> who.k < |s.ready|
  {
    match who
    case Current =>
      if !IsBlocked(s.current.state) then AssertFails
      else
        var t := s.current.(state := READY);
        Requeued(s.(current := t, ready := [t] + s.ready))
    case Queued(k) => if !IsBlocked(s.ready[k].state) then AssertFails else Panics
  }

  /**
    As written, thread_unblock never does what it is for.  After any run of ticks, creations and blocks every
    live thread is running or queued READY; on a queued thread the assertion fails, on the running thread it
    fails unless that one is marked blocked, and then the running thread is queued a second time.
   */
  lemma UnblockNeverRestores(s: State, ops: seq<Op>, who: Target)
    requires Inv(s) && (who.Queued? ==> who.k < |Run(s, ops).ready|)
    ensures var z := Run(s, ops);
            && Inv(z)
            && (who.Queued? ==> Unblock(z, who) == AssertFails)
            && (who.Current? ==> (Unblock(z, who) == AssertFails <==> !IsBlocked(z.current.state)))
            && (Unblock(z, who).Requeued? ==> !Inv(Unblock(z, who).s))
  {
    RunInv(s, ops);
    var z := Run(s, ops);
    TwiceQueued(z, z.current.(state := READY));
  }

  lemma TwiceQueued(s: State, t: Thread)
    requires t.pid == s.current.pid
    ensures !Inv(s.(current := t, ready := [t] + s.ready))
  {
    var z := s.(current := t, ready := [t] + s.ready);
    assert Pids(z) == [t.pid, t.pid] + PidsOf(s.ready);
    assert multiset(Pids(z))[t.pid] >= 2;
    IdsOnce(s.nowPid, t.pid);
  }

  /**
    `thread_block` only marks the caller and calls `schedule`.  As written that never takes the caller out:
    it keeps running unless its slice is used up and another thread is ready, and then it is requeued READY.
   */
  lemma BlockKeepsCallerRunnable(s: State, p: ProcState)
    ensures multiset(Pids(OnBlock(s, p))) == multiset(Pids(s))
    ensures s.current.ticks != 0 || s.ready == [] ==>
              OnBlock(s, p).current.pid == s.current.pid && OnBlock(s, p).ready == s.ready
    ensures s.current.ticks == 0 && s.ready != [] ==>
              var z, last := OnBlock(s, p), |s.ready| - 1;
              z.current.pid == s.ready[0].pid && z.ready[last].pid == s.current.pid && z.ready[last].state == READY
  {
    var t := s.current.(state := p);
    assert Pids(s.(current := t)) == Pids(s);
    if s.current.ticks == 0 && s.ready != [] {
      RotatePids(s.current.pid, s.ready, t.(ticks := t.prio, state := READY));
    }
  }
}
