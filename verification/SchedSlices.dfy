/** What each thread gets: its priority from creation on, full slices of that many ticks, and the marks of blocking. */
module SchedSlices {
  import opened Common
  import opened SchedModel

  /** A created thread is last in line with the next id, the priority asked for as an `uchar`, and a slice of it. */
  lemma CreateGives(s: State, prio: nat)
    ensures var s', n := Step(s, Create(prio)), |s.ready|;
            && s'.current == s.current && s'.nowPid == s.nowPid + 1
            && |s'.ready| == n + 1 && s'.ready[..n] == s.ready
            && s'.ready[n].pid == s.nowPid && s'.ready[n].state.READY?
            && s'.ready[n].ticks == s'.ready[n].prio == prio % 256
  {
  }

  /** The queue turned by one: its first thread runs, the one that ran is last, READY, with a full slice. */
  predicate Turned(s: State, s': State) {
    var n := |s.ready|;
    && n > 0 && |s'.ready| == n && s'.nowPid == s.nowPid
    && s'.current.pid == s.ready[0].pid && s'.current.prio == s.ready[0].prio && s'.current.ticks == s.ready[0].ticks
    && s'.current.state.RUNNING?
    && (forall i :: 0 <= i < n - 1 ==> s'.ready[i] == s.ready[i + 1])
    && s'.ready[n - 1].pid == s.current.pid && s'.ready[n - 1].prio == s.current.prio
    && s'.ready[n - 1].ticks == s.current.prio && s'.ready[n - 1].state.READY?
  }

  /** The same threads where they were; the running one with `ticks` left of its slice and in state `p`. */
  predicate Stays(s: State, s': State, ticks: nat, p: ProcState) {
    && s'.ready == s.ready && s'.nowPid == s.nowPid
    && s'.current.pid == s.current.pid && s'.current.prio == s.current.prio
    && s'.current.ticks == ticks && s'.current.state == p
  }

  /**
    One tick: within the slice it counts down, an empty slice counting as 256.  The last tick of a slice turns the
    queue, or gives a lone thread its next slice; whoever runs then has as many ticks as its priority.
   */
  lemma TickExactly(s: State)
    requires Inv(s)
    ensures var s' := Step(s, Tick);
            && (s.current.ticks != 1 ==>
                  Stays(s, s', if s.current.ticks == 0 then 255 else s.current.ticks - 1, s.current.state))
            && (s.current.ticks == 1 && s.ready == [] ==> Stays(s, s', s.current.prio, s.current.state))
            && (s.current.ticks == 1 && s.ready != [] ==> Turned(s, s'))
            && (s.current.ticks == 1 ==> s'.current.ticks == s'.current.prio)
  {
  }

  /**
    thread_block: within the slice the caller is marked and runs on.  On an expired slice it is marked and has a new
    slice if it is alone, and otherwise gives way like any other thread, the mark lost.
   */
  lemma BlockExactly(s: State, p: ProcState)
    requires Inv(s) && IsBlocked(p)
    ensures var s' := Step(s, Block(p));
            && (s.current.ticks != 0 ==> Stays(s, s', s.current.ticks, p))
            && (s.current.ticks == 0 && s.ready == [] ==> Stays(s, s', s.current.prio, p))
            && (s.current.ticks == 0 && s.ready != [] ==> Turned(s, s') && s'.current.ticks == s'.current.prio)
  {
  }

  /** thread_unblock that gets through: the running thread, READY, is first in line as well. */
  lemma UnblockExactly(s: State, who: Target)
    requires who.Queued? ==> who.k < |s.ready|
    ensures var t := if who.Queued? then s.ready[who.k] else s.current;
            && (Unblock(s, who).AssertFails? <==> !t.state.WAITING? && !t.state.HANGING? && !t.state.BLOCKED?)
            && (Unblock(s, who).Panics? ==> who.Queued?)
            && (Unblock(s, who).Requeued? ==>
                  var z := Unblock(s, who).s;
                  && who.Current? && |z.ready| == |s.ready| + 1 && z.ready[1..] == s.ready && z.nowPid == s.nowPid
                  && z.ready[0] == z.current && z.current.state.READY? && z.current.pid == s.current.pid
                  && z.current.prio == s.current.prio && z.current.ticks == s.current.ticks)
  {
  }

  // ---------- over runs ----------

  function Pair(t: Thread): (nat, nat) {
    (t.pid, t.prio)
  }

  function PairsOf(ts: seq<Thread>): (r: seq<(nat, nat)>)
    ensures |r| == |ts| && forall i :: 0 <= i < |ts| ==> r[i] == Pair(ts[i])
  {
    seq(|ts|, i requires 0 <= i < |ts| => Pair(ts[i]))
  }

  /** Every live thread with its priority. */
  function Pairs(s: State): seq<(nat, nat)> {
    [Pair(s.current)] + PairsOf(s.ready)
  }

  /** The threads a run creates, with the priorities asked for, as `uchar`s, ids from `pid` on. */
  function Created(pid: nat, ops: seq<Op>): seq<(nat, nat)>
    decreases |ops|
  {
    if ops == [] then []
    else if ops[0].Create? then [(pid, ops[0].prio % 256)] + Created(pid + 1, ops[1..])
    else Created(pid, ops[1..])
  }

  lemma TurnPairs(s: State, s': State)
    requires Turned(s, s')
    ensures multiset(Pairs(s')) == multiset(Pairs(s))
  {
    var n := |s.ready|;
    assert PairsOf(s.ready) == [Pair(s.ready[0])] + PairsOf(s.ready)[1..];
    assert PairsOf(s'.ready) == PairsOf(s.ready)[1..] + [Pair(s.current)];
    hide Turned, PairsOf;
  }

  lemma StayPairs(s: State, s': State, ticks: nat, p: ProcState)
    requires Stays(s, s', ticks, p)
    ensures Pairs(s') == Pairs(s)
  {
  }

  lemma StepPairs(s: State, op: Op)
    requires Inv(s)
    ensures multiset(Pairs(Step(s, op))) == multiset(Pairs(s)) + multiset(Created(s.nowPid, [op]))
    ensures Step(s, op).nowPid == s.nowPid + |Created(s.nowPid, [op])|
  {
    var s' := Step(s, op);
    assert [op][1..] == [];
    match op {
      case Create(prio) =>
        CreateGives(s, prio);
        assert PairsOf(s'.ready) == PairsOf(s.ready) + [(s.nowPid, prio % 256)];
      case Tick => TickExactly(s);
      case Block(p) => if IsBlocked(p) { BlockExactly(s, p); }
    }
    hide Inv, Step, PairsOf, Turned, Stays;
    if Turned(s, s') { TurnPairs(s, s'); }
    else if op.Tick? || (op.Block? && IsBlocked(op.state)) { StayPairs(s, s', s'.current.ticks, s'.current.state); }
  }

  /**
    Over every run each thread keeps the priority it was created with: the live threads with their priorities are those
    at the start and the ones created, each once.
   */
  lemma {:induction false} PrioritiesKept(s: State, ops: seq<Op>)
    requires Inv(s)
    ensures multiset(Pairs(Run(s, ops))) == multiset(Pairs(s)) + multiset(Created(s.nowPid, ops))
    decreases |ops|
  {
    hide Inv, Step, Pairs;
    if ops != [] {
      StepInv(s, ops[0]);
      StepPairs(s, ops[0]);
      PrioritiesKept(Step(s, ops[0]), ops[1..]);
      CreatedStep(s.nowPid, ops);
    }
  }

  lemma CreatedStep(pid: nat, ops: seq<Op>)
    requires ops != []
    ensures Created(pid, ops) == Created(pid, [ops[0]]) + Created(pid + |Created(pid, [ops[0]])|, ops[1..])
  {
    assert [ops[0]][1..] == [];
  }
}
