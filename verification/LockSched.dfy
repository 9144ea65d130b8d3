/**
  The semaphore's P on the scheduler as written, where `thread_block` takes nobody out.  It joins the two: what
  the lock proofs assume of `thread_block` fails here, and this is how.
 */
module LockAsWritten {
  import opened Common
  import opened Ring
  import opened Scheduler
  import SchedModel

  /**
    How a P ends: taken; its own retest fails the assertion; or another thread runs while the caller waits and is
    ready.
   */
  datatype Down = Taken | AssertFails | SwitchedAway(s: SchedModel.State, waiters: seq<nat>)

  /** sema_down() by the running thread, interrupts off, until it returns, fails or another thread runs. */
  function SemaDown(s: SchedModel.State, value: nat, waiters: seq<nat>): Down
    decreases s.current.pid !in waiters
  {
    var t := s.current.pid;
    if value != 0 then Taken
    else if t in waiters then AssertFails
    else
      var s' := SchedModel.OnBlock(s, SchedModel.BLOCKED);
      if s'.current.pid == t then SemaDown(s', value, waiters + [t]) else SwitchedAway(s', waiters + [t])
  }

  /**
    With the semaphore taken, a thread that is not waiting yet fails the assertion of sema_down at once exactly
    when its slice is not used up or nobody else is ready.  Otherwise it ends up both waiting and READY in the
    queue, where it runs again without being woken.
   */
  lemma TakenLockExactly(s: SchedModel.State, waiters: seq<nat>)
    requires SchedModel.Inv(s) && s.current.pid !in waiters
    ensures var d := SemaDown(s, 0, waiters);
            && (d == AssertFails <==> s.current.ticks != 0 || s.ready == [])
            && (d != AssertFails ==>
                  && d.SwitchedAway? && d.waiters == waiters + [s.current.pid]
                  && SchedModel.Inv(d.s) && d.s.current.pid == s.ready[0].pid && d.s.ready != []
                  && var last := d.s.ready[|d.s.ready| - 1];
                     last.pid == s.current.pid && last.state == SchedModel.READY)
  {
    SchedModel.StepInv(s, SchedModel.Block(SchedModel.BLOCKED));
    SchedModel.BlockKeepsCallerRunnable(s, SchedModel.BLOCKED);
    if s.ready != [] {
      SchedModel.DistinctPids(s, 0);
    }
    assert s.current.pid in waiters + [s.current.pid];
    hide SchedModel.Inv;
  }

  /** A node of the ready ring is on no ring with another head. */
  lemma OnReadyRing(sched: Sched, waiters: Node, me: Node)
    requires sched.Valid() && waiters != sched.ready && waiters !in NodesOf(sched.queue) && me in NodesOf(sched.queue)
    ensures forall r: seq<Node> :: me in r && sched.ready !in r ==> !IsRing(waiters, r)
  {
    var ns := NodesOf(sched.queue);
    var i :| 0 <= i < |ns| && ns[i] == me;
    forall r: seq<Node> | me in r && sched.ready !in r ensures !IsRing(waiters, r) {
      if IsRing(waiters, r) {
        var j :| 0 <= j < |r| && r[j] == me;
        NotShared(sched.ready, ns, i, waiters, r, j);
      }
    }
  }

  /** No node of `ws` or its head belongs to the scheduler. */
  ghost predicate Separate(sched: Sched, waiters: Node, ws: seq<Node>)
    reads sched
  {
    && waiters != sched.ready && sched.ready !in ws && waiters !in NodesOf(sched.queue) && waiters != sched.current.node
    && forall n :: n in ws ==> n !in NodesOf(sched.queue)
  }

  /** The caller joins the waiters' ring; the scheduler does not notice. */
  method Enlist(sched: Sched, waiters: Node, ghost ws: seq<Node>)
    requires sched.Valid() && IsRing(waiters, ws) && sched.current.node !in ws && Separate(sched, waiters, ws)
    modifies waiters, waiters.prev, sched.current.node
    ensures sched.Valid() && sched.Abs() == old(sched.Abs()) && IsRing(waiters, ws + [sched.current.node])
  {
    Links(waiters, ws, |ws|);
    assert waiters.prev == waiters || waiters.prev in ws;
    hide IsRing, QueueOk;
    AddTail(waiters, sched.current.node, ws);
  }

  /** The call of thread_block with the caller listed: it returns at once, or the caller's node changes rings. */
  method BlockListed(sched: Sched, waiters: Node, ghost ws: seq<Node>) returns (fails: bool)
    requires sched.Valid() && IsRing(waiters, ws + [sched.current.node]) && Separate(sched, waiters, ws)
    modifies sched, sched.current, sched.queue, sched.ready, NodesOf(sched.queue), sched.current.node
    ensures sched.Valid() && sched.Abs() == SchedModel.OnBlock(old(sched.Abs()), SchedModel.BLOCKED)
    ensures fails <==> old(sched.current.ticks != 0 || sched.queue == [])
    ensures fails ==> IsRing(waiters, ws + [old(sched.current.node)])
    ensures !fails ==> old(sched.current.node) in NodesOf(sched.queue)
                       && waiters != sched.ready && waiters !in NodesOf(sched.queue)
  {
    var caller := sched.current;
    ghost var me, all := caller.node, ws + [caller.node];
    assert caller !in sched.queue && forall n :: n in all && n != me ==> n in ws;
    hide QueueOk, SchedModel.OnBlock;
    sched.ThreadBlock(SchedModel.BLOCKED);
    fails := sched.current == caller;
    if fails {
      forall k | 0 <= k <= |all| + 1
        ensures At(waiters, all, k).next == old(At(waiters, all, k).next)
        ensures At(waiters, all, k).prev == old(At(waiters, all, k).prev)
      {
        var n := At(waiters, all, k);
        assert n == waiters || n == me || n in ws;
      }
      assert IsRing(waiters, all);
      var again := Find(waiters, caller.node, all);
      assert all[|ws|] == me && again;
    } else {
      assert sched.queue[|sched.queue| - 1] == caller && NodesOf(sched.queue)[|sched.queue| - 1] == me;
      forall i | 0 <= i < |sched.queue| ensures NodesOf(sched.queue)[i] != waiters {
        assert i < |sched.queue| - 1 ==> sched.queue[i] == old(sched.queue)[i + 1];
        assert i < |sched.queue| - 1 ==> NodesOf(sched.queue)[i] == old(NodesOf(sched.queue))[i + 1];
      }
    }
  }

  /**
    The same P on the rings themselves, the semaphore being taken: `waiters` heads the ring `ws`.  True when the
    retest's assertion fails.  Otherwise the caller's one node was linked onto the ready ring while it sat on the
    waiters', and no ring with that node on it starts at `waiters` any more.
   */
  method SemaDownTaken(sched: Sched, waiters: Node, ghost ws: seq<Node>) returns (fails: bool)
    requires sched.Valid() && IsRing(waiters, ws) && sched.current.node !in ws && Separate(sched, waiters, ws)
    modifies sched, sched.current, sched.queue, sched.ready, NodesOf(sched.queue), sched.current.node
    modifies waiters, waiters.prev
    ensures sched.Valid() && sched.Abs() == SchedModel.OnBlock(old(sched.Abs()), SchedModel.BLOCKED)
    ensures fails <==> old(sched.current.ticks != 0 || sched.queue == [])
    ensures fails ==> IsRing(waiters, ws + [old(sched.current.node)])
    ensures !fails ==> old(sched.current.node) in NodesOf(sched.queue)
                       && forall r: seq<Node> ::
                            old(sched.current.node) in r && sched.ready !in r ==> !IsRing(waiters, r)
  {
    hide IsRing, QueueOk, SchedModel.OnBlock;
    ghost var me := sched.current.node;
    var listed := Find(waiters, sched.current.node, ws);
    assert !listed;
    Enlist(sched, waiters, ws);
    fails := BlockListed(sched, waiters, ws);
    if !fails {
      OnReadyRing(sched, waiters, me);
    }
  }
}
