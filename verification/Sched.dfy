/**
  The scheduler's objects: threads with an embedded list node, the ready ring and `current`.
  Each method is proved to do to the queue what `SchedModel` says.
 */
module Scheduler {
  import opened Common
  import opened Ring
  import SchedModel

  type ProcState = SchedModel.ProcState

  class Proc {
    const node: Node
    const pid: nat
    const prio: nat
    var ticks: nat
    var state: ProcState

    constructor (pid: nat, prio: nat, ticks: nat, state: ProcState)
      ensures this.pid == pid && this.prio == prio && this.ticks == ticks && this.state == state
      ensures fresh(node)
    {
      this.pid, this.prio, this.ticks, this.state := pid, prio, ticks, state;
      node := new Node();
    }

    ghost function Abs(): SchedModel.Thread
      reads this
    {
      SchedModel.Thread(pid, prio, ticks, state)
    }
  }

  ghost function NodesOf(ps: seq<Proc>): (r: seq<Node>)
    ensures |r| == |ps| && forall i :: 0 <= i < |ps| ==> r[i] == ps[i].node
  {
    seq(|ps|, i requires 0 <= i < |ps| => ps[i].node)
  }

  ghost function AbsOf(ps: seq<Proc>): (r: seq<SchedModel.Thread>)
    reads ps
    ensures |r| == |ps| && forall i :: 0 <= i < |ps| ==> r[i] == ps[i].Abs()
  {
    seq(|ps|, i requires 0 <= i < |ps| reads ps => ps[i].Abs())
  }

  /** Every thread, running or queued, has its own node, from which the thread is found again. */
  ghost predicate QueueOk(ready: Node, current: Proc, queue: seq<Proc>, entry: map<Node, Proc>) {
    && Distinct(queue) && current !in queue
    && current.node != ready && current.node !in NodesOf(queue)
    && current.node in entry && entry[current.node] == current
    && (forall i :: 0 <= i < |queue| ==> queue[i].node in entry && entry[queue[i].node] == queue[i])
  }

  lemma RotateQueueOk(ready: Node, current: Proc, queue: seq<Proc>, entry: map<Node, Proc>)
    requires QueueOk(ready, current, queue, entry) && queue != [] && ready !in NodesOf(queue)
    requires Distinct(NodesOf(queue))
    ensures QueueOk(ready, queue[0], queue[1..] + [current], entry)
    ensures NodesOf(queue[1..] + [current]) == NodesOf(queue)[1..] + [current.node]
  {
    var q := queue[1..] + [current];
    assert forall i :: 0 <= i < |q| ==> q[i] == if i < |queue| - 1 then queue[i + 1] else current;
  }

  lemma AppendQueueOk(ready: Node, current: Proc, queue: seq<Proc>, entry: map<Node, Proc>, proc: Proc)
    requires QueueOk(ready, current, queue, entry) && proc !in queue && proc != current
    requires proc.node != current.node && proc.node !in NodesOf(queue)
    ensures QueueOk(ready, current, queue + [proc], entry[proc.node := proc])
    ensures NodesOf(queue + [proc]) == NodesOf(queue) + [proc.node]
  {
    assert forall i :: 0 <= i < |queue| ==> NodesOf(queue)[i] == queue[i].node;
  }

  class Sched {
    var current: Proc
    const ready: Node              // head of the ready ring
    var entry: map<Node, Proc>     // elem2entry: from a node to the thread it is embedded in
    var nowPid: nat
    ghost var queue: seq<Proc>     // the threads on the ready ring, in order

    ghost predicate Valid()
      reads this, ready, queue, NodesOf(queue)
    {
      IsRing(ready, NodesOf(queue)) && QueueOk(ready, current, queue, entry)
    }

    ghost function Abs(): SchedModel.State
      reads this, current, queue
    {
      SchedModel.State(current.Abs(), AbsOf(queue), nowPid)
    }

    /** The boot thread runs, nothing is ready. */
    constructor ()
      ensures Valid() && Abs() == SchedModel.State(SchedModel.Thread(0, 100, 100, SchedModel.RUNNING), [], 1)
      ensures SchedModel.Inv(Abs())
    {
      var idle := new Proc(0, 100, 100, SchedModel.RUNNING);
      current := idle;
      var head := new Node();
      ListInit(head);
      ready := head;
      entry := map[idle.node := idle];
      nowPid := 1;
      queue := [];
      new;
      assert SchedModel.Pids(Abs()) == [0] == Ids(0, 1);
    }

    /** The last statement of kthread_create, on a thread nobody knows yet. */
    method Enqueue(proc: Proc)
      requires Valid() && proc != current && proc !in queue
      requires proc.node != ready && proc.node != current.node && proc.node !in NodesOf(queue)
      modifies this`queue, this`entry, ready, NodesOf(queue), proc.node
      ensures Valid() && queue == old(queue) + [proc]
      ensures AbsOf(queue) == old(AbsOf(queue)) + [proc.Abs()]
    {
      ghost var ns, views := NodesOf(queue), AbsOf(queue);
      AppendQueueOk(ready, current, queue, entry, proc);
      Links(ready, ns, |ns|);
      hide IsRing, QueueOk;
      AddTail(ready, proc.node, ns);
      entry := entry[proc.node := proc];
      queue := queue + [proc];
      assert AbsOf(queue) == views + [proc.Abs()];
    }

    /** kthread_create: the new thread goes to the end of the ready queue. */
    method KthreadCreate(prio: nat) returns (pid: nat)
      requires Valid() && prio < SchedModel.UCHAR_RANGE
      modifies this, ready, NodesOf(queue)
      ensures Valid() && Abs() == SchedModel.OnCreate(old(Abs()), prio) && pid == old(nowPid)
    {
      var proc := new Proc(nowPid, prio, prio, SchedModel.READY);
      hide QueueOk, IsRing;
      pid := nowPid;
      Enqueue(proc);
      nowPid := nowPid + 1;
    }

    /** switch_thread, with the register switch reduced to `current := next`. */
    method SwitchThread(next: Proc)
      requires next.state == SchedModel.RUNNING
      modifies this`current, current`state, next`state
      ensures current == next && next.state == SchedModel.RUNNING
          && (old(current) != next ==> old(current).state == SchedModel.READY)
    {
      if current != next {
        current.state := SchedModel.READY;
        current := next;
        current.state := SchedModel.RUNNING;
      }
    }

    /** schedule: when the slice is used up, requeue `current` with a full slice and run the first ready thread. */
    method Schedule()
      requires Valid()
      modifies this, current, queue, ready, NodesOf(queue), current.node
      ensures Valid() && Abs() == SchedModel.Schedule(old(Abs()))
      ensures if old(current.ticks == 0 && queue != [])
              then queue == old(queue)[1..] + [old(current)] && current == old(queue)[0]
              else queue == old(queue) && current == old(current) && unchanged(current.node)
    {
      if current.ticks == 0 {
        var none := Empty(ready, NodesOf(queue));
        if !none {
          Rotate();
        } else {
          current.ticks := current.prio;
        }
      }
    }

    /** Take the first node off the ready ring and put `ele` at its end. */
    method RotateRing(ele: Node, ghost ns: seq<Node>) returns (first: Node)
      requires IsRing(ready, ns) && ns != [] && ele != ready && ele !in ns
      modifies ready, ns, ele
      ensures first == ns[0] && IsRing(ready, ns[1..] + [ele])
    {
      first := Front(ready, ns);
      Links(ready, ns, 0);
      Links(ready, ns, 1);
      var _ := Pop(ready, ns);
      Links(ready, ns[1..], |ns| - 1);
      AddTail(ready, ele, ns[1..]);
    }

    /** The field changes of a switch from `current`, now requeued, to `next`. */
    method HandOver(next: Proc)
      requires next != current
      modifies this`current, current`state, current`ticks, next`state
      ensures current == next && next.state == SchedModel.RUNNING
      ensures old(current).state == SchedModel.READY && old(current).ticks == old(current).prio
    {
      current.state := SchedModel.READY;
      current.ticks := current.prio;
      next.state := SchedModel.RUNNING;
      SwitchThread(next);
    }

    method Rotate()
      requires Valid() && queue != [] && current.ticks == 0
      modifies this, current, queue, ready, NodesOf(queue), current.node
      ensures Valid() && Abs() == SchedModel.Schedule(old(Abs()))
      ensures queue == old(queue)[1..] + [old(current)] && current == old(queue)[0]
    {
      ghost var q, ns, cur, ready0 := queue, NodesOf(queue), current, AbsOf(queue);
      RingDistinct(ready, ns);
      RotateQueueOk(ready, current, queue, entry);
      var head := RotateRing(current.node, ns);
      var next := entry[head];
      assert next == q[0] && next != cur;
      hide IsRing, QueueOk;
      HandOver(next);
      assert IsRing(ready, ns[1..] + [cur.node]);
      queue := q[1..] + [cur];
      assert AbsOf(queue) == ready0[1..] + [cur.Abs()];
    }

    /** timer_callback: one tick off the running thread, then schedule. */
    method TimerCallback()
      requires Valid()
      modifies this, current, queue, ready, NodesOf(queue), current.node
      ensures Valid() && Abs() == SchedModel.OnTick(old(Abs()))
    {
      current.ticks := (current.ticks + SchedModel.UCHAR_RANGE - 1) % SchedModel.UCHAR_RANGE;
      assert AbsOf(queue) == old(AbsOf(queue));
      hide SchedModel.Schedule, QueueOk, IsRing, AbsOf;
      Schedule();
    }

    /** thread_block: mark the caller and schedule. */
    method ThreadBlock(state: ProcState)
      requires Valid() && SchedModel.IsBlocked(state)
      modifies this, current, queue, ready, NodesOf(queue), current.node
      ensures Valid() && Abs() == SchedModel.OnBlock(old(Abs()), state)
      ensures if old(current.ticks == 0 && queue != [])
              then queue == old(queue)[1..] + [old(current)] && current == old(queue)[0]
              else queue == old(queue) && current == old(current) && unchanged(current.node)
    {
      current.state := state;
      assert AbsOf(queue) == old(AbsOf(queue));
      hide SchedModel.Schedule, QueueOk, IsRing, AbsOf;
      Schedule();
    }

    /**
      thread_unblock on a live thread, at ready position `k` if queued; false when its assertion fails or it panics.
     */
    method ThreadUnblock(proc: Proc, ghost k: nat) returns (ok: bool)
      requires Valid() && (proc == current || (k < |queue| && proc == queue[k]))
      modifies this`queue, ready, ready.next, proc`state, proc.node
      ensures var who := if proc == current then SchedModel.Current else SchedModel.Queued(k);
              match SchedModel.Unblock(old(Abs()), who)
              case Requeued(s) => ok && Abs() == s && IsRing(ready, NodesOf(queue))
              case _ => !ok && Abs() == old(Abs()) && Valid()
    {
      if !SchedModel.IsBlocked(proc.state) {
        return false;
      }
      var listed := Find(ready, proc.node, NodesOf(queue));
      if listed {
        return false;
      }
      PushFront(proc);
      ok := true;
    }

    method PushFront(proc: Proc)
      requires IsRing(ready, NodesOf(queue)) && proc.node != ready && proc.node !in NodesOf(queue) && proc !in queue
      modifies this`queue, ready, ready.next, proc`state, proc.node
      ensures queue == [proc] + old(queue) && IsRing(ready, NodesOf(queue))
      ensures proc.state == SchedModel.READY
      ensures AbsOf(queue) == [proc.Abs()] + old(AbsOf(queue))
    {
      ghost var ns, views := NodesOf(queue), AbsOf(queue);
      Links(ready, ns, 0);
      hide IsRing;
      AddHead(ready, proc.node, ns);
      proc.state := SchedModel.READY;
      queue := [proc] + queue;
      assert NodesOf(queue) == [proc.node] + ns;
      assert AbsOf(queue) == [proc.Abs()] + views;
    }
  }
}
