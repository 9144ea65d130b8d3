/** The 1024-byte ring buffer between the keyboard interrupt and its readers; the non-blocking paths. */
module IoQueue {

  const BUF_SIZE: nat := 1024

  function NextPos(pos: nat): (p: nat)
    ensures p < BUF_SIZE
  {
    (pos + 1) % BUF_SIZE
  }

  /** How far the writer is ahead of the reader around the ring. */
  function Lag(head: nat, tail: nat): (n: nat)
    requires head < BUF_SIZE && tail < BUF_SIZE
    ensures n < BUF_SIZE
  {
    (head + BUF_SIZE - tail) % BUF_SIZE
  }

  /** The characters waiting, oldest first. */
  function Contents(buf: seq<char>, head: nat, tail: nat): (s: seq<char>)
    requires |buf| == BUF_SIZE && head < BUF_SIZE && tail < BUF_SIZE
    ensures |s| == Lag(head, tail)
    ensures forall i :: 0 <= i < |s| ==> s[i] == buf[(tail + i) % BUF_SIZE]
  {
    seq(Lag(head, tail), i requires 0 <= i < Lag(head, tail) => buf[(tail + i) % BUF_SIZE])
  }

  /** Full and empty are told apart by giving up one cell. */
  lemma FullEmptyExact(buf: seq<char>, head: nat, tail: nat)
    requires |buf| == BUF_SIZE && head < BUF_SIZE && tail < BUF_SIZE
    ensures NextPos(head) == tail <==> |Contents(buf, head, tail)| == BUF_SIZE - 1
    ensures head == tail <==> Contents(buf, head, tail) == []
  {
  }

  lemma PutContents(buf: seq<char>, head: nat, tail: nat, c: char)
    requires |buf| == BUF_SIZE && head < BUF_SIZE && tail < BUF_SIZE && NextPos(head) != tail
    ensures Contents(buf[head := c], NextPos(head), tail) == Contents(buf, head, tail) + [c]
  {
    var n := Lag(head, tail);
    assert Lag(NextPos(head), tail) == n + 1;
    assert (tail + n) % BUF_SIZE == head;
    var before, after := Contents(buf, head, tail), Contents(buf[head := c], NextPos(head), tail);
    forall i | 0 <= i < n ensures after[i] == before[i] {
      assert (tail + i) % BUF_SIZE != head;
    }
  }

  lemma NextShifts(tail: nat, i: nat)
    requires tail < BUF_SIZE
    ensures (NextPos(tail) + i) % BUF_SIZE == (tail + (i + 1)) % BUF_SIZE
  {
    if tail == BUF_SIZE - 1 {
      assert tail + (i + 1) == i + BUF_SIZE;
    }
  }

  lemma GetContents(buf: seq<char>, head: nat, tail: nat)
    requires |buf| == BUF_SIZE && head < BUF_SIZE && tail < BUF_SIZE && head != tail
    ensures Contents(buf, head, tail) == [buf[tail]] + Contents(buf, head, NextPos(tail))
  {
    var n := Lag(head, tail);
    assert Lag(head, NextPos(tail)) == n - 1;
    var before, after := Contents(buf, head, tail), Contents(buf, head, NextPos(tail));
    forall i | 0 <= i < n - 1 ensures after[i] == before[i + 1] {
      NextShifts(tail, i);
    }
  }

  // ---------- runs ----------

  datatype Queue = Queue(buf: seq<char>, head: nat, tail: nat)

  /** What was put in and taken out so far. */
  datatype History = History(q: Queue, put: seq<char>, got: seq<char>)

  datatype Op = Put(c: char) | Get

  predicate Wf(q: Queue) {
    |q.buf| == BUF_SIZE && q.head < BUF_SIZE && q.tail < BUF_SIZE
  }

  /** The keyboard puts only when not full, readers get only when not empty. */
  function Step(h: History, op: Op): History
    requires Wf(h.q)
  {
    var Queue(buf, head, tail) := h.q;
    match op
    case Put(c) =>
      if NextPos(head) == tail then h
      else History(Queue(buf[head := c], NextPos(head), tail), h.put + [c], h.got)
    case Get =>
      if head == tail then h
      else History(Queue(buf, head, NextPos(tail)), h.put, h.got + [buf[tail]])
  }

  function Run(h: History, ops: seq<Op>): (r: History)
    requires Wf(h.q)
    ensures Wf(r.q)
    decreases |ops|
  {
    if ops == [] then h else Run(Step(h, ops[0]), ops[1..])
  }

  predicate Consistent(h: History) {
    Wf(h.q) && h.put == h.got + Contents(h.q.buf, h.q.head, h.q.tail)
  }

  lemma StepConsistent(h: History, op: Op)
    requires Consistent(h)
    ensures Consistent(Step(h, op))
  {
    var Queue(buf, head, tail) := h.q;
    match op
    case Put(c) =>
      if NextPos(head) != tail { PutContents(buf, head, tail, c); }
    case Get =>
      if head != tail { GetContents(buf, head, tail); }
  }

  /** Characters come out in the order they went in: what was got is a prefix of what was put, at most 1023 behind. */
  lemma {:induction false} RunConsistent(h: History, ops: seq<Op>)
    requires Consistent(h)
    ensures Consistent(Run(h, ops)) && Run(h, ops).got <= Run(h, ops).put
    ensures |Run(h, ops).put| - |Run(h, ops).got| == Lag(Run(h, ops).q.head, Run(h, ops).q.tail) <= BUF_SIZE - 1
    decreases |ops|
  {
    if ops != [] {
      StepConsistent(h, ops[0]);
      RunConsistent(Step(h, ops[0]), ops[1..]);
    }
  }

  class RingQueue {
    const buf: array<char>
    var head: nat
    var tail: nat
    ghost var put: seq<char>
    ghost var got: seq<char>

    ghost function Abs(): History
      reads this, buf
    {
      History(Queue(buf[..], head, tail), put, got)
    }

    ghost predicate Valid()
      reads this, buf
    {
      Consistent(Abs())
    }

    constructor ()
      ensures Valid() && fresh(buf) && Abs() == History(Queue(buf[..], 0, 0), [], [])
    {
      buf := new char[BUF_SIZE];
      head, tail, put, got := 0, 0, [], [];
    }

    method Full() returns (full: bool)
      requires Valid()
      ensures full <==> |Contents(buf[..], head, tail)| == BUF_SIZE - 1
    {
      FullEmptyExact(buf[..], head, tail);
      full := NextPos(head) == tail;
    }

    method Empty() returns (empty: bool)
      requires Valid()
      ensures empty <==> Contents(buf[..], head, tail) == []
    {
      FullEmptyExact(buf[..], head, tail);
      empty := head == tail;
    }

    method Getchar() returns (c: char)
      requires Valid() && head != tail
      modifies this
      ensures Valid() && Abs() == Step(old(Abs()), Get) && got == old(got) + [c]
      ensures Contents(old(buf[..]), old(head), old(tail)) == [c] + Contents(buf[..], head, tail)
    {
      StepConsistent(Abs(), Get);
      GetContents(buf[..], head, tail);
      c := buf[tail];
      tail := NextPos(tail);
      got := got + [c];
    }

    method Putchar(c: char)
      requires Valid() && NextPos(head) != tail
      modifies this, buf
      ensures Valid() && Abs() == Step(old(Abs()), Put(c))
      ensures Contents(buf[..], head, tail) == Contents(old(buf[..]), old(head), old(tail)) + [c]
    {
      StepConsistent(Abs(), Put(c));
      PutContents(buf[..], head, tail, c);
      ghost var b := buf[..];
      buf[head] := c;
      assert buf[..] == b[head := c];
      head := NextPos(head);
      put := put + [c];
    }
  }
}
