/**
  The intrusive circular doubly linked list.  A list is a head node and the sequence of nodes met by
  following `next` from it; each operation is proved to do to that sequence what its name says,
  writing only the nodes named in its frame, so rings without those nodes are untouched.
 */
module Ring {
  import opened Common

  class Node {
    var next: Node?
    var prev: Node?

    constructor ()
      ensures next == null && prev == null
    {
      next, prev := null, null;
    }
  }

  /** Position 0 and position |s| + 1 are the head; the elements lie between. */
  function At(head: Node, s: seq<Node>, k: nat): Node {
    if 1 <= k <= |s| then s[k - 1] else head
  }

  ghost predicate IsRing(head: Node, s: seq<Node>)
    reads head, s
  {
    && head !in s && Distinct(s)
    && (forall k :: 0 <= k <= |s| ==>
          At(head, s, k).next == At(head, s, k + 1) && At(head, s, k + 1).prev == At(head, s, k))
  }

  lemma Links(head: Node, s: seq<Node>, k: nat)
    requires IsRing(head, s) && k <= |s|
    ensures At(head, s, k).next == At(head, s, k + 1) && At(head, s, k + 1).prev == At(head, s, k)
  {
  }

  lemma RingDistinct(head: Node, s: seq<Node>)
    requires IsRing(head, s)
    ensures head !in s && Distinct(s)
  {
  }

  method ListInit(l: Node)
    modifies l
    ensures IsRing(l, [])
  {
    l.next := l;
    l.prev := l;
  }

  /** Positions after inserting `ele` behind position `k`. */
  lemma InsertAt(head: Node, s: seq<Node>, k: nat, ele: Node)
    requires k <= |s|
    ensures var t := s[..k] + [ele] + s[k..];
            && |t| == |s| + 1
            && (forall j :: 0 <= j <= |t| + 1 ==>
                  At(head, t, j) == if j == k + 1 then ele else At(head, s, if j <= k then j else j - 1))
            && (head !in s && Distinct(s) && ele != head && ele !in s ==> head !in t && Distinct(t))
  {
  }

  /** Positions after removing element `k`. */
  lemma RemoveAt(head: Node, s: seq<Node>, k: nat)
    requires k < |s|
    ensures var t := s[..k] + s[k + 1..];
            && |t| == |s| - 1
            && (forall j :: 0 <= j <= |t| + 1 ==> At(head, t, j) == At(head, s, if j <= k then j else j + 1))
            && (head !in s && Distinct(s) ==> head !in t && Distinct(t) && s[k] !in t)
  {
  }

  method AddTail(head: Node?, ele: Node, ghost s: seq<Node>)
    requires head != null ==> IsRing(head, s) && ele != head && ele !in s
    modifies head, if head == null then null else head.prev, ele
    ensures head != null ==> IsRing(head, s + [ele])
    ensures head == null ==> unchanged(ele)
  {
    if head != null {
      InsertAt(head, s, |s|, ele);
      assert s[..|s|] + [ele] + s[|s|..] == s + [ele];
      Links(head, s, |s|);
      head.prev.next := ele;
      ele.next := head;
      ele.prev := head.prev;
      head.prev := ele;
    }
  }

  method AddHead(head: Node?, ele: Node, ghost s: seq<Node>)
    requires head != null ==> IsRing(head, s) && ele != head && ele !in s
    modifies head, if head == null then null else head.next, ele
    ensures head != null ==> IsRing(head, [ele] + s)
    ensures head == null ==> unchanged(ele)
  {
    if head != null {
      InsertAt(head, s, 0, ele);
      assert s[..0] + [ele] + s[0..] == [ele] + s;
      Links(head, s, 0);
      head.next.prev := ele;
      ele.next := head.next;
      head.next := ele;
      ele.prev := head;
    }
  }

  /** `ele2` goes right behind `ele1`, the node at position `k`. */
  method AddAfter(ele1: Node, ele2: Node, ghost head: Node, ghost s: seq<Node>, ghost k: nat)
    requires IsRing(head, s) && k <= |s| && ele1 == At(head, s, k) && ele2 != head && ele2 !in s
    modifies ele1, ele1.next, ele2
    ensures IsRing(head, s[..k] + [ele2] + s[k..])
  {
    InsertAt(head, s, k, ele2);
    Links(head, s, k);
    ele1.next.prev := ele2;
    ele2.next := ele1.next;
    ele1.next := ele2;
    ele2.prev := ele1;
  }

  /** `ele2` goes right in front of `ele1`, the node at position `k + 1`. */
  method AddBefore(ele1: Node, ele2: Node, ghost head: Node, ghost s: seq<Node>, ghost k: nat)
    requires IsRing(head, s) && k <= |s| && ele1 == At(head, s, k + 1) && ele2 != head && ele2 !in s
    modifies ele1, ele1.prev, ele2
    ensures IsRing(head, s[..k] + [ele2] + s[k..])
  {
    InsertAt(head, s, k, ele2);
    Links(head, s, k);
    ele1.prev.next := ele2;
    ele2.next := ele1;
    ele2.prev := ele1.prev;
    ele1.prev := ele2;
  }

  method Remove(ele: Node, ghost head: Node, ghost s: seq<Node>, ghost k: nat)
    requires IsRing(head, s) && k < |s| && ele == s[k]
    modifies ele, ele.prev, ele.next
    ensures IsRing(head, s[..k] + s[k + 1..]) && ele.next == null && ele.prev == null
  {
    RemoveAt(head, s, k);
    Links(head, s, k);
    Links(head, s, k + 1);
    ele.prev.next := ele.next;
    ele.next.prev := ele.prev;
    ele.prev := null;
    ele.next := null;
  }

  /** Unlink and return the first element; null when there is none. */
  method Pop(head: Node, ghost s: seq<Node>) returns (ret: Node?)
    requires IsRing(head, s)
    modifies head, head.next, if s == [] then {} else {At(head, s, 2)}
    ensures s == [] ==> ret == null && IsRing(head, s)
    ensures s != [] ==> ret == s[0] && IsRing(head, s[1..]) && ret.next == null && ret.prev == null
  {
    Links(head, s, 0);
    if head.next != head {
      ret := head.next;
      Links(head, s, 1);
      Remove(head.next, head, s, 0);
      assert s[..0] + s[1..] == s[1..];
    } else {
      ret := null;
    }
  }

  method Front(head: Node, ghost s: seq<Node>) returns (ret: Node?)
    requires IsRing(head, s)
    ensures ret == if s == [] then null else s[0]
  {
    Links(head, s, 0);
    ret := if head.next != head then head.next else null;
  }

  method Empty(head: Node, ghost s: seq<Node>) returns (empty: bool)
    requires IsRing(head, s)
    ensures empty <==> s == []
  {
    Links(head, s, 0);
    empty := head.next == head;
  }

  /** Membership, by walking the ring once. */
  method Find(head: Node, elem: Node, ghost s: seq<Node>) returns (found: bool)
    requires IsRing(head, s)
    ensures found <==> elem in s
  {
    Links(head, s, 0);
    var p := head.next;
    ghost var k := 1;
    while p != head
      invariant 1 <= k <= |s| + 1 && p == At(head, s, k)
      invariant elem !in s[..k - 1]
      decreases |s| + 1 - k
    {
      if p == elem {
        return true;
      }
      Links(head, s, k);
      assert s[..k] == s[..k - 1] + [s[k - 1]];
      p := p.next;
      k := k + 1;
    }
    assert s[..k - 1] == s;
    return false;
  }

  /** A node sits on one ring only: two rings with different heads share no element. */
  lemma {:induction false} NotShared(h1: Node, s1: seq<Node>, i: nat, h2: Node, s2: seq<Node>, j: nat)
    requires IsRing(h1, s1) && IsRing(h2, s2) && h1 != h2 && h1 !in s2 && h2 !in s1
    requires i < |s1| && j < |s2|
    ensures s1[i] != s2[j]
    decreases |s1| - i
  {
    Links(h1, s1, i + 1);
    Links(h2, s2, j + 1);
    if s1[i] == s2[j] {
      assert At(h1, s1, i + 2) == At(h2, s2, j + 2);
      if i + 1 < |s1| && j + 1 < |s2| {
        NotShared(h1, s1, i + 1, h2, s2, j + 1);
      }
    }
  }

  /** Nodes that did not change still form their ring. */
  twostate lemma Untouched(head: Node, s: seq<Node>)
    requires old(IsRing(head, s)) && unchanged(head) && forall n :: n in s ==> unchanged(n)
    ensures IsRing(head, s)
  {
    forall k | 0 <= k <= |s| + 1
      ensures At(head, s, k).next == old(At(head, s, k).next) && At(head, s, k).prev == old(At(head, s, k).prev)
    {
      var n := At(head, s, k);
      assert n == head || n in s;
    }
  }
}
