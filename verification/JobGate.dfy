/**
  The per-pipeline job gate: a linked list of waiters and a `held` flag,
  changed only under the gate's mutex. Every critical section is one method,
  proved against a function on the queue of waiters.
 */
module JobGate {
  /** The gate's abstract value: the waiters, oldest first, and whether a job has the slot. */
  datatype Gate<T> = Gate(queue: seq<T>, held: bool)

  function Without<T(==)>(q: seq<T>, n: T): seq<T> {
    if q == [] then [] else if q[0] == n then q[1..] else [q[0]] + Without(q[1..], n)
  }

  /** The critical section of `enter`: join the queue, or take a free slot at once. */
  function Entered<T>(g: Gate<T>, n: T): Gate<T> {
    if g.held then g.(queue := g.queue + [n]) else g.(held := true)
  }

  function Removed<T(==)>(g: Gate<T>, n: T): Gate<T> {
    g.(queue := Without(g.queue, n))
  }

  /** The slot goes to the oldest waiter, or becomes free. */
  function Released<T>(g: Gate<T>): Gate<T> {
    if g.queue != [] then g.(queue := g.queue[1..]) else g.(held := false)
  }

  lemma {:induction false} WithoutAt<T>(q: seq<T>, n: T, k: nat)
    requires k < |q| && q[k] == n
    requires forall i :: 0 <= i < k ==> q[i] != n
    ensures Without(q, n) == q[..k] + q[k + 1..]
  {
    if k > 0 {
      WithoutAt(q[1..], n, k - 1);
      assert q[..k] == [q[0]] + q[1..][..k - 1];
      assert q[1..][k..] == q[k + 1..];
    }
  }

  lemma {:induction false} WithoutAbsent<T>(q: seq<T>, n: T)
    requires n !in q
    ensures Without(q, n) == q
  {
    if q != [] {
      WithoutAbsent(q[1..], n);
    }
  }

  /** A waiter's node: closing its channel hands it the slot. */
  class Node {
    var closed: bool
    var next: Node?

    constructor ()
      ensures !closed && next == null
    {
      closed := false;
      next := null;
    }
  }

  class JobGate {
    var head: Node?
    var tail: Node?
    var held: bool
    ghost var nodes: seq<Node>

    /** The list is well formed from head to tail, and a free gate has no waiters. */
    ghost predicate Valid()
      reads this, nodes
    {
      && (forall i, j :: 0 <= i < j < |nodes| ==> nodes[i] != nodes[j])
      && (head == if nodes == [] then null else nodes[0])
      && (tail == if nodes == [] then null else nodes[|nodes| - 1])
      && (forall i {:trigger nodes[i].next} :: 0 <= i < |nodes| - 1 ==> nodes[i].next == nodes[i + 1])
      && (nodes != [] ==> nodes[|nodes| - 1].next == null)
      && (forall i :: 0 <= i < |nodes| ==> !nodes[i].closed)
      && (!held ==> nodes == [])
    }

    ghost function Abstract(): Gate<Node>
      reads this
    {
      Gate(nodes, held)
    }

    constructor ()
      ensures Valid() && Abstract() == Gate([], false)
    {
      head, tail, held, nodes := null, null, false, [];
    }

    method Enter(n: Node) returns (start: bool)
      requires Valid()
      requires n !in nodes && n.next == null && !n.closed
      modifies this, nodes
      ensures Valid()
      ensures Abstract() == Entered(old(Abstract()), n)
      ensures start <==> !old(held)
      ensures unchanged(n) && forall m <- old(nodes) :: m.closed == old(m.closed)
    {
      if tail != null {
        tail.next := n;
      } else {
        head := n;
      }
      tail := n;
      start := false;
      nodes := nodes + [n];
      if !held {
        held := true;
        head := n.next;
        if head == null {
          tail := null;
        }
        nodes := nodes[1..];
        start := true;
      }
    }

    /** Bypasses the `k`-th node, given its predecessor in the list. */
    method Unlink(prev: Node?, cur: Node, ghost k: nat)
      requires Valid() && k < |nodes|
      requires cur == nodes[k] && prev == if k == 0 then null else nodes[k - 1]
      modifies this, nodes
      ensures Valid() && held == old(held)
      ensures nodes == old(nodes)[..k] + old(nodes)[k + 1..]
      ensures forall m <- old(nodes) :: m.closed == old(m.closed)
    {
      ghost var rest := nodes[..k] + nodes[k + 1..];
      assert forall i :: 0 <= i < |rest| ==> rest[i] == nodes[if i < k then i else i + 1];
      assert nodes[k].next == cur.next;
      if prev != null {
        prev.next := cur.next;
      } else {
        head := cur.next;
      }
      if tail == cur {
        tail := prev;
      }
      nodes := rest;
    }

    method Remove(n: Node) returns (found: bool)
      requires Valid()
      modifies this, nodes
      ensures Valid()
      ensures found <==> n in old(nodes)
      ensures Abstract() == Removed(old(Abstract()), n)
      ensures forall m <- old(nodes) :: m.closed == old(m.closed)
    {
      var prev: Node? := null;
      var cur := head;
      ghost var k := 0;
      while cur != null && cur != n
        invariant 0 <= k <= |nodes|
        invariant cur == if k < |nodes| then nodes[k] else null
        invariant prev == if k == 0 then null else nodes[k - 1]
        invariant forall i :: 0 <= i < k ==> nodes[i] != n
        decreases |nodes| - k
      {
        assert nodes[k].next == cur.next;
        prev := cur;
        cur := cur.next;
        k := k + 1;
      }
      if cur == null {
        WithoutAbsent(nodes, n);
        return false;
      }
      WithoutAt(nodes, n, k);
      Unlink(prev, cur, k);
      return true;
    }

    method Release() returns (ghost handed: seq<Node>)
      requires Valid()
      modifies this, nodes
      ensures Valid()
      ensures Abstract() == Released(old(Abstract()))
      ensures handed == if old(nodes) != [] then [old(nodes)[0]] else []
      ensures forall m <- old(nodes) :: m.closed <==> m in handed
    {
      if head != null {
        var n := head;
        assert n == nodes[0] && n.next == nodes[0].next;
        ghost var rest := nodes[1..];
        assert forall i :: 0 <= i < |rest| ==> rest[i] == nodes[i + 1];
        head := n.next;
        if head == null {
          tail := null;
        }
        n.closed := true;
        handed := [n];
        nodes := rest;
      } else {
        held := false;
        handed := [];
      }
    }
  }
}
