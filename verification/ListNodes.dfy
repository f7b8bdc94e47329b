/** The intrusive circular list: nodes that link themselves around a head node.
    The operations are proved to act as a double-ended queue on the sequence of
    linked nodes. */
module ListNodes {

  class ListNode {
    var next: ListNode?
    var prev: ListNode?

    constructor ()
    {
      next, prev := null, null;
    }

    /** An empty list with this node as its head. */
    method Init()
      modifies this
      ensures IsList(this, [])
    {
      next, prev := this, this;
    }

    method PushFront(node: ListNode, ghost nodes: seq<ListNode>)
      requires IsList(this, nodes) && node != this && node !in nodes
      modifies this, node, nodes
      ensures IsList(this, [node] + nodes)
    {
      next.prev := node;
      node.prev := this;
      node.next := next;
      next := node;
      ghost var s := [node] + nodes;
      forall i | 0 <= i < |s| ensures LinkedAt(this, s, i) {
        if i > 0 { assert old(LinkedAt(this, nodes, i - 1)); }
      }
    }

    method PushBack(node: ListNode, ghost nodes: seq<ListNode>)
      requires IsList(this, nodes) && node != this && node !in nodes
      modifies this, node, nodes
      ensures IsList(this, nodes + [node])
    {
      prev.next := node;
      node.next := this;
      node.prev := prev;
      prev := node;
      ghost var s := nodes + [node];
      forall i | 0 <= i < |s| ensures LinkedAt(this, s, i) {
        if i < |nodes| { assert old(LinkedAt(this, nodes, i)); }
      }
    }

    /** Takes this node, the `i`-th, out of the list headed by `head`. */
    method Remove(ghost head: ListNode, ghost nodes: seq<ListNode>, ghost i: nat)
      requires IsList(head, nodes) && i < |nodes| && nodes[i] == this
      modifies head, nodes
      ensures IsList(head, nodes[..i] + nodes[i + 1..])
      ensures next == old(next) && prev == old(prev)
    {
      assert LinkedAt(head, nodes, i);
      prev.next := next;
      next.prev := prev;
      ghost var s := nodes[..i] + nodes[i + 1..];
      forall j | 0 <= j < |s| ensures LinkedAt(head, s, j) {
        assert s[j] == nodes[if j < i then j else j + 1];
        assert old(LinkedAt(head, nodes, if j < i then j else j + 1));
      }
    }

    /** The first node, taken out; on an empty list the head itself. */
    method PopFront(ghost nodes: seq<ListNode>) returns (node: ListNode)
      requires IsList(this, nodes)
      modifies this, nodes
      ensures nodes != [] ==> node == nodes[0] && IsList(this, nodes[1..])
      ensures nodes == [] ==> node == this && IsList(this, [])
    {
      node := next;
      if node != this {
        assert nodes[..0] + nodes[1..] == nodes[1..];
        node.Remove(this, nodes, 0);
      } else {
        assert nodes == [];
        node.prev.next := node.next;
        node.next.prev := node.prev;
      }
    }

    method PopBack(ghost nodes: seq<ListNode>) returns (node: ListNode)
      requires IsList(this, nodes)
      modifies this, nodes
      ensures nodes != [] ==> node == nodes[|nodes| - 1] && IsList(this, nodes[..|nodes| - 1])
      ensures nodes == [] ==> node == this && IsList(this, [])
    {
      node := prev;
      if node != this {
        assert nodes[..|nodes| - 1] + nodes[|nodes|..] == nodes[..|nodes| - 1];
        node.Remove(this, nodes, |nodes| - 1);
      } else {
        assert nodes == [];
        node.prev.next := node.next;
        node.next.prev := node.prev;
      }
    }

    method Empty(ghost nodes: seq<ListNode>) returns (r: bool)
      requires IsList(this, nodes)
      ensures r <==> nodes == []
    {
      r := next == this;
    }
  }

  /** The node after position `i`, the head closing the circle. */
  ghost function After(head: ListNode, nodes: seq<ListNode>, i: int): ListNode
    requires -1 <= i < |nodes|
  {
    if i + 1 == |nodes| then head else nodes[i + 1]
  }

  ghost function Before(head: ListNode, nodes: seq<ListNode>, i: int): ListNode
    requires 0 <= i <= |nodes|
  {
    if i == 0 then head else nodes[i - 1]
  }

  /** `head` and `nodes` are all different and linked in a circle, both ways. */
  ghost predicate IsList(head: ListNode, nodes: seq<ListNode>)
    reads head, nodes
  {
    && head !in nodes && (forall i, j | 0 <= i < j < |nodes| :: nodes[i] != nodes[j])
    && head.next == After(head, nodes, -1) && head.prev == Before(head, nodes, |nodes|)
    && (forall i | 0 <= i < |nodes| :: LinkedAt(head, nodes, i))
  }

  ghost predicate LinkedAt(head: ListNode, nodes: seq<ListNode>, i: int)
    requires 0 <= i < |nodes|
    reads nodes[i]
  {
    nodes[i].next == After(head, nodes, i) && nodes[i].prev == Before(head, nodes, i)
  }

  /** Two lists of one head agree as far as both go. */
  lemma {:induction false} ListUnique(head: ListNode, s: seq<ListNode>, t: seq<ListNode>, n: nat)
    requires IsList(head, s) && IsList(head, t) && n <= |s| && n <= |t|
    ensures s[..n] == t[..n]
  {
    if n > 0 {
      ListUnique(head, s, t, n - 1);
      if n > 1 {
        assert s[n - 2] == s[..n - 1][n - 2] == t[..n - 1][n - 2] == t[n - 2];
        assert LinkedAt(head, s, n - 2) && LinkedAt(head, t, n - 2);
      } else {
        assert After(head, s, -1) == s[0] && After(head, t, -1) == t[0];
      }
      assert s[..n] == s[..n - 1] + [s[n - 1]] && t[..n] == t[..n - 1] + [t[n - 1]];
    }
  }

  /** So the circle and its head determine the whole sequence. */
  lemma ListDetermined(head: ListNode, s: seq<ListNode>, t: seq<ListNode>)
    requires IsList(head, s) && IsList(head, t)
    ensures s == t
  {
    var n := if |s| <= |t| then |s| else |t|;
    ListUnique(head, s, t, n);
    if n > 0 {
      assert s[n - 1] == s[..n][n - 1] == t[..n][n - 1] == t[n - 1];
      assert LinkedAt(head, s, n - 1) && LinkedAt(head, t, n - 1);
    }
    assert s[..n] == s || t[..n] == t;
  }
}
