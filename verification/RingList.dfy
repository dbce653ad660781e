/** `pm_list`: circular doubly linked lists spliced by swapping pointers. */
module RingList {
  import opened Sequences

  class Node {
    var prev: Node
    var next: Node

    /** A node alone in its ring. */
    constructor ()
      ensures Ring([this])
    {
      prev := this;
      next := this;
    }
  }

  /** Each node's next is the following one, whose prev it is. */
  ghost predicate Linked(s: seq<Node>)
    reads s
  {
    forall i, j :: 0 <= i && j == i + 1 < |s| ==> s[i].next == s[j] && s[j].prev == s[i]
  }

  /** The nodes of `r`, in this order, form a ring. */
  ghost predicate Ring(r: seq<Node>)
    reads r
  {
    && r != []
    && Distinct(r)
    && Linked(r)
    && r[|r| - 1].next == r[0] && r[0].prev == r[|r| - 1]
  }

  /** Connects or disconnects two lists by exchanging what precedes them. */
  method ToggleConnect(list1: Node, list2: Node)
    modifies list1, list2, list1.prev, list2.prev
    ensures list1.prev == old(list2.prev) && list2.prev == old(list1.prev)
    ensures old(list2.prev).next == list1
    ensures old(list1.prev).next == if old(list1.prev) == old(list2.prev) then list1 else list2
    ensures forall n :: n in {old(list1.prev), old(list2.prev)} && n != list1 && n != list2 ==> n.prev == old(n.prev)
    ensures forall n :: n in {list1, list2} && n != old(list1.prev) && n != old(list2.prev) ==> n.next == old(n.next)
  {
    var prev1 := list1.prev;
    var prev2 := list2.prev;
    prev1.next := list2;
    prev2.next := list1;
    list1.prev := prev2;
    list2.prev := prev1;
  }

  /** Connecting is its own inverse, wherever the two nodes lie: equal, adjacent, in one ring or in two. Doing it twice
      leaves every pointer of every node as it was. */
  method ToggleTwice(list1: Node, list2: Node)
    requires list1.prev.next == list1 && list2.prev.next == list2
    modifies list1, list2, list1.prev, list2.prev
    ensures forall n: Node :: old(allocated(n)) ==> n.prev == old(n.prev) && n.next == old(n.next)
  {
    ToggleConnect(list1, list2);
    ToggleConnect(list1, list2);
  }

  /** Two rings become one: the first from list1 on, then the second from list2 on. */
  method Connect(list1: Node, list2: Node, ghost r: seq<Node>, ghost t: seq<Node>)
    requires Ring(r) && r[0] == list1
    requires Ring(t) && t[0] == list2 && Disjoint(r, t)
    modifies r, t
    ensures Ring(r + t)
  {
    assert list1.prev == r[|r| - 1] && list2.prev == t[|t| - 1];
    ToggleConnect(list1, list2);
    assert Linked(r) && Linked(t);
  }

  /** One ring becomes two: it is split before list2. Nothing happens when the two nodes are equal. */
  method Disconnect(list1: Node, list2: Node, ghost r: seq<Node>, ghost k: nat)
    requires Ring(r) && r[0] == list1 && k < |r| && r[k] == list2
    modifies r
    ensures k == 0 ==> Ring(r)
    ensures k > 0 ==> Ring(r[..k]) && Ring(r[k..])
  {
    assert list1.prev == r[|r| - 1];
    assert list2.prev == if k == 0 then r[|r| - 1] else r[k - 1];
    ToggleConnect(list1, list2);
    assert k > 0 ==> Linked(r[..k]) && Linked(r[k..]);
  }

  /** `attach`: the ring of `node` is appended to the ring of `list`. */
  method Attach(list: Node, node: Node, ghost r: seq<Node>, ghost t: seq<Node>)
    requires Ring(r) && r[0] == list
    requires Ring(t) && t[0] == node && Disjoint(r, t)
    modifies r, t
    ensures Ring(r + t)
  {
    Connect(list, node, r, t);
  }

  /** `detach`: a node alone, and the rest of its ring in order. */
  method Detach(node: Node, ghost r: seq<Node>)
    requires Ring(r) && r[0] == node
    modifies r
    ensures Ring([node])
    ensures |r| > 1 ==> Ring(r[1..])
  {
    ghost var k := if |r| == 1 then 0 else 1;
    assert r[..1] == [node];
    assert |r| == 1 ==> r == [node];
    Disconnect(node, node.next, r, k);
  }

  /** A ring can be read from any of its nodes on. */
  lemma Rotated(a: seq<Node>, b: seq<Node>)
    requires a != [] && b != [] && Ring(a + b)
    ensures Ring(b + a)
  {
    var r := a + b;
    assert forall i :: 0 <= i < |a| ==> r[i] == a[i];
    assert forall i :: 0 <= i < |b| ==> r[|a| + i] == b[i];
    assert Linked(a) && Linked(b);
    assert r[|a| - 1].next == r[|a|] && r[|a|].prev == r[|a| - 1];
  }

  /** The first half of `move`: the neighbours of `node` close the gap. */
  method Unlink(node: Node, ghost q: seq<Node>)
    requires Ring(q) && q[0] == node
    modifies q
    ensures |q| > 1 ==> Ring(q[1..])
  {
    assert node.prev == q[|q| - 1] && node.next == q[if |q| == 1 then 0 else 1];
    node.prev.next := node.next;
    node.next.prev := node.prev;
    assert |q| > 1 ==> Linked(q[1..]);
  }

  /** The second half of `move`: `node` becomes the last of the ring of `list`. */
  method InsertLast(list: Node, node: Node, ghost r: seq<Node>)
    requires Ring(r) && r[0] == list && node !in r
    modifies r, node
    ensures Ring(r + [node])
  {
    node.next := list;
    node.prev := list.prev;
    list.prev.next := node;
    list.prev := node;
    assert Linked(r);
  }

  /** `move`, for a node of another ring: it leaves that ring and becomes the last of the ring of `list`. */
  method MoveFromOther(list: Node, node: Node, ghost r: seq<Node>, ghost t: seq<Node>)
    requires Ring(r) && r[0] == list
    requires Ring(t) && t[0] == node && Disjoint(r, t)
    modifies r, t
    ensures Ring(r + [node])
    ensures |t| > 1 ==> Ring(t[1..])
  {
    Unlink(node, t);
    InsertLast(list, node, r);
  }

  /** `move`, for another node of the same ring: it becomes the last; every other node keeps its order. */
  method MoveWithin(list: Node, node: Node, ghost r: seq<Node>, ghost k: nat)
    requires Ring(r) && r[0] == list && 0 < k < |r| && r[k] == node
    modifies r
    ensures Ring(r[..k] + r[k + 1..] + [node])
  {
    assert r == r[..k] + r[k..];
    Rotated(r[..k], r[k..]);
    Unlink(node, r[k..] + r[..k]);
    RemainingRing(r, k);
    InsertLast(list, node, r[..k] + r[k + 1..]);
  }

  lemma RemainingRing(r: seq<Node>, k: nat)
    requires 0 < k < |r| && Ring((r[k..] + r[..k])[1..])
    ensures Ring(r[..k] + r[k + 1..])
  {
    assert (r[k..] + r[..k])[1..] == r[k + 1..] + r[..k];
    if k + 1 < |r| {
      Rotated(r[k + 1..], r[..k]);
    } else {
      assert r[k + 1..] + r[..k] == r[..k] + r[k + 1..];
    }
  }

  /** `move` of a node onto itself: harmless for a node alone in its ring. In a ring of two or more it leaves two
      nodes with the same next, so the nodes no longer form rings. */
  method MoveOntoItself(node: Node, ghost r: seq<Node>)
    requires Ring(r) && r[0] == node
    modifies r
    ensures |r| == 1 ==> Ring(r)
    ensures |r| > 1 ==> node.next == node && r[|r| - 1].next == node && r[|r| - 1] != node
  {
    assert node.next == r[if |r| == 1 then 0 else 1] && node.prev == r[|r| - 1];
    node.prev.next := node.next;
    node.next.prev := node.prev;
    node.next := node;
    node.prev := node.prev;
    node.prev.next := node;
    node.prev := node;
  }

  method IsEmpty(list: Node, ghost r: seq<Node>) returns (empty: bool)
    requires Ring(r) && r[0] == list
    ensures empty <==> r == [list]
  {
    assert |r| > 1 ==> list.next == r[1];
    empty := list.next == list;
  }
}
