// The circular doubly linked lists of rt-thread/include/rtservice.h, under every queue of the kernel.
module Lists {
  class Node {
    var next: Node
    var prev: Node

    // rt_list_init
    constructor ()
      ensures next == this && prev == this
    {
      next, prev := this, this;
    }
  }

  function After(xs: seq<Node>, i: nat): (j: nat)
    requires i < |xs|
    ensures j < |xs|
  {
    if i + 1 == |xs| then 0 else i + 1
  }

  // Node i and the one after it point at each other.
  ghost predicate Linked(xs: seq<Node>, i: nat)
    requires i < |xs|
    reads xs
  {
    xs[i].next == xs[After(xs, i)] && xs[After(xs, i)].prev == xs[i]
  }

  ghost predicate Differ(xs: seq<Node>, i: nat, j: nat)
    requires i < |xs| && j < |xs|
  {
    i != j ==> xs[i] != xs[j]
  }

  // The nodes xs, and no others, form one ring in this order.
  ghost predicate Ring(xs: seq<Node>)
    reads xs
  {
    && xs != []
    && (forall i: nat, j: nat :: i < |xs| && j < |xs| ==> Differ(xs, i, j))
    && (forall i: nat :: i < |xs| ==> Linked(xs, i))
  }

  // Any node of a ring may be taken as its head.
  lemma RingTurns(xs: seq<Node>, k: nat)
    requires Ring(xs) && k <= |xs|
    ensures Ring(xs[k..] + xs[..k])
  {
    var ys := xs[k..] + xs[..k];
    forall i: nat, j: nat | i < |ys| && j < |ys| ensures Differ(ys, i, j) {
      assert Differ(xs, Turned(xs, k, i), Turned(xs, k, j));
    }
    forall i: nat | i < |ys| ensures Linked(ys, i) {
      assert Linked(xs, Turned(xs, k, i));
    }
  }

  function Turned(xs: seq<Node>, k: nat, i: nat): (j: nat)
    requires k <= |xs| && i < |xs|
    ensures j < |xs|
  {
    if i + k < |xs| then i + k else i + k - |xs|
  }

  // Only the nodes' own links count.
  lemma SingleRing(n: Node)
    requires n.next == n && n.prev == n
    ensures Ring([n])
  {
    assert Linked([n], 0);
  }

  // rt_list_insert_after: with l as the head, n becomes the first entry.
  method InsertAfter(l: Node, n: Node, ghost xs: seq<Node>)
    requires Ring(xs) && xs[0] == l && n !in xs
    modifies l, l.next, n
    ensures Ring([l, n] + xs[1..])
  {
    ghost var ys := [l, n] + xs[1..];
    assert Linked(xs, 0);
    l.next.prev := n;
    n.next := l.next;
    l.next := n;
    n.prev := l;
    assert ys[0] == l && ys[1] == n;
    forall i: nat, j: nat | i < |ys| && j < |ys| ensures Differ(ys, i, j) {
      assert Differ(xs, if i > 1 then i - 1 else 0, if j > 1 then j - 1 else 0);
    }
    forall i: nat | i < |ys| ensures Linked(ys, i) {
      if i > 1 {
        assert old(Linked(xs, i - 1)) && Differ(xs, i - 1, 0) && Differ(xs, After(xs, i - 1), After(xs, 0));
      }
    }
  }

  // rt_list_insert_before: with l as the head, n becomes the last entry.
  method InsertBefore(l: Node, n: Node, ghost xs: seq<Node>)
    requires Ring(xs) && xs[0] == l && n !in xs
    modifies l, l.prev, n
    ensures Ring(xs + [n])
  {
    ghost var ys := xs + [n];
    ghost var last := |xs| - 1;
    assert Linked(xs, last) && After(xs, last) == 0;
    l.prev.next := n;
    n.prev := l.prev;
    l.prev := n;
    n.next := l;
    forall i: nat, j: nat | i < |ys| && j < |ys| ensures Differ(ys, i, j) {
      if i < |xs| && j < |xs| { assert Differ(xs, i, j); }
    }
    forall i: nat | i < |ys| ensures Linked(ys, i) {
      if i < last {
        assert old(Linked(xs, i)) && Differ(xs, i, last) && Differ(xs, i + 1, 0);
      }
    }
  }

  // rt_list_remove: the others stay a ring, and n is one of its own; a node that was alone stays so.
  method Remove(n: Node, ghost xs: seq<Node>)
    requires Ring(xs) && xs[0] == n
    modifies n, n.next, n.prev
    ensures Ring([n])
    ensures |xs| > 1 ==> Ring(xs[1..])
  {
    ghost var ys := xs[1..];
    ghost var last := |xs| - 1;
    assert Linked(xs, 0) && Linked(xs, last) && After(xs, last) == 0;
    n.next.prev := n.prev;
    n.prev.next := n.next;
    n.next, n.prev := n, n;
    SingleRing(n);
    if |xs| > 1 {
      forall i: nat, j: nat | i < |ys| && j < |ys| ensures Differ(ys, i, j) {
        assert Differ(xs, i + 1, j + 1);
      }
      forall i: nat | i < |ys| ensures Linked(ys, i) {
        assert old(Linked(xs, i + 1)) && Differ(xs, i + 1, 0) && Differ(xs, i + 1, last);
        if i + 2 < |xs| { assert Differ(xs, i + 2, 0) && Differ(xs, i + 2, 1); }
      }
    }
  }

  // rt_list_isempty
  method IsEmpty(l: Node, ghost xs: seq<Node>) returns (empty: bool)
    requires Ring(xs) && xs[0] == l
    ensures empty <==> |xs| == 1
  {
    assert Linked(xs, 0);
    if |xs| > 1 { assert Differ(xs, 0, 1); }
    empty := l.next == l;
  }

  // rt_list_len: the entries of the list, the head not counted.
  method Len(l: Node, ghost xs: seq<Node>) returns (len: nat)
    requires Ring(xs) && xs[0] == l
    ensures len == |xs| - 1
  {
    len := 0;
    var p := l;
    assert Linked(xs, 0);
    while p.next != l
      invariant len < |xs| && p == xs[len]
      decreases |xs| - len
    {
      assert Linked(xs, len);
      p := p.next;
      len := len + 1;
    }
    assert Linked(xs, len);
    assert Differ(xs, After(xs, len), 0);
  }

  // Inserting before an entry of a list is how a queue is kept in order: n gets the place before it.
  method InsertBeforeEntry(xs: seq<Node>, k: nat, n: Node)
    requires Ring(xs) && 0 < k < |xs| && n !in xs
    modifies xs[k], xs[k].prev, n
    ensures Ring(xs[..k] + [n] + xs[k..])
  {
    RingTurns(xs, k);
    ghost var ys := xs[k..] + xs[..k];
    InsertBefore(xs[k], n, ys);
    RingTurns(ys + [n], |xs| - k);
    assert (ys + [n])[|xs| - k..] + (ys + [n])[..|xs| - k] == xs[..k] + [n] + xs[k..];
  }

  // And an entry anywhere can be removed.
  method RemoveEntry(xs: seq<Node>, k: nat)
    requires Ring(xs) && 0 < k < |xs|
    modifies xs[k], xs[k].next, xs[k].prev
    ensures Ring(xs[..k] + xs[k + 1..]) && Ring([xs[k]])
  {
    RingTurns(xs, k);
    ghost var ys := xs[k..] + xs[..k];
    Remove(xs[k], ys);
    assert ys[1..] == xs[k + 1..] + xs[..k];
    RingTurns(ys[1..], |xs| - k - 1);
    assert ys[1..][|xs| - k - 1..] + ys[1..][..|xs| - k - 1] == xs[..k] + xs[k + 1..];
  }
}
