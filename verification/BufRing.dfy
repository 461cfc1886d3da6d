/**
  The circular doubly linked list of bio.c that threads all buffers through a head node, most
  recently used first.  Links are array positions.
 */
module BufRing {
  import opened RunQueue

  datatype Link = Link(prev: int, next: int)

  /** The node at position k of the cycle head, order[0], order[1], ..., head. */
  ghost function Cycle(order: seq<int>, head: int, k: int): int {
    if 1 <= k <= |order| then order[k-1] else head
  }

  /** The two links between cycle positions k and k + 1. */
  ghost predicate Edge(l: seq<Link>, order: seq<int>, head: int, k: int) {
    var a, b := Cycle(order, head, k), Cycle(order, head, k + 1);
    0 <= a < |l| && 0 <= b < |l| && l[a].next == b && l[b].prev == a
  }

  /** The links form one cycle through the head and exactly the buffers in order. */
  ghost predicate Ring(l: seq<Link>, order: seq<int>, head: int) {
    && Distinct(order) && head !in order
    && forall k :: 0 <= k <= |order| ==> Edge(l, order, head, k)
  }

  /** x taken out of the cycle. */
  function Unlink(l: seq<Link>, x: int): seq<Link>
    requires 0 <= x < |l| && 0 <= l[x].prev < |l| && 0 <= l[x].next < |l|
  {
    var m := l[l[x].next := l[l[x].next].(prev := l[x].prev)];
    m[m[x].prev := m[m[x].prev].(next := m[x].next)]
  }

  /** x put in behind the head. */
  function LinkFront(l: seq<Link>, x: int, head: int): seq<Link>
    requires 0 <= x < |l| && 0 <= head < |l| && 0 <= l[head].next < |l| && x != head
  {
    var m := l[x := Link(head, l[head].next)];
    var n := m[m[head].next := m[m[head].next].(prev := x)];
    n[head := n[head].(next := x)]
  }

  lemma UnlinkEdge(l: seq<Link>, order: seq<int>, head: int, j: nat, k: nat)
    requires Ring(l, order, head) && j < |order| && k < |order|
    requires 0 <= order[j] < |l| && 0 <= l[order[j]].prev < |l| && 0 <= l[order[j]].next < |l|
    ensures Edge(Unlink(l, order[j]), CutAt(order, j), head, k)
  {
    assert Edge(l, order, head, j) && Edge(l, order, head, j + 1);
    assert Edge(l, order, head, if k < j then k else k + 1);
  }

  lemma UnlinkRing(l: seq<Link>, order: seq<int>, head: int, j: nat)
    requires Ring(l, order, head) && j < |order|
    ensures 0 <= order[j] < |l| && 0 <= l[order[j]].prev < |l| && 0 <= l[order[j]].next < |l|
    ensures Ring(Unlink(l, order[j]), CutAt(order, j), head) && order[j] !in CutAt(order, j)
  {
    assert Edge(l, order, head, j) && Edge(l, order, head, j + 1);
    var m, cut := Unlink(l, order[j]), CutAt(order, j);
    CutDistinct(order, j);
    forall k | 0 <= k <= |cut| ensures Edge(m, cut, head, k) { UnlinkEdge(l, order, head, j, k); }
  }

  lemma LinkRing(l: seq<Link>, order: seq<int>, head: int, x: int)
    requires Ring(l, order, head) && x !in order && x != head && 0 <= x < |l|
    ensures 0 <= head < |l| && 0 <= l[head].next < |l|
    ensures Ring(LinkFront(l, x, head), [x] + order, head)
  {
    assert Edge(l, order, head, 0);
    var m, ord := LinkFront(l, x, head), [x] + order;
    forall k | 0 <= k <= |ord| ensures Edge(m, ord, head, k) {
      if k > 0 { assert Edge(l, order, head, k - 1); }
    }
  }
}
