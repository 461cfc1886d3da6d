/**
  One level of the skip list of proc.c: a doubly linked list threaded through a fixed array of
  nodes.  Node pointers are positions in the array; position 0 is the level's head node.
 */
module SkipLevel {
  import opened Params
  import opened RunQueue

  /** The null pointer, for node pointers and for process pointers. */
  const NULL := -1

  datatype Node = Node(proc: int, prev: int, next: int, lower: int)

  /** order lists the linked nodes from the head on, ps their processes: the node at position k. */
  ghost predicate PositionOk(a: seq<Node>, order: seq<int>, ps: seq<int>, k: nat)
    requires |order| == |ps| + 1 && k < |order|
  {
    && 0 <= order[k] < |a|
    && a[order[k]].next == (if k + 1 < |order| then order[k+1] else NULL)
    && a[order[k]].prev == (if k > 0 then order[k-1] else NULL)
    && a[order[k]].proc == (if k > 0 then ps[k-1] else NULL)
    && (k > 0 ==> ps[k-1] >= 0)
  }

  /**
    The level is an acyclic doubly linked list that starts at the head node, carries exactly the
    processes ps in that order, and leaves every other node unallocated.
   */
  ghost predicate LevelOk(a: seq<Node>, order: seq<int>, ps: seq<int>) {
    && |order| == |ps| + 1 && order[0] == 0 && Distinct(order)
    && (forall k :: 0 <= k < |order| ==> PositionOk(a, order, ps, k))
    && (forall x :: 0 <= x < |a| && a[x].proc != NULL ==> x in order)
  }

  /** Every allocated node of a points down to an allocated node of b for the same process. */
  ghost predicate LowerOk(a: seq<Node>, b: seq<Node>) {
    forall x :: 0 <= x < |a| && a[x].proc != NULL ==> 0 <= a[x].lower < |b| && b[a[x].lower].proc == a[x].proc
  }

  /** Allocated nodes of the bottom level point nowhere. */
  ghost predicate GroundOk(a: seq<Node>) {
    forall x :: 0 <= x < |a| && a[x].proc != NULL ==> a[x].lower == NULL
  }

  /** a with node x, for process p, linked in behind the node pred. */
  ghost function Linked(a: seq<Node>, x: int, pred: int, p: int, lower: int): (r: seq<Node>)
    requires 0 <= x < |a| && 0 <= pred < |a| && x != pred && NULL <= a[pred].next < |a|
    requires a[pred].next != x && a[pred].next != pred
    ensures |r| == |a| && r[x] == Node(p, pred, a[pred].next, lower)
    ensures forall y :: 0 <= y < |a| && y != x ==> r[y].proc == a[y].proc && r[y].lower == a[y].lower
    ensures forall y :: 0 <= y < |a| && y != x ==> r[y].next == if y == pred then x else a[y].next
    ensures forall y :: 0 <= y < |a| && y != x ==> r[y].prev == if y == a[pred].next then x else a[y].prev
  {
    var nxt := a[pred].next;
    var b := a[x := Node(p, pred, nxt, lower)];
    var c := b[pred := b[pred].(next := x)];
    if nxt != NULL then c[nxt := c[nxt].(prev := x)] else c
  }

  /** a with node x unlinked and cleared. */
  ghost function Unlinked(a: seq<Node>, x: int): (r: seq<Node>)
    requires 0 <= x < |a| && 0 <= a[x].prev < |a| && NULL <= a[x].next < |a|
    requires a[x].prev != x && a[x].next != x
    ensures |r| == |a| && r[x] == Node(NULL, NULL, NULL, NULL)
    ensures forall y :: 0 <= y < |a| && y != x ==> r[y].proc == a[y].proc && r[y].lower == a[y].lower
    ensures forall y :: 0 <= y < |a| && y != x ==> r[y].next == if y == a[x].prev then a[x].next else a[y].next
    ensures forall y :: 0 <= y < |a| && y != x ==> r[y].prev == if y == a[x].next then a[x].prev else a[y].prev
  {
    var b := a[a[x].prev := a[a[x].prev].(next := a[x].next)];
    var c := if a[x].next != NULL then b[a[x].next := b[a[x].next].(prev := a[x].prev)] else b;
    c[x := Node(NULL, NULL, NULL, NULL)]
  }

  /** An allocated node sits on the chain, past the head. */
  lemma AllocatedOnChain(a: seq<Node>, order: seq<int>, ps: seq<int>, x: int) returns (k: nat)
    requires LevelOk(a, order, ps) && 0 <= x < |a| && a[x].proc != NULL
    ensures 1 <= k < |order| == |ps| + 1 && order[k] == x && a[x].proc == ps[k-1] && ps[k-1] >= 0
  {
    k :| 0 <= k < |order| && order[k] == x;
    assert PositionOk(a, order, ps, k);
  }

  lemma FreeOffChain(a: seq<Node>, order: seq<int>, ps: seq<int>, x: int)
    requires LevelOk(a, order, ps) && 0 < x < |a| && a[x].proc == NULL
    ensures x !in order
  {
    forall k | 0 <= k < |order| ensures order[k] != x {
      assert PositionOk(a, order, ps, k);
    }
  }

  /** A chain node's neighbours differ from it and lie in the array. */
  lemma Neighbours(a: seq<Node>, order: seq<int>, ps: seq<int>, c: nat)
    requires LevelOk(a, order, ps) && c < |order|
    ensures 0 <= order[c] < |a| && NULL <= a[order[c]].next < |a| && a[order[c]].next != order[c]
    ensures c > 0 ==> 0 <= a[order[c]].prev < |a| && a[order[c]].prev != order[c]
  {
    assert PositionOk(a, order, ps, c);
    if c > 0 { assert PositionOk(a, order, ps, c - 1); }
    if c + 1 < |order| { assert PositionOk(a, order, ps, c + 1); }
  }

  lemma LinkedPosition(a: seq<Node>, order: seq<int>, ps: seq<int>, x: int, c: nat, p: int, lower: int, k: nat)
    requires LevelOk(a, order, ps) && c < |order| && 0 < x < |a| && p >= 0 && k < |order| + 1 && x !in order
    requires 0 <= order[c] < |a| && NULL <= a[order[c]].next < |a| && a[order[c]].next != order[c]
    requires a[order[c]].next != x
    ensures PositionOk(Linked(a, x, order[c], p, lower), InsertAt(order, c + 1, x), InsertAt(ps, c, p), k)
  {
    if k <= c {
      LinkedBefore(a, order, ps, x, c, p, lower, k);
    } else if k == c + 1 {
      hide Linked;
      assert PositionOk(a, order, ps, c);
    } else {
      assert x != order[c] && x != order[k-1];
      LinkedAfter(a, order, ps, x, c, p, lower, k);
    }
  }

  lemma LinkedBefore(a: seq<Node>, order: seq<int>, ps: seq<int>, x: int, c: nat, p: int, lower: int, k: nat)
    requires LevelOk(a, order, ps) && c < |order| && 0 < x < |a| && k <= c && x !in order
    requires 0 <= order[c] < |a| && NULL <= a[order[c]].next < |a| && a[order[c]].next != order[c]
    requires a[order[c]].next != x
    ensures PositionOk(Linked(a, x, order[c], p, lower), InsertAt(order, c + 1, x), InsertAt(ps, c, p), k)
  {
    hide Linked;
    assert PositionOk(a, order, ps, k) && PositionOk(a, order, ps, c);
    var ord, ps' := InsertAt(order, c + 1, x), InsertAt(ps, c, p);
    assert ord[k] == order[k] && (k > 0 ==> ord[k-1] == order[k-1] && ps'[k-1] == ps[k-1]);
    assert ord[k+1] == if k == c then x else order[k+1];
  }

  /** What the links of order[k] say for a place k after c. */
  lemma Apart(a: seq<Node>, order: seq<int>, ps: seq<int>, c: nat, k: nat)
    requires LevelOk(a, order, ps) && c < k < |order|
    ensures |order| == |ps| + 1 && 0 <= order[k] < |a| && ps[k-1] >= 0
    ensures a[order[k]].(lower := 0) == Node(ps[k-1], order[k-1], if k + 1 < |order| then order[k+1] else NULL, 0)
    ensures order[k] != order[c] && 0 <= order[c] < |a| && (order[k] == a[order[c]].next <==> k == c + 1)
  {
    assert PositionOk(a, order, ps, c) && PositionOk(a, order, ps, k);
  }

  lemma LinkedNode(a: seq<Node>, x: int, pred: int, p: int, lower: int, y: int)
    requires 0 <= x < |a| && 0 <= pred < |a| && x != pred && NULL <= a[pred].next < |a|
    requires a[pred].next != x && a[pred].next != pred && 0 <= y < |a| && y != x && y != pred
    ensures Linked(a, x, pred, p, lower)[y] == a[y].(prev := if y == a[pred].next then x else a[y].prev)
  {
  }

  lemma LinkedAfter(a: seq<Node>, order: seq<int>, ps: seq<int>, x: int, c: nat, p: int, lower: int, k: nat)
    requires LevelOk(a, order, ps) && 0 < x < |a| && c + 1 < k < |order| + 1 && x != order[c] && x != order[k-1]
    requires 0 <= order[c] < |a| && NULL <= a[order[c]].next < |a| && a[order[c]].next != order[c]
    requires a[order[c]].next != x
    ensures PositionOk(Linked(a, x, order[c], p, lower), InsertAt(order, c + 1, x), InsertAt(ps, c, p), k)
  {
    hide Linked, LevelOk, InsertAt, Distinct;
    Apart(a, order, ps, c, k - 1);
    InsertedLater(order, c + 1, x, k);
    InsertedLater(ps, c, p, k - 1);
    LinkedNode(a, x, order[c], p, lower, order[k-1]);
  }

  lemma InsertedLater(q: seq<int>, n: nat, x: int, k: nat)
    requires n < k <= |q|
    ensures |InsertAt(q, n, x)| == |q| + 1 && InsertAt(q, n, x)[k] == q[k-1]
    ensures InsertAt(q, n, x)[k-1] == if k == n + 1 then x else q[k-2]
    ensures k < |q| ==> InsertAt(q, n, x)[k+1] == q[k]
  {
  }

  /** Linking a free node behind chain position c inserts its process at index c. */
  lemma {:induction false} LinkedOk(a: seq<Node>, order: seq<int>, ps: seq<int>, x: int, c: nat, p: int, lower: int)
    requires LevelOk(a, order, ps) && c < |order| && 0 < x < |a| && a[x].proc == NULL && p >= 0
    ensures x !in order && 0 <= order[c] < |a| && NULL <= a[order[c]].next < |a|
    ensures a[order[c]].next != order[c] && a[order[c]].next != x
    ensures LevelOk(Linked(a, x, order[c], p, lower), InsertAt(order, c + 1, x), InsertAt(ps, c, p))
  {
    FreeOffChain(a, order, ps, x);
    Neighbours(a, order, ps, c);
    assert PositionOk(a, order, ps, c);
    var b, ord, ps' := Linked(a, x, order[c], p, lower), InsertAt(order, c + 1, x), InsertAt(ps, c, p);
    forall k | 0 <= k < |ord| ensures PositionOk(b, ord, ps', k) {
      LinkedPosition(a, order, ps, x, c, p, lower, k);
    }
    InsertDistinct(order, c + 1, x);
    forall y | 0 <= y < |b| && b[y].proc != NULL ensures y in ord {
      assert y == x || a[y].proc != NULL;
    }
  }

  lemma UnlinkedPosition(a: seq<Node>, order: seq<int>, ps: seq<int>, c: nat, k: nat)
    requires LevelOk(a, order, ps) && 1 <= c < |order| && k < |order| - 1
    requires 0 <= order[c] < |a| && 0 <= a[order[c]].prev < |a| && NULL <= a[order[c]].next < |a|
    requires a[order[c]].prev != order[c] && a[order[c]].next != order[c]
    ensures PositionOk(Unlinked(a, order[c]), CutAt(order, c), CutAt(ps, c - 1), k)
  {
    assert PositionOk(a, order, ps, c);
    assert PositionOk(a, order, ps, if k < c then k else k + 1);
  }

  /** Unlinking the node at chain position c removes the process at index c - 1. */
  lemma {:induction false} UnlinkedOk(a: seq<Node>, order: seq<int>, ps: seq<int>, c: nat)
    requires LevelOk(a, order, ps) && 1 <= c < |order|
    ensures 0 <= order[c] < |a| && 0 <= a[order[c]].prev < |a| && NULL <= a[order[c]].next < |a|
    ensures a[order[c]].prev != order[c] && a[order[c]].next != order[c]
    ensures LevelOk(Unlinked(a, order[c]), CutAt(order, c), CutAt(ps, c - 1))
  {
    Neighbours(a, order, ps, c);
    var b, ord, ps' := Unlinked(a, order[c]), CutAt(order, c), CutAt(ps, c - 1);
    forall k | 0 <= k < |ord| ensures PositionOk(b, ord, ps', k) {
      UnlinkedPosition(a, order, ps, c, k);
    }
    CutDistinct(order, c);
    forall y | 0 <= y < |b| && b[y].proc != NULL ensures y in ord {
      assert a[y].proc != NULL && y != order[c];
    }
  }

  /** Some node is unallocated as long as fewer processes are linked than there are nodes. */
  lemma FreeNodeExists(a: seq<Node>, order: seq<int>, ps: seq<int>)
    requires LevelOk(a, order, ps) && |ps| + 1 < |a|
    ensures exists x :: 0 < x < |a| && a[x].proc == NULL
  {
    if forall x :: 0 < x < |a| ==> a[x].proc != NULL {
      assert forall x :: 0 <= x < |a| ==> x in order;
      SubsetSize(Slots(|a|), Elements(order));
    }
  }

  /** Towers survive when a level gains a node that stands on the level below. */
  lemma LowerAfterLink(above: seq<Node>, a: seq<Node>, a': seq<Node>, below: seq<Node>, x: int)
    requires |a'| == |a| && 0 <= x < |a| && a[x].proc == NULL
    requires forall y :: 0 <= y < |a| && y != x ==> a'[y].proc == a[y].proc && a'[y].lower == a[y].lower
    ensures LowerOk(above, a) ==> LowerOk(above, a')
    ensures LowerOk(a, below) && 0 <= a'[x].lower < |below| && below[a'[x].lower].proc == a'[x].proc ==> LowerOk(a', below)
    ensures GroundOk(a) && a'[x].lower == NULL ==> GroundOk(a')
  {
  }

  /** The level has no node for p. */
  ghost predicate NoNodeFor(a: seq<Node>, p: int) {
    forall y :: 0 <= y < |a| ==> a[y].proc != p
  }

  /** Towers survive when a level loses a node that nothing above stands on. */
  lemma LowerAfterUnlink(above: seq<Node>, a: seq<Node>, a': seq<Node>, below: seq<Node>, x: int)
    requires |a'| == |a| && 0 <= x < |a| && a'[x].proc == NULL
    requires forall y :: 0 <= y < |a| && y != x ==> a'[y].proc == a[y].proc && a'[y].lower == a[y].lower
    ensures LowerOk(above, a) && NoNodeFor(above, a[x].proc) ==> LowerOk(above, a')
    ensures LowerOk(a, below) ==> LowerOk(a', below)
    ensures GroundOk(a) ==> GroundOk(a')
  {
  }

  /** Every level is well linked and carries its process list. */
  ghost predicate LevelsOk(v: seq<seq<Node>>, order: seq<seq<int>>, pss: seq<seq<int>>) {
    && |v| == |order| == |pss|
    && forall l :: 0 <= l < |v| ==> LevelOk(v[l], order[l], pss[l])
  }

  /** Towers stand: every node reaches the level below through lower, and level 0 is the ground. */
  ghost predicate TowersOk(v: seq<seq<Node>>) {
    && |v| > 0 && GroundOk(v[0])
    && forall l :: 0 < l < |v| ==> LowerOk(v[l], v[l-1])
  }

  lemma TowersAfterLink(v: seq<seq<Node>>, l: nat, a': seq<Node>, x: int)
    requires TowersOk(v) && l < |v| && |a'| == |v[l]| && 0 <= x < |a'| && v[l][x].proc == NULL
    requires forall y :: 0 <= y < |a'| && y != x ==> a'[y].proc == v[l][y].proc && a'[y].lower == v[l][y].lower
    requires l == 0 ==> a'[x].lower == NULL
    requires l > 0 ==> 0 <= a'[x].lower < |v[l-1]| && v[l-1][a'[x].lower].proc == a'[x].proc
    ensures TowersOk(v[l := a'])
  {
    var above := if l + 1 < |v| then v[l+1] else [];
    var below := if l > 0 then v[l-1] else [];
    LowerAfterLink(above, v[l], a', below, x);
  }

  lemma TowersAfterUnlink(v: seq<seq<Node>>, l: nat, a': seq<Node>, x: int)
    requires TowersOk(v) && l < |v| && |a'| == |v[l]| && 0 <= x < |a'| && a'[x].proc == NULL
    requires forall y :: 0 <= y < |a'| && y != x ==> a'[y].proc == v[l][y].proc && a'[y].lower == v[l][y].lower
    requires v[l][x].proc != NULL && (l + 1 < |v| ==> NoNodeFor(v[l+1], v[l][x].proc))
    ensures TowersOk(v[l := a'])
  {
    var above := if l + 1 < |v| then v[l+1] else [];
    var below := if l > 0 then v[l-1] else [];
    LowerAfterUnlink(above, v[l], a', below, x);
  }

  /** x is the node at chain position c, and its deadline is below d. */
  ghost predicate Before(order: seq<int>, ps: seq<int>, dl: seq<int>, x: int, c: nat, d: int)
    requires InTable(ps, |dl|)
  {
    c < |order| == |ps| + 1 && order[c] == x && (c > 0 ==> dl[ps[c-1]] < d)
  }

  /** Moreover it is the last such node of its level. */
  ghost predicate Placed(order: seq<int>, ps: seq<int>, dl: seq<int>, x: int, c: nat, d: int)
    requires InTable(ps, |dl|)
  {
    Before(order, ps, dl, x, c, d) && (c < |ps| ==> dl[ps[c]] >= d)
  }

  lemma BeforeHead(a: seq<Node>, order: seq<int>, ps: seq<int>, dl: seq<int>, d: int)
    requires LevelOk(a, order, ps) && InTable(ps, |dl|)
    ensures Before(order, ps, dl, 0, 0, d)
  {
  }

  /** Looking ahead from a node either moves on or settles the placement. */
  lemma BeforeNext(a: seq<Node>, order: seq<int>, ps: seq<int>, dl: seq<int>, x: int, c: nat, d: int)
    requires LevelOk(a, order, ps) && InTable(ps, |dl|) && Before(order, ps, dl, x, c, d)
    ensures 0 <= x < |a| && NULL <= a[x].next < |a|
    ensures a[x].proc == if c == 0 then NULL else ps[c-1]
    ensures a[x].next == NULL ==> c == |ps| && Placed(order, ps, dl, x, c, d)
    ensures a[x].next != NULL ==>
      var nx := a[x].next;
      && c < |ps| && a[nx].proc == ps[c] && 0 <= ps[c] < |dl| && order[c+1] == nx
      && if dl[ps[c]] < d then Before(order, ps, dl, nx, c + 1, d) else Placed(order, ps, dl, x, c, d)
  {
    assert PositionOk(a, order, ps, c);
    if c < |ps| { assert PositionOk(a, order, ps, c + 1); }
  }

  /** Following lower from a node leads to the same process one level down. */
  lemma BeforeDown(v: seq<seq<Node>>, order: seq<seq<int>>, pss: seq<seq<int>>, dl: seq<int>,
                   l: nat, x: int, c: nat, d: int) returns (c': nat)
    requires LevelsOk(v, order, pss) && TowersOk(v) && 0 < l < |v| && InTable(pss[l], |dl|) && InTable(pss[l-1], |dl|)
    requires Before(order[l], pss[l], dl, x, c, d) && c > 0
    ensures 0 <= x < |v[l]| && v[l][x].lower >= 0
    ensures Before(order[l-1], pss[l-1], dl, v[l][x].lower, c', d)
  {
    assert LevelOk(v[l], order[l], pss[l]) && LevelOk(v[l-1], order[l-1], pss[l-1]);
    BeforeNext(v[l], order[l], pss[l], dl, x, c, d);
    assert LowerOk(v[l], v[l-1]);
    c' := AllocatedOnChain(v[l-1], order[l-1], pss[l-1], v[l][x].lower);
  }

  /** A level that does not carry p has no node for it. */
  lemma AbsentNoNode(a: seq<Node>, order: seq<int>, ps: seq<int>, p: int)
    requires LevelOk(a, order, ps) && p !in ps && p != NULL
    ensures NoNodeFor(a, p)
  {
    forall y | 0 <= y < |a| ensures a[y].proc != p {
      if a[y].proc != NULL { var k := AllocatedOnChain(a, order, ps, y); }
    }
  }

  /**
    What a scan forward from a placement over a run of deadlines d has seen: c is a chain position
    at or behind the placement, and everything between has deadline d and is not p.
   */
  ghost predicate Scanned(ps: seq<int>, dl: seq<int>, p: int, from: nat, c: nat, d: int)
    requires InTable(ps, |dl|)
  {
    from <= c <= |ps| && (forall i :: from <= i < c ==> dl[ps[i]] == d) && (forall i :: from <= i < c - 1 ==> ps[i] != p)
  }

  /** A scan that stops without p has shown that the level does not carry p. */
  lemma ScanMisses(order: seq<int>, ps: seq<int>, dl: seq<int>, p: int, x: int, from: nat, c: nat)
    requires InTable(ps, |dl|) && SortedBy(ps, dl) && 0 <= p < |dl| && Placed(order, ps, dl, x, from, dl[p])
    requires Scanned(ps, dl, p, from, c, dl[p]) && (c > from ==> ps[c-1] != p)
    requires c < |ps| ==> dl[ps[c]] != dl[p]
    ensures p !in ps
  {
    forall i | 0 <= i < |ps| ensures ps[i] != p {
      if i < from { assert dl[ps[i]] < dl[p]; }
      if i >= c && c > 0 { assert dl[ps[c-1]] <= dl[ps[c]]; }
    }
  }
}
