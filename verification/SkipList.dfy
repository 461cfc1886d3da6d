/**
  The skip list of proc.c: four levels of linked lists over fixed node arrays, searched by virtual
  deadline.  Insert and Delete are proved to act on the process order like insertion into and
  removal from a plain sorted list, whatever the coin flips, and never to reach their panics.
 */
module SkipList {
  import opened ProcTable
  import opened RunQueue
  import opened SkipLevel

  /** How many levels a tower gets: it grows while the coins say so.  Level 0 needs no coin. */
  ghost predicate IsHeight(coin: seq<bool>, height: int)
    requires |coin| == LEVELS
  {
    && 1 <= height <= LEVELS
    && (forall l :: 1 <= l < height ==> coin[l])
    && (height < LEVELS ==> !coin[height])
  }

  ghost predicate EmptyLevel(a: seq<Node>) {
    && |a| == NPROC + 1 && a[0].prev == NULL && a[0].next == NULL
    && forall x :: 0 <= x < |a| ==> a[x].proc == NULL
  }

  /** Inserting p behind node x, at index c, turns ps into ins. */
  ghost predicate Spot(order: seq<int>, ps: seq<int>, ins: seq<int>, x: int, c: nat, p: int) {
    c < |order| && order[c] == x && c <= |ps| < NPROC && ins == InsertAt(ps, c, p)
  }

  /** x is a node for p. */
  ghost predicate NodeFor(a: seq<Node>, x: int, p: int) {
    0 <= x < |a| && a[x].proc == p
  }

  /** A placement is the index at which sorted insertion puts p. */
  lemma InsertSortedPlaced(order: seq<int>, ps: seq<int>, dl: seq<int>, p: int, x: int, c: nat)
    requires InTable(ps, |dl|) && SortedBy(ps, dl) && 0 <= p < |dl| && Placed(order, ps, dl, x, c, dl[p])
    ensures InsertSorted(ps, dl, p) == InsertAt(ps, c, p)
  {
    InsertSortedAt(ps, dl, p, c);
  }

  /** The search for a node that is not in use; the panic "not enough memory to store a new value" is not reached. */
  method FindFree(a: array<Node>, ghost order: seq<int>, ghost ps: seq<int>) returns (x: int)
    requires LevelOk(a[..], order, ps) && |ps| + 1 < a.Length
    ensures 0 < x < a.Length && a[x].proc == NULL && forall y :: 0 < y < x ==> a[y].proc != NULL
  {
    FreeNodeExists(a[..], order, ps);
    hide LevelOk;
    ghost var free :| 0 < free < a.Length && a[..][free].proc == NULL;
    x := 1;
    while a[x].proc != NULL
      invariant 0 < x <= free && forall y :: 0 < y < x ==> a[y].proc != NULL
      decreases free - x
    {
      x := x + 1;
      assert !(x >= a.Length);
    }
  }

  /** The assignments that link node x behind pred. */
  method StoreLinks(a: array<Node>, x: int, pred: int, p: int, lower: int)
    requires 0 <= x < a.Length && 0 <= pred < a.Length && x != pred && NULL <= a[pred].next < a.Length
    requires a[pred].next != x && a[pred].next != pred
    modifies a
    ensures a[..] == Linked(old(a[..]), x, pred, p, lower)
  {
    a[x] := a[x].(lower := lower);
    a[x] := a[x].(proc := p);
    a[x] := a[x].(prev := pred);
    a[x] := a[x].(next := a[pred].next);
    a[pred] := a[pred].(next := x);
    if a[x].next != NULL {
      a[a[x].next] := a[a[x].next].(prev := x);
    }
  }

  /**
    One turn of insert's level loop: take the first unallocated node of the level and link it in
    behind pred.
   */
  method LinkNode(a: array<Node>, p: int, pred: int, lower: int, ghost order: seq<int>, ghost ps: seq<int>, ghost c: nat)
    returns (x: int)
    requires LevelOk(a[..], order, ps) && c < |order| && order[c] == pred && p >= 0 && |ps| + 1 < a.Length
    modifies a
    ensures 0 < x < a.Length && old(a[x].proc) == NULL && forall y :: 0 < y < x ==> old(a[y].proc) != NULL
    ensures LevelOk(a[..], InsertAt(order, c + 1, x), InsertAt(ps, c, p))
    ensures a[x].proc == p && a[x].lower == lower
    ensures forall y :: 0 <= y < a.Length && y != x ==> a[y].proc == old(a[y].proc) && a[y].lower == old(a[y].lower)
  {
    x := FindFree(a, order, ps);
    ghost var b := a[..];
    LinkedOk(b, order, ps, x, c, p, lower);
    hide LevelOk, Linked;
    StoreLinks(a, x, pred, p, lower);
    assert forall y :: 0 <= y < a.Length ==> a[y] == a[..][y] && old(a[y]) == b[y];
  }

  /** One turn of delete's unlinking loop; returns the node below. */
  method UnlinkNode(a: array<Node>, x: int, ghost order: seq<int>, ghost ps: seq<int>, ghost c: nat) returns (lower: int)
    requires LevelOk(a[..], order, ps) && 1 <= c < |order| && order[c] == x
    modifies a
    ensures LevelOk(a[..], CutAt(order, c), CutAt(ps, c - 1))
    ensures 0 <= x < a.Length && lower == old(a[x].lower) && a[x] == Node(NULL, NULL, NULL, NULL)
    ensures forall y :: 0 <= y < a.Length && y != x ==> a[y].proc == old(a[y].proc) && a[y].lower == old(a[y].lower)
  {
    ghost var b := a[..];
    UnlinkedOk(b, order, ps, c);
    assert b[x].prev != NULL;  // "somehow deleting node with no set previous"
    a[a[x].prev] := a[a[x].prev].(next := a[x].next);
    if a[x].next != NULL {
      a[a[x].next] := a[a[x].next].(prev := a[x].prev);
    }
    a[x] := a[x].(proc := NULL);
    a[x] := a[x].(prev := NULL);
    a[x] := a[x].(next := NULL);
    lower := a[x].lower;
    a[x] := a[x].(lower := NULL);
    assert a[..] == Unlinked(b, x);
  }

  /** The first n lists of xs followed by the rest of ys. */
  ghost function Mix(xs: seq<seq<int>>, ys: seq<seq<int>>, n: nat): (r: seq<seq<int>>)
    requires |xs| == |ys| && n <= |xs|
    ensures |r| == |xs| && forall l :: 0 <= l < |r| ==> r[l] == if l < n then xs[l] else ys[l]
  {
    xs[..n] + ys[n..]
  }

  lemma MixEnds(xs: seq<seq<int>>, ys: seq<seq<int>>)
    requires |xs| == |ys|
    ensures Mix(xs, ys, 0) == ys && Mix(xs, ys, |xs|) == xs
  {
  }

  lemma MixNext(xs: seq<seq<int>>, ys: seq<seq<int>>, n: nat)
    requires |xs| == |ys| && n < |xs|
    ensures Mix(xs, ys, n)[n := xs[n]] == Mix(xs, ys, n + 1)
  {
  }

  lemma MixNextDown(xs: seq<seq<int>>, ys: seq<seq<int>>, n: nat)
    requires |xs| == |ys| && n < |xs|
    ensures Mix(xs, ys, n + 1)[n := ys[n]] == Mix(xs, ys, n)
  {
  }

  /** A level that p has been removed from does not carry p. */
  lemma RemovedGone(pss: seq<seq<int>>, rem: seq<seq<int>>, p: int, n: nat)
    requires |pss| == |rem| && n <= |pss| && forall l :: 0 <= l < |pss| ==> rem[l] == Remove(pss[l], p)
    ensures forall l :: n <= l < |pss| ==> p !in Mix(pss, rem, n)[l]
  {
    forall l | n <= l < |pss| ensures p !in rem[l] { RemoveGone(pss[l], p); }
  }

  /** Above p's tower there is nothing to remove. */
  lemma RemoveTop(p: int, top: nat, pss: seq<seq<int>>, rem: seq<seq<int>>)
    requires |pss| == |rem| && top < |pss|
    requires forall l :: 0 <= l < |pss| ==> rem[l] == Remove(pss[l], p)
    requires forall l :: top < l < |pss| ==> p !in pss[l]
    ensures Mix(pss, rem, top + 1) == pss
  {
    forall l | top < l < |pss| ensures rem[l] == pss[l] { RemoveAbsent(pss[l], p); }
  }

  class PTable {
    const level: seq<array<Node>>
    const proc: array<Proc>
    const maxLevel: array<int>
    ghost var order: seq<seq<int>>
    ghost var queue: seq<int>

    ghost predicate Shape() {
      && |level| == LEVELS
      && (forall l :: 0 <= l < LEVELS ==> level[l].Length == NPROC + 1)
      && (forall l, m :: 0 <= l < m < LEVELS ==> level[l] != level[m])
      && proc.Length == NPROC && maxLevel.Length == NPROC
    }

    /** The contents of all node arrays. */
    ghost function Views(): (v: seq<seq<Node>>)
      reads level
      ensures |v| == |level| && forall l :: 0 <= l < |v| ==> v[l] == level[l][..]
    {
      seq(|level|, l requires 0 <= l < |level| reads level => level[l][..])
    }

    /** Level l carries the queued processes whose towers are taller than l. */
    static ghost function Layers(q: seq<int>, h: seq<int>): (pss: seq<seq<int>>)
      requires InTable(q, |h|)
      ensures |pss| == LEVELS && forall l :: 0 <= l < LEVELS ==> pss[l] == Filter(q, h, l)
    {
      seq(LEVELS, l => Filter(q, h, l))
    }

    /** The process lists while p is being inserted and the levels below done are finished. */
    static ghost function Inserting(pss: seq<seq<int>>, dl: seq<int>, p: int, done: nat): (r: seq<seq<int>>)
      requires 0 <= p < |dl| && forall l :: 0 <= l < |pss| ==> InTable(pss[l], |dl|)
      ensures |r| == |pss|
      ensures forall l :: 0 <= l < |r| ==> r[l] == if l < done then InsertSorted(pss[l], dl, p) else pss[l]
    {
      seq(|pss|, l requires 0 <= l < |pss| => if l < done then InsertSorted(pss[l], dl, p) else pss[l])
    }

    /** Every layer of a good queue is a good, not yet full list. */
    static lemma LayersKeep(q: seq<int>, h: seq<int>, dl: seq<int>, p: int)
      requires InTable(q, NPROC) && |h| == |dl| == NPROC && Distinct(q) && SortedBy(q, dl)
      ensures forall l :: 0 <= l < LEVELS ==>
        && InTable(Layers(q, h)[l], NPROC) && Distinct(Layers(q, h)[l]) && SortedBy(Layers(q, h)[l], dl)
        && (0 <= p < NPROC && p !in q ==> |Layers(q, h)[l]| < NPROC)
    {
      forall l | 0 <= l < LEVELS
        ensures Distinct(Filter(q, h, l)) && SortedBy(Filter(q, h, l), dl)
        ensures 0 <= p < NPROC && p !in q ==> |Filter(q, h, l)| < NPROC
      {
        FilterKeeps(q, h, dl, l);
        FilterMember(q, h, l);
        DistinctBound(Filter(q, h, l), NPROC);
      }
    }

    /** The finished levels of an insertion are the layers of the new queue. */
    static lemma LayersAfterInsert(q: seq<int>, h: seq<int>, dl: seq<int>, p: int, height: nat)
      requires InTable(q, NPROC) && |h| == |dl| == NPROC && SortedBy(q, dl) && 0 <= p < NPROC && p !in q
      requires height <= LEVELS
      ensures Layers(InsertSorted(q, dl, p), h[p := height]) == Inserting(Layers(q, h), dl, p, height)
    {
      forall l | 0 <= l < LEVELS
        ensures Filter(InsertSorted(q, dl, p), h[p := height], l)
             == if l < height then InsertSorted(Filter(q, h, l), dl, p) else Filter(q, h, l)
      {
        FilterInsert(q, dl, h[p := height], p, l);
        FilterFrame(q, h, h[p := height], l);
      }
    }

    /** Everything insert has to know about the new queue. */
    static lemma InsertDone(q: seq<int>, h: seq<int>, dl: seq<int>, p: int, height: nat)
      requires InTable(q, NPROC) && |h| == |dl| == NPROC && SortedBy(q, dl) && Distinct(q) && 0 <= p < NPROC && p !in q
      requires height <= LEVELS
      ensures forall l :: 0 <= l < LEVELS ==> InTable(Layers(q, h)[l], |dl|)
      ensures var pss := Layers(q, h);
        Layers(InsertSorted(q, dl, p), h[p := height]) == Mix(Inserting(pss, dl, p, LEVELS), pss, height)
      ensures SortedBy(InsertSorted(q, dl, p), dl) && Distinct(InsertSorted(q, dl, p))
      ensures forall x :: x in InsertSorted(q, dl, p) <==> x == p || x in q
    {
      LayersKeep(q, h, dl, p);
      LayersAfterInsert(q, h, dl, p, height);
      var k := InsertSortedMeaning(q, dl, p);
      var pss := Layers(q, h);
      assert Inserting(pss, dl, p, height) == Mix(Inserting(pss, dl, p, LEVELS), pss, height);
    }

    /** The process lists with p taken out of every level. */
    static ghost function Removing(pss: seq<seq<int>>, p: int): (r: seq<seq<int>>)
      ensures |r| == |pss| && forall l :: 0 <= l < |r| ==> r[l] == Remove(pss[l], p)
    {
      seq(|pss|, l requires 0 <= l < |pss| => Remove(pss[l], p))
    }

    /** A queued process stands on level 0. */
    static lemma LayersHold(q: seq<int>, h: seq<int>, p: int)
      requires InTable(q, |h|) && p in q && h[p] > 0
      ensures p in Layers(q, h)[0]
    {
      FilterMember(q, h, 0);
    }

    /** Everything delete has to know about the new queue. */
    static lemma DeleteDone(q: seq<int>, h: seq<int>, dl: seq<int>, p: int)
      requires InTable(q, NPROC) && |h| == |dl| == NPROC && SortedBy(q, dl) && Distinct(q) && p in q
      ensures InTable(Remove(q, p), NPROC) && SortedBy(Remove(q, p), dl) && Distinct(Remove(q, p))
      ensures forall x :: x in Remove(q, p) ==> x in q && x != p
      ensures Layers(Remove(q, p), h[p := -1]) == Removing(Layers(q, h), p)
    {
      var k := RemoveMeaning(q, dl, p);
      forall l | 0 <= l < LEVELS ensures Filter(Remove(q, p), h[p := -1], l) == Remove(Filter(q, h, l), p) {
        FilterRemove(q, h, p, l);
        FilterFrame(Remove(q, p), h, h[p := -1], l);
      }
    }

    ghost predicate QueueOk()
      reads this, proc, maxLevel
    {
      && proc.Length == NPROC && maxLevel.Length == NPROC
      && InTable(queue, NPROC) && Distinct(queue) && SortedBy(queue, Deadlines(proc[..]))
      && forall x :: x in queue ==> 1 <= maxLevel[x] <= LEVELS
    }

    /**
      Every level is an acyclic, doubly linked list of the queued processes with taller towers, in
      queue order; the towers stand; the queue is sorted by deadline.
     */
    ghost predicate Valid()
      reads this, level, proc, maxLevel
    {
      && Shape() && QueueOk() && |order| == LEVELS
      && LevelsOk(Views(), order, Layers(queue, maxLevel[..])) && TowersOk(Views())
    }

    /** Storage as the loader leaves it, before pinit. */
    constructor ()
      ensures Shape() && fresh(proc) && fresh(maxLevel) && forall l :: 0 <= l < LEVELS ==> fresh(level[l])
      ensures forall p :: 0 <= p < NPROC ==> proc[p].state == UNUSED
    {
      var a0, a1 := new Node[NPROC + 1], new Node[NPROC + 1];
      var a2, a3 := new Node[NPROC + 1], new Node[NPROC + 1];
      level := [a0, a1, a2, a3];
      proc := new Proc[NPROC](_ => Proc(UNUSED, 0, NULL, NULL, false, 0, 0, 0));
      maxLevel := new int[NPROC](_ => 0);
      order, queue := [], [];
    }

    /** pinit: every level becomes an empty list. */
    method Pinit()
      requires Shape()
      modifies this`order, this`queue, level
      ensures Valid() && queue == []
    {
      var i := 0;
      while i < LEVELS
        invariant 0 <= i <= LEVELS
        invariant forall l :: 0 <= l < i ==> EmptyLevel(level[l][..])
      {
        ClearLevel(level[i]);
        i := i + 1;
      }
      queue := [];
      order := seq(LEVELS, _ => [0]);
      forall l | 0 <= l < LEVELS
        ensures LevelOk(level[l][..], [0], []) && GroundOk(level[l][..]) && forall b :: LowerOk(level[l][..], b)
      {
        EmptyLevelOk(level[l][..]);
      }
    }

    /** One turn of the loop of pinit. */
    static method ClearLevel(a: array<Node>)
      requires a.Length == NPROC + 1
      modifies a
      ensures EmptyLevel(a[..])
    {
      a[0] := a[0].(prev := NULL);
      a[0] := a[0].(next := NULL);
      a[0] := a[0].(lower := NULL);
      var j := 0;
      while j < NPROC + 1
        invariant 0 <= j <= NPROC + 1
        invariant a[0].prev == NULL && a[0].next == NULL && forall x :: 0 <= x < j ==> a[x].proc == NULL
      {
        a[j] := a[j].(proc := NULL);
        j := j + 1;
      }
    }

    static lemma EmptyLevelOk(a: seq<Node>)
      requires EmptyLevel(a)
      ensures LevelOk(a, [0], []) && GroundOk(a) && forall b :: LowerOk(a, b)
    {
      assert PositionOk(a, [0], [], 0);
    }

    /** Level 0 is the whole queue: its first node carries the first process. */
    lemma HeadOfQueue()
      requires Valid()
      ensures queue == [] <==> level[0][0].next == NULL
      ensures queue != [] ==> 0 <= level[0][0].next <= NPROC && level[0][level[0][0].next].proc == queue[0]
    {
      var v, ps := Views(), Layers(queue, maxLevel[..])[0];
      FilterAll(queue, maxLevel[..], 0);
      assert LevelOk(v[0], order[0], ps);
      assert PositionOk(v[0], order[0], ps, 0);
      if ps != [] { assert PositionOk(v[0], order[0], ps, 1); }
    }

    /** Overwriting a process record; the deadline of a queued process must stay. */
    method SetProc(p: int, rec: Proc)
      requires Valid() && 0 <= p < NPROC && (p in queue ==> rec.deadline == proc[p].deadline)
      modifies proc
      ensures Valid() && proc[..] == old(proc[..])[p := rec]
    {
      ghost var dl := Deadlines(proc[..]);
      proc[p] := rec;
      assert forall i, j :: 0 <= i < j < |queue| ==> dl[queue[i]] <= dl[queue[j]];
      assert forall x :: x in queue ==> Deadlines(proc[..])[x] == dl[x];
    }

    /** The descent both insert and delete start with. */
    method Search(d: int, ghost pss: seq<seq<int>>, ghost dl: seq<int>) returns (placement: seq<int>, ghost at: seq<nat>)
      requires Shape() && TowersOk(Views()) && LevelsOk(Views(), order, pss) && dl == Deadlines(proc[..])
      requires forall l :: 0 <= l < LEVELS ==> InTable(pss[l], NPROC)
      ensures |placement| == LEVELS && |at| == LEVELS
      ensures forall l :: 0 <= l < LEVELS ==> Placed(order[l], pss[l], dl, placement[l], at[l], d)
    {
      hide LevelOk, TowersOk, Placed, Views, InTable, Deadlines;
      placement := seq(LEVELS, _ => 0);
      at := seq(LEVELS, _ => 0);
      var lvl := LEVELS - 1;
      var curr := 0;
      ghost var c: nat := 0;
      ghost var v := Views();
      BeforeHead(v[lvl], order[lvl], pss[lvl], dl, d);
      while lvl >= 0
        invariant -1 <= lvl < LEVELS && |placement| == LEVELS && |at| == LEVELS
        invariant lvl >= 0 ==> Before(order[lvl], pss[lvl], dl, curr, c, d)
        invariant forall l :: lvl < l < LEVELS ==> Placed(order[l], pss[l], dl, placement[l], at[l], d)
        decreases lvl + 1, if lvl >= 0 then |order[lvl]| - c else 0
      {
        var a := level[lvl];
        BeforeNext(v[lvl], order[lvl], pss[lvl], dl, curr, c, d);
        if a[curr].next != NULL && proc[a[a[curr].next].proc].deadline < d {
          curr := a[curr].next;
          c := c + 1;
        } else if a[curr].proc == NULL {
          placement, at := placement[lvl := curr], at[lvl := c];
          lvl := lvl - 1;
          curr, c := 0, 0;
          if lvl >= 0 { BeforeHead(v[lvl], order[lvl], pss[lvl], dl, d); }
        } else {
          placement, at := placement[lvl := curr], at[lvl := c];
          lvl := lvl - 1;
          if lvl >= 0 { c := BeforeDown(v, order, pss, dl, lvl + 1, curr, c, d); }
          curr := a[curr].lower;
          assert !(curr == NULL && lvl >= 0);  // "above level 0 with no lower"
        }
      }
    }

    /** insert's work on one level: its process list changes from pss[lvl] to ins. */
    method InsertLevel(lvl: nat, p: int, pred: int, lower: int,
                       ghost pss: seq<seq<int>>, ghost ins: seq<int>, ghost c: nat) returns (x: int)
      requires lvl < LEVELS && Shape() && TowersOk(Views()) && LevelsOk(Views(), order, pss)
      requires 0 <= p < NPROC && Spot(order[lvl], pss[lvl], ins, pred, c, p)
      requires lvl == 0 ==> lower == NULL
      requires lvl > 0 ==> NodeFor(Views()[lvl-1], lower, p)
      modifies this`order, level[lvl]
      ensures Shape() && TowersOk(Views()) && LevelsOk(Views(), order, pss[lvl := ins])
      ensures |order| == LEVELS && forall l :: lvl < l < LEVELS ==> order[l] == old(order[l])
      ensures NodeFor(Views()[lvl], x, p)
    {
      ghost var v := Views();
      assert LevelOk(v[lvl], order[lvl], pss[lvl]);
      x := LinkNode(level[lvl], p, pred, lower, order[lvl], pss[lvl], c);
      order := order[lvl := InsertAt(order[lvl], c + 1, x)];
      TowersAfterLink(v, lvl, level[lvl][..], x);
      assert Views() == v[lvl := level[lvl][..]];
    }

    /** insert's level loop: level l changes from pss[l] to ins[l] as long as the coins say so. */
    method InsertTower(p: int, coin: seq<bool>, placement: seq<int>, ghost at: seq<nat>,
                       ghost pss: seq<seq<int>>, ghost ins: seq<seq<int>>) returns (height: int)
      requires Shape() && TowersOk(Views()) && LevelsOk(Views(), order, pss) && 0 <= p < NPROC && |coin| == LEVELS
      requires |placement| == |at| == |ins| == |pss| == |order| == LEVELS
      requires forall l :: 0 <= l < LEVELS ==> Spot(order[l], pss[l], ins[l], placement[l], at[l], p)
      modifies this`order, level
      ensures Shape() && IsHeight(coin, height) && |order| == LEVELS
      ensures TowersOk(Views()) && LevelsOk(Views(), order, Mix(ins, pss, height))
    {
      hide LevelsOk, TowersOk, Spot, NodeFor, Mix, Views, IsHeight;
      ghost var order0 := order;
      var lower := NULL;
      var lvl := 0;
      MixEnds(ins, pss);
      while lvl < LEVELS && (lvl == 0 || coin[lvl])
        invariant 0 <= lvl <= LEVELS && Shape() && |order| == LEVELS
        invariant TowersOk(Views()) && LevelsOk(Views(), order, Mix(ins, pss, lvl))
        invariant forall l :: lvl <= l < LEVELS ==> order[l] == order0[l]
        invariant if lvl == 0 then lower == NULL else NodeFor(Views()[lvl-1], lower, p)
        invariant forall l :: 1 <= l < lvl ==> coin[l]
      {
        assert lvl > 0 ==> coin[lvl];
        ghost var mid := Mix(ins, pss, lvl);
        assert Spot(order[lvl], mid[lvl], ins[lvl], placement[lvl], at[lvl], p);
        MixNext(ins, pss, lvl);
        lower := InsertLevel(lvl, p, placement[lvl], lower, mid, ins[lvl], at[lvl]);
        lvl := lvl + 1;
      }
      height := lvl;
      HeightIs(coin, height);
    }

    static lemma HeightIs(coin: seq<bool>, height: int)
      requires |coin| == LEVELS && 1 <= height <= LEVELS
      requires (forall l :: 1 <= l < height ==> coin[l]) && (height < LEVELS ==> !coin[height])
      ensures IsHeight(coin, height)
    {
    }

    /**
      insert: whatever the coins, the process order becomes the sorted list with p put in before
      all equal deadlines, and the tower gets the height the coins dictate.
     */
    method Insert(p: int, coin: seq<bool>) returns (height: int)
      requires Valid() && 0 <= p < NPROC && p !in queue && |coin| == LEVELS
      modifies this`order, this`queue, level, maxLevel
      ensures Valid()
      ensures queue == InsertSorted(old(queue), Deadlines(proc[..]), p)
      ensures IsHeight(coin, height) && maxLevel[..] == old(maxLevel[..])[p := height]
    {
      hide LevelsOk, TowersOk, InsertSorted, Filter;
      ghost var q, h, dl := queue, maxLevel[..], Deadlines(proc[..]);
      ghost var pss := Layers(q, h);
      LayersKeep(q, h, dl, p);
      ghost var at;
      var placement;
      placement, at := Search(proc[p].deadline, pss, dl);
      ghost var ins := Inserting(pss, dl, p, LEVELS);
      forall l | 0 <= l < LEVELS
        ensures Spot(order[l], pss[l], ins[l], placement[l], at[l], p)
      {
        InsertSortedPlaced(order[l], pss[l], dl, p, placement[l], at[l]);
      }
      height := InsertTower(p, coin, placement, at, pss, ins);
      maxLevel[p] := height;
      queue := InsertSorted(q, dl, p);
      InsertDone(q, h, dl, p, height);
      assert maxLevel[..] == h[p := height];
    }

    /**
      delete's walk along one level, from the placement through the run of equal deadlines; it ends
      on p's node exactly when the level carries p.
     */
    method ScanLevel(lvl: nat, p: int, pred: int, ghost pss: seq<seq<int>>, ghost dl: seq<int>, ghost from: nat)
      returns (curr: int, ghost c: nat)
      requires lvl < LEVELS && Shape() && LevelsOk(Views(), order, pss) && dl == Deadlines(proc[..]) && 0 <= p < NPROC
      requires InTable(pss[lvl], NPROC) && SortedBy(pss[lvl], dl)
      requires Placed(order[lvl], pss[lvl], dl, pred, from, dl[p])
      ensures c < |order[lvl]| == |pss[lvl]| + 1 && order[lvl][c] == curr && 0 <= curr < level[lvl].Length
      ensures level[lvl][curr].proc == if c == 0 then NULL else pss[lvl][c-1]
      ensures level[lvl][curr].proc == p <==> p in pss[lvl]
    {
      ghost var ps, ord, v := pss[lvl], order[lvl], Views();
      var a := level[lvl];
      assert LevelOk(v[lvl], ord, ps);
      curr, c := pred, from;
      assert PositionOk(v[lvl], ord, ps, c);
      if c < |ps| { assert PositionOk(v[lvl], ord, ps, c + 1); }
      while a[curr].next != NULL && proc[a[a[curr].next].proc].deadline == proc[p].deadline && a[curr].proc != p
        invariant Scanned(ps, dl, p, from, c, dl[p]) && ord[c] == curr
        invariant PositionOk(v[lvl], ord, ps, c) && (c < |ps| ==> PositionOk(v[lvl], ord, ps, c + 1))
        decreases |ps| - c
      {
        curr := a[curr].next;
        c := c + 1;
        if c < |ps| { assert PositionOk(v[lvl], ord, ps, c + 1); }
      }
      if a[curr].proc != p {
        ScanMisses(ord, ps, dl, p, pred, from, c);
      }
    }

    /** delete's search, top level first, for the highest node of p. */
    method FindTower(p: int, placement: seq<int>, ghost at: seq<nat>, ghost pss: seq<seq<int>>, ghost dl: seq<int>)
      returns (top: int, curr: int)
      requires Shape() && LevelsOk(Views(), order, pss) && dl == Deadlines(proc[..]) && 0 <= p < NPROC
      requires |placement| == |at| == LEVELS
      requires forall l :: 0 <= l < LEVELS ==> InTable(pss[l], NPROC) && SortedBy(pss[l], dl)
      requires forall l :: 0 <= l < LEVELS ==> Placed(order[l], pss[l], dl, placement[l], at[l], dl[p])
      requires p in pss[0]
      ensures 0 <= top < LEVELS && NodeFor(Views()[top], curr, p) && curr != NULL
      ensures p in pss[top] && forall l :: top < l < LEVELS ==> p !in pss[l]
    {
      var lvl := LEVELS - 1;
      var found := false;
      curr := NULL;
      while !found
        invariant -1 <= lvl < LEVELS
        invariant forall l :: (if found then lvl + 1 else lvl) < l < LEVELS ==> p !in pss[l]
        invariant found ==> lvl + 1 < LEVELS && p in pss[lvl+1] && NodeFor(Views()[lvl+1], curr, p)
        decreases !found, lvl + 1
      {
        assert !(lvl < 0);  // "deletion search beyond lowest level"
        ghost var c;
        curr, c := ScanLevel(lvl, p, placement[lvl], pss, dl, at[lvl]);
        found := level[lvl][curr].proc == p;
        lvl := lvl - 1;
      }
      top := lvl + 1;
    }

    /** delete's work on one level: unlink p's node and go down. */
    method DeleteLevel(lvl: nat, p: int, x: int, ghost pss: seq<seq<int>>, ghost rem: seq<int>) returns (lower: int)
      requires lvl < LEVELS && Shape() && TowersOk(Views()) && LevelsOk(Views(), order, pss) && p >= 0
      requires NodeFor(Views()[lvl], x, p) && Distinct(pss[lvl]) && rem == Remove(pss[lvl], p)
      requires lvl + 1 < LEVELS ==> p !in pss[lvl+1]
      modifies this`order, level[lvl]
      ensures Shape() && TowersOk(Views()) && LevelsOk(Views(), order, pss[lvl := rem]) && |order| == LEVELS
      ensures lvl == 0 ==> lower == NULL
      ensures lvl > 0 ==> NodeFor(Views()[lvl-1], lower, p) && lower != NULL
    {
      hide Remove, LevelOk, NoNodeFor;
      ghost var v := Views();
      assert LevelOk(v[lvl], order[lvl], pss[lvl]);
      ghost var c := AllocatedOnChain(v[lvl], order[lvl], pss[lvl], x);
      RemoveAt(pss[lvl], p, c - 1);
      if lvl + 1 < LEVELS {
        assert LevelOk(v[lvl+1], order[lvl+1], pss[lvl+1]);
        AbsentNoNode(v[lvl+1], order[lvl+1], pss[lvl+1], p);
      }
      lower := UnlinkNode(level[lvl], x, order[lvl], pss[lvl], c);
      order := order[lvl := CutAt(order[lvl], c)];
      TowersAfterUnlink(v, lvl, level[lvl][..], x);
      assert Views() == v[lvl := level[lvl][..]];
      if lvl > 0 { assert LowerOk(v[lvl], v[lvl-1]); }
    }

    /** delete's unlinking loop, from the highest node of p down to level 0. */
    method DeleteTower(p: int, top: nat, x: int, ghost pss: seq<seq<int>>, ghost rem: seq<seq<int>>)
      requires top < LEVELS && Shape() && TowersOk(Views()) && LevelsOk(Views(), order, pss) && p >= 0
      requires |pss| == |rem| == |order| == LEVELS && NodeFor(Views()[top], x, p) && x != NULL
      requires forall l :: 0 <= l < LEVELS ==> Distinct(pss[l]) && rem[l] == Remove(pss[l], p)
      requires forall l :: top < l < LEVELS ==> p !in pss[l]
      modifies this`order, level
      ensures Shape() && TowersOk(Views()) && LevelsOk(Views(), order, rem) && |order| == LEVELS
    {
      hide LevelsOk, TowersOk, Remove, Distinct, NodeFor;
      RemoveTop(p, top, pss, rem);
      var lvl: int := top;
      var curr := x;
      while curr != NULL
        invariant -1 <= lvl < LEVELS && Shape() && |order| == LEVELS
        invariant TowersOk(Views()) && LevelsOk(Views(), order, Mix(pss, rem, lvl + 1))
        invariant if lvl < 0 then curr == NULL else curr != NULL && NodeFor(Views()[lvl], curr, p)
        decreases lvl
      {
        RemovedGone(pss, rem, p, lvl + 1);
        MixNextDown(pss, rem, lvl);
        curr := DeleteLevel(lvl, p, curr, Mix(pss, rem, lvl + 1), rem[lvl]);
        lvl := lvl - 1;
      }
      MixEnds(pss, rem);
    }

    /**
      delete: exactly p leaves the process order, wherever it stands among equal deadlines, and the
      others keep their order; the height its tower had is returned.
     */
    method Delete(p: int) returns (height: int)
      requires Valid() && p in queue
      modifies this`order, this`queue, level, maxLevel
      ensures Valid()
      ensures queue == Remove(old(queue), p)
      ensures height == old(maxLevel[p]) && maxLevel[..] == old(maxLevel[..])[p := -1]
    {
      hide LevelsOk, TowersOk, Remove, Filter, NodeFor, Placed;
      ghost var q, h, dl := queue, maxLevel[..], Deadlines(proc[..]);
      ghost var pss := Layers(q, h);
      LayersKeep(q, h, dl, p);
      ghost var rem := Removing(pss, p);
      LayersHold(q, h, p);
      ghost var at;
      var placement;
      placement, at := Search(proc[p].deadline, pss, dl);
      var top, curr := FindTower(p, placement, at, pss, dl);
      DeleteTower(p, top, curr, pss, rem);
      height := maxLevel[p];
      maxLevel[p] := -1;
      queue := Remove(q, p);
      DeleteDone(q, h, dl, p);
      assert maxLevel[..] == h[p := -1];
    }

    /**
      Any fitting sequence of inserts, each with a new deadline, and deletes acts as on a plain sorted
      list, whatever the coins.
     */
    method Session(ops: seq<QueueOp>)
      requires Valid() && Fitting(Timed(queue, Deadlines(proc[..])), ops)
      requires forall k :: 0 <= k < |ops| && ops[k].Add? ==> |ops[k].coin| == LEVELS
      modifies this`order, this`queue, level, maxLevel, proc
      ensures Valid() && Timed(queue, Deadlines(proc[..])) == AfterOps(old(Timed(queue, Deadlines(proc[..]))), ops)
    {
      hide LevelsOk, TowersOk, InsertSorted, Remove, Filter, Deadlines;
      ghost var s := Timed(queue, Deadlines(proc[..]));
      var k := 0;
      assert ops[..0] == [] && AfterOps(s, []) == s;
      hide AfterOps, AfterOp;
      while k < |ops|
        invariant 0 <= k <= |ops| && Valid() && Timed(queue, Deadlines(proc[..])) == AfterOps(s, ops[..k])
      {
        AfterNext(s, ops, k);
        Perform(ops[k]);
        k := k + 1;
      }
      assert ops[..k] == ops;
    }

    method Perform(op: QueueOp)
      requires Valid() && (op.Add? ==> 0 <= op.p < NPROC && op.p !in queue && |op.coin| == LEVELS)
      requires op.Drop? ==> op.p in queue
      modifies this`order, this`queue, level, maxLevel, proc
      ensures Valid() && Timed(queue, Deadlines(proc[..])) == AfterOp(old(Timed(queue, Deadlines(proc[..]))), op)
    {
      hide LevelsOk, TowersOk, InsertSorted, Remove, Filter;
      match op {
        case Add(p, deadline, coin) =>
          ghost var dl := Deadlines(proc[..]);
          SetProc(p, proc[p].(deadline := deadline));
          assert Deadlines(proc[..]) == dl[p := deadline];
          var height := Insert(p, coin);
        case Drop(p) =>
          var height := Delete(p);
      }
    }
  }
}
