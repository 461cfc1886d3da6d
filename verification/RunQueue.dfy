/**
  The run queue as a plain sorted list of process slots.  This is the reference that the skip
  list of proc.c is proved to implement: no levels, no links, no random tower heights.
 */
module RunQueue {
  import opened Params

  /** No element occurs twice. */
  ghost predicate Distinct<T>(q: seq<T>) {
    forall i, j :: 0 <= i < j < |q| ==> q[i] != q[j]
  }

  /** Every element is a slot of a process table of size n. */
  ghost predicate InTable(q: seq<int>, n: nat) {
    forall i :: 0 <= i < |q| ==> 0 <= q[i] < n
  }

  /** Deadlines never decrease from front to back. */
  ghost predicate SortedBy(q: seq<int>, dl: seq<int>)
    requires InTable(q, |dl|)
  {
    forall i, j :: 0 <= i < j < |q| ==> dl[q[i]] <= dl[q[j]]
  }

  /** Put p in front of the first queued process whose deadline is not smaller than p's. */
  ghost function InsertSorted(q: seq<int>, dl: seq<int>, p: int): (r: seq<int>)
    requires InTable(q, |dl|) && 0 <= p < |dl|
    ensures |r| == |q| + 1 && InTable(r, |dl|)
  {
    if q == [] || dl[q[0]] >= dl[p] then [p] + q else [q[0]] + InsertSorted(q[1..], dl, p)
  }

  /** Drop p, leaving the order of the others alone. */
  ghost function Remove(q: seq<int>, p: int): (r: seq<int>)
    ensures |r| <= |q|
  {
    if q == [] then [] else if q[0] == p then Remove(q[1..], p) else [q[0]] + Remove(q[1..], p)
  }

  /** The part of the queue whose towers reach above level l. */
  ghost function Filter(q: seq<int>, h: seq<int>, l: int): (r: seq<int>)
    requires InTable(q, |h|)
    ensures |r| <= |q| && InTable(r, |h|)
  {
    if q == [] then []
    else if h[q[0]] > l then [q[0]] + Filter(q[1..], h, l)
    else Filter(q[1..], h, l)
  }

  /** q with x put in at index k. */
  ghost function InsertAt<T(!new)>(q: seq<T>, k: nat, x: T): (r: seq<T>)
    requires k <= |q|
    ensures |r| == |q| + 1
    ensures forall i :: 0 <= i < |r| ==> r[i] == if i < k then q[i] else if i == k then x else q[i-1]
    ensures forall y :: y in r <==> y == x || y in q
  {
    assert q == q[..k] + q[k..];
    q[..k] + [x] + q[k..]
  }

  /** q with the element at index k cut out. */
  ghost function CutAt<T(!new)>(q: seq<T>, k: nat): (r: seq<T>)
    requires k < |q|
    ensures |r| == |q| - 1
    ensures forall i :: 0 <= i < |r| ==> r[i] == if i < k then q[i] else q[i+1]
    ensures forall y :: y in q <==> y == q[k] || y in r
  {
    assert q == q[..k] + [q[k]] + q[k+1..];
    q[..k] + q[k+1..]
  }

  lemma InsertDistinct<T(!new)>(q: seq<T>, k: nat, x: T)
    requires Distinct(q) && x !in q && k <= |q|
    ensures Distinct(InsertAt(q, k, x))
  {
    var r := InsertAt(q, k, x);
    forall i, j | 0 <= i < j < |r| ensures r[i] != r[j] { }
  }

  lemma CutDistinct<T(!new)>(q: seq<T>, k: nat)
    requires Distinct(q) && k < |q|
    ensures Distinct(CutAt(q, k)) && q[k] !in CutAt(q, k)
  {
    var r := CutAt(q, k);
    forall i, j | 0 <= i < j < |r| ensures r[i] != r[j] { }
  }

  // ----- insertion -----

  /** Inserting at the one index that separates smaller from not-smaller deadlines. */
  lemma {:induction false} InsertSortedAt(q: seq<int>, dl: seq<int>, p: int, k: nat)
    requires InTable(q, |dl|) && 0 <= p < |dl| && k <= |q|
    requires forall i :: 0 <= i < k ==> dl[q[i]] < dl[p]
    requires forall i :: k <= i < |q| ==> dl[q[i]] >= dl[p]
    ensures InsertSorted(q, dl, p) == InsertAt(q, k, p)
  {
    if k == 0 {
      assert InsertAt(q, k, p) == [p] + q;
    } else {
      assert dl[q[0]] < dl[p];
      InsertSortedAt(q[1..], dl, p, k - 1);
      assert InsertAt(q, k, p) == [q[0]] + InsertAt(q[1..], k - 1, p);
    }
  }

  /** The insertion index of a deadline in a sorted queue. */
  lemma {:induction false} InsertIndex(q: seq<int>, dl: seq<int>, d: int) returns (k: nat)
    requires InTable(q, |dl|) && SortedBy(q, dl)
    ensures k <= |q|
    ensures forall i :: 0 <= i < k ==> dl[q[i]] < d
    ensures forall i :: k <= i < |q| ==> dl[q[i]] >= d
  {
    k := 0;
    while k < |q| && dl[q[k]] < d
      invariant k <= |q|
      invariant forall i :: 0 <= i < k ==> dl[q[i]] < d
    {
      k := k + 1;
    }
  }

  /**
    What insertion means: the new process stands after everything with an earlier deadline and
    before everything with an equal or later one, the order of the others is kept, and the result
    is still sorted and free of repetitions.
   */
  lemma {:induction false} InsertSortedMeaning(q: seq<int>, dl: seq<int>, p: int) returns (k: nat)
    requires InTable(q, |dl|) && 0 <= p < |dl| && SortedBy(q, dl) && Distinct(q) && p !in q
    ensures k <= |q| && InsertSorted(q, dl, p) == InsertAt(q, k, p)
    ensures forall i :: 0 <= i < k ==> dl[q[i]] < dl[p]
    ensures forall i :: k <= i < |q| ==> dl[q[i]] >= dl[p]
    ensures SortedBy(InsertAt(q, k, p), dl) && Distinct(InsertAt(q, k, p))
  {
    k := InsertIndex(q, dl, dl[p]);
    InsertSortedAt(q, dl, p, k);
    var r := InsertAt(q, k, p);
    InsertDistinct(q, k, p);
    assert SortedBy(r, dl) by {
      forall i, j | 0 <= i < j < |r| ensures dl[r[i]] <= dl[r[j]] { }
    }
  }

  // ----- removal -----

  lemma {:induction false} RemoveAbsent(q: seq<int>, p: int)
    requires p !in q
    ensures Remove(q, p) == q
  {
    if q != [] {
      RemoveAbsent(q[1..], p);
    }
  }

  lemma {:induction false} RemoveGone(q: seq<int>, p: int)
    ensures p !in Remove(q, p)
  {
    if q != [] {
      RemoveGone(q[1..], p);
    }
  }

  /** Removal of a process that occurs once cuts out exactly its position. */
  lemma {:induction false} RemoveAt(q: seq<int>, p: int, k: nat)
    requires Distinct(q) && k < |q| && q[k] == p
    ensures Remove(q, p) == CutAt(q, k)
  {
    if k == 0 {
      RemoveAbsent(q[1..], p);
      assert CutAt(q, k) == q[1..];
    } else {
      RemoveAt(q[1..], p, k - 1);
      assert CutAt(q, k) == [q[0]] + CutAt(q[1..], k - 1);
    }
  }

  /** What removal means: exactly p's position is cut out; sortedness and distinctness survive. */
  lemma {:induction false} RemoveMeaning(q: seq<int>, dl: seq<int>, p: int) returns (k: nat)
    requires InTable(q, |dl|) && SortedBy(q, dl) && Distinct(q) && p in q
    ensures k < |q| && q[k] == p && Remove(q, p) == CutAt(q, k)
    ensures InTable(CutAt(q, k), |dl|) && SortedBy(CutAt(q, k), dl) && Distinct(CutAt(q, k))
    ensures p !in CutAt(q, k)
  {
    k :| 0 <= k < |q| && q[k] == p;
    RemoveAt(q, p, k);
    var r := CutAt(q, k);
    CutDistinct(q, k);
    assert SortedBy(r, dl) by {
      forall i, j | 0 <= i < j < |r| ensures dl[r[i]] <= dl[r[j]] { }
    }
  }

  /** Removing a process that was just inserted gives back the old queue. */
  lemma {:induction false} RemoveInserted(q: seq<int>, dl: seq<int>, p: int)
    requires InTable(q, |dl|) && 0 <= p < |dl| && SortedBy(q, dl) && Distinct(q) && p !in q
    ensures Remove(InsertSorted(q, dl, p), p) == q
  {
    var k := InsertSortedMeaning(q, dl, p);
    var r := InsertAt(q, k, p);
    RemoveAt(r, p, k);
    assert CutAt(r, k) == q;
  }

  // ----- filtering by tower height -----

  /** Filtering only looks at the heights of queued processes. */
  lemma {:induction false} FilterFrame(q: seq<int>, h: seq<int>, h': seq<int>, l: int)
    requires InTable(q, |h|) && |h'| == |h|
    requires forall x :: x in q ==> (h[x] > l <==> h'[x] > l)
    ensures Filter(q, h, l) == Filter(q, h', l)
  {
    if q != [] {
      FilterFrame(q[1..], h, h', l);
    }
  }

  /** A queue in which every tower is tall enough is not filtered at all. */
  lemma {:induction false} FilterAll(q: seq<int>, h: seq<int>, l: int)
    requires InTable(q, |h|) && forall x :: x in q ==> h[x] > l
    ensures Filter(q, h, l) == q
  {
    if q != [] {
      FilterAll(q[1..], h, l);
    }
  }

  /** Filtering keeps distinctness and sortedness, so each level is a sorted subsequence. */
  lemma {:induction false} FilterKeeps(q: seq<int>, h: seq<int>, dl: seq<int>, l: int)
    requires InTable(q, |h|) && |dl| == |h| && Distinct(q) && SortedBy(q, dl)
    ensures Distinct(Filter(q, h, l)) && SortedBy(Filter(q, h, l), dl)
  {
    if q != [] {
      FilterKeeps(q[1..], h, dl, l);
      FilterMember(q[1..], h, l);
      assert forall x :: x in q[1..] ==> dl[q[0]] <= dl[x] && x != q[0];
    }
  }

  /** Each level is the filtering of the level below it: levels nest as subsequences. */
  lemma {:induction false} FilterNested(q: seq<int>, h: seq<int>, l: int)
    requires InTable(q, |h|)
    ensures Filter(q, h, l + 1) == Filter(Filter(q, h, l), h, l + 1)
  {
    if q != [] {
      var rest := Filter(q[1..], h, l);
      FilterNested(q[1..], h, l);
      if h[q[0]] > l {
        assert ([q[0]] + rest)[1..] == rest;
      } else {
        assert Filter(q, h, l) == rest;
      }
    }
  }

  /** Inserting and then looking at one level is inserting into that level. */
  lemma {:induction false} FilterInsert(q: seq<int>, dl: seq<int>, h: seq<int>, p: int, l: int)
    requires InTable(q, |h|) && |dl| == |h| && SortedBy(q, dl) && 0 <= p < |h|
    ensures Filter(InsertSorted(q, dl, p), h, l)
         == if h[p] > l then InsertSorted(Filter(q, h, l), dl, p) else Filter(q, h, l)
  {
    if q == [] || dl[q[0]] >= dl[p] {
      FilterCons(p, q, h, l);
      FilterFirst(q, h, dl, l);
    } else {
      FilterInsert(q[1..], dl, h, p, l);
      FilterCons(q[0], InsertSorted(q[1..], dl, p), h, l);
      if h[q[0]] > l {
        InsertCons(q[0], Filter(q[1..], h, l), dl, p);
      }
    }
  }

  lemma FilterFirst(q: seq<int>, h: seq<int>, dl: seq<int>, l: int)
    requires InTable(q, |h|) && |dl| == |h| && SortedBy(q, dl)
    ensures Filter(q, h, l) != [] ==> dl[Filter(q, h, l)[0]] >= dl[q[0]]
  {
    FilterMember(q, h, l);
    var f := Filter(q, h, l);
    if f != [] { assert f[0] in q; }
  }

  lemma FilterCons(x: int, q: seq<int>, h: seq<int>, l: int)
    requires 0 <= x < |h| && InTable(q, |h|)
    ensures InTable([x] + q, |h|)
    ensures Filter([x] + q, h, l) == if h[x] > l then [x] + Filter(q, h, l) else Filter(q, h, l)
  {
    assert ([x] + q)[1..] == q;
  }

  lemma InsertCons(x: int, q: seq<int>, dl: seq<int>, p: int)
    requires 0 <= x < |dl| && InTable(q, |dl|) && 0 <= p < |dl| && dl[x] < dl[p]
    ensures InTable([x] + q, |dl|)
    ensures InsertSorted([x] + q, dl, p) == [x] + InsertSorted(q, dl, p)
  {
    assert ([x] + q)[1..] == q;
  }

  lemma RemoveCons(x: int, q: seq<int>, p: int)
    ensures Remove([x] + q, p) == if x == p then Remove(q, p) else [x] + Remove(q, p)
  {
    assert ([x] + q)[1..] == q;
  }

  /** Removing and then looking at one level is removing from that level. */
  lemma {:induction false} FilterRemove(q: seq<int>, h: seq<int>, p: int, l: int)
    requires InTable(q, |h|)
    ensures InTable(Remove(q, p), |h|)
    ensures Filter(Remove(q, p), h, l) == Remove(Filter(q, h, l), p)
  {
    if q != [] {
      FilterRemove(q[1..], h, p, l);
      if q[0] != p { FilterCons(q[0], Remove(q[1..], p), h, l); }
      if h[q[0]] > l { RemoveCons(q[0], Filter(q[1..], h, l), p); }
    }
  }

  lemma {:induction false} FilterMember(q: seq<int>, h: seq<int>, l: int)
    requires InTable(q, |h|)
    ensures forall x :: x in Filter(q, h, l) <==> x in q && h[x] > l
  {
    if q != [] {
      FilterMember(q[1..], h, l);
    }
  }

  // ----- counting -----

  ghost function Slots(n: nat): (s: set<int>)
    ensures |s| == n && forall x :: x in s <==> 0 <= x < n
  {
    if n == 0 then {} else Slots(n - 1) + {n - 1}
  }

  ghost function Elements(q: seq<int>): (s: set<int>)
    ensures forall x :: x in s <==> x in q
    ensures Distinct(q) ==> |s| == |q|
  {
    if q == [] then {} else {q[0]} + Elements(q[1..])
  }

  /** A repetition-free list of slots is no longer than the table, and shorter if it misses a slot. */
  lemma {:induction false} DistinctBound(q: seq<int>, n: nat)
    requires Distinct(q) && InTable(q, n)
    ensures |q| <= n
    ensures |q| == n ==> forall x :: 0 <= x < n ==> x in q
  {
    SubsetSize(Elements(q), Slots(n));
    if |q| == n {
      forall x | 0 <= x < n ensures x in q { assert x in Slots(n); }
    }
  }

  // ----- runs -----

  /** An insert of a process with its new deadline and the coin flips it will see, or a delete. */
  datatype QueueOp = Add(p: int, deadline: int, coin: seq<bool>) | Drop(p: int)

  /** The queue and the deadlines of all processes. */
  datatype Timed = Timed(q: seq<int>, dl: seq<int>)

  ghost function AfterOp(s: Timed, op: QueueOp): (r: Timed)
    requires InTable(s.q, |s.dl|)
    ensures |r.dl| == |s.dl| && InTable(r.q, |r.dl|)
  {
    match op
    case Add(p, deadline, _) =>
      if 0 <= p < |s.dl| then Timed(InsertSorted(s.q, s.dl[p := deadline], p), s.dl[p := deadline]) else s
    case Drop(p) => FilterRemove(s.q, s.dl, p, 0); Timed(Remove(s.q, p), s.dl)
  }

  /** The plain sorted list after a sequence of inserts and deletes; coins play no part. */
  ghost function AfterOps(s: Timed, ops: seq<QueueOp>): (r: Timed)
    requires InTable(s.q, |s.dl|)
    ensures |r.dl| == |s.dl| && InTable(r.q, |r.dl|)
  {
    if ops == [] then s else AfterOp(AfterOps(s, ops[..|ops| - 1]), ops[|ops| - 1])
  }

  /** Only absent processes are inserted and only present ones deleted. */
  ghost predicate Fitting(s: Timed, ops: seq<QueueOp>)
    requires InTable(s.q, |s.dl|)
  {
    forall k :: 0 <= k < |ops| ==>
      match ops[k]
      case Add(p, _, _) => 0 <= p < |s.dl| && p !in AfterOps(s, ops[..k]).q
      case Drop(p) => p in AfterOps(s, ops[..k]).q
  }

  lemma AfterNext(s: Timed, ops: seq<QueueOp>, k: nat)
    requires InTable(s.q, |s.dl|) && k < |ops|
    ensures AfterOps(s, ops[..k + 1]) == AfterOp(AfterOps(s, ops[..k]), ops[k])
  {
    assert ops[..k + 1][..k] == ops[..k];
  }
}
