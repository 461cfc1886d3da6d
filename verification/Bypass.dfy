/**
  Bounded bypass: how often a runnable process can be passed over.  Every process that enters the
  queue through yield or fork gets a deadline at least one quantum in the future, so once the clock
  is within a quantum of a waiting process's deadline nobody new can get in front of it.
 */
module Bypass {
  import opened ProcTable
  import opened RunQueue
  import opened SchedModel

  /** The largest tick count whose deadlines still fit a 32-bit int for every niceness. */
  const LAST_TICK := 0x7fff_ffff - (NICE_LAST - NICE_FIRST + 1) * QUANTUM

  /** The processes queued before p. */
  ghost function Front(q: seq<int>, p: int): (f: seq<int>)
    ensures f <= q
  {
    if q == [] || q[0] == p then [] else [q[0]] + Front(q[1..], p)
  }

  /** p waits in the queue with deadline d. */
  ghost predicate Waiting(s: Sys, p: int, d: int) {
    Shaped(s) && 0 <= p < NPROC && s.procs[p].state == RUNNABLE && s.procs[p].deadline == d && p in s.queue
  }

  /** How many processes other than the running one are queued before p. */
  ghost function Ahead(s: Sys, p: int): (n: nat)
    requires Shaped(s)
  {
    var f := Front(s.queue, p);
    if HasCurrent(s) && s.cur in f then |f| - 1 else |f|
  }

  /** Ticks that can still be charged to other processes before p runs. */
  ghost function Budget(s: Sys, p: int): (n: int)
    requires Shaped(s)
  {
    QUANTUM * Ahead(s, p) + if HasCurrent(s) then s.procs[s.cur].ticksLeft else 0
  }

  ghost predicate NiceOk(s: Sys) {
    Shaped(s) && forall p :: 0 <= p < NPROC ==> NICE_FIRST <= s.procs[p].nice <= NICE_LAST
  }

  /**
    The runs the bound speaks about: the clock has come within a quantum of d and has not left the
    range of an int, a sleeper that could wake up has a later deadline than d, and a fork publishes
    its process at the tick at which it computed the deadline.
   */
  ghost predicate Calm(s: Sys, e: Event, d: int) {
    && Shaped(s) && d - QUANTUM < s.ticks && 0 <= s.ticks < LAST_TICK
    && (forall p :: 0 <= p < NPROC && s.procs[p].state == SLEEPING ==> s.procs[p].deadline > d)
    && (e.EPublish? && 0 <= e.np < NPROC ==> s.procs[e.np].deadline >= s.ticks + QUANTUM)
  }

  /** Deadlines lie 50 to 2000 ticks ahead of the unsigned clock, exactly as long as the sum fits an int. */
  lemma DeadlineAhead(nice: int, ticks: int)
    requires NICE_FIRST <= nice <= NICE_LAST && 0 <= ticks < 0x1_0000_0000
    ensures ComputeVd(nice, ticks) >= ticks + QUANTUM <==> ticks + (nice - NICE_FIRST + 1) * QUANTUM <= 0x7fff_ffff
    ensures ticks <= LAST_TICK ==>
              ticks + QUANTUM <= ComputeVd(nice, ticks) == ticks + (nice - NICE_FIRST + 1) * QUANTUM <= ticks + 2000
  {
  }

  // ----- what queue operations do to the front -----

  /** A later deadline is inserted behind p. */
  lemma {:induction false} FrontInsert(q: seq<int>, dl: seq<int>, p: int, x: int)
    requires InTable(q, |dl|) && SortedBy(q, dl) && p in q && 0 <= x < |dl| && dl[p] < dl[x] && x != p
    ensures Front(InsertSorted(q, dl, x), p) == Front(q, p)
  {
    if q[0] != p {
      assert dl[q[0]] <= dl[p] by {
        var i :| 0 <= i < |q| && q[i] == p;
        assert dl[q[0]] <= dl[q[i]];
      }
      FrontInsert(q[1..], dl, p, x);
      assert InsertSorted(q, dl, x)[1..] == InsertSorted(q[1..], dl, x);
    }
  }

  lemma {:induction false} FrontRemove(q: seq<int>, p: int, x: int)
    requires x != p
    ensures Front(Remove(q, x), p) == Remove(Front(q, p), x)
  {
    if q != [] {
      FrontRemove(q[1..], p, x);
      if q[0] != p {
        RemoveCons(q[0], Front(q[1..], p), x);
        if q[0] != x { assert Remove(q, x)[1..] == Remove(q[1..], x); }
      } else {
        assert Remove(q, x)[0] == p;
      }
    }
  }

  lemma {:induction false} FrontSubset(q: seq<int>, p: int)
    ensures forall x :: x in Front(q, p) ==> x in q && x != p
    ensures Distinct(q) ==> Distinct(Front(q, p))
  {
    if q != [] && q[0] != p {
      FrontSubset(q[1..], p);
    }
  }

  /** Taking a process out shortens the front by one exactly when it stood there. */
  lemma FrontAfterRemove(q: seq<int>, dl: seq<int>, p: int, x: int)
    requires InTable(q, |dl|) && SortedBy(q, dl) && Distinct(q) && x in q && x != p
    ensures |Front(Remove(q, x), p)| == |Front(q, p)| - if x in Front(q, p) then 1 else 0
    ensures x !in Front(Remove(q, x), p)
  {
    FrontRemove(q, p, x);
    FrontSubset(q, p);
    var f := Front(q, p);
    if x in f {
      var k :| 0 <= k < |f| && f[k] == x;
      RemoveAt(f, x, k);
    } else {
      RemoveAbsent(f, x);
    }
    RemoveGone(f, x);
  }

  /** An equal or earlier deadline is inserted in front of p. */
  lemma {:induction false} FrontInsertBefore(q: seq<int>, dl: seq<int>, p: int, x: int)
    requires InTable(q, |dl|) && p in q && 0 <= x < |dl| && dl[x] <= dl[p] && x != p
    ensures |Front(InsertSorted(q, dl, x), p)| == |Front(q, p)| + 1
    ensures forall y :: y in Front(InsertSorted(q, dl, x), p) <==> y == x || y in Front(q, p)
  {
    var r := InsertSorted(q, dl, x);
    if dl[q[0]] >= dl[x] {
      assert r[1..] == q;
    } else {
      FrontInsertBefore(q[1..], dl, p, x);
      assert r[1..] == InsertSorted(q[1..], dl, x);
    }
  }

  // ----- what critical sections do to the front -----

  ghost predicate SleepersLate(s: Sys, d: int) {
    Shaped(s) && forall q :: 0 <= q < NPROC && s.procs[q].state == SLEEPING ==> s.procs[q].deadline > d
  }

  /** p still stands in the queue, behind the same processes. */
  ghost predicate SameFront(s: Sys, r: Sys, p: int) {
    p in r.queue && Front(r.queue, p) == Front(s.queue, p)
  }

  lemma EnqueueFront(s: Sys, x: int, p: int)
    requires Sorted(s) && 0 <= x < NPROC && x !in s.queue && p in s.queue && s.procs[x].deadline > s.procs[p].deadline
    ensures SameFront(s, Enqueue(s, x), p)
  {
    FrontInsert(s.queue, Deadlines(s.procs), p, x);
    EnqueueOk(s, x);
  }

  lemma {:induction false} WakeFront(s: Sys, chan: int, i: nat, x: int, p: int)
    requires Sorted(s) && Synced(s, x) && i <= NPROC && (0 <= x < NPROC ==> s.procs[x].state != SLEEPING)
    requires p in s.queue && SleepersLate(s, s.procs[p].deadline)
    ensures SameFront(s, WakeFrom(s, chan, i), p)
    decreases NPROC - i
  {
    assert Shaped(s);
    hide Sorted, Synced, SleepersLate, Front, Enqueue;
    if i < NPROC {
      if s.procs[i].state == SLEEPING && s.procs[i].chan == chan {
        WakeOneFront(s, i, x, p);
        WakeFront(Enqueue(SetProc(s, i, s.procs[i].(state := RUNNABLE)), i), chan, i + 1, x, p);
      } else {
        WakeFront(s, chan, i + 1, x, p);
      }
    }
  }

  lemma WakeOneFront(s: Sys, i: nat, x: int, p: int)
    requires Sorted(s) && Synced(s, x) && i < NPROC && (0 <= x < NPROC ==> s.procs[x].state != SLEEPING)
    requires p in s.queue && SleepersLate(s, s.procs[p].deadline) && s.procs[i].state == SLEEPING
    ensures var t := Enqueue(SetProc(s, i, s.procs[i].(state := RUNNABLE)), i);
      && Sorted(t) && Synced(t, x) && SameFront(s, t, p) && SleepersLate(t, t.procs[p].deadline)
      && (0 <= x < NPROC ==> t.procs[x].state != SLEEPING)
  {
    hide Distinct, SortedBy, Front, InsertSorted;
    var rec := s.procs[i].(state := RUNNABLE);
    SetProcSorted(s, i, rec);
    EnqueueOk(SetProc(s, i, rec), i);
    EnqueueFront(SetProc(s, i, rec), i, p);
  }

  lemma {:induction false} ReparentFront(s: Sys, c: int, i: nat, x: int, p: int)
    requires Sorted(s) && Synced(s, x) && i <= NPROC && (0 <= x < NPROC ==> s.procs[x].state != SLEEPING)
    requires p in s.queue && SleepersLate(s, s.procs[p].deadline)
    ensures SameFront(s, Reparent(s, c, i), p)
    decreases NPROC - i
  {
    hide WakeFrom, Front;
    if i < NPROC {
      var s1 := ReparentOne(s, c, i);
      ReparentOneOk(s, c, i, x);
      if s.procs[i].parent == c {
        var rec := s.procs[i].(parent := s.init);
        SetProcSorted(s, i, rec);
        WakeFront(SetProc(s, i, rec), s.init, 0, x, p);
      }
      ReparentFront(s1, c, i + 1, x, p);
      assert Reparent(s, c, i) == Reparent(s1, c, i + 1);
    }
  }

  /** Taking the running process out of the queue uses up neither bound. */
  lemma DequeueFront(s: Sys, p: int)
    requires Inv(s) && HasCurrent(s) && p in s.queue && p != s.cur
    ensures p in Dequeue(s, s.cur).queue && |Front(Dequeue(s, s.cur).queue, p)| == Ahead(s, p)
  {
    FrontAfterRemove(s.queue, Deadlines(s.procs), p, s.cur);
    DequeueOk(s, s.cur);
  }

  // ----- one step -----

  /** What a step leaves of the two bounds. */
  ghost predicate Bounded(s: Sys, r: Sys, p: int, d: int, dispatched: nat, charged: nat)
    requires Shaped(s) && Shaped(r)
  {
    Waiting(r, p, d) && Ahead(r, p) + dispatched <= Ahead(s, p) && Budget(r, p) + charged <= Budget(s, p)
  }

  lemma ExitBounded(s: Sys, p: int, d: int)
    requires Inv(s) && HasCurrent(s) && Waiting(s, p, d) && SleepersLate(s, d)
    ensures Bounded(s, Exit(s), p, d, 0, 1)
  {
    hide WakeFrom, Reparent, Remove, InsertSorted, Distinct, SortedBy, Front;
    var c := s.cur;
    DequeueFront(s, p);
    DequeueOk(s, c);
    var s0 := Dequeue(s, c);
    WakeFront(s0, s.procs[c].parent, 0, c, p);
    WakeFromOk(s0, s.procs[c].parent, 0, c);
    ReparentFront(Wakeup(s0, s.procs[c].parent), c, 0, c, p);
    ExitOk(s);
  }

  lemma YieldBounded(s: Sys, p: int, d: int)
    requires Inv(s) && NiceOk(s) && HasCurrent(s) && Waiting(s, p, d) && d - QUANTUM < s.ticks
    requires 0 <= s.ticks <= LAST_TICK
    ensures Bounded(s, Yield(s), p, d, 0, 1)
  {
    var c := s.cur;
    var s0 := SetProc(s, c, s.procs[c].(state := RUNNABLE));
    SetProcSorted(s, c, s.procs[c].(state := RUNNABLE));
    DequeueFront(s, p);
    DequeueOk(s0, c);
    var s1 := Dequeue(s0, c);
    DeadlineAhead(s1.procs[c].nice, s1.ticks);
    var rec := s1.procs[c].(deadline := ComputeVd(s1.procs[c].nice, s1.ticks));
    SetProcSorted(s1, c, rec);
    EnqueueFront(SetProc(s1, c, rec), c, p);
  }

  lemma SleepBounded(s: Sys, chan: int, p: int, d: int)
    requires Inv(s) && HasCurrent(s) && Waiting(s, p, d)
    ensures Bounded(s, Sleep(s, chan), p, d, 0, 1)
  {
    DequeueFront(s, p);
    SleepOk(s, chan);
  }

  lemma WakeBounded(s: Sys, chan: int, p: int, d: int)
    requires Inv(s) && Waiting(s, p, d) && SleepersLate(s, d)
    ensures Bounded(s, Wakeup(s, chan), p, d, 0, 0)
  {
    WakeFront(s, chan, 0, NULL, p);
    WakeFromOk(s, chan, 0, NULL);
  }

  lemma DispatchBounded(s: Sys, p: int, d: int)
    requires Inv(s) && s.cur == NULL && s.queue != [] && s.queue[0] != p && Waiting(s, p, d)
    ensures Bounded(s, Dispatch(s), p, d, 1, 0)
  {
    assert s.queue[0] == Front(s.queue, p)[0];
    DispatchOk(s);
  }

  lemma ChargeBounded(s: Sys, u: bool, p: int, d: int)
    requires Inv(s) && NiceOk(s) && HasCurrent(s) && Waiting(s, p, d) && SleepersLate(s, d)
    requires d - QUANTUM < s.ticks && 0 <= s.ticks <= LAST_TICK
    ensures Bounded(s, Charge(s, u), p, d, 0, 1)
  {
    hide InsertSorted, Remove, Distinct, SortedBy, Front, Exit, Yield;
    var c := s.cur;
    if s.procs[c].killed && u {
      ExitBounded(s, p, d);
    } else {
      var rec := s.procs[c].(ticksLeft := s.procs[c].ticksLeft - 1);
      var s2 := SetProc(s, c, rec);
      if rec.ticksLeft == 0 {
        YieldDiscards(s);
        YieldBounded(s, p, d);
      }
    }
  }

  /** yield does not look at the ticks left, which only the next dispatch renews. */
  lemma YieldDiscards(s: Sys)
    requires Inv(s) && HasCurrent(s)
    ensures var s2 := SetProc(s, s.cur, s.procs[s.cur].(ticksLeft := 0));
      && Yield(s2).queue == Yield(s).queue && Yield(s2).cur == Yield(s).cur == NULL
      && forall q :: 0 <= q < NPROC && q != s.cur ==> Yield(s2).procs[q] == Yield(s).procs[q]
  {
    var c := s.cur;
    var s2 := SetProc(s, c, s.procs[c].(ticksLeft := 0));
    var vd := ComputeVd(s.procs[c].nice, s.ticks);
    var a := s.procs[c := s.procs[c].(state := RUNNABLE, deadline := vd)];
    var b := s.procs[c := s.procs[c].(state := RUNNABLE, deadline := vd, ticksLeft := 0)];
    assert Deadlines(a) == Deadlines(b);
    assert s.procs[c := s.procs[c].(state := RUNNABLE)][c := s.procs[c].(state := RUNNABLE, deadline := vd)] == a;
    assert s2.procs[c := s2.procs[c].(state := RUNNABLE)][c := s2.procs[c].(state := RUNNABLE, deadline := vd)] == b;
  }

  lemma TimerBounded(s: Sys, u: bool, p: int, d: int)
    requires Inv(s) && NiceOk(s) && Waiting(s, p, d) && SleepersLate(s, d)
    requires d - QUANTUM < s.ticks && 0 <= s.ticks < LAST_TICK
    ensures Bounded(s, Timer(s, u), p, d, 0, if HasCurrent(s) then 1 else 0)
  {
    hide Wakeup, Charge, Front;
    var s0 := s.(ticks := s.ticks + 1);
    assert s0 == s.(ticks := (s.ticks + 1) % 0x1_0000_0000);
    assert Inv(s0);
    WakeBounded(s0, TICKS_CHAN, p, d);
    WakeupOk(s0, TICKS_CHAN);
    var s1 := Wakeup(s0, TICKS_CHAN);
    if HasCurrent(s1) { ChargeBounded(s1, u, p, d); }
  }

  lemma KillBounded(s: Sys, pid: int, p: int, d: int)
    requires Inv(s) && Waiting(s, p, d) && SleepersLate(s, d)
    ensures Bounded(s, Kill(s, pid), p, d, 0, 0)
  {
    var k := First(s.procs, WithPid(pid), 0);
    if k < NPROC && s.procs[k].state == SLEEPING {
      var rec := s.procs[k].(killed := true, state := RUNNABLE);
      SetProcSorted(s, k, rec);
      EnqueueFront(SetProc(s, k, rec), k, p);
    }
  }

  lemma ForkBounded(s: Sys, e: Event, p: int, d: int)
    requires Inv(s) && Enabled(s, e) && Waiting(s, p, d) && Calm(s, e, d)
    requires e.EAlloc? || e.EAbort? || e.EPrepare? || e.EPublish?
    ensures Bounded(s, Apply(s, e), p, d, 0, 0)
  {
    match e
    case EAlloc =>
      var k := First(s.procs, Unused, 0);
      if k < NPROC { assert Wanted(Unused, s.procs[k]); }
    case EAbort(np) =>
    case EPrepare(np, nice) =>
    case EPublish(np) => PublishBounded(s, np, p, d);
  }

  lemma PublishBounded(s: Sys, np: int, p: int, d: int)
    requires Inv(s) && 0 <= np < NPROC && s.procs[np].state == EMBRYO && Waiting(s, p, d) && s.procs[np].deadline > d
    ensures Bounded(s, Publish(s, np), p, d, 0, 0)
  {
    hide InsertSorted, Distinct, SortedBy;
    var rec := s.procs[np].(state := RUNNABLE);
    SetProcSorted(s, np, rec);
    EnqueueFront(SetProc(s, np, rec), np, p);
  }

  /**
    Exactly when a fork overtakes: the published process gets in front of p if and only if the
    deadline it computed before it took the lock is not later than p's.
   */
  lemma PublishOvertakes(s: Sys, np: int, p: int, d: int)
    requires Inv(s) && 0 <= np < NPROC && s.procs[np].state == EMBRYO && Waiting(s, p, d)
    ensures Ahead(Publish(s, np), p) == Ahead(s, p) + if s.procs[np].deadline <= d then 1 else 0
  {
    hide SortedBy, Distinct, InsertSorted;
    var rec := s.procs[np].(state := RUNNABLE);
    SetProcSorted(s, np, rec);
    if rec.deadline > d {
      EnqueueFront(SetProc(s, np, rec), np, p);
    } else {
      FrontInsertBefore(s.queue, Deadlines(SetProc(s, np, rec).procs), p, np);
      FrontSubset(s.queue, p);
    }
  }

  /** Without sleepers wakeup does nothing. */
  lemma {:induction false} WakeNobody(s: Sys, chan: int, i: nat)
    requires Shaped(s) && i <= NPROC && forall p :: 0 <= p < NPROC ==> s.procs[p].state != SLEEPING
    ensures WakeFrom(s, chan, i) == s
    decreases NPROC - i
  {
    if i < NPROC { WakeNobody(s, chan, i + 1); }
  }

  /** Process 0 runs, process 1 waits with deadline 50 and slot 2 is being forked. */
  ghost function Scene(ticks: int, left: int, nice: int, deadline: int): (s: Sys)
    ensures Shaped(s)
  {
    Sys(Cast(left, nice, deadline), [0, 1], 0, ticks, 4, 0)
  }

  ghost function Cast(left: int, nice: int, deadline: int): (ps: seq<Proc>)
    ensures |ps| == NPROC && ps[0] == Proc(RUNNING, 1, NULL, NULL, false, 10, 0, left)
    ensures ps[1] == Proc(RUNNABLE, 2, 0, NULL, false, 50, 0, 0)
    ensures ps[2] == Proc(EMBRYO, 3, 0, NULL, false, deadline, nice, 0)
    ensures forall i :: 3 <= i < NPROC ==> ps[i] == Proc(UNUSED, 0, NULL, NULL, false, 0, 0, 0)
  {
    seq(NPROC, i => if i == 0 then Proc(RUNNING, 1, NULL, NULL, false, 10, 0, left)
                    else if i == 1 then Proc(RUNNABLE, 2, 0, NULL, false, 50, 0, 0)
                    else if i == 2 then Proc(EMBRYO, 3, 0, NULL, false, deadline, nice, 0)
                    else Proc(UNUSED, 0, NULL, NULL, false, 0, 0, 0))
  }

  lemma SceneOk(ticks: int, left: int, nice: int, deadline: int)
    requires 1 <= left <= QUANTUM && NICE_FIRST <= nice <= NICE_LAST
    ensures Inv(Scene(ticks, left, nice, deadline)) && NiceOk(Scene(ticks, left, nice, deadline))
    ensures HasCurrent(Scene(ticks, left, nice, deadline)) && Waiting(Scene(ticks, left, nice, deadline), 1, 50)
  {
    var s := Scene(ticks, left, nice, deadline);
    assert s.queue[0] == 0 && s.queue[1] == 1;
    assert Sorted(s) && Synced(s, NULL) && CurrentOk(s);
  }

  lemma ScenePrepare()
    ensures Enabled(Scene(0, QUANTUM, 0, 0), EPrepare(2, NICE_FIRST))
    ensures Apply(Scene(0, QUANTUM, 0, 0), EPrepare(2, NICE_FIRST)) == Scene(0, QUANTUM, NICE_FIRST, 50)
  {
    assert ComputeVd(NICE_FIRST, 0) == 50;
    hide Cast, Inv, NiceOk, Waiting, ComputeVd;
    SceneOk(0, QUANTUM, 0, 0);
    var s, t := Scene(0, QUANTUM, 0, 0), Scene(0, QUANTUM, NICE_FIRST, 50);
    assert s.procs[2 := s.procs[2].(parent := 0, nice := NICE_FIRST, deadline := 50)] == t.procs;
  }

  lemma SceneTick()
    ensures Enabled(Scene(0, QUANTUM, NICE_FIRST, 50), ETimer(false))
    ensures Apply(Scene(0, QUANTUM, NICE_FIRST, 50), ETimer(false)) == Scene(1, QUANTUM - 1, NICE_FIRST, 50)
  {
    hide Cast, Inv, Exit, Yield, WakeFrom, NiceOk, Waiting;
    SceneOk(0, QUANTUM, NICE_FIRST, 50);
    SceneOk(1, QUANTUM, NICE_FIRST, 50);
    var s, t := Scene(1, QUANTUM, NICE_FIRST, 50), Scene(1, QUANTUM - 1, NICE_FIRST, 50);
    WakeNobody(s, TICKS_CHAN, 0);
    assert s.procs[0 := s.procs[0].(ticksLeft := QUANTUM - 1)] == t.procs;
    assert Charge(s, false) == t;
  }

  lemma SceneLast()
    ensures var s := Scene(1, QUANTUM - 1, NICE_FIRST, 50);
      s.procs[2].state == EMBRYO && s.procs[2].deadline == 50 && s.ticks == 1 && Enabled(s, EPublish(2))
  {
    hide Cast;
  }

  /**
    A run in which a process gets in front of a waiting one although the clock has come within a
    quantum of the latter's deadline: the fork computes its deadline, the timer ticks, and then the
    new process is published.
   */
  lemma OvertakingRun() returns (ss: seq<Sys>, es: seq<Event>)
    ensures IsRun(ss, es) && Inv(ss[0]) && NiceOk(ss[0]) && es == [EPrepare(2, NICE_FIRST), ETimer(false), EPublish(2)]
    ensures Waiting(ss[2], 1, 50) && ss[2].ticks > 50 - QUANTUM && Ahead(ss[3], 1) == Ahead(ss[2], 1) + 1
  {
    hide Cast, Inv, NiceOk, Waiting, Ahead, Enabled;
    SceneOk(0, QUANTUM, 0, 0);
    SceneOk(1, QUANTUM - 1, NICE_FIRST, 50);
    ScenePrepare();
    SceneTick();
    SceneLast();
    var s2 := Scene(1, QUANTUM - 1, NICE_FIRST, 50);
    PublishOvertakes(s2, 2, 1, 50);
    hide Scene;
    es := [EPrepare(2, NICE_FIRST), ETimer(false), EPublish(2)];
    ss := [Scene(0, QUANTUM, 0, 0), Scene(0, QUANTUM, NICE_FIRST, 50), s2, Publish(s2, 2)];
    assert Apply(s2, es[2]) == Publish(s2, 2);
    hide Apply, Publish;
  }

  lemma WaitBounded(s: Sys, p: int, d: int)
    requires Inv(s) && HasCurrent(s) && Waiting(s, p, d)
    ensures Bounded(s, Wait(s), p, d, 0, 0)
  {
    var k := First(s.procs, ZombieChildOf(s.cur), 0);
    if k < NPROC { assert Wanted(ZombieChildOf(s.cur), s.procs[k]); } else { SleepBounded(s, s.cur, p, d); }
  }

  /** Whether the event hands the processor to a process, and whether it charges a tick to one. */
  ghost function Dispatched(e: Event): nat {
    if e.EDispatch? then 1 else 0
  }

  ghost function Charged(s: Sys, e: Event): nat {
    if e.ETimer? && HasCurrent(s) then 1 else 0
  }

  lemma StepBounded(s: Sys, e: Event, p: int, d: int)
    requires Inv(s) && NiceOk(s) && Enabled(s, e) && Waiting(s, p, d) && Calm(s, e, d)
    requires e.EDispatch? ==> s.queue[0] != p
    ensures Bounded(s, Apply(s, e), p, d, Dispatched(e), Charged(s, e))
  {
    match e
    case EAlloc => ForkBounded(s, e, p, d);
    case EAbort(np) => ForkBounded(s, e, p, d);
    case EPrepare(np, nice) => ForkBounded(s, e, p, d);
    case EPublish(np) => ForkBounded(s, e, p, d);
    case EExit => ExitBounded(s, p, d);
    case ESched =>
    case EWait => WaitBounded(s, p, d);
    case ESleep(chan) => SleepBounded(s, chan, p, d);
    case EWakeup(chan) => WakeBounded(s, chan, p, d);
    case EKill(pid) => KillBounded(s, pid, p, d);
    case EYield => YieldBounded(s, p, d);
    case EDispatch => DispatchBounded(s, p, d);
    case ETimer(u) => TimerBounded(s, u, p, d);
  }

  lemma TimerNice(s: Sys, u: bool)
    requires Inv(s) && NiceOk(s)
    ensures NiceOk(Timer(s, u))
  {
    hide InsertSorted, Remove, WakeFrom, Reparent, SortedBy, Distinct;
    var s0 := s.(ticks := (s.ticks + 1) % 0x1_0000_0000);
    WakeupOk(s0, TICKS_CHAN);
    if HasCurrent(Wakeup(s0, TICKS_CHAN)) { ExitOk(Wakeup(s0, TICKS_CHAN)); }
  }

  /** Niceness stays in range: only fork sets it, and fork checks it. */
  lemma StepNice(s: Sys, e: Event)
    requires Inv(s) && NiceOk(s) && Enabled(s, e)
    ensures NiceOk(Apply(s, e))
  {
    hide InsertSorted, Remove, WakeFrom, Reparent, SortedBy, Distinct;
    match e
    case EExit => ExitOk(s);
    case EWakeup(chan) => WakeupOk(s, chan);
    case ETimer(u) => TimerNice(s, u);
    case _ =>
  }

  // ----- whole runs -----

  ghost function Dispatches(es: seq<Event>): nat {
    if es == [] then 0 else Dispatches(es[..|es|-1]) + Dispatched(es[|es|-1])
  }

  ghost function Charges(ss: seq<Sys>, es: seq<Event>): nat
    requires |ss| >= |es|
  {
    if es == [] then 0 else Charges(ss, es[..|es|-1]) + Charged(ss[|es|-1], es[|es|-1])
  }

  /**
    In every run, as long as p has not been dispatched, the others together are dispatched at most
    once for each process then ahead of p, and are charged at most a quantum for each of them plus
    what the running process had left.
   */
  lemma {:induction false} BoundedBypass(ss: seq<Sys>, es: seq<Event>, p: int, d: int)
    requires IsRun(ss, es) && Inv(ss[0]) && NiceOk(ss[0]) && Waiting(ss[0], p, d)
    requires forall i :: 0 <= i < |es| ==> Calm(ss[i], es[i], d)
    requires forall i :: 0 <= i < |es| && es[i].EDispatch? ==> ss[i].queue != [] && ss[i].queue[0] != p
    ensures Inv(ss[|es|]) && NiceOk(ss[|es|]) && Waiting(ss[|es|], p, d)
    ensures Dispatches(es) + Ahead(ss[|es|], p) <= Ahead(ss[0], p)
    ensures Charges(ss, es) + Budget(ss[|es|], p) <= Budget(ss[0], p)
    decreases |es|
  {
    hide Inv, NiceOk, Waiting, Calm, Ahead, Budget, Apply, Enabled, Dispatched, Charged, Shaped;
    if es != [] {
      var n := |es| - 1;
      BoundedBypass(ss[..n+1], es[..n], p, d);
      assert ss[..n+1][n] == ss[n];
      ChargesPrefix(ss, ss[..n+1], es[..n]);
      BypassStep(ss[n], es[n], p, d);
      assert ss[n+1] == Apply(ss[n], es[n]);
    }
  }

  lemma BypassStep(s: Sys, e: Event, p: int, d: int)
    requires Inv(s) && NiceOk(s) && Enabled(s, e) && Waiting(s, p, d) && Calm(s, e, d)
    requires e.EDispatch? ==> s.queue[0] != p
    ensures Inv(Apply(s, e)) && NiceOk(Apply(s, e)) && Waiting(Apply(s, e), p, d)
    ensures Dispatched(e) + Ahead(Apply(s, e), p) <= Ahead(s, p)
    ensures Charged(s, e) + Budget(Apply(s, e), p) <= Budget(s, p)
  {
    StepBounded(s, e, p, d);
    hide Waiting, Ahead, Budget, Dispatched, Charged, Calm;
    StepOk(s, e);
    StepNice(s, e);
    hide Inv, NiceOk, Apply, Enabled;
  }

  lemma {:induction false} ChargesPrefix(ss: seq<Sys>, tt: seq<Sys>, es: seq<Event>)
    requires |tt| >= |es| && tt <= ss
    ensures Charges(ss, es) == Charges(tt, es)
  {
    if es != [] { ChargesPrefix(ss, tt, es[..|es|-1]); }
  }
}
