/**
  What each critical section of the scheduler does, stated on the records of the process table and on
  positions in the queue, and a law between two of them: a sleeper is woken by the wakeup on its channel,
  whatever happens in between.
 */
module SchedEffects {
  import opened ProcTable
  import opened RunQueue
  import opened SchedModel

  // ----- the queue -----

  /** r is q without p. */
  ghost predicate Left(q: seq<int>, r: seq<int>, p: int) {
    exists k :: 0 <= k < |q| && q[k] == p && r == q[..k] + q[k+1..]
  }

  /** r is q with p behind all earlier deadlines and before all others. */
  ghost predicate Joined(q: seq<int>, r: seq<int>, p: int, dl: seq<int>) {
    exists k :: 0 <= k <= |q| && r == q[..k] + [p] + q[k..] && Divides(q, k, p, dl)
  }

  ghost predicate Divides(q: seq<int>, k: nat, p: int, dl: seq<int>) {
    && InTable(q, |dl|) && 0 <= p < |dl| && k <= |q|
    && (forall i :: 0 <= i < k ==> dl[q[i]] < dl[p]) && (forall i :: k <= i < |q| ==> dl[q[i]] >= dl[p])
  }

  lemma DequeueLeft(s: Sys, p: int)
    requires Sorted(s) && p in s.queue
    ensures Left(s.queue, Dequeue(s, p).queue, p)
  {
    var k := RemoveMeaning(s.queue, Deadlines(s.procs), p);
    assert s.queue[k] == p && Remove(s.queue, p) == s.queue[..k] + s.queue[k+1..];
  }

  lemma EnqueueJoined(s: Sys, p: int)
    requires Sorted(s) && 0 <= p < NPROC && p !in s.queue
    ensures Joined(s.queue, Enqueue(s, p).queue, p, Deadlines(s.procs))
  {
    var k := InsertSortedMeaning(s.queue, Deadlines(s.procs), p);
    assert Divides(s.queue, k, p, Deadlines(s.procs));
  }

  // ----- scans of the table -----

  /** Slot k is the first that answers the query. */
  ghost predicate Least(procs: seq<Proc>, q: Query, k: int) {
    0 <= k < |procs| && Wanted(q, procs[k]) && forall j :: 0 <= j < k ==> !Wanted(q, procs[j])
  }

  ghost predicate NoneOf(procs: seq<Proc>, q: Query) {
    forall j :: 0 <= j < |procs| ==> !Wanted(q, procs[j])
  }

  lemma FirstIsLeast(procs: seq<Proc>, q: Query)
    ensures First(procs, q, 0) < |procs| ==> Least(procs, q, First(procs, q, 0))
    ensures First(procs, q, 0) == |procs| ==> NoneOf(procs, q)
    ensures forall k :: Least(procs, q, k) ==> k == First(procs, q, 0)
    ensures NoneOf(procs, q) ==> First(procs, q, 0) == |procs|
  {
  }

  // ----- sleeping and waiting -----

  /** The running process sleeps on chan and has left the queue; nothing else changes. */
  ghost predicate Slept(s: Sys, r: Sys, chan: int)
    requires HasCurrent(s)
  {
    && r == s.(cur := NULL, queue := r.queue,
               procs := s.procs[s.cur := s.procs[s.cur].(chan := chan, state := SLEEPING)])
    && Left(s.queue, r.queue, s.cur)
  }

  lemma SleepEffect(s: Sys, chan: int)
    requires Inv(s) && HasCurrent(s)
    ensures Slept(s, Sleep(s, chan), chan) && s.cur !in Sleep(s, chan).queue
  {
    DequeueOk(s, s.cur);
    DequeueLeft(s, s.cur);
  }

  /**
    wait: the first zombie child, if there is one, is given back; without children or when killed it
    fails and changes nothing; otherwise the caller sleeps on its own channel.
   */
  ghost predicate Waited(s: Sys, r: Sys)
    requires HasCurrent(s)
  {
    && (forall k :: Least(s.procs, ZombieChildOf(s.cur), k) ==>
          r == s.(procs := s.procs[k := s.procs[k].(pid := 0, parent := NULL, killed := false, state := UNUSED)]))
    && (NoneOf(s.procs, ZombieChildOf(s.cur)) ==>
          if NoneOf(s.procs, ChildOf(s.cur)) || s.procs[s.cur].killed then r == s else Slept(s, r, s.cur))
  }

  lemma WaitEffect(s: Sys)
    requires Inv(s) && HasCurrent(s)
    ensures Waited(s, Wait(s))
  {
    hide First, Left;
    FirstIsLeast(s.procs, ZombieChildOf(s.cur));
    FirstIsLeast(s.procs, ChildOf(s.cur));
    SleepEffect(s, s.cur);
    hide Slept, Sleep, Inv;
  }

  // ----- kill, fork and dispatch -----

  /** The record of p becomes rec, and p joins the queue. */
  ghost predicate Roused(s: Sys, r: Sys, p: int, rec: Proc)
    requires Shaped(s) && 0 <= p < NPROC
  {
    && r == s.(queue := r.queue, procs := s.procs[p := rec])
    && Joined(s.queue, r.queue, p, Deadlines(s.procs[p := rec]))
  }

  lemma RousedOk(s: Sys, p: int, rec: Proc)
    requires Inv(s) && 0 <= p < NPROC && !Active(s.procs[p].state)
    ensures Roused(s, Enqueue(SetProc(s, p, rec), p), p, rec)
  {
    assert p !in s.queue;
    SetProcSorted(s, p, rec);
    EnqueueJoined(SetProc(s, p, rec), p);
  }

  /** kill: the first process with the pid is marked, and woken if it sleeps; without one nothing changes. */
  ghost predicate Killed(s: Sys, r: Sys, pid: int)
    requires Shaped(s)
  {
    && (NoneOf(s.procs, WithPid(pid)) ==> r == s)
    && forall k :: Least(s.procs, WithPid(pid), k) ==>
         var rec := s.procs[k].(killed := true);
         if s.procs[k].state == SLEEPING then Roused(s, r, k, rec.(state := RUNNABLE))
         else r == s.(procs := s.procs[k := rec])
  }

  lemma KillEffect(s: Sys, pid: int)
    requires Inv(s)
    ensures Killed(s, Kill(s, pid), pid)
  {
    hide First;
    FirstIsLeast(s.procs, WithPid(pid));
    var k := First(s.procs, WithPid(pid), 0);
    if k < NPROC && s.procs[k].state == SLEEPING {
      RousedOk(s, k, s.procs[k].(killed := true, state := RUNNABLE));
    }
    hide Roused, Inv;
  }

  /** allocproc: the first unused slot becomes an embryo with the next pid; without one nothing changes. */
  ghost predicate Claimed(s: Sys, r: Sys)
    requires Shaped(s)
  {
    && (NoneOf(s.procs, Unused) ==> r == s)
    && forall k :: Least(s.procs, Unused, k) ==>
         && r == s.(procs := r.procs, nextpid := s.nextpid + 1)
         && r.procs == s.procs[k := s.procs[k].(state := EMBRYO, pid := s.nextpid, deadline := 0, nice := 0)]
  }

  lemma AllocEffect(s: Sys)
    requires Shaped(s)
    ensures Claimed(s, AllocProc(s))
  {
    hide First;
    FirstIsLeast(s.procs, Unused);
  }

  /** The three things that can happen to an embryo. */
  lemma ForkEffect(s: Sys, np: int, nice: int)
    requires Inv(s) && 0 <= np < NPROC && s.procs[np].state == EMBRYO
    ensures var rec := s.procs[np];
      && Roused(s, Publish(s, np), np, rec.(state := RUNNABLE))
      && (HasCurrent(s) ==>
            Prepare(s, np, nice)
            == s.(procs := s.procs[np := rec.(parent := s.cur, nice := nice, deadline := ComputeVd(nice, s.ticks))]))
      && Apply(s, EAbort(np)) == s.(procs := s.procs[np := rec.(state := UNUSED)])
  {
    RousedOk(s, np, s.procs[np].(state := RUNNABLE));
  }

  /** scheduler: the front of the queue runs with a full quantum and no channel; nothing else changes. */
  lemma DispatchEffect(s: Sys)
    requires Inv(s) && s.cur == NULL && s.queue != []
    ensures var p := s.queue[0];
      Dispatch(s) == s.(cur := p, procs := s.procs[p := s.procs[p].(state := RUNNING, ticksLeft := QUANTUM, chan := NULL)])
  {
  }

  /** yield: the process leaves its place in the queue and joins it again with a new deadline. */
  lemma YieldEffect(s: Sys) returns (q: seq<int>)
    requires Inv(s) && HasCurrent(s)
    ensures var rec := s.procs[s.cur];
      && Yield(s) == s.(cur := NULL, queue := Yield(s).queue,
                        procs := s.procs[s.cur := rec.(state := RUNNABLE, deadline := ComputeVd(rec.nice, s.ticks))])
      && Left(s.queue, q, s.cur) && Joined(q, Yield(s).queue, s.cur, Deadlines(Yield(s).procs))
  {
    hide ComputeVd, InsertSorted, Remove, Left, Joined, Distinct, SortedBy;
    var p := s.cur;
    var s0 := SetProc(s, p, s.procs[p].(state := RUNNABLE));
    SetProcSorted(s, p, s.procs[p].(state := RUNNABLE));
    DequeueOk(s0, p);
    DequeueLeft(s0, p);
    var s1 := Dequeue(s0, p);
    q := s1.queue;
    var rec := s1.procs[p].(deadline := ComputeVd(s1.procs[p].nice, s1.ticks));
    SetProcSorted(s1, p, rec);
    EnqueueJoined(SetProc(s1, p, rec), p);
    assert SetProc(s1, p, rec).procs == s.procs[p := rec];
  }

  /** A zombie gives up the processor, and nothing else changes. */
  lemma SchedEffect(s: Sys)
    requires Inv(s) && Enabled(s, ESched)
    ensures Apply(s, ESched) == s.(cur := NULL)
  {
  }

  // ----- wakeup -----

  /** a stands before b in q. */
  ghost predicate Precedes(q: seq<int>, a: int, b: int) {
    exists i, j :: 0 <= i < j < |q| && q[i] == a && q[j] == b
  }

  /** What stood in q stands in r, in the same order. */
  ghost predicate KeepsOrder(q: seq<int>, r: seq<int>) {
    forall i, j :: 0 <= i < j < |q| ==> Precedes(r, q[i], q[j])
  }

  /** Among equal deadlines the newcomers stand before the others, a higher slot before a lower one. */
  ghost predicate NewFirst(q: seq<int>, r: seq<int>, dl: seq<int>) {
    && InTable(r, |dl|)
    && forall a, b :: Precedes(r, a, b) && a in r && b in r && b !in q && dl[a] == dl[b] ==> a !in q && a > b
  }

  lemma PrecedesOnce(q: seq<int>, a: int, b: int)
    requires Distinct(q) && Precedes(q, a, b)
    ensures a != b && !Precedes(q, b, a)
  {
  }

  /** Inserting p keeps the order of the others. */
  lemma InsertKeepsOrder(q: seq<int>, k: nat, p: int, r: seq<int>)
    requires k <= |q| && KeepsOrder(InsertAt(q, k, p), r)
    ensures KeepsOrder(q, r) && forall m :: k <= m < |q| ==> Precedes(r, p, q[m])
  {
    var t := InsertAt(q, k, p);
    forall i, j | 0 <= i < j < |q| ensures Precedes(r, q[i], q[j]) {
      var i', j' := if i < k then i else i + 1, if j < k then j else j + 1;
      assert t[i'] == q[i] && t[j'] == q[j];
    }
    forall m | k <= m < |q| ensures Precedes(r, p, q[m]) { assert t[k] == p && t[m+1] == q[m]; }
  }

  /** wakeup1 from slot i on: those queued keep their order, and who is woken gets before equal deadlines. */
  lemma {:induction false} WakeOrder(s: Sys, chan: int, i: nat)
    requires Sorted(s) && Synced(s, NULL) && i <= NPROC
    ensures KeepsOrder(s.queue, WakeFrom(s, chan, i).queue)
    ensures NewFirst(s.queue, WakeFrom(s, chan, i).queue, Deadlines(s.procs))
    decreases NPROC - i
  {
    assert Shaped(s);
    hide Sorted, Synced, Woken, KeepsOrder, NewFirst, Enqueue;
    if i == NPROC {
      OrderAlone(s.queue, Deadlines(s.procs));
    } else if s.procs[i].state == SLEEPING && s.procs[i].chan == chan {
      WakeOneOk(s, i, NULL);
      var t := Enqueue(SetProc(s, i, s.procs[i].(state := RUNNABLE)), i);
      WakeOrder(t, chan, i + 1);
      WakeFromOk(t, chan, i + 1, NULL);
      WokenBefore(s, t, WakeFrom(t, chan, i + 1), chan, i);
    } else {
      WakeOrder(s, chan, i + 1);
    }
  }

  lemma OrderAlone(q: seq<int>, dl: seq<int>)
    requires InTable(q, |dl|)
    ensures KeepsOrder(q, q) && NewFirst(q, q, dl)
  {
  }

  lemma WokenBefore(s: Sys, t: Sys, r: Sys, chan: int, i: nat)
    requires Sorted(s) && i < NPROC && i !in s.queue && t == Enqueue(SetProc(s, i, s.procs[i].(state := RUNNABLE)), i)
    requires Synced(t, NULL) && Sorted(r) && Synced(r, NULL) && Woken(t, r, chan, i + 1)
    requires KeepsOrder(t.queue, r.queue) && NewFirst(t.queue, r.queue, Deadlines(t.procs))
    ensures KeepsOrder(s.queue, r.queue) && NewFirst(s.queue, r.queue, Deadlines(s.procs))
  {
    hide InsertSorted, KeepsOrder, NewFirst, Precedes, Divides;
    var dl := Deadlines(s.procs);
    assert Deadlines(SetProc(s, i, s.procs[i].(state := RUNNABLE)).procs) == dl == Deadlines(t.procs);
    var k := InsertSortedMeaning(s.queue, dl, i);
    assert Divides(s.queue, k, i, dl) by { DividesAt(s.queue, k, i, dl); }
    forall x | x in r.queue && x !in t.queue ensures x > i { assert r.procs[x] != t.procs[x]; }
    hide Woken, Synced;
    InsertKeepsOrder(s.queue, k, i, r.queue);
    WakeOrderStep(s, t, r, i, k);
  }

  lemma DividesAt(q: seq<int>, k: nat, p: int, dl: seq<int>)
    requires InTable(q, |dl|) && 0 <= p < |dl| && k <= |q|
    requires (forall i :: 0 <= i < k ==> dl[q[i]] < dl[p]) && (forall i :: k <= i < |q| ==> dl[q[i]] >= dl[p])
    ensures Divides(q, k, p, dl)
  {
  }

  lemma WakeOrderStep(s: Sys, t: Sys, r: Sys, i: nat, k: nat)
    requires Sorted(s) && Sorted(r) && i < NPROC && i !in s.queue && k <= |s.queue| && t.queue == InsertAt(s.queue, k, i)
    requires Divides(s.queue, k, i, Deadlines(s.procs)) && NewFirst(t.queue, r.queue, Deadlines(s.procs))
    requires forall m :: k <= m < |s.queue| ==> Precedes(r.queue, i, s.queue[m])
    requires forall x :: x in r.queue && x !in t.queue ==> x > i
    ensures NewFirst(s.queue, r.queue, Deadlines(s.procs))
  {
    var dl := Deadlines(s.procs);
    forall a, b | Precedes(r.queue, a, b) && a in r.queue && b in r.queue && b !in s.queue && dl[a] == dl[b]
      ensures a !in s.queue && a > b
    {
      PrecedesOnce(r.queue, a, b);
    }
  }

  /** wakeup: whom it makes runnable, and where they stand in the queue. */
  lemma WakeupEffect(s: Sys, chan: int)
    requires Inv(s)
    ensures Inv(Wakeup(s, chan)) && Woken(s, Wakeup(s, chan), chan, 0)
    ensures KeepsOrder(s.queue, Wakeup(s, chan).queue) && NewFirst(s.queue, Wakeup(s, chan).queue, Deadlines(s.procs))
  {
    WakeupOk(s, chan);
    WakeOrder(s, chan, 0);
  }

  // ----- the clock -----

  /** Slot q sleeps on a channel that the exit of the running process wakes. */
  ghost predicate ExitWakes(s: Sys, q: int)
    requires HasCurrent(s) && 0 <= q < NPROC
  {
    && s.procs[q].state == SLEEPING
    && (s.procs[q].chan == s.procs[s.cur].parent || (s.procs[q].chan == s.init && ZombieChild(s, s.cur, 0)))
  }

  /** The record of slot q after the running process has been charged a tick. */
  ghost function ChargedProc(s: Sys, userMode: bool, q: int): Proc
    requires HasCurrent(s) && 0 <= q < NPROC
  {
    var rec := s.procs[q];
    if s.procs[s.cur].killed && userMode then
      rec.(parent := if rec.parent == s.cur then s.init else rec.parent,
           state := if q == s.cur then ZOMBIE else if ExitWakes(s, q) then RUNNABLE else rec.state)
    else if q != s.cur then rec
    else if rec.ticksLeft == 1 then rec.(state := RUNNABLE, ticksLeft := 0, deadline := ComputeVd(rec.nice, s.ticks))
    else rec.(ticksLeft := rec.ticksLeft - 1)
  }

  ghost predicate Yields(s: Sys, userMode: bool) {
    HasCurrent(s) && !(s.procs[s.cur].killed && userMode) && s.procs[s.cur].ticksLeft == 1
  }

  /** A tick of the running process: with the last one it yields, and killed in user mode it exits. */
  lemma ChargeEffect(s: Sys, userMode: bool)
    requires Inv(s) && HasCurrent(s)
    ensures var r := Charge(s, userMode);
      && r == s.(procs := r.procs, queue := r.queue, cur := if Yields(s, userMode) then NULL else s.cur)
      && forall q :: 0 <= q < NPROC ==> r.procs[q] == ChargedProc(s, userMode, q)
  {
    hide Distinct, SortedBy, InsertSorted, Remove, ComputeVd, Exit, Yield;
    if s.procs[s.cur].killed && userMode {
      ExitOk(s);
    } else {
      var rec := s.procs[s.cur].(ticksLeft := s.procs[s.cur].ticksLeft - 1);
      SetProcSorted(s, s.cur, rec);
      if rec.ticksLeft == 0 {
        YieldOk(SetProc(s, s.cur, rec));
        YieldKeeps(SetProc(s, s.cur, rec));
      }
    }
  }

  lemma YieldKeeps(s: Sys)
    requires HasCurrent(s)
    ensures Yield(s) == s.(procs := Yield(s).procs, queue := Yield(s).queue, cur := NULL)
  {
  }

  /** The clock advances by one and its sleepers become runnable. */
  ghost predicate Advanced(s: Sys, r: Sys)
    requires Shaped(s) && Shaped(r)
  {
    && r == s.(ticks := (s.ticks + 1) % 0x1_0000_0000, procs := r.procs, queue := r.queue)
    && forall q :: 0 <= q < NPROC ==>
         r.procs[q] == if s.procs[q].state == SLEEPING && s.procs[q].chan == TICKS_CHAN
                       then s.procs[q].(state := RUNNABLE) else s.procs[q]
  }

  /** A timer interrupt: the clock advances, and then the running process, if there is one, is charged. */
  lemma TimerEffect(s: Sys, userMode: bool) returns (t: Sys)
    requires Inv(s)
    ensures Inv(t) && Advanced(s, t) && (HasCurrent(t) <==> HasCurrent(s))
    ensures var r := Timer(s, userMode);
      if !HasCurrent(s) then r == t
      else
        && r == t.(procs := r.procs, queue := r.queue, cur := if Yields(t, userMode) then NULL else t.cur)
        && forall q :: 0 <= q < NPROC ==> r.procs[q] == ChargedProc(t, userMode, q)
  {
    hide Sorted, Synced, Charge, WakeFrom, ChargedProc;
    var now := (s.ticks + 1) % 0x1_0000_0000;
    ClockOk(s, now);
    WakeupOk(s.(ticks := now), TICKS_CHAN);
    t := Wakeup(s.(ticks := now), TICKS_CHAN);
    if HasCurrent(t) { ChargeEffect(t, userMode); }
  }

  // ----- a sleeper and the events -----

  /** The event wakes the sleeper in slot p. */
  ghost predicate Rouses(s: Sys, e: Event, p: int)
    requires Shaped(s) && Enabled(s, e) && 0 <= p < NPROC
  {
    match e
    case EWakeup(chan) => s.procs[p].chan == chan
    case EKill(pid) => Least(s.procs, WithPid(pid), p)
    case EExit => ExitWakes(s, p)
    case ETimer(u) => s.procs[p].chan == TICKS_CHAN || (HasCurrent(s) && s.procs[s.cur].killed && u && ExitWakes(s, p))
    case _ => false
  }

  /**
    An event wakes a sleeper exactly if it is the wakeup of its channel, a kill that finds it, an exit
    that wakes its channel, or the tick it sleeps for.  Any other leaves it asleep on its channel.
   */
  lemma SleeperStep(s: Sys, e: Event, p: int)
    requires Inv(s) && Enabled(s, e) && 0 <= p < NPROC && s.procs[p].state == SLEEPING
    ensures var rec := Apply(s, e).procs[p];
      && rec.state == (if Rouses(s, e, p) then RUNNABLE else SLEEPING) && rec.chan == s.procs[p].chan
      && rec.pid == s.procs[p].pid && rec.deadline == s.procs[p].deadline && rec.nice == s.procs[p].nice
  {
    hide Distinct, SortedBy, InsertSorted, Remove, WakeFrom, Reparent, First, ComputeVd;
    match e
    case EAlloc => FirstIsLeast(s.procs, Unused);
    case EExit => ExitOk(s);
    case EWait => FirstIsLeast(s.procs, ZombieChildOf(s.cur));
    case EWakeup(chan) => WakeupOk(s, chan);
    case EKill(pid) => FirstIsLeast(s.procs, WithPid(pid));
    case ETimer(u) => SleeperTick(s, u, p);
    case _ =>
  }

  lemma SleeperTick(s: Sys, u: bool, p: int)
    requires Inv(s) && Enabled(s, ETimer(u)) && 0 <= p < NPROC && s.procs[p].state == SLEEPING
    ensures var rec := Timer(s, u).procs[p];
      && rec.state == (if Rouses(s, ETimer(u), p) then RUNNABLE else SLEEPING) && rec.chan == s.procs[p].chan
      && rec.pid == s.procs[p].pid && rec.deadline == s.procs[p].deadline && rec.nice == s.procs[p].nice
  {
    hide Timer, Sorted, Synced, ComputeVd;
    var t := TimerEffect(s, u);
    if HasCurrent(s) { assert ZombieChild(t, s.cur, 0) <==> ZombieChild(s, s.cur, 0); }
  }

  /** As long as no event wakes it, it sleeps on. */
  lemma {:induction false} SleepsOn(ss: seq<Sys>, es: seq<Event>, p: int)
    requires IsRun(ss, es) && Inv(ss[0]) && 0 <= p < NPROC && ss[0].procs[p].state == SLEEPING
    requires forall i :: 0 <= i < |es| ==> !Rouses(ss[i], es[i], p)
    ensures Inv(ss[|es|]) && ss[|es|].procs[p].state == SLEEPING && ss[|es|].procs[p].chan == ss[0].procs[p].chan
    decreases |es|
  {
    if es != [] {
      var n := |es| - 1;
      SleepsOn(ss[..n+1], es[..n], p);
      SleeperStep(ss[n], es[n], p);
      StepOk(ss[n], es[n]);
    }
  }

  /**
    No wakeup is lost: a process that goes to sleep on chan, and that no event wakes in the meantime, is
    made runnable and queued by the next wakeup of chan, and by no wakeup of another channel.
   */
  lemma SleepThenWakeup(s: Sys, chan: int, ss: seq<Sys>, es: seq<Event>, c: int)
    requires Inv(s) && HasCurrent(s) && IsRun(ss, es) && ss[0] == Sleep(s, chan)
    requires forall i :: 0 <= i < |es| ==> !Rouses(ss[i], es[i], s.cur)
    ensures Shaped(ss[|es|])
    ensures var r := Apply(ss[|es|], EWakeup(c));
      && r.procs[s.cur].state == (if c == chan then RUNNABLE else SLEEPING)
      && (s.cur in r.queue <==> c == chan)
  {
    if es != [] { assert ss[|es|] == Apply(ss[|es|-1], es[|es|-1]); }
    SleepOk(s, chan);
    SleepEffect(s, chan);
    SleepsOn(ss, es, s.cur);
    var t := ss[|es|];
    SleeperStep(t, EWakeup(c), s.cur);
    StepOk(t, EWakeup(c));
  }
}
