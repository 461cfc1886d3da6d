/**
  The process state machine of proc.c and trap.c on one processor.  A state is what is visible
  whenever ptable.lock is free; an event is one critical section.  The run queue is the plain
  sorted list of module RunQueue.
 */
module SchedModel {
  import opened ProcTable
  import opened RunQueue

  const NULL := -1
  /** The sleep channels used by the scheduler itself: one for each process and one for the clock. */
  const TICKS_CHAN: int := NPROC

  datatype Sys = Sys(procs: seq<Proc>, queue: seq<int>, cur: int, ticks: int, nextpid: int, init: int)

  /** Two's complement reading of the low 32 bits. */
  function Int32(x: int): int {
    (x + 0x8000_0000) % 0x1_0000_0000 - 0x8000_0000
  }

  /** computevd, with the conversion of the unsigned tick count and the 32-bit sum made explicit. */
  function ComputeVd(nice: int, ticks: int): int {
    Int32(Int32(ticks) + (nice - NICE_FIRST + 1) * QUANTUM)
  }

  predicate Active(st: ProcState) {
    st == RUNNABLE || st == RUNNING
  }

  // ----- the critical sections -----

  ghost predicate Shaped(s: Sys) {
    |s.procs| == NPROC && InTable(s.queue, NPROC)
  }

  ghost function Enqueue(s: Sys, p: int): (r: Sys)
    requires Shaped(s) && 0 <= p < NPROC
    ensures Shaped(r)
  {
    s.(queue := InsertSorted(s.queue, Deadlines(s.procs), p))
  }

  ghost function Dequeue(s: Sys, p: int): (r: Sys)
    requires Shaped(s)
    ensures Shaped(r)
  {
    RemoveInTable(s.queue, p, NPROC);
    s.(queue := Remove(s.queue, p))
  }

  ghost function SetProc(s: Sys, p: int, rec: Proc): (r: Sys)
    requires Shaped(s) && 0 <= p < NPROC
    ensures Shaped(r)
  {
    s.(procs := s.procs[p := rec])
  }

  /** wakeup1's loop from slot i on. */
  ghost function WakeFrom(s: Sys, chan: int, i: nat): (r: Sys)
    requires Shaped(s) && i <= NPROC
    ensures Shaped(r)
    decreases NPROC - i
  {
    if i == NPROC then s
    else if s.procs[i].state == SLEEPING && s.procs[i].chan == chan then
      WakeFrom(Enqueue(SetProc(s, i, s.procs[i].(state := RUNNABLE)), i), chan, i + 1)
    else WakeFrom(s, chan, i + 1)
  }

  ghost function Wakeup(s: Sys, chan: int): (r: Sys)
    requires Shaped(s)
    ensures Shaped(r)
  {
    WakeFrom(s, chan, 0)
  }

  /** The process the processor is running. */
  ghost predicate HasCurrent(s: Sys) {
    Shaped(s) && 0 <= s.cur < NPROC && s.procs[s.cur].state == RUNNING
  }

  ghost function Yield(s: Sys): (r: Sys)
    requires HasCurrent(s)
    ensures Shaped(r)
  {
    var p := s.cur;
    var s1 := Dequeue(SetProc(s, p, s.procs[p].(state := RUNNABLE)), p);
    var s2 := SetProc(s1, p, s1.procs[p].(deadline := ComputeVd(s1.procs[p].nice, s1.ticks)));
    Enqueue(s2, p).(cur := NULL)
  }

  ghost function Sleep(s: Sys, chan: int): (r: Sys)
    requires HasCurrent(s)
    ensures Shaped(r)
  {
    var p := s.cur;
    SetProc(Dequeue(s, p), p, s.procs[p].(chan := chan, state := SLEEPING)).(cur := NULL)
  }

  /**
    scheduler: the front of the queue gets the processor and a full quantum.  A process resuming
    inside sleep clears its channel before the lock is dropped.
   */
  ghost function Dispatch(s: Sys): (r: Sys)
    requires Shaped(s) && s.cur == NULL && s.queue != []
    ensures Shaped(r)
  {
    var p := s.queue[0];
    SetProc(s, p, s.procs[p].(state := RUNNING, ticksLeft := QUANTUM, chan := NULL)).(cur := p)
  }

  /** exit's loop from slot i on: children of p go to init, which is woken for each zombie. */
  ghost function Reparent(s: Sys, p: int, i: nat): (r: Sys)
    requires Shaped(s) && i <= NPROC
    ensures Shaped(r)
    decreases NPROC - i
  {
    if i == NPROC then s
    else if s.procs[i].parent == p then
      var s1 := SetProc(s, i, s.procs[i].(parent := s.init));
      Reparent(if s1.procs[i].state == ZOMBIE then Wakeup(s1, s.init) else s1, p, i + 1)
    else Reparent(s, p, i + 1)
  }

  /** exit up to the point where the zombie calls sched. */
  ghost function Exit(s: Sys): (r: Sys)
    requires HasCurrent(s)
    ensures Shaped(r)
  {
    var p := s.cur;
    var s1 := Reparent(Wakeup(Dequeue(s, p), s.procs[p].parent), p, 0);
    SetProc(s1, p, s1.procs[p].(state := ZOMBIE))
  }

  /** What the table scans of proc.c look for. */
  datatype Query = Unused | ChildOf(p: int) | ZombieChildOf(p: int) | WithPid(pid: int)

  predicate Wanted(q: Query, rec: Proc) {
    match q
    case Unused => rec.state == UNUSED
    case ChildOf(p) => rec.parent == p
    case ZombieChildOf(p) => rec.parent == p && rec.state == ZOMBIE
    case WithPid(pid) => rec.pid == pid
  }

  /** The first slot from i on that answers the query; the table size if there is none. */
  ghost function First(procs: seq<Proc>, q: Query, i: nat): (k: nat)
    requires i <= |procs|
    ensures i <= k <= |procs| && (k < |procs| ==> Wanted(q, procs[k])) && forall j :: i <= j < k ==> !Wanted(q, procs[j])
    decreases |procs| - i
  {
    if i == |procs| || Wanted(q, procs[i]) then i else First(procs, q, i + 1)
  }

  /** One pass of wait: reap the first zombie child, give up, or sleep. */
  ghost function Wait(s: Sys): (r: Sys)
    requires HasCurrent(s)
    ensures Shaped(r)
  {
    var k := First(s.procs, ZombieChildOf(s.cur), 0);
    var child := First(s.procs, ChildOf(s.cur), 0);
    if k < NPROC then SetProc(s, k, s.procs[k].(pid := 0, parent := NULL, killed := false, state := UNUSED))
    else if child == NPROC || s.procs[s.cur].killed then s
    else Sleep(s, s.cur)
  }

  ghost function Kill(s: Sys, pid: int): (r: Sys)
    requires Shaped(s)
    ensures Shaped(r)
  {
    var k := First(s.procs, WithPid(pid), 0);
    if k == NPROC then s
    else if s.procs[k].state == SLEEPING then
      Enqueue(SetProc(s, k, s.procs[k].(killed := true, state := RUNNABLE)), k)
    else SetProc(s, k, s.procs[k].(killed := true))
  }

  /** allocproc: claim the first unused slot, if there is one. */
  ghost function AllocProc(s: Sys): (r: Sys)
    requires Shaped(s)
    ensures Shaped(r)
  {
    var k := First(s.procs, Unused, 0);
    if k == NPROC then s
    else SetProc(s, k, s.procs[k].(deadline := 0, nice := 0, state := EMBRYO, pid := s.nextpid)).(nextpid := s.nextpid + 1)
  }

  /** nicefork before it takes the lock: niceness and deadline of the new process. */
  ghost function Prepare(s: Sys, np: int, nice: int): (r: Sys)
    requires HasCurrent(s) && 0 <= np < NPROC
    ensures Shaped(r)
  {
    SetProc(s, np, s.procs[np].(parent := s.cur, nice := nice, deadline := ComputeVd(nice, s.ticks)))
  }

  /** nicefork under the lock: the new process becomes runnable. */
  ghost function Publish(s: Sys, np: int): (r: Sys)
    requires Shaped(s) && 0 <= np < NPROC
    ensures Shaped(r)
  {
    Enqueue(SetProc(s, np, s.procs[np].(state := RUNNABLE)), np)
  }

  /** What a timer interrupt does to the running process once the clock has been advanced. */
  ghost function Charge(s: Sys, userMode: bool): (r: Sys)
    requires HasCurrent(s)
    ensures Shaped(r)
  {
    var p := s.cur;
    if s.procs[p].killed && userMode then Exit(s)
    else
      var s2 := SetProc(s, p, s.procs[p].(ticksLeft := s.procs[p].ticksLeft - 1));
      if s2.procs[p].ticksLeft == 0 then Yield(s2) else s2
  }

  /** The timer branch of trap: count, wake clock sleepers, then charge the running process. */
  ghost function Timer(s: Sys, userMode: bool): (r: Sys)
    requires Shaped(s) && (s.cur == NULL || 0 <= s.cur < NPROC)
    ensures Shaped(r)
  {
    var s1 := Wakeup(s.(ticks := (s.ticks + 1) % 0x1_0000_0000), TICKS_CHAN);
    if HasCurrent(s1) then Charge(s1, userMode) else s1
  }

  // ----- events and runs -----

  datatype Event =
    | EAlloc
    | EAbort(np: int)
    | EPrepare(np: int, nice: int)
    | EPublish(np: int)
    | EExit
    | ESched
    | EWait
    | ESleep(chan: int)
    | EWakeup(chan: int)
    | EKill(pid: int)
    | EYield
    | EDispatch
    | ETimer(userMode: bool)

  /** When the code can take the event. */
  ghost predicate Enabled(s: Sys, e: Event)
    requires Shaped(s)
  {
    match e
    case EAlloc => HasCurrent(s)
    case EAbort(np) => 0 <= np < NPROC && s.procs[np].state == EMBRYO
    case EPrepare(np, nice) =>
      HasCurrent(s) && 0 <= np < NPROC && s.procs[np].state == EMBRYO && NICE_FIRST <= nice <= NICE_LAST
    case EPublish(np) => 0 <= np < NPROC && s.procs[np].state == EMBRYO
    case EExit => HasCurrent(s) && s.cur != s.init
    case ESched => 0 <= s.cur < NPROC && s.procs[s.cur].state == ZOMBIE
    case EWait => HasCurrent(s)
    case ESleep(_) => HasCurrent(s)
    case EWakeup(_) => true
    case EKill(_) => HasCurrent(s)
    case EYield => HasCurrent(s)
    case EDispatch => s.cur == NULL && s.queue != []
    case ETimer(u) =>
      && (s.cur == NULL || 0 <= s.cur < NPROC)
      && (u ==> HasCurrent(s) && !(s.cur == s.init && s.procs[s.cur].killed))
  }

  ghost function Apply(s: Sys, e: Event): (r: Sys)
    requires Shaped(s) && Enabled(s, e)
    ensures Shaped(r)
  {
    match e
    case EAlloc => AllocProc(s)
    case EAbort(np) => SetProc(s, np, s.procs[np].(state := UNUSED))
    case EPrepare(np, nice) => Prepare(s, np, nice)
    case EPublish(np) => Publish(s, np)
    case EExit => Exit(s)
    case ESched => s.(cur := NULL)
    case EWait => Wait(s)
    case ESleep(chan) => Sleep(s, chan)
    case EWakeup(chan) => Wakeup(s, chan)
    case EKill(pid) => Kill(s, pid)
    case EYield => Yield(s)
    case EDispatch => Dispatch(s)
    case ETimer(u) => Timer(s, u)
  }

  ghost predicate IsRun(ss: seq<Sys>, es: seq<Event>) {
    && |ss| == |es| + 1 && Shaped(ss[0])
    && forall i :: 0 <= i < |es| ==> Shaped(ss[i]) && Enabled(ss[i], es[i]) && ss[i+1] == Apply(ss[i], es[i])
  }

  lemma {:induction false} RemoveInTable(q: seq<int>, p: int, n: nat)
    requires InTable(q, n)
    ensures InTable(Remove(q, p), n)
  {
    if q != [] { RemoveInTable(q[1..], p, n); }
  }

  // ----- the invariant -----

  /** The queue is a repetition-free list sorted by deadline. */
  ghost predicate Sorted(s: Sys) {
    Shaped(s) && Distinct(s.queue) && SortedBy(s.queue, Deadlines(s.procs))
  }

  /** The queue holds exactly the runnable and running processes; slot x may be off. */
  ghost predicate Synced(s: Sys, x: int) {
    Shaped(s) && forall p :: 0 <= p < NPROC && p != x ==> (p in s.queue <==> Active(s.procs[p].state))
  }

  /** Only the current process runs, with 1 to 50 ticks left; otherwise it is a zombie about to call sched. */
  ghost predicate CurrentOk(s: Sys) {
    && Shaped(s)
    && (forall p :: 0 <= p < NPROC && s.procs[p].state == RUNNING ==> p == s.cur)
    && (s.cur == NULL || (0 <= s.cur < NPROC && s.procs[s.cur].state in {RUNNING, ZOMBIE}))
    && (HasCurrent(s) ==> 1 <= s.procs[s.cur].ticksLeft <= QUANTUM)
  }

  ghost predicate Inv(s: Sys) {
    Sorted(s) && Synced(s, NULL) && CurrentOk(s)
  }

  /** The table as the loader leaves it. */
  lemma NobodyOk(s: Sys)
    requires Shaped(s) && s.queue == [] && s.cur == NULL && forall p :: 0 <= p < NPROC ==> s.procs[p].state == UNUSED
    ensures Inv(s)
  {
  }

  lemma EnqueueOk(s: Sys, p: int)
    requires Sorted(s) && 0 <= p < NPROC && p !in s.queue
    ensures Sorted(Enqueue(s, p)) && forall q :: q in Enqueue(s, p).queue <==> q == p || q in s.queue
  {
    var k := InsertSortedMeaning(s.queue, Deadlines(s.procs), p);
  }

  lemma DequeueOk(s: Sys, p: int)
    requires Sorted(s) && p in s.queue
    ensures Sorted(Dequeue(s, p)) && forall q :: q in Dequeue(s, p).queue <==> q != p && q in s.queue
  {
    var k := RemoveMeaning(s.queue, Deadlines(s.procs), p);
  }

  /** Changing a record without touching its deadline leaves the order alone. */
  lemma SetProcSorted(s: Sys, p: int, rec: Proc)
    requires Sorted(s) && 0 <= p < NPROC && (p in s.queue ==> rec.deadline == s.procs[p].deadline)
    ensures Sorted(SetProc(s, p, rec))
  {
    var r := SetProc(s, p, rec);
    forall i, j | 0 <= i < j < |r.queue| ensures Deadlines(r.procs)[r.queue[i]] <= Deadlines(r.procs)[r.queue[j]] {
      assert Deadlines(s.procs)[s.queue[i]] <= Deadlines(s.procs)[s.queue[j]];
    }
  }

  /** What wakeup1 does: exactly the processes asleep on chan become runnable, and nothing else changes. */
  ghost predicate Woken(s: Sys, r: Sys, chan: int, i: nat)
    requires Shaped(s) && Shaped(r)
  {
    && r.cur == s.cur && r.ticks == s.ticks && r.nextpid == s.nextpid && r.init == s.init
    && forall p :: 0 <= p < NPROC ==>
        r.procs[p] == if p >= i && s.procs[p].state == SLEEPING && s.procs[p].chan == chan
                      then s.procs[p].(state := RUNNABLE) else s.procs[p]
  }

  /** Waking the sleeper in slot i. */
  lemma WakeOneOk(s: Sys, i: nat, x: int)
    requires Sorted(s) && Synced(s, x) && i < NPROC && i != x && s.procs[i].state == SLEEPING
    ensures i !in s.queue && Sorted(SetProc(s, i, s.procs[i].(state := RUNNABLE)))
    ensures var r := Enqueue(SetProc(s, i, s.procs[i].(state := RUNNABLE)), i);
      && Sorted(r) && Synced(r, x) && (x in r.queue <==> x in s.queue)
      && r == s.(queue := r.queue, procs := s.procs[i := s.procs[i].(state := RUNNABLE)])
  {
    var s1 := SetProc(s, i, s.procs[i].(state := RUNNABLE));
    SetProcSorted(s, i, s.procs[i].(state := RUNNABLE));
    EnqueueOk(s1, i);
  }

  lemma {:induction false} WakeFromOk(s: Sys, chan: int, i: nat, x: int)
    requires Sorted(s) && Synced(s, x) && i <= NPROC && (0 <= x < NPROC ==> s.procs[x].state != SLEEPING)
    ensures Sorted(WakeFrom(s, chan, i)) && Synced(WakeFrom(s, chan, i), x)
    ensures Woken(s, WakeFrom(s, chan, i), chan, i)
    ensures x in WakeFrom(s, chan, i).queue <==> x in s.queue
    decreases NPROC - i
  {
    assert Shaped(s);
    hide Enqueue, SetProc, Sorted, Synced, Woken;
    if i == NPROC {
      WokenNone(s, chan);
    } else if s.procs[i].state == SLEEPING && s.procs[i].chan == chan {
      WakeOneOk(s, i, x);
      var t := Enqueue(SetProc(s, i, s.procs[i].(state := RUNNABLE)), i);
      WakeFromOk(t, chan, i + 1, x);
      WokenStep(s, t, WakeFrom(t, chan, i + 1), chan, i);
    } else {
      WakeFromOk(s, chan, i + 1, x);
      WokenStep(s, s, WakeFrom(s, chan, i + 1), chan, i);
    }
  }

  lemma WokenNone(s: Sys, chan: int)
    requires Shaped(s)
    ensures Woken(s, s, chan, NPROC)
  {
  }

  lemma WokenStep(s: Sys, t: Sys, r: Sys, chan: int, i: nat)
    requires Shaped(s) && Shaped(t) && Shaped(r) && i < NPROC && Woken(t, r, chan, i + 1)
    requires t == s.(queue := t.queue, procs := t.procs)
    requires t.procs == if s.procs[i].state == SLEEPING && s.procs[i].chan == chan
                        then s.procs[i := s.procs[i].(state := RUNNABLE)] else s.procs
    ensures Woken(s, r, chan, i)
  {
  }

  lemma WakeupOk(s: Sys, chan: int)
    requires Sorted(s) && Synced(s, NULL)
    ensures Sorted(Wakeup(s, chan)) && Synced(Wakeup(s, chan), NULL) && Woken(s, Wakeup(s, chan), chan, 0)
    ensures CurrentOk(s) ==> CurrentOk(Wakeup(s, chan))
  {
    WakeFromOk(s, chan, 0, NULL);
  }

  /** Some child of p from slot i on is a zombie. */
  ghost predicate ZombieChild(s: Sys, p: int, i: nat)
    requires Shaped(s)
  {
    exists k :: i <= k < NPROC && s.procs[k].parent == p && s.procs[k].state == ZOMBIE
  }

  /** What exit's loop does: children of p move to init, which is woken if one of them is a zombie. */
  ghost predicate Reparented(s: Sys, r: Sys, p: int, i: nat)
    requires Shaped(s) && Shaped(r)
  {
    && r.cur == s.cur && r.ticks == s.ticks && r.nextpid == s.nextpid && r.init == s.init
    && forall q :: 0 <= q < NPROC ==>
        r.procs[q] == s.procs[q].(
          parent := if q >= i && s.procs[q].parent == p then s.init else s.procs[q].parent,
          state := if s.procs[q].state == SLEEPING && s.procs[q].chan == s.init && ZombieChild(s, p, i)
                   then RUNNABLE else s.procs[q].state)
  }

  /** One turn of exit's loop. */
  ghost function ReparentOne(s: Sys, p: int, i: nat): (r: Sys)
    requires Shaped(s) && i < NPROC
    ensures Shaped(r)
  {
    if s.procs[i].parent == p then
      var s1 := SetProc(s, i, s.procs[i].(parent := s.init));
      if s1.procs[i].state == ZOMBIE then Wakeup(s1, s.init) else s1
    else s
  }

  lemma ReparentOneOk(s: Sys, p: int, i: nat, x: int)
    requires Sorted(s) && Synced(s, x) && i < NPROC && (0 <= x < NPROC ==> s.procs[x].state != SLEEPING)
    ensures Sorted(ReparentOne(s, p, i)) && Synced(ReparentOne(s, p, i), x)
    ensures x in ReparentOne(s, p, i).queue <==> x in s.queue
    ensures ReparentedOne(s, ReparentOne(s, p, i), p, i)
  {
    if s.procs[i].parent == p {
      var rec := s.procs[i].(parent := s.init);
      SetProcSorted(s, i, rec);
      if rec.state == ZOMBIE { WakeFromOk(SetProc(s, i, rec), s.init, 0, x); }
    }
  }

  lemma ReparentUnfold(s: Sys, p: int, i: nat)
    requires Shaped(s) && i <= NPROC
    ensures Reparent(s, p, i) == if i < NPROC then Reparent(ReparentOne(s, p, i), p, i + 1) else s
  {
  }

  lemma {:induction false} ReparentOk(s: Sys, p: int, i: nat, x: int)
    requires Sorted(s) && Synced(s, x) && i <= NPROC && (0 <= x < NPROC ==> s.procs[x].state != SLEEPING)
    ensures Sorted(Reparent(s, p, i)) && Synced(Reparent(s, p, i), x)
    ensures x in Reparent(s, p, i).queue <==> x in s.queue
    ensures Reparented(s, Reparent(s, p, i), p, i)
    decreases NPROC - i
  {
    hide WakeFrom, Sorted, ReparentOne;
    if i < NPROC {
      ReparentUnfold(s, p, i);
      ReparentOneOk(s, p, i, x);
      var s1 := ReparentOne(s, p, i);
      ReparentOk(s1, p, i + 1, x);
      ReparentedStep(s, s1, Reparent(s1, p, i + 1), p, i);
    }
  }

  /** s1 is s after exit's loop has handled slot i. */
  ghost predicate ReparentedOne(s: Sys, s1: Sys, p: int, i: nat)
    requires Shaped(s) && Shaped(s1) && i < NPROC
  {
    && s1.cur == s.cur && s1.ticks == s.ticks && s1.nextpid == s.nextpid && s1.init == s.init
    && forall q :: 0 <= q < NPROC ==>
        s1.procs[q] == s.procs[q].(
          parent := if q == i && s.procs[q].parent == p then s.init else s.procs[q].parent,
          state := if s.procs[q].state == SLEEPING && s.procs[q].chan == s.init
                      && s.procs[i].parent == p && s.procs[i].state == ZOMBIE
                   then RUNNABLE else s.procs[q].state)
  }

  lemma ReparentedStep(s: Sys, s1: Sys, r: Sys, p: int, i: nat)
    requires Shaped(s) && Shaped(s1) && Shaped(r) && i < NPROC && ReparentedOne(s, s1, p, i)
    requires Reparented(s1, r, p, i + 1)
    ensures Reparented(s, r, p, i)
  {
    assert ZombieChild(s, p, i) <==> (s.procs[i].parent == p && s.procs[i].state == ZOMBIE) || ZombieChild(s1, p, i + 1) by {
      forall k | 0 <= k < NPROC ensures s1.procs[k].state == ZOMBIE <==> s.procs[k].state == ZOMBIE { }
    }
  }

  /**
    exit: the process leaves the queue and becomes a zombie, its parent is woken, its children go
    to init, init is woken if one of them is already a zombie, and nothing else changes.
   */
  lemma ExitOk(s: Sys)
    requires Inv(s) && HasCurrent(s)
    ensures Inv(Exit(s)) && Exit(s) == s.(procs := Exit(s).procs, queue := Exit(s).queue)
    ensures forall q :: 0 <= q < NPROC ==>
      Exit(s).procs[q] == s.procs[q].(
        parent := if s.procs[q].parent == s.cur then s.init else s.procs[q].parent,
        state := if q == s.cur then ZOMBIE
                 else if s.procs[q].state == SLEEPING
                      && (s.procs[q].chan == s.procs[s.cur].parent
                          || (s.procs[q].chan == s.init && ZombieChild(s, s.cur, 0)))
                 then RUNNABLE else s.procs[q].state)
  {
    hide WakeFrom, Reparent, Remove, Distinct, SortedBy;
    var p := s.cur;
    DequeueOk(s, p);
    WakeFromOk(Dequeue(s, p), s.procs[p].parent, 0, p);
    var s1 := Wakeup(Dequeue(s, p), s.procs[p].parent);
    ReparentOk(s1, p, 0, p);
    var s2 := Reparent(s1, p, 0);
    SetProcSorted(s2, p, s2.procs[p].(state := ZOMBIE));
    assert ZombieChild(s, p, 0) <==> ZombieChild(s1, p, 0);
  }

  /** The intermediate states of exit that its loops run in. */
  lemma ExitStages(s: Sys)
    requires Inv(s) && HasCurrent(s)
    ensures s.cur in s.queue
    ensures var s0 := Dequeue(s, s.cur); Sorted(s0) && Synced(s0, s.cur) && s0.procs == s.procs
    ensures var s1 := Wakeup(Dequeue(s, s.cur), s.procs[s.cur].parent);
      Sorted(s1) && Synced(s1, s.cur) && s1.cur == s.cur && s1.procs[s.cur] == s.procs[s.cur] && s.cur !in s1.queue
    ensures var s2 := Reparent(Wakeup(Dequeue(s, s.cur), s.procs[s.cur].parent), s.cur, 0);
      s2.cur == s.cur && s.cur !in s2.queue
  {
    hide WakeFrom, SortedBy, Distinct;
    DequeueOk(s, s.cur);
    WakeFromOk(Dequeue(s, s.cur), s.procs[s.cur].parent, 0, s.cur);
    ReparentOk(Wakeup(Dequeue(s, s.cur), s.procs[s.cur].parent), s.cur, 0, s.cur);
  }

  /** Moving one child to init leaves queue and states in step. */
  lemma ReparentSetOk(s: Sys, p: int, i: nat)
    requires Sorted(s) && Synced(s, p) && i < NPROC
    ensures var r := SetProc(s, i, s.procs[i].(parent := s.init));
      Sorted(r) && Synced(r, p) && r.queue == s.queue && r == s.(procs := s.procs[i := s.procs[i].(parent := s.init)])
  {
    SetProcSorted(s, i, s.procs[i].(parent := s.init));
  }

  lemma YieldOk(s: Sys)
    requires Sorted(s) && Synced(s, NULL) && HasCurrent(s)
    requires forall p :: 0 <= p < NPROC && s.procs[p].state == RUNNING ==> p == s.cur
    ensures Inv(Yield(s)) && Yield(s).cur == NULL
    ensures var rec := s.procs[s.cur];
      Yield(s).procs == s.procs[s.cur := rec.(state := RUNNABLE, deadline := ComputeVd(rec.nice, s.ticks))]
  {
    hide Distinct, SortedBy, InsertSorted, Remove, ComputeVd;
    var p := s.cur;
    var s0 := SetProc(s, p, s.procs[p].(state := RUNNABLE));
    SetProcSorted(s, p, s.procs[p].(state := RUNNABLE));
    DequeueOk(s0, p);
    var s1 := Dequeue(s0, p);
    var rec := s1.procs[p].(deadline := ComputeVd(s1.procs[p].nice, s1.ticks));
    SetProcSorted(s1, p, rec);
    EnqueueOk(SetProc(s1, p, rec), p);
  }

  lemma SleepOk(s: Sys, chan: int)
    requires Inv(s) && HasCurrent(s)
    ensures Inv(Sleep(s, chan))
  {
    DequeueOk(s, s.cur);
    SetProcSorted(Dequeue(s, s.cur), s.cur, s.procs[s.cur].(chan := chan, state := SLEEPING));
  }

  /** Dispatch picks a process of minimum deadline among all that could run. */
  lemma DispatchOk(s: Sys)
    requires Inv(s) && s.cur == NULL && s.queue != []
    ensures Inv(Dispatch(s)) && HasCurrent(Dispatch(s))
    ensures forall p :: 0 <= p < NPROC && Active(s.procs[p].state) ==>
              s.procs[Dispatch(s).cur].deadline <= s.procs[p].deadline
  {
    var p := s.queue[0];
    SetProcSorted(s, p, s.procs[p].(state := RUNNING, ticksLeft := QUANTUM, chan := NULL));
    assert p in s.queue;
    forall q | 0 <= q < NPROC && Active(s.procs[q].state) ensures s.procs[p].deadline <= s.procs[q].deadline {
      assert q in s.queue;
      var i :| 0 <= i < |s.queue| && s.queue[i] == q;
      assert i > 0 ==> Deadlines(s.procs)[s.queue[0]] <= Deadlines(s.procs)[s.queue[i]];
    }
  }

  lemma ChargeOk(s: Sys, userMode: bool)
    requires Inv(s) && HasCurrent(s)
    ensures Inv(Charge(s, userMode))
  {
    hide Exit, Yield, Distinct, SortedBy;
    var p := s.cur;
    if s.procs[p].killed && userMode {
      ExitOk(s);
    } else {
      var rec := s.procs[p].(ticksLeft := s.procs[p].ticksLeft - 1);
      SetProcSorted(s, p, rec);
      if rec.ticksLeft == 0 { YieldOk(SetProc(s, p, rec)); }
    }
  }

  /** The invariant does not depend on the clock. */
  lemma ClockOk(s: Sys, t: int)
    requires Inv(s)
    ensures Inv(s.(ticks := t)) && (HasCurrent(s) <==> HasCurrent(s.(ticks := t)))
  {
  }

  lemma TimerOk(s: Sys, userMode: bool)
    requires Inv(s)
    ensures Inv(Timer(s, userMode))
  {
    var s0 := s.(ticks := (s.ticks + 1) % 0x1_0000_0000);
    WakeupOk(s0, TICKS_CHAN);
    var s1 := Wakeup(s0, TICKS_CHAN);
    if HasCurrent(s1) { ChargeOk(s1, userMode); }
  }

  lemma KillOk(s: Sys, pid: int)
    requires Inv(s)
    ensures Inv(Kill(s, pid))
  {
    hide Distinct, SortedBy, InsertSorted, First;
    var k := First(s.procs, WithPid(pid), 0);
    if k < NPROC {
      if s.procs[k].state == SLEEPING {
        var rec := s.procs[k].(killed := true, state := RUNNABLE);
        SetProcSorted(s, k, rec);
        EnqueueOk(SetProc(s, k, rec), k);
      } else {
        SetProcSorted(s, k, s.procs[k].(killed := true));
      }
    }
  }

  lemma WaitOk(s: Sys)
    requires Inv(s) && HasCurrent(s)
    ensures Inv(Wait(s))
  {
    var k := First(s.procs, ZombieChildOf(s.cur), 0);
    if k < NPROC {
      assert Wanted(ZombieChildOf(s.cur), s.procs[k]);
      SetProcSorted(s, k, s.procs[k].(pid := 0, parent := NULL, killed := false, state := UNUSED));
    } else {
      SleepOk(s, s.cur);
    }
  }

  lemma ForkOk(s: Sys, np: int, nice: int)
    requires Inv(s) && 0 <= np < NPROC && s.procs[np].state == EMBRYO
    ensures HasCurrent(s) ==> Inv(Prepare(s, np, nice))
    ensures Inv(Publish(s, np))
    ensures Inv(SetProc(s, np, s.procs[np].(state := UNUSED)))
  {
    hide Distinct, SortedBy, InsertSorted, ComputeVd;
    if HasCurrent(s) {
      SetProcSorted(s, np, s.procs[np].(parent := s.cur, nice := nice, deadline := ComputeVd(nice, s.ticks)));
    }
    SetProcSorted(s, np, s.procs[np].(state := RUNNABLE));
    EnqueueOk(SetProc(s, np, s.procs[np].(state := RUNNABLE)), np);
    SetProcSorted(s, np, s.procs[np].(state := UNUSED));
  }

  lemma AllocOk(s: Sys)
    requires Inv(s)
    ensures Inv(AllocProc(s))
  {
    var k := First(s.procs, Unused, 0);
    if k < NPROC {
      assert Wanted(Unused, s.procs[k]);
      SetProcSorted(s, k, s.procs[k].(deadline := 0, nice := 0, state := EMBRYO, pid := s.nextpid));
    }
  }

  /** Every critical section keeps the invariant. */
  lemma StepOk(s: Sys, e: Event)
    requires Inv(s) && Enabled(s, e)
    ensures Inv(Apply(s, e))
  {
    match e
    case EAlloc => AllocOk(s);
    case EAbort(np) => ForkOk(s, np, 0);
    case EPrepare(np, nice) => ForkOk(s, np, nice);
    case EPublish(np) => ForkOk(s, np, 0);
    case EExit => ExitOk(s);
    case ESched =>
    case EWait => WaitOk(s);
    case ESleep(chan) => SleepOk(s, chan);
    case EWakeup(chan) => WakeupOk(s, chan);
    case EKill(pid) => KillOk(s, pid);
    case EYield => YieldOk(s);
    case EDispatch => DispatchOk(s);
    case ETimer(u) => TimerOk(s, u);
  }

  /** In every state of every run the queue is the sorted list of exactly the processes that can run. */
  lemma {:induction false} RunOk(ss: seq<Sys>, es: seq<Event>, n: nat)
    requires IsRun(ss, es) && Inv(ss[0]) && n < |ss|
    ensures Inv(ss[n])
  {
    if n > 0 {
      RunOk(ss, es, n - 1);
      StepOk(ss[n-1], es[n-1]);
    }
  }
}
