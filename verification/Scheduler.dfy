/**
  The process functions of proc.c and the timer branch of trap.c as they update the process table
  and the skip list in place.  Each is proved to perform the corresponding critical section of
  module SchedModel on the abstract state.
 */
module Scheduler {
  import opened ProcTable
  import opened RunQueue
  import opened SkipList
  import opened SchedModel
  import opened SchedEffects

  /** One row of coin flips for every process that may be inserted. */
  ghost predicate Coins(coins: seq<seq<bool>>) {
    |coins| == NPROC && forall i :: 0 <= i < NPROC ==> |coins[i]| == LEVELS
  }

  class Kernel {
    const pt: PTable
    var cur: int
    var ticks: int
    var nextpid: int
    var init: int

    constructor ()
      ensures Good() && fresh(pt) && fresh(pt.proc) && fresh(pt.maxLevel)
      ensures forall l :: 0 <= l < LEVELS ==> fresh(pt.level[l])
      ensures Inv(View()) && View().queue == [] && cur == NULL && ticks == 0 && nextpid == 1
      ensures forall p :: 0 <= p < NPROC ==> pt.proc[p].state == UNUSED
    {
      pt := new PTable();
      cur, ticks, nextpid, init := NULL, 0, 1, NULL;
      new;
      pt.Pinit();
      hide Good;
      NobodyOk(View());
    }

    ghost predicate Good()
      reads pt, pt.level, pt.proc, pt.maxLevel
      ensures Good() ==> pt.Shape() && InTable(pt.queue, NPROC)
    {
      pt.Valid()
    }

    /** The state the scheduler model speaks about. */
    ghost function View(): (s: Sys)
      requires pt.Shape()
      reads this, pt, pt.proc
    {
      Sys(pt.proc[..], pt.queue, cur, ticks, nextpid, init)
    }

    /** insert, seen through the abstract state. */
    method Insert(p: int, coin: seq<bool>)
      requires Good() && 0 <= p < NPROC && p !in pt.queue && |coin| == LEVELS
      modifies pt`order, pt`queue, pt.level, pt.maxLevel
      ensures Good() && View() == Enqueue(old(View()), p)
    {
      var height := pt.Insert(p, coin);
    }

    method Delete(p: int)
      requires Good() && p in pt.queue
      modifies pt`order, pt`queue, pt.level, pt.maxLevel
      ensures Good() && View() == Dequeue(old(View()), p)
    {
      var height := pt.Delete(p);
    }

    method Set(p: int, rec: Proc)
      requires Good() && 0 <= p < NPROC && (p in pt.queue ==> rec.deadline == pt.proc[p].deadline)
      modifies pt.proc
      ensures Good() && View() == SetProc(old(View()), p, rec)
    {
      pt.SetProc(p, rec);
    }

    /** wakeup1; slot x may be out of step with the queue, as in exit. */
    method Wakeup1(chan: int, coins: seq<seq<bool>>, ghost x: int)
      requires Good() && Sorted(View()) && Synced(View(), x) && Coins(coins)
      requires 0 <= x < NPROC ==> View().procs[x].state != SLEEPING
      modifies pt`order, pt`queue, pt.level, pt.maxLevel, pt.proc
      ensures Good() && View() == Wakeup(old(View()), chan)
    {
      hide Good, Enqueue, SetProc;
      ghost var s0 := View();
      var p := 0;
      while p < NPROC
        invariant 0 <= p <= NPROC && Good() && Sorted(View()) && Synced(View(), x)
        invariant 0 <= x < NPROC ==> View().procs[x].state != SLEEPING
        invariant WakeFrom(View(), chan, p) == WakeFrom(s0, chan, 0)
      {
        ghost var s := View();
        if pt.proc[p].state == SLEEPING && pt.proc[p].chan == chan {
          WakeOneOk(s, p, x);
          Set(p, pt.proc[p].(state := RUNNABLE));
          Insert(p, coins[p]);
        }
        p := p + 1;
      }
    }

    /** wakeup, called by interrupt handlers and by the clients of sleep. */
    method WakeupAll(chan: int, coins: seq<seq<bool>>)
      requires Good() && Inv(View()) && Coins(coins)
      modifies this, pt, pt.level, pt.maxLevel, pt.proc
      ensures Good() && View() == Apply(old(View()), EWakeup(chan)) && Inv(View())
    {
      hide Good, WakeFrom, SortedBy, Distinct, Synced, HasCurrent;
      WakeupOk(View(), chan);
      Wakeup1(chan, coins, NULL);
    }

    /** The table scan shared by allocproc, kill and wait: the first slot that answers the query. */
    method Scan(q: Query) returns (p: nat)
      requires pt.Shape()
      ensures p == First(pt.proc[..], q, 0)
    {
      p := 0;
      while p < NPROC && !Wanted(q, pt.proc[p])
        invariant 0 <= p <= NPROC && First(pt.proc[..], q, p) == First(pt.proc[..], q, 0)
      {
        p := p + 1;
      }
    }

    /** allocproc up to the release of the lock; NPROC stands for failure. */
    method AllocProcess() returns (p: nat)
      requires Good() && Inv(View())
      modifies this, pt.proc
      ensures Good() && View() == AllocProc(old(View())) && Inv(View())
      ensures p == First(old(pt.proc[..]), Unused, 0) && (p < NPROC ==> pt.proc[p].state == EMBRYO)
      ensures Claimed(old(View()), View())
    {
      hide Good, Claimed;
      AllocOk(View());
      AllocEffect(View());
      p := Scan(Unused);
      if p < NPROC {
        assert Wanted(Unused, pt.proc[p]);
        Set(p, pt.proc[p].(deadline := 0, nice := 0, state := EMBRYO, pid := nextpid));
        nextpid := nextpid + 1;
      }
    }

    /** nicefork before it takes the lock: niceness and deadline of the new process. */
    method PrepareFork(np: int, nice: int)
      requires Good() && Inv(View()) && Enabled(View(), EPrepare(np, nice))
      modifies pt.proc
      ensures Good() && View() == Apply(old(View()), EPrepare(np, nice)) && Inv(View())
    {
      hide Good;
      ForkOk(View(), np, nice);
      Set(np, pt.proc[np].(parent := cur, nice := nice, deadline := ComputeVd(nice, ticks)));
    }

    /** nicefork under the lock: the new process is published; ticks may have passed in between. */
    method PublishFork(np: int, coin: seq<bool>)
      requires Good() && Inv(View()) && Enabled(View(), EPublish(np)) && |coin| == LEVELS
      modifies this, pt, pt.level, pt.maxLevel, pt.proc
      ensures Good() && View() == Apply(old(View()), EPublish(np)) && Inv(View())
    {
      hide Good;
      ForkOk(View(), np, 0);
      Set(np, pt.proc[np].(state := RUNNABLE));
      Insert(np, coin);
    }

    /** userinit: the first process becomes init and is made runnable. */
    method Userinit(coin: seq<bool>)
      requires Good() && Inv(View()) && |coin| == LEVELS && pt.proc[0].state == UNUSED
      modifies this, pt, pt.level, pt.maxLevel, pt.proc
      ensures Good() && Inv(View()) && init == 0 && pt.proc[init].state == RUNNABLE
      ensures pt.queue == InsertSorted(old(pt.queue), Deadlines(pt.proc[..]), init)
      ensures pt.proc[init].deadline == ComputeVd(0, old(ticks)) && pt.proc[init].pid == old(nextpid)
    {
      hide Good, InsertSorted, SortedBy, Distinct;
      var p := AllocProcess();
      init := p;
      var rec := pt.proc[p].(nice := 0, deadline := ComputeVd(0, ticks));
      assert Wanted(Unused, old(pt.proc[..])[0]);
      SetProcSorted(View(), p, rec);
      Set(p, rec);
      ForkOk(View(), p, 0);
      Set(p, pt.proc[p].(state := RUNNABLE));
      Insert(p, coin);
    }

    /** scheduler: take the process behind level 0's head node, if there is one. */
    method Schedule()
      requires Good() && Inv(View()) && cur == NULL
      modifies this`cur, pt.proc
      ensures Good() && Inv(View())
      ensures View() == if old(pt.queue) == [] then old(View()) else Apply(old(View()), EDispatch)
    {
      pt.HeadOfQueue();
      if pt.level[0][0].next != NULL {
        var p := pt.level[0][pt.level[0][0].next].proc;
        assert p != NULL;  // "selected process is 0"
        DispatchOk(View());
        cur := p;
        Set(p, pt.proc[p].(state := RUNNING, ticksLeft := QUANTUM, chan := NULL));
      }
    }

    /** yield, up to the switch to the scheduler. */
    method YieldProcessor(coin: seq<bool>)
      requires Good() && Sorted(View()) && Synced(View(), NULL) && HasCurrent(View()) && |coin| == LEVELS
      requires forall p :: 0 <= p < NPROC && pt.proc[p].state == RUNNING ==> p == cur
      modifies this`cur, pt, pt.level, pt.maxLevel, pt.proc
      ensures Good() && View() == Yield(old(View())) && Inv(View())
    {
      hide Good;
      YieldOk(View());
      SetProcSorted(View(), cur, pt.proc[cur].(state := RUNNABLE));
      Set(cur, pt.proc[cur].(state := RUNNABLE));
      DequeueOk(View(), cur);
      Delete(cur);
      Set(cur, pt.proc[cur].(deadline := ComputeVd(pt.proc[cur].nice, ticks)));
      Insert(cur, coin);
      cur := NULL;
    }

    /** sleep, from taking ptable.lock up to the switch to the scheduler. */
    method SleepOn(chan: int)
      requires Good() && Inv(View()) && HasCurrent(View())
      modifies this`cur, pt, pt.level, pt.maxLevel, pt.proc
      ensures Good() && View() == Apply(old(View()), ESleep(chan)) && Inv(View()) && Slept(old(View()), View(), chan)
    {
      hide Good, Sorted, CurrentOk, Remove, Slept;
      SleepEffect(View(), chan);
      SleepOk(View(), chan);
      ghost var s := View();
      Set(cur, pt.proc[cur].(chan := chan));
      assert View().queue == s.queue;
      if Active(pt.proc[cur].state) {
        Delete(cur);
      }
      Set(cur, pt.proc[cur].(state := SLEEPING));
      assert View().procs == Sleep(s, chan).procs;
      cur := NULL;
    }

    method KillProcess(pid: int, coin: seq<bool>) returns (r: int)
      requires Good() && Inv(View()) && HasCurrent(View()) && |coin| == LEVELS
      modifies this, pt, pt.level, pt.maxLevel, pt.proc
      ensures Good() && View() == Apply(old(View()), EKill(pid)) && Inv(View())
      ensures Killed(old(View()), View(), pid)
      ensures r == if exists q :: 0 <= q < NPROC && old(pt.proc[..])[q].pid == pid then 0 else -1
    {
      hide Good, Sorted, CurrentOk, InsertSorted, Killed;
      ghost var s := View();
      KillOk(s, pid);
      KillEffect(s, pid);
      var p := Scan(WithPid(pid));
      if p == NPROC {
        assert forall q :: 0 <= q < NPROC ==> !Wanted(WithPid(pid), pt.proc[..][q]);
        return -1;
      }
      assert Wanted(WithPid(pid), s.procs[p]);
      Set(p, pt.proc[p].(killed := true));
      if pt.proc[p].state == SLEEPING {
        Set(p, pt.proc[p].(state := RUNNABLE));
        assert View().procs == s.procs[p := s.procs[p].(killed := true, state := RUNNABLE)];
        Insert(p, coin);
      }
      return 0;
    }

    /** One turn of exit's loop over the table. */
    method ReparentChild(p: int, i: nat, coins: seq<seq<bool>>)
      requires Good() && Sorted(View()) && Synced(View(), p) && Coins(coins) && 0 <= p < NPROC
      requires pt.proc[p].state != SLEEPING
      requires i < NPROC
      modifies pt`order, pt`queue, pt.level, pt.maxLevel, pt.proc
      ensures Good() && View() == ReparentOne(old(View()), p, i)
    {
      hide Good, WakeFrom, Sorted;
      if pt.proc[i].parent == p {
        ReparentSetOk(View(), p, i);
        Set(i, pt.proc[i].(parent := init));
        if pt.proc[i].state == ZOMBIE {
          Wakeup1(init, coins, p);
        }
      }
    }

    /** exit's loop over the children of p. */
    method ReparentChildren(p: int, coins: seq<seq<bool>>)
      requires Good() && Sorted(View()) && Synced(View(), p) && Coins(coins) && 0 <= p < NPROC
      requires pt.proc[p].state != SLEEPING
      modifies pt`order, pt`queue, pt.level, pt.maxLevel, pt.proc
      ensures Good() && View() == Reparent(old(View()), p, 0)
    {
      hide Good, Sorted, Synced, Reparent, ReparentOne;
      ghost var s0 := View();
      var i := 0;
      while i < NPROC
        invariant 0 <= i <= NPROC && Good() && Sorted(View()) && Synced(View(), p) && pt.proc[p].state != SLEEPING
        invariant Reparent(View(), p, i) == Reparent(s0, p, 0)
      {
        ReparentOneOk(View(), p, i, p);
        ReparentUnfold(View(), p, i);
        ReparentChild(p, i, coins);
        i := i + 1;
      }
      ReparentUnfold(View(), p, NPROC);
    }

    /** exit, up to the point where the zombie calls sched. */
    method ExitProcess(coins: seq<seq<bool>>)
      requires Good() && Inv(View()) && HasCurrent(View()) && Coins(coins)
      modifies this, pt, pt.level, pt.maxLevel, pt.proc
      ensures Good() && View() == Exit(old(View())) && Inv(View())
    {
      hide Good, WakeFrom, Reparent, SortedBy, Distinct, Remove;
      ghost var s, p := View(), cur;
      ExitOk(s);
      ExitStages(s);
      if Active(pt.proc[cur].state) {
        Delete(cur);
      }
      Wakeup1(pt.proc[cur].parent, coins, cur);
      ReparentChildren(cur, coins);
      Set(cur, pt.proc[cur].(state := ZOMBIE));
    }

    /** wait's scan for an exited child; it stops at the first one. */
    method ScanChildren() returns (p: nat, havekids: bool)
      requires pt.Shape()
      ensures p == First(pt.proc[..], ZombieChildOf(cur), 0)
      ensures p == NPROC ==> (havekids <==> First(pt.proc[..], ChildOf(cur), 0) < NPROC)
    {
      havekids := false;
      p := 0;
      ghost var procs := pt.proc[..];
      while p < NPROC
        invariant 0 <= p <= NPROC
        invariant First(procs, ZombieChildOf(cur), p) == First(procs, ZombieChildOf(cur), 0)
        invariant havekids <==> First(procs, ChildOf(cur), 0) < p
        invariant !havekids ==> First(procs, ChildOf(cur), p) == First(procs, ChildOf(cur), 0)
      {
        if pt.proc[p].parent == cur {
          havekids := true;
          if pt.proc[p].state == ZOMBIE {
            return;
          }
        }
        p := p + 1;
      }
    }

    /** One pass of wait's loop: returns the reaped pid, -1, or nothing when it goes to sleep. */
    method WaitPass() returns (pid: int, asleep: bool)
      requires Good() && Inv(View()) && HasCurrent(View())
      modifies this, pt, pt.level, pt.maxLevel, pt.proc
      ensures Good() && View() == Apply(old(View()), EWait) && Inv(View())
      ensures Waited(old(View()), View()) && (asleep <==> cur == NULL)
      ensures forall k :: Least(old(pt.proc[..]), ZombieChildOf(old(cur)), k) ==>
                !asleep && pid == old(pt.proc[..])[k].pid
      ensures NoneOf(old(pt.proc[..]), ZombieChildOf(old(cur))) ==>
                if NoneOf(old(pt.proc[..]), ChildOf(old(cur))) || old(pt.proc[cur].killed) then !asleep && pid == -1
                else asleep
    {
      hide Good, Sorted, Synced, CurrentOk, First, Waited, Slept, Left;
      WaitOk(View());
      WaitEffect(View());
      FirstIsLeast(pt.proc[..], ZombieChildOf(cur));
      FirstIsLeast(pt.proc[..], ChildOf(cur));
      var p, havekids := ScanChildren();
      if p < NPROC {
        assert Wanted(ZombieChildOf(cur), pt.proc[..][p]);
        pid := pt.proc[p].pid;
        Set(p, pt.proc[p].(pid := 0, parent := NULL, killed := false, state := UNUSED));
        return pid, false;
      }
      if !havekids || pt.proc[cur].killed {
        return -1, false;
      }
      SleepOn(cur);
      return 0, true;
    }

    /** What a timer interrupt does to the running process. */
    method ChargeCurrent(userMode: bool, coins: seq<seq<bool>>)
      requires Good() && Inv(View()) && HasCurrent(View()) && Coins(coins)
      modifies this, pt, pt.level, pt.maxLevel, pt.proc
      ensures Good() && View() == Charge(old(View()), userMode) && Inv(View())
    {
      hide Good, WakeFrom, SortedBy, Distinct, Exit, Yield;
      ghost var s := View();
      ChargeOk(s, userMode);
      if pt.proc[cur].killed && userMode {
        ExitProcess(coins);
      } else {
        SetProcSorted(s, cur, pt.proc[cur].(ticksLeft := pt.proc[cur].ticksLeft - 1));
        Set(cur, pt.proc[cur].(ticksLeft := pt.proc[cur].ticksLeft - 1));
        if pt.proc[cur].ticksLeft == 0 {
          YieldProcessor(coins[cur]);
        }
      }
    }

    /** The timer branch of trap on the boot processor. */
    method TimerInterrupt(userMode: bool, coins: seq<seq<bool>>)
      requires Good() && Inv(View()) && Enabled(View(), ETimer(userMode)) && Coins(coins)
      modifies this, pt, pt.level, pt.maxLevel, pt.proc
      ensures Good() && View() == Apply(old(View()), ETimer(userMode)) && Inv(View())
    {
      hide Good, WakeFrom, Wakeup, Sorted, Synced, Charge;
      ghost var s := View();
      TimerOk(s, userMode);
      ClockOk(s, (ticks + 1) % 0x1_0000_0000);
      ticks := (ticks + 1) % 0x1_0000_0000;
      WakeupAll(TICKS_CHAN, coins);
      if cur != NULL && pt.proc[cur].state == RUNNING {
        ChargeCurrent(userMode, coins);
      }
    }
  }
}
