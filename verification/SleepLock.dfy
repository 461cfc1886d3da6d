/**
  Sleep locks and the sleep/wakeup protocol under them, for any number of processes: sleeplock.c's
  acquiresleep and releasesleep, with sleep and wakeup of proc.c unfolded into the acquisition and
  release of the two spin locks involved.  Every step of every process is a separate transition.
 */
module SleepLock {

  /** Where a process stands; the comment names what it is about to do. */
  datatype PC =
    | Idle
    // acquiresleep
    | AcqEnter        // acquire(&lk->lk)
    | AcqTest         // while (lk->locked)
    | SleepPt         // sleep: acquire(&ptable.lock)
    | SleepDrop       // sleep: release(lk)
    | SleepMark       // sleep: state = SLEEPING, then sched gives up ptable.lock
    | Asleep
    | SleepBack       // runnable again: sched returns with ptable.lock, which is released
    | AcqSet          // lk->locked = 1, lk->pid = pid
    | AcqLeave        // release(&lk->lk)
    | Holding
    // releasesleep
    | RelEnter        // acquire(&lk->lk)
    | RelClear        // lk->locked = 0
    | WakePt          // wakeup: acquire(&ptable.lock)
    | WakeAll         // wakeup1: sleepers on lk become RUNNABLE
    | WakeLeave       // wakeup: release(&ptable.lock)
    | RelLeave        // release(&lk->lk)

  const NOBODY := -1

  /** The holders of lk->lk and of ptable.lock, and the sleep lock's two fields. */
  datatype Sys = Sys(pcs: seq<PC>, lk: int, pt: int, locked: bool, pid: int)

  ghost predicate HoldsLk(pc: PC) {
    pc in {AcqTest, SleepPt, SleepDrop, AcqSet, AcqLeave, RelClear, WakePt, WakeAll, WakeLeave, RelLeave}
  }

  ghost predicate HoldsPt(pc: PC) {
    pc in {SleepDrop, SleepMark, WakeAll, WakeLeave}
  }

  /** The process has set locked and not yet cleared it. */
  ghost predicate Owns(pc: PC) {
    pc in {AcqLeave, Holding, RelEnter, RelClear}
  }

  /** The process has cleared locked and has the sleepers still to wake. */
  ghost predicate WillWake(pc: PC) {
    pc == WakePt || pc == WakeAll
  }

  // ----- transitions -----

  ghost function Woken(pcs: seq<PC>): (r: seq<PC>)
    ensures |r| == |pcs| && forall i :: 0 <= i < |r| ==> r[i] == if pcs[i] == Asleep then SleepBack else pcs[i]
  {
    seq(|pcs|, i requires 0 <= i < |pcs| => if pcs[i] == Asleep then SleepBack else pcs[i])
  }

  ghost predicate Step(s: Sys, p: nat, r: Sys) {
    p < |s.pcs| &&
    match s.pcs[p]
    case Idle => r == s.(pcs := s.pcs[p := AcqEnter])
    case AcqEnter => s.lk == NOBODY && r == s.(pcs := s.pcs[p := AcqTest], lk := p)
    case AcqTest => r == s.(pcs := s.pcs[p := if s.locked then SleepPt else AcqSet])
    case SleepPt => s.pt == NOBODY && r == s.(pcs := s.pcs[p := SleepDrop], pt := p)
    case SleepDrop => r == s.(pcs := s.pcs[p := SleepMark], lk := NOBODY)
    case SleepMark => r == s.(pcs := s.pcs[p := Asleep], pt := NOBODY)
    case Asleep => false
    case SleepBack => s.pt == NOBODY && r == s.(pcs := s.pcs[p := AcqEnter])
    case AcqSet => r == s.(pcs := s.pcs[p := AcqLeave], locked := true, pid := p)
    case AcqLeave => r == s.(pcs := s.pcs[p := Holding], lk := NOBODY)
    case Holding => r == s.(pcs := s.pcs[p := RelEnter])
    case RelEnter => s.lk == NOBODY && r == s.(pcs := s.pcs[p := RelClear], lk := p)
    case RelClear => r == s.(pcs := s.pcs[p := WakePt], locked := false, pid := NOBODY)
    case WakePt => s.pt == NOBODY && r == s.(pcs := s.pcs[p := WakeAll], pt := p)
    case WakeAll => r == s.(pcs := Woken(s.pcs)[p := WakeLeave])
    case WakeLeave => r == s.(pcs := s.pcs[p := RelLeave], pt := NOBODY)
    case RelLeave => r == s.(pcs := s.pcs[p := Idle], lk := NOBODY)
  }

  /** kill, by anyone: under ptable.lock a sleeping victim becomes RUNNABLE. */
  ghost predicate Kill(s: Sys, p: nat, r: Sys) {
    p < |s.pcs| && s.pt == NOBODY && s.pcs[p] == Asleep && r == s.(pcs := s.pcs[p := SleepBack])
  }

  ghost predicate Moves(s: Sys, p: nat, r: Sys) {
    Step(s, p, r) || Kill(s, p, r)
  }

  ghost predicate Next(s: Sys, r: Sys) {
    exists p: nat :: Moves(s, p, r)
  }

  ghost predicate Init(s: Sys) {
    s.lk == NOBODY && s.pt == NOBODY && !s.locked && s.pid == NOBODY && forall i :: 0 <= i < |s.pcs| ==> s.pcs[i] == Idle
  }

  ghost predicate IsRun(ss: seq<Sys>) {
    && |ss| >= 1 && Init(ss[0])
    && forall i :: 0 <= i < |ss| - 1 ==> Next(ss[i], ss[i+1])
  }

  // ----- the invariant -----

  /** Each spin lock is held by exactly the process whose position says so. */
  ghost predicate LocksOk(s: Sys) {
    && (forall i :: 0 <= i < |s.pcs| ==> (HoldsLk(s.pcs[i]) <==> s.lk == i) && (HoldsPt(s.pcs[i]) <==> s.pt == i))
    && (s.lk == NOBODY || 0 <= s.lk < |s.pcs|) && (s.pt == NOBODY || 0 <= s.pt < |s.pcs|)
  }

  /** The sleep lock is set exactly while one process owns it, and pid names that process. */
  ghost predicate OwnerOk(s: Sys) {
    && (forall i :: 0 <= i < |s.pcs| ==> (Owns(s.pcs[i]) <==> s.locked && s.pid == i))
    && (s.locked ==> 0 <= s.pid < |s.pcs|)
    && (forall i :: 0 <= i < |s.pcs| && s.pcs[i] == AcqSet ==> !s.locked)
    && (forall i :: 0 <= i < |s.pcs| && WillWake(s.pcs[i]) ==> !s.locked)
  }

  /** The process that is about to wake the sleepers, which is the holder of lk->lk. */
  ghost predicate WakerComing(s: Sys) {
    0 <= s.lk < |s.pcs| && WillWake(s.pcs[s.lk])
  }

  /** Whoever sleeps, or has decided to, does so because the lock is set or will be woken. */
  ghost predicate SleepersOk(s: Sys) {
    forall i :: 0 <= i < |s.pcs| ==>
      && (s.pcs[i] in {SleepPt, SleepDrop} ==> s.locked)
      && (s.pcs[i] in {SleepMark, Asleep} ==> s.locked || WakerComing(s))
  }

  ghost predicate Inv(s: Sys) {
    LocksOk(s) && OwnerOk(s) && SleepersOk(s)
  }

  lemma EnterOk(s: Sys, p: nat, r: Sys)
    requires Inv(s) && Step(s, p, r) && s.pcs[p] in {Idle, AcqEnter}
    ensures Inv(r)
  {
  }

  lemma TestOk(s: Sys, p: nat, r: Sys)
    requires Inv(s) && Step(s, p, r) && s.pcs[p] == AcqTest
    ensures Inv(r)
  {
  }

  lemma TakeOk(s: Sys, p: nat, r: Sys)
    requires Inv(s) && Step(s, p, r) && s.pcs[p] in {AcqSet, AcqLeave, Holding}
    ensures Inv(r)
  {
  }

  lemma FallAsleepOk(s: Sys, p: nat, r: Sys)
    requires Inv(s) && Step(s, p, r) && s.pcs[p] in {SleepPt, SleepDrop}
    ensures Inv(r)
  {
  }

  lemma AsleepOk(s: Sys, p: nat, r: Sys)
    requires Inv(s) && Step(s, p, r) && s.pcs[p] in {SleepMark, SleepBack}
    ensures Inv(r)
  {
  }

  lemma ReleaseOk(s: Sys, p: nat, r: Sys)
    requires Inv(s) && Step(s, p, r) && s.pcs[p] in {RelEnter, RelLeave}
    ensures Inv(r)
  {
  }

  lemma ClearOk(s: Sys, p: nat, r: Sys)
    requires Inv(s) && Step(s, p, r) && s.pcs[p] == RelClear
    ensures Inv(r)
  {
  }

  lemma WakeOk(s: Sys, p: nat, r: Sys)
    requires Inv(s) && Step(s, p, r) && s.pcs[p] in {WakePt, WakeAll, WakeLeave}
    ensures Inv(r)
  {
  }

  lemma StepOk(s: Sys, p: nat, r: Sys)
    requires Inv(s) && Step(s, p, r)
    ensures Inv(r)
  {
    hide Inv;
    var pc := s.pcs[p];
    if pc in {Idle, AcqEnter} { EnterOk(s, p, r); }
    else if pc == AcqTest { TestOk(s, p, r); }
    else if pc in {AcqSet, AcqLeave, Holding} { TakeOk(s, p, r); }
    else if pc in {SleepPt, SleepDrop} { FallAsleepOk(s, p, r); }
    else if pc in {SleepMark, SleepBack} { AsleepOk(s, p, r); }
    else if pc in {RelEnter, RelLeave} { ReleaseOk(s, p, r); }
    else if pc == RelClear { ClearOk(s, p, r); }
    else { WakeOk(s, p, r); }
  }

  lemma KillOk(s: Sys, p: nat, r: Sys)
    requires Inv(s) && Kill(s, p, r)
    ensures Inv(r)
  {
  }

  lemma {:induction false} RunOk(ss: seq<Sys>, n: nat)
    requires IsRun(ss) && n < |ss|
    ensures Inv(ss[n])
  {
    if n > 0 {
      RunOk(ss, n - 1);
      assert Next(ss[n-1], ss[n]);
      var p: nat :| Moves(ss[n-1], p, ss[n]);
      if Step(ss[n-1], p, ss[n]) { StepOk(ss[n-1], p, ss[n]); } else { KillOk(ss[n-1], p, ss[n]); }
    }
  }

  /**
    No lost wakeup: in every state of every run, whenever the inner spin lock is free, a process
    that sleeps on the sleep lock does so while another process owns the lock, and that process is
    awake.
   */
  lemma NoLostWakeup(ss: seq<Sys>, n: nat, p: nat)
    requires IsRun(ss) && n < |ss| && p < |ss[n].pcs|
    requires ss[n].lk == NOBODY && ss[n].pcs[p] == Asleep
    ensures ss[n].locked && 0 <= ss[n].pid < |ss[n].pcs| && ss[n].pcs[ss[n].pid] in {Holding, RelEnter}
  {
    RunOk(ss, n);
  }

  /** At most one process holds the sleep lock. */
  lemma MutualExclusion(ss: seq<Sys>, n: nat, p: nat, q: nat)
    requires IsRun(ss) && n < |ss| && p < |ss[n].pcs| && q < |ss[n].pcs|
    requires ss[n].pcs[p] == Holding && ss[n].pcs[q] == Holding
    ensures p == q
  {
    RunOk(ss, n);
  }

  /** The process itself, if it waits for nobody, or else the one it waits for in the end. */
  ghost function Mover(s: Sys, p: nat): int
    requires p < |s.pcs|
  {
    var q := if s.pcs[p] in {AcqEnter, RelEnter} && s.lk != NOBODY then s.lk else p;
    if 0 <= q < |s.pcs| && s.pcs[q] in {SleepPt, WakePt, SleepBack} && s.pt != NOBODY then s.pt else q
  }

  lemma CanMove(s: Sys, p: nat) returns (r: Sys)
    requires Inv(s) && p < |s.pcs| && s.pcs[p] != Asleep
    ensures 0 <= Mover(s, p) < |s.pcs| && Step(s, Mover(s, p), r)
  {
    var m := Mover(s, p);
    match s.pcs[m]
    case Idle => r := s.(pcs := s.pcs[m := AcqEnter]);
    case AcqEnter => r := s.(pcs := s.pcs[m := AcqTest], lk := m);
    case AcqTest => r := s.(pcs := s.pcs[m := if s.locked then SleepPt else AcqSet]);
    case SleepPt => r := s.(pcs := s.pcs[m := SleepDrop], pt := m);
    case SleepDrop => r := s.(pcs := s.pcs[m := SleepMark], lk := NOBODY);
    case SleepMark => r := s.(pcs := s.pcs[m := Asleep], pt := NOBODY);
    case Asleep => r := s;
    case SleepBack => r := s.(pcs := s.pcs[m := AcqEnter]);
    case AcqSet => r := s.(pcs := s.pcs[m := AcqLeave], locked := true, pid := m);
    case AcqLeave => r := s.(pcs := s.pcs[m := Holding], lk := NOBODY);
    case Holding => r := s.(pcs := s.pcs[m := RelEnter]);
    case RelEnter => r := s.(pcs := s.pcs[m := RelClear], lk := m);
    case RelClear => r := s.(pcs := s.pcs[m := WakePt], locked := false, pid := NOBODY);
    case WakePt => r := s.(pcs := s.pcs[m := WakeAll], pt := m);
    case WakeAll => r := s.(pcs := Woken(s.pcs)[m := WakeLeave]);
    case WakeLeave => r := s.(pcs := s.pcs[m := RelLeave], pt := NOBODY);
    case RelLeave => r := s.(pcs := s.pcs[m := Idle], lk := NOBODY);
  }

  /** No deadlock: in every state of every run some process can take a step. */
  lemma NoDeadlock(ss: seq<Sys>, n: nat) returns (p: nat, r: Sys)
    requires IsRun(ss) && n < |ss| && |ss[n].pcs| > 0
    ensures Step(ss[n], p, r)
  {
    RunOk(ss, n);
    var s := ss[n];
    var q: nat := if s.pcs[0] != Asleep then 0 else if s.locked then s.pid else s.lk;
    r := CanMove(s, q);
    p := Mover(s, q);
  }
}
