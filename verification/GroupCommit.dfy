/**
  Group commit: file-system operations that begin, log blocks and end in any interleaving, the
  commit that starts when none is outstanding, crashes at any point, and recovery.  Proved for
  every run: a disk recovers to the effect of exactly the committed groups, each made of whole
  operations, and the log never overflows its reservation.
 */
module GroupCommit {
  import opened LogModel
  import opened Params
  import RunQueue

  datatype Write = Write(op: int, b: int, data: Block)

  /**
    What the system is doing: running operations; committing, with k disk writes made since the
    disk was d0, the logged contents being cs; or recovering, with t blocks installed since d0.
   */
  datatype Phase =
    | Running
    | Committing(d0: Disk, cs: seq<Block>, k: nat)
    | Recovering(d0: Disk, t: nat)

  /**
    disk, the pinned buffers, log.lh and the blocks each outstanding operation has logged; and the
    history: what every operation ever wrote, the writes since the last commit, and the committed
    groups.
   */
  datatype Sys = Sys(
    disk: Disk, cache: map<int, Block>, lh: seq<int>, active: map<int, set<int>>, phase: Phase,
    wrote: map<int, seq<Write>>, group: seq<Write>, hist: seq<seq<Write>>)

  datatype Event =
    | Begin(op: int)
    | LogWrite(op: int, b: int, data: Block)
    | End(op: int)
    | CommitWrite
    | CommitDone
    | Crash
    | RecoverWrite

  /** log_write's search for the block number: a block already in the header is absorbed. */
  ghost function Absorb(lh: seq<int>, b: int): seq<int> {
    if b in lh then lh else lh + [b]
  }

  /** The condition on which log_write panics. */
  predicate Panics(g: Geometry, n: nat) {
    n >= LOGSIZE || n >= g.size - 1
  }

  ghost predicate Enabled(g: Geometry, s: Sys, e: Event) {
    match e
    case Begin(op) => s.phase == Running && op !in s.wrote && |s.lh| + (|s.active| + 1) * MAXOPBLOCKS <= LOGSIZE
    case LogWrite(op, b, data) =>
      && s.phase == Running && op in s.active && IsHome(g, b) && |data| == BWORDS
      && |s.active[op] + {b}| <= MAXOPBLOCKS && !Panics(g, |s.lh|)
    case End(op) => s.phase == Running && op in s.active
    case CommitWrite => s.phase.Committing? && s.phase.k < 2 * |s.lh| + 2
    case CommitDone => s.phase.Committing? && s.phase.k == 2 * |s.lh| + 2
    case Crash => true
    case RecoverWrite => s.phase.Recovering?
  }

  /** The contents bread finds for the logged blocks. */
  ghost function Contents(s: Sys): (cs: seq<Block>)
    requires forall i :: 0 <= i < |s.lh| ==> s.lh[i] in s.cache
  {
    seq(|s.lh|, i requires 0 <= i < |s.lh| => s.cache[s.lh[i]])
  }

  ghost predicate Step(g: Geometry, s: Sys, e: Event, r: Sys) {
    Enabled(g, s, e) &&
    match e
    case Begin(op) => r == s.(active := s.active[op := {}], wrote := s.wrote[op := []])
    case LogWrite(op, b, data) =>
      && op in s.wrote
      && r == s.(cache := s.cache[b := data], lh := Absorb(s.lh, b), active := s.active[op := s.active[op] + {b}],
                 wrote := s.wrote[op := s.wrote[op] + [Write(op, b, data)]], group := s.group + [Write(op, b, data)])
    case End(op) =>
      var rest := s.active - {op};
      if rest != map[] || s.lh == [] then r == s.(active := rest)
      else
        && (forall i :: 0 <= i < |s.lh| ==> s.lh[i] in s.cache)
        && r == s.(active := rest, phase := Committing(s.disk, Contents(s), 0))
    case CommitWrite =>
      var Committing(d0, cs, k) := s.phase;
      && CommitPre(g, d0, s.lh, cs)
      && var t := s.(disk := CommitDisk(g, d0, s.lh, cs, k + 1), phase := Committing(d0, cs, k + 1));
         r == if k == |s.lh| then t.(hist := s.hist + [s.group], group := []) else t
    case CommitDone => r == s.(lh := [], cache := map[], phase := Running)
    case Crash => r == s.(lh := [], cache := map[], active := map[], group := [], phase := Recovering(s.disk, 0))
    case RecoverWrite =>
      var Recovering(d0, t) := s.phase;
      && DiskOk(g, d0) && HeadOk(g, d0) && t <= |Head(g, d0)|
      && r == if t < |Head(g, d0)|
              then s.(disk := Install(g, d0, Head(g, d0), t + 1), phase := Recovering(d0, t + 1))
              else s.(disk := Recovered(g, d0), phase := Running)
  }

  lemma BeginStep(g: Geometry, s: Sys, op: int) returns (r: Sys)
    requires op !in s.wrote && op !in s.active
    ensures Enabled(g, s, Begin(op)) <==> s.phase == Running && |s.lh| + (|s.active| + 1) * MAXOPBLOCKS <= LOGSIZE
    ensures Enabled(g, s, Begin(op)) ==> Step(g, s, Begin(op), r)
    ensures r == s.(active := s.active[op := {}], wrote := s.wrote[op := []]) && |r.active| == |s.active| + 1
  {
    r := s.(active := s.active[op := {}], wrote := s.wrote[op := []]);
    assert r.active.Keys == s.active.Keys + {op};
  }

  /** A commit that began in s after k of its disk writes. */
  ghost function CommitAt(g: Geometry, s: Sys, k: nat): Sys
    requires s.phase.Committing? && CommitPre(g, s.phase.d0, s.lh, s.phase.cs) && k <= 2 * |s.lh| + 2
  {
    var Committing(d0, cs, _) := s.phase;
    var t := s.(disk := CommitDisk(g, d0, s.lh, cs, k), phase := Committing(d0, cs, k));
    if k > |s.lh| then t.(hist := s.hist + [s.group], group := []) else t
  }

  /** The states of a commit from its begin to its end. */
  ghost function CommitStates(g: Geometry, s: Sys): (ss: seq<Sys>)
    requires s.phase.Committing? && CommitPre(g, s.phase.d0, s.lh, s.phase.cs)
    ensures |ss| == 2 * |s.lh| + 3 && forall k :: 0 <= k < |ss| ==> ss[k] == CommitAt(g, s, k)
  {
    seq(2 * |s.lh| + 3, k requires 0 <= k < 2 * |s.lh| + 3 => CommitAt(g, s, k))
  }

  ghost function CommitWrites(n: nat): (es: seq<Event>)
    ensures |es| == n && forall k :: 0 <= k < n ==> es[k] == CommitWrite
  {
    seq(n, _ => CommitWrite)
  }

  lemma EndAlone(g: Geometry, s: Sys, op: int)
    requires s.phase == Running && op in s.active && (s.active - {op} != map[] || s.lh == [])
    ensures Step(g, s, End(op), s.(active := s.active - {op}))
  {
  }

  lemma CommitStep(g: Geometry, s: Sys, k: nat)
    requires s.phase.Committing? && CommitPre(g, s.phase.d0, s.lh, s.phase.cs) && k < 2 * |s.lh| + 2
    ensures Step(g, CommitAt(g, s, k), CommitWrite, CommitAt(g, s, k + 1))
  {
    hide CommitDisk;
  }

  /** Every listed block is pinned, the log can be committed and op is the last operation. */
  ghost predicate LastOut(g: Geometry, s: Sys, op: int) {
    && s.phase == Running && op in s.active && s.active - {op} == map[] && s.lh != []
    && (forall i :: 0 <= i < |s.lh| ==> s.lh[i] in s.cache) && CommitPre(g, s.disk, s.lh, Contents(s))
  }

  ghost function EndState(g: Geometry, s: Sys, op: int): Sys
    requires LastOut(g, s, op)
  {
    s.(active := map[], phase := Committing(s.disk, Contents(s), 0))
  }

  ghost function DoneState(g: Geometry, s: Sys, op: int): Sys
    requires LastOut(g, s, op)
  {
    s.(disk := CommitDisk(g, s.disk, s.lh, Contents(s), 2 * |s.lh| + 2), cache := map[], lh := [],
       active := map[], hist := s.hist + [s.group], group := [])
  }

  lemma EndSteps(g: Geometry, s: Sys, op: int)
    requires LastOut(g, s, op)
    ensures Step(g, s, End(op), EndState(g, s, op)) && CommitAt(g, EndState(g, s, op), 0) == EndState(g, s, op)
    ensures Step(g, CommitAt(g, EndState(g, s, op), 2 * |s.lh| + 2), CommitDone, DoneState(g, s, op))
  {
    CommitStart(g, s.disk, s.lh, Contents(s));
    hide CommitDisk, CommitPre;
  }

  /** The last operation out, all disk writes of the commit, and its end, are a run. */
  lemma EndIsRun(g: Geometry, s: Sys, op: int) returns (ss: seq<Sys>, es: seq<Event>)
    requires LastOut(g, s, op)
    ensures IsRun(g, ss, es) && |es| == 2 * |s.lh| + 4 && ss[0] == s && es[0] == End(op)
    ensures ss[|es|] == DoneState(g, s, op)
    ensures forall k :: 0 <= k <= 2 * |s.lh| + 2 ==> ss[k + 1] == CommitAt(g, EndState(g, s, op), k)
  {
    hide Step, CommitAt, DoneState, CommitStates, CommitPre, Contents, CommitDisk;
    var n, s0 := 2 * |s.lh| + 2, EndState(g, s, op);
    var cs := CommitStates(g, s0);
    EndSteps(g, s, op);
    ss, es := [s] + cs + [DoneState(g, s, op)], [End(op)] + CommitWrites(n) + [CommitDone];
    forall i | 0 <= i < |es| ensures Step(g, ss[i], es[i], ss[i+1]) {
      if i == 0 {
        assert ss[1] == cs[0] == CommitAt(g, s0, 0);
      } else if i <= n {
        assert ss[i] == cs[i-1] && ss[i+1] == cs[i] && es[i] == CommitWrite;
        CommitStep(g, s0, i - 1);
      } else {
        assert ss[i] == cs[n] && es[i] == CommitDone;
      }
    }
  }

  lemma CommitStart(g: Geometry, d: Disk, bs: seq<int>, cs: seq<Block>)
    requires CommitPre(g, d, bs, cs)
    ensures CommitDisk(g, d, bs, cs, 0) == d
  {
  }

  // ----- the meaning of writes -----

  ghost function Replay(d: Disk, ws: seq<Write>): (r: Disk)
    ensures |r| == |d|
  {
    if ws == [] then d
    else
      var r := Replay(d, ws[..|ws|-1]);
      var w := ws[|ws|-1];
      if 0 <= w.b < |r| then r[w.b := w.data] else r
  }

  ghost function ReplayAll(d: Disk, hist: seq<seq<Write>>): (r: Disk)
    ensures |r| == |d|
  {
    if hist == [] then d else Replay(ReplayAll(d, hist[..|hist|-1]), hist[|hist|-1])
  }

  /** What operation op wrote in ws, in order. */
  ghost function By(ws: seq<Write>, op: int): (r: seq<Write>)
    ensures |r| <= |ws|
  {
    if ws == [] then []
    else if ws[|ws|-1].op == op then By(ws[..|ws|-1], op) + [ws[|ws|-1]]
    else By(ws[..|ws|-1], op)
  }

  /** Reserved but unused log space. */
  ghost function Unused(active: map<int, set<int>>): (n: int) {
    UnusedOf(active.Keys, active)
  }

  /** Some element of a set. */
  ghost function Pick<T>(s: set<T>): (x: T)
    requires s != {}
    ensures x in s
  {
    var x :| x in s;
    x
  }

  ghost function UnusedOf(ops: set<int>, active: map<int, set<int>>): (n: int)
    requires ops <= active.Keys
    decreases |ops|
  {
    if ops == {} then 0
    else
      var op := Pick(ops);
      MAXOPBLOCKS - |active[op]| + UnusedOf(ops - {op}, active)
  }

  // ----- the invariant -----

  /** log.lh lists distinct home blocks, and exactly those are pinned. */
  ghost predicate PinnedOk(g: Geometry, lh: seq<int>, cache: map<int, Block>) {
    && RunQueue.Distinct(lh) && BlocksOk(g, lh)
    && (forall b :: b in cache <==> b in lh)
    && (forall b :: b in cache ==> |cache[b]| == BWORDS)
  }

  /** Every outstanding operation keeps within its share; logged blocks plus unused shares fit the log. */
  ghost predicate ReservedOk(lh: seq<int>, active: map<int, set<int>>) {
    && (forall op :: op in active ==> |active[op]| <= MAXOPBLOCKS)
    && (forall op, b :: op in active && b in active[op] ==> b in lh)
    && |lh| + Unused(active) <= LOGSIZE
  }

  ghost predicate LogOk(g: Geometry, s: Sys) {
    PinnedOk(g, s.lh, s.cache) && ReservedOk(s.lh, s.active)
  }

  /** An operation that is outstanding or ended since the last commit has all its writes in the group. */
  ghost predicate OpsOk(s: Sys) {
    && (forall op :: op in s.active ==> op in s.wrote && By(s.group, op) == s.wrote[op])
    && (forall op :: By(s.group, op) != [] ==> op in s.wrote && By(s.group, op) == s.wrote[op])
  }

  /** A committed group holds whole operations, and no operation is split over two groups. */
  ghost predicate HistOk(s: Sys) {
    && (forall i, op :: 0 <= i < |s.hist| && By(s.hist[i], op) != [] ==>
          op in s.wrote && By(s.hist[i], op) == s.wrote[op] && op !in s.active && By(s.group, op) == [])
    && (forall i, j, op :: 0 <= i < j < |s.hist| && By(s.hist[i], op) != [] ==> By(s.hist[j], op) == [])
  }

  /** What bread yields: the pinned buffer if there is one, the disk otherwise. */
  ghost function View(s: Sys, b: int): Block
    requires 0 <= b < |s.disk|
  {
    if b in s.cache then s.cache[b] else s.disk[b]
  }

  /** base is the logical contents as of the last commit. */
  ghost predicate PhaseOk(g: Geometry, s: Sys, base: Disk) {
    && DiskOk(g, s.disk) && HeadOk(g, s.disk) && |base| == g.blocks
    && match s.phase
       case Running =>
         && Head(g, s.disk) == [] && SameHome(g, s.disk, base)
         && (forall b :: IsHome(g, b) ==> View(s, b) == Replay(base, s.group)[b])
       case Committing(d0, cs, k) =>
         && s.active == map[] && CommitPre(g, d0, s.lh, cs) && k <= 2 * |s.lh| + 2
         && s.disk == CommitDisk(g, d0, s.lh, cs, k)
         && SameHome(g, if k <= |s.lh| then d0 else Overlay(d0, s.lh, cs), base)
         && SameHome(g, Overlay(d0, s.lh, cs), Replay(base, s.group))
       case Recovering(d0, t) =>
         && s.active == map[] && s.lh == [] && s.group == [] && DiskOk(g, d0) && HeadOk(g, d0) && t <= |Head(g, d0)|
         && s.disk == Install(g, d0, Head(g, d0), t) && SameHome(g, Recovered(g, d0), base)
  }

  ghost predicate Inv(g: Geometry, s: Sys, d: Disk) {
    && |d| == g.blocks && GeometryOk(g)
    && LogOk(g, s) && OpsOk(s) && HistOk(s) && PhaseOk(g, s, ReplayAll(d, s.hist))
  }

  /** In every good state the disk recovers to the effect of exactly the committed groups. */
  lemma Durable(g: Geometry, s: Sys, d: Disk)
    requires Inv(g, s, d)
    ensures DiskOk(g, s.disk) && HeadOk(g, s.disk) && SameHome(g, Recovered(g, s.disk), ReplayAll(d, s.hist))
  {
    match s.phase
    case Running => RecoveredEmpty(g, s.disk);
    case Committing(d0, cs, k) => CommitAtomic(g, d0, s.lh, cs, k);
    case Recovering(d0, t) =>
      assert InRecovery(g, d0, s.disk);
      InRecoverySame(g, d0, s.disk);
  }

  // ----- reservations -----

  /** The reservation total does not depend on the order in which operations are counted. */
  lemma {:induction false} UnusedOfAt(ops: set<int>, active: map<int, set<int>>, op: int)
    requires ops <= active.Keys && op in ops
    ensures UnusedOf(ops, active) == MAXOPBLOCKS - |active[op]| + UnusedOf(ops - {op}, active)
    decreases |ops|
  {
    var first := Pick(ops);
    if first != op {
      UnusedOfAt(ops - {first}, active, op);
      UnusedOfAt(ops - {op}, active, first);
      assert ops - {first} - {op} == ops - {op} - {first};
    }
  }

  lemma {:induction false} UnusedOfFrame(ops: set<int>, a: map<int, set<int>>, b: map<int, set<int>>)
    requires ops <= a.Keys && ops <= b.Keys && forall op :: op in ops ==> a[op] == b[op]
    ensures UnusedOf(ops, a) == UnusedOf(ops, b)
    decreases |ops|
  {
    if ops != {} {
      var op := Pick(ops);
      UnusedOfAt(ops, a, op);
      UnusedOfAt(ops, b, op);
      UnusedOfFrame(ops - {op}, a, b);
    }
  }

  lemma {:induction false} UnusedOfBound(ops: set<int>, active: map<int, set<int>>)
    requires ops <= active.Keys && forall op :: op in active ==> |active[op]| <= MAXOPBLOCKS
    ensures 0 <= UnusedOf(ops, active) <= |ops| * MAXOPBLOCKS
    decreases |ops|
  {
    if ops != {} {
      var op := Pick(ops);
      UnusedOfAt(ops, active, op);
      UnusedOfBound(ops - {op}, active);
    }
  }

  lemma UnusedAt(active: map<int, set<int>>, op: int)
    requires op in active
    ensures Unused(active) == MAXOPBLOCKS - |active[op]| + Unused(active - {op})
  {
    UnusedOfAt(active.Keys, active, op);
    assert (active - {op}).Keys == active.Keys - {op};
    UnusedOfFrame(active.Keys - {op}, active, active - {op});
  }

  lemma UnusedBound(active: map<int, set<int>>)
    requires forall op :: op in active ==> |active[op]| <= MAXOPBLOCKS
    ensures 0 <= Unused(active) <= |active| * MAXOPBLOCKS
  {
    UnusedOfBound(active.Keys, active);
  }

  lemma UnusedUpdate(active: map<int, set<int>>, op: int, bs: set<int>)
    ensures Unused(active[op := bs]) == MAXOPBLOCKS - |bs| + Unused(active - {op})
  {
    UnusedAt(active[op := bs], op);
    assert active[op := bs] - {op} == active - {op};
  }

  lemma BeginLog(lh: seq<int>, active: map<int, set<int>>, op: int)
    requires ReservedOk(lh, active) && op !in active && |lh| + (|active| + 1) * MAXOPBLOCKS <= LOGSIZE
    ensures ReservedOk(lh, active[op := {}])
  {
    hide Unused;
    UnusedUpdate(active, op, {});
    assert active - {op} == active;
    UnusedBound(active);
  }

  lemma EndLog(lh: seq<int>, active: map<int, set<int>>, op: int)
    requires ReservedOk(lh, active) && op in active
    ensures ReservedOk(lh, active - {op})
  {
    hide Unused;
    UnusedAt(active, op);
  }

  /** Logging within an operation's share never needs more than its reservation. */
  lemma WriteReserved(lh: seq<int>, active: map<int, set<int>>, op: int, b: int)
    requires ReservedOk(lh, active) && op in active && |active[op] + {b}| <= MAXOPBLOCKS
    ensures ReservedOk(Absorb(lh, b), active[op := active[op] + {b}]) && |Absorb(lh, b)| <= LOGSIZE
  {
    hide Unused;
    var bs := active[op] + {b};
    UnusedAt(active, op);
    UnusedUpdate(active, op, bs);
    UnusedBound(active - {op});
    if b in active[op] { assert bs == active[op]; }
  }

  lemma WritePinned(g: Geometry, lh: seq<int>, cache: map<int, Block>, b: int, data: Block)
    requires PinnedOk(g, lh, cache) && IsHome(g, b) && |data| == BWORDS && |lh| < g.size - 1
    requires |Absorb(lh, b)| <= LOGSIZE
    ensures PinnedOk(g, Absorb(lh, b), cache[b := data])
  {
    assert forall x :: x in Absorb(lh, b) <==> x in lh || x == b;
  }

  // ----- operations and groups -----

  lemma ByAppend(ws: seq<Write>, w: Write, op: int)
    ensures By(ws + [w], op) == if w.op == op then By(ws, op) + [w] else By(ws, op)
  {
    assert (ws + [w])[..|ws|] == ws;
  }

  lemma ReplayAppend(d: Disk, ws: seq<Write>, w: Write)
    requires 0 <= w.b < |d|
    ensures Replay(d, ws + [w]) == Replay(d, ws)[w.b := w.data]
  {
    assert (ws + [w])[..|ws|] == ws;
  }

  lemma BeginOk(g: Geometry, s: Sys, d: Disk, op: int, r: Sys)
    requires Inv(g, s, d) && Step(g, s, Begin(op), r)
    ensures Inv(g, r, d)
  {
    BeginLog(s.lh, s.active, op);
  }

  lemma WriteOps(s: Sys, w: Write, r: Sys)
    requires OpsOk(s) && HistOk(s) && w.op in s.active && w.op in s.wrote
    requires r.group == s.group + [w] && r.wrote == s.wrote[w.op := s.wrote[w.op] + [w]]
    requires r.active.Keys == s.active.Keys && r.hist == s.hist
    ensures OpsOk(r) && HistOk(r)
  {
    forall op ensures By(r.group, op) == if w.op == op then By(s.group, op) + [w] else By(s.group, op) {
      ByAppend(s.group, w, op);
    }
    hide By;
  }

  lemma WriteOk(g: Geometry, s: Sys, d: Disk, op: int, b: int, data: Block, r: Sys)
    requires Inv(g, s, d) && Step(g, s, LogWrite(op, b, data), r)
    ensures Inv(g, r, d)
  {
    hide By, Unused;
    WriteReserved(s.lh, s.active, op, b);
    WritePinned(g, s.lh, s.cache, b, data);
    WriteOps(s, Write(op, b, data), r);
    ReplayAppend(ReplayAll(d, s.hist), s.group, Write(op, b, data));
  }

  /** What the commit is about to log is what the group's writes amount to. */
  lemma ContentsMean(g: Geometry, s: Sys, base: Disk)
    requires LogOk(g, s) && PhaseOk(g, s, base) && s.phase == Running
    ensures CommitPre(g, s.disk, s.lh, Contents(s))
    ensures SameHome(g, Overlay(s.disk, s.lh, Contents(s)), Replay(base, s.group))
  {
    forall b | IsHome(g, b) ensures Overlay(s.disk, s.lh, Contents(s))[b] == Replay(base, s.group)[b] {
      OverlayAt(s.disk, s.lh, Contents(s), b);
      if b in s.lh {
        var i :| 0 <= i < |s.lh| && s.lh[i] == b;
        assert Contents(s)[i] == s.cache[b];
      }
    }
  }

  lemma EndOk(g: Geometry, s: Sys, d: Disk, op: int, r: Sys)
    requires Inv(g, s, d) && Step(g, s, End(op), r)
    ensures Inv(g, r, d)
  {
    hide By, Unused;
    EndLog(s.lh, s.active, op);
    if s.active - {op} == map[] && s.lh != [] {
      ContentsMean(g, s, ReplayAll(d, s.hist));
    }
  }

  lemma CommitOps(s: Sys, r: Sys)
    requires OpsOk(s) && HistOk(s) && s.active == map[] == r.active
    requires r.wrote == s.wrote && r.group == [] && r.hist == s.hist + [s.group]
    ensures OpsOk(r) && HistOk(r)
  {
    assert forall op :: By(r.group, op) == [];
    assert forall i :: 0 <= i < |r.hist| ==> r.hist[i] == if i < |s.hist| then s.hist[i] else s.group;
  }

  /** The bookkeeping invariants do not look at disk and phase. */
  lemma OpsFrame(s: Sys, r: Sys)
    ensures r.wrote == s.wrote && r.group == s.group && r.hist == s.hist && r.active == s.active ==>
      (OpsOk(s) <==> OpsOk(r)) && (HistOk(s) <==> HistOk(r))
    ensures r.lh == s.lh && r.cache == s.cache && r.active == s.active ==> forall g :: LogOk(g, s) <==> LogOk(g, r)
  {
  }

  lemma ReplayCommit(d: Disk, hist: seq<seq<Write>>, group: seq<Write>)
    ensures ReplayAll(d, hist + [group]) == Replay(ReplayAll(d, hist), group)
    ensures forall e :: Replay(e, []) == e
  {
    assert (hist + [group])[..|hist|] == hist;
  }

  lemma CommitWriteOk(g: Geometry, s: Sys, d: Disk, r: Sys)
    requires Inv(g, s, d) && Step(g, s, CommitWrite, r)
    ensures Inv(g, r, d)
  {
    hide SameHome, Recovered, CommitDisk, Overlay, Replay, ReplayAll, HistOk, OpsOk, LogOk, CommitPre, DiskOk, HeadOk;
    var Committing(d0, cs, k) := s.phase;
    CommitAtomic(g, d0, s.lh, cs, k + 1);
    OpsFrame(s, r);
    if k == |s.lh| {
      CommitOps(s, r);
      ReplayCommit(d, s.hist, s.group);
    }
  }

  lemma CommitDoneOk(g: Geometry, s: Sys, d: Disk, r: Sys)
    requires Inv(g, s, d) && Step(g, s, CommitDone, r)
    ensures Inv(g, r, d)
  {
    hide By, Unused, Replay, Overlay, CommitDisk, Recovered, HistOk, OpsOk;
    var Committing(d0, cs, k) := s.phase;
    CommitFinal(g, d0, s.lh, cs);
    OpsFrame(s, r);
  }

  lemma CrashOk(g: Geometry, s: Sys, d: Disk, r: Sys)
    requires Inv(g, s, d) && Step(g, s, Crash, r)
    ensures Inv(g, r, d)
  {
    hide Recovered, CommitDisk, Overlay, Replay;
    Durable(g, s, d);
  }

  /** After recovery nothing is pinned and nothing is pending, so the disk is all there is. */
  lemma RecoveredRuns(g: Geometry, r: Sys, e: Disk, base: Disk)
    requires r.phase == Running && r.disk == e && r.group == [] && PinnedOk(g, [], r.cache) && |base| == g.blocks
    requires DiskOk(g, e) && HeadOk(g, e) && Head(g, e) == [] && SameHome(g, e, base)
    ensures PhaseOk(g, r, base)
  {
  }

  lemma RecoverWriteOk(g: Geometry, s: Sys, d: Disk, r: Sys)
    requires Inv(g, s, d) && Step(g, s, RecoverWrite, r)
    ensures Inv(g, r, d)
  {
    hide Recovered, Install, SameHome, ReplayAll, Unused, By, HistOk, OpsOk;
    var Recovering(d0, t) := s.phase;
    OpsFrame(s, r);
    if t < |Head(g, d0)| {
      HeadAfterInstall(g, d0, Head(g, d0), t + 1);
    } else {
      RecoveredRuns(g, r, Recovered(g, d0), ReplayAll(d, s.hist));
    }
  }

  /** Every step keeps the invariant. */
  lemma StepOk(g: Geometry, s: Sys, d: Disk, e: Event, r: Sys)
    requires Inv(g, s, d) && Step(g, s, e, r)
    ensures Inv(g, r, d)
  {
    hide Inv, Step;
    match e
    case Begin(op) => BeginOk(g, s, d, op, r);
    case LogWrite(op, b, data) => WriteOk(g, s, d, op, b, data, r);
    case End(op) => EndOk(g, s, d, op, r);
    case CommitWrite => CommitWriteOk(g, s, d, r);
    case CommitDone => CommitDoneOk(g, s, d, r);
    case Crash => CrashOk(g, s, d, r);
    case RecoverWrite => RecoverWriteOk(g, s, d, r);
  }

  lemma PinnedAll(g: Geometry, s: Sys)
    requires PinnedOk(g, s.lh, s.cache)
    ensures forall i :: 0 <= i < |s.lh| ==> s.lh[i] in s.cache
  {
    forall i | 0 <= i < |s.lh| ensures s.lh[i] in s.cache { assert s.lh[i] in s.lh; }
  }

  /** An enabled event can always be taken: the step's own side conditions follow from the invariant. */
  lemma Progress(g: Geometry, s: Sys, d: Disk, e: Event) returns (r: Sys)
    requires Inv(g, s, d) && Enabled(g, s, e)
    ensures Step(g, s, e, r)
  {
    hide Recovered, Install, CommitDisk, Overlay, Replay, ReplayAll;
    hide SameHome, HistOk, BlocksOk, RunQueue.Distinct, ReservedOk, Unused, By;
    match e
    case Begin(op) => r := s.(active := s.active[op := {}], wrote := s.wrote[op := []]);
    case LogWrite(op, b, data) =>
      r := s.(cache := s.cache[b := data], lh := Absorb(s.lh, b), active := s.active[op := s.active[op] + {b}],
              wrote := s.wrote[op := s.wrote[op] + [Write(op, b, data)]], group := s.group + [Write(op, b, data)]);
    case End(op) =>
      var rest := s.active - {op};
      PinnedAll(g, s);
      r := if rest != map[] || s.lh == [] then s.(active := rest)
           else s.(active := rest, phase := Committing(s.disk, Contents(s), 0));
    case CommitWrite =>
      var Committing(d0, cs, k) := s.phase;
      var t := s.(disk := CommitDisk(g, d0, s.lh, cs, k + 1), phase := Committing(d0, cs, k + 1));
      r := if k == |s.lh| then t.(hist := s.hist + [s.group], group := []) else t;
    case CommitDone => r := s.(lh := [], cache := map[], phase := Running);
    case Crash => r := s.(lh := [], cache := map[], active := map[], group := [], phase := Recovering(s.disk, 0));
    case RecoverWrite =>
      var Recovering(d0, t) := s.phase;
      r := if t < |Head(g, d0)| then s.(disk := Install(g, d0, Head(g, d0), t + 1), phase := Recovering(d0, t + 1))
           else s.(disk := Recovered(g, d0), phase := Running);
  }

  // ----- whole runs -----

  ghost predicate Init(g: Geometry, s: Sys, d: Disk) {
    && DiskOk(g, d) && HeadOk(g, d) && Head(g, d) == []
    && s == Start(d)
  }

  /** Nothing has happened yet on disk d. */
  ghost function Start(d: Disk): Sys {
    Sys(d, map[], [], map[], Running, map[], [], [])
  }

  ghost predicate IsRun(g: Geometry, ss: seq<Sys>, es: seq<Event>) {
    |ss| == |es| + 1 && forall i :: 0 <= i < |es| ==> Step(g, ss[i], es[i], ss[i+1])
  }

  lemma InitOk(g: Geometry, s: Sys, d: Disk)
    requires Init(g, s, d)
    ensures Inv(g, s, d)
  {
  }

  lemma {:induction false} RunInv(g: Geometry, ss: seq<Sys>, es: seq<Event>, d: Disk, n: nat)
    requires IsRun(g, ss, es) && Init(g, ss[0], d) && n < |ss|
    ensures Inv(g, ss[n], d)
  {
    hide Inv, Step, Init;
    if n == 0 {
      InitOk(g, ss[0], d);
    } else {
      RunInv(g, ss, es, d, n - 1);
      assert Step(g, ss[n-1], es[n-1], ss[n]);
      StepOk(g, ss[n-1], d, es[n-1], ss[n]);
    }
  }

  /**
    Group commit with crashes: in every state of every run the disk recovers to the effect of
    exactly the committed groups in order; every group holds whole operations only, none of them
    still outstanding and none split over two groups; a commit in progress has no operation
    outstanding; logged block numbers are distinct; and logged blocks plus unused reservations
    never exceed the log.
   */
  lemma GroupCommitSafe(g: Geometry, ss: seq<Sys>, es: seq<Event>, d: Disk, n: nat)
    requires IsRun(g, ss, es) && Init(g, ss[0], d) && n < |ss|
    ensures var s := ss[n];
      && DiskOk(g, s.disk) && HeadOk(g, s.disk) && SameHome(g, Recovered(g, s.disk), ReplayAll(d, s.hist))
      && HistOk(s) && (s.phase.Committing? ==> s.active == map[])
      && RunQueue.Distinct(s.lh) && |s.lh| + Unused(s.active) <= LOGSIZE && Unused(s.active) >= 0
  {
    RunInv(g, ss, es, d, n);
    Durable(g, ss[n], d);
    UnusedBound(ss[n].active);
  }

  // ----- log_write's panic -----

  /**
    log_write tests for room before it looks whether the block is already logged.  So an operation
    within its share is refused exactly if the log holds as many blocks as it can, even if the block
    needs no new room.  In a log of more than LOGSIZE blocks that is when all three shares are used
    up, and then the block is one that the operation has logged before.
   */
  lemma RefusedWhen(g: Geometry, s: Sys, d: Disk, op: int, b: int)
    requires Inv(g, s, d) && op in s.active && |s.active[op] + {b}| <= MAXOPBLOCKS
    ensures Panics(g, |s.lh|) <==> |s.lh| == Min(LOGSIZE, g.size - 1)
    ensures g.size > LOGSIZE && Panics(g, |s.lh|) ==> Unused(s.active) == 0 && b in s.active[op] && b in s.lh
  {
    hide Unused;
    UnusedAt(s.active, op);
    UnusedBound(s.active - {op});
    UnusedBound(s.active);
    if b !in s.active[op] { assert |s.active[op] + {b}| == |s.active[op]| + 1; }
  }

  /** A block that is new to its operation always finds room in a log of more than LOGSIZE blocks. */
  lemma FreshBlockFits(g: Geometry, s: Sys, d: Disk, op: int, b: int)
    requires Inv(g, s, d) && op in s.active && b !in s.active[op] && |s.active[op] + {b}| <= MAXOPBLOCKS
    ensures |s.lh| < LOGSIZE && (g.size > LOGSIZE ==> !Panics(g, |s.lh|))
  {
    hide Unused;
    UnusedAt(s.active, op);
    UnusedBound(s.active - {op});
    assert |s.active[op] + {b}| == |s.active[op]| + 1;
  }

  /** Operation op logs block b within its share and log_write panics. */
  ghost predicate Refused(g: Geometry, s: Sys, op: int, b: int) {
    && s.phase == Running && op in s.active && |s.active[op] + {b}| <= MAXOPBLOCKS
    && IsHome(g, b) && Panics(g, |s.lh|)
  }

  ghost predicate SomeRefused(g: Geometry, s: Sys) {
    exists op, b :: Refused(g, s, op, b)
  }

  ghost predicate SomeFreshRefused(g: Geometry, s: Sys) {
    exists op, b :: Refused(g, s, op, b) && b !in s.active[op]
  }

  ghost predicate StartsAt(g: Geometry, d: Disk, ss: seq<Sys>, es: seq<Event>) {
    IsRun(g, ss, es) && Init(g, ss[0], d)
  }

  /** A disk with an empty log header. */
  ghost function Zeroes(g: Geometry): (d: Disk)
    requires GeometryOk(g)
    ensures DiskOk(g, d) && HeadOk(g, d) && Head(g, d) == []
  {
    seq(g.blocks, _ => seq(BWORDS, _ => 0))
  }

  ghost function Range(a: nat, n: nat): (r: set<int>)
    ensures |r| == n && forall x :: x in r <==> a <= x < a + n
  {
    if n == 0 then {} else Range(a, n - 1) + {a + n - 1}
  }

  /** The header after the blocks h, h + 1, ... have been logged. */
  ghost function Numbers(h: nat, n: nat): (r: seq<int>)
    ensures |r| == n && forall i :: 0 <= i < n ==> r[i] == h + i
  {
    seq(n, i => h + i)
  }

  /** Three outstanding operations have logged n blocks from h on, ten each as far as they go. */
  ghost predicate Filled(s: Sys, h: nat, n: nat) {
    && s.phase == Running && s.lh == Numbers(h, n)
    && forall op :: 0 <= op < 3 ==> op in s.active && op in s.wrote && s.active[op] == Range(h + 10 * op, Share(n, op))
  }

  /** How many of the first n blocks operation op has logged. */
  ghost function Share(n: nat, op: nat): nat {
    if n <= 10 * op then 0 else if n >= 10 * op + 10 then 10 else n - 10 * op
  }

  lemma FillStart(g: Geometry, h: nat) returns (ss: seq<Sys>, es: seq<Event>)
    requires GeometryOk(g)
    ensures IsRun(g, ss, es) && Init(g, ss[0], Zeroes(g)) && Filled(ss[|ss|-1], h, 0)
  {
    hide Step;
    var s0 := Start(Zeroes(g));
    assert s0.active == map[] && |s0.active| == 0;
    var s1 := BeginStep(g, s0, 0);
    var s2 := BeginStep(g, s1, 1);
    var s3 := BeginStep(g, s2, 2);
    ss, es := [s0, s1, s2, s3], [Begin(0), Begin(1), Begin(2)];
    assert Numbers(h, 0) == [] && Range(h, 0) == Range(h + 10, 0) == Range(h + 20, 0) == {};
  }

  lemma RangeMore(a: nat, n: nat)
    ensures Range(a, n) + {a + n} == Range(a, n + 1)
  {
  }

  lemma NumbersMore(h: nat, n: nat)
    ensures h + n !in Numbers(h, n) && Numbers(h, n) + [h + n] == Numbers(h, n + 1)
  {
  }

  lemma FilledMore(s: Sys, h: nat, n: nat, op: nat, r: Sys)
    requires Filled(s, h, n) && n < 30 && op < 3 && 10 * op <= n < 10 * op + 10 && op in s.active
    requires r.phase == Running && r.lh == s.lh + [h + n] && forall x :: x in s.wrote ==> x in r.wrote
    requires r.active == s.active[op := s.active[op] + {h + n}]
    ensures Filled(r, h, n + 1)
  {
    hide Range, Numbers, Share;
    NumbersMore(h, n);
    forall x | 0 <= x < 3 ensures x in r.active && x in r.wrote && r.active[x] == Range(h + 10 * x, Share(n + 1, x)) {
      ShareMore(n, op, x);
      if x == op { RangeMore(h + 10 * op, n - 10 * op); }
    }
  }

  lemma ShareMore(n: nat, op: nat, x: nat)
    requires op < 3 && x < 3 && 10 * op <= n < 10 * op + 10
    ensures Share(n, op) == n - 10 * op && Share(n + 1, x) == if x == op then n + 1 - 10 * op else Share(n, x)
  {
  }

  lemma FillMore(g: Geometry, s: Sys, h: nat, n: nat, op: nat) returns (r: Sys, e: Event)
    requires Filled(s, h, n) && n < 30 && op < 3 && 10 * op <= n < 10 * op + 10 && n < g.size - 1 && IsHome(g, h + n)
    ensures Step(g, s, e, r) && Filled(r, h, n + 1)
  {
    hide Range, Numbers;
    var b, data := h + n, seq(BWORDS, _ => 0);
    var bs := s.active[op] + {b};
    RangeMore(h + 10 * op, n - 10 * op);
    NumbersMore(h, n);
    e := LogWrite(op, b, data);
    r := s.(cache := s.cache[b := data], lh := s.lh + [b], active := s.active[op := bs],
            wrote := s.wrote[op := s.wrote[op] + [Write(op, b, data)]], group := s.group + [Write(op, b, data)]);
    FilledMore(s, h, n, op, r);
  }

  lemma {:induction false} Fill(g: Geometry, h: nat, n: nat) returns (ss: seq<Sys>, es: seq<Event>)
    requires GeometryOk(g) && n <= 30 && n < g.size && g.start + g.size <= h && h + n <= g.blocks
    ensures IsRun(g, ss, es) && Init(g, ss[0], Zeroes(g)) && Filled(ss[|ss|-1], h, n)
  {
    hide Filled, Step, Init;
    if n == 0 {
      ss, es := FillStart(g, h);
    } else {
      ss, es := Fill(g, h, n - 1);
      var r, e := FillMore(g, ss[|ss|-1], h, n - 1, (n - 1) / 10);
      ss, es := ss + [r], es + [e];
    }
  }

  /** With a log of at most LOGSIZE blocks, header included, a run leads to a refused new block. */
  lemma SmallLogPanics(g: Geometry) returns (ss: seq<Sys>, es: seq<Event>)
    requires GeometryOk(g) && g.size <= LOGSIZE && g.start + g.size + LOGSIZE <= g.blocks
    ensures StartsAt(g, Zeroes(g), ss, es) && SomeFreshRefused(g, ss[|ss|-1]) && SomeRefused(g, ss[|ss|-1])
  {
    var h, n := g.start + g.size, g.size - 1;
    ss, es := Fill(g, h, n);
    var s, op := ss[|ss|-1], n / 10;
    assert s.active[op] == Range(h + 10 * op, n - 10 * op) && h + n !in s.active[op];
    assert |s.active[op] + {h + n}| == n - 10 * op + 1;
    assert Refused(g, s, op, h + n);
  }

  /** With a larger log a run leads to a refused repetition: three full shares, and a block logged again. */
  lemma LargeLogPanics(g: Geometry) returns (ss: seq<Sys>, es: seq<Event>)
    requires GeometryOk(g) && g.size > LOGSIZE && g.start + g.size + LOGSIZE <= g.blocks
    ensures StartsAt(g, Zeroes(g), ss, es) && SomeRefused(g, ss[|ss|-1])
  {
    var h := g.start + g.size;
    ss, es := Fill(g, h, LOGSIZE);
    var s := ss[|ss|-1];
    assert s.active[2] == Range(h + 20, 10) && s.active[2] + {h + 29} == s.active[2];
    assert Refused(g, s, 2, h + 29);
  }

  /** Operations that keep to their shares can reach the panic whatever the size of the log. */
  lemma PanicReachable(g: Geometry) returns (ss: seq<Sys>, es: seq<Event>)
    requires GeometryOk(g) && g.start + g.size + LOGSIZE <= g.blocks
    ensures StartsAt(g, Zeroes(g), ss, es) && SomeRefused(g, ss[|ss|-1])
  {
    if g.size <= LOGSIZE {
      ss, es := SmallLogPanics(g);
    } else {
      ss, es := LargeLogPanics(g);
    }
  }

  ghost predicate FreshRefusedRun(g: Geometry, d: Disk, ss: seq<Sys>, es: seq<Event>) {
    StartsAt(g, d, ss, es) && SomeFreshRefused(g, ss[|ss|-1])
  }

  /** A block new to its operation can be refused exactly if the log has at most LOGSIZE blocks. */
  lemma FreshPanicExactly(g: Geometry)
    requires GeometryOk(g) && g.start + g.size + LOGSIZE <= g.blocks
    ensures (exists d, ss, es :: FreshRefusedRun(g, d, ss, es)) <==> g.size <= LOGSIZE
  {
    if g.size <= LOGSIZE {
      var ss, es := SmallLogPanics(g);
      assert FreshRefusedRun(g, Zeroes(g), ss, es);
    }
    forall d, ss, es | FreshRefusedRun(g, d, ss, es) ensures g.size <= LOGSIZE {
      var s := ss[|ss|-1];
      var op, b :| Refused(g, s, op, b) && b !in s.active[op];
      RunInv(g, ss, es, d, |ss| - 1);
      FreshBlockFits(g, s, d, op, b);
    }
  }

  /** The geometry mkfs writes: the log has LOGSIZE blocks, header included. */
  const MKFS := Geometry(2, LOGSIZE, 2000)

  /** So with the log that mkfs makes even a block new to its operation can be refused. */
  lemma MkfsLogTooSmall() returns (ss: seq<Sys>, es: seq<Event>)
    ensures FreshRefusedRun(MKFS, Zeroes(MKFS), ss, es)
  {
    ss, es := SmallLogPanics(MKFS);
  }
}
