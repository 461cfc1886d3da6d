/**
  log.c as it runs: the in-memory header, the loops over it, and the disk writes they make.  trace
  records the disk after every single write, so that each method's contract names every state a
  crash could leave behind.
 */
module Log {
  import opened LogModel
  import opened Params
  import GroupCommit

  /** The contents of the blocks bs, as bread returns them. */
  ghost function ContentsOf(d: Disk, cache: map<int, Block>, bs: seq<int>): (cs: seq<Block>)
    requires forall i :: 0 <= i < |bs| ==> 0 <= bs[i] < |d|
    ensures |cs| == |bs| && forall i :: 0 <= i < |bs| ==> cs[i] == if bs[i] in cache then cache[bs[i]] else d[bs[i]]
  {
    seq(|bs|, i requires 0 <= i < |bs| => if bs[i] in cache then cache[bs[i]] else d[bs[i]])
  }

  class RedoLog {
    const g: Geometry
    const block: array<int>
    var n: int
    var outstanding: int
    var committing: bool
    var disk: Disk
    /** The buffers log_write has pinned in the cache. */
    var cache: map<int, Block>
    ghost var trace: seq<Disk>

    /** log.lh as a list. */
    ghost function Lh(): (bs: seq<int>)
      requires 0 <= n <= block.Length
      reads this, block
    {
      block[..n]
    }

    ghost predicate Valid()
      reads this, block
    {
      && DiskOk(g, disk) && block.Length == LOGSIZE && 0 <= n <= LOGSIZE && BlocksOk(g, Lh())
      && forall b :: b in cache ==> |cache[b]| == BWORDS && IsHome(g, b)
    }

    /** Only logged blocks are pinned. */
    ghost predicate Pinned()
      requires 0 <= n <= block.Length
      reads this, block
    {
      cache - (set b | b in Lh()) == map[]
    }

    /** Between two calls every listed block is pinned, and the log on disk is empty. */
    ghost predicate Settled()
      reads this`n, this`disk, this`cache, block
    {
      && DiskOk(g, disk) && block.Length == LOGSIZE && 0 <= n <= LOGSIZE && BlocksOk(g, block[..n])
      && (forall b :: b in cache ==> |cache[b]| == BWORDS && IsHome(g, b))
      && HeadOk(g, disk) && Head(g, disk) == []
      && cache - (set b | b in block[..n]) == map[] && (forall b :: b in block[..n] ==> b in cache)
    }

    /** s is what the log shows between two calls. */
    ghost predicate Shows(s: GroupCommit.Sys)
      reads this, block
    {
      && Settled() && !committing && s.phase == GroupCommit.Running
      && s.disk == disk && s.cache == cache && s.lh == block[..n] && |s.active| == outstanding
    }

    /** initlog: a log on a disk with a readable header, which is recovered first. */
    constructor (g: Geometry, disk: Disk)
      requires DiskOk(g, disk) && HeadOk(g, disk)
      ensures this.g == g && fresh(block) && outstanding == 0 && this.disk == Recovered(g, disk)
      ensures trace == RecoverTrace(g, disk)
      ensures Shows(GroupCommit.Start(this.disk)) && GroupCommit.Init(g, GroupCommit.Start(this.disk), this.disk)
    {
      this.g, this.disk := g, disk;
      block := new int[LOGSIZE](_ => 0);
      n, outstanding, committing, cache, trace := 0, 0, false, map[], [];
      new;
      hide Recovered, RecoverTrace;
      RecoverFromLog();
      assert trace == [] + RecoverTrace(g, disk);
    }

    /** What bread returns: the pinned buffer if there is one, the disk block otherwise. */
    function Bread(b: int): (data: Block)
      requires 0 <= b < |disk|
      reads this
    {
      if b in cache then cache[b] else disk[b]
    }

    /** bwrite: one disk write, after which the buffer is clean. */
    method Bwrite(b: int, data: Block)
      requires 0 <= b < |disk|
      modifies this`disk, this`cache, this`trace
      ensures disk == old(disk)[b := data] && cache == old(cache) - {b} && trace == old(trace) + [disk]
    {
      disk := disk[b := data];
      cache := cache - {b};
      trace := trace + [disk];
    }

    /** The contents of the blocks listed in the header. */
    ghost function Contents(): (cs: seq<Block>)
      requires Valid()
      reads this, block
      ensures |cs| == n && forall i :: 0 <= i < n ==> |cs[i]| == BWORDS
    {
      ContentsOf(disk, cache, Lh())
    }

    /** write_log: copy the modified blocks from the cache to the log. */
    method WriteLog()
      requires Valid()
      modifies this`disk, this`cache, this`trace
      ensures Valid() && cache == old(cache)
      ensures disk == Logged(g, old(disk), old(Contents()), n)
      ensures trace == old(trace) + LoggedTrace(g, old(disk), old(Contents()), n)
    {
      hide Logged, LoggedTrace;
      ghost var d0, cs, tr := disk, Contents(), trace;
      LoggedStart(g, d0, cs);
      var tail := 0;
      while tail < n
        invariant 0 <= tail <= n && Valid() && cache == old(cache)
        invariant disk == Logged(g, d0, cs, tail) && trace == tr + LoggedTrace(g, d0, cs, tail)
      {
        assert IsHome(g, Lh()[tail]) && !IsHome(g, g.start + tail + 1);
        var from := Bread(block[tail]);
        LoggedNext(g, d0, cs, tail);
        Bwrite(g.start + tail + 1, from);
        assert cache == old(cache);
        tail := tail + 1;
      }
    }

    /** write_head: the count and the used block numbers go to the header block. */
    method PutHeader()
      requires Valid()
      modifies this`disk, this`cache, this`trace
      ensures Valid() && cache == old(cache)
      ensures disk == WriteHead(g, old(disk), Lh()) && trace == old(trace) + [disk]
    {
      var hb := Bread(g.start);
      assert !IsHome(g, g.start);
      ghost var h := hb;
      hb := hb[0 := n];
      var i := 0;
      while i < n
        invariant 0 <= i <= n && |hb| == BWORDS && hb[0] == n
        invariant forall j :: 0 <= j < i ==> hb[1 + j] == block[j]
        invariant forall j :: i < j < BWORDS ==> hb[j] == h[j] || j == 0
      {
        hb := hb[1 + i := block[i]];
        i := i + 1;
      }
      assert hb == PutHead(h, Lh());
      Bwrite(g.start, hb);
      assert cache == old(cache);
    }

    /** install_trans: copy the logged blocks to their home locations. */
    method InstallTrans()
      requires Valid()
      modifies this`disk, this`cache, this`trace
      ensures Valid() && cache == old(cache) - (set b | b in Lh())
      ensures disk == Install(g, old(disk), Lh(), n)
      ensures trace == old(trace) + InstallTrace(g, old(disk), Lh(), n)
    {
      hide Install, InstallTrace;
      ghost var d0, bs, tr := disk, Lh(), trace;
      InstallStart(g, d0, bs);
      var tail := 0;
      while tail < n
        invariant 0 <= tail <= n && Valid()
        invariant cache == old(cache) - (set b | b in bs[..tail])
        invariant disk == Install(g, d0, bs, tail) && trace == tr + InstallTrace(g, d0, bs, tail)
      {
        assert !IsHome(g, g.start + tail + 1) && IsHome(g, bs[tail]);
        InstallNext(g, d0, bs, tail);
        var lbuf := Bread(g.start + tail + 1);
        Bwrite(block[tail], lbuf);
        assert bs[..tail+1] == bs[..tail] + [bs[tail]];
        tail := tail + 1;
      }
      assert bs[..n] == bs;
    }

    /** commit: everything between the first log write and the erased header. */
    method Commit()
      requires Valid() && HeadOk(g, disk) && Head(g, disk) == [] && Pinned()
      modifies this`n, this`disk, this`cache, this`trace
      ensures Valid() && HeadOk(g, disk) && Head(g, disk) == [] && n == 0
      ensures CommitPre(g, old(disk), old(Lh()), old(Contents()))
      ensures old(n) == 0 ==> trace == old(trace) && disk == old(disk)
      ensures old(n) > 0 ==> trace == old(trace) + CommitTrace(g, old(disk), old(Lh()), old(Contents()))
      ensures old(n) > 0 ==> disk == CommitDisk(g, old(disk), old(Lh()), old(Contents()), 2 * old(n) + 2)
      ensures cache == map[]
      ensures SameHome(g, disk, Overlay(old(disk), old(Lh()), old(Contents())))
    {
      hide Overlay, CommitDisk, CommitTrace, SameHome;
      ghost var d0, bs, cs, tr := disk, Lh(), Contents(), trace;
      CommitFinal(g, d0, bs, cs);
      CommitNothing(g, d0, bs, cs);
      if n > 0 {
        CommitWrites();
        CommitTraceAt(g, d0, bs, cs, 2 * |bs| + 2);
      } else {
        assert cache - (set b | b in Lh()) == cache;
      }
    }

    /** The disk writes of a commit that has something to write. */
    method CommitWrites()
      requires Valid() && CommitPre(g, disk, Lh(), Contents()) && Pinned()
      modifies this`n, this`disk, this`cache, this`trace
      ensures Valid() && n == 0 && cache == map[]
      ensures trace == old(trace) + CommitTrace(g, old(disk), old(Lh()), old(Contents())) && disk == trace[|trace| - 1]
    {
      hide Logged, LoggedTrace, Install, InstallTrace, WriteHead;
      WriteLog();
      PutHeader();
      InstallTrans();
      assert cache == map[];
      n := 0;
      assert Lh() == [];
      PutHeader();
    }

    /** read_head: the on-disk header becomes the in-memory one. */
    method ReadHead()
      requires DiskOk(g, disk) && block.Length == LOGSIZE && HeadOk(g, disk) && cache == map[]
      modifies this`n, block
      ensures Valid() && Lh() == Head(g, disk)
    {
      var lh := Bread(g.start);
      n := lh[0];
      var i := 0;
      while i < n
        invariant n == lh[0] && 0 <= i <= n && forall j :: 0 <= j < i ==> block[j] == lh[1 + j]
      {
        block[i] := lh[1 + i];
        i := i + 1;
      }
      assert Lh() == Head(g, disk);
    }

    /** recover_from_log, run at boot with an empty cache. */
    method RecoverFromLog()
      requires DiskOk(g, disk) && block.Length == LOGSIZE && HeadOk(g, disk) && cache == map[]
      modifies this`n, this`disk, this`cache, this`trace, block
      ensures Valid() && n == 0 && cache == map[] && HeadOk(g, disk) && Head(g, disk) == []
      ensures disk == Recovered(g, old(disk)) && trace == old(trace) + RecoverTrace(g, old(disk))
    {
      ghost var tr := trace;
      ReadHead();
      InstallTrans();
      assert cache == map[];
      n := 0;
      assert Lh() == [];
      PutHeader();
    }

    /** begin_op's test: does the operation get in, or must it sleep? */
    method BeginOp() returns (entered: bool)
      modifies this`outstanding
      ensures entered <==> !committing && n + (old(outstanding) + 1) * MAXOPBLOCKS <= LOGSIZE
      ensures outstanding == old(outstanding) + if entered then 1 else 0
    {
      if committing {
        return false;
      } else if n + (outstanding + 1) * MAXOPBLOCKS > LOGSIZE {
        return false;
      } else {
        outstanding := outstanding + 1;
        return true;
      }
    }

    /** end_op: the last outstanding operation commits for the whole group. */
    method EndOp()
      requires Valid() && outstanding >= 1 && !committing
      requires HeadOk(g, disk) && Head(g, disk) == [] && Pinned()
      modifies this
      ensures Valid() && outstanding == old(outstanding) - 1 && !committing && HeadOk(g, disk) && Head(g, disk) == []
      ensures outstanding > 0 || old(n) == 0 ==> Lh() == old(Lh()) && disk == old(disk) && trace == old(trace)
      ensures outstanding > 0 ==> cache == old(cache)
      ensures outstanding == 0 ==> Lh() == [] && cache == map[]
      ensures outstanding == 0 ==> SameHome(g, disk, Overlay(old(disk), old(Lh()), old(Contents())))
      ensures outstanding == 0 ==> CommitPre(g, old(disk), old(Lh()), old(Contents()))
      ensures outstanding == 0 && old(n) > 0 ==> trace == old(trace) + CommitTrace(g, old(disk), old(Lh()), old(Contents()))
      ensures outstanding == 0 && old(n) > 0 ==> disk == CommitDisk(g, old(disk), old(Lh()), old(Contents()), 2 * old(n) + 2)
    {
      hide CommitTrace, Overlay, SameHome, ContentsOf, CommitPre, CommitDisk;
      var doCommit := false;
      outstanding := outstanding - 1;
      if outstanding == 0 {
        doCommit := true;
        committing := true;
      }
      if doCommit {
        Commit();
        committing := false;
      }
    }

    /** log_write: remember the block number, absorbing repeats, and pin the buffer. */
    method LogWrite(b: int, data: Block) returns (panicked: bool)
      requires Valid() && IsHome(g, b) && |data| == BWORDS
      modifies this`n, this`cache, block
      ensures Valid() && panicked == (GroupCommit.Panics(g, old(n)) || outstanding < 1) && (old(Pinned()) ==> Pinned())
      ensures panicked ==> Lh() == old(Lh()) && cache == old(cache)
      ensures !panicked ==> Lh() == GroupCommit.Absorb(old(Lh()), b) && cache == old(cache)[b := data]
    {
      if n >= LOGSIZE || n >= g.size - 1 {
        return true;
      }
      if outstanding < 1 {
        return true;
      }
      ghost var lh := Lh();
      var i := FindLogged(b);
      assert i == n ==> b !in lh;
      assert i < n ==> lh[i] == b;
      block[i] := b;
      if i == n {
        n := n + 1;
        assert Lh() == lh + [b];
      } else {
        assert Lh() == lh;
      }
      if cache - (set x | x in lh) == map[] { PinnedMore(cache, lh, b, data); }
      cache := cache[b := data];
      return false;
    }

    /** The place of b in the header, or the first free one. */
    method FindLogged(b: int) returns (i: nat)
      requires 0 <= n <= block.Length
      ensures i <= n && b !in block[..i] && (i < n ==> block[i] == b)
    {
      i := 0;
      while i < n && block[i] != b
        invariant 0 <= i <= n && b !in block[..i]
      {
        i := i + 1;
      }
    }

    static lemma PinnedMore(cache: map<int, Block>, lh: seq<int>, b: int, data: Block)
      requires cache - (set x | x in lh) == map[]
      ensures cache[b := data] - (set x | x in GroupCommit.Absorb(lh, b)) == map[]
    {
      assert forall x :: x in cache ==> x in lh by {
        forall x | x in cache ensures x in lh { assert x !in cache - (set y | y in lh); }
      }
    }

    // ----- the calls as steps of the group commit machine -----

    /** begin_op lets an operation in exactly when the machine can take that step, and takes it. */
    method BeginRefines(ghost s: GroupCommit.Sys, ghost op: int) returns (entered: bool, ghost r: GroupCommit.Sys)
      requires Shows(s) && op !in s.wrote && op !in s.active
      modifies this`outstanding
      ensures entered <==> GroupCommit.Enabled(g, s, GroupCommit.Begin(op))
      ensures if entered then GroupCommit.Step(g, s, GroupCommit.Begin(op), r) && Shows(r) else Shows(s)
    {
      assert 0 <= n <= block.Length;
      hide GroupCommit.Step, GroupCommit.Enabled, Settled;
      r := GroupCommit.BeginStep(g, s, op);
      entered := BeginOp();
      assert entered <==> GroupCommit.Enabled(g, s, GroupCommit.Begin(op));
      if entered { assert Shows(r); } else { assert Shows(s); }
    }

    /** log_write is the machine's step, or panics exactly when the machine refuses the block. */
    method LogWriteRefines(b: int, data: Block, ghost s: GroupCommit.Sys, ghost op: int)
      returns (panicked: bool, ghost r: GroupCommit.Sys)
      requires Shows(s) && op in s.active && op in s.wrote && |s.active[op] + {b}| <= MAXOPBLOCKS
      requires IsHome(g, b) && |data| == BWORDS
      modifies this`n, this`cache, block
      ensures panicked <==> GroupCommit.Refused(g, s, op, b)
      ensures if panicked then Shows(s) else GroupCommit.Step(g, s, GroupCommit.LogWrite(op, b, data), r) && Shows(r)
    {
      NotIdle(s.active, op);
      panicked := LogWrite(b, data);
      ghost var w := GroupCommit.Write(op, b, data);
      r := s.(cache := s.cache[b := data], lh := GroupCommit.Absorb(s.lh, b), active := s.active[op := s.active[op] + {b}],
              wrote := s.wrote[op := s.wrote[op] + [w]], group := s.group + [w]);
      assert r.active.Keys == s.active.Keys;
    }

    /** end_op is a run of the machine: the end of the operation, and all writes of the commit if it was the last. */
    method EndRefines(ghost s: GroupCommit.Sys, ghost op: int)
      returns (ghost ss: seq<GroupCommit.Sys>, ghost es: seq<GroupCommit.Event>)
      requires Shows(s) && op in s.active
      modifies this
      ensures GroupCommit.IsRun(g, ss, es) && ss[0] == s && |es| >= 1 && es[0] == GroupCommit.End(op) && Shows(ss[|es|])
    {
      NotIdle(s.active, op);
      ss, es := EndRun(s, op);
      ghost var r := ss[|es|];
      EndShows(s, op, r);
    }

    /** end_op, seen from the state r in which the machine ends up. */
    method EndShows(ghost s: GroupCommit.Sys, ghost op: int, ghost r: GroupCommit.Sys)
      requires Shows(s) && op in s.active && outstanding >= 1 && r.phase == GroupCommit.Running
      requires |r.active| == outstanding - 1
      requires outstanding > 1 || n == 0 ==> r.disk == disk && r.cache == cache && r.lh == Lh()
      requires outstanding == 1 && n > 0 ==>
                 r.lh == [] && r.cache == map[] && r.disk == CommitDisk(g, disk, Lh(), Contents(), 2 * n + 2)
      modifies this
      ensures Shows(r)
    {
      hide CommitTrace, Overlay, SameHome, ContentsOf, CommitDisk, Head, HeadOk;
      if n == 0 { assert cache == map[]; }
      EndOp();
    }

    lemma EndRun(s: GroupCommit.Sys, op: int) returns (ss: seq<GroupCommit.Sys>, es: seq<GroupCommit.Event>)
      requires Shows(s) && op in s.active
      ensures CommitPre(g, disk, Lh(), Contents())
      ensures GroupCommit.IsRun(g, ss, es) && ss[0] == s && |es| >= 1 && es[0] == GroupCommit.End(op)
      ensures ss[|es|].phase == GroupCommit.Running && ss[|es|].active == s.active - {op}
      ensures s.active - {op} != map[] || s.lh == [] ==> ss[|es|] == s.(active := s.active - {op})
      ensures s.active - {op} == map[] && s.lh != [] ==> ss[|es|].lh == [] && ss[|es|].cache == map[]
      ensures s.active - {op} == map[] && s.lh != [] ==> ss[|es|].disk == CommitDisk(g, disk, Lh(), Contents(), 2 * n + 2)
    {
      assert CommitPre(g, disk, Lh(), Contents());
      hide CommitPre, CommitDisk, GroupCommit.Step, GroupCommit.Contents, ContentsOf;
      SameContents(s);
      if s.active - {op} == map[] && s.lh != [] {
        ss, es := GroupCommit.EndIsRun(g, s, op);
      } else {
        GroupCommit.EndAlone(g, s, op);
        ss, es := [s, s.(active := s.active - {op})], [GroupCommit.End(op)];
      }
    }

    static lemma NotIdle(active: map<int, set<int>>, op: int)
      requires op in active
      ensures |active - {op}| == |active| - 1 && (|active| == 1 <==> active - {op} == map[])
    {
      var rest := active - {op};
      assert active.Keys == rest.Keys + {op} && |active.Keys| == |rest.Keys| + 1;
      assert rest == map[] <==> |rest| == 0;
    }

    lemma SameContents(s: GroupCommit.Sys)
      requires Shows(s)
      ensures (forall i :: 0 <= i < |s.lh| ==> s.lh[i] in s.cache) && Contents() == GroupCommit.Contents(s)
    {
    }
  }
}
