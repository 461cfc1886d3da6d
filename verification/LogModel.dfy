/**
  The on-disk redo log of log.c: what a disk recovers to, and what every single disk write of a
  commit or of a recovery does to that.  A crash can fall between any two writes.
 */
module LogModel {
  import opened Params

  /** BSIZE bytes seen as 32-bit words. */
  const BWORDS: nat := 128

  type Block = seq<int>
  type Disk = seq<Block>

  /** log.start and log.size, and the number of blocks on the disk. */
  datatype Geometry = Geometry(start: nat, size: nat, blocks: nat)

  predicate GeometryOk(g: Geometry) {
    1 <= g.size && g.start + g.size <= g.blocks
  }

  /** Block b is an ordinary block, outside the log area. */
  predicate IsHome(g: Geometry, b: int) {
    0 <= b < g.blocks && !(g.start <= b < g.start + g.size)
  }

  ghost predicate DiskOk(g: Geometry, d: Disk) {
    && GeometryOk(g) && |d| == g.blocks
    && forall b :: 0 <= b < |d| ==> |d[b]| == BWORDS
  }

  ghost predicate BlocksOk(g: Geometry, bs: seq<int>) {
    && |bs| <= LOGSIZE && |bs| < g.size
    && forall i :: 0 <= i < |bs| ==> IsHome(g, bs[i])
  }

  /** The header block: word 0 counts the logged blocks, the next words number them. */
  ghost predicate HeadOk(g: Geometry, d: Disk)
    requires DiskOk(g, d)
  {
    0 <= d[g.start][0] <= LOGSIZE && BlocksOk(g, d[g.start][1..1 + d[g.start][0]])
  }

  ghost function Head(g: Geometry, d: Disk): (bs: seq<int>)
    requires DiskOk(g, d) && HeadOk(g, d)
  {
    d[g.start][1..1 + d[g.start][0]]
  }

  /** write_head overwrites the count and the used numbers and leaves the rest of the block. */
  ghost function PutHead(h: Block, bs: seq<int>): (r: Block)
    requires |h| == BWORDS && |bs| <= LOGSIZE
    ensures |r| == BWORDS && r[0] == |bs| && r[1..1 + |bs|] == bs
  {
    [|bs|] + bs + h[1 + |bs|..]
  }

  ghost function WriteHead(g: Geometry, d: Disk, bs: seq<int>): (r: Disk)
    requires DiskOk(g, d) && BlocksOk(g, bs)
    ensures DiskOk(g, r) && HeadOk(g, r) && Head(g, r) == bs
  {
    d[g.start := PutHead(d[g.start], bs)]
  }

  /** d after the first t logged blocks have been copied to their home locations bs. */
  ghost function Install(g: Geometry, d: Disk, bs: seq<int>, t: nat): (r: Disk)
    requires DiskOk(g, d) && BlocksOk(g, bs) && t <= |bs|
    ensures DiskOk(g, r)
    ensures forall b :: 0 <= b < |d| && !IsHome(g, b) ==> r[b] == d[b]
  {
    if t == 0 then d else Install(g, d, bs, t - 1)[bs[t-1] := d[g.start + t]]
  }

  /** What recover_from_log leaves on the disk. */
  ghost function Recovered(g: Geometry, d: Disk): (r: Disk)
    requires DiskOk(g, d) && HeadOk(g, d)
    ensures DiskOk(g, r) && HeadOk(g, r) && Head(g, r) == []
  {
    WriteHead(g, Install(g, d, Head(g, d), |Head(g, d)|), [])
  }

  /** The two disks agree outside the log area. */
  ghost predicate SameHome(g: Geometry, d: Disk, e: Disk) {
    |d| == |e| == g.blocks && forall b :: IsHome(g, b) ==> d[b] == e[b]
  }

  // ----- installing -----

  /** The log block that ends up in home block b when the first t are installed; -1 if none does. */
  ghost function LastFor(bs: seq<int>, b: int, t: nat): (i: int)
    requires t <= |bs|
    ensures -1 <= i < t && (i >= 0 ==> bs[i] == b) && forall j :: i < j < t ==> bs[j] != b
  {
    if t == 0 then -1 else if bs[t-1] == b then t - 1 else LastFor(bs, b, t - 1)
  }

  lemma {:induction false} InstallAt(g: Geometry, d: Disk, bs: seq<int>, t: nat, b: int)
    requires DiskOk(g, d) && BlocksOk(g, bs) && t <= |bs| && IsHome(g, b)
    ensures Install(g, d, bs, t)[b] == if LastFor(bs, b, t) < 0 then d[b] else d[g.start + 1 + LastFor(bs, b, t)]
  {
    if t > 0 { InstallAt(g, d, bs, t - 1, b); }
  }

  /** Installing again from the start, after any number of installs, changes nothing in the end. */
  lemma Reinstall(g: Geometry, d: Disk, bs: seq<int>, t: nat)
    requires DiskOk(g, d) && BlocksOk(g, bs) && t <= |bs|
    ensures SameHome(g, Install(g, Install(g, d, bs, t), bs, |bs|), Install(g, d, bs, |bs|))
  {
    var e := Install(g, d, bs, t);
    forall b | IsHome(g, b) ensures Install(g, e, bs, |bs|)[b] == Install(g, d, bs, |bs|)[b] {
      InstallAt(g, d, bs, t, b);
      InstallAt(g, e, bs, |bs|, b);
      InstallAt(g, d, bs, |bs|, b);
    }
  }

  lemma HeadAfterInstall(g: Geometry, d: Disk, bs: seq<int>, t: nat)
    requires DiskOk(g, d) && HeadOk(g, d) && BlocksOk(g, bs) && t <= |bs|
    ensures HeadOk(g, Install(g, d, bs, t)) && Head(g, Install(g, d, bs, t)) == Head(g, d)
  {
  }

  // ----- recovery -----

  /**
    The disks recovery passes through: after t installs, or with the header cleared.  A crash
    can leave any of them.
   */
  ghost predicate InRecovery(g: Geometry, d: Disk, e: Disk)
    requires DiskOk(g, d) && HeadOk(g, d)
  {
    (exists t :: 0 <= t <= |Head(g, d)| && e == Install(g, d, Head(g, d), t)) || e == Recovered(g, d)
  }

  /** A disk with an empty header recovers to itself. */
  lemma RecoveredEmpty(g: Geometry, d: Disk)
    requires DiskOk(g, d) && HeadOk(g, d) && Head(g, d) == []
    ensures SameHome(g, Recovered(g, d), d)
  {
  }

  /** Every disk that recovery passes through recovers to the same home blocks. */
  lemma InRecoverySame(g: Geometry, d: Disk, e: Disk)
    requires DiskOk(g, d) && HeadOk(g, d) && InRecovery(g, d, e)
    ensures DiskOk(g, e) && HeadOk(g, e) && SameHome(g, Recovered(g, e), Recovered(g, d))
  {
    if e == Recovered(g, d) {
      RecoveredEmpty(g, e);
    } else {
      var t :| 0 <= t <= |Head(g, d)| && e == Install(g, d, Head(g, d), t);
      HeadAfterInstall(g, d, Head(g, d), t);
      Reinstall(g, d, Head(g, d), t);
    }
  }

  /** Recoveries that each crash somewhere and are started over. */
  ghost predicate CrashChain(g: Geometry, ds: seq<Disk>) {
    && |ds| >= 1 && DiskOk(g, ds[0]) && HeadOk(g, ds[0])
    && forall i :: 0 <= i < |ds| - 1 ==> DiskOk(g, ds[i]) && HeadOk(g, ds[i]) && InRecovery(g, ds[i], ds[i+1])
  }

  /** However often recovery itself crashes, finishing it gives the home blocks the first disk promised. */
  lemma {:induction false} CrashChainSame(g: Geometry, ds: seq<Disk>)
    requires CrashChain(g, ds)
    ensures var last := ds[|ds|-1];
      DiskOk(g, last) && HeadOk(g, last) && SameHome(g, Recovered(g, last), Recovered(g, ds[0]))
    decreases |ds|
  {
    if |ds| > 1 {
      var n := |ds| - 1;
      CrashChainSame(g, ds[..n]);
      assert ds[..n][n-1] == ds[n-1] && ds[..n][0] == ds[0];
      InRecoverySame(g, ds[n-1], ds[n]);
    }
  }

  // ----- commit -----

  /** d after the first t of the contents cs have been written to the log blocks. */
  ghost function Logged(g: Geometry, d: Disk, cs: seq<Block>, t: nat): (r: Disk)
    requires DiskOk(g, d) && t <= |cs| < g.size && forall i :: 0 <= i < |cs| ==> |cs[i]| == BWORDS
    ensures DiskOk(g, r) && r[g.start] == d[g.start]
    ensures forall b :: IsHome(g, b) ==> r[b] == d[b]
    ensures forall i :: 0 <= i < t ==> r[g.start + 1 + i] == cs[i]
  {
    if t == 0 then d else Logged(g, d, cs, t - 1)[g.start + t := cs[t-1]]
  }

  /** d with the blocks bs holding the contents cs. */
  ghost function Overlay(d: Disk, bs: seq<int>, cs: seq<Block>): (r: Disk)
    requires |bs| == |cs| && forall i :: 0 <= i < |bs| ==> 0 <= bs[i] < |d|
    ensures |r| == |d|
  {
    if bs == [] then d else Overlay(d, bs[..|bs|-1], cs[..|bs|-1])[bs[|bs|-1] := cs[|bs|-1]]
  }

  ghost predicate CommitPre(g: Geometry, d: Disk, bs: seq<int>, cs: seq<Block>) {
    && DiskOk(g, d) && HeadOk(g, d) && Head(g, d) == [] && BlocksOk(g, bs) && |cs| == |bs|
    && forall i :: 0 <= i < |cs| ==> |cs[i]| == BWORDS
  }

  /** The disk right after the header write, the commit point. */
  ghost function Committed(g: Geometry, d: Disk, bs: seq<int>, cs: seq<Block>): (r: Disk)
    requires CommitPre(g, d, bs, cs)
    ensures DiskOk(g, r) && HeadOk(g, r) && Head(g, r) == bs
  {
    WriteHead(g, Logged(g, d, cs, |bs|), bs)
  }

  /** The disk after k writes of a commit: the log blocks, the header, the home blocks, the header. */
  ghost function CommitDisk(g: Geometry, d: Disk, bs: seq<int>, cs: seq<Block>, k: nat): (r: Disk)
    requires CommitPre(g, d, bs, cs) && k <= 2 * |bs| + 2
    ensures DiskOk(g, r)
  {
    var n := |bs|;
    var committed := Committed(g, d, bs, cs);
    if k <= n then Logged(g, d, cs, k)
    else if k <= 2 * n + 1 then Install(g, committed, bs, k - n - 1)
    else WriteHead(g, Install(g, committed, bs, n), [])
  }

  lemma {:induction false} OverlayIsInstall(g: Geometry, d: Disk, e: Disk, bs: seq<int>, cs: seq<Block>)
    requires DiskOk(g, d) && DiskOk(g, e) && BlocksOk(g, bs) && |cs| == |bs| && SameHome(g, d, e)
    requires forall i :: 0 <= i < |bs| ==> e[g.start + 1 + i] == cs[i]
    ensures SameHome(g, Install(g, e, bs, |bs|), Overlay(d, bs, cs))
    decreases |bs|
  {
    if bs != [] {
      var n := |bs| - 1;
      OverlayIsInstall(g, d, e, bs[..n], cs[..n]);
      InstallPrefix(g, e, bs, n);
    }
  }

  lemma {:induction false} InstallPrefix(g: Geometry, d: Disk, bs: seq<int>, t: nat)
    requires DiskOk(g, d) && BlocksOk(g, bs) && t <= |bs|
    ensures Install(g, d, bs[..t], t) == Install(g, d, bs, t)
    decreases t
  {
    if t > 0 {
      InstallPrefix(g, d, bs, t - 1);
      InstallPrefix(g, d, bs[..t], t - 1);
      assert bs[..t][..t-1] == bs[..t-1];
    }
  }

  lemma CommittedRecovers(g: Geometry, d: Disk, bs: seq<int>, cs: seq<Block>)
    requires CommitPre(g, d, bs, cs)
    ensures SameHome(g, Recovered(g, Committed(g, d, bs, cs)), Overlay(d, bs, cs))
  {
    OverlayIsInstall(g, d, Committed(g, d, bs, cs), bs, cs);
  }

  /** The rest of a commit is what recovery would do. */
  lemma CommitInRecovery(g: Geometry, d: Disk, bs: seq<int>, cs: seq<Block>, k: nat)
    requires CommitPre(g, d, bs, cs) && |bs| < k <= 2 * |bs| + 2
    ensures InRecovery(g, Committed(g, d, bs, cs), CommitDisk(g, d, bs, cs, k))
  {
    hide Install, Logged, WriteHead;
    if k <= 2 * |bs| + 1 {
      assert CommitDisk(g, d, bs, cs, k) == Install(g, Committed(g, d, bs, cs), bs, k - |bs| - 1);
    }
  }

  /**
    Crash atomicity: whatever number k of its writes a commit has made, the disk recovers either to
    the home blocks before the transaction or to those overlaid with all logged blocks, and the
    switch from one to the other is the header write, write number |bs| + 1.
   */
  lemma CommitAtomic(g: Geometry, d: Disk, bs: seq<int>, cs: seq<Block>, k: nat)
    requires CommitPre(g, d, bs, cs) && k <= 2 * |bs| + 2
    ensures var e := CommitDisk(g, d, bs, cs, k);
      && HeadOk(g, e)
      && SameHome(g, Recovered(g, e), if k <= |bs| then d else Overlay(d, bs, cs))
  {
    hide Recovered, Install, Logged, Overlay, InRecovery, Committed;
    if k <= |bs| {
      RecoveredEmpty(g, Logged(g, d, cs, k));
    } else {
      CommittedRecovers(g, d, bs, cs);
      CommitInRecovery(g, d, bs, cs, k);
      InRecoverySame(g, Committed(g, d, bs, cs), CommitDisk(g, d, bs, cs, k));
    }
  }

  /**
    The same for whole histories: a commit crashes after any number of writes, and any number of
    recoveries crash too; when one finishes, the home blocks are those of before or those of after,
    never a mix.
   */
  lemma CommitThenCrashes(g: Geometry, d: Disk, bs: seq<int>, cs: seq<Block>, k: nat, ds: seq<Disk>)
    requires CommitPre(g, d, bs, cs) && k <= 2 * |bs| + 2
    requires CrashChain(g, ds) && ds[0] == CommitDisk(g, d, bs, cs, k)
    ensures var last := ds[|ds|-1];
      && DiskOk(g, last) && HeadOk(g, last)
      && SameHome(g, Recovered(g, last), if k <= |bs| then d else Overlay(d, bs, cs))
  {
    CommitAtomic(g, d, bs, cs, k);
    CrashChainSame(g, ds);
  }

  /** A finished commit has installed everything and left an empty header. */
  lemma CommitFinal(g: Geometry, d: Disk, bs: seq<int>, cs: seq<Block>)
    requires CommitPre(g, d, bs, cs)
    ensures var e := CommitDisk(g, d, bs, cs, 2 * |bs| + 2);
      HeadOk(g, e) && Head(g, e) == [] && SameHome(g, e, Overlay(d, bs, cs))
  {
    OverlayIsInstall(g, d, Committed(g, d, bs, cs), bs, cs);
  }

  lemma CommitNothing(g: Geometry, d: Disk, bs: seq<int>, cs: seq<Block>)
    requires CommitPre(g, d, bs, cs)
    ensures bs == [] ==> SameHome(g, d, Overlay(d, bs, cs))
  {
  }

  /** Overlaying distinct blocks puts each content in its block and leaves the others. */
  lemma {:induction false} OverlayAt(d: Disk, bs: seq<int>, cs: seq<Block>, b: int)
    requires |bs| == |cs| && (forall i :: 0 <= i < |bs| ==> 0 <= bs[i] < |d|) && 0 <= b < |d|
    requires forall i, j :: 0 <= i < j < |bs| ==> bs[i] != bs[j]
    ensures b !in bs ==> Overlay(d, bs, cs)[b] == d[b]
    ensures forall i :: 0 <= i < |bs| && bs[i] == b ==> Overlay(d, bs, cs)[b] == cs[i]
    decreases |bs|
  {
    if bs != [] {
      var n := |bs| - 1;
      OverlayAt(d, bs[..n], cs[..n], b);
      assert forall i :: 0 <= i < n ==> bs[..n][i] == bs[i] && cs[..n][i] == cs[i];
    }
  }

  // ----- the disks the loops pass through -----

  /** The disk after each of the first t log writes. */
  ghost function LoggedTrace(g: Geometry, d: Disk, cs: seq<Block>, t: nat): (tr: seq<Disk>)
    requires DiskOk(g, d) && t <= |cs| < g.size && forall i :: 0 <= i < |cs| ==> |cs[i]| == BWORDS
    ensures |tr| == t
  {
    if t == 0 then [] else LoggedTrace(g, d, cs, t - 1) + [Logged(g, d, cs, t)]
  }

  lemma LoggedStart(g: Geometry, d: Disk, cs: seq<Block>)
    requires DiskOk(g, d) && |cs| < g.size && forall i :: 0 <= i < |cs| ==> |cs[i]| == BWORDS
    ensures Logged(g, d, cs, 0) == d && LoggedTrace(g, d, cs, 0) == []
  {
  }

  lemma LoggedNext(g: Geometry, d: Disk, cs: seq<Block>, t: nat)
    requires DiskOk(g, d) && t < |cs| < g.size && forall i :: 0 <= i < |cs| ==> |cs[i]| == BWORDS
    ensures Logged(g, d, cs, t + 1) == Logged(g, d, cs, t)[g.start + t + 1 := cs[t]]
    ensures LoggedTrace(g, d, cs, t + 1) == LoggedTrace(g, d, cs, t) + [Logged(g, d, cs, t + 1)]
  {
  }

  /** The disk after each of the first t installs. */
  ghost function InstallTrace(g: Geometry, d: Disk, bs: seq<int>, t: nat): (tr: seq<Disk>)
    requires DiskOk(g, d) && BlocksOk(g, bs) && t <= |bs|
    ensures |tr| == t
  {
    if t == 0 then [] else InstallTrace(g, d, bs, t - 1) + [Install(g, d, bs, t)]
  }

  lemma InstallStart(g: Geometry, d: Disk, bs: seq<int>)
    requires DiskOk(g, d) && BlocksOk(g, bs)
    ensures Install(g, d, bs, 0) == d && InstallTrace(g, d, bs, 0) == []
  {
  }

  lemma InstallNext(g: Geometry, d: Disk, bs: seq<int>, t: nat)
    requires DiskOk(g, d) && BlocksOk(g, bs) && t < |bs|
    ensures Install(g, d, bs, t + 1) == Install(g, d, bs, t)[bs[t] := d[g.start + 1 + t]]
    ensures InstallTrace(g, d, bs, t + 1) == InstallTrace(g, d, bs, t) + [Install(g, d, bs, t + 1)]
  {
  }

  ghost function CommitTrace(g: Geometry, d: Disk, bs: seq<int>, cs: seq<Block>): (tr: seq<Disk>)
    requires CommitPre(g, d, bs, cs)
    ensures |tr| == 2 * |bs| + 2
  {
    var c := Committed(g, d, bs, cs);
    LoggedTrace(g, d, cs, |bs|) + [c] + InstallTrace(g, c, bs, |bs|) + [WriteHead(g, Install(g, c, bs, |bs|), [])]
  }

  ghost function RecoverTrace(g: Geometry, d: Disk): (tr: seq<Disk>)
    requires DiskOk(g, d) && HeadOk(g, d)
    ensures |tr| == |Head(g, d)| + 1
  {
    InstallTrace(g, d, Head(g, d), |Head(g, d)|) + [Recovered(g, d)]
  }

  lemma {:induction false} LoggedTraceAt(g: Geometry, d: Disk, cs: seq<Block>, t: nat, k: nat)
    requires DiskOk(g, d) && 1 <= k <= t <= |cs| < g.size && forall i :: 0 <= i < |cs| ==> |cs[i]| == BWORDS
    ensures LoggedTrace(g, d, cs, t)[k-1] == Logged(g, d, cs, k)
  {
    if k < t { LoggedTraceAt(g, d, cs, t - 1, k); }
  }

  lemma {:induction false} InstallTraceAt(g: Geometry, d: Disk, bs: seq<int>, t: nat, k: nat)
    requires DiskOk(g, d) && BlocksOk(g, bs) && 1 <= k <= t <= |bs|
    ensures InstallTrace(g, d, bs, t)[k-1] == Install(g, d, bs, k)
  {
    if k < t { InstallTraceAt(g, d, bs, t - 1, k); }
  }

  /** Every disk state a commit passes through is one that CommitAtomic speaks about. */
  lemma CommitTraceAt(g: Geometry, d: Disk, bs: seq<int>, cs: seq<Block>, k: nat)
    requires CommitPre(g, d, bs, cs) && 1 <= k <= 2 * |bs| + 2
    ensures CommitTrace(g, d, bs, cs)[k-1] == CommitDisk(g, d, bs, cs, k)
  {
    var n := |bs|;
    if k <= n { LoggedTraceAt(g, d, cs, n, k); }
    else if n + 1 < k <= 2 * n + 1 { InstallTraceAt(g, Committed(g, d, bs, cs), bs, n, k - n - 1); }
  }

  /** Every disk state a recovery passes through is one that InRecoverySame speaks about. */
  lemma RecoverTraceAt(g: Geometry, d: Disk, k: nat)
    requires DiskOk(g, d) && HeadOk(g, d) && k <= |Head(g, d)|
    ensures InRecovery(g, d, RecoverTrace(g, d)[k])
  {
    hide Install, Recovered;
    var n := |Head(g, d)|;
    if k < n {
      InstallTraceAt(g, d, Head(g, d), n, k + 1);
      assert RecoverTrace(g, d)[k] == Install(g, d, Head(g, d), k + 1);
    }
  }
}
