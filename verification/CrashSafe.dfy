/**
  File system and log together.  FsModel's disk is bytes as the file system sees them; LogModel's disk
  is words as they lie on the device.  A write to a file runs through both, and a crash after any
  single disk write leaves, once recovered, a file system in which a front part of the write is done.
 */
module CrashSafe {
  import opened FsModel
  import opened Fs
  import opened Log
  import opened Params
  import LM = LogModel
  import GroupCommit

  // ----- bytes and words -----

  /** A block as the device holds it. */
  function Words(blk: Block): (ws: LM.Block)
    requires |blk| == BSIZE
    ensures |ws| == LM.BWORDS && forall j :: 0 <= j < NINDIRECT ==> ws[j] == Word(blk, j)
  {
    seq(NINDIRECT, j requires 0 <= j < NINDIRECT => Word(blk, j))
  }

  /** The bytes of a block of words. */
  function BytesOf(ws: LM.Block): (blk: Block)
    requires |ws| == LM.BWORDS
    ensures BlockOk(blk)
  {
    seq(BSIZE, i requires 0 <= i < BSIZE => ByteOf(ws[i / 4], i % 4))
  }

  function ByteOf(w: int, k: nat): (b: int)
    ensures 0 <= b < 256
    decreases k
  {
    if k == 0 then w % 256 else ByteOf(w / 256, k - 1)
  }

  lemma ByteOfWord(a: int, b: int, c: int, d: int)
    requires 0 <= a < 256 && 0 <= b < 256 && 0 <= c < 256 && 0 <= d < 256
    ensures var w := a + 0x100 * b + 0x1_0000 * c + 0x100_0000 * d;
      ByteOf(w, 0) == a && ByteOf(w, 1) == b && ByteOf(w, 2) == c && ByteOf(w, 3) == d
  {
    var w := a + 0x100 * b + 0x1_0000 * c + 0x100_0000 * d;
    assert w / 256 == b + 0x100 * c + 0x1_0000 * d;
    assert w / 256 / 256 == c + 0x100 * d;
    assert w / 256 / 256 / 256 == d;
    assert ByteOf(w, 2) == ByteOf(w / 256, 1) == ByteOf(w / 256 / 256, 0);
    assert ByteOf(w, 3) == ByteOf(w / 256, 2) == ByteOf(w / 256 / 256, 1) == ByteOf(w / 256 / 256 / 256, 0);
  }

  lemma BytesOfWords(blk: Block)
    requires BlockOk(blk)
    ensures BytesOf(Words(blk)) == blk
  {
    forall i | 0 <= i < BSIZE ensures BytesOf(Words(blk))[i] == blk[i] {
      ByteOfWords(blk, i / 4, i % 4);
      hide ByteOf, Words;
      assert i == 4 * (i / 4) + i % 4;
    }
  }

  lemma ByteOfWords(blk: Block, j: nat, k: nat)
    requires BlockOk(blk) && j < NINDIRECT && k < 4
    ensures ByteOf(Words(blk)[j], k) == blk[4 * j + k]
  {
    ByteOfWord(blk[4*j], blk[4*j+1], blk[4*j+2], blk[4*j+3]);
    hide ByteOf;
    assert k == 0 || k == 1 || k == 2 || k == 3;
  }

  /** The words determine the bytes. */
  lemma WordsInjective(x: Block, y: Block)
    requires BlockOk(x) && BlockOk(y) && Words(x) == Words(y)
    ensures x == y
  {
    BytesOfWords(x);
    BytesOfWords(y);
  }

  // ----- a file system on a device -----

  /** The log lies before the inode blocks. */
  predicate LogAt(g: LM.Geometry, sb: Super) {
    LM.GeometryOk(g) && g.blocks == sb.size && g.start + g.size <= sb.inodestart
  }

  /** Outside the log the device holds d. */
  ghost predicate Holds(g: LM.Geometry, dev: LM.Disk, d: Disk) {
    && |dev| == |d| == g.blocks
    && forall c :: LM.IsHome(g, c) ==> |d[c]| == BSIZE && dev[c] == Words(d[c])
  }

  /** A file system whose inodes are all on disk. */
  ghost predicate Sound(sb: Super, s: State) {
    Inv(sb, s, 0) && Room(sb, |s.ino|) && s.ino == DiskInodes(sb, s.d, |s.ino|)
  }

  /** Recovering the device gives the file system s. */
  ghost predicate Image(g: LM.Geometry, sb: Super, dev: LM.Disk, s: State) {
    LogAt(g, sb) && LM.DiskOk(g, dev) && LM.HeadOk(g, dev) && Sound(sb, s) && Holds(g, LM.Recovered(g, dev), s.d)
  }

  /** Whoever mounts the recovered device finds the files of s, in a sound file system. */
  lemma Remount(g: LM.Geometry, sb: Super, dev: LM.Disk, s: State, e: Disk)
    requires Image(g, sb, dev, s) && SuperOk(sb, e) && Holds(g, LM.Recovered(g, dev), e)
    ensures DiskInodes(sb, e, |s.ino|) == s.ino && Inv(sb, s.(d := e), 0)
    ensures Files(sb, s.(d := e)) == Files(sb, s)
  {
    forall c | sb.inodestart <= c < sb.size ensures e[c] == s.d[c] {
      assert LM.IsHome(g, c) && BlockOk(e[c]) && BlockOk(s.d[c]);
      WordsInjective(e[c], s.d[c]);
    }
    hide Words, LM.Recovered;
    SameFromInodes(sb, s, e);
  }

  lemma SameFromInodes(sb: Super, s: State, e: Disk)
    requires Inv(sb, s, 0) && Room(sb, |s.ino|) && SuperOk(sb, e)
    requires forall c :: sb.inodestart <= c < sb.size ==> e[c] == s.d[c]
    ensures DiskInodes(sb, e, |s.ino|) == DiskInodes(sb, s.d, |s.ino|) && Inv(sb, s.(d := e), 0)
    ensures Files(sb, s.(d := e)) == Files(sb, s)
  {
    var t := s.(d := e);
    forall i | 0 <= i < |s.ino| ensures DiskInodes(sb, e, |s.ino|)[i] == DiskInodes(sb, s.d, |s.ino|)[i] {
      IBlockInside(sb, |s.ino|, i);
    }
    hide DiskInodes;
    MetaKeeps(sb, s, e);
    hide Inv, ByteAt;
    forall j | 0 <= j < |t.ino| ensures Files(sb, t)[j] == Files(sb, s)[j] { SameFile(sb, s, t, j); }
  }

  lemma SameFile(sb: Super, s: State, t: State, j: nat)
    requires SuperOk(sb, s.d) && SuperOk(sb, t.d) && InodesOk(sb, s.ino) && t.ino == s.ino
    requires SameBytes(sb, s, t) && j < |s.ino|
    ensures File(sb, t.d, t.ino[j]) == File(sb, s.d, s.ino[j])
  {
    hide ByteAt;
    forall o | 0 <= o < s.ino[j].size ensures File(sb, t.d, t.ino[j])[o] == File(sb, s.d, s.ino[j])[o] {
      assert ByteAt(sb, t.d, t.ino[j], o) == ByteAt(sb, s.d, s.ino[j], o);
    }
  }

  // ----- a commit of file system blocks -----

  /** The commit of bs takes the device from s to t: bs has every block in which they differ. */
  ghost predicate Commits(g: LM.Geometry, sb: Super, dev: LM.Disk, bs: seq<int>, cs: seq<LM.Block>, s: Disk, t: Disk) {
    && LM.CommitPre(g, dev, bs, cs) && SuperOk(sb, t) && g.blocks == sb.size && Holds(g, dev, s)
    && (forall i, j :: 0 <= i < j < |bs| ==> bs[i] != bs[j])
    && (forall i :: 0 <= i < |bs| ==> cs[i] == Words(t[bs[i]]))
    && forall c :: LM.IsHome(g, c) && c !in bs ==> t[c] == s[c]
  }

  lemma OverlayHolds(g: LM.Geometry, sb: Super, dev: LM.Disk, bs: seq<int>, cs: seq<LM.Block>, s: Disk, t: Disk)
    requires Commits(g, sb, dev, bs, cs, s, t)
    ensures Holds(g, LM.Overlay(dev, bs, cs), t)
  {
    hide Words, LM.Overlay;
    forall c | LM.IsHome(g, c) ensures |t[c]| == BSIZE && LM.Overlay(dev, bs, cs)[c] == Words(t[c]) {
      assert BlockOk(t[c]);
      LM.OverlayAt(dev, bs, cs, c);
    }
  }

  lemma HoldsSame(g: LM.Geometry, dev: LM.Disk, dev': LM.Disk, d: Disk)
    requires Holds(g, dev, d) && LM.SameHome(g, dev', dev)
    ensures Holds(g, dev', d)
  {
    hide Words;
  }

  /** After k of the writes of the commit, recovery gives s before the commit point and t from it on. */
  lemma CommitHolds(g: LM.Geometry, sb: Super, dev: LM.Disk, bs: seq<int>, cs: seq<LM.Block>, s: Disk, t: Disk, k: nat)
    requires Commits(g, sb, dev, bs, cs, s, t) && k <= 2 * |bs| + 2
    ensures var e := LM.CommitDisk(g, dev, bs, cs, k);
      LM.HeadOk(g, e) && Holds(g, LM.Recovered(g, e), if k <= |bs| then s else t)
  {
    LM.CommitAtomic(g, dev, bs, cs, k);
    OverlayHolds(g, sb, dev, bs, cs, s, t);
    hide LM.Recovered, LM.CommitDisk, LM.Overlay, Holds, LM.SameHome;
    HoldsSame(g, if k <= |bs| then dev else LM.Overlay(dev, bs, cs), LM.Recovered(g, LM.CommitDisk(g, dev, bs, cs, k)),
              if k <= |bs| then s else t);
  }

  /** Every disk that the commit passes through recovers to s or, from the commit point on, to t. */
  lemma TraceImage(g: LM.Geometry, sb: Super, dev: LM.Disk, bs: seq<int>, cs: seq<LM.Block>, s: State, t: State, k: nat)
    requires Commits(g, sb, dev, bs, cs, s.d, t.d) && LogAt(g, sb) && Sound(sb, s) && Sound(sb, t) && k < 2 * |bs| + 2
    ensures Image(g, sb, LM.CommitTrace(g, dev, bs, cs)[k], if k < |bs| then s else t)
  {
    hide Sound, Holds, LM.Recovered, LM.CommitTrace, LM.CommitDisk, LM.CommitPre;
    LM.CommitTraceAt(g, dev, bs, cs, k + 1);
    CommitHolds(g, sb, dev, bs, cs, s.d, t.d, k + 1);
  }

  // ----- one operation of filewrite -----

  /** No operation is running: the device, recovered or not, holds the file system. */
  ghost predicate Quiet(fs: FileSystem, log: RedoLog)
    reads fs, log, log.block
  {
    && fs.Valid() && fs.Synced() && LogAt(log.g, fs.sb) && log.g.size > MAXOPBLOCKS + 1
    && log.Settled() && !log.committing && log.outstanding == 0 && log.n == 0
    && Holds(log.g, log.disk, fs.d)
  }

  lemma QuietImage(g: LM.Geometry, sb: Super, dev: LM.Disk, s: State)
    requires LogAt(g, sb) && LM.DiskOk(g, dev) && LM.HeadOk(g, dev) && LM.Head(g, dev) == [] && Holds(g, dev, s.d)
    requires Sound(sb, s)
    ensures Image(g, sb, dev, s)
  {
    LM.RecoveredEmpty(g, dev);
    hide LM.Recovered, Holds;
    HoldsSame(g, dev, LM.Recovered(g, dev), s.d);
  }

  /** What the log knows while the blocks in done have been handed to it. */
  ghost predicate Handed(log: RedoLog, d: Disk, done: set<int>)
    reads log, log.block
  {
    && log.Valid() && log.Pinned() && log.cache.Keys == done && |log.Lh()| == |done|
    && (forall i, j :: 0 <= i < j < |log.Lh()| ==> log.Lh()[i] != log.Lh()[j])
    && (forall b :: b in log.Lh() <==> b in done)
    && forall b :: b in done ==> 0 <= b < |d| && |d[b]| == BSIZE && log.cache[b] == Words(d[b])
  }

  /** log_write for each of the blocks; the order does not matter, for a commit copies what is in the cache. */
  method LogAll(log: RedoLog, d: Disk, blocks: set<int>)
    requires Handed(log, d, {}) && log.outstanding >= 1 && |blocks| <= MAXOPBLOCKS < log.g.size - 1
    requires forall b :: b in blocks ==> LM.IsHome(log.g, b) && b < |d| && |d[b]| == BSIZE
    modifies log`n, log`cache, log.block
    ensures Handed(log, d, blocks)
  {
    hide Words, Handed;
    ghost var done := {};
    for b := 0 to |d|
      invariant done == (set c | c in blocks && c < b) && Handed(log, d, done)
    {
      if b in blocks {
        SubsetSize(done + {b}, blocks);
        LogOne(log, d, done, b);
        done := done + {b};
      }
    }
    assert done == blocks;
  }

  method LogOne(log: RedoLog, d: Disk, ghost done: set<int>, b: int)
    requires Handed(log, d, done) && b !in done && log.outstanding >= 1 && |done| < MAXOPBLOCKS < log.g.size - 1
    requires LM.IsHome(log.g, b) && b < |d| && |d[b]| == BSIZE
    modifies log`n, log`cache, log.block
    ensures Handed(log, d, done + {b})
  {
    hide Words;
    ghost var lh := log.Lh();
    var panicked := log.LogWrite(b, Words(d[b]));
    assert log.Lh() == lh + [b];
  }

  lemma LoggedHome(g: LM.Geometry, sb: Super, s: Disk, d: Disk, blocks: set<int>)
    requires SuperOk(sb, d) && LogAt(g, sb) && Traced(sb, s, {}, d, blocks, sb.inodestart)
    ensures forall b :: b in blocks ==> LM.IsHome(g, b) && b < |d| && |d[b]| == BSIZE
  {
  }

  /** The blocks handed to the log are what the commit takes the device from s to d with. */
  lemma HandedCommits(log: RedoLog, sb: Super, s: Disk, d: Disk, blocks: set<int>)
    requires Handed(log, d, blocks) && LM.HeadOk(log.g, log.disk) && LM.Head(log.g, log.disk) == []
    requires SuperOk(sb, d) && LogAt(log.g, sb) && Holds(log.g, log.disk, s)
    requires Traced(sb, s, {}, d, blocks, sb.inodestart)
    ensures Commits(log.g, sb, log.disk, log.Lh(), log.Contents(), s, d)
  {
    hide Words;
  }

  /** end_op for the one operation that runs: every disk of its commit recovers to s or to what is there now. */
  method EndWrite(fs: FileSystem, log: RedoLog, ghost s: State) returns (ghost point: nat)
    requires fs.Valid() && fs.Synced() && LogAt(log.g, fs.sb) && log.g.size > MAXOPBLOCKS + 1 && Sound(fs.sb, s)
    requires Handed(log, fs.d, fs.logged) && LM.HeadOk(log.g, log.disk) && LM.Head(log.g, log.disk) == []
    requires !log.committing && log.outstanding == 1
    requires Holds(log.g, log.disk, s.d) && Traced(fs.sb, s.d, {}, fs.d, fs.logged, fs.sb.inodestart)
    modifies log
    ensures Quiet(fs, log) && |old(log.trace)| <= point <= |log.trace| && old(log.trace) <= log.trace
    ensures forall k :: |old(log.trace)| <= k < |log.trace| ==>
              Image(log.g, fs.sb, log.trace[k], if k < point then s else fs.St())
  {
    hide Words, Holds, Commits, LM.Overlay, LM.CommitTrace, LM.CommitDisk, Traced, SuperOk, LM.SameHome;
    ghost var dev, bs, cs, tr := log.disk, log.Lh(), log.Contents(), log.trace;
    HandedCommits(log, fs.sb, s.d, fs.d, fs.logged);
    point := |tr| + log.n;
    log.EndOp();
    OverlayHolds(log.g, fs.sb, dev, bs, cs, s.d, fs.d);
    HoldsSame(log.g, LM.Overlay(dev, bs, cs), log.disk, fs.d);
    if bs != [] {
      forall k | |tr| <= k < |log.trace| ensures Image(log.g, fs.sb, log.trace[k], if k < point then s else fs.St()) {
        TraceImage(log.g, fs.sb, dev, bs, cs, s, fs.St(), k - |tr|);
      }
    }
  }

  /** The one operation that runs has changed s to what is there now: its log_writes and its end_op. */
  method LogAndEnd(fs: FileSystem, log: RedoLog, ghost s: State) returns (ghost point: nat)
    requires fs.Valid() && fs.Synced() && LogAt(log.g, fs.sb) && log.g.size > MAXOPBLOCKS + 1 && Sound(fs.sb, s)
    requires log.Settled() && !log.committing && log.outstanding == 1 && log.n == 0 && |fs.logged| <= MAXOPBLOCKS
    requires Holds(log.g, log.disk, s.d) && Traced(fs.sb, s.d, {}, fs.d, fs.logged, fs.sb.inodestart)
    modifies log, log.block
    ensures Quiet(fs, log) && |old(log.trace)| <= point <= |log.trace| && old(log.trace) <= log.trace
    ensures forall k :: |old(log.trace)| <= k < |log.trace| ==>
              Image(log.g, fs.sb, log.trace[k], if k < point then s else fs.St())
  {
    hide Words, Holds, Traced, SuperOk, Sound, OwnerOk, BitOk, SlotOwned, Dense, Image, DiskInodes, InodeOk, Slot;
    assert log.cache - (set b | b in log.block[..0]) == log.cache;
    LoggedHome(log.g, fs.sb, s.d, fs.d, fs.logged);
    LogAll(log, fs.d, fs.logged);
    point := EndWrite(fs, log, s);
  }

  /**
    One turn of the loop of filewrite: begin_op, writei, end_op.  Every disk that it leaves behind
    recovers to the file system before the turn or to the one after it; if the file system is full and
    the kernel panics, the device has not changed.
   */
  method WriteOp(fs: FileSystem, log: RedoLog, f: OpenFile, src: seq<int>) returns (r: int, ok: bool, ghost point: nat)
    requires Quiet(fs, log) && f.ip < |fs.inodes| && f.off < UINT && 0 < |src| <= CHUNK && Bytes(src)
    modifies fs, f, log, log.block
    ensures !ok ==> Full(fs.sb, fs.d) && log.disk == old(log.disk) && log.trace == old(log.trace)
    ensures ok ==> Quiet(fs, log) && |fs.inodes| == old(|fs.inodes|)
    ensures ok ==> (r == -1 <==> old(f.off > fs.inodes[f.ip].size || f.off + |src| > MAXFILE * BSIZE))
    ensures ok && r == -1 ==> f.off == old(f.off) && fs.St() == old(fs.St())
    ensures ok && r != -1 ==> r == |src| && f.off == old(f.off) + r
    ensures ok && r != -1 ==> Files(fs.sb, fs.St()) == Put(old(Files(fs.sb, fs.St())), f.ip, old(f.off), src)
    ensures ok ==> |old(log.trace)| <= point <= |log.trace| && old(log.trace) <= log.trace
    ensures ok ==> forall k :: |old(log.trace)| <= k < |log.trace| ==>
              Image(log.g, fs.sb, log.trace[k], if k < point then old(fs.St()) else fs.St())
  {
    hide Words, Holds, Traced, SuperOk, Files, Put, OwnerOk;
    hide BitOk, SlotOwned, Dense, Image, DiskInodes, InodeOk, Slot, Full;
    ghost var s := fs.St();
    point := 0;
    var entered := log.BeginOp();
    r, ok := fs.WriteChunk(f, src);
    if !ok { return; }
    point := LogAndEnd(fs, log, s);
  }

  // ----- the whole of filewrite -----

  /** The disks devs recover to images, in which more and more of data is written. */
  ghost predicate Story(g: LM.Geometry, sb: Super, devs: seq<LM.Disk>, images: seq<State>, marks: seq<nat>,
                        fs: seq<seq<int>>, i: nat, off: nat, data: seq<int>)
  {
    && |devs| == |images| == |marks|
    && (forall k :: 0 <= k < |devs| ==> Image(g, sb, devs[k], images[k]) && Front(sb, images[k], fs, i, off, data, marks[k]))
    && forall k, l :: 0 <= k < l < |marks| ==> marks[k] <= marks[l]
  }

  /** n times a, then b up to length len. */
  ghost function Switch<T>(a: T, b: T, n: nat, len: nat): (r: seq<T>)
    ensures |r| == len && forall k :: 0 <= k < len ==> r[k] == if k < n then a else b
  {
    seq(len, k => if k < n then a else b)
  }

  lemma StoryTurn(g: LM.Geometry, sb: Super, devs: seq<LM.Disk>, images: seq<State>, marks: seq<nat>,
                  fs: seq<seq<int>>, i: nat, off: nat, data: seq<int>,
                  more: seq<LM.Disk>, p: nat, s: State, t: State, m: nat, m': nat)
    requires Story(g, sb, devs, images, marks, fs, i, off, data) && m <= m' && forall k :: 0 <= k < |marks| ==> marks[k] <= m
    requires Front(sb, s, fs, i, off, data, m) && Front(sb, t, fs, i, off, data, m')
    requires forall k :: 0 <= k < |more| ==> Image(g, sb, more[k], if k < p then s else t)
    ensures var r := marks + Switch<nat>(m, m', p, |more|);
      && Story(g, sb, devs + more, images + Switch(s, t, p, |more|), r, fs, i, off, data)
      && forall k :: 0 <= k < |r| ==> r[k] <= m'
  {
    hide Image, Front;
  }

  /** A turn of the loop after i bytes. */
  method FilewriteTurn(fs: FileSystem, log: RedoLog, f: OpenFile, data: seq<int>, i: nat, ghost tr: seq<LM.Disk>,
                       ghost files: seq<seq<int>>, ghost off: nat, ghost images: seq<State>, ghost marks: seq<nat>)
    returns (w: int, ok: bool, ghost m: nat, ghost images': seq<State>, ghost marks': seq<nat>)
    requires Quiet(fs, log) && f.ip < |files| && off < UINT && i < |data| < UINT / 2 && Bytes(data) && f.off == off + i
    requires (i > 0 ==> off + i <= MAXFILE * BSIZE) && Front(fs.sb, fs.St(), files, f.ip, off, data, i)
    requires tr <= log.trace && Story(log.g, fs.sb, log.trace[|tr|..], images, marks, files, f.ip, off, data)
    requires forall k :: 0 <= k < |marks| ==> marks[k] <= i
    modifies fs, f, log, log.block
    ensures tr <= log.trace && Story(log.g, fs.sb, log.trace[|tr|..], images', marks', files, f.ip, off, data)
    ensures !ok ==> Full(fs.sb, fs.d)
    ensures ok ==> Quiet(fs, log) && f.off == off + m && i <= m <= |data| && m == i + Max(w, 0)
    ensures ok ==> Front(fs.sb, fs.St(), files, f.ip, off, data, m)
    ensures ok ==> forall k :: 0 <= k < |marks'| ==> marks'[k] <= m
    ensures ok ==> w == -1 || w == Min(|data| - i, CHUNK)
    ensures ok && w == -1 ==> off > |files[f.ip]| || off + |data| > MAXFILE * BSIZE
    ensures ok && w != -1 ==> off <= |files[f.ip]| && off + m <= MAXFILE * BSIZE
  {
    hide Story, Image, Front, Full, Files, Put, Holds, SuperOk;
    hide OwnerOk, BitOk, SlotOwned, Dense, InodeOk, DiskInodes, LogAt, HeldOk;
    FrontSize(fs.sb, fs.St(), files, f.ip, off, data, i);
    m, images', marks' := i, images, marks;
    var n1 := |data| - i;
    if n1 > CHUNK {
      n1 := CHUNK;
    }
    ghost var s, was := fs.St(), log.trace;
    ghost var point: nat;
    w, ok, point := WriteOp(fs, log, f, data[i..i + n1]);
    if !ok { return; }
    if w != -1 {
      m := i + w;
      FrontNext(fs.sb, s, fs.St(), files, f.ip, off, data, i, w);
    }
    ghost var more := log.trace[|was|..];
    StoryTurn(log.g, fs.sb, was[|tr|..], images, marks, files, f.ip, off, data, more, point - |was|, s, fs.St(), i, m);
    assert was[|tr|..] + more == log.trace[|tr|..];
    images' := images + Switch(s, fs.St(), point - |was|, |more|);
    marks' := marks + Switch<nat>(i, m, point - |was|, |more|);
  }

  /** The loop of filewrite, for the files that there are before it. */
  method WriteAll(fs: FileSystem, log: RedoLog, f: OpenFile, data: seq<int>, n: int, ghost files: seq<seq<int>>)
    returns (r: int, ok: bool, ghost images: seq<State>, ghost marks: seq<nat>)
    requires Quiet(fs, log) && f.ip < |files| && f.off < UINT && |data| == Max(n, 0) < UINT / 2 && Bytes(data)
    requires Front(fs.sb, fs.St(), files, f.ip, f.off, data, 0)
    modifies fs, f, log, log.block
    ensures old(log.trace) <= log.trace
    ensures Story(log.g, fs.sb, log.trace[|old(log.trace)|..], images, marks, files, f.ip, old(f.off), data)
    ensures !ok ==> Full(fs.sb, fs.d)
    ensures ok ==> Quiet(fs, log) && (r == n || r == -1) && old(f.off) <= f.off
    ensures ok ==> Front(fs.sb, fs.St(), files, f.ip, old(f.off), data, f.off - old(f.off))
    ensures ok && r == n >= 0 ==> f.off == old(f.off) + n
    ensures ok && n >= 0 ==> (r == n <==> n == 0 || (old(f.off) <= |files[f.ip]| && old(f.off) + n <= MAXFILE * BSIZE))
  {
    hide Quiet, Story, Image, Front, Full, Bytes;
    ghost var off, tr := f.off, log.trace;
    ok, images, marks := true, [], [];
    NoStory(log.g, fs.sb, files, f.ip, off, data);
    assert log.trace[|tr|..] == [];
    var i := 0;
    while i < n
      invariant ok && 0 <= i <= |data| && f.off == off + i && Quiet(fs, log) && tr <= log.trace
      invariant i > 0 ==> off <= |files[f.ip]| && off + i <= MAXFILE * BSIZE
      invariant Front(fs.sb, fs.St(), files, f.ip, off, data, i)
      invariant Story(log.g, fs.sb, log.trace[|tr|..], images, marks, files, f.ip, off, data)
      invariant forall k :: 0 <= k < |marks| ==> marks[k] <= i
    {
      var w: int;
      ghost var m;
      w, ok, m, images, marks := FilewriteTurn(fs, log, f, data, i, tr, files, off, images, marks);
      if !ok || w < 0 {
        return -1, ok, images, marks;
      }
      i := i + w;
    }
    r := if i == n then n else -1;
  }

  /**
    filewrite, each of its operations through the log.  Whichever of the disk writes is the last before
    a crash, recovery gives a sound file system in which a front part of data is in the file, all of it
    where it belongs, and nothing else has changed; the longer filewrite runs, the longer that part is.
   */
  method Filewrite(fs: FileSystem, log: RedoLog, f: OpenFile, data: seq<int>, n: int)
    returns (r: int, ok: bool, ghost images: seq<State>, ghost marks: seq<nat>)
    requires Quiet(fs, log) && f.ip < |fs.inodes| && f.off < UINT && |data| == Max(n, 0) < UINT / 2 && Bytes(data)
    modifies fs, f, log, log.block
    ensures old(log.trace) <= log.trace
    ensures Story(log.g, fs.sb, log.trace[|old(log.trace)|..], images, marks,
                  old(Files(fs.sb, fs.St())), f.ip, old(f.off), data)
    ensures !ok ==> Full(fs.sb, fs.d)
    ensures ok ==> Quiet(fs, log) && (r == n || r == -1) && old(f.off) <= f.off
    ensures ok ==> Front(fs.sb, fs.St(), old(Files(fs.sb, fs.St())), f.ip, old(f.off), data, f.off - old(f.off))
    ensures ok && r == n >= 0 ==> f.off == old(f.off) + n
    ensures ok && n >= 0 ==>
              (r == n <==> n == 0 || old(f.off <= fs.inodes[f.ip].size && f.off + n <= MAXFILE * BSIZE))
  {
    hide Story, Image, Full, Bytes, Front, Files, Put, Holds;
    hide SuperOk, OwnerOk, BitOk, SlotOwned, Dense, InodeOk, DiskInodes, LogAt, HeldOk;
    ghost var files := Files(fs.sb, fs.St());
    FrontNone(fs.sb, fs.St(), f.ip, f.off, data);
    hide Quiet;
    r, ok, images, marks := WriteAll(fs, log, f, data, n, files);
  }

  lemma NoStory(g: LM.Geometry, sb: Super, fs: seq<seq<int>>, i: nat, off: nat, data: seq<int>)
    ensures Story(g, sb, [], [], [], fs, i, off, data)
  {
  }

  // ----- starting again -----

  /** Recoveries that crash themselves, however many and wherever, do not change what there is to recover. */
  lemma CrashedRecoveries(g: LM.Geometry, sb: Super, devs: seq<LM.Disk>, s: State)
    requires LM.CrashChain(g, devs) && Image(g, sb, devs[0], s)
    ensures Image(g, sb, devs[|devs| - 1], s)
  {
    hide LM.Recovered, LM.InRecovery, Holds, Sound, LM.SameHome;
    var last := devs[|devs| - 1];
    LM.CrashChainSame(g, devs);
    HoldsSame(g, LM.Recovered(g, devs[0]), LM.Recovered(g, last), s.d);
  }

  /** The boot after a crash: initlog recovers the device, and the file system is there as s describes it. */
  method Boot(g: LM.Geometry, sb: Super, dev: LM.Disk, n: nat, ghost s: State) returns (fs: FileSystem, log: RedoLog)
    requires Image(g, sb, dev, s) && g.size > MAXOPBLOCKS + 1 && n == |s.ino|
    ensures fresh(fs) && fresh(log) && fresh(log.block) && Quiet(fs, log) && fs.sb == sb && log.g == g
    ensures fs.inodes == s.ino && Files(sb, fs.St()) == Files(sb, s)
  {
    log := new RedoLog(g, dev);
    var disk := log.disk;
    var d := seq(|disk|, c requires 0 <= c < |disk| && |disk[c]| == LM.BWORDS => BytesOf(disk[c]));
    BootDisk(g, sb, dev, s, d);
    Remount(g, sb, dev, s, d);
    fs := new FileSystem(sb, d, n, s.owner);
  }

  lemma BootDisk(g: LM.Geometry, sb: Super, dev: LM.Disk, s: State, d: Disk)
    requires Image(g, sb, dev, s) && |d| == g.blocks
    requires forall c :: 0 <= c < |d| ==> d[c] == BytesOf(LM.Recovered(g, dev)[c])
    ensures SuperOk(sb, d) && Holds(g, LM.Recovered(g, dev), d)
  {
    hide Words, BytesOf, LM.Recovered;
    forall c | LM.IsHome(g, c) ensures d[c] == s.d[c] {
      assert BlockOk(s.d[c]);
      BytesOfWords(s.d[c]);
    }
  }
}
