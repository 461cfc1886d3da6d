/**
  The on-disk structures of fs.c: bitmap bits, indirect blocks, the block slots of an inode, and
  the invariant that ties bitmap, inodes and block ownership together.  The disk is the plain block
  map that module BufferCache provides.
 */
module FsModel {
  import opened Params

  const BSIZE: nat := 512
  const NDIRECT: nat := 12
  const NINDIRECT: nat := 128
  const MAXFILE: nat := NDIRECT + NINDIRECT
  const BPB: nat := BSIZE * 8
  /** The blocks an inode can own: its direct blocks, its indirect block, and those listed there. */
  const NSLOT: nat := NDIRECT + 1 + NINDIRECT

  type Block = seq<int>
  type Disk = seq<Block>

  /** The parts of the super block used here; data blocks start behind the bitmap. */
  datatype Super = Super(size: nat, inodestart: nat, bmapstart: nat, datastart: nat)

  ghost predicate SuperOk(sb: Super, d: Disk) {
    && 1 <= sb.inodestart <= sb.bmapstart < sb.datastart <= sb.size == |d| < UINT
    && (forall b :: 0 <= b < sb.size ==> BBlock(sb, b) < sb.datastart)
    && (forall b :: 0 <= b < |d| ==> BlockOk(d[b]))
  }

  ghost predicate BlockOk(blk: Block) {
    |blk| == BSIZE && forall i :: 0 <= i < BSIZE ==> 0 <= blk[i] < 256
  }

  function Zero(): (z: Block)
    ensures BlockOk(z) && forall i :: 0 <= i < BSIZE ==> z[i] == 0
  {
    seq(BSIZE, _ => 0)
  }

  // ----- bits -----

  /** Bit k of x. */
  function Bit(x: nat, k: nat): bool {
    if k == 0 then x % 2 == 1 else Bit(x / 2, k - 1)
  }

  /** x | 1 << k */
  function SetBit(x: nat, k: nat): nat {
    if k == 0 then (if x % 2 == 0 then x + 1 else x) else 2 * SetBit(x / 2, k - 1) + x % 2
  }

  /** x & ~(1 << k) */
  function ClearBit(x: nat, k: nat): nat {
    if k == 0 then x - x % 2 else 2 * ClearBit(x / 2, k - 1) + x % 2
  }

  lemma {:induction false} BitAfter(x: nat, k: nat, j: nat)
    ensures Bit(SetBit(x, k), j) <==> j == k || Bit(x, j)
    ensures Bit(ClearBit(x, k), j) <==> j != k && Bit(x, j)
  {
    if k > 0 && j > 0 {
      BitAfter(x / 2, k - 1, j - 1);
      assert (2 * SetBit(x / 2, k - 1) + x % 2) / 2 == SetBit(x / 2, k - 1);
      assert (2 * ClearBit(x / 2, k - 1) + x % 2) / 2 == ClearBit(x / 2, k - 1);
    }
  }

  ghost function Pow2(n: nat): nat {
    if n == 0 then 1 else 2 * Pow2(n - 1)
  }

  lemma {:induction false} BitRange(x: nat, k: nat, n: nat)
    requires k < n && x < Pow2(n)
    ensures SetBit(x, k) < Pow2(n) && ClearBit(x, k) < Pow2(n)
  {
    Halves(x, Pow2(n - 1));
    if k > 0 {
      BitRange(x / 2, k - 1, n - 1);
      Doubles(SetBit(x / 2, k - 1), Pow2(n - 1), x % 2);
      Doubles(ClearBit(x / 2, k - 1), Pow2(n - 1), x % 2);
    }
  }

  lemma Halves(x: nat, p: nat)
    requires x < 2 * p
    ensures x / 2 < p && (x % 2 == 0 ==> x + 1 < 2 * p) && x - x % 2 < 2 * p
  {
  }

  lemma Doubles(y: nat, p: nat, b: nat)
    requires y < p && b <= 1
    ensures 2 * y + b < 2 * p
  {
  }

  // ----- the bitmap -----

  function BBlock(sb: Super, b: nat): nat {
    b / BPB + sb.bmapstart
  }

  /** Block b is marked in use. */
  ghost predicate Used(sb: Super, d: Disk, b: nat)
    requires SuperOk(sb, d) && b < sb.size
  {
    Bit(d[BBlock(sb, b)][b % BPB / 8], b % 8)
  }

  ghost function Mark(sb: Super, d: Disk, b: nat, used: bool): (r: Disk)
    requires SuperOk(sb, d) && b < sb.size
  {
    var blk := d[BBlock(sb, b)];
    var x := blk[b % BPB / 8];
    d[BBlock(sb, b) := blk[b % BPB / 8 := if used then SetBit(x, b % 8) else ClearBit(x, b % 8)]]
  }

  lemma MarkOk(sb: Super, d: Disk, b: nat, used: bool)
    requires SuperOk(sb, d) && b < sb.size
    ensures SuperOk(sb, Mark(sb, d, b, used))
    ensures forall c :: 0 <= c < |d| && c != BBlock(sb, b) ==> Mark(sb, d, b, used)[c] == d[c]
  {
    var x := d[BBlock(sb, b)][b % BPB / 8];
    assert Pow2(8) == 256 by {
      assert Pow2(2) == 4 && Pow2(4) == 16;
      assert Pow2(6) == 64;
    }
    BitRange(x, b % 8, 8);
    var e := Mark(sb, d, b, used);
    assert BlockOk(d[BBlock(sb, b)]);
    forall c | 0 <= c < |e| ensures BlockOk(e[c]) { assert BlockOk(d[c]); }
  }

  /** Marking a block changes its bit and no other. */
  lemma MarkUsed(sb: Super, d: Disk, b: nat, used: bool, c: nat)
    requires SuperOk(sb, d) && b < sb.size && c < sb.size
    requires SuperOk(sb, Mark(sb, d, b, used))
    ensures Used(sb, Mark(sb, d, b, used), c) <==> if c == b then used else Used(sb, d, c)
  {
    if BBlock(sb, c) == BBlock(sb, b) && c % BPB / 8 == b % BPB / 8 {
      BitAfter(d[BBlock(sb, b)][b % BPB / 8], b % 8, c % 8);
      SameBit(b, c);
    }
  }

  lemma SameBit(b: nat, c: nat)
    requires b / BPB == c / BPB && b % BPB / 8 == c % BPB / 8
    ensures b == c <==> b % 8 == c % 8
  {
    Split(b);
    Split(c);
  }

  lemma Split(b: nat)
    ensures b == b / BPB * BPB + b % BPB / 8 * 8 + b % 8
  {
    assert b % BPB % 8 == b % 8 by { assert b == b / BPB * 512 * 8 + b % BPB; }
  }

  // ----- words of an indirect block -----

  function Word(blk: Block, j: nat): int
    requires |blk| == BSIZE && j < NINDIRECT
  {
    blk[4*j] + 0x100 * blk[4*j+1] + 0x1_0000 * blk[4*j+2] + 0x100_0000 * blk[4*j+3]
  }

  function PutWord(blk: Block, j: nat, v: int): (r: Block)
    requires |blk| == BSIZE && j < NINDIRECT
    ensures |r| == BSIZE
  {
    blk[4*j := v % 0x100][4*j+1 := v / 0x100 % 0x100][4*j+2 := v / 0x1_0000 % 0x100][4*j+3 := v / 0x100_0000 % 0x100]
  }

  lemma PutWordAt(blk: Block, j: nat, v: int, i: nat)
    requires BlockOk(blk) && j < NINDIRECT && i < NINDIRECT && 0 <= v < UINT
    ensures BlockOk(PutWord(blk, j, v)) && Word(PutWord(blk, j, v), i) == if i == j then v else Word(blk, i)
  {
    if i == j { Bytes4(v); }
  }

  lemma Bytes4(v: int)
    requires 0 <= v < UINT
    ensures v == v % 0x100 + 0x100 * (v / 0x100 % 0x100)
              + 0x1_0000 * (v / 0x1_0000 % 0x100) + 0x100_0000 * (v / 0x100_0000 % 0x100)
  {
    var a := v / 0x100;
    var b := a / 0x100;
    var c := b / 0x100;
    assert v / 0x1_0000 == b;
    assert v / 0x100_0000 == c < 0x100;
    assert v == a * 0x100 + v % 0x100 && a == b * 0x100 + a % 0x100 && b == c * 0x100 + b % 0x100;
  }

  // ----- inodes -----

  /** The block list and size of an inode; addrs[NDIRECT] is the indirect block, 0 means no block. */
  datatype Inode = Inode(addrs: seq<int>, size: int)

  ghost predicate InodeOk(sb: Super, x: Inode) {
    && |x.addrs| == NDIRECT + 1 && 0 <= x.size <= MAXFILE * BSIZE
    && forall j :: 0 <= j <= NDIRECT ==> AddrOk(sb, x.addrs[j])
  }

  predicate AddrOk(sb: Super, a: int) {
    a == 0 || sb.datastart <= a < sb.size
  }

  /** The block in slot k of an inode, 0 if there is none. */
  ghost function Slot(sb: Super, d: Disk, x: Inode, k: nat): int
    requires SuperOk(sb, d) && InodeOk(sb, x) && k < NSLOT
  {
    if k <= NDIRECT then x.addrs[k]
    else if x.addrs[NDIRECT] == 0 then 0
    else Word(d[x.addrs[NDIRECT]], k - NDIRECT - 1)
  }

  /** The slot of the n-th data block of a file. */
  function DataSlot(n: nat): nat {
    if n < NDIRECT then n else n + 1
  }

  /** Byte o of a file; a byte in a missing block reads as 0. */
  ghost function ByteAt(sb: Super, d: Disk, x: Inode, o: nat): int
    requires SuperOk(sb, d) && InodeOk(sb, x) && o < MAXFILE * BSIZE
  {
    var b := Slot(sb, d, x, DataSlot(o / BSIZE));
    if 0 < b < |d| then d[b][o % BSIZE] else 0
  }

  ghost function File(sb: Super, d: Disk, x: Inode): (s: seq<int>)
    requires SuperOk(sb, d) && InodeOk(sb, x)
    ensures |s| == x.size
  {
    seq(x.size, o requires 0 <= o < x.size => ByteAt(sb, d, x, o))
  }

  // ----- inodes on disk -----

  /** Inodes per block; each takes 16 words: type, device and link count in two, the size, the addresses. */
  const IPB: nat := 8
  const INODE_WORDS: nat := 16

  function IBlock(sb: Super, i: nat): nat {
    i / IPB + sb.inodestart
  }

  /** The inode blocks have room for n inodes. */
  predicate Room(sb: Super, n: nat) {
    n <= IPB * (sb.bmapstart - sb.inodestart)
  }

  lemma IBlockInside(sb: Super, n: nat, i: nat)
    requires Room(sb, n) && i < n
    ensures sb.inodestart <= IBlock(sb, i) < sb.bmapstart
  {
  }

  /** blk with the words ws stored from word j on. */
  function PutWords(blk: Block, j: nat, ws: seq<int>): (r: Block)
    requires |blk| == BSIZE && j + |ws| <= NINDIRECT
    ensures |r| == BSIZE
    decreases |ws|
  {
    if ws == [] then blk else PutWords(PutWord(blk, j, ws[0]), j + 1, ws[1..])
  }

  lemma {:induction false} PutWordsAt(blk: Block, j: nat, ws: seq<int>, i: nat)
    requires BlockOk(blk) && j + |ws| <= NINDIRECT && i < NINDIRECT && forall k :: 0 <= k < |ws| ==> 0 <= ws[k] < UINT
    ensures BlockOk(PutWords(blk, j, ws))
    ensures Word(PutWords(blk, j, ws), i) == if j <= i < j + |ws| then ws[i - j] else Word(blk, i)
    decreases |ws|
  {
    hide PutWord, Word;
    if ws != [] {
      PutWordAt(blk, j, ws[0], i);
      PutWordsAt(PutWord(blk, j, ws[0]), j + 1, ws[1..], i);
    }
  }

  /** Inode k of an inode block. */
  function InodeAt(blk: Block, k: nat): (x: Inode)
    requires |blk| == BSIZE && k < IPB
    ensures |x.addrs| == NDIRECT + 1
  {
    var base := INODE_WORDS * k;
    Inode(seq(NDIRECT + 1, l requires 0 <= l <= NDIRECT => Word(blk, base + 3 + l)), Word(blk, base + 2))
  }

  /** blk with size and addresses of inode k replaced. */
  function PutInode(blk: Block, k: nat, x: Inode): (r: Block)
    requires |blk| == BSIZE && k < IPB && |x.addrs| == NDIRECT + 1
    ensures |r| == BSIZE
  {
    PutWords(blk, INODE_WORDS * k + 2, [x.size] + x.addrs)
  }

  /** Word 2 + n of inode l, the size or an address, after inode k has been replaced. */
  lemma PutInodeWord(sb: Super, blk: Block, k: nat, x: Inode, l: nat, n: nat)
    requires BlockOk(blk) && k < IPB && l < IPB && InodeOk(sb, x) && sb.size < UINT && n <= NDIRECT + 1
    ensures BlockOk(PutInode(blk, k, x))
    ensures Word(PutInode(blk, k, x), INODE_WORDS * l + 2 + n)
         == if l == k then ([x.size] + x.addrs)[n] else Word(blk, INODE_WORDS * l + 2 + n)
  {
    hide Word, PutWords;
    var ws := [x.size] + x.addrs;
    forall j | 0 <= j < |ws| ensures 0 <= ws[j] < UINT {
      if j > 0 { assert AddrOk(sb, x.addrs[j - 1]); }
    }
    PutWordsAt(blk, INODE_WORDS * k + 2, ws, INODE_WORDS * l + 2 + n);
  }

  lemma PutInodeAt(sb: Super, blk: Block, k: nat, x: Inode, l: nat)
    requires BlockOk(blk) && k < IPB && l < IPB && InodeOk(sb, x) && sb.size < UINT
    ensures BlockOk(PutInode(blk, k, x)) && InodeAt(PutInode(blk, k, x), l) == if l == k then x else InodeAt(blk, l)
  {
    PutInodeWord(sb, blk, k, x, l, 0);
    var r, y := InodeAt(PutInode(blk, k, x), l), if l == k then x else InodeAt(blk, l);
    hide PutInode, Word, BlockOk;
    forall n | 0 <= n <= NDIRECT ensures r.addrs[n] == y.addrs[n] { PutInodeWord(sb, blk, k, x, l, 1 + n); }
    assert r.addrs == y.addrs;
  }

  /** What ilock reads for inode i. */
  function DiskInode(sb: Super, d: Disk, i: nat): (x: Inode)
    requires IBlock(sb, i) < |d| && |d[IBlock(sb, i)]| == BSIZE
    ensures |x.addrs| == NDIRECT + 1
  {
    InodeAt(d[IBlock(sb, i)], i % IPB)
  }

  /** What iupdate writes for inode i. */
  function WithInode(sb: Super, d: Disk, i: nat, x: Inode): (r: Disk)
    requires IBlock(sb, i) < |d| && |d[IBlock(sb, i)]| == BSIZE && |x.addrs| == NDIRECT + 1
  {
    d[IBlock(sb, i) := PutInode(d[IBlock(sb, i)], i % IPB, x)]
  }

  /** iupdate changes the inode on disk and no other; ilock reads back what it wrote. */
  lemma WithInodeAt(sb: Super, d: Disk, i: nat, x: Inode, j: nat, n: nat)
    requires SuperOk(sb, d) && InodeOk(sb, x) && Room(sb, n) && i < n && j < n
    ensures IBlock(sb, i) < |d| && IBlock(sb, j) < |d| && SuperOk(sb, WithInode(sb, d, i, x))
    ensures DiskInode(sb, WithInode(sb, d, i, x), j) == if j == i then x else DiskInode(sb, d, j)
  {
    IBlockInside(sb, n, i);
    IBlockInside(sb, n, j);
    assert BlockOk(d[IBlock(sb, i)]);
    PutInodeAt(sb, d[IBlock(sb, i)], i % IPB, x, j % IPB);
    hide PutInode, InodeAt;
    var e := WithInode(sb, d, i, x);
    forall c | 0 <= c < |e| ensures BlockOk(e[c]) { assert BlockOk(d[c]); }
    assert i == j <==> i / IPB == j / IPB && i % IPB == j % IPB;
  }

  /** The first n inodes on disk. */
  function DiskInodes(sb: Super, d: Disk, n: nat): (r: seq<Inode>)
    requires SuperOk(sb, d) && Room(sb, n)
    ensures |r| == n && forall i :: 0 <= i < n ==> IBlock(sb, i) < |d| && r[i] == DiskInode(sb, d, i)
  {
    assert forall i :: 0 <= i < n ==> IBlock(sb, i) < |d| && BlockOk(d[IBlock(sb, i)]) by {
      forall i | 0 <= i < n ensures IBlock(sb, i) < |d| && BlockOk(d[IBlock(sb, i)]) { IBlockInside(sb, n, i); }
    }
    seq(n, i requires 0 <= i < n => DiskInode(sb, d, i))
  }

  lemma WithInodeAll(sb: Super, d: Disk, i: nat, x: Inode, n: nat)
    requires SuperOk(sb, d) && InodeOk(sb, x) && Room(sb, n) && i < n
    ensures IBlock(sb, i) < |d| && SuperOk(sb, WithInode(sb, d, i, x))
    ensures DiskInodes(sb, WithInode(sb, d, i, x), n) == DiskInodes(sb, d, n)[i := x]
  {
    WithInodeAt(sb, d, i, x, i, n);
    hide WithInode, DiskInode, DiskInodes;
    var e := WithInode(sb, d, i, x);
    forall j | 0 <= j < n ensures DiskInodes(sb, e, n)[j] == DiskInodes(sb, d, n)[i := x][j] {
      WithInodeAt(sb, d, i, x, j, n);
    }
  }

  /** Nothing before the bitmap has changed, so no inode on disk has. */
  lemma InodesStay(sb: Super, d: Disk, e: Disk, n: nat)
    requires SuperOk(sb, d) && SuperOk(sb, e) && Room(sb, n) && forall c :: 0 <= c < sb.bmapstart ==> e[c] == d[c]
    ensures DiskInodes(sb, e, n) == DiskInodes(sb, d, n)
  {
    forall i | 0 <= i < n ensures DiskInodes(sb, e, n)[i] == DiskInodes(sb, d, n)[i] { IBlockInside(sb, n, i); }
  }

  // ----- what changes is logged -----

  /**
    From d to e only blocks that are logged have changed, and neither these nor what was logged in
    between lies before from.
   */
  ghost predicate Traced(sb: Super, d: Disk, before: set<int>, e: Disk, after: set<int>, from: nat) {
    && |e| == |d| && before <= after
    && (forall c :: c in after && c !in before ==> from <= c < sb.size)
    && (forall c :: 0 <= c < |d| && e[c] != d[c] ==> c in after && from <= c)
  }

  lemma TracedThen(sb: Super, d: Disk, l0: set<int>, e: Disk, l1: set<int>, f: Disk, l2: set<int>, from: nat, from': nat)
    requires Traced(sb, d, l0, e, l1, from) && Traced(sb, e, l1, f, l2, from') && from' <= from
    ensures Traced(sb, d, l0, f, l2, from')
  {
    forall c | 0 <= c < |d| && f[c] != d[c] ensures c in l2 && from' <= c {
      if e[c] == d[c] { assert f[c] != e[c]; }
    }
  }

  lemma TracedSelf(sb: Super, d: Disk, logged: set<int>, from: nat)
    ensures Traced(sb, d, logged, d, logged, from)
  {
  }

  lemma TracedWider(sb: Super, d: Disk, before: set<int>, e: Disk, after: set<int>, from: nat, from': nat)
    requires Traced(sb, d, before, e, after, from) && from' <= from
    ensures Traced(sb, d, before, e, after, from')
  {
  }

  lemma Untouched(sb: Super, d: Disk, before: set<int>, e: Disk, after: set<int>, from: nat)
    requires Traced(sb, d, before, e, after, from)
    ensures forall c :: 0 <= c < from && c < |d| ==> e[c] == d[c]
  {
  }

  lemma TracedOne(sb: Super, d: Disk, logged: set<int>, c: nat, blk: Block, from: nat)
    requires from <= c < sb.size == |d|
    ensures Traced(sb, d, logged, d[c := blk], logged + {c}, from)
  {
  }

  // ----- ownership -----

  /** The owner of a block: an inode number and a slot of that inode. */
  datatype Place = Place(inum: int, slot: nat)

  datatype State = State(d: Disk, ino: seq<Inode>, owner: map<int, Place>)

  ghost predicate SlotOwned(sb: Super, s: State, i: nat, k: nat)
    requires SuperOk(sb, s.d) && i < |s.ino| && InodeOk(sb, s.ino[i]) && k < NSLOT
  {
    var b := Slot(sb, s.d, s.ino[i], k);
    b != 0 ==> b in s.owner && s.owner[b] == Place(i, k)
  }

  ghost predicate InodesOk(sb: Super, ino: seq<Inode>) {
    forall i :: 0 <= i < |ino| ==> InodeOk(sb, ino[i])
  }

  ghost predicate OwnerOk(sb: Super, s: State, b: int)
    requires SuperOk(sb, s.d) && InodesOk(sb, s.ino) && b in s.owner
  {
    var p := s.owner[b];
    && sb.datastart <= b < sb.size && 0 <= p.inum < |s.ino| && p.slot < NSLOT
    && Slot(sb, s.d, s.ino[p.inum], p.slot) == b
  }

  /** Exactly the metadata blocks, the owned blocks and the held block are marked in use. */
  ghost predicate BitOk(sb: Super, s: State, held: int, b: nat)
    requires SuperOk(sb, s.d) && b < sb.size
  {
    Used(sb, s.d, b) <==> b < sb.datastart || b in s.owner || b == held
  }

  /** A file has no missing block below its size. */
  ghost predicate Dense(sb: Super, d: Disk, x: Inode)
    requires SuperOk(sb, d) && InodeOk(sb, x)
  {
    forall n: nat :: n * BSIZE < x.size ==> Slot(sb, d, x, DataSlot(n)) != 0
  }

  ghost predicate HeldOk(sb: Super, s: State, held: int)
    requires SuperOk(sb, s.d)
  {
    held == 0 || (sb.datastart <= held < sb.size && held !in s.owner && s.d[held] == Zero())
  }

  /** The invariant; held is a block that balloc has returned and nobody owns yet, 0 if none. */
  ghost predicate Inv(sb: Super, s: State, held: int) {
    && SuperOk(sb, s.d) && InodesOk(sb, s.ino) && HeldOk(sb, s, held)
    && (forall i, k :: 0 <= i < |s.ino| && 0 <= k < NSLOT ==> SlotOwned(sb, s, i, k))
    && (forall b :: b in s.owner ==> OwnerOk(sb, s, b))
    && (forall b :: 0 <= b < sb.size ==> BitOk(sb, s, held, b))
    && (forall i :: 0 <= i < |s.ino| ==> Dense(sb, s.d, s.ino[i]))
  }

  /** No block is owned by two places. */
  lemma OwnedOnce(sb: Super, s: State, held: int, i: nat, k: nat, j: nat, l: nat)
    requires Inv(sb, s, held) && i < |s.ino| && j < |s.ino| && k < NSLOT && l < NSLOT
    requires Slot(sb, s.d, s.ino[i], k) == Slot(sb, s.d, s.ino[j], l) != 0
    ensures i == j && k == l
    ensures sb.datastart <= Slot(sb, s.d, s.ino[i], k) < sb.size && Used(sb, s.d, Slot(sb, s.d, s.ino[i], k))
  {
    assert SlotOwned(sb, s, i, k) && SlotOwned(sb, s, j, l);
    var b := Slot(sb, s.d, s.ino[i], k);
    assert OwnerOk(sb, s, b) && BitOk(sb, s, held, b);
  }

  lemma SameSlot(sb: Super, d: Disk, e: Disk, x: Inode, k: nat)
    requires SuperOk(sb, d) && SuperOk(sb, e) && InodeOk(sb, x) && k < NSLOT
    requires x.addrs[NDIRECT] == 0 || e[x.addrs[NDIRECT]] == d[x.addrs[NDIRECT]]
    ensures Slot(sb, d, x, k) == Slot(sb, e, x, k)
  {
  }

  /** The bytes of all files are the same in both states. */
  ghost predicate SameBytes(sb: Super, s: State, t: State)
    requires SuperOk(sb, s.d) && SuperOk(sb, t.d) && InodesOk(sb, s.ino) && InodesOk(sb, t.ino)
  {
    && |t.ino| == |s.ino|
    && forall i, o :: 0 <= i < |s.ino| && 0 <= o < MAXFILE * BSIZE ==>
         ByteAt(sb, t.d, t.ino[i], o) == ByteAt(sb, s.d, s.ino[i], o)
  }

  /** Inode i still has the blocks it had. */
  ghost predicate KeepsSlots(sb: Super, s: State, t: State, i: nat)
    requires SuperOk(sb, s.d) && SuperOk(sb, t.d) && InodesOk(sb, s.ino) && InodesOk(sb, t.ino)
    requires i < |s.ino| == |t.ino|
  {
    forall k :: 0 <= k < NSLOT && Slot(sb, s.d, s.ino[i], k) != 0 ==>
                  Slot(sb, t.d, t.ino[i], k) == Slot(sb, s.d, s.ino[i], k)
  }

  // ----- allocating a block -----

  ghost function Allocated(sb: Super, s: State, b: nat): State
    requires SuperOk(sb, s.d) && b < sb.size
  {
    s.(d := Mark(sb, s.d, b, true)[b := Zero()])
  }

  lemma AllocatedDisk(sb: Super, s: State, b: nat)
    requires Inv(sb, s, 0) && b < sb.size && !Used(sb, s.d, b)
    ensures sb.datastart <= b && b !in s.owner
    ensures SuperOk(sb, Allocated(sb, s, b).d) && Allocated(sb, s, b).d[b] == Zero()
    ensures forall c :: c in s.owner ==> 0 <= c < |s.d| && Allocated(sb, s, b).d[c] == s.d[c]
    ensures forall c :: 0 <= c < sb.size ==> (Used(sb, Allocated(sb, s, b).d, c) <==> Used(sb, s.d, c) || c == b)
  {
    assert BitOk(sb, s, 0, b);
    MarkOk(sb, s.d, b, true);
    var m := Mark(sb, s.d, b, true);
    var e := m[b := Zero()];
    forall c | 0 <= c < |e| ensures BlockOk(e[c]) { assert BlockOk(m[c]); }
    forall c | c in s.owner ensures 0 <= c < |e| && e[c] == s.d[c] { assert OwnerOk(sb, s, c); }
    forall c | 0 <= c < sb.size ensures Used(sb, e, c) <==> Used(sb, s.d, c) || c == b {
      MarkUsed(sb, s.d, b, true, c);
    }
  }

  /** balloc keeps the invariant and every file; the new block was neither owned nor metadata. */
  lemma AllocKeeps(sb: Super, s: State, b: nat)
    requires Inv(sb, s, 0) && b < sb.size && !Used(sb, s.d, b)
    ensures sb.datastart <= b && b !in s.owner
    ensures Inv(sb, Allocated(sb, s, b), b)
    ensures SameBytes(sb, s, Allocated(sb, s, b))
    ensures forall i :: 0 <= i < |s.ino| ==> KeepsSlots(sb, s, Allocated(sb, s, b), i)
  {
    var t := Allocated(sb, s, b);
    AllocatedDisk(sb, s, b);
    SameSlots(sb, s, t);
    hide Mark, Used, Slot;
    forall c | 0 <= c < sb.size ensures BitOk(sb, t, b, c) { assert BitOk(sb, s, 0, c); }
    SameFiles(sb, s, t);
  }

  /** Changing no indirect block changes no slot. */
  lemma SameSlots(sb: Super, s: State, t: State)
    requires SuperOk(sb, s.d) && SuperOk(sb, t.d) && InodesOk(sb, s.ino)
    requires forall i, k :: 0 <= i < |s.ino| && 0 <= k < NSLOT ==> SlotOwned(sb, s, i, k)
    requires forall b :: b in s.owner ==> OwnerOk(sb, s, b)
    requires t.ino == s.ino && t.owner == s.owner
    requires forall c :: c in s.owner && s.owner[c].slot == NDIRECT ==> 0 <= c < |t.d| && t.d[c] == s.d[c]
    ensures forall i, k :: 0 <= i < |s.ino| && 0 <= k < NSLOT ==> Slot(sb, t.d, s.ino[i], k) == Slot(sb, s.d, s.ino[i], k)
    ensures forall i, k :: 0 <= i < |s.ino| && 0 <= k < NSLOT ==> SlotOwned(sb, t, i, k)
    ensures forall b :: b in t.owner ==> OwnerOk(sb, t, b)
  {
    forall i, k | 0 <= i < |s.ino| && 0 <= k < NSLOT
      ensures Slot(sb, t.d, s.ino[i], k) == Slot(sb, s.d, s.ino[i], k) && SlotOwned(sb, t, i, k)
    {
      assert SlotOwned(sb, s, i, NDIRECT) && SlotOwned(sb, s, i, k);
      assert InodeOk(sb, s.ino[i]);
      SameSlot(sb, s.d, t.d, s.ino[i], k);
    }
    forall b | b in t.owner ensures OwnerOk(sb, t, b) { assert OwnerOk(sb, s, b); }
  }

  lemma SameFiles(sb: Super, s: State, t: State)
    requires SuperOk(sb, s.d) && SuperOk(sb, t.d) && InodesOk(sb, s.ino)
    requires forall i, k :: 0 <= i < |s.ino| && 0 <= k < NSLOT ==> SlotOwned(sb, s, i, k)
    requires t.ino == s.ino
    requires forall i, k :: 0 <= i < |s.ino| && 0 <= k < NSLOT ==> Slot(sb, t.d, s.ino[i], k) == Slot(sb, s.d, s.ino[i], k)
    requires forall c :: c in s.owner ==> 0 <= c < |t.d| && t.d[c] == s.d[c]
    ensures SameBytes(sb, s, t)
    ensures forall i :: 0 <= i < |s.ino| ==> (Dense(sb, s.d, s.ino[i]) ==> Dense(sb, t.d, s.ino[i]))
  {
    hide Slot;
    forall i, o | 0 <= i < |s.ino| && 0 <= o < MAXFILE * BSIZE
      ensures ByteAt(sb, t.d, t.ino[i], o) == ByteAt(sb, s.d, s.ino[i], o)
    {
      assert SlotOwned(sb, s, i, DataSlot(o / BSIZE));
    }
  }

  // ----- putting a block into a slot -----

  /** t is s with the held block b put into the empty slot k of inode i. */
  ghost predicate Attached(sb: Super, s: State, t: State, i: nat, k: nat, b: int) {
    && Inv(sb, s, b) && b != 0 && i < |s.ino| && k < NSLOT && Slot(sb, s.d, s.ino[i], k) == 0
    && SuperOk(sb, t.d) && InodesOk(sb, t.ino) && |t.ino| == |s.ino| && t.owner == s.owner[b := Place(i, k)]
    && (forall j :: 0 <= j < |s.ino| ==> t.ino[j].size == s.ino[j].size)
    && (forall j, l :: 0 <= j < |s.ino| && 0 <= l < NSLOT ==>
          Slot(sb, t.d, t.ino[j], l) == if j == i && l == k then b else Slot(sb, s.d, s.ino[j], l))
    && (forall c :: 0 <= c < sb.datastart ==> t.d[c] == s.d[c])
    && (forall c :: c in s.owner && s.owner[c].slot != NDIRECT ==> 0 <= c < |t.d| && t.d[c] == s.d[c])
    && t.d[b] == Zero()
  }

  lemma AttachedOwners(sb: Super, s: State, t: State, i: nat, k: nat, b: int)
    requires Attached(sb, s, t, i, k, b)
    ensures forall j, l :: 0 <= j < |t.ino| && 0 <= l < NSLOT ==> SlotOwned(sb, t, j, l)
    ensures forall c :: c in t.owner ==> OwnerOk(sb, t, c)
    ensures forall c :: 0 <= c < sb.size ==> BitOk(sb, t, 0, c)
  {
    hide Slot;
    forall j, l | 0 <= j < |t.ino| && 0 <= l < NSLOT ensures SlotOwned(sb, t, j, l) {
      assert SlotOwned(sb, s, j, l);
    }
    forall c | c in t.owner ensures OwnerOk(sb, t, c) {
      var p := t.owner[c];
      if c != b {
        assert OwnerOk(sb, s, c);
        assert Slot(sb, t.d, t.ino[p.inum], p.slot) == Slot(sb, s.d, s.ino[p.inum], p.slot);
      } else {
        assert Slot(sb, t.d, t.ino[i], k) == b;
      }
    }
    forall c | 0 <= c < sb.size ensures BitOk(sb, t, 0, c) { assert BitOk(sb, s, b, c); }
  }

  lemma AttachedBytes(sb: Super, s: State, t: State, i: nat, k: nat, b: int)
    requires Attached(sb, s, t, i, k, b)
    ensures SameBytes(sb, s, t)
    ensures forall j :: 0 <= j < |t.ino| ==> Dense(sb, t.d, t.ino[j])
  {
    hide Slot, Word, Used;
    forall j, o | 0 <= j < |s.ino| && 0 <= o < MAXFILE * BSIZE
      ensures ByteAt(sb, t.d, t.ino[j], o) == ByteAt(sb, s.d, s.ino[j], o)
    {
      assert SlotOwned(sb, s, j, DataSlot(o / BSIZE));
    }
    forall j | 0 <= j < |t.ino| ensures Dense(sb, t.d, t.ino[j]) { assert Dense(sb, s.d, s.ino[j]); }
  }

  lemma AttachKeeps(sb: Super, s: State, t: State, i: nat, k: nat, b: int)
    requires Attached(sb, s, t, i, k, b)
    ensures Inv(sb, t, 0) && SameBytes(sb, s, t) && KeepsSlots(sb, s, t, i)
  {
    AttachedOwners(sb, s, t, i, k, b);
    AttachedBytes(sb, s, t, i, k, b);
  }

  /** Storing the held block in an entry of the inode itself. */
  ghost function WithAddr(s: State, i: nat, k: nat, b: int): State
    requires i < |s.ino| && k < |s.ino[i].addrs|
  {
    State(s.d, s.ino[i := s.ino[i].(addrs := s.ino[i].addrs[k := b])], s.owner[b := Place(i, k)])
  }

  lemma AddrKeeps(sb: Super, s: State, i: nat, k: nat, b: int)
    requires Inv(sb, s, b) && b != 0 && i < |s.ino| && k <= NDIRECT && s.ino[i].addrs[k] == 0
    ensures Inv(sb, WithAddr(s, i, k, b), 0) && SameBytes(sb, s, WithAddr(s, i, k, b))
    ensures KeepsSlots(sb, s, WithAddr(s, i, k, b), i)
  {
    var t := WithAddr(s, i, k, b);
    assert InodesOk(sb, t.ino) by {
      forall j | 0 <= j < |t.ino| ensures InodeOk(sb, t.ino[j]) { assert InodeOk(sb, s.ino[j]); }
    }
    forall j, l | 0 <= j < |s.ino| && 0 <= l < NSLOT
      ensures Slot(sb, t.d, t.ino[j], l) == if j == i && l == k then b else Slot(sb, s.d, s.ino[j], l)
    {
    }
    assert forall c :: c in s.owner ==> OwnerOk(sb, s, c);
    AttachKeeps(sb, s, t, i, k, b);
  }

  /** Storing the held block in entry j of the indirect block. */
  ghost function WithWord(sb: Super, s: State, i: nat, j: nat, b: int): State
    requires SuperOk(sb, s.d) && InodesOk(sb, s.ino) && i < |s.ino| && j < NINDIRECT && s.ino[i].addrs[NDIRECT] != 0
  {
    var ind := s.ino[i].addrs[NDIRECT];
    State(s.d[ind := PutWord(s.d[ind], j, b)], s.ino, s.owner[b := Place(i, NDIRECT + 1 + j)])
  }

  lemma WordKeeps(sb: Super, s: State, i: nat, j: nat, b: int)
    requires Inv(sb, s, b) && b != 0 && i < |s.ino| && j < NINDIRECT && s.ino[i].addrs[NDIRECT] != 0
    requires Slot(sb, s.d, s.ino[i], NDIRECT + 1 + j) == 0
    ensures Inv(sb, WithWord(sb, s, i, j, b), 0) && SameBytes(sb, s, WithWord(sb, s, i, j, b))
    ensures KeepsSlots(sb, s, WithWord(sb, s, i, j, b), i)
  {
    var t := WithWord(sb, s, i, j, b);
    var ind := s.ino[i].addrs[NDIRECT];
    PutWordAt(s.d[ind], j, b, 0);
    assert SuperOk(sb, t.d) by {
      forall c | 0 <= c < |t.d| ensures BlockOk(t.d[c]) { assert BlockOk(s.d[c]); }
    }
    assert SlotOwned(sb, s, i, NDIRECT);
    forall p, l | 0 <= p < |s.ino| && 0 <= l < NSLOT
      ensures Slot(sb, t.d, t.ino[p], l) == if p == i && l == NDIRECT + 1 + j then b else Slot(sb, s.d, s.ino[p], l)
    {
      assert SlotOwned(sb, s, p, NDIRECT);
      if l > NDIRECT { PutWordAt(s.d[ind], j, b, l - NDIRECT - 1); }
    }
    assert forall c :: c in s.owner ==> OwnerOk(sb, s, c);
    AttachKeeps(sb, s, t, i, NDIRECT + 1 + j, b);
  }

  /** From s to t only inode i gained blocks: no byte, no size, no other inode and no old block changed. */
  ghost predicate Grew(sb: Super, s: State, t: State, i: nat) {
    && SuperOk(sb, s.d) && SuperOk(sb, t.d) && InodesOk(sb, s.ino) && InodesOk(sb, t.ino)
    && SameBytes(sb, s, t) && i < |s.ino| && KeepsSlots(sb, s, t, i)
    && (forall j :: 0 <= j < |s.ino| && j != i ==> t.ino[j] == s.ino[j])
    && t.ino[i].size == s.ino[i].size
  }

  lemma GrewThen(sb: Super, s: State, t: State, u: State, i: nat)
    requires Grew(sb, s, t, i) && Grew(sb, t, u, i)
    ensures Grew(sb, s, u, i)
  {
    hide Slot, ByteAt;
  }

  lemma GrowAddr(sb: Super, s: State, i: nat, k: nat, b: nat)
    requires Inv(sb, s, 0) && i < |s.ino| && k <= NDIRECT && s.ino[i].addrs[k] == 0 && b < sb.size && !Used(sb, s.d, b)
    ensures Inv(sb, WithAddr(Allocated(sb, s, b), i, k, b), 0)
    ensures Grew(sb, s, WithAddr(Allocated(sb, s, b), i, k, b), i)
  {
    hide Slot, ByteAt, Used, Mark;
    AllocKeeps(sb, s, b);
    var t := Allocated(sb, s, b);
    AddrKeeps(sb, t, i, k, b);
    assert Grew(sb, s, t, i) && Grew(sb, t, WithAddr(t, i, k, b), i);
    GrewThen(sb, s, t, WithAddr(t, i, k, b), i);
  }

  lemma GrowWord(sb: Super, s: State, i: nat, j: nat, b: nat)
    requires Inv(sb, s, 0) && i < |s.ino| && j < NINDIRECT && s.ino[i].addrs[NDIRECT] != 0
    requires Slot(sb, s.d, s.ino[i], NDIRECT + 1 + j) == 0 && b < sb.size && !Used(sb, s.d, b)
    ensures Inv(sb, Allocated(sb, s, b), b)
    ensures Inv(sb, WithWord(sb, Allocated(sb, s, b), i, j, b), 0)
    ensures Grew(sb, s, WithWord(sb, Allocated(sb, s, b), i, j, b), i)
    ensures Slot(sb, WithWord(sb, Allocated(sb, s, b), i, j, b).d, s.ino[i], NDIRECT + 1 + j) == b
  {
    AllocKeeps(sb, s, b);
    var t := Allocated(sb, s, b);
    AllocSlot(sb, s, b, i, NDIRECT + 1 + j);
    WordKeeps(sb, t, i, j, b);
    PutWordAt(t.d[t.ino[i].addrs[NDIRECT]], j, b, j);
    hide Slot, ByteAt, Used, Mark, PutWord;
    assert Grew(sb, s, t, i) && Grew(sb, t, WithWord(sb, t, i, j, b), i);
    GrewThen(sb, s, t, WithWord(sb, t, i, j, b), i);
  }

  lemma AllocSlot(sb: Super, s: State, b: nat, i: nat, k: nat)
    requires Inv(sb, s, 0) && b < sb.size && !Used(sb, s.d, b) && i < |s.ino| && k < NSLOT
    requires SuperOk(sb, Allocated(sb, s, b).d)
    ensures Slot(sb, Allocated(sb, s, b).d, s.ino[i], k) == Slot(sb, s.d, s.ino[i], k)
  {
    AllocatedDisk(sb, s, b);
    assert SlotOwned(sb, s, i, NDIRECT);
    SameSlot(sb, s.d, Allocated(sb, s, b).d, s.ino[i], k);
  }

  // ----- writing a data block -----

  /** Storing blk in the data block b that inode i has in slot DataSlot(n). */
  ghost predicate Stored(sb: Super, s: State, i: nat, n: nat, b: int, blk: Block) {
    && Inv(sb, s, 0) && i < |s.ino| && n < MAXFILE && BlockOk(blk)
    && Slot(sb, s.d, s.ino[i], DataSlot(n)) == b != 0
  }

  ghost function Store(s: State, b: nat, blk: Block): State
    requires b < |s.d|
  {
    s.(d := s.d[b := blk])
  }

  lemma StoredSlots(sb: Super, s: State, i: nat, n: nat, b: int, blk: Block)
    requires Stored(sb, s, i, n, b, blk)
    ensures sb.datastart <= b < |s.d| && SuperOk(sb, s.d[b := blk])
    ensures b in s.owner && s.owner[b] == Place(i, DataSlot(n))
    ensures forall j, k :: 0 <= j < |s.ino| && 0 <= k < NSLOT ==>
              Slot(sb, s.d[b := blk], s.ino[j], k) == Slot(sb, s.d, s.ino[j], k)
    ensures forall j, k :: 0 <= j < |s.ino| && 0 <= k < NSLOT ==> SlotOwned(sb, Store(s, b, blk), j, k)
    ensures forall c :: c in s.owner ==> OwnerOk(sb, Store(s, b, blk), c)
  {
    assert SlotOwned(sb, s, i, DataSlot(n)) && OwnerOk(sb, s, b);
    var t := Store(s, b, blk);
    assert SuperOk(sb, t.d) by {
      forall c | 0 <= c < |t.d| ensures BlockOk(t.d[c]) { assert BlockOk(s.d[c]); }
    }
    assert forall c :: c in s.owner ==> OwnerOk(sb, s, c);
    SameSlots(sb, s, t);
  }

  lemma StoreKeeps(sb: Super, s: State, i: nat, n: nat, b: int, blk: Block)
    requires Stored(sb, s, i, n, b, blk)
    ensures sb.datastart <= b < |s.d| && Inv(sb, Store(s, b, blk), 0)
  {
    hide Slot, Word;
    StoredSlots(sb, s, i, n, b, blk);
    var t := Store(s, b, blk);
    forall c | 0 <= c < sb.size ensures BitOk(sb, t, 0, c) { assert BitOk(sb, s, 0, c); }
    forall j | 0 <= j < |t.ino| ensures Dense(sb, t.d, t.ino[j]) { assert Dense(sb, s.d, s.ino[j]); }
  }

  /** Byte o of file j after the store. */
  lemma StoredByte(sb: Super, s: State, i: nat, n: nat, b: int, blk: Block, j: nat, o: nat)
    requires Stored(sb, s, i, n, b, blk) && j < |s.ino| && o < MAXFILE * BSIZE
    requires sb.datastart <= b < |s.d| && SuperOk(sb, s.d[b := blk])
    ensures ByteAt(sb, s.d[b := blk], s.ino[j], o)
         == if j == i && o / BSIZE == n then blk[o % BSIZE] else ByteAt(sb, s.d, s.ino[j], o)
  {
    hide Slot, Word, Used, BitOk, Dense;
    StoredSlots(sb, s, i, n, b, blk);
    var k := DataSlot(o / BSIZE);
    assert SlotOwned(sb, s, j, k);
    assert DataSlot(n) == k <==> n == o / BSIZE;
  }

  /** Growing a file over blocks it already has. */
  lemma SizeKeeps(sb: Super, s: State, i: nat, size: int)
    requires Inv(sb, s, 0) && i < |s.ino| && 0 <= size <= MAXFILE * BSIZE
    requires Dense(sb, s.d, s.ino[i].(size := size))
    ensures Inv(sb, s.(ino := s.ino[i := s.ino[i].(size := size)]), 0)
    ensures SameBytes(sb, s, s.(ino := s.ino[i := s.ino[i].(size := size)]))
  {
    var t := s.(ino := s.ino[i := s.ino[i].(size := size)]);
    assert InodesOk(sb, t.ino) by {
      forall j | 0 <= j < |t.ino| ensures InodeOk(sb, t.ino[j]) { assert InodeOk(sb, s.ino[j]); }
    }
    forall j, l | 0 <= j < |t.ino| && 0 <= l < NSLOT ensures SlotOwned(sb, t, j, l) {
      assert SlotOwned(sb, s, j, l);
    }
    forall c | c in t.owner ensures OwnerOk(sb, t, c) { assert OwnerOk(sb, s, c); }
    forall c | 0 <= c < sb.size ensures BitOk(sb, t, 0, c) { assert BitOk(sb, s, 0, c); }
    forall j | 0 <= j < |t.ino| ensures Dense(sb, t.d, t.ino[j]) { assert Dense(sb, s.d, s.ino[j]); }
  }

  /** What changes before the bitmap touches neither bitmap nor data. */
  lemma MetaKeeps(sb: Super, s: State, e: Disk)
    requires Inv(sb, s, 0) && SuperOk(sb, e) && forall c :: sb.bmapstart <= c < sb.size ==> e[c] == s.d[c]
    ensures Inv(sb, s.(d := e), 0) && SameBytes(sb, s, s.(d := e))
  {
    var t := s.(d := e);
    assert forall b :: b in s.owner ==> OwnerOk(sb, s, b);
    SameSlots(sb, s, t);
    SameFiles(sb, s, t);
    hide Slot, Word, ByteAt;
    forall b | 0 <= b < sb.size ensures BitOk(sb, t, 0, b) { assert BitOk(sb, s, 0, b); }
    forall j | 0 <= j < |t.ino| ensures Dense(sb, t.d, t.ino[j]) { assert Dense(sb, s.d, s.ino[j]); }
  }

  lemma ClearedMeta(sb: Super, s: State, e: Disk, freed: set<int>, c: nat, blk: Block)
    requires Inv(sb, s, 0) && Cleared(sb, s, e, freed) && c < sb.bmapstart && BlockOk(blk)
    ensures Cleared(sb, s, e[c := blk], freed)
  {
    hide Bit, BlockOk, OwnerOk, BitOk, SlotOwned, Dense;
    var f := e[c := blk];
    forall b | 0 <= b < |f| ensures BlockOk(f[b]) { assert BlockOk(e[b]); }
  }

  // ----- truncating a file -----

  const NOTHING: Inode := Inode([0, 0, 0, 0, 0, 0, 0, 0, 0, 0, 0, 0, 0], 0)

  /** The state in which inode i has no blocks, on a disk e whose bitmap says so. */
  ghost function Truncated(s: State, e: Disk, i: int): State
    requires 0 <= i < |s.ino|
  {
    State(e, s.ino[i := NOTHING], map b | b in s.owner && s.owner[b].inum != i :: s.owner[b])
  }

  /** e differs from the disk of s in the bitmap only, where the blocks in freed are cleared. */
  ghost predicate Cleared(sb: Super, s: State, e: Disk, freed: set<int>)
    requires SuperOk(sb, s.d)
  {
    && SuperOk(sb, e)
    && (forall c :: sb.datastart <= c < |e| ==> e[c] == s.d[c])
    && (forall c :: 0 <= c < sb.size ==> (Used(sb, e, c) <==> Used(sb, s.d, c) && c !in freed))
  }

  /** The blocks in the slots lo to hi of inode i. */
  ghost function Blocks(s: State, i: int, lo: nat, hi: nat): set<int> {
    set b | b in s.owner && s.owner[b].inum == i && lo <= s.owner[b].slot < hi
  }

  /** The block in slot k, if any, is what Blocks gains there; it is in use while not cleared. */
  lemma NextBlock(sb: Super, s: State, e: Disk, i: nat, lo: nat, k: nat, freed: set<int>)
    requires Inv(sb, s, 0) && i < |s.ino| && lo <= k < NSLOT && Cleared(sb, s, e, freed)
    ensures Slot(sb, s.d, s.ino[i], k) == 0 ==> Blocks(s, i, lo, k + 1) == Blocks(s, i, lo, k)
    ensures var b := Slot(sb, s.d, s.ino[i], k); b != 0 ==>
              && Blocks(s, i, lo, k + 1) == Blocks(s, i, lo, k) + {b}
              && b in s.owner && s.owner[b] == Place(i, k) && sb.datastart <= b < sb.size
              && (b !in freed ==> Used(sb, e, b))
  {
    assert SlotOwned(sb, s, i, k);
    var b := Slot(sb, s.d, s.ino[i], k);
    assert forall c :: c in s.owner ==> OwnerOk(sb, s, c);
    forall c ensures c in Blocks(s, i, lo, k + 1) <==> c in Blocks(s, i, lo, k) || (b != 0 && c == b) {
      if c in s.owner && s.owner[c] == Place(i, k) { assert OwnerOk(sb, s, c); }
    }
    if b != 0 {
      assert Blocks(s, i, lo, k + 1) == Blocks(s, i, lo, k) + {b};
      assert BitOk(sb, s, 0, b);
    } else {
      assert Blocks(s, i, lo, k + 1) == Blocks(s, i, lo, k);
    }
  }

  lemma ClearedMore(sb: Super, s: State, e: Disk, freed: set<int>, b: nat)
    requires Inv(sb, s, 0) && Cleared(sb, s, e, freed) && b < sb.size && Used(sb, e, b)
    ensures Cleared(sb, s, Mark(sb, e, b, false), freed + {b})
  {
    MarkOk(sb, e, b, false);
    forall c | 0 <= c < sb.size
      ensures Used(sb, Mark(sb, e, b, false), c) <==> Used(sb, s.d, c) && c !in freed + {b}
    {
      MarkUsed(sb, e, b, false, c);
    }
  }

  lemma TruncateKeeps(sb: Super, s: State, e: Disk, i: nat)
    requires Inv(sb, s, 0) && i < |s.ino| && Cleared(sb, s, e, Blocks(s, i, 0, NSLOT))
    ensures Inv(sb, Truncated(s, e, i), 0)
    ensures forall j, o :: 0 <= j < |s.ino| && j != i && 0 <= o < MAXFILE * BSIZE ==>
              ByteAt(sb, e, Truncated(s, e, i).ino[j], o) == ByteAt(sb, s.d, s.ino[j], o)
  {
    hide Used, Word;
    var t := Truncated(s, e, i);
    assert InodesOk(sb, t.ino) by {
      forall j | 0 <= j < |t.ino| ensures InodeOk(sb, t.ino[j]) { assert InodeOk(sb, s.ino[j]); }
    }
    forall j, l | 0 <= j < |t.ino| && 0 <= l < NSLOT
      ensures SlotOwned(sb, t, j, l) && Slot(sb, e, t.ino[j], l) == if j == i then 0 else Slot(sb, s.d, s.ino[j], l)
    {
      assert SlotOwned(sb, s, j, l);
      assert InodeOk(sb, s.ino[j]);
    }
    hide Slot;
    forall c | c in t.owner ensures OwnerOk(sb, t, c) { assert OwnerOk(sb, s, c); }
    forall c | 0 <= c < sb.size ensures BitOk(sb, t, 0, c) {
      assert BitOk(sb, s, 0, c);
      if c in s.owner { assert OwnerOk(sb, s, c); }
    }
    forall j | 0 <= j < |t.ino| ensures Dense(sb, t.d, t.ino[j]) { assert Dense(sb, s.d, s.ino[j]); }
    forall j, o | 0 <= j < |s.ino| && j != i && 0 <= o < MAXFILE * BSIZE
      ensures ByteAt(sb, e, t.ino[j], o) == ByteAt(sb, s.d, s.ino[j], o)
    {
      assert SlotOwned(sb, s, j, DataSlot(o / BSIZE));
      if Slot(sb, s.d, s.ino[j], DataSlot(o / BSIZE)) != 0 {
        assert OwnerOk(sb, s, Slot(sb, s.d, s.ino[j], DataSlot(o / BSIZE)));
      }
    }
  }

  // ----- files as byte strings -----

  /** f with src written over it at offset off. */
  function Patch(f: seq<int>, off: nat, src: seq<int>): (r: seq<int>)
    requires off <= |f|
    ensures |r| == if off + |src| > |f| then off + |src| else |f|
    ensures r[off..off + |src|] == src
    ensures forall o :: 0 <= o < |r| ==>
              r[o] == if off <= o < off + |src| then src[o - off] else f[o]
  {
    f[..off] + src + (if off + |src| < |f| then f[off + |src|..] else [])
  }

  /** The contents of all files, by inode number. */
  ghost function Files(sb: Super, s: State): (fs: seq<seq<int>>)
    requires SuperOk(sb, s.d) && InodesOk(sb, s.ino)
    ensures |fs| == |s.ino|
  {
    seq(|s.ino|, j requires 0 <= j < |s.ino| => File(sb, s.d, s.ino[j]))
  }

  /** fs with src written to file i at off; writing nothing changes nothing, wherever it is written. */
  ghost function Put(fs: seq<seq<int>>, i: nat, off: nat, src: seq<int>): (r: seq<seq<int>>)
    requires i < |fs| && (src == [] || off <= |fs[i]|)
    ensures |r| == |fs| && forall j :: 0 <= j < |fs| && j != i ==> r[j] == fs[j]
    ensures src != [] ==> off + |src| <= |r[i]| && r[i][off..off + |src|] == src
  {
    if src == [] then fs else fs[i := Patch(fs[i], off, src)]
  }

  /** Two writes, one behind the other, are one write. */
  lemma PutTwice(fs: seq<seq<int>>, i: nat, off: nat, a: seq<int>, b: seq<int>)
    requires i < |fs| && (a + b == [] || off <= |fs[i]|)
    ensures b == [] || off + |a| <= |Put(fs, i, off, a)[i]|
    ensures Put(Put(fs, i, off, a), i, off + |a|, b) == Put(fs, i, off, a + b)
  {
    if a == [] {
      assert a + b == b;
    } else if b == [] {
      assert a + b == a;
    } else {
      PatchTwice(fs[i], off, a, b);
      hide Patch;
    }
  }

  lemma PatchTwice(f: seq<int>, off: nat, a: seq<int>, b: seq<int>)
    requires off <= |f|
    ensures Patch(Patch(f, off, a), off + |a|, b) == Patch(f, off, a + b)
  {
    hide Patch;
  }

  /** t is s after the bytes src were written to file i at off, sizes apart. */
  ghost predicate Written(sb: Super, s: State, t: State, i: nat, off: nat, src: seq<int>)
    requires SuperOk(sb, s.d) && SuperOk(sb, t.d) && InodesOk(sb, s.ino) && InodesOk(sb, t.ino)
  {
    && |t.ino| == |s.ino|
    && (forall j :: 0 <= j < |s.ino| && j != i ==> t.ino[j] == s.ino[j])
    && forall j, o :: 0 <= j < |s.ino| && 0 <= o < MAXFILE * BSIZE ==>
         ByteAt(sb, t.d, t.ino[j], o)
         == if j == i && off <= o < off + |src| then src[o - off] else ByteAt(sb, s.d, s.ino[j], o)
  }

  /** Block was with the bytes src stored from position p. */
  function Spliced(was: Block, p: nat, src: seq<int>): (r: Block)
    requires |was| == BSIZE && p + |src| <= BSIZE
    ensures |r| == BSIZE && forall q :: 0 <= q < BSIZE ==> r[q] == if p <= q < p + |src| then src[q - p] else was[q]
  {
    was[..p] + src + was[p + |src|..]
  }

  lemma WrittenThen(sb: Super, s: State, t: State, u: State, i: nat, off: nat, a: seq<int>, b: seq<int>)
    requires SuperOk(sb, s.d) && SuperOk(sb, t.d) && SuperOk(sb, u.d)
    requires InodesOk(sb, s.ino) && InodesOk(sb, t.ino) && InodesOk(sb, u.ino)
    requires Written(sb, s, t, i, off, a) && Written(sb, t, u, i, off + |a|, b)
    ensures Written(sb, s, u, i, off, a + b)
  {
    hide ByteAt;
  }

  /** Storing the bytes more at position off of file i, inside its block b. */
  lemma WriteStep(sb: Super, s: State, i: nat, off: nat, b: int, more: seq<int>)
    requires Inv(sb, s, 0) && i < |s.ino|
    requires 0 < |more| <= BSIZE - off % BSIZE && off + |more| <= MAXFILE * BSIZE
    requires forall q :: 0 <= q < |more| ==> 0 <= more[q] < 256
    requires b == Slot(sb, s.d, s.ino[i], DataSlot(off / BSIZE)) != 0
    ensures sb.datastart <= b < |s.d|
    ensures Inv(sb, Store(s, b, Spliced(s.d[b], off % BSIZE, more)), 0)
    ensures Written(sb, s, Store(s, b, Spliced(s.d[b], off % BSIZE, more)), i, off, more)
    ensures KeepsSlots(sb, s, Store(s, b, Spliced(s.d[b], off % BSIZE, more)), i)
  {
    var n := off / BSIZE;
    assert SlotOwned(sb, s, i, DataSlot(n)) && OwnerOk(sb, s, b);
    var blk := Spliced(s.d[b], off % BSIZE, more);
    assert BlockOk(blk) by { assert BlockOk(s.d[b]); }
    StoreKeeps(sb, s, i, n, b, blk);
    StoredSlots(sb, s, i, n, b, blk);
    var t := Store(s, b, blk);
    assert t.d == s.d[b := blk] && t.ino == s.ino;
    hide Slot, Word, ByteAt, Spliced, Store;
    forall j, o | 0 <= j < |s.ino| && 0 <= o < MAXFILE * BSIZE
      ensures ByteAt(sb, t.d, t.ino[j], o)
           == if j == i && off <= o < off + |more| then more[o - off] else ByteAt(sb, s.d, s.ino[j], o)
    {
      WrittenByte(sb, s, i, off, b, more, j, o);
    }
  }

  lemma WrittenByte(sb: Super, s: State, i: nat, off: nat, b: int, more: seq<int>, j: nat, o: nat)
    requires j < |s.ino| && o < MAXFILE * BSIZE && 0 < |more| <= BSIZE - off % BSIZE
    requires SuperOk(sb, s.d) && sb.datastart <= b < |s.d|
    requires SuperOk(sb, s.d[b := Spliced(s.d[b], off % BSIZE, more)])
    requires Stored(sb, s, i, off / BSIZE, b, Spliced(s.d[b], off % BSIZE, more))
    ensures ByteAt(sb, s.d[b := Spliced(s.d[b], off % BSIZE, more)], s.ino[j], o)
         == if j == i && off <= o < off + |more| then more[o - off] else ByteAt(sb, s.d, s.ino[j], o)
  {
    hide Slot, Word, Used, BitOk, Dense, OwnerOk, SlotOwned;
    StoredByte(sb, s, i, off / BSIZE, b, Spliced(s.d[b], off % BSIZE, more), j, o);
    SameBlock(off, o, |more|);
    if j == i && o / BSIZE == off / BSIZE { assert ByteAt(sb, s.d, s.ino[j], o) == s.d[b][o % BSIZE]; }
  }

  lemma SameBlock(at: nat, o: nat, m: nat)
    requires m <= BSIZE - at % BSIZE
    ensures at <= o < at + m ==> o / BSIZE == at / BSIZE
    ensures o / BSIZE == at / BSIZE ==> o - at == o % BSIZE - at % BSIZE
  {
  }

  // ----- writing piece by piece -----

  /** In s the first m bytes of data have been written to file i of fs at off, and nothing else has. */
  ghost predicate Front(sb: Super, s: State, fs: seq<seq<int>>, i: nat, off: nat, data: seq<int>, m: nat) {
    && SuperOk(sb, s.d) && InodesOk(sb, s.ino) && i < |fs| && m <= |data| && (m > 0 ==> off <= |fs[i]|)
    && Files(sb, s) == Put(fs, i, off, data[..m])
  }

  lemma FrontNext(sb: Super, s: State, t: State, fs: seq<seq<int>>, i: nat, off: nat, data: seq<int>, m: nat, w: nat)
    requires Front(sb, s, fs, i, off, data, m) && m + w <= |data| && off <= |fs[i]|
    requires SuperOk(sb, t.d) && InodesOk(sb, t.ino)
    requires off + m <= |Files(sb, s)[i]| && Files(sb, t) == Put(Files(sb, s), i, off + m, data[m..m + w])
    ensures Front(sb, t, fs, i, off, data, m + w)
  {
    PutTwice(fs, i, off, data[..m], data[m..m + w]);
    assert data[..m] + data[m..m + w] == data[..m + w];
  }

  lemma FrontSize(sb: Super, s: State, fs: seq<seq<int>>, i: nat, off: nat, data: seq<int>, m: nat)
    requires Front(sb, s, fs, i, off, data, m)
    ensures |s.ino| == |fs| && s.ino[i].size == |Files(sb, s)[i]| == Max(|fs[i]|, if m > 0 then off + m else 0)
    ensures m > 0 ==> off <= |fs[i]|
  {
    assert |Files(sb, s)[i]| == s.ino[i].size;
  }

  lemma FrontNone(sb: Super, s: State, i: nat, off: nat, data: seq<int>)
    requires SuperOk(sb, s.d) && InodesOk(sb, s.ino) && i < |s.ino|
    ensures Front(sb, s, Files(sb, s), i, off, data, 0) && |Files(sb, s)[i]| == s.ino[i].size
  {
  }

  /** Bytes and sizes make files: file i is patched, every other file is what it was. */
  lemma WrittenFiles(sb: Super, s: State, t: State, i: nat, off: nat, src: seq<int>)
    requires SuperOk(sb, s.d) && SuperOk(sb, t.d) && InodesOk(sb, s.ino) && InodesOk(sb, t.ino)
    requires i < |s.ino| && Written(sb, s, t, i, off, src) && off <= s.ino[i].size
    requires t.ino[i].size == if off + |src| > s.ino[i].size then off + |src| else s.ino[i].size
    ensures Files(sb, t) == Put(Files(sb, s), i, off, src)
    ensures forall j :: 0 <= j < |s.ino| && j != i ==> t.ino[j] == s.ino[j]
  {
    hide ByteAt;
    var fs := Put(Files(sb, s), i, off, src);
    forall j | 0 <= j < |s.ino| ensures Files(sb, t)[j] == fs[j] {
      assert |File(sb, t.d, t.ino[j])| == |fs[j]|;
      forall o | 0 <= o < t.ino[j].size ensures File(sb, t.d, t.ino[j])[o] == fs[j][o] {
        assert File(sb, t.d, t.ino[j])[o] == ByteAt(sb, t.d, t.ino[j], o);
      }
    }
  }

  /** A file that is dense up to at and has the block of at is dense up to the end of that block. */
  lemma DenseStep(sb: Super, s: State, t: State, i: nat, size: nat, at: nat, m: nat)
    requires SuperOk(sb, s.d) && SuperOk(sb, t.d) && InodesOk(sb, s.ino) && InodesOk(sb, t.ino)
    requires i < |s.ino| == |t.ino| && KeepsSlots(sb, s, t, i)
    requires at <= size <= MAXFILE * BSIZE && at + m <= MAXFILE * BSIZE && 0 < m <= BSIZE - at % BSIZE
    requires Dense(sb, s.d, s.ino[i].(size := size)) && Slot(sb, t.d, t.ino[i], DataSlot(at / BSIZE)) != 0
    ensures Dense(sb, t.d, t.ino[i].(size := if at + m > size then at + m else size))
  {
    var x, y := s.ino[i].(size := size), t.ino[i].(size := if at + m > size then at + m else size);
    forall n: nat | n * BSIZE < y.size ensures Slot(sb, t.d, y, DataSlot(n)) != 0 {
      assert Slot(sb, t.d, y, DataSlot(n)) == Slot(sb, t.d, t.ino[i], DataSlot(n));
      if n * BSIZE < size {
        assert Slot(sb, s.d, x, DataSlot(n)) == Slot(sb, s.d, s.ino[i], DataSlot(n));
      } else {
        assert n == at / BSIZE;
      }
    }
  }

  /** Truncating leaves every other file alone. */
  lemma TruncatedFiles(sb: Super, s: State, e: Disk, i: nat)
    requires Inv(sb, s, 0) && i < |s.ino| && Inv(sb, Truncated(s, e, i), 0)
    requires forall j, o :: 0 <= j < |s.ino| && j != i && 0 <= o < MAXFILE * BSIZE ==>
               ByteAt(sb, e, Truncated(s, e, i).ino[j], o) == ByteAt(sb, s.d, s.ino[j], o)
    ensures Files(sb, Truncated(s, e, i)) == Files(sb, s)[i := []]
  {
    hide ByteAt;
    var t := Truncated(s, e, i);
    forall j | 0 <= j < |s.ino| && j != i ensures File(sb, e, t.ino[j]) == File(sb, s.d, s.ino[j]) {
      forall o | 0 <= o < s.ino[j].size ensures File(sb, e, t.ino[j])[o] == File(sb, s.d, s.ino[j])[o] {
        assert ByteAt(sb, e, t.ino[j], o) == ByteAt(sb, s.d, s.ino[j], o);
      }
    }
  }

  // ----- runs -----

  datatype FileOp = WriteAt(i: nat, off: nat, src: seq<int>) | ReadAt(i: nat, off: nat, n: nat) | Truncate(i: nat)

  /** What an operation does to the contents of n files, as byte strings. */
  ghost function AfterOp(fs: seq<seq<int>>, op: FileOp): (r: seq<seq<int>>)
    requires op.i < |fs|
    ensures |r| == |fs|
  {
    match op
    case WriteAt(i, off, src) => if off > |fs[i]| || off + |src| > MAXFILE * BSIZE then fs else Put(fs, i, off, src)
    case ReadAt(_, _, _) => fs
    case Truncate(i) => fs[i := []]
  }

  ghost function AfterOps(fs: seq<seq<int>>, ops: seq<FileOp>): (r: seq<seq<int>>)
    requires forall k :: 0 <= k < |ops| ==> ops[k].i < |fs|
    ensures |r| == |fs|
  {
    if ops == [] then fs else AfterOp(AfterOps(fs, ops[..|ops| - 1]), ops[|ops| - 1])
  }

  // ----- a new file system -----

  /** The disk of zeroes in which the first k blocks are marked in use. */
  ghost function NewDisk(sb: Super, k: nat): Disk
    requires LayoutOk(sb) && k <= sb.size
    ensures SuperOk(sb, NewDisk(sb, k))
  {
    if k == 0 then seq(sb.size, _ => Zero())
    else MarkOk(sb, NewDisk(sb, k - 1), k - 1, true); Mark(sb, NewDisk(sb, k - 1), k - 1, true)
  }

  ghost predicate LayoutOk(sb: Super) {
    && 1 <= sb.inodestart <= sb.bmapstart < sb.datastart <= sb.size < UINT
    && forall b :: 0 <= b < sb.size ==> BBlock(sb, b) < sb.datastart
  }

  lemma {:induction false} NewDiskUsed(sb: Super, k: nat, c: nat)
    requires LayoutOk(sb) && k <= sb.size && c < sb.size
    ensures Used(sb, NewDisk(sb, k), c) <==> c < k
  {
    if k == 0 {
      assert NewDisk(sb, 0)[BBlock(sb, c)] == Zero();
      ZeroBits(c % 8);
    } else {
      NewDiskUsed(sb, k - 1, c);
      MarkOk(sb, NewDisk(sb, k - 1), k - 1, true);
      MarkUsed(sb, NewDisk(sb, k - 1), k - 1, true, c);
    }
  }

  lemma {:induction false} NewDiskZero(sb: Super, k: nat, c: nat)
    requires LayoutOk(sb) && k <= sb.size && c < sb.bmapstart
    ensures NewDisk(sb, k)[c] == Zero()
  {
    hide Mark, BlockOk;
    if k > 0 {
      NewDiskZero(sb, k - 1, c);
      MarkOk(sb, NewDisk(sb, k - 1), k - 1, true);
    }
  }

  lemma {:induction false} ZeroBits(k: nat)
    ensures !Bit(0, k)
  {
    if k > 0 { ZeroBits(k - 1); }
  }

  lemma ZeroInode(k: nat)
    requires k < IPB
    ensures InodeAt(Zero(), k) == NOTHING
  {
    var x := InodeAt(Zero(), k);
    assert forall j :: 0 <= j < NINDIRECT ==> Word(Zero(), j) == 0;
    hide Word;
    assert forall l :: 0 <= l <= NDIRECT ==> x.addrs[l] == 0 == NOTHING.addrs[l];
    assert x.addrs == NOTHING.addrs;
  }

  lemma NewDiskInodes(sb: Super, n: nat)
    requires LayoutOk(sb) && Room(sb, n)
    ensures DiskInodes(sb, NewDisk(sb, sb.datastart), n) == seq(n, _ => NOTHING)
  {
    hide NewDisk, InodeAt;
    forall i | 0 <= i < n ensures DiskInodes(sb, NewDisk(sb, sb.datastart), n)[i] == NOTHING {
      IBlockInside(sb, n, i);
      NewDiskZero(sb, sb.datastart, IBlock(sb, i));
      ZeroInode(i % IPB);
    }
  }

  /** A disk of zeroes but for its marked metadata has empty inodes and satisfies the invariant. */
  lemma NewDiskOk(sb: Super, n: nat)
    requires LayoutOk(sb) && Room(sb, n)
    ensures DiskInodes(sb, NewDisk(sb, sb.datastart), n) == seq(n, _ => NOTHING)
    ensures Inv(sb, State(NewDisk(sb, sb.datastart), DiskInodes(sb, NewDisk(sb, sb.datastart), n), map[]), 0)
  {
    NewDiskInodes(sb, n);
    hide DiskInodes;
    var s := State(NewDisk(sb, sb.datastart), seq(n, _ => NOTHING), map[]);
    forall b | 0 <= b < sb.size ensures BitOk(sb, s, 0, b) { NewDiskUsed(sb, sb.datastart, b); }
  }
}
