/**
  The block and file layers of fs.c and the chunked write of file.c, over the disk model of FsModel.
  A panic ends the kernel: the methods report it as ok == false and say when it happens.
 */
module Fs {
  import opened FsModel
  import opened Params

  /** The largest piece that filewrite hands to writei in one transaction. */
  const CHUNK: nat := (MAXOPBLOCKS - 1 - 1 - 2) / 2 * 512

  /** How many blocks the n bytes from off lie in. */
  function Touched(off: nat, n: nat): nat {
    if n == 0 then 0 else (off + n - 1) / BSIZE - off / BSIZE + 1
  }

  /** How many chunks n bytes take. */
  function Chunks(n: int): int {
    (n + CHUNK - 1) / CHUNK
  }

  lemma NextChunk(i: nat, n: nat)
    requires i % CHUNK == 0 && 0 < n <= CHUNK
    ensures Chunks(0) == 0 && Chunks(i + n) == Chunks(i) + 1 && (n == CHUNK ==> (i + n) % CHUNK == 0)
  {
    var q := i / CHUNK;
    DivChunk(i + CHUNK - 1, q, CHUNK - 1);
    DivChunk(i + n + CHUNK - 1, q + 1, n - 1);
    if n == CHUNK { DivChunk(i + n, q + 1, 0); }
  }

  lemma DivChunk(a: nat, q: nat, r: nat)
    requires a == q * 1536 + r && r < 1536
    ensures a / CHUNK == q && a % CHUNK == r
  {
  }

  /** 1 if the first of those blocks begins before off: that block then exists already. */
  function Ragged(off: nat, n: nat): nat {
    if off % BSIZE != 0 && n > 0 then 1 else 0
  }

  /** What a write of n bytes at off may log: data blocks, their bitmap blocks, indirect block, inode. */
  function LogBound(off: nat, n: nat): int {
    2 * Touched(off, n) - Ragged(off, n) + 3
  }

  /** The reason for the chunk size: a chunk fits into one operation's share of the log. */
  lemma ChunkFits(off: nat, n: nat)
    requires n <= CHUNK
    ensures LogBound(off, n) <= MAXOPBLOCKS
  {
    if n > 0 && off % BSIZE == 0 { assert (off + n - 1) / BSIZE <= off / BSIZE + 2; }
  }

  ghost predicate Full(sb: Super, d: Disk) {
    SuperOk(sb, d) && forall b :: 0 <= b < sb.size ==> Used(sb, d, b)
  }

  /** The indirect block of an inode and the bitmap block that covers it. */
  ghost function Indirect(sb: Super, x: Inode): (r: set<int>)
    requires InodeOk(sb, x)
    ensures |r| <= 2
  {
    if x.addrs[NDIRECT] == 0 then {} else {x.addrs[NDIRECT], BBlock(sb, x.addrs[NDIRECT])}
  }

  /** What was logged beyond before are the blocks in data, bits and ind, so many of each. */
  ghost predicate Covers(before: set<int>, logged: set<int>, data: set<int>, bits: set<int>, ind: set<int>,
                         steps: int, allocs: int)
  {
    logged <= before + data + bits + ind && |data| <= steps && |bits| <= allocs
  }

  /** What one turn of the loop of writei does: the bytes more go to at, in one block of file i. */
  ghost predicate Turn(sb: Super, s: State, before: set<int>, t: State, after: set<int>, i: nat, at: nat,
                       more: seq<int>, addr: int)
  {
    && Inv(sb, s, 0) && Inv(sb, t, 0) && i < |s.ino| == |t.ino| && 0 <= addr
    && 0 < |more| <= BSIZE - at % BSIZE && at + |more| <= MAXFILE * BSIZE
    && Written(sb, s, t, i, at, more) && KeepsSlots(sb, s, t, i) && t.ino[i].size == s.ino[i].size
    && Slot(sb, t.d, t.ino[i], DataSlot(at / BSIZE)) != 0
    && (Slot(sb, s.d, s.ino[i], DataSlot(at / BSIZE)) != 0 ==> t.ino == s.ino && after == before + {addr})
    && after <= before + {addr, BBlock(sb, addr)} + Indirect(sb, t.ino[i])
  }

  /** The bitmap block that a turn logs: none if the block at position at was there already. */
  ghost function Extra(sb: Super, s: State, i: nat, at: nat, addr: int): set<int>
    requires Inv(sb, s, 0) && i < |s.ino| && at < MAXFILE * BSIZE
  {
    if addr < 0 || Slot(sb, s.d, s.ino[i], DataSlot(at / BSIZE)) != 0 then {} else {BBlock(sb, addr)}
  }

  /** What the turns together have done: src is at off, without a hole, and so much is logged. */
  ghost predicate Wrote(sb: Super, s: State, before: set<int>, t: State, after: set<int>, i: nat, off: nat, src: seq<int>,
                        data: set<int>, bits: set<int>)
  {
    && Inv(sb, s, 0) && Inv(sb, t, 0) && i < |s.ino| == |t.ino| && off <= s.ino[i].size && off + |src| <= MAXFILE * BSIZE
    && Written(sb, s, t, i, off, src) && t.ino[i].size == s.ino[i].size
    && Dense(sb, t.d, t.ino[i].(size := Max(t.ino[i].size, off + |src|)))
    && (off + |src| <= s.ino[i].size ==> t.ino == s.ino)
    && Covers(before, after, data, bits, Indirect(sb, t.ino[i]),
              Touched(off, |src|), Touched(off, |src|) - Ragged(off, |src|))
  }

  class FileSystem {
    const sb: Super
    /** The disk as seen through buffer cache and log. */
    var d: Disk
    /** The inodes in memory. */
    var inodes: seq<Inode>
    ghost var owner: map<int, Place>
    /** The distinct blocks logged by the current operation. */
    var logged: set<int>

    /** Mounts a disk whose blocks have the given owners. */
    constructor (sb: Super, disk: Disk, n: nat, ghost owner: map<int, Place>)
      requires SuperOk(sb, disk) && Room(sb, n) && Inv(sb, State(disk, DiskInodes(sb, disk, n), owner), 0)
      ensures Valid() && Synced() && this.sb == sb && d == disk && |inodes| == n && this.owner == owner && logged == {}
    {
      this.sb, d, inodes, this.owner, logged := sb, disk, DiskInodes(sb, disk, n), owner, {};
    }

    ghost function St(): State
      reads this
    {
      State(d, inodes, owner)
    }

    ghost predicate Valid()
      reads this
    {
      Inv(sb, St(), 0) && Room(sb, |inodes|)
    }

    /** The inodes in memory are those on disk. */
    ghost predicate Synced()
      requires Valid()
      reads this
    {
      inodes == DiskInodes(sb, d, |inodes|)
    }

    /** Since the disk was d0 and the log l0, what has changed is logged and not before block from. */
    ghost predicate Since(d0: Disk, l0: set<int>, from: nat)
      reads this`d, this`logged
    {
      Traced(sb, d0, l0, d, logged, from)
    }

    /** The first free block with its bit in the bitmap block of base. */
    method ScanBitmapBlock(base: nat) returns (bi: nat, found: bool)
      requires SuperOk(sb, d) && base % BPB == 0 && base < sb.size
      ensures bi <= BPB && forall c :: base <= c < base + bi && c < sb.size ==> Used(sb, d, c)
      ensures found ==> bi < BPB && base + bi < sb.size && !Used(sb, d, base + bi)
      ensures !found ==> bi == BPB || base + bi >= sb.size
    {
      hide Bit;
      var bp := d[BBlock(sb, base)];
      bi, found := 0, false;
      while bi < BPB && base + bi < sb.size
        invariant 0 <= bi <= BPB
        invariant forall c :: base <= c < base + bi && c < sb.size ==> Used(sb, d, c)
      {
        SameBitmapBlock(base, bi);
        assert BlockOk(bp);
        if !Bit(bp[bi / 8], bi % 8) {
          found := true;
          return;
        }
        assert Used(sb, d, base + bi);
        bi := bi + 1;
      }
    }

    /** The first free block, marked and zeroed; fails exactly when every block is in use. */
    method Balloc() returns (b: nat, ok: bool)
      requires Inv(sb, St(), 0)
      modifies this`d, this`logged
      ensures ok <==> !Full(sb, old(d))
      ensures !ok ==> d == old(d) && logged == old(logged)
      ensures ok ==> b < sb.size && !Used(sb, old(d), b) && forall c :: 0 <= c < b ==> Used(sb, old(d), c)
      ensures ok ==> sb.datastart <= b && b !in owner
      ensures ok ==> St() == Allocated(sb, old(St()), b) && Inv(sb, St(), b)
      ensures ok ==> logged == old(logged) + {b, BBlock(sb, b)} && Since(old(d), old(logged), sb.bmapstart)
    {
      hide Used;
      var base := 0;
      while base < sb.size
        invariant base % BPB == 0 && d == old(d) && logged == old(logged)
        invariant forall c :: 0 <= c < base && c < sb.size ==> Used(sb, d, c)
        decreases sb.size - base
      {
        var bi, found := ScanBitmapBlock(base);
        if found {
          b := base + bi;
          AllocKeeps(sb, St(), b);
          TakeBlock(base, bi);
          ok := true;
          return;
        }
        base := base + BPB;
      }
      b, ok := 0, false;
    }

    /** Marks and zeroes block base + bi. */
    method TakeBlock(base: nat, bi: nat)
      requires SuperOk(sb, d) && base % BPB == 0 && bi < BPB && base + bi < sb.size
      modifies this`d, this`logged
      ensures St() == Allocated(sb, old(St()), base + bi)
      ensures logged == old(logged) + {base + bi, BBlock(sb, base + bi)}
      ensures sb.datastart <= base + bi ==> Since(old(d), old(logged), sb.bmapstart)
    {
      hide Traced, SetBit;
      SameBitmapBlock(base, bi);
      var bp := d[BBlock(sb, base)];
      assert BlockOk(bp);
      bp := bp[bi / 8 := SetBit(bp[bi / 8], bi % 8)];
      TracedOne(sb, d, logged, BBlock(sb, base), bp, sb.bmapstart);
      d := d[BBlock(sb, base) := bp];
      logged := logged + {BBlock(sb, base)};
      if sb.datastart <= base + bi {
        TracedOne(sb, d, logged, base + bi, Zero(), sb.bmapstart);
        TracedThen(sb, old(d), old(logged), d, logged, d[base + bi := Zero()], logged + {base + bi},
                   sb.bmapstart, sb.bmapstart);
      }
      d := d[base + bi := Zero()];
      logged := logged + {base + bi};
    }

    static lemma SameBitmapBlock(base: nat, bi: nat)
      requires base % BPB == 0 && bi < BPB
      ensures (base + bi) / BPB == base / BPB && (base + bi) % BPB == bi && (base + bi) % 8 == bi % 8
    {
      var q := base / BPB;
      DivMod4096(base + bi, q, bi);
      Mod8(base + bi, q * 512 + bi / 8, bi % 8);
    }

    static lemma DivMod4096(a: nat, q: nat, r: nat)
      requires a == q * 4096 + r && r < 4096
      ensures a / 4096 == q && a % 4096 == r
    {
    }

    static lemma Mod8(a: nat, q: nat, r: nat)
      requires a == q * 8 + r && r < 8
      ensures a % 8 == r
    {
    }

    /** Clears the bit of b; fails exactly when b is free already. */
    method Bfree(b: nat) returns (ok: bool)
      requires SuperOk(sb, d) && b < sb.size
      modifies this`d, this`logged
      ensures ok <==> Used(sb, old(d), b)
      ensures d == if ok then Mark(sb, old(d), b, false) else old(d)
      ensures logged == if ok then old(logged) + {BBlock(sb, b)} else old(logged)
      ensures Since(old(d), old(logged), sb.bmapstart)
    {
      hide Traced, Bit, ClearBit;
      TracedSelf(sb, d, logged, sb.bmapstart);
      var bp := d[BBlock(sb, b)];
      assert BlockOk(bp);
      var bi := b % BPB;
      assert bi % 8 == b % 8 by { Split(b); }
      if !Bit(bp[bi / 8], bi % 8) {
        ok := false;
        return;
      }
      bp := bp[bi / 8 := ClearBit(bp[bi / 8], bi % 8)];
      TracedOne(sb, d, logged, BBlock(sb, b), bp, sb.bmapstart);
      d := d[BBlock(sb, b) := bp];
      logged := logged + {BBlock(sb, b)};
      ok := true;
    }

    /** Copies inode i to its place on disk. */
    method Iupdate(i: nat)
      requires SuperOk(sb, d) && Room(sb, |inodes|) && i < |inodes| && InodeOk(sb, inodes[i])
      modifies this`d, this`logged
      ensures IBlock(sb, i) < sb.bmapstart && d == WithInode(sb, old(d), i, inodes[i]) && SuperOk(sb, d)
      ensures DiskInodes(sb, d, |inodes|) == old(DiskInodes(sb, d, |inodes|))[i := inodes[i]]
      ensures logged == old(logged) + {IBlock(sb, i)} && Since(old(d), old(logged), sb.inodestart)
    {
      IBlockInside(sb, |inodes|, i);
      WithInodeAll(sb, d, i, inodes[i], |inodes|);
      var c := IBlock(sb, i);
      assert BlockOk(d[c]);
      d := d[c := PutInode(d[c], i % IPB, inodes[i])];
      logged := logged + {c};
    }

    /** Gives inode i a new size, in memory and on disk. */
    method Resize(i: nat, size: nat)
      requires Valid() && i < |inodes| && size <= MAXFILE * BSIZE && Dense(sb, d, inodes[i].(size := size))
      modifies this`d, this`inodes, this`logged
      ensures Valid() && inodes == old(inodes)[i := old(inodes)[i].(size := size)]
      ensures SameBytes(sb, old(St()), St())
      ensures DiskInodes(sb, d, |inodes|) == old(DiskInodes(sb, d, |inodes|))[i := inodes[i]]
      ensures logged == old(logged) + {IBlock(sb, i)} && Since(old(d), old(logged), sb.inodestart)
    {
      hide Slot, ByteAt, OwnerOk, BitOk, SlotOwned, Dense, DiskInodes, PutInode;
      SizeKeeps(sb, St(), i, size);
      inodes := inodes[i := inodes[i].(size := size)];
      ghost var t := St();
      Iupdate(i);
      MetaKeeps(sb, t, d);
      assert St() == t.(d := d);
    }

    /**
      The block in data slot bn of inode i, allocated if it was missing.  No byte of any file changes,
      and nothing at all if the block was there.
     */
    method Bmap(i: nat, bn: nat) returns (addr: nat, ok: bool)
      requires Valid() && i < |inodes|
      modifies this`d, this`inodes, this`owner, this`logged
      ensures !ok ==> bn >= MAXFILE || Full(sb, d)
      ensures ok ==> Valid() && |inodes| == old(|inodes|) && bn < MAXFILE && addr == Slot(sb, d, inodes[i], DataSlot(bn)) != 0
      ensures ok ==> Grew(sb, old(St()), St(), i)
      ensures bn < MAXFILE && old(Slot(sb, d, inodes[i], DataSlot(bn))) != 0 ==>
                ok && St() == old(St()) && logged == old(logged)
      ensures ok ==> logged <= old(logged) + {addr, BBlock(sb, addr)} + Indirect(sb, inodes[i])
      ensures ok ==> Since(old(d), old(logged), sb.bmapstart)
    {
      ghost var s0 := St();
      hide ByteAt, Used, Mark;
      if bn < NDIRECT {
        addr := inodes[i].addrs[bn];
        if addr == 0 {
          addr, ok := Balloc();
          if !ok { return; }
          GrowAddr(sb, s0, i, bn, addr);
          inodes, owner := inodes[i := inodes[i].(addrs := inodes[i].addrs[bn := addr])], owner[addr := Place(i, bn)];
          assert St() == WithAddr(Allocated(sb, s0, addr), i, bn, addr);
        }
        ok := true;
        return;
      }
      if bn - NDIRECT < NINDIRECT {
        addr, ok := BmapIndirect(i, bn - NDIRECT);
        return;
      }
      addr, ok := 0, false;
    }

    /** The indirect block of inode i, allocated if it was missing. */
    method LoadIndirect(i: nat) returns (ind: nat, ok: bool)
      requires Valid() && i < |inodes|
      modifies this`d, this`inodes, this`owner, this`logged
      ensures !ok ==> Full(sb, d)
      ensures ok ==> Valid() && Grew(sb, old(St()), St(), i) && ind == inodes[i].addrs[NDIRECT] != 0
      ensures old(inodes[i].addrs[NDIRECT]) != 0 ==> ok && St() == old(St()) && logged == old(logged)
      ensures ok ==> logged <= old(logged) + Indirect(sb, inodes[i]) && Since(old(d), old(logged), sb.bmapstart)
    {
      ghost var s0 := St();
      hide ByteAt, Used, Mark;
      ind, ok := inodes[i].addrs[NDIRECT], true;
      if ind == 0 {
        ind, ok := Balloc();
        if !ok { return; }
        GrowAddr(sb, s0, i, NDIRECT, ind);
        inodes, owner := inodes[i := inodes[i].(addrs := inodes[i].addrs[NDIRECT := ind])], owner[ind := Place(i, NDIRECT)];
        assert St() == WithAddr(Allocated(sb, s0, ind), i, NDIRECT, ind);
      }
    }

    /** The block in entry j of the indirect block of inode i, allocated if it was missing. */
    method BmapIndirect(i: nat, j: nat) returns (addr: nat, ok: bool)
      requires Valid() && i < |inodes| && j < NINDIRECT
      modifies this`d, this`inodes, this`owner, this`logged
      ensures !ok ==> Full(sb, d)
      ensures ok ==> Valid() && |inodes| == old(|inodes|) && addr == Slot(sb, d, inodes[i], NDIRECT + 1 + j) != 0
      ensures ok ==> Grew(sb, old(St()), St(), i)
      ensures old(Slot(sb, d, inodes[i], NDIRECT + 1 + j)) != 0 ==> ok && St() == old(St()) && logged == old(logged)
      ensures ok ==> logged <= old(logged) + {addr, BBlock(sb, addr)} + Indirect(sb, inodes[i])
      ensures ok ==> Since(old(d), old(logged), sb.bmapstart)
    {
      ghost var s0 := St();
      hide ByteAt, Used, Mark, PutWord, Traced;
      addr := 0;
      var ind: nat;
      ind, ok := LoadIndirect(i);
      if !ok { return; }
      ghost var s1, l1 := St(), logged;
      addr := Word(d[ind], j);
      if addr == 0 {
        addr, ok := Balloc();
        if !ok { return; }
        GrowWord(sb, s1, i, j, addr);
        ghost var d2, l2 := d, logged;
        TracedOne(sb, d, logged, ind, PutWord(d[ind], j, addr), sb.bmapstart);
        d := d[ind := PutWord(d[ind], j, addr)];
        owner := owner[addr := Place(i, NDIRECT + 1 + j)];
        logged := logged + {ind};
        TracedThen(sb, s1.d, l1, d2, l2, d, logged, sb.bmapstart, sb.bmapstart);
        TracedThen(sb, s0.d, old(logged), s1.d, l1, d, logged, sb.bmapstart, sb.bmapstart);
        assert St() == WithWord(sb, Allocated(sb, s1, addr), i, j, addr);
        GrewThen(sb, s0, s1, St(), i);
      }
      ok := true;
    }

    /** Frees every block of inode i once each, never one that is free already, and no other block. */
    method Itrunc(i: nat)
      requires Valid() && i < |inodes|
      modifies this
      ensures Valid() && St() == Truncated(old(St()), d, i)
      ensures Cleared(sb, old(St()), d, Blocks(old(St()), i, 0, NSLOT))
      ensures forall j, o :: 0 <= j < |inodes| && j != i && 0 <= o < MAXFILE * BSIZE ==>
                ByteAt(sb, d, inodes[j], o) == ByteAt(sb, old(d), old(inodes)[j], o)
      ensures DiskInodes(sb, d, |inodes|) == old(DiskInodes(sb, d, |inodes|))[i := NOTHING]
      ensures old(Synced()) ==> Synced()
      ensures Since(old(d), old(logged), sb.inodestart)
    {
      hide Mark, Used, Traced, DiskInodes, Slot, OwnerOk, BitOk, SlotOwned, Dense, ByteAt, PutInode;
      ghost var s := St();
      FreeDirect(i);
      if inodes[i].addrs[NDIRECT] != 0 {
        FreeIndirect(i, s, old(logged));
        inodes := inodes[i := inodes[i].(addrs := inodes[i].addrs[NDIRECT := 0])];
      } else {
        NoIndirect(sb, s, i);
      }
      SetEmpty(i, s, old(logged));
    }

    /** The end of itrunc: the inode, without blocks by now, becomes empty on disk too. */
    method SetEmpty(i: nat, ghost s: State, ghost l0: set<int>)
      requires Inv(sb, s, 0) && Room(sb, |s.ino|) && i < |s.ino| && owner == s.owner
      requires |inodes| == |s.ino| && inodes == s.ino[i := inodes[i]] && inodes[i].addrs == NOTHING.addrs
      requires Cleared(sb, s, d, Blocks(s, i, 0, NSLOT)) && Since(s.d, l0, sb.bmapstart)
      modifies this
      ensures Valid() && St() == Truncated(s, d, i)
      ensures Cleared(sb, s, d, Blocks(s, i, 0, NSLOT)) && Since(s.d, l0, sb.inodestart)
      ensures forall j, o :: 0 <= j < |inodes| && j != i && 0 <= o < MAXFILE * BSIZE ==>
                ByteAt(sb, d, inodes[j], o) == ByteAt(sb, s.d, s.ino[j], o)
      ensures DiskInodes(sb, d, |inodes|) == DiskInodes(sb, s.d, |inodes|)[i := NOTHING]
    {
      hide Mark, Used, Traced, DiskInodes, Slot, OwnerOk, BitOk, SlotOwned, Dense, ByteAt, PutInode, Blocks;
      inodes := inodes[i := inodes[i].(size := 0)];
      assert inodes[i] == NOTHING;
      owner := map b | b in owner && owner[b].inum != i :: owner[b];
      ghost var e, l := d, logged;
      InodesStay(sb, s.d, e, |inodes|) by { Untouched(sb, s.d, l0, e, l, sb.bmapstart); }
      Iupdate(i);
      ClearedMeta(sb, s, e, Blocks(s, i, 0, NSLOT), IBlock(sb, i), d[IBlock(sb, i)]);
      TracedThen(sb, s.d, l0, e, l, d, logged, sb.bmapstart, sb.inodestart);
      hide Cleared, Inv, WithInode;
      TruncateKeeps(sb, s, d, i);
      assert St() == Truncated(s, d, i);
    }

    /** The first half of itrunc: the blocks listed in the inode itself. */
    method FreeDirect(i: nat)
      requires Valid() && i < |inodes|
      modifies this`d, this`inodes, this`logged
      ensures Cleared(sb, old(St()), d, Blocks(old(St()), i, 0, NDIRECT)) && Since(old(d), old(logged), sb.bmapstart)
      ensures |inodes| == old(|inodes|) && InodeOk(sb, inodes[i]) && inodes == old(inodes)[i := inodes[i]]
      ensures forall l :: 0 <= l <= NDIRECT ==> inodes[i].addrs[l] == if l < NDIRECT then 0 else old(inodes)[i].addrs[l]
    {
      hide Mark, Used, Traced;
      ghost var s := St();
      TracedSelf(sb, d, logged, sb.bmapstart);
      assert Blocks(s, i, 0, 0) == {};
      var k := 0;
      while k < NDIRECT
        invariant k <= NDIRECT && Since(s.d, old(logged), sb.bmapstart)
        invariant |inodes| == |s.ino| && InodeOk(sb, inodes[i]) && inodes == s.ino[i := inodes[i]]
        invariant forall l :: 0 <= l <= NDIRECT ==> inodes[i].addrs[l] == if l < k then 0 else s.ino[i].addrs[l]
        invariant Cleared(sb, s, d, Blocks(s, i, 0, k))
      {
        ghost var e, l := d, logged;
        NextBlock(sb, s, d, i, 0, k, Blocks(s, i, 0, k));
        if inodes[i].addrs[k] != 0 {
          ClearedMore(sb, s, e, Blocks(s, i, 0, k), inodes[i].addrs[k]);
          var ok := Bfree(inodes[i].addrs[k]);
          assert ok;
          TracedThen(sb, s.d, old(logged), e, l, d, logged, sb.bmapstart, sb.bmapstart);
          inodes := inodes[i := inodes[i].(addrs := inodes[i].addrs[k := 0])];
        }
        k := k + 1;
      }
    }

    static lemma NoIndirect(sb: Super, s: State, i: nat)
      requires Inv(sb, s, 0) && i < |s.ino| && s.ino[i].addrs[NDIRECT] == 0
      ensures Blocks(s, i, 0, NSLOT) == Blocks(s, i, 0, NDIRECT)
    {
      forall b | b in s.owner && s.owner[b].inum == i ensures s.owner[b].slot < NDIRECT {
        assert OwnerOk(sb, s, b);
      }
    }

    /** The second half of itrunc: the blocks listed in the indirect block, then that block. */
    method FreeIndirect(i: nat, ghost s: State, ghost l0: set<int>)
      requires Inv(sb, s, 0) && i < |s.ino| == |inodes| && |inodes[i].addrs| == NDIRECT + 1
      requires inodes[i].addrs[NDIRECT] == s.ino[i].addrs[NDIRECT] != 0
      requires Cleared(sb, s, d, Blocks(s, i, 0, NDIRECT)) && Since(s.d, l0, sb.bmapstart)
      modifies this`d, this`logged
      ensures Cleared(sb, s, d, Blocks(s, i, 0, NSLOT)) && Since(s.d, l0, sb.bmapstart)
    {
      hide Mark, Used, Traced;
      var ind := inodes[i].addrs[NDIRECT];
      ghost var low := Blocks(s, i, 0, NDIRECT);
      ghost var first := NDIRECT + 1;
      FreeListed(i, s, l0);
      NextBlock(sb, s, d, i, NDIRECT, NDIRECT, low + Blocks(s, i, first, NSLOT));
      ClearedMore(sb, s, d, low + Blocks(s, i, first, NSLOT), ind);
      ghost var e, l := d, logged;
      var ok := Bfree(ind);
      assert ok;
      TracedThen(sb, s.d, l0, e, l, d, logged, sb.bmapstart, sb.bmapstart);
      assert Blocks(s, i, NDIRECT, NDIRECT) == {};
      assert low + Blocks(s, i, first, NSLOT) + {ind} == Blocks(s, i, 0, NSLOT);
    }

    /** The loop over the entries of the indirect block. */
    method FreeListed(i: nat, ghost s: State, ghost l0: set<int>)
      requires Inv(sb, s, 0) && i < |s.ino| == |inodes| && |inodes[i].addrs| == NDIRECT + 1
      requires inodes[i].addrs[NDIRECT] == s.ino[i].addrs[NDIRECT] != 0
      requires Cleared(sb, s, d, Blocks(s, i, 0, NDIRECT)) && Since(s.d, l0, sb.bmapstart)
      modifies this`d, this`logged
      ensures Cleared(sb, s, d, Blocks(s, i, 0, NDIRECT) + Blocks(s, i, NDIRECT + 1, NSLOT))
      ensures Since(s.d, l0, sb.bmapstart)
    {
      hide Mark, Used, Traced;
      ghost var low := Blocks(s, i, 0, NDIRECT);
      ghost var first := NDIRECT + 1;
      NextBlock(sb, s, d, i, NDIRECT, NDIRECT, low);
      var a := d[inodes[i].addrs[NDIRECT]];
      assert low + Blocks(s, i, first, first) == low;
      var j := 0;
      while j < NINDIRECT
        invariant j <= NINDIRECT && Cleared(sb, s, d, low + Blocks(s, i, first, first + j))
        invariant Since(s.d, l0, sb.bmapstart)
      {
        ghost var e, l := d, logged;
        NextBlock(sb, s, d, i, first, first + j, low + Blocks(s, i, first, first + j));
        if Word(a, j) != 0 {
          ClearedMore(sb, s, d, low + Blocks(s, i, first, first + j), Word(a, j));
          var ok := Bfree(Word(a, j));
          assert ok;
          TracedThen(sb, s.d, l0, e, l, d, logged, sb.bmapstart, sb.bmapstart);
          assert low + Blocks(s, i, first, first + j) + {Word(a, j)} == low + Blocks(s, i, first, first + j + 1);
        }
        j := j + 1;
      }
    }

    /** The bytes of file i in [off, off + n) as far as the file reaches; changes nothing. */
    method Readi(i: nat, off: nat, n: nat) returns (r: int, dst: seq<int>)
      requires Valid() && i < |inodes| && off < UINT && n < UINT
      modifies this`d, this`inodes, this`owner, this`logged
      ensures St() == old(St()) && logged == old(logged)
      ensures r == -1 <==> off > inodes[i].size || off + n >= UINT
      ensures r == -1 ==> dst == []
      ensures r != -1 ==> r == Min(n, inodes[i].size - off) && dst == File(sb, d, inodes[i])[off..off + r]
    {
      hide Mark, Used, Slot, ByteAt, Grew;
      if off > inodes[i].size || (off + n) % UINT < off {
        return -1, [];
      }
      r := n;
      if off + n > inodes[i].size {
        r := inodes[i].size - off;
      }
      dst := [];
      var at, tot := off, 0;
      while tot < r
        invariant St() == old(St()) && logged == old(logged)
        invariant 0 <= tot <= r && at == off + tot && off + r <= inodes[i].size
        invariant dst == File(sb, d, inodes[i])[off..at]
      {
        BlockThere(sb, d, inodes[i], at);
        var b, ok := Bmap(i, at / BSIZE);
        var m := Min(r - tot, BSIZE - at % BSIZE);
        ReadStep(sb, St(), i, at, b, m);
        var bp := d[b];
        dst := dst + bp[at % BSIZE..at % BSIZE + m];
        tot, at := tot + m, at + m;
      }
    }

    /** A byte below the size lies in a block the file has. */
    static lemma BlockThere(sb: Super, d: Disk, x: Inode, at: nat)
      requires SuperOk(sb, d) && InodeOk(sb, x) && Dense(sb, d, x) && at / BSIZE * BSIZE < x.size
      ensures at / BSIZE < MAXFILE && Slot(sb, d, x, DataSlot(at / BSIZE)) != 0
    {
    }

    static lemma ReadStep(sb: Super, s: State, i: nat, at: nat, b: int, m: nat)
      requires Inv(sb, s, 0) && i < |s.ino| && m <= BSIZE - at % BSIZE && at + m <= s.ino[i].size
      requires at / BSIZE < MAXFILE
      requires b == Slot(sb, s.d, s.ino[i], DataSlot(at / BSIZE)) != 0
      ensures 0 <= b < |s.d| && |s.d[b]| == BSIZE
      ensures s.d[b][at % BSIZE..at % BSIZE + m] == File(sb, s.d, s.ino[i])[at..at + m]
    {
      hide Slot, Used;
      assert SlotOwned(sb, s, i, DataSlot(at / BSIZE)) && OwnerOk(sb, s, b);
      assert BlockOk(s.d[b]);
      var here, there := s.d[b][at % BSIZE..at % BSIZE + m], File(sb, s.d, s.ino[i])[at..at + m];
      forall q | 0 <= q < m ensures here[q] == there[q] {
        SameBlock(at, at + q, m);
        assert there[q] == ByteAt(sb, s.d, s.ino[i], at + q);
      }
    }

    /** One turn of the loop of writei: the bytes more go to off, within one block. */
    method WriteBlock(i: nat, off: nat, more: seq<int>) returns (ghost addr: int, ok: bool)
      requires Valid() && i < |inodes| && Bytes(more)
      requires 0 < |more| <= BSIZE - off % BSIZE && off + |more| <= MAXFILE * BSIZE
      modifies this`d, this`inodes, this`owner, this`logged
      ensures !ok ==> Full(sb, d)
      ensures ok ==> Valid() && |inodes| == old(|inodes|) && Since(old(d), old(logged), sb.bmapstart)
      ensures ok ==> Turn(sb, old(St()), old(logged), St(), logged, i, off, more, addr)
      ensures old(Slot(sb, d, inodes[i], DataSlot(off / BSIZE))) != 0 ==> ok
    {
      hide Mark, Used, Slot, ByteAt, Traced;
      ghost var s := St();
      var b: nat;
      b, ok := Bmap(i, off / BSIZE);
      addr := b;
      if !ok { return; }
      ghost var t, l := St(), logged;
      WriteStep(sb, t, i, off, b, more);
      TracedOne(sb, d, logged, b, Spliced(d[b], off % BSIZE, more), sb.bmapstart);
      d := d[b := Spliced(d[b], off % BSIZE, more)];
      logged := logged + {b};
      TracedThen(sb, s.d, old(logged), t.d, l, d, logged, sb.bmapstart, sb.bmapstart);
      assert Written(sb, s, t, i, off, []);
      WrittenThen(sb, s, t, St(), i, off, [], more);
      assert [] + more == more;
    }

    static lemma RaggedTouched(off: nat, n: nat)
      ensures Ragged(off, n) <= Touched(off, n)
    {
    }

    static lemma IndirectStays(sb: Super, s: State, t: State, i: nat)
      requires SuperOk(sb, s.d) && SuperOk(sb, t.d) && InodesOk(sb, s.ino) && InodesOk(sb, t.ino)
      requires i < |s.ino| == |t.ino| && KeepsSlots(sb, s, t, i)
      ensures Indirect(sb, s.ino[i]) <= Indirect(sb, t.ino[i])
    {
      assert Slot(sb, s.d, s.ino[i], NDIRECT) == s.ino[i].addrs[NDIRECT];
      assert Slot(sb, t.d, t.ino[i], NDIRECT) == t.ino[i].addrs[NDIRECT];
    }

    /** The next piece ends the write or its block. */
    static lemma PieceFits(at: nat, left: nat)
      requires left > 0
      ensures 0 < Min(left, BSIZE - at % BSIZE) <= BSIZE - at % BSIZE
      ensures Min(left, BSIZE - at % BSIZE) < left ==> (at + Min(left, BSIZE - at % BSIZE)) % BSIZE == 0
      ensures Min(left, BSIZE - at % BSIZE) <= left
      ensures at / BSIZE * BSIZE <= at && (at % BSIZE != 0 ==> at / BSIZE * BSIZE < at)
    {
    }

    /** One turn of the loop: a ragged write allocates nothing for its first block. */
    static lemma CoversTurn(start: set<int>, before: set<int>, data: set<int>, bits: set<int>, ind: set<int>,
                            after: set<int>, addr: int, extra: set<int>, ind': set<int>, off: nat, tot: nat, m: nat)
      requires Covers(start, before, data, bits, ind, Touched(off, tot), Touched(off, tot) - Ragged(off, tot))
      requires after <= before + {addr} + extra + ind' && ind <= ind' && |extra| <= 1
      requires tot == 0 || (off + tot) % BSIZE == 0
      requires 0 < m <= BSIZE - (off + tot) % BSIZE
      requires tot == 0 && off % BSIZE != 0 ==> extra == {}
      ensures Covers(start, after, data + {addr}, bits + extra, ind',
                     Touched(off, tot + m), Touched(off, tot + m) - Ragged(off, tot + m))
    {
      TouchedStep(off, tot, m);
      hide Touched;
      CoversMore(start, before, data, bits, ind, Touched(off, tot), Touched(off, tot) - Ragged(off, tot),
                 after, addr, extra, ind');
    }

    static lemma TouchedStep(off: nat, tot: nat, m: nat)
      requires tot == 0 || (off + tot) % BSIZE == 0
      requires 0 < m <= BSIZE - (off + tot) % BSIZE
      ensures Touched(off, tot + m) == Touched(off, tot) + 1
    {
      assert (off + tot + m - 1) / BSIZE == (off + tot) / BSIZE;
      if tot > 0 { assert (off + tot - 1) / BSIZE == (off + tot) / BSIZE - 1; }
    }

    static lemma NothingWrote(sb: Super, s: State, logged: set<int>, i: nat, off: nat)
      requires Inv(sb, s, 0) && i < |s.ino| && off <= s.ino[i].size
      ensures Wrote(sb, s, logged, s, logged, i, off, [], {}, {})
    {
      assert s.ino[i].(size := Max(s.ino[i].size, off)) == s.ino[i];
      hide Slot, ByteAt;
    }

    static lemma TurnFiles(sb: Super, s: State, t: State, u: State, i: nat, off: nat, src: seq<int>, more: seq<int>,
                           l0: set<int>, l1: set<int>, l2: set<int>, data: set<int>, bits: set<int>, addr: int)
      requires Wrote(sb, s, l0, t, l1, i, off, src, data, bits) && Turn(sb, t, l1, u, l2, i, off + |src|, more, addr)
      ensures Inv(sb, u, 0) && |u.ino| == |s.ino| && |more| > 0 && off + |src| + |more| <= MAXFILE * BSIZE
      ensures Written(sb, s, u, i, off, src + more) && u.ino[i].size == s.ino[i].size
      ensures Dense(sb, u.d, u.ino[i].(size := Max(u.ino[i].size, off + |src| + |more|)))
      ensures off + |src| + |more| <= s.ino[i].size ==> u.ino == s.ino
      ensures (off + |src|) % BSIZE != 0 && off + |src| <= s.ino[i].size ==>
                Slot(sb, t.d, t.ino[i], DataSlot((off + |src|) / BSIZE)) != 0
    {
      hide Covers, Indirect, Touched, Ragged, Written, Slot, ByteAt, OwnerOk, BitOk, SlotOwned;
      var at := off + |src|;
      WrittenThen(sb, s, t, u, i, off, src, more);
      DenseStep(sb, t, u, i, Max(s.ino[i].size, at), at, |more|);
      if at / BSIZE * BSIZE < t.ino[i].size { BlockThere(sb, t.d, t.ino[i], at); }
    }

    static lemma TurnLogs(sb: Super, s: State, t: State, u: State, i: nat, off: nat, src: seq<int>, more: seq<int>,
                          l0: set<int>, l1: set<int>, l2: set<int>, data: set<int>, bits: set<int>,
                          addr: int, extra: set<int>)
      requires Wrote(sb, s, l0, t, l1, i, off, src, data, bits) && Turn(sb, t, l1, u, l2, i, off + |src|, more, addr)
      requires src == [] || (off + |src|) % BSIZE == 0
      requires src == [] && off % BSIZE != 0 ==> Slot(sb, t.d, t.ino[i], DataSlot(off / BSIZE)) != 0
      requires extra == Extra(sb, t, i, off + |src|, addr)
      ensures Covers(l0, l2, data + {addr}, bits + extra, Indirect(sb, u.ino[i]),
                     Touched(off, |src + more|), Touched(off, |src + more|) - Ragged(off, |src + more|))
    {
      hide Covers, Indirect, Touched, Ragged, Written, Slot, ByteAt, OwnerOk, BitOk, SlotOwned, Dense, BBlock;
      IndirectStays(sb, t, u, i);
      CoversTurn(l0, l1, data, bits, Indirect(sb, t.ino[i]), l2, addr, extra, Indirect(sb, u.ino[i]), off, |src|, |more|);
    }

    static lemma TurnKeeps(sb: Super, s: State, t: State, u: State, i: nat, off: nat, src: seq<int>, more: seq<int>,
                           l0: set<int>, l1: set<int>, l2: set<int>, data: set<int>, bits: set<int>, addr: int)
      requires Wrote(sb, s, l0, t, l1, i, off, src, data, bits) && Turn(sb, t, l1, u, l2, i, off + |src|, more, addr)
      requires src == [] || (off + |src|) % BSIZE == 0
      ensures Wrote(sb, s, l0, u, l2, i, off, src + more, data + {addr}, bits + Extra(sb, t, i, off + |src|, addr))
    {
      hide Inv, Turn, Covers, Indirect, Touched, Ragged, Written, Slot, Dense, BBlock, Extra;
      TurnFiles(sb, s, t, u, i, off, src, more, l0, l1, l2, data, bits, addr);
      TurnLogs(sb, s, t, u, i, off, src, more, l0, l1, l2, data, bits, addr, Extra(sb, t, i, off + |src|, addr));
    }

    /** A turn of the loop of writei after tot bytes; m is what it adds. */
    method WriteTurn(i: nat, off: nat, src: seq<int>, tot: nat, ghost s: State, ghost start: set<int>,
                     ghost data: set<int>, ghost bits: set<int>)
      returns (m: nat, ok: bool, ghost data': set<int>, ghost bits': set<int>)
      requires Valid() && i < |inodes| && Bytes(src) && tot < |src| && off + |src| <= MAXFILE * BSIZE
      requires tot == 0 || (off + tot) % BSIZE == 0
      requires Wrote(sb, s, start, St(), logged, i, off, src[..tot], data, bits) && Since(s.d, start, sb.bmapstart)
      modifies this`d, this`inodes, this`owner, this`logged
      ensures !ok ==> Full(sb, d)
      ensures 0 < m <= |src| - tot && (m == |src| - tot || (off + tot + m) % BSIZE == 0)
      ensures ok ==> Valid() && |inodes| == old(|inodes|) && Since(s.d, start, sb.bmapstart)
      ensures ok ==> Wrote(sb, s, start, St(), logged, i, off, src[..tot + m], data', bits')
    {
      hide Turn, Wrote, Min, Extra, Slot, Used, Dense, OwnerOk, BitOk, SlotOwned, Traced;
      var at := off + tot;
      PieceFits(at, |src| - tot);
      m := Min(|src| - tot, BSIZE - at % BSIZE);
      ghost var t, before := St(), logged;
      ghost var addr: int;
      var more := src[tot..tot + m];
      addr, ok := WriteBlock(i, at, more);
      data', bits' := data + {addr}, bits + Extra(sb, t, i, at, addr);
      if !ok { return; }
      TracedThen(sb, s.d, start, t.d, before, d, logged, sb.bmapstart, sb.bmapstart);
      TurnKeeps(sb, s, t, St(), i, off, src[..tot], more, start, before, logged, data, bits, addr);
      assert src[..tot] + more == src[..tot + m];
    }

    /** The loop of writei, for a range that the file can hold. */
    method WriteBlocks(i: nat, off: nat, src: seq<int>) returns (ok: bool, ghost data: set<int>, ghost bits: set<int>)
      requires Valid() && i < |inodes| && Bytes(src) && off <= inodes[i].size && off + |src| <= MAXFILE * BSIZE
      modifies this`d, this`inodes, this`owner, this`logged
      ensures !ok ==> Full(sb, d)
      ensures ok ==> Wrote(sb, old(St()), old(logged), St(), logged, i, off, src, data, bits)
      ensures ok ==> Valid() && Since(old(d), old(logged), sb.bmapstart)
    {
      hide Turn, Wrote, Inv, Full, Bytes;
      ok, data, bits := true, {}, {};
      ghost var s := St();
      NothingWrote(sb, s, logged, i, off);
      var tot := 0;
      assert src[..0] == [];
      while tot < |src|
        invariant 0 <= tot <= |src| && Valid() && |inodes| == |s.ino|
        invariant tot < |src| ==> tot == 0 || (off + tot) % BSIZE == 0
        invariant Wrote(sb, s, old(logged), St(), logged, i, off, src[..tot], data, bits)
        invariant Since(s.d, old(logged), sb.bmapstart)
      {
        var m: nat;
        m, ok, data, bits := WriteTurn(i, off, src, tot, s, old(logged), data, bits);
        if !ok { return; }
        tot := tot + m;
      }
      assert src[..tot] == src;
    }

    /**
      Writes src to file i at off.  Fails without a change exactly when off is beyond the end or the
      file would get too large; otherwise file i is patched and no other file changes.
     */
    method Writei(i: nat, off: nat, src: seq<int>) returns (r: int, ok: bool)
      requires Valid() && i < |inodes| && off < UINT && |src| < UINT && Bytes(src)
      modifies this
      ensures !ok ==> Full(sb, d)
      ensures ok ==> Valid() && |inodes| == old(|inodes|)
      ensures ok ==> (r == -1 <==> off > old(inodes[i].size) || off + |src| > MAXFILE * BSIZE)
      ensures ok && r == -1 ==> St() == old(St()) && logged == old(logged)
      ensures ok && r != -1 ==> r == |src| && Files(sb, St()) == Put(old(Files(sb, St())), i, off, src)
      ensures ok ==> forall j :: 0 <= j < |inodes| && j != i ==> inodes[j] == old(inodes)[j]
      ensures ok && old(Synced()) ==> Synced()
      ensures ok ==> |logged - old(logged)| <= LogBound(off, |src|) && Since(old(d), old(logged), sb.inodestart)
    {
      hide Inv, Files, Put, Traced, DiskInodes;
      r, ok := -1, true;
      TracedSelf(sb, d, logged, sb.inodestart);
      assert LogBound(off, |src|) >= 0 && logged - old(logged) == {} by { RaggedTouched(off, |src|); }
      if off > inodes[i].size || (off + |src|) % UINT < off {
        return;
      }
      if (off + |src|) % UINT > MAXFILE * BSIZE {
        return;
      }
      ok := WriteRange(i, off, src);
      r := |src|;
    }

    /** writei for a range that the file can hold: its loop, and the new size if the file grows. */
    method WriteRange(i: nat, off: nat, src: seq<int>) returns (ok: bool)
      requires Valid() && i < |inodes| && Bytes(src) && off <= inodes[i].size && off + |src| <= MAXFILE * BSIZE
      modifies this
      ensures !ok ==> Full(sb, d)
      ensures ok ==> Valid() && |inodes| == old(|inodes|)
      ensures ok ==> Files(sb, St()) == Put(old(Files(sb, St())), i, off, src)
      ensures ok ==> forall j :: 0 <= j < |inodes| && j != i ==> inodes[j] == old(inodes)[j]
      ensures ok && old(Synced()) ==> Synced()
      ensures ok ==> |logged - old(logged)| <= LogBound(off, |src|) && Since(old(d), old(logged), sb.inodestart)
    {
      hide Mark, Used, Slot, ByteAt, Indirect, Written, Touched;
      hide Covers, Dense, Patch, BBlock, Ragged, Traced, DiskInodes, OwnerOk, BitOk, SlotOwned, InodeOk, File;
      ghost var s := St();
      ghost var data, bits;
      ok, data, bits := WriteBlocks(i, off, src);
      if !ok { return; }
      ghost var t, before := St(), logged;
      LoggedFew(sb, old(logged), before, t.ino[i], off, |src|, data, bits, IBlock(sb, i));
      InodesStay(sb, s.d, d, |inodes|) by { Untouched(sb, s.d, old(logged), d, before, sb.bmapstart); }
      TracedWider(sb, s.d, old(logged), d, before, sb.bmapstart, sb.inodestart);
      if |src| > 0 && off + |src| > inodes[i].size {
        Resize(i, off + |src|);
        WrittenSame(sb, s, t, St(), i, off, src);
        TracedThen(sb, s.d, old(logged), t.d, before, d, logged, sb.bmapstart, sb.inodestart);
      }
      WrittenFiles(sb, s, St(), i, off, src);
    }

    static lemma LoggedFew(sb: Super, before: set<int>, logged: set<int>, x: Inode, off: nat, n: nat,
                           data: set<int>, bits: set<int>, last: int)
      requires InodeOk(sb, x)
      requires Covers(before, logged, data, bits, Indirect(sb, x), Touched(off, n), Touched(off, n) - Ragged(off, n))
      ensures |logged - before| <= LogBound(off, n) && |logged + {last} - before| <= LogBound(off, n)
    {
      hide Covers, Indirect, Touched, Ragged;
      CoversTotal(before, logged, data, bits, Indirect(sb, x), Touched(off, n), Touched(off, n) - Ragged(off, n), {});
      CoversTotal(before, logged, data, bits, Indirect(sb, x), Touched(off, n), Touched(off, n) - Ragged(off, n), {last});
      assert logged + {} == logged;
    }

    static lemma WrittenSame(sb: Super, s: State, t: State, u: State, i: nat, off: nat, src: seq<int>)
      requires SuperOk(sb, s.d) && SuperOk(sb, t.d) && SuperOk(sb, u.d)
      requires InodesOk(sb, s.ino) && InodesOk(sb, t.ino) && InodesOk(sb, u.ino)
      requires Written(sb, s, t, i, off, src) && SameBytes(sb, t, u)
      requires forall j :: 0 <= j < |t.ino| && j != i ==> u.ino[j] == t.ino[j]
      ensures Written(sb, s, u, i, off, src)
    {
      hide ByteAt;
    }

    /** What writei has written, readi reads. */
    method WriteThenRead(i: nat, off: nat, src: seq<int>) returns (r: int, dst: seq<int>, ok: bool)
      requires Valid() && i < |inodes| && off < UINT && |src| < UINT && Bytes(src)
      modifies this
      ensures ok && off <= old(inodes[i].size) && off + |src| <= MAXFILE * BSIZE ==> r == |src| && dst == src
      ensures ok ==> |inodes| == old(|inodes|)
      ensures ok ==> inodes[i].size == if r < 0 then old(inodes[i].size) else Max(old(inodes[i].size), off + |src|)
    {
      hide Slot, Used, OwnerOk, BitOk, SlotOwned, Dense, File, Patch, LogBound;
      ghost var f := Files(sb, St())[i];
      dst := [];
      r, ok := Writei(i, off, src);
      if !ok || r < 0 { return; }
      assert Files(sb, St())[i] == File(sb, d, inodes[i]);
      r, dst := Readi(i, off, |src|);
    }

    /**
      Any sequence of reads, writes and truncations: as long as the disk does not fill up, the files
      are what the operations make of byte strings.
     */
    method Session(ops: seq<FileOp>) returns (ok: bool)
      requires Valid() && forall k :: 0 <= k < |ops| ==> ops[k].i < |inodes| && OpOk(ops[k])
      modifies this
      ensures !ok ==> Full(sb, d)
      ensures ok ==> Valid() && Files(sb, St()) == AfterOps(old(Files(sb, St())), ops) && (old(Synced()) ==> Synced())
    {
      hide Slot, Used, OwnerOk, BitOk, SlotOwned, Dense, File, Put, LogBound, Cleared, DiskInodes, Traced;
      ok := true;
      ghost var fs := Files(sb, St());
      var k := 0;
      assert ops[..0] == [];
      while k < |ops|
        invariant 0 <= k <= |ops| && Valid() && |inodes| == |fs| && Files(sb, St()) == AfterOps(fs, ops[..k])
        invariant old(Synced()) ==> Synced()
      {
        assert ops[..k + 1][..k] == ops[..k];
        ok := Perform(ops[k]);
        if !ok { return; }
        k := k + 1;
      }
      assert ops[..k] == ops;
    }

    method Perform(op: FileOp) returns (ok: bool)
      requires Valid() && op.i < |inodes| && OpOk(op)
      modifies this
      ensures !ok ==> Full(sb, d)
      ensures ok ==> Valid() && |inodes| == old(|inodes|) && (old(Synced()) ==> Synced())
      ensures ok ==> Files(sb, St()) == AfterOp(old(Files(sb, St())), op)
    {
      hide Slot, Used, OwnerOk, BitOk, SlotOwned, Dense, File, Put, LogBound, Cleared, DiskInodes, Traced;
      ghost var s := St();
      ok := true;
      match op
      case WriteAt(i, off, src) =>
        assert |Files(sb, s)[i]| == inodes[i].size;
        var r: int;
        r, ok := Writei(i, off, src);
      case ReadAt(i, off, n) =>
        var r, dst := Readi(i, off, n);
      case Truncate(i) =>
        Itrunc(i);
        TruncatedFiles(sb, s, d, i);
    }

    static predicate OpOk(op: FileOp) {
      match op
      case WriteAt(_, off, src) => off < UINT && |src| < UINT && Bytes(src)
      case ReadAt(_, off, n) => off < UINT && n < UINT
      case Truncate(_) => true
    }

    /** fileread: reads at the file's offset and moves it over what was read. */
    method Fileread(f: OpenFile, n: nat) returns (r: int, dst: seq<int>)
      requires Valid() && f.ip < |inodes| && f.off < UINT && n < UINT
      modifies this`d, this`inodes, this`owner, this`logged, f
      ensures St() == old(St()) && r == |dst| - (if old(f.off) > inodes[f.ip].size || old(f.off) + n >= UINT then 1 else 0)
      ensures old(f.off) <= inodes[f.ip].size && old(f.off) + n < UINT ==>
                dst == File(sb, d, inodes[f.ip])[old(f.off)..Min(old(f.off) + n, inodes[f.ip].size)]
      ensures f.off == old(f.off) + |dst|
    {
      hide Inv;
      r, dst := Readi(f.ip, f.off, n);
      if r > 0 {
        f.off := f.off + r;
      }
    }

    /**
      One operation of filewrite: the next n1 bytes of data go to the file's offset.  The operation logs
      at most MAXOPBLOCKS distinct blocks.
     */
    method WriteChunk(f: OpenFile, src: seq<int>) returns (r: int, ok: bool)
      requires Valid() && f.ip < |inodes| && f.off < UINT && 0 < |src| <= CHUNK && Bytes(src)
      modifies this, f
      ensures !ok ==> Full(sb, d)
      ensures ok ==> Valid() && |inodes| == old(|inodes|) && |logged| <= MAXOPBLOCKS
      ensures ok ==> (r == -1 <==> old(f.off > inodes[f.ip].size || f.off + |src| > MAXFILE * BSIZE))
      ensures ok && r == -1 ==> f.off == old(f.off) && St() == old(St()) && logged == {}
      ensures ok && r != -1 ==> r == |src| && f.off == old(f.off) + r
      ensures ok && r != -1 ==> Files(sb, St()) == Put(old(Files(sb, St())), f.ip, old(f.off), src)
      ensures ok ==> (old(Synced()) ==> Synced()) && Since(old(d), {}, sb.inodestart)
    {
      hide Slot, Used, OwnerOk, BitOk, SlotOwned, Dense, Files, Put, LogBound, DiskInodes, Traced;
      logged := {};
      ChunkFits(f.off, |src|);
      r, ok := Writei(f.ip, f.off, src);
      if !ok { return; }
      assert logged - {} == logged;
      if r > 0 {
        f.off := f.off + r;
      }
    }

    /**
      filewrite: writes the n bytes of data at the file's offset, a chunk per operation.  It succeeds
      exactly when n is no negative number and writei would take the whole of data; otherwise the chunks
      before the failing one are written.
     */
    method Filewrite(f: OpenFile, data: seq<int>, n: int) returns (r: int, ok: bool, ghost ops: seq<set<int>>)
      requires Valid() && f.ip < |inodes| && f.off < UINT && |data| == Max(n, 0) < UINT / 2 && Bytes(data)
      modifies this, f
      ensures !ok ==> Full(sb, d)
      ensures ok ==> Valid() && |inodes| == old(|inodes|) && (old(Synced()) ==> Synced())
      ensures forall k :: 0 <= k < |ops| ==> |ops[k]| <= MAXOPBLOCKS
      ensures ok ==> |ops| == Chunks(f.off - old(f.off)) + (if r < 0 <= n then 1 else 0)
      ensures ok ==> r == n || r == -1
      ensures ok && n >= 0 ==>
                (r == n <==> n == 0 || old(f.off <= inodes[f.ip].size && f.off + n <= MAXFILE * BSIZE))
      ensures ok && n < 0 ==> r == -1 && ops == []
      ensures ok ==> old(f.off) <= f.off && (r == n >= 0 ==> f.off == old(f.off) + n)
      ensures ok ==> Front(sb, St(), old(Files(sb, St())), f.ip, old(f.off), data, f.off - old(f.off))
    {
      hide Slot, Used, OwnerOk, BitOk, SlotOwned, Dense, Files;
      hide Put, Front, Chunks, DiskInodes, Traced, SuperOk, InodeOk, Full;
      var i := 0;
      r, ok, ops := 0, true, [];
      ghost var fs, off := Files(sb, St()), f.off;
      NextChunk(0, 1);
      FrontNone(sb, St(), f.ip, off, data);
      while i < n
        invariant ok && 0 <= i <= |data| && f.off == off + i && Valid() && |inodes| == |fs|
        invariant |ops| == Chunks(i) && (i < |data| ==> i % CHUNK == 0) && (i == 0 ==> ops == [])
        invariant forall k :: 0 <= k < |ops| ==> |ops[k]| <= MAXOPBLOCKS
        invariant i > 0 ==> off <= |fs[f.ip]| && off + i <= MAXFILE * BSIZE
        invariant Front(sb, St(), fs, f.ip, off, data, i) && (old(Synced()) ==> Synced())
      {
        var w: int;
        w, ok := WriteNext(f, data, i, fs, off);
        if !ok { return; }
        ops := ops + [logged];
        if w < 0 {
          return -1, ok, ops;
        }
        NextChunk(i, w);
        i := i + w;
      }
      r := if i == n then n else -1;
    }

    /** A turn of the loop of filewrite after i bytes. */
    method WriteNext(f: OpenFile, data: seq<int>, i: nat, ghost fs: seq<seq<int>>, ghost off: nat) returns (r: int, ok: bool)
      requires Valid() && f.ip < |fs| && off < UINT && i < |data| < UINT / 2 && Bytes(data) && f.off == off + i
      requires (i > 0 ==> off + i <= MAXFILE * BSIZE) && Front(sb, St(), fs, f.ip, off, data, i)
      modifies this, f
      ensures !ok ==> Full(sb, d)
      ensures ok ==> Valid() && |inodes| == |fs| && |logged| <= MAXOPBLOCKS && (old(Synced()) ==> Synced())
      ensures ok && r == -1 ==> f.off == off + i && Front(sb, St(), fs, f.ip, off, data, i)
      ensures ok && r == -1 ==> off > |fs[f.ip]| || off + |data| > MAXFILE * BSIZE
      ensures ok && r != -1 ==> r == Min(|data| - i, CHUNK) && f.off == off + i + r
      ensures ok && r != -1 ==> off <= |fs[f.ip]| && off + i + r <= MAXFILE * BSIZE
      ensures ok && r != -1 ==> Front(sb, St(), fs, f.ip, off, data, i + r)
    {
      hide Slot, Used, OwnerOk, BitOk, SlotOwned, Dense, Files, Put, Front, DiskInodes, Traced, SuperOk, InodeOk, Full;
      FrontSize(sb, St(), fs, f.ip, off, data, i);
      ghost var s := St();
      var n1 := |data| - i;
      if n1 > CHUNK {
        n1 := CHUNK;
      }
      r, ok := WriteChunk(f, data[i..i + n1]);
      if ok && r != -1 { FrontNext(sb, s, St(), fs, f.ip, off, data, i, n1); }
    }
  }

  /** The part of struct file used here: the inode and the offset. */
  class OpenFile {
    const ip: nat
    var off: nat

    constructor (ip: nat)
      ensures this.ip == ip && off == 0
    {
      this.ip, off := ip, 0;
    }
  }

  lemma CoversMore(before: set<int>, logged: set<int>, data: set<int>, bits: set<int>, ind: set<int>, steps: int, allocs: int,
                   after: set<int>, addr: int, extra: set<int>, ind': set<int>)
    requires Covers(before, logged, data, bits, ind, steps, allocs) && ind <= ind'
    requires after <= logged + {addr} + extra + ind'
    ensures Covers(before, after, data + {addr}, bits + extra, ind', steps + 1, allocs + |extra|)
  {
    AddSizes(data, {addr});
    AddSizes(bits, extra);
  }

  lemma AddSizes(a: set<int>, b: set<int>)
    ensures |a + b| <= |a| + |b|
  {
  }

  lemma CoversTotal(before: set<int>, logged: set<int>, data: set<int>, bits: set<int>, ind: set<int>,
                    steps: int, allocs: int, last: set<int>)
    requires Covers(before, logged, data, bits, ind, steps, allocs)
    ensures |logged + last - before| <= steps + allocs + |ind| + |last|
  {
    AddSizes(data, bits);
    AddSizes(data + bits, ind);
    AddSizes(data + bits + ind, last);
    SubsetSize(logged + last - before, data + bits + ind + last);
  }

  predicate Bytes(src: seq<int>) {
    forall q :: 0 <= q < |src| ==> 0 <= src[q] < 256
  }
}
