/**
  bio.c: a fixed number of buffers caching disk blocks, recycled in least-recently-used order.
  Proved: for real devices a block is in at most one buffer, a referenced or dirty buffer is never
  recycled, and the cache together with the disk behaves like one plain map from block numbers to
  contents.  Waiting for a buffer's sleep lock is the business of module SleepLock.
 */
module BufferCache {
  import opened RunQueue
  import opened BufRing

  const NBUF: nat := 30
  const HEAD: int := NBUF
  const ROOTDEV := 1
  const NONE := -1

  type Block = seq<int>

  datatype Buf = Buf(dev: int, blockno: int, valid: bool, dirty: bool, refcnt: int, data: Block)

  /** At most one buffer holds a given block of a real device. */
  ghost predicate Unique(bs: seq<Buf>) {
    forall i, j :: 0 <= i < j < |bs| && bs[i].dev >= 1 ==> bs[i].dev != bs[j].dev || bs[i].blockno != bs[j].blockno
  }

  /** One buffer against the disk and the block map the cache stands for. */
  ghost predicate BufOk(b: Buf, disk: seq<Block>, contents: seq<Block>) {
    && |disk| == |contents| && b.refcnt >= 0 && (b.dirty ==> b.valid)
    && (b.valid ==> b.dev == ROOTDEV && 0 <= b.blockno < |disk| && b.data == contents[b.blockno])
    && (b.valid && !b.dirty ==> b.data == disk[b.blockno])
  }

  /** Block n is waiting in a dirty buffer. */
  ghost predicate DirtyFor(bs: seq<Buf>, n: int) {
    exists i :: 0 <= i < |bs| && bs[i].dirty && bs[i].blockno == n
  }

  /** What is not in a dirty buffer is on the disk. */
  ghost predicate Backed(bs: seq<Buf>, disk: seq<Block>, contents: seq<Block>) {
    |disk| == |contents| && forall n :: 0 <= n < |disk| && disk[n] != contents[n] ==> DirtyFor(bs, n)
  }

  ghost predicate CacheOk(bs: seq<Buf>, disk: seq<Block>, contents: seq<Block>) {
    && |bs| == NBUF && Unique(bs) && Backed(bs, disk, contents)
    && forall i :: 0 <= i < |bs| ==> BufOk(bs[i], disk, contents)
  }

  predicate Holds(b: Buf, dev: int, blockno: int) {
    b.dev == dev && b.blockno == blockno
  }

  predicate Recyclable(b: Buf) {
    b.refcnt == 0 && !b.dirty
  }

  /** Every buffer behind i on the ring, that is used less recently, is referenced or dirty. */
  ghost predicate LeastRecent(bs: seq<Buf>, order: seq<int>, i: int)
    requires InTable(order, |bs|)
  {
    exists k :: 0 <= k < |order| && order[k] == i && forall j :: k < j < |order| ==> !Recyclable(bs[order[j]])
  }

  /** Giving a recyclable buffer to a block that no buffer holds loses nothing. */
  lemma RecycleOk(bs: seq<Buf>, disk: seq<Block>, contents: seq<Block>, i: nat, dev: int, blockno: int)
    requires CacheOk(bs, disk, contents) && i < |bs| && Recyclable(bs[i]) && dev >= 1
    requires forall j :: 0 <= j < |bs| ==> !Holds(bs[j], dev, blockno)
    ensures CacheOk(bs[i := Buf(dev, blockno, false, false, 1, bs[i].data)], disk, contents)
  {
    var cs := bs[i := Buf(dev, blockno, false, false, 1, bs[i].data)];
    forall n | 0 <= n < |disk| && disk[n] != contents[n] ensures DirtyFor(cs, n) {
      assert DirtyFor(bs, n);
      var j :| 0 <= j < |bs| && bs[j].dirty && bs[j].blockno == n;
      assert cs[j].dirty && cs[j].blockno == n;
    }
  }

  /** Reading a block into its buffer. */
  lemma ReadOk(bs: seq<Buf>, disk: seq<Block>, contents: seq<Block>, i: nat)
    requires CacheOk(bs, disk, contents) && i < |bs| && !bs[i].valid && bs[i].dev == ROOTDEV
    requires 0 <= bs[i].blockno < |disk|
    ensures CacheOk(bs[i := bs[i].(valid := true, data := disk[bs[i].blockno])], disk, contents)
  {
    var n := bs[i].blockno;
    var cs := bs[i := bs[i].(valid := true, data := disk[n])];
    forall j | 0 <= j < |bs| ensures !(bs[j].dirty && bs[j].blockno == n) {
      assert BufOk(bs[j], disk, contents);
    }
    assert disk[n] == contents[n];
    forall m | 0 <= m < |disk| && disk[m] != contents[m] ensures DirtyFor(cs, m) {
      assert DirtyFor(bs, m);
      var j :| 0 <= j < |bs| && bs[j].dirty && bs[j].blockno == m;
      assert cs[j].dirty && cs[j].blockno == m;
    }
  }

  /** Changing a buffer's contents and pinning it, or writing it through to the disk. */
  lemma ChangeOk(bs: seq<Buf>, disk: seq<Block>, contents: seq<Block>, i: nat, data: Block, through: bool)
    requires CacheOk(bs, disk, contents) && i < |bs| && bs[i].valid
    ensures 0 <= bs[i].blockno < |disk| == |contents|
    ensures var n := bs[i].blockno;
      CacheOk(bs[i := bs[i].(data := data, dirty := !through)],
              if through then disk[n := data] else disk, contents[n := data])
  {
    var n := bs[i].blockno;
    assert BufOk(bs[i], disk, contents);
    var cs := bs[i := bs[i].(data := data, dirty := !through)];
    var disk', contents' := if through then disk[n := data] else disk, contents[n := data];
    forall m | 0 <= m < |disk| && disk'[m] != contents'[m] ensures DirtyFor(cs, m) {
      if m != n {
        assert DirtyFor(bs, m);
        var j :| 0 <= j < |bs| && bs[j].dirty && bs[j].blockno == m;
        assert cs[j].dirty && cs[j].blockno == m;
      } else {
        assert cs[i].dirty && cs[i].blockno == m;
      }
    }
    forall j | 0 <= j < |cs| ensures BufOk(cs[j], disk', contents') {
      assert BufOk(bs[j], disk, contents);
      if j != i && bs[j].valid {
        assert bs[j].blockno != n;
      }
    }
  }

  /** Reference counts are nobody's contents. */
  lemma CountOk(bs: seq<Buf>, disk: seq<Block>, contents: seq<Block>, i: nat, refcnt: int)
    requires CacheOk(bs, disk, contents) && i < |bs| && refcnt >= 0
    ensures CacheOk(bs[i := bs[i].(refcnt := refcnt)], disk, contents)
  {
    var cs := bs[i := bs[i].(refcnt := refcnt)];
    forall m | 0 <= m < |disk| && disk[m] != contents[m] ensures DirtyFor(cs, m) {
      assert DirtyFor(bs, m);
      var j :| 0 <= j < |bs| && bs[j].dirty && bs[j].blockno == m;
      assert cs[j].dirty && cs[j].blockno == m;
    }
  }

  class BCache {
    const buf: array<Buf>
    const link: array<Link>
    var disk: seq<Block>
    ghost var order: seq<int>
    /** The plain block map that cache and disk together stand for. */
    ghost var contents: seq<Block>

    ghost predicate RingOk()
      reads this, link
    {
      && link.Length == NBUF + 1 && |order| == NBUF && InTable(order, NBUF) && Ring(link[..], order, HEAD)
    }

    /** The ring is a permutation of all buffers, and the cache agrees with the block map. */
    ghost predicate Valid()
      reads this, buf, link
    {
      RingOk() && buf.Length == NBUF && CacheOk(buf[..], disk, contents)
    }

    /** Every buffer is on the ring. */
    lemma AllOnRing(i: nat)
      requires RingOk() && i < NBUF
      ensures i in order
    {
      DistinctBound(order, NBUF);
    }

    /** binit, on zeroed buffers. */
    constructor (disk: seq<Block>)
      ensures Valid() && this.disk == disk && contents == disk && fresh(buf) && fresh(link)
      ensures forall i :: 0 <= i < NBUF ==> buf[i].refcnt == 0 && !buf[i].dirty
    {
      buf := new Buf[NBUF](_ => Buf(0, 0, false, false, 0, []));
      link := new Link[NBUF + 1](_ => Link(HEAD, HEAD));
      this.disk, contents := disk, disk;
      order := [];
      new;
      var b := 0;
      while b < NBUF
        invariant 0 <= b <= NBUF && link.Length == NBUF + 1 && |order| == b && InTable(order, b)
        invariant Ring(link[..], order, HEAD)
        invariant buf.Length == NBUF && CacheOk(buf[..], this.disk, contents)
        invariant forall i :: 0 <= i < NBUF ==> buf[i].refcnt == 0 && !buf[i].dirty
        invariant this.disk == disk && contents == disk
      {
        LinkRing(link[..], order, HEAD, b);
        PutFront(b);
        order := [b] + order;
        b := b + 1;
      }
    }

    /** The four assignments that put a buffer behind the head. */
    method PutFront(x: int)
      requires link.Length == NBUF + 1 && 0 <= x < NBUF && 0 <= link[HEAD].next <= NBUF
      modifies link
      ensures link[..] == LinkFront(old(link[..]), x, HEAD)
    {
      link[x] := link[x].(next := link[HEAD].next);
      link[x] := link[x].(prev := HEAD);
      link[link[HEAD].next] := link[link[HEAD].next].(prev := x);
      link[HEAD] := link[HEAD].(next := x);
    }

    /** bget's first loop: forward from the most recently used buffer. */
    method FindCached(dev: int, blockno: int) returns (i: int)
      requires Valid()
      ensures i == NONE ==> forall j :: 0 <= j < NBUF ==> !Holds(buf[j], dev, blockno)
      ensures i != NONE ==> 0 <= i < NBUF && Holds(buf[i], dev, blockno)
    {
      ghost var k := 0;
      assert Edge(link[..], order, HEAD, 0);
      i := link[HEAD].next;
      while i != HEAD
        invariant 0 <= k <= NBUF && i == Cycle(order, HEAD, k + 1)
        invariant forall j :: 0 <= j < k ==> !Holds(buf[order[j]], dev, blockno)
        decreases NBUF - k
      {
        if Holds(buf[i], dev, blockno) {
          return;
        }
        assert Edge(link[..], order, HEAD, k + 1);
        i := link[i].next;
        k := k + 1;
      }
      forall j | 0 <= j < NBUF ensures !Holds(buf[j], dev, blockno) { AllOnRing(j); }
      i := NONE;
    }

    /** bget's second loop: backward from the least recently used buffer. */
    method FindUnused() returns (i: int, ghost k: nat)
      requires Valid()
      ensures i == NONE ==> forall j :: 0 <= j < NBUF ==> !Recyclable(buf[j])
      ensures i != NONE ==> k < NBUF && i == order[k] && 0 <= i < NBUF && Recyclable(buf[i])
      ensures i != NONE ==> forall j :: k < j < NBUF ==> !Recyclable(buf[order[j]])
    {
      k := NBUF;
      assert Edge(link[..], order, HEAD, NBUF);
      i := link[HEAD].prev;
      while i != HEAD
        invariant 0 <= k <= NBUF && i == Cycle(order, HEAD, k)
        invariant forall j :: k <= j < NBUF ==> !Recyclable(buf[order[j]])
        decreases k
      {
        if Recyclable(buf[i]) {
          return i, k - 1;
        }
        assert Edge(link[..], order, HEAD, k - 1);
        i := link[i].prev;
        k := k - 1;
      }
      forall j | 0 <= j < NBUF ensures !Recyclable(buf[j]) { AllOnRing(j); }
      return NONE, 0;
    }

    /**
      bget: a buffer for the block, cached or recycled.  It fails, which is the panic "no buffers",
      exactly if the block is not cached and every buffer is referenced or dirty; it recycles the
      least recently used of the others.
     */
    method Bget(dev: int, blockno: int) returns (i: int)
      requires Valid() && dev >= 1
      modifies buf
      ensures Valid()
      ensures i == NONE <==> (forall j :: 0 <= j < NBUF ==> !Holds(old(buf[j]), dev, blockno) && !Recyclable(old(buf[j])))
      ensures i == NONE ==> buf[..] == old(buf[..])
      ensures i != NONE ==> 0 <= i < NBUF && Holds(buf[i], dev, blockno)
      ensures i != NONE ==> forall j :: 0 <= j < NBUF && j != i ==> buf[j] == old(buf[j])
      ensures i != NONE && Holds(old(buf[i]), dev, blockno) ==> buf[i] == old(buf[i]).(refcnt := old(buf[i]).refcnt + 1)
      ensures i != NONE && !Holds(old(buf[i]), dev, blockno) ==>
                Recyclable(old(buf[i])) && buf[i].refcnt == 1 && !buf[i].valid
      ensures i != NONE && !Holds(old(buf[i]), dev, blockno) ==> LeastRecent(old(buf[..]), order, i)
    {
      i := FindCached(dev, blockno);
      if i != NONE {
        assert BufOk(buf[..][i], disk, contents);
        CountOk(buf[..], disk, contents, i, buf[i].refcnt + 1);
        buf[i] := buf[i].(refcnt := buf[i].refcnt + 1);
        return;
      }
      ghost var k;
      i, k := FindUnused();
      if i != NONE {
        RecycleOk(buf[..], disk, contents, i, dev, blockno);
        buf[i] := Buf(dev, blockno, false, false, 1, buf[i].data);
      }
    }

    /** bread: the buffer returned holds what the block map says. */
    method Bread(blockno: int) returns (i: int)
      requires Valid() && 0 <= blockno < |disk|
      modifies buf
      ensures Valid()
      ensures i != NONE ==> 0 <= i < NBUF && Holds(buf[i], ROOTDEV, blockno)
      ensures i != NONE ==> buf[i].valid && buf[i].data == contents[blockno]
      ensures i != NONE ==> buf[i].refcnt >= 1 && forall j :: 0 <= j < NBUF && j != i ==> buf[j] == old(buf[j])
      ensures i == NONE <==> (forall j :: 0 <= j < NBUF ==> !Holds(old(buf[j]), ROOTDEV, blockno) && !Recyclable(old(buf[j])))
    {
      i := Bget(ROOTDEV, blockno);
      if i != NONE {
        if !buf[i].valid {
          ReadOk(buf[..], disk, contents, i);
          buf[i] := buf[i].(valid := true, data := disk[buf[i].blockno]);
        }
        assert BufOk(buf[..][i], disk, contents);
      }
    }

    /** Modify a held buffer and pin it with log_write: the block map changes, the disk does not. */
    method ModifyAndLog(i: nat, data: Block)
      requires Valid() && i < NBUF && buf[i].valid && buf[i].refcnt >= 1
      modifies buf, this`contents
      ensures Valid() && 0 <= buf[i].blockno < |old(contents)| && contents == old(contents)[buf[i].blockno := data]
      ensures buf[i] == old(buf[i]).(data := data, dirty := true)
      ensures forall j :: 0 <= j < NBUF && j != i ==> buf[j] == old(buf[j])
    {
      ChangeOk(buf[..], disk, contents, i, data, false);
      contents := contents[buf[i].blockno := data];
      buf[i] := buf[i].(data := data);
      buf[i] := buf[i].(dirty := true);
      assert buf[..] == old(buf[..])[i := old(buf[i]).(data := data, dirty := true)];
    }

    /** Modify a held buffer and bwrite it: the block map and the disk change. */
    method ModifyAndWrite(i: nat, data: Block)
      requires Valid() && i < NBUF && buf[i].valid && buf[i].refcnt >= 1
      modifies buf, this`contents, this`disk
      ensures Valid() && 0 <= buf[i].blockno < |old(disk)| == |old(contents)|
      ensures contents == old(contents)[buf[i].blockno := data] && disk == old(disk)[buf[i].blockno := data]
      ensures buf[i] == old(buf[i]).(data := data, dirty := false)
      ensures forall j :: 0 <= j < NBUF && j != i ==> buf[j] == old(buf[j])
    {
      ChangeOk(buf[..], disk, contents, i, data, true);
      contents := contents[buf[i].blockno := data];
      buf[i] := buf[i].(data := data);
      disk := disk[buf[i].blockno := buf[i].data];
      buf[i] := buf[i].(dirty := false);
      assert buf[..] == old(buf[..])[i := old(buf[i]).(data := data, dirty := false)];
    }

    /** brelse: the last reference moves the buffer to the front of the ring. */
    method Brelse(x: nat)
      requires Valid() && x < NBUF && buf[x].refcnt >= 1
      modifies buf, link, this`order
      ensures Valid() && buf[..] == old(buf[..])[x := old(buf[x]).(refcnt := old(buf[x]).refcnt - 1)]
      ensures order == if buf[x].refcnt == 0 then [x] + Remove(old(order), x) else old(order)
    {
      CountOk(buf[..], disk, contents, x, buf[x].refcnt - 1);
      buf[x] := buf[x].(refcnt := buf[x].refcnt - 1);
      if buf[x].refcnt == 0 {
        MoveFront(x);
      }
    }

    /** brelse's relinking. */
    method MoveFront(x: nat)
      requires RingOk() && x < NBUF
      modifies link, this`order
      ensures RingOk() && order == [x] + Remove(old(order), x)
    {
      AllOnRing(x);
      ghost var j :| 0 <= j < NBUF && order[j] == x;
      ghost var l0 := link[..];
      UnlinkRing(l0, order, HEAD, j);
      RemoveAt(order, x, j);
      hide Ring, Remove;
      link[link[x].next] := link[link[x].next].(prev := link[x].prev);
      link[link[x].prev] := link[link[x].prev].(next := link[x].next);
      assert link[..] == Unlink(l0, x);
      LinkRing(link[..], CutAt(order, j), HEAD, x);
      PutFront(x);
      order := [x] + CutAt(order, j);
    }
  }
}
