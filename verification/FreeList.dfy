/**
  The free list of umalloc.c as a list of blocks in address order.  Addresses count header-sized
  units.  The list starts with the empty block at base, and no two blocks touch.
 */
module FreeList {

  datatype Blk = Blk(addr: int, size: int)

  /** Unit u belongs to block b. */
  predicate Has(b: Blk, u: int) {
    b.addr <= u < b.addr + b.size
  }

  /** Address order with a gap between any two blocks; only base is empty. */
  ghost predicate Ordered(fl: seq<Blk>, base: int) {
    && |fl| >= 1 && fl[0] == Blk(base, 0)
    && (forall i :: 1 <= i < |fl| ==> fl[i].size >= 1)
    && (forall i, j :: 0 <= i < j < |fl| ==> fl[i].addr + fl[i].size < fl[j].addr)
  }

  /** Unit u belongs to one of the blocks. */
  ghost predicate Within(bs: seq<Blk>, u: int) {
    exists i :: 0 <= i < |bs| && Has(bs[i], u)
  }

  /** b lies strictly between the blocks k and k + 1 of the list, though it may touch them. */
  ghost predicate Fits(fl: seq<Blk>, k: nat, b: Blk)
    requires k < |fl|
  {
    && b.size >= 1 && fl[k].addr < b.addr && fl[k].addr + fl[k].size <= b.addr
    && (k + 1 < |fl| ==> b.addr + b.size <= fl[k+1].addr)
  }

  /** The list with b put in behind block k and joined with the neighbours it touches. */
  ghost function Merge(fl: seq<Blk>, k: nat, b: Blk): (r: seq<Blk>)
    requires k < |fl|
  {
    var up := k + 1 < |fl| && b.addr + b.size == fl[k+1].addr;
    var c := if up then Blk(b.addr, b.size + fl[k+1].size) else b;
    var rest := if up then fl[k+2..] else fl[k+1..];
    if fl[k].addr + fl[k].size == b.addr then fl[..k] + [Blk(fl[k].addr, fl[k].size + c.size)] + rest
    else fl[..k+1] + [c] + rest
  }

  /** Where block i of the merged list comes from. */
  ghost function MergeIndex(fl: seq<Blk>, k: nat, b: Blk, i: int): int
    requires k < |fl|
  {
    var up := k + 1 < |fl| && b.addr + b.size == fl[k+1].addr;
    var down := fl[k].addr + fl[k].size == b.addr;
    i - (if down then 0 else 1) + if up then 1 else 0
  }

  lemma MergeAt(fl: seq<Blk>, k: nat, b: Blk)
    requires k < |fl|
    ensures var r := Merge(fl, k, b);
      var up := k + 1 < |fl| && b.addr + b.size == fl[k+1].addr;
      var down := fl[k].addr + fl[k].size == b.addr;
      && |r| == |fl| + (if down then 0 else 1) - (if up then 1 else 0)
      && (forall i :: 0 <= i < k ==> r[i] == fl[i])
      && (down ==> r[k] == Blk(fl[k].addr, fl[k].size + b.size + if up then fl[k+1].size else 0))
      && (!down ==> r[k] == fl[k] && r[k+1] == Blk(b.addr, b.size + if up then fl[k+1].size else 0))
      && (forall i :: (if down then k else k + 1) < i < |r| ==> r[i] == fl[MergeIndex(fl, k, b, i)])
  {
  }

  lemma MergeOrdered(fl: seq<Blk>, base: int, k: nat, b: Blk)
    requires Ordered(fl, base) && k < |fl| && Fits(fl, k, b)
    ensures Ordered(Merge(fl, k, b), base)
  {
    hide Merge;
    MergeAt(fl, k, b);
    var r := Merge(fl, k, b);
    forall i, j | 0 <= i < j < |r| ensures r[i].addr + r[i].size < r[j].addr {
    }
  }

  /** Merging frees exactly the units of b, and no others change hands. */
  lemma MergeUnits(fl: seq<Blk>, base: int, k: nat, b: Blk, u: int)
    requires Ordered(fl, base) && k < |fl| && Fits(fl, k, b)
    ensures Within(Merge(fl, k, b), u) <==> Within(fl, u) || Has(b, u)
  {
    hide Merge;
    MergeAt(fl, k, b);
    var r := Merge(fl, k, b);
    var up := k + 1 < |fl| && b.addr + b.size == fl[k+1].addr;
    var m := if fl[k].addr + fl[k].size == b.addr then k else k + 1;
    if Has(b, u) {
      assert Has(r[m], u);
    } else if Within(fl, u) {
      var i :| 0 <= i < |fl| && Has(fl[i], u);
      if i <= k { assert Has(r[i], u); }
      else if up && i == k + 1 { assert Has(r[m], u); }
      else {
        var j := i + m - k - if up then 1 else 0;
        assert MergeIndex(fl, k, b, j) == i && Has(r[j], u);
      }
    }
  }

  // ----- canonical form -----

  /** The end of a block is never free: blocks do not touch. */
  lemma EndNotFree(fl: seq<Blk>, base: int, i: nat)
    requires Ordered(fl, base) && i < |fl|
    ensures !Within(fl, fl[i].addr + fl[i].size)
  {
    forall j | 0 <= j < |fl| ensures !Has(fl[j], fl[i].addr + fl[i].size) {
      assert j < i ==> fl[j].addr + fl[j].size < fl[i].addr;
      assert j > i ==> fl[i].addr + fl[i].size < fl[j].addr;
    }
  }

  /** Lists that agree before index k and free the same units start their block k no later than each other. */
  lemma StartNoLater(a: seq<Blk>, b: seq<Blk>, base: int, k: nat)
    requires Ordered(a, base) && Ordered(b, base) && 1 <= k < |a| && k <= |b| && a[..k] == b[..k]
    requires forall u :: Within(a, u) <==> Within(b, u)
    ensures k < |b| && b[k].addr <= a[k].addr
  {
    var u := a[k].addr;
    assert Has(a[k], u);
    forall i | 0 <= i < k ensures !Has(b[i], u) {
      assert a[..k][i] == b[..k][i];
      assert a[i].addr + a[i].size < a[k].addr;
    }
    assert Within(b, u);
    var j :| 0 <= j < |b| && Has(b[j], u);
    assert j > k ==> b[k].addr + b[k].size < b[j].addr;
  }

  /** Blocks that start alike end alike. */
  lemma SameEnd(a: seq<Blk>, b: seq<Blk>, base: int, k: nat)
    requires Ordered(a, base) && Ordered(b, base) && 1 <= k < |a| && k < |b| && a[k].addr == b[k].addr
    requires forall u :: Within(a, u) <==> Within(b, u)
    ensures a[k].size <= b[k].size
  {
    EndNotFree(b, base, k);
    if a[k].size > b[k].size {
      assert Has(a[k], b[k].addr + b[k].size);
      assert false;
    }
  }

  /**
    Since no two blocks touch, the list is determined by which units are free; in particular the
    order in which blocks are freed makes no difference.
   */
  lemma {:induction false} Canonical(a: seq<Blk>, b: seq<Blk>, base: int, k: nat)
    requires Ordered(a, base) && Ordered(b, base) && (forall u :: Within(a, u) <==> Within(b, u))
    requires 1 <= k <= |a| && k <= |b| && a[..k] == b[..k]
    ensures a == b
    decreases |a| - k
  {
    if k < |a| {
      StartNoLater(a, b, base, k);
      StartNoLater(b, a, base, k);
      SameEnd(a, b, base, k);
      SameEnd(b, a, base, k);
      assert a[..k+1] == a[..k] + [a[k]] && b[..k+1] == b[..k] + [b[k]];
      Canonical(a, b, base, k + 1);
    } else if k < |b| {
      StartNoLater(b, a, base, k);
    } else {
      assert a == a[..k] && b == b[..k];
    }
  }

  // ----- taking a block out -----

  /** The n units that malloc takes from the tail of block k. */
  function Taken(fl: seq<Blk>, k: nat, n: int): Blk
    requires k < |fl|
  {
    Blk(fl[k].addr + fl[k].size - n, n)
  }

  /** The list without them. */
  ghost function Take(fl: seq<Blk>, k: nat, n: int): (r: seq<Blk>)
    requires k < |fl|
  {
    if fl[k].size == n then fl[..k] + fl[k+1..] else fl[k := Blk(fl[k].addr, fl[k].size - n)]
  }

  lemma TakeOrdered(fl: seq<Blk>, base: int, k: nat, n: int)
    requires Ordered(fl, base) && 1 <= k < |fl| && 1 <= n <= fl[k].size
    ensures Ordered(Take(fl, k, n), base)
  {
    var r := Take(fl, k, n);
    assert forall i :: 0 <= i < |r| ==> r[i].addr == fl[if i >= k && fl[k].size == n then i + 1 else i].addr;
  }

  lemma TakeAt(fl: seq<Blk>, k: nat, n: int)
    requires k < |fl|
    ensures var r := Take(fl, k, n);
      if fl[k].size == n then |r| == |fl| - 1 && forall i :: 0 <= i < |r| ==> r[i] == fl[if i < k then i else i + 1]
      else |r| == |fl| && forall i :: 0 <= i < |r| ==> r[i] == if i == k then Blk(fl[k].addr, fl[k].size - n) else fl[i]
  {
  }

  /** Freeing right away what was taken gives back the very same list. */
  lemma MergeTaken(fl: seq<Blk>, base: int, k: nat, n: int)
    requires Ordered(fl, base) && 1 <= k < |fl| && 1 <= n <= fl[k].size
    ensures var r, j := Take(fl, k, n), if fl[k].size == n then k - 1 else k;
      j < |r| && Fits(r, j, Taken(fl, k, n)) && Merge(r, j, Taken(fl, k, n)) == fl
  {
    hide Take, Merge;
    TakeAt(fl, k, n);
    assert k + 1 < |fl| ==> fl[k].addr + fl[k].size < fl[k+1].addr;
    assert fl[k-1].addr + fl[k-1].size < fl[k].addr;
    var r, j, t := Take(fl, k, n), if fl[k].size == n then k - 1 else k, Taken(fl, k, n);
    MergeAt(r, j, t);
    var m := Merge(r, j, t);
    assert j + 1 < |r| ==> r[j+1] == fl[k+1];
    assert |m| == |fl|;
    forall i | 0 <= i < |fl| ensures m[i] == fl[i] {
      if i > k { assert m[i] == r[MergeIndex(r, j, t, i)]; }
    }
  }

  /** A block that fits between two others shares no unit with the list. */
  lemma FitsApart(fl: seq<Blk>, base: int, k: nat, b: Blk, u: int)
    requires Ordered(fl, base) && k < |fl| && Fits(fl, k, b)
    ensures !(Within(fl, u) && Has(b, u))
  {
    forall i | 0 <= i < |fl| && Has(fl[i], u) ensures !Has(b, u) {
      if i < k { assert fl[i].addr + fl[i].size < fl[k].addr; }
      if i > k + 1 { assert fl[k+1].addr + fl[k+1].size < fl[i].addr; }
    }
  }

  /** The units taken were free and no longer are; the others did not change hands. */
  lemma TakeUnits(fl: seq<Blk>, base: int, k: nat, n: int, u: int)
    requires Ordered(fl, base) && 1 <= k < |fl| && 1 <= n <= fl[k].size
    ensures Within(fl, u) <==> Within(Take(fl, k, n), u) || Has(Taken(fl, k, n), u)
    ensures !(Within(Take(fl, k, n), u) && Has(Taken(fl, k, n), u))
  {
    hide Take, Merge, Within, Has;
    MergeTaken(fl, base, k, n);
    TakeOrdered(fl, base, k, n);
    var j := if fl[k].size == n then k - 1 else k;
    MergeUnits(Take(fl, k, n), base, j, Taken(fl, k, n), u);
    FitsApart(Take(fl, k, n), base, j, Taken(fl, k, n), u);
  }

  // ----- the circular list in memory -----

  datatype Header = Header(ptr: int, size: int)

  /** The cyclic successor of index i in a list of length n. */
  function Next(i: nat, n: nat): nat {
    if i + 1 < n then i + 1 else 0
  }

  ghost predicate RingAt(hdr: map<int, Header>, fl: seq<Blk>, i: nat)
    requires i < |fl|
  {
    fl[i].addr in hdr && hdr[fl[i].addr] == Header(fl[Next(i, |fl|)].addr, fl[i].size)
  }

  /** The headers in memory link the blocks of fl into a ring: one wrap, from the highest to base. */
  ghost predicate Ring(hdr: map<int, Header>, fl: seq<Blk>) {
    forall i :: 0 <= i < |fl| ==> RingAt(hdr, fl, i)
  }

  /** free's pointer updates around the predecessor p it has found for bp. */
  function LinkFree(hdr: map<int, Header>, p: int, bp: int): (r: map<int, Header>)
    requires p in hdr && bp in hdr && (bp + hdr[bp].size == hdr[p].ptr ==> hdr[p].ptr in hdr) && p != bp
  {
    var nx := hdr[p].ptr;
    var h := hdr[bp := if bp + hdr[bp].size == nx then Header(hdr[nx].ptr, hdr[bp].size + hdr[nx].size)
                       else Header(nx, hdr[bp].size)];
    h[p := if p + h[p].size == bp then Header(h[bp].ptr, h[p].size + h[bp].size) else Header(bp, h[p].size)]
  }

  /** What free's pointer updates do to each header. */
  lemma LinkFreeAt(hdr: map<int, Header>, fl: seq<Blk>, base: int, k: nat, b: Blk)
    requires Ordered(fl, base) && Ring(hdr, fl) && k < |fl| && Fits(fl, k, b) && b.addr in hdr
    requires hdr[b.addr].size == b.size
    ensures fl[k].addr in hdr && fl[k].addr != b.addr
    ensures b.addr + b.size == hdr[fl[k].addr].ptr ==> hdr[fl[k].addr].ptr in hdr
    ensures var r := LinkFree(hdr, fl[k].addr, b.addr);
      var up := k + 1 < |fl| && b.addr + b.size == fl[k+1].addr;
      var down := fl[k].addr + fl[k].size == b.addr;
      var size := b.size + if up then fl[k+1].size else 0;
      var next := fl[if up then Next(k + 1, |fl|) else Next(k, |fl|)].addr;
      && r.Keys == hdr.Keys
      && (forall a :: a in hdr && a != fl[k].addr && a != b.addr ==> r[a] == hdr[a])
      && (down ==> r[fl[k].addr] == Header(next, fl[k].size + size))
      && (!down ==> r[fl[k].addr] == Header(b.addr, fl[k].size) && r[b.addr] == Header(next, size))
  {
    assert RingAt(hdr, fl, k);
    assert fl[0].addr < b.addr;
    if k + 1 < |fl| { assert RingAt(hdr, fl, k + 1); }
  }

  /** Away from the joint the ring is as it was. */
  lemma FreeLinksAway(hdr: map<int, Header>, fl: seq<Blk>, base: int, k: nat, b: Blk, i: nat)
    requires Ordered(fl, base) && Ring(hdr, fl) && k < |fl| && Fits(fl, k, b) && b.addr in hdr
    requires hdr[b.addr].size == b.size
    requires i < |Merge(fl, k, b)| && fl[k].addr in hdr && fl[k].addr != b.addr
    requires b.addr + b.size == hdr[fl[k].addr].ptr ==> hdr[fl[k].addr].ptr in hdr
    requires i < k || i > if fl[k].addr + fl[k].size == b.addr then k else k + 1
    ensures RingAt(LinkFree(hdr, fl[k].addr, b.addr), Merge(fl, k, b), i)
  {
    hide Merge, LinkFree;
    MergeAt(fl, k, b);
    LinkFreeAt(hdr, fl, base, k, b);
    var r := Merge(fl, k, b);
    if i < k {
      assert fl[i].addr < fl[k].addr < b.addr;
      assert RingAt(hdr, fl, i);
    } else {
      var j := MergeIndex(fl, k, b, i);
      assert fl[k].addr < b.addr < fl[j].addr;
      assert r[i] == fl[j] && RingAt(hdr, fl, j);
      assert i + 1 < |r| ==> r[i+1] == fl[j+1];
    }
  }

  /** At the joint the freed block, or what it was merged into, carries the links. */
  lemma FreeLinksJoint(hdr: map<int, Header>, fl: seq<Blk>, base: int, k: nat, b: Blk, i: nat)
    requires Ordered(fl, base) && Ring(hdr, fl) && k < |fl| && Fits(fl, k, b) && b.addr in hdr
    requires hdr[b.addr].size == b.size
    requires i < |Merge(fl, k, b)| && fl[k].addr in hdr && fl[k].addr != b.addr
    requires b.addr + b.size == hdr[fl[k].addr].ptr ==> hdr[fl[k].addr].ptr in hdr
    requires k <= i <= if fl[k].addr + fl[k].size == b.addr then k else k + 1
    ensures RingAt(LinkFree(hdr, fl[k].addr, b.addr), Merge(fl, k, b), i)
  {
    hide Merge, LinkFree;
    MergeAt(fl, k, b);
    LinkFreeAt(hdr, fl, base, k, b);
    var r := Merge(fl, k, b);
    if i + 1 < |r| && (i == k + 1 || fl[k].addr + fl[k].size == b.addr) {
      assert r[i+1] == fl[MergeIndex(fl, k, b, i + 1)];
    }
  }

  /** free leaves a ring of exactly the merged list. */
  lemma FreeLinks(hdr: map<int, Header>, fl: seq<Blk>, base: int, k: nat, b: Blk)
    requires Ordered(fl, base) && Ring(hdr, fl) && k < |fl| && Fits(fl, k, b) && b.addr in hdr
    requires hdr[b.addr].size == b.size
    ensures fl[k].addr in hdr && fl[k].addr != b.addr
    ensures b.addr + b.size == hdr[fl[k].addr].ptr ==> hdr[fl[k].addr].ptr in hdr
    ensures Ring(LinkFree(hdr, fl[k].addr, b.addr), Merge(fl, k, b))
  {
    hide Merge, LinkFree, RingAt;
    LinkFreeAt(hdr, fl, base, k, b);
    forall i | 0 <= i < |Merge(fl, k, b)| ensures RingAt(LinkFree(hdr, fl[k].addr, b.addr), Merge(fl, k, b), i) {
      if k <= i <= (if fl[k].addr + fl[k].size == b.addr then k else k + 1) {
        FreeLinksJoint(hdr, fl, base, k, b, i);
      } else {
        FreeLinksAway(hdr, fl, base, k, b, i);
      }
    }
  }

  /** malloc's pointer updates when it takes n units from p, whose predecessor is prevp. */
  function LinkTake(hdr: map<int, Header>, prevp: int, p: int, n: int): (r: map<int, Header>)
    requires prevp in hdr && p in hdr
  {
    if hdr[p].size == n then hdr[prevp := Header(hdr[p].ptr, hdr[prevp].size)]
    else
      var h := hdr[p := Header(hdr[p].ptr, hdr[p].size - n)];
      var q := p + h[p].size;
      h[q := Header(if q in h then h[q].ptr else 0, n)]
  }

  lemma TakeLinksAt(hdr: map<int, Header>, fl: seq<Blk>, base: int, k: nat, n: int, i: nat)
    requires Ordered(fl, base) && Ring(hdr, fl) && 1 <= k < |fl| && 1 <= n <= fl[k].size && i < |Take(fl, k, n)|
    requires fl[k-1].addr in hdr && fl[k].addr in hdr
    ensures RingAt(LinkTake(hdr, fl[k-1].addr, fl[k].addr, n), Take(fl, k, n), i)
  {
    hide Take;
    TakeAt(fl, k, n);
    assert RingAt(hdr, fl, k - 1) && RingAt(hdr, fl, k);
    if fl[k].size == n {
      assert RingAt(hdr, fl, if i < k then i else i + 1);
      assert i < k - 1 ==> fl[i].addr < fl[k-1].addr;
    } else {
      assert RingAt(hdr, fl, i);
      assert i < k ==> fl[i].addr < fl[k].addr;
      assert i > k ==> fl[k].addr + fl[k].size < fl[i].addr;
    }
  }

  /** malloc leaves a ring of exactly the list without the taken units. */
  lemma TakeLinks(hdr: map<int, Header>, fl: seq<Blk>, base: int, k: nat, n: int)
    requires Ordered(fl, base) && Ring(hdr, fl) && 1 <= k < |fl| && 1 <= n <= fl[k].size
    ensures fl[k-1].addr in hdr && fl[k].addr in hdr
    ensures Ring(LinkTake(hdr, fl[k-1].addr, fl[k].addr, n), Take(fl, k, n))
  {
    assert RingAt(hdr, fl, k - 1) && RingAt(hdr, fl, k);
    hide Take, LinkTake, RingAt;
    var h, r := LinkTake(hdr, fl[k-1].addr, fl[k].addr, n), Take(fl, k, n);
    forall i | 0 <= i < |r| ensures RingAt(h, r, i) {
      TakeLinksAt(hdr, fl, base, k, n, i);
    }
  }
}
