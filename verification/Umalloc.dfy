/**
  umalloc.c: the circular first-fit allocator with coalescing.  Memory is a map from addresses, in
  header-sized units, to headers; only the headers of free and of live blocks matter.
 */
module Umalloc {
  import opened FreeList

  const NULL := 0
  const HEADER_BYTES := 8
  const MIN_CORE := 4096

  // ----- request sizes -----

  /** malloc's unit count for nbytes, in unsigned 32-bit arithmetic: payload units plus a header. */
  function NUnits(nbytes: int): int {
    (nbytes + HEADER_BYTES - 1) % 0x1_0000_0000 / HEADER_BYTES + 1
  }

  /** What morecore asks for. */
  function CoreUnits(nunits: int): int {
    if nunits < MIN_CORE then MIN_CORE else nunits
  }

  /** The argument that reaches sbrk, which takes an int. */
  function SbrkBytes(nu: int): int {
    var u := nu * HEADER_BYTES % 0x1_0000_0000;
    if u < 0x8000_0000 then u else u - 0x1_0000_0000
  }

  /** The largest request that survives all of malloc's arithmetic. */
  const MAX_REQUEST := 0x7fff_fff0

  /**
    A request is computed correctly, the block being large enough and sbrk being asked for as many
    units as the new block will claim, exactly up to MAX_REQUEST bytes.
   */
  lemma RequestExact(nbytes: int)
    requires 0 <= nbytes < 0x1_0000_0000
    ensures nbytes <= MAX_REQUEST <==>
      && (NUnits(nbytes) - 1) * HEADER_BYTES >= nbytes
      && SbrkBytes(CoreUnits(NUnits(nbytes))) == CoreUnits(NUnits(nbytes)) * HEADER_BYTES
  {
  }

  /** The largest request whose unit count does not wrap around. */
  const LAST_UNWRAPPED := 0xffff_fff8

  lemma UnitsExact(nbytes: int)
    requires 0 <= nbytes < 0x1_0000_0000
    ensures NUnits(nbytes) >= 1 && ((NUnits(nbytes) - 1) * HEADER_BYTES >= nbytes <==> nbytes <= LAST_UNWRAPPED)
  {
  }

  /** The failing family begins with a request that makes sbrk shrink the process. */
  lemma RequestTooLarge()
    ensures SbrkBytes(CoreUnits(NUnits(MAX_REQUEST + 1))) < 0
    ensures (NUnits(0xffff_ffff) - 1) * HEADER_BYTES == 0
  {
  }

  // ----- blocks handed out -----

  ghost predicate InLive(live: map<int, int>, u: int) {
    exists a :: a in live && a <= u < a + live[a]
  }

  /** Every live block has a header with its size, lies above base and below the break. */
  ghost predicate LiveOk(hdr: map<int, Header>, live: map<int, int>, base: int, brk: int) {
    forall a :: a in live ==> base < a && live[a] >= 1 && a in hdr && hdr[a].size == live[a] && a + live[a] <= brk
  }

  ghost predicate LiveApart(live: map<int, int>) {
    forall a, b :: a in live && b in live && a < b ==> a + live[a] <= b
  }

  ghost predicate Clear(fl: seq<Blk>, a: int, size: int) {
    forall i :: 0 <= i < |fl| ==> a + size <= fl[i].addr || fl[i].addr + fl[i].size <= a
  }

  ghost predicate FreeApart(fl: seq<Blk>, live: map<int, int>) {
    forall a :: a in live ==> Clear(fl, a, live[a])
  }

  ghost predicate Below(fl: seq<Blk>, brk: int) {
    forall i :: 0 <= i < |fl| ==> fl[i].addr + fl[i].size <= brk
  }

  /** Every unit obtained from sbrk is in a free or a live block, and no other unit is. */
  ghost predicate Conserved(cores: seq<Blk>, fl: seq<Blk>, live: map<int, int>) {
    forall u :: Within(cores, u) <==> Within(fl, u) || InLive(live, u)
  }

  /** A block apart from the whole list fits behind the last block below it. */
  lemma ClearFits(fl: seq<Blk>, base: int, b: Blk) returns (k: nat)
    requires Ordered(fl, base) && base < b.addr && b.size >= 1 && Clear(fl, b.addr, b.size)
    ensures k < |fl| && Fits(fl, k, b)
  {
    k := 0;
    while k + 1 < |fl| && fl[k+1].addr < b.addr
      invariant k < |fl| && fl[k].addr < b.addr
    {
      k := k + 1;
    }
  }

  /** Merging keeps other blocks apart. */
  lemma MergeClear(fl: seq<Blk>, base: int, k: nat, b: Blk, a: int, size: int)
    requires Ordered(fl, base) && k < |fl| && Fits(fl, k, b) && size >= 1 && Clear(fl, a, size)
    requires a + size <= b.addr || b.addr + b.size <= a
    ensures Clear(Merge(fl, k, b), a, size)
  {
    hide Merge;
    MergeAt(fl, k, b);
  }

  lemma MergeBelow(fl: seq<Blk>, k: nat, b: Blk, brk: int)
    requires k < |fl| && Fits(fl, k, b) && Below(fl, brk) && b.addr + b.size <= brk
    ensures Below(Merge(fl, k, b), brk)
  {
    hide Merge;
    MergeAt(fl, k, b);
  }

  /** The steps from index i round the ring to index k. */
  ghost function Steps(i: nat, k: nat, n: nat): (r: int)
    ensures i < n ==> r >= 0
  {
    if i <= k then k - i else n - i + k
  }

  /** Everything from index start round to just before index i is smaller than n. */
  ghost predicate Scanned(fl: seq<Blk>, start: nat, i: nat, n: int) {
    forall j :: 0 <= j < |fl| && Steps(start, j, |fl|) < Steps(start, i, |fl|) ==> fl[j].size < n
  }

  ghost predicate HasFit(fl: seq<Blk>, n: int) {
    exists j :: 0 <= j < |fl| && fl[j].size >= n
  }

  /** k is the first block of n units or more that a walk round the ring from behind index fi meets. */
  ghost predicate FirstFrom(fl: seq<Blk>, fi: nat, k: nat, n: int) {
    1 <= k < |fl| && fl[k].size >= n && Scanned(fl, Next(fi, |fl|), k, n)
  }

  /** What is left of the list, and the address, if n units are cut off the end of the first block that fits. */
  ghost predicate CutFirst(fl: seq<Blk>, fi: nat, n: int, r: seq<Blk>, a: int) {
    exists k: nat :: FirstFrom(fl, fi, k, n) && r == Take(fl, k, n) && a == Taken(fl, k, n).addr
  }

  lemma ScanNext(fl: seq<Blk>, fi: nat, i: nat, n: int)
    requires fi < |fl| && i < |fl| && Scanned(fl, Next(fi, |fl|), i, n) && fl[i].size < n
    ensures i != fi ==> Scanned(fl, Next(fi, |fl|), Next(i, |fl|), n) && Steps(Next(i, |fl|), fi, |fl|) < Steps(i, fi, |fl|)
    ensures i == fi ==> forall j :: 0 <= j < |fl| ==> fl[j].size < n
  {
  }

  lemma ScanStart(fl: seq<Blk>, i: nat, n: int)
    requires i < |fl|
    ensures Scanned(fl, i, i, n)
  {
  }

  lemma StepsDown(i: nat, g: nat, n: nat)
    requires i < n && g < n
    ensures i != g ==> 0 <= Steps(Next(i, n), g, n) < Steps(i, g, n)
  {
  }

  lemma RingGet(hdr: map<int, Header>, fl: seq<Blk>, base: int, i: nat, fi: nat)
    requires Ordered(fl, base) && Ring(hdr, fl) && i < |fl| && fi < |fl|
    ensures RingAt(hdr, fl, i) && RingAt(hdr, fl, Next(i, |fl|))
    ensures fl[i].addr == fl[fi].addr <==> i == fi
    ensures fl[0].size == 0 && fl[i].addr >= base
  {
    assert i > 0 ==> fl[0].addr + fl[0].size < fl[i].addr;
    assert i < fi ==> fl[i].addr + fl[i].size < fl[fi].addr;
    assert fi < i ==> fl[fi].addr + fl[fi].size < fl[i].addr;
  }

  /** The block that new memory ends up in is at least as large as the memory. */
  lemma MergedBig(fl: seq<Blk>, base: int, k: nat, b: Blk) returns (g: nat)
    requires Ordered(fl, base) && k < |fl| && Fits(fl, k, b)
    ensures g < |Merge(fl, k, b)| && Merge(fl, k, b)[g].size >= b.size && (g == k || g == Next(k, |Merge(fl, k, b)|))
  {
    hide Merge;
    MergeAt(fl, k, b);
    g := if fl[k].addr + fl[k].size == b.addr then k else k + 1;
  }

  class Heap {
    const base: int
    var hdr: map<int, Header>
    var freep: int
    var brk: int
    ghost var fl: seq<Blk>
    ghost var fi: nat
    ghost var live: map<int, int>
    ghost var cores: seq<Blk>

    /** The free list: an address-ordered ring through base with one wrap, no two blocks touching. */
    ghost predicate FreeOk()
      reads this
    {
      Ordered(fl, base) && Ring(hdr, fl) && fi < |fl| && fl[fi].addr == freep && base > NULL
    }

    ghost predicate Valid()
      reads this
    {
      && FreeOk() && Below(fl, brk) && base < brk
      && LiveOk(hdr, live, base, brk) && LiveApart(live) && FreeApart(fl, live)
      && Conserved(cores, fl, live)
    }

    /** free's search round the ring for the block below bp. */
    method FindPredecessor(bp: int, ghost k: nat, ghost b: Blk) returns (p: int)
      requires FreeOk() && k < |fl| && Fits(fl, k, b) && b.addr == bp
      ensures p == fl[k].addr
    {
      hide Ordered, Fits;
      p := freep;
      ghost var i: nat := fi;
      assert RingAt(hdr, fl, i);
      while !(bp > p && bp < hdr[p].ptr)
        invariant i < |fl| && p == fl[i].addr && RingAt(hdr, fl, i)
        decreases Steps(i, k, |fl|)
      {
        ExitAtPredecessor(fl, base, b, k, i);
        if p >= hdr[p].ptr && (bp > p || bp < hdr[p].ptr) {
          break;
        }
        p := hdr[p].ptr;
        i := Next(i, |fl|);
        assert RingAt(hdr, fl, i);
      }
      ExitAtPredecessor(fl, base, b, k, i);
    }

    /** free, from the search for the predecessor on. */
    method InsertFree(bp: int) returns (ghost k: nat)
      requires FreeOk() && bp in hdr && hdr[bp].size >= 1 && base < bp && Clear(fl, bp, hdr[bp].size)
      modifies this`hdr, this`freep, this`fl, this`fi
      ensures FreeOk() && k < |old(fl)| && Fits(old(fl), k, Blk(bp, old(hdr)[bp].size))
      ensures fl == Merge(old(fl), k, Blk(bp, old(hdr)[bp].size)) && fi == k
      ensures hdr.Keys == old(hdr).Keys
      ensures forall a :: a in hdr && a != bp && a != old(fl)[k].addr ==> hdr[a] == old(hdr)[a]
    {
      hide Ordered, Fits, Ring, Merge, Clear;
      ghost var b, hdr0 := Blk(bp, hdr[bp].size), hdr;
      k := ClearFits(fl, base, b);
      var p := FindPredecessor(bp, k, b);
      FreeLinks(hdr, fl, base, k, b);
      LinkFreeAt(hdr, fl, base, k, b);
      MergeOrdered(fl, base, k, b);
      MergeAt(fl, k, b);
      var nx := hdr[p].ptr;
      if bp + hdr[bp].size == nx {
        hdr := hdr[bp := Header(hdr[nx].ptr, hdr[bp].size + hdr[nx].size)];
      } else {
        hdr := hdr[bp := Header(nx, hdr[bp].size)];
      }
      if p + hdr[p].size == bp {
        hdr := hdr[p := Header(hdr[bp].ptr, hdr[p].size + hdr[bp].size)];
      } else {
        hdr := hdr[p := Header(bp, hdr[p].size)];
      }
      assert hdr == LinkFree(hdr0, p, bp);
      freep := p;
      fi, fl := k, Merge(fl, k, b);
    }

    /** Before the first call nothing is set up; afterwards the heap is valid. */
    ghost predicate Ok()
      reads this
    {
      if freep == NULL then fl == [] && live == map[] && cores == [] && base in hdr && NULL < base < brk
      else Valid()
    }

    constructor (base: int, brk: int)
      requires NULL < base < brk
      ensures Ok() && this.base == base && this.brk == brk && live == map[] && cores == []
    {
      this.base, this.brk, freep := base, brk, NULL;
      hdr := map[base := Header(NULL, 0)];
      fl, fi, live, cores := [], 0, map[], [];
    }

    /** free of a live block: its units become free, merged with any neighbour they touch. */
    method Free(ap: int)
      requires Ok() && ap - 1 in live
      modifies this`hdr, this`freep, this`fl, this`fi, this`live
      ensures Ok() && freep != NULL && live == old(live) - {ap - 1}
      ensures forall u :: Within(fl, u) <==> Within(old(fl), u) || ap - 1 <= u < ap - 1 + old(live)[ap - 1]
    {
      var bp := ap - 1;
      ghost var hdr0, fl0, live0, b := hdr, fl, live, Blk(bp, live[bp]);
      ghost var k := InsertFree(bp);
      live := live - {bp};
      FreeKeeps(hdr0, hdr, fl0, live0, cores, base, brk, k, b);
    }

    /** morecore: core is what sbrk returns, -1 or the start of the new memory. */
    method Morecore(nunits: int, core: int) returns (p: int, ghost g: nat)
      requires freep != NULL && Valid() && 1 <= nunits && (core == -1 || core >= brk)
      modifies this`hdr, this`freep, this`brk, this`fl, this`fi, this`cores
      ensures core == -1 ==> p == NULL && unchanged(this)
      ensures core != -1 ==>
        && Valid() && p == freep != NULL && g < |fl| && fl[g].size >= nunits && (g == fi || g == Next(fi, |fl|))
        && brk == core + CoreUnits(nunits) && cores == old(cores) + [Blk(core, CoreUnits(nunits))]
    {
      hide Ordered, Ring, Merge, Conserved, LiveOk, LiveApart, FreeApart, Below, Clear, Within, Fits;
      var nu := nunits;
      g := 0;
      if nu < MIN_CORE {
        nu := MIN_CORE;
      }
      if core == -1 {
        return NULL, 0;
      }
      ghost var fl0, b := fl, Blk(core, nu);
      var h := Header(if core in hdr then hdr[core].ptr else NULL, nu);
      CoreKeeps(hdr, h, fl, live, cores, base, brk, b);
      hdr := hdr[core := h];
      ghost var hdr0 := hdr;
      brk := core + nu;
      ghost var k := InsertFree(core);
      cores := cores + [b];
      FreeKeeps(hdr0, hdr, fl0, live[core := nu], cores, base, brk, k, b);
      assert live[core := nu] - {core} == live;
      g := MergedBig(fl0, base, k, b);
      RingGet(hdr, fl, base, fi, fi);
      p := freep;
    }

    /** malloc's last step: cut n units off the free block at index k. */
    method Carve(prevp: int, p: int, n: int, ghost k: nat) returns (ap: int)
      requires freep != NULL && Valid() && 1 <= k < |fl| && prevp == fl[k-1].addr && p == fl[k].addr
      requires 1 <= n <= fl[k].size
      requires p in hdr && prevp in hdr && hdr[p].size == fl[k].size
      modifies this`hdr, this`freep, this`fl, this`fi, this`live
      ensures freep != NULL && Valid() && ap > NULL && ap - 1 !in old(live) && live == old(live)[ap - 1 := n]
      ensures fl == Take(old(fl), k, n) && ap - 1 == Taken(old(fl), k, n).addr
    {
      hide Ordered, Ring, Take, Conserved, LiveOk, LiveApart, FreeApart, Below;
      ghost var hdr0, t := hdr, Taken(fl, k, n);
      TakeKeeps(hdr, fl, live, cores, base, brk, k, n);
      TakePosition(fl, base, k, n);
      var q := p;
      if hdr[p].size == n {
        hdr := hdr[prevp := Header(hdr[p].ptr, hdr[prevp].size)];
      } else {
        hdr := hdr[p := Header(hdr[p].ptr, hdr[p].size - n)];
        q := p + hdr[p].size;
        hdr := hdr[q := Header(if q in hdr then hdr[q].ptr else NULL, n)];
      }
      assert hdr == LinkTake(hdr0, prevp, p, n);
      freep := prevp;
      fl, fi, live := Take(fl, k, n), k - 1, live[t.addr := n];
      ap := q + 1;
    }

    /**
      malloc: core is what sbrk would return, -1 or an address at or above the break; it can succeed
      only if the byte count that reaches it is the right one.  malloc fails only if no free block is
      large enough and sbrk fails; otherwise the new block is fresh, disjoint from every other block,
      and large enough exactly if the unit count did not wrap around.
     */
    method Malloc(nbytes: int, core: int) returns (ap: int)
      requires Ok() && 0 <= nbytes < 0x1_0000_0000
      requires core == -1 || (core >= brk && SbrkBytes(CoreUnits(NUnits(nbytes))) == CoreUnits(NUnits(nbytes)) * HEADER_BYTES)
      modifies this
      ensures Ok() && freep != NULL
      ensures ap == NULL <==> core == -1 && !HasFit(old(fl), NUnits(nbytes))
      ensures ap == NULL ==> live == old(live) && !HasFit(fl, NUnits(nbytes))
      ensures ap != NULL ==> ap - 1 !in old(live) && live == old(live)[ap - 1 := NUnits(nbytes)]
      ensures ap != NULL ==> ((NUnits(nbytes) - 1) * HEADER_BYTES >= nbytes <==> nbytes <= LAST_UNWRAPPED)
      ensures HasFit(old(fl), NUnits(nbytes)) ==> CutFirst(old(fl), old(fi), NUnits(nbytes), fl, ap - 1)
      ensures cores == old(cores) + if HasFit(old(fl), NUnits(nbytes)) || core == -1 then []
                                    else [Blk(core, CoreUnits(NUnits(nbytes)))]
    {
      UnitsExact(nbytes);
      hide Ordered, Ring, Conserved, LiveOk, LiveApart, FreeApart, Below, NUnits, CoreUnits, SbrkBytes;
      var nunits := NUnits(nbytes);
      if freep == NULL {
        StartRing(hdr, base, brk);
        hdr := hdr[base := Header(base, 0)];
        freep := base;
        fl, fi := [Blk(base, 0)], 0;
      }
      ap := FirstFit(nunits, core);
    }

    /** malloc's search round the ring, from behind freep, with one call of morecore if it comes back there. */
    method FirstFit(nunits: int, core: int) returns (ap: int)
      requires freep != NULL && Valid() && 1 <= nunits && (core == -1 || core >= brk)
      modifies this
      ensures freep != NULL && Valid()
      ensures ap == NULL <==> core == -1 && !HasFit(old(fl), nunits)
      ensures ap == NULL ==> live == old(live) && !HasFit(fl, nunits)
      ensures ap != NULL ==> ap - 1 !in old(live) && live == old(live)[ap - 1 := nunits]
      ensures HasFit(old(fl), nunits) ==> CutFirst(old(fl), old(fi), nunits, fl, ap - 1)
      ensures cores == old(cores) + if HasFit(old(fl), nunits) || core == -1 then [] else [Blk(core, CoreUnits(nunits))]
    {
      hide Ordered, Ring, Conserved, LiveOk, LiveApart, FreeApart, Below, Scanned, Steps, CoreUnits;
      var prevp := freep;
      RingGet(hdr, fl, base, fi, fi);
      ghost var i: nat, grown, g: nat := Next(fi, |fl|), false, 0;
      ScanStart(fl, i, nunits);
      var p := hdr[prevp].ptr;
      while true
        invariant freep != NULL && Valid() && live == old(live) && i < |fl|
        invariant cores == if grown then old(cores) + [Blk(core, CoreUnits(nunits))] else old(cores)
        invariant p == fl[i].addr && prevp in hdr && (i > 0 ==> prevp == fl[i-1].addr)
        invariant !grown ==> Scanned(fl, Next(fi, |fl|), i, nunits) && (core == -1 || core >= brk)
        invariant !grown ==> fl == old(fl) && fi == old(fi)
        invariant grown ==> core != -1 && !HasFit(old(fl), nunits)
        invariant grown ==> g < |fl| && fl[g].size >= nunits && (g == fi || g == i)
        decreases !grown, Steps(i, if grown then g else fi, |fl|)
      {
        RingGet(hdr, fl, base, i, fi);
        if hdr[p].size >= nunits {
          ap := Carve(prevp, p, nunits, i);
          assert !grown ==> FirstFrom(old(fl), old(fi), i, nunits);
          return;
        }
        if !grown { ScanNext(fl, fi, i, nunits); } else { StepsDown(i, g, |fl|); }
        if p == freep {
          p, g := Morecore(nunits, core);
          if p == NULL {
            return NULL;
          }
          grown, i := true, fi;
          RingGet(hdr, fl, base, i, fi);
        }
        prevp := p;
        p := hdr[p].ptr;
        i := Next(i, |fl|);
      }
    }

    /** A program may write anything into the payload of a live block. */
    method WritePayload(a: int, u: int, h: Header)
      requires Ok() && a in live && a < u < a + live[a]
      modifies this`hdr
      ensures Ok()
    {
      assert Clear(fl, a, live[a]);
      ghost var hdr' := hdr[u := h];
      forall i | 0 <= i < |fl| ensures RingAt(hdr', fl, i) { assert RingAt(hdr, fl, i); }
      hdr := hdr[u := h];
    }
  }

  lemma StartRing(hdr: map<int, Header>, base: int, brk: int)
    requires NULL < base < brk
    ensures var fl, h := [Blk(base, 0)], hdr[base := Header(base, 0)];
      && Ordered(fl, base) && Ring(h, fl) && Below(fl, brk)
      && LiveOk(h, map[], base, brk) && LiveApart(map[]) && FreeApart(fl, map[]) && Conserved([], fl, map[])
  {
    var fl := [Blk(base, 0)];
    assert RingAt(hdr[base := Header(base, 0)], fl, 0);
  }

  lemma TakePosition(fl: seq<Blk>, base: int, k: nat, n: int)
    requires Ordered(fl, base) && 1 <= k < |fl| && 1 <= n <= fl[k].size
    ensures k - 1 < |Take(fl, k, n)| && Take(fl, k, n)[k-1].addr == fl[k-1].addr >= base && fl[k].addr > base
  {
    TakeAt(fl, k, n);
    assert fl[0].addr < fl[k].addr && fl[0].addr <= fl[k-1].addr;
  }

  /** A free block, or the tail of one, is turned into a live one. */
  lemma TakeKeeps(hdr: map<int, Header>, fl: seq<Blk>, live: map<int, int>, cores: seq<Blk>,
                  base: int, brk: int, k: nat, n: int)
    requires Ordered(fl, base) && Ring(hdr, fl) && Below(fl, brk) && LiveOk(hdr, live, base, brk)
    requires LiveApart(live) && FreeApart(fl, live) && Conserved(cores, fl, live)
    requires 1 <= k < |fl| && 1 <= n <= fl[k].size
    ensures fl[k-1].addr in hdr && fl[k].addr in hdr
    ensures var h, r, t := LinkTake(hdr, fl[k-1].addr, fl[k].addr, n), Take(fl, k, n), Taken(fl, k, n);
      && Ordered(r, base) && Ring(h, r) && Below(r, brk) && t.addr !in live
      && LiveOk(h, live[t.addr := n], base, brk) && LiveApart(live[t.addr := n]) && FreeApart(r, live[t.addr := n])
      && Conserved(cores, r, live[t.addr := n])
  {
    TakeOrdered(fl, base, k, n);
    TakeLinks(hdr, fl, base, k, n);
    var h, r, t := LinkTake(hdr, fl[k-1].addr, fl[k].addr, n), Take(fl, k, n), Taken(fl, k, n);
    TakeApart(hdr, fl, live, base, brk, k, n);
    var live' := live[t.addr := n];
    forall u ensures Within(cores, u) <==> Within(r, u) || InLive(live', u) {
      TakeUnits(fl, base, k, n, u);
      assert live' - {t.addr} == live - {t.addr} == live;
      LiveWithout(live', t, u);
    }
  }

  /** Live blocks stay away from the free block that is cut. */
  lemma TakeClear(fl: seq<Blk>, live: map<int, int>, base: int, k: nat, n: int)
    requires Ordered(fl, base) && FreeApart(fl, live) && (forall a :: a in live ==> base < a && live[a] >= 1)
    requires 1 <= k < |fl| && 1 <= n <= fl[k].size
    ensures forall a :: a in live ==> a + live[a] <= fl[k].addr || fl[k].addr + fl[k].size <= a
    ensures forall a :: a in live ==> a != fl[k-1].addr && Clear(Take(fl, k, n), a, live[a])
    ensures Clear(Take(fl, k, n), Taken(fl, k, n).addr, n) && base < fl[k].addr
  {
    hide Take;
    TakeAt(fl, k, n);
    assert fl[0].addr < fl[k].addr;
    forall a | a in live
      ensures a + live[a] <= fl[k].addr || fl[k].addr + fl[k].size <= a
      ensures a != fl[k-1].addr && Clear(Take(fl, k, n), a, live[a])
    {
      assert Clear(fl, a, live[a]);
    }
    assert forall i :: 0 <= i < k ==> fl[i].addr + fl[i].size < fl[k].addr;
    assert forall i :: k < i < |fl| ==> fl[k].addr + fl[k].size < fl[i].addr;
  }

  lemma TakeApart(hdr: map<int, Header>, fl: seq<Blk>, live: map<int, int>, base: int, brk: int, k: nat, n: int)
    requires Ordered(fl, base) && Ring(hdr, fl) && Below(fl, brk) && LiveOk(hdr, live, base, brk)
    requires LiveApart(live) && FreeApart(fl, live)
    requires 1 <= k < |fl| && 1 <= n <= fl[k].size && fl[k-1].addr in hdr && fl[k].addr in hdr
    ensures var h, r, t := LinkTake(hdr, fl[k-1].addr, fl[k].addr, n), Take(fl, k, n), Taken(fl, k, n);
      && Below(r, brk) && t.addr !in live
      && LiveOk(h, live[t.addr := n], base, brk) && LiveApart(live[t.addr := n]) && FreeApart(r, live[t.addr := n])
  {
    hide Take, Ordered, Clear;
    TakeClear(fl, live, base, k, n);
    TakeAt(fl, k, n);
    assert RingAt(hdr, fl, k - 1) && RingAt(hdr, fl, k);
  }

  /** New memory above the break is a block apart from everything else. */
  lemma CoreKeeps(hdr: map<int, Header>, h: Header, fl: seq<Blk>, live: map<int, int>, cores: seq<Blk>,
                  base: int, brk: int, b: Blk)
    requires Ordered(fl, base) && Ring(hdr, fl) && Below(fl, brk) && base < brk
    requires LiveOk(hdr, live, base, brk) && LiveApart(live) && FreeApart(fl, live) && Conserved(cores, fl, live)
    requires b.addr >= brk && b.size >= 1 && h.size == b.size
    ensures Ring(hdr[b.addr := h], fl) && Clear(fl, b.addr, b.size) && Below(fl, b.addr + b.size) && b.addr !in live
    ensures LiveOk(hdr[b.addr := h], live[b.addr := b.size], base, b.addr + b.size)
    ensures LiveApart(live[b.addr := b.size]) && FreeApart(fl, live[b.addr := b.size])
    ensures Conserved(cores + [b], fl, live[b.addr := b.size])
  {
    var hdr', live', cores' := hdr[b.addr := h], live[b.addr := b.size], cores + [b];
    forall i | 0 <= i < |fl| ensures RingAt(hdr', fl, i) { assert RingAt(hdr, fl, i); }
    forall u ensures Within(cores', u) <==> Within(fl, u) || InLive(live', u) {
      assert live' - {b.addr} == live - {b.addr} == live;
      LiveWithout(live', b, u);
      WithinAppend(cores, b, u);
    }
  }

  lemma WithinAppend(bs: seq<Blk>, b: Blk, u: int)
    ensures Within(bs + [b], u) <==> Within(bs, u) || Has(b, u)
  {
    var r := bs + [b];
    if Within(bs, u) { var i :| 0 <= i < |bs| && Has(bs[i], u); assert Has(r[i], u); }
    if Has(b, u) { assert Has(r[|bs|], u); }
  }

  /** A block is turned from live to free. */
  lemma FreeKeeps(hdr: map<int, Header>, hdr': map<int, Header>, fl: seq<Blk>, live: map<int, int>, cores: seq<Blk>,
                  base: int, brk: int, k: nat, b: Blk)
    requires Ordered(fl, base) && Below(fl, brk) && LiveOk(hdr, live, base, brk) && LiveApart(live)
    requires FreeApart(fl, live)
    requires Conserved(cores, fl, live) && b.addr in live && live[b.addr] == b.size && k < |fl| && Fits(fl, k, b)
    requires hdr'.Keys == hdr.Keys && forall a :: a in hdr && a != b.addr && a != fl[k].addr ==> hdr'[a] == hdr[a]
    ensures var fl', live' := Merge(fl, k, b), live - {b.addr};
      && Below(fl', brk) && LiveOk(hdr', live', base, brk) && LiveApart(live') && FreeApart(fl', live')
      && Conserved(cores, fl', live')
    ensures forall u :: Within(Merge(fl, k, b), u) <==> Within(fl, u) || Has(b, u)
  {
    hide Merge;
    var fl', live' := Merge(fl, k, b), live - {b.addr};
    MergeBelow(fl, k, b, brk);
    forall a | a in live' ensures Clear(fl', a, live'[a]) && a != fl[k].addr {
      assert Clear(fl, a, live[a]);
      MergeClear(fl, base, k, b, a, live[a]);
    }
    forall u ensures Within(fl', u) <==> Within(fl, u) || Has(b, u) { MergeUnits(fl, base, k, b, u); }
    forall u ensures InLive(live, u) <==> InLive(live', u) || Has(b, u) { LiveWithout(live, b, u); }
  }

  lemma LiveWithout(live: map<int, int>, b: Blk, u: int)
    requires b.addr in live && live[b.addr] == b.size
    ensures InLive(live, u) <==> InLive(live - {b.addr}, u) || Has(b, u)
  {
    var live' := live - {b.addr};
    if InLive(live, u) && !Has(b, u) {
      var a :| a in live && a <= u < a + live[a];
      assert a in live' && live'[a] == live[a];
    }
    if InLive(live', u) {
      var a :| a in live' && a <= u < a + live'[a];
      assert a in live && live[a] == live'[a];
    }
    if Has(b, u) { assert b.addr in live && b.addr <= u < b.addr + live[b.addr]; }
  }

  /** The exit test of free's search holds exactly at the predecessor. */
  lemma ExitAtPredecessor(fl: seq<Blk>, base: int, b: Blk, k: nat, i: nat)
    requires Ordered(fl, base) && k < |fl| && i < |fl| && Fits(fl, k, b)
    ensures i == k <==>
      || (b.addr > fl[i].addr && b.addr < fl[Next(i, |fl|)].addr)
      || (fl[i].addr >= fl[Next(i, |fl|)].addr && (b.addr > fl[i].addr || b.addr < fl[Next(i, |fl|)].addr))
  {
    assert i > k ==> fl[k].addr + fl[k].size < fl[k+1].addr <= fl[i].addr;
    assert i < k ==> fl[i+1].addr <= fl[k].addr;
  }
}
