/**
  kalloc.c and the address spaces of vm.c over the memory model of VmModel.  Pages are named by their
  number; a kernel pointer to page p is P2V(p).
 */
module Vm {
  import opened VmModel
  import opened Params
  import opened TableCount
  import RunQueue

  /** What mapping page v costs for its page table. */
  ghost function TableCost(pg: Page, v: nat): nat
    requires |pg| == NENTRIES && v < VPAGES
  {
    if Present(pg[v / NENTRIES]) then 0 else 1
  }

  /** What kfree leaves in a page: junk, and the link to the next free page. */
  function Junk(next: int): (pg: Page)
    requires 0 <= next < UINT
    ensures PageOk(pg) && pg[0] == next
  {
    Filled(0x0101_0101)[0 := next]
  }

  /** The pages that the boot page table maps, 4 megabytes. */
  const ENTRYPAGES: nat := NENTRIES
  const EXTMEM: nat := 0x10_0000
  const DEVSPACE: nat := 0xFE00_0000

  /** The pages of the kernel's part of an address space: a directory and 64 page tables. */
  const KVMPAGES: nat := 65

  /** A row of kmap. */
  datatype Kmap = Kmap(virt: nat, start: nat, end: nat, perm: nat)

  /** The physical address where the kernel's data begins, as the linker places it. */
  predicate DataOk(data: nat) {
    EXTMEM < data < PHYSTOP && data % PGSIZE == 0
  }

  function KernelMap(data: nat): seq<Kmap>
    requires DataOk(data)
  {
    [Kmap(KERNBASE, 0, EXTMEM, 2), Kmap(KERNBASE + EXTMEM, EXTMEM, data, 0),
     Kmap(KERNBASE + data, data, PHYSTOP, 2), Kmap(DEVSPACE, DEVSPACE, 0, 2)]
  }

  /** The kernel's part of every address space: physical memory at KERNBASE, devices at their own address. */
  function KernelEntry(data: nat, u: nat): int
    requires DataOk(data) && UPAGES <= u < VPAGES
  {
    if u < UPAGES + EXTMEM / PGSIZE then EntryFor(u - UPAGES, 2)
    else if u < UPAGES + data / PGSIZE then EntryFor(u - UPAGES, 0)
    else if u < UPAGES + NPAGES then EntryFor(u - UPAGES, 2)
    else if u < DEVSPACE / PGSIZE then 0
    else EntryFor(u, 2)
  }

  /** Where the first k rows of kmap end. */
  function Bound(data: nat, k: nat): int {
    if k == 0 then UPAGES else if k == 1 then UPAGES + EXTMEM / PGSIZE
    else if k == 2 then UPAGES + data / PGSIZE else if k == 3 then UPAGES + NPAGES else VPAGES
  }

  /** The first k rows are mapped in dir and nothing else. */
  ghost predicate KernelPart(mem: Memory, dir: int, data: nat, k: nat)
    requires MemOk(mem) && 0 <= dir < NPAGES && DataOk(data)
  {
    forall u :: 0 <= u < VPAGES ==>
      Pte(mem, dir, u) == if UPAGES <= u < Bound(data, k) then KernelEntry(data, u) else 0
  }

  class Machine {
    /** The first page behind the kernel image. */
    const low: nat
    var mem: Memory
    var freelist: int
    ghost var free: seq<int>
    ghost var owner: map<int, Role>
    /** Pages in use outside the page tables: kernel stacks, pipes, pages in transit. */
    ghost var held: set<int>

    ghost function St(): State
      reads this
    {
      State(mem, free, owner, held)
    }

    ghost predicate Valid()
      reads this
    {
      Inv(low, St()) && ListOk(mem, freelist, free)
    }

    /** The machine after kinit1 and kinit2: every page behind the kernel is free and nothing is mapped. */
    constructor (mem: Memory, end: nat)
      requires MemOk(mem) && KERNBASE < end <= P2V(ENTRYPAGES)
      ensures low == RoundUp(end - KERNBASE) && Valid() && owner == map[] && held == {}
      ensures forall p :: p in free <==> low <= p < NPAGES
    {
      low := RoundUp(end - KERNBASE);
      this.mem, freelist, free, owner, held := mem, 0, [], map[], {};
      new;
      var ok := Freerange(end, P2V(ENTRYPAGES));
      ok := Freerange(P2V(ENTRYPAGES), P2V(NPAGES));
    }

    /** Gives every whole page between the two addresses to the free list, in ascending order. */
    method Freerange(vstart: nat, vend: nat) returns (ok: bool)
      requires 0 < low <= NPAGES && MemOk(mem) && ListOk(mem, freelist, free) && RunQueue.Distinct(free)
      requires KERNBASE <= vstart && low <= RoundUp(vstart - KERNBASE) && vend <= P2V(NPAGES)
      requires forall p :: RoundUp(vstart - KERNBASE) <= p && P2V(p + 1) <= vend ==> p !in free
      modifies this`mem, this`freelist, this`free
      ensures ok <==> vstart <= vend
      ensures !ok ==> mem == old(mem) && free == old(free)
      ensures MemOk(mem) && ListOk(mem, freelist, free) && RunQueue.Distinct(free)
      ensures forall p :: p in free <==> p in old(free) || (ok && RoundUp(vstart - KERNBASE) <= p && P2V(p + 1) <= vend)
    {
      if vend < vstart {
        return false;
      }
      ghost var first := RoundUp(vstart - KERNBASE);
      var k := RoundUp(vstart - KERNBASE);
      while P2V(k + 1) <= vend
        invariant first <= k && MemOk(mem) && ListOk(mem, freelist, free) && RunQueue.Distinct(free)
        invariant forall p :: p in free <==> p in old(free) || first <= p < k
        invariant k == first || P2V(k) <= vend
        decreases NPAGES - k
      {
        assert (P2V(k) - KERNBASE) / PGSIZE == k;
        var freed := Kfree(P2V(k));
        assert freed;
        k := k + 1;
      }
      ok := true;
      forall p: int ensures p in free <==> p in old(free) || (ok && RoundUp(vstart - KERNBASE) <= p && P2V(p + 1) <= vend) {
        assert first <= p ==> (p < k <==> P2V(p + 1) <= vend);
      }
    }

    /** Takes the first page off the free list; 0 exactly when the list is empty. */
    method Kalloc() returns (p: nat)
      requires Valid()
      modifies this`freelist, this`free, this`held
      ensures Valid() && SameViews(old(St()), St())
      ensures p == 0 <==> old(free) == []
      ensures p == 0 ==> St() == old(St())
      ensures p != 0 ==> p == old(free)[0] && St() == Taken(old(St())) && p in held && low <= p < NPAGES && p !in old(held)
    {
      hide UserView, Slot, Pte;
      p := 0;
      var r := freelist;
      if r != 0 {
        p := (r - KERNBASE) / PGSIZE;
        assert p == free[0];
        TakeKeeps(low, St());
        freelist := mem[p][0];
        free, held := free[1..], held + {p};
      }
    }

    /** Puts a page on the free list, unless the pointer is no pointer to an allocatable page. */
    method Kfree(v: int) returns (ok: bool)
      requires 0 < low <= NPAGES && MemOk(mem) && ListOk(mem, freelist, free) && 0 <= v < UINT
      requires (v - KERNBASE) / PGSIZE !in free
      modifies this`mem, this`freelist, this`free
      ensures ok <==> v % PGSIZE == 0 && P2V(low) <= v < P2V(NPAGES)
      ensures !ok ==> mem == old(mem) && freelist == old(freelist) && free == old(free)
      ensures ok ==> MemOk(mem) && ListOk(mem, freelist, free) && free == [(v - KERNBASE) / PGSIZE] + old(free)
      ensures ok ==> 0 <= old(freelist) < UINT && mem == old(mem)[(v - KERNBASE) / PGSIZE := Junk(old(freelist))]
    {
      if v % PGSIZE != 0 || v < P2V(low) || v - KERNBASE >= PHYSTOP {
        return false;
      }
      var p := (v - KERNBASE) / PGSIZE;
      assert v == P2V(p) && 0 <= freelist < UINT;
      ListFrame(mem, freelist, free, p, Junk(freelist));
      mem := mem[p := Junk(freelist)];
      freelist := v;
      free := [p] + free;
      assert free[1..] == old(free);
      ok := true;
    }

    /** Gives back a held page. */
    method FreePage(p: nat)
      requires Valid() && p in held
      modifies this`mem, this`freelist, this`free, this`held
      ensures Valid() && owner == old(owner) && held == old(held) - {p} && SameViews(old(St()), St())
    {
      hide UserView, Slot, Pte, Owned;
      ghost var s := St();
      assert 0 <= freelist < UINT by { HeadOk(mem, freelist, free); }
      FreeHeld(low, s, p, Junk(freelist));
      assert (P2V(p) - KERNBASE) / PGSIZE == p;
      var ok := Kfree(P2V(p));
      held := held - {p};
      assert St() == Given(Store(s, p, Junk(old(freelist))), p);
    }

    static lemma HeadOk(mem: Memory, head: int, free: seq<int>)
      requires MemOk(mem) && ListOk(mem, head, free)
      ensures 0 <= head < UINT
    {
    }

    /**
      The page table that holds the entry of virtual page v, 0 if there is none.  With alloc, a
      missing one is made; that fails exactly when no page is free.
     */
    method Walkpgdir(dir: nat, v: nat, alloc: bool) returns (tb: nat)
      requires Valid() && IsDir(St(), dir) && v < VPAGES
      modifies this`mem, this`freelist, this`free, this`owner, this`held
      ensures Valid()
      ensures tb == 0 <==> !old(HasTable(St(), dir, v)) && (!alloc || old(free) == [])
      ensures tb == 0 ==> St() == old(St())
      ensures tb != 0 ==> Walked(low, old(St()), St(), dir, v) && tb == TableOf(St(), dir, v) < NPAGES
      ensures old(HasTable(St(), dir, v)) ==> St() == old(St())
      ensures tb != 0 ==> TableAdded(old(mem)[dir], mem[dir], v / NENTRIES)
      ensures tb != 0 ==> |free| == |old(free)| - if old(HasTable(St(), dir, v)) then 0 else 1
    {
      ghost var s := St();
      var w := mem[dir][v / NENTRIES];
      if Present(w) {
        TableThere(low, s, dir, v);
        tb := Frame(w);
        return;
      }
      if !alloc {
        return 0;
      }
      hide Slot, Pte, UserView, Owned, Partition;
      tb := Kalloc();
      if tb == 0 {
        return;
      }
      WalkKeeps(low, s, dir, v);
      NotFree(low, St(), tb);
      NotFree(low, St(), dir);
      ListFrame(mem, freelist, free, tb, Filled(0));
      mem := mem[tb := Filled(0)];
      var pg := mem[dir][v / NENTRIES := EntryFor(tb, 6)];
      assert PageOk(pg) by { assert PageOk(mem[dir]); }
      ListFrame(mem, freelist, free, dir, pg);
      mem := mem[dir := pg];
      owner, held := owner[tb := Place(dir, v / NENTRIES)], held - {tb};
      assert St() == WithTable(Store(Taken(s), tb, Filled(0)), dir, v / NENTRIES, tb);
    }

    static lemma NotFree(low: nat, s: State, p: int)
      requires Inv(low, s) && (p in s.owner || p in s.held)
      ensures p !in s.free
    {
    }

    /**
      mappages for one user page: a held page is mapped, or nothing changes when no page is free for a
      table.  The panic "remap" is reached exactly if the page is mapped already.
     */
    method MapUser(dir: nat, v: nat, p: nat, perm: nat) returns (r: int, ok: bool)
      requires Valid() && IsDir(St(), dir) && v < UPAGES && p in held && perm < PGSIZE
      modifies this`mem, this`freelist, this`free, this`owner, this`held
      ensures Valid() && (r == 0 || r == -1)
      ensures ok <==> old(UserView(St(), dir, v)) == Unmapped
      ensures !ok ==> St() == old(St())
      ensures ok && r == -1 ==> St() == old(St()) && free == []
      ensures ok && r == 0 ==> MappedTo(low, old(St()), St(), dir, v, p, perm)
      ensures ok ==> (r == 0 <==> |old(free)| >= TableCost(old(mem)[dir], v))
      ensures ok && r == 0 ==> TableAdded(old(mem)[dir], mem[dir], v / NENTRIES)
      ensures ok && r == 0 ==> |free| == |old(free)| - TableCost(old(mem)[dir], v)
    {
      ghost var s := St();
      UnmappedAbsent(low, s, dir, v);
      if Present(Pte(mem, dir, v)) { AbsentTable(s, dir, v); }
      hide Slot, Pte, UserView, Owned, Partition;
      var tb := Walkpgdir(dir, v, true);
      if tb == 0 {
        return -1, true;
      }
      ghost var t := St();
      PteIs(t, dir, v);
      if Present(mem[tb][v % NENTRIES]) {
        return -1, false;
      }
      MapWalked(low, s, t, dir, v, p, perm);
      TableThere(low, t, dir, v);
      NotFree(low, t, tb);
      var pg := mem[tb][v % NENTRIES := EntryFor(p, perm)];
      assert PageOk(pg) by { assert PageOk(mem[tb]); }
      ListFrame(mem, freelist, free, tb, pg);
      mem := mem[tb := pg];
      owner, held := owner[p := Place(dir, NENTRIES + v)], held - {p};
      assert St() == Mapping(t, dir, v, p, perm);
      r, ok := 0, true;
    }

    static lemma PteIs(s: State, dir: int, v: nat)
      requires MemOk(s.mem) && v < VPAGES && HasTable(s, dir, v) && 0 <= TableOf(s, dir, v) < NPAGES
      ensures Pte(s.mem, dir, v) == s.mem[TableOf(s, dir, v)][v % NENTRIES]
    {
    }

    /** One turn of deallocuvm at a present entry: kfree the page, then clear the entry. */
    method UnmapPage(dir: nat, v: nat, tb: nat)
      requires Valid() && v < UPAGES && HasTable(St(), dir, v) && tb == TableOf(St(), dir, v) < NPAGES
      requires Present(Pte(mem, dir, v))
      modifies this`mem, this`freelist, this`free, this`owner
      ensures Valid() && OnlyDir(old(St()), St(), dir) && Cut(old(St()), St(), dir, v, v + 1)
    {
      ghost var s := St();
      HeadOk(mem, freelist, free);
      UnmapFrees(low, s, dir, v, Junk(freelist));
      PteIs(s, dir, v);
      TableThere(low, s, dir, v);
      hide Slot, Pte, UserView, Owned, Partition;
      var p := Frame(mem[tb][v % NENTRIES]);
      NotFree(low, s, p);
      NotFree(low, s, tb);
      assert (P2V(p) - KERNBASE) / PGSIZE == p;
      var ok := Kfree(P2V(p));
      assert ok;
      var pg := mem[tb][v % NENTRIES := 0];
      assert PageOk(pg) by { assert PageOk(mem[tb]); }
      ListFrame(mem, freelist, free, tb, pg);
      mem := mem[tb := pg];
      owner := owner - {p};
      assert St() == State(s.mem[p := Junk(old(freelist))][tb := s.mem[tb][v % NENTRIES := 0]],
                           [p] + s.free, s.owner - {p}, s.held);
    }

    /** One turn of the loop of deallocuvm: a is the last address it deals with. */
    method DeallocTurn(dir: nat, a: nat, limit: nat) returns (b: nat)
      requires Valid() && IsDir(St(), dir) && a % PGSIZE == 0 && a < KERNBASE && a / PGSIZE < limit
      modifies this`mem, this`freelist, this`free, this`owner, this`held
      ensures Valid() && OnlyDir(old(St()), St(), dir)
      ensures a <= b < KERNBASE && b % PGSIZE == 0
      ensures Cut(old(St()), St(), dir, a / PGSIZE, Min(b / PGSIZE + 1, limit))
    {
      ghost var s := St();
      var v := a / PGSIZE;
      b := a;
      hide Slot, Pte, UserView, Owned, Partition, Cut, OnlyDir;
      var tb := Walkpgdir(dir, v, false);
      if tb == 0 {
        b := (v / NENTRIES + 1) * NENTRIES * PGSIZE - PGSIZE;
        assert b / PGSIZE + 1 == (v / NENTRIES + 1) * NENTRIES;
        CutSkip(low, s, dir, v, Min(b / PGSIZE + 1, limit));
        CutNone(s, dir, 0, 0);
      } else {
        PteIs(s, dir, v);
        if Present(mem[tb][v % NENTRIES]) {
          UnmapPage(dir, v, tb);
        } else {
          CutAbsent(low, s, dir, v);
        }
      }
    }

    static lemma CutAbsent(low: nat, s: State, dir: int, v: nat)
      requires Inv(low, s) && IsDir(s, dir) && v < UPAGES && !Present(Pte(s.mem, dir, v))
      ensures Cut(s, s, dir, v, v + 1) && OnlyDir(s, s, dir)
    {
    }

    /**
      Unmaps and frees the user pages from newsz, rounded up, to oldsz: no mapped page in that range
      is missed, although whole directory entries are skipped, and nothing else changes.
     */
    method Deallocuvm(dir: nat, oldsz: nat, newsz: nat) returns (r: nat)
      requires Valid() && IsDir(St(), dir) && oldsz <= KERNBASE
      modifies this`mem, this`freelist, this`free, this`owner, this`held
      ensures Valid() && OnlyDir(old(St()), St(), dir)
      ensures r == if newsz >= oldsz then oldsz else newsz
      ensures Cut(old(St()), St(), dir, RoundUp(newsz), RoundUp(oldsz))
    {
      ghost var s := St();
      ghost var lo, limit := RoundUp(newsz), RoundUp(oldsz);
      if newsz >= oldsz {
        CutNone(s, dir, lo, limit);
        return oldsz;
      }
      var a := RoundUp(newsz) * PGSIZE;
      hide UserView, Slot, Pte, Cut, OnlyDir, Owned, Partition;
      CutNone(s, dir, lo, lo);
      while a < oldsz
        invariant a % PGSIZE == 0 && lo <= a / PGSIZE && (a < oldsz <==> a / PGSIZE < limit)
        invariant Valid() && OnlyDir(s, St(), dir) && Cut(s, St(), dir, lo, Min(a / PGSIZE, limit))
        decreases oldsz - a
      {
        ghost var t := St();
        OthersDirs(s, t, dir, dir);
        var b := DeallocTurn(dir, a, RoundUp(oldsz));
        CutMore(s, t, St(), dir, lo, a / PGSIZE, Min(b / PGSIZE + 1, limit));
        a := b + PGSIZE;
      }
      r := newsz;
    }

    /** One turn of the loop of freevm, at a present entry; view gets the entry cleared, mem keeps it. */
    method FreeTable(dir: nat, i: nat, ghost view: Memory) returns (ghost view': Memory)
      requires MemOk(mem) && ListOk(mem, freelist, free) && i < NENTRIES
      requires Inv(low, State(view, free, owner, held)) && IsDir(State(view, free, owner, held), dir)
      requires NoUserPages(State(view, free, owner, held), dir)
      requires AlikeBut(mem, view, dir) && view[dir][i] == mem[dir][i] && Present(mem[dir][i])
      modifies this`mem, this`freelist, this`free, this`owner
      ensures MemOk(mem) && ListOk(mem, freelist, free) && mem[dir] == old(mem[dir])
      ensures Inv(low, State(view', free, owner, held)) && IsDir(State(view', free, owner, held), dir)
      ensures NoUserPages(State(view', free, owner, held), dir)
      ensures OnlyDir(old(State(view, free, owner, held)), State(view', free, owner, held), dir)
      ensures SameViews(old(State(view, free, owner, held)), State(view', free, owner, held))
      ensures AlikeBut(mem, view', dir) && view'[dir] == view[dir][i := 0]
    {
      ghost var t := State(view, free, owner, held);
      HeadOk(mem, freelist, free);
      UntableFrees(low, t, dir, i, Junk(freelist));
      hide UserView, Slot, Pte, Owned, Partition, OnlyDir, SameViews, NoUserPages;
      var p := Frame(mem[dir][i]);
      NotFree(low, t, p);
      assert (P2V(p) - KERNBASE) / PGSIZE == p;
      view' := view[dir := view[dir][i := 0]][p := Junk(freelist)];
      var ok := Kfree(P2V(p));
      assert ok;
      owner := owner - {p};
    }

    /** The two memories differ in page dir at most. */
    static ghost predicate AlikeBut(m: Memory, n: Memory, dir: int) {
      |m| == |n| == NPAGES && 0 <= dir < NPAGES && forall q :: 0 <= q < NPAGES && q != dir ==> m[q] == n[q]
    }

    static lemma NoneLeft(low: nat, s: State, t: State, dir: int)
      requires Inv(low, s) && Inv(low, t) && IsDir(s, dir) && OnlyDir(s, t, dir) && Cut(s, t, dir, 0, UPAGES)
      ensures IsDir(t, dir) && NoUserPages(t, dir) && OnlyDir(t, t, dir) && SameViews(t, t)
    {
      forall u | 0 <= u < UPAGES ensures !Present(Pte(t.mem, dir, u)) {
        UnmappedAbsent(low, t, dir, u);
      }
    }

    static lemma AllFreed(s: State, t: State, u: State, w: State, dir: int)
      requires MemOk(s.mem) && MemOk(t.mem) && MemOk(u.mem) && MemOk(w.mem)
      requires OnlyDir(s, t, dir) && Cut(s, t, dir, 0, UPAGES) && OnlyDir(t, u, dir) && SameViews(t, u)
      requires w.owner == Others(u, dir) && w.held == u.held && Elsewhere(u, w, dir)
      ensures w.owner == Others(s, dir) && w.held == s.held && Elsewhere(s, w, dir)
    {
      hide UserView;
      forall e ensures (IsDir(s, e) <==> IsDir(t, e)) && (IsDir(t, e) <==> IsDir(u, e)) {
        OthersDirs(s, t, dir, e);
        OthersDirs(t, u, dir, e);
      }
    }

    /**
      Gives back all pages of an address space.  The entries of page tables already given back stay in
      the directory; the ghost variable view is the memory with those entries cleared.
     */
    method Freevm(dir: nat)
      requires Valid() && IsDir(St(), dir)
      modifies this`mem, this`freelist, this`free, this`owner, this`held
      ensures Valid() && owner == Others(old(St()), dir) && held == old(held)
      ensures Elsewhere(old(St()), St(), dir)
    {
      ghost var s0 := St();
      var r := Deallocuvm(dir, KERNBASE, 0);
      ghost var s := St();
      NoneLeft(low, s0, s, dir);
      ghost var view := mem;
      hide UserView, Slot, Pte, Cut, Owned, Partition, OnlyDir, SameViews, Elsewhere, NoUserPages;
      var i := 0;
      while i < NENTRIES
        invariant 0 <= i <= NENTRIES && MemOk(mem) && ListOk(mem, freelist, free)
        invariant Inv(low, State(view, free, owner, held)) && IsDir(State(view, free, owner, held), dir)
        invariant NoUserPages(State(view, free, owner, held), dir)
        invariant OnlyDir(s, State(view, free, owner, held), dir) && SameViews(s, State(view, free, owner, held))
        invariant AlikeBut(mem, view, dir)
        invariant forall x :: i <= x < NENTRIES ==> view[dir][x] == mem[dir][x]
        invariant forall x :: 0 <= x < i ==> !Present(view[dir][x])
      {
        if Present(mem[dir][i]) {
          ghost var t := State(view, free, owner, held);
          view := FreeTable(dir, i, view);
          SameThen(s, t, State(view, free, owner, held), dir);
        }
        i := i + 1;
      }
      ghost var t := State(view, free, owner, held);
      FreeDirectory(dir, view);
      AllFreed(s0, s, t, St(), dir);
    }

    /** The end of freevm: the directory itself; view says that it is empty. */
    method FreeDirectory(dir: nat, ghost view: Memory)
      requires MemOk(mem) && ListOk(mem, freelist, free)
      requires Inv(low, State(view, free, owner, held)) && IsDir(State(view, free, owner, held), dir)
      requires AlikeBut(mem, view, dir) && forall x :: 0 <= x < NENTRIES ==> !Present(view[dir][x])
      modifies this`mem, this`freelist, this`free, this`owner
      ensures Valid() && owner == Others(old(State(view, free, owner, held)), dir)
      ensures Elsewhere(old(State(view, free, owner, held)), St(), dir)
    {
      ghost var t := State(view, free, owner, held);
      HeadOk(mem, freelist, free);
      DropFrees(low, t, dir, Junk(freelist));
      OwnedPage(low, t, dir);
      hide UserView, Slot, Pte, Owned, Partition, Elsewhere;
      assert (P2V(dir) - KERNBASE) / PGSIZE == dir;
      ghost var gone := view[dir := Junk(freelist)];
      var ok := Kfree(P2V(dir));
      assert ok;
      owner := owner - {dir};
      assert mem == gone;
    }

    static lemma OwnedPage(low: nat, s: State, p: int)
      requires Inv(low, s) && p in s.owner
      ensures low <= p < NPAGES && p !in s.free
    {
    }

    /** One turn of mappages in the kernel part. */
    method MapKernelPage(dir: nat, v: nat, w: int) returns (r: int, ok: bool)
      requires Valid() && IsDir(St(), dir) && UPAGES <= v < VPAGES && 0 <= w < UINT
      modifies this`mem, this`freelist, this`free, this`owner, this`held
      ensures Valid() && OnlyDir(old(St()), St(), dir) && SameViews(old(St()), St()) && (r == 0 || r == -1)
      ensures ok <==> !old(Present(Pte(mem, dir, v)))
      ensures !ok || r == -1 ==> St() == old(St())
      ensures ok && r == -1 ==> free == []
      ensures ok && r == 0 ==> forall u :: 0 <= u < VPAGES ==> Pte(mem, dir, u) == if u == v then w else old(Pte(mem, dir, u))
      ensures ok ==> (r == 0 <==> |old(free)| >= TableCost(old(mem)[dir], v))
      ensures ok && r == 0 ==> TableAdded(old(mem)[dir], mem[dir], v / NENTRIES)
      ensures ok && r == 0 ==> |free| == |old(free)| - TableCost(old(mem)[dir], v)
    {
      ghost var s := St();
      if Present(Pte(mem, dir, v)) { AbsentTable(s, dir, v); }
      SameStart(s, dir);
      hide Slot, Pte, UserView, Owned, Partition;
      var tb := Walkpgdir(dir, v, true);
      if tb == 0 {
        return -1, true;
      }
      ghost var t := St();
      PteIs(t, dir, v);
      if Present(mem[tb][v % NENTRIES]) {
        return -1, false;
      }
      KernelWalked(low, s, t, dir, v, w);
      TableThere(low, t, dir, v);
      NotFree(low, t, tb);
      var pg := mem[tb][v % NENTRIES := w];
      assert PageOk(pg) by { assert PageOk(mem[tb]); }
      ListFrame(mem, freelist, free, tb, pg);
      mem := mem[tb := pg];
      assert mem == WithPte(t, dir, v, w);
      r, ok := 0, true;
    }

    /** Entry u of a directory after the pages first to end are mapped to the frames from frame on. */
    static ghost predicate MappedRange(m: Memory, n: Memory, dir: int, first: int, end: int, frame: int, perm: int)
      requires MemOk(m) && MemOk(n) && 0 <= dir < NPAGES && 0 <= perm < PGSIZE
      requires UPAGES <= first && 0 <= frame && frame + end - first <= VPAGES
    {
      forall u :: 0 <= u < VPAGES ==>
        Pte(n, dir, u) == if first <= u < end then EntryFor(frame + u - first, perm) else Pte(m, dir, u)
    }

    /**
      mappages in the kernel part: the pages that hold the size bytes from va, mapped to pa and up.  It
      panics only at a page that was mapped before, and succeeds only if none was.
     */
    method Mappages(dir: nat, va: nat, size: nat, pa: nat, perm: nat) returns (r: int, ok: bool)
      requires Valid() && IsDir(St(), dir) && perm < PGSIZE && size > 0
      requires KERNBASE <= va && va + size <= UINT && va % PGSIZE + size + pa <= UINT && pa % PGSIZE == 0
      modifies this`mem, this`freelist, this`free, this`owner, this`held
      ensures Valid() && OnlyDir(old(St()), St(), dir) && SameViews(old(St()), St()) && (r == 0 || r == -1)
      ensures !ok ==> exists u :: va / PGSIZE <= u <= (va + size - 1) / PGSIZE && old(Present(Pte(mem, dir, u)))
      ensures ok && r == 0 ==> forall u :: va / PGSIZE <= u <= (va + size - 1) / PGSIZE ==> !old(Present(Pte(mem, dir, u)))
      ensures ok && r == 0 ==> MappedRange(old(mem), mem, dir, va / PGSIZE, (va + size - 1) / PGSIZE + 1, pa / PGSIZE, perm)
      ensures ok && r == 0 ==>
                |free| == |old(free)| - NewTables(old(mem)[dir], va / PGSIZE, (va + size - 1) / PGSIZE + 1)
      ensures ok && r == 0 ==> TablesNow(old(mem)[dir], mem[dir], va / PGSIZE, (va + size - 1) / PGSIZE + 1)
      ensures ok && r == -1 ==> |old(free)| < NewTables(old(mem)[dir], va / PGSIZE, (va + size - 1) / PGSIZE + 1)
    {
      var a, last, frame := va / PGSIZE, (va + size - 1) / PGSIZE, pa / PGSIZE;
      assert a <= last < VPAGES && frame + last - a < VPAGES && UPAGES <= a;
      r, ok := MapLoop(dir, a, last, frame, perm);
    }

    /** The loop of mappages, from page first to page last. */
    method MapLoop(dir: nat, first: nat, last: nat, start: nat, perm: nat) returns (r: int, ok: bool)
      requires Valid() && IsDir(St(), dir) && perm < PGSIZE
      requires UPAGES <= first <= last < VPAGES && start + last - first < VPAGES
      modifies this`mem, this`freelist, this`free, this`owner, this`held
      ensures Valid() && OnlyDir(old(St()), St(), dir) && SameViews(old(St()), St()) && (r == 0 || r == -1)
      ensures !ok ==> exists u :: first <= u <= last && old(Present(Pte(mem, dir, u)))
      ensures ok && r == 0 ==> forall u :: first <= u <= last ==> !old(Present(Pte(mem, dir, u)))
      ensures ok && r == 0 ==> MappedRange(old(mem), mem, dir, first, last + 1, start, perm)
      ensures ok && r == 0 ==> |free| == |old(free)| - NewTables(old(mem)[dir], first, last + 1)
      ensures ok && r == 0 ==> TablesNow(old(mem)[dir], mem[dir], first, last + 1)
      ensures ok && r == -1 ==> |old(free)| < NewTables(old(mem)[dir], first, last + 1)
    {
      ghost var s := St();
      SameStart(s, dir);
      TablesStart(mem[dir], first);
      RangeNone(mem, dir, first, start, perm);
      assert NewTables(mem[dir], first, first) == 0;
      hide Slot, Pte, UserView, Owned, Partition, OnlyDir, SameViews, EntryFor, TablesNow, NewTables, MappedRange;
      var a, frame := first, start;
      while true
        invariant first <= a <= last && frame == start + a - first
        invariant Valid() && OnlyDir(s, St(), dir) && SameViews(s, St())
        invariant MappedRange(s.mem, mem, dir, first, a, start, perm)
        invariant forall u :: first <= u < a ==> !Present(Pte(s.mem, dir, u))
        invariant TablesNow(s.mem[dir], mem[dir], first, a) && |free| + NewTables(s.mem[dir], first, a) == |s.free|
        decreases last - a
      {
        ghost var m := mem;
        RangeAt(s.mem, m, dir, first, a, start, perm);
        r, ok := MapTurn(dir, a, EntryFor(frame, perm), s, first, last);
        if !ok || r < 0 {
          return;
        }
        RangeMore(s.mem, m, mem, dir, first, a, start, perm);
        if a == last {
          break;
        }
        a, frame := a + 1, frame + 1;
      }
    }

    static lemma RangeNone(m: Memory, dir: int, first: int, frame: int, perm: int)
      requires MemOk(m) && 0 <= dir < NPAGES && 0 <= perm < PGSIZE && UPAGES <= first && 0 <= frame <= VPAGES
      ensures MappedRange(m, m, dir, first, first, frame, perm)
    {
    }

    static lemma RangeAt(m: Memory, n: Memory, dir: int, first: int, a: nat, frame: int, perm: int)
      requires MemOk(m) && MemOk(n) && 0 <= dir < NPAGES && 0 <= perm < PGSIZE
      requires UPAGES <= first <= a < VPAGES && 0 <= frame && frame + a - first <= VPAGES
      requires MappedRange(m, n, dir, first, a, frame, perm)
      ensures Pte(n, dir, a) == Pte(m, dir, a)
    {
    }

    static lemma RangeMore(m: Memory, n: Memory, n': Memory, dir: int, first: int, a: nat, frame: int, perm: int)
      requires MemOk(m) && MemOk(n) && MemOk(n') && 0 <= dir < NPAGES && 0 <= perm < PGSIZE
      requires UPAGES <= first <= a < VPAGES && 0 <= frame && frame + a - first < VPAGES
      requires MappedRange(m, n, dir, first, a, frame, perm)
      requires forall u :: 0 <= u < VPAGES ==>
                 Pte(n', dir, u) == if u == a then EntryFor(frame + a - first, perm) else Pte(n, dir, u)
      ensures MappedRange(m, n', dir, first, a + 1, frame, perm)
    {
      hide Pte, EntryFor;
    }

    /** A turn of the loop of mappages at page a, after the pages from first on. */
    method MapTurn(dir: nat, a: nat, w: int, ghost s: State, ghost first: nat, ghost last: nat) returns (r: int, ok: bool)
      requires Valid() && Inv(low, s) && IsDir(s, dir) && UPAGES <= first <= a <= last < VPAGES && 0 <= w < UINT
      requires OnlyDir(s, St(), dir) && SameViews(s, St())
      requires TablesNow(s.mem[dir], mem[dir], first, a) && |free| + NewTables(s.mem[dir], first, a) == |s.free|
      modifies this`mem, this`freelist, this`free, this`owner, this`held
      ensures Valid() && OnlyDir(s, St(), dir) && SameViews(s, St()) && (r == 0 || r == -1)
      ensures ok <==> !old(Present(Pte(mem, dir, a)))
      ensures ok && r == 0 ==> forall u :: 0 <= u < VPAGES ==> Pte(mem, dir, u) == if u == a then w else old(Pte(mem, dir, u))
      ensures ok && r == 0 ==> TablesNow(s.mem[dir], mem[dir], first, a + 1)
      ensures ok && r == 0 ==> |free| + NewTables(s.mem[dir], first, a + 1) == |s.free|
      ensures ok && r == -1 ==> |s.free| < NewTables(s.mem[dir], first, last + 1)
    {
      hide Slot, Pte, UserView, Owned, Partition, OnlyDir, SameViews, TablesNow, NewTables, TableAdded;
      ghost var t := St();
      OthersDirs(s, t, dir, dir);
      TurnCost(s.mem[dir], mem[dir], first, a);
      NewTablesGrow(s.mem[dir], first, a + 1, last + 1);
      r, ok := MapKernelPage(dir, a, w);
      if ok && r == 0 { TurnTables(s.mem[dir], t.mem[dir], mem[dir], first, a); }
      SameThen(s, t, St(), dir);
    }

    static lemma SameStart(s: State, dir: int)
      requires MemOk(s.mem)
      ensures OnlyDir(s, s, dir) && SameViews(s, s)
    {
    }

    static function RowSize(k: Kmap): (n: nat) {
      (k.end - k.start) % UINT
    }

    /** The pages that row k maps. */
    static lemma RowPages(data: nat, k: nat)
      requires DataOk(data) && k < 4
      ensures var r := KernelMap(data)[k]; var size := RowSize(r);
        && 0 < size && KERNBASE <= r.virt && r.virt + size <= UINT && r.virt % PGSIZE == 0 && r.start % PGSIZE == 0
        && r.start + size <= UINT && r.perm == (if k == 1 then 0 else 2)
        && r.virt / PGSIZE == (if k < 3 then Bound(data, k) else DEVSPACE / PGSIZE)
        && (r.virt + size - 1) / PGSIZE + 1 == Bound(data, k + 1)
        && r.start / PGSIZE == (if k < 3 then Bound(data, k) - UPAGES else DEVSPACE / PGSIZE)
    {
      var q := data / PGSIZE;
      assert data == q * PGSIZE;
    }

    /** What mapping row k needs. */
    static lemma RowFits(m: Memory, dir: int, data: nat, k: nat)
      requires MemOk(m) && 0 <= dir < NPAGES && DataOk(data) && k < 4 && KernelPart(m, dir, data, k)
      ensures var r := KernelMap(data)[k]; var size := RowSize(r);
        && 0 < size && KERNBASE <= r.virt && r.virt + size <= UINT && r.virt % PGSIZE == 0 && r.start % PGSIZE == 0
        && r.start + size <= UINT && r.perm < PGSIZE
        && (forall u :: r.virt / PGSIZE <= u <= (r.virt + size - 1) / PGSIZE < VPAGES ==> !Present(Pte(m, dir, u)))
        && r.start / PGSIZE + (r.virt + size - 1) / PGSIZE + 1 - r.virt / PGSIZE <= VPAGES
    {
      RowPages(data, k);
      hide Pte, KernelMap, RowSize, KernelEntry;
    }

    static lemma RowEntry(data: nat, k: nat, u: nat)
      requires DataOk(data) && k < 4 && u < VPAGES
      ensures var r := KernelMap(data)[k];
        var first, end, frame := r.virt / PGSIZE, (r.virt + RowSize(r) - 1) / PGSIZE + 1, r.start / PGSIZE;
        && UPAGES <= first && frame + end - first <= VPAGES && r.perm < PGSIZE
        && (first <= u < end ==>
              UPAGES <= u < Bound(data, k + 1) && KernelEntry(data, u) == EntryFor(frame + u - first, r.perm))
        && (!(first <= u < end) && UPAGES <= u < Bound(data, k) ==> u < Bound(data, k + 1))
        && (!(first <= u < end) && Bound(data, k) <= u < Bound(data, k + 1) ==> KernelEntry(data, u) == 0)
    {
      RowPages(data, k);
      hide EntryFor, KernelMap, RowSize;
    }

    /** What mapping row k does. */
    static lemma RowDone(m: Memory, n: Memory, dir: int, data: nat, k: nat)
      requires MemOk(m) && MemOk(n) && 0 <= dir < NPAGES && DataOk(data) && k < 4 && KernelPart(m, dir, data, k)
      requires var r := KernelMap(data)[k]; var size := RowSize(r);
        && 0 < size && r.virt % PGSIZE == 0 && r.virt + size <= UINT && r.perm < PGSIZE
        && r.start / PGSIZE + (r.virt + size - 1) / PGSIZE + 1 - r.virt / PGSIZE <= VPAGES
        && MappedRange(m, n, dir, r.virt / PGSIZE, (r.virt + size - 1) / PGSIZE + 1, r.start / PGSIZE, r.perm)
      ensures KernelPart(n, dir, data, k + 1)
    {
      forall u | 0 <= u < VPAGES
        ensures Pte(n, dir, u) == if UPAGES <= u < Bound(data, k + 1) then KernelEntry(data, u) else 0
      {
        RowEntry(data, k, u);
        hide Pte, EntryFor, KernelMap, RowSize, KernelEntry, Bound;
      }
    }

    /** The page tables of the first k rows, and where those of the rows below the devices end. */
    static function RowTables(data: nat, k: nat): (n: nat)
      requires DataOk(data) && k <= 4
    {
      if k == 4 then RowEnd(data, 3) - UPAGES / NENTRIES + 8 else RowEnd(data, k) - UPAGES / NENTRIES
    }

    static function RowEnd(data: nat, k: nat): (i: nat)
      requires DataOk(data) && k <= 3
      ensures UPAGES / NENTRIES <= i <= (UPAGES + NPAGES) / NENTRIES
    {
      if k == 0 then UPAGES / NENTRIES else (Bound(data, k) - 1) / NENTRIES + 1
    }

    /** Directory page pg has exactly the tables of the first k rows. */
    static ghost predicate HasRows(pg: Page, data: nat, k: nat)
      requires DataOk(data) && k <= 4
    {
      && |pg| == NENTRIES
      && forall i :: 0 <= i < NENTRIES ==>
           (Present(pg[i]) <==>
             UPAGES / NENTRIES <= i < RowEnd(data, Min(k, 3)) || (k == 4 && i >= DEVSPACE / PGSIZE / NENTRIES))
    }

    /** What row k costs, and which tables there are then. */
    static lemma RowCosts(pg: Page, next: Page, data: nat, k: nat)
      requires DataOk(data) && k < 4 && HasRows(pg, data, k)
      ensures var r := KernelMap(data)[k]; var first, end := r.virt / PGSIZE, (r.virt + RowSize(r) - 1) / PGSIZE + 1;
        && end <= VPAGES && RowTables(data, k) + NewTables(pg, first, end) == RowTables(data, k + 1)
        && (TablesNow(pg, next, first, end) ==> HasRows(next, data, k + 1))
    {
      RowPages(data, k);
      hide KernelMap, RowSize;
      if k < 3 { LowRowCosts(pg, next, data, k); } else { LastRowCosts(pg, next, data); }
    }

    static lemma LowRowCosts(pg: Page, next: Page, data: nat, k: nat)
      requires DataOk(data) && k < 3 && HasRows(pg, data, k)
      ensures RowTables(data, k) + NewTables(pg, Bound(data, k), Bound(data, k + 1)) == RowTables(data, k + 1)
      ensures TablesNow(pg, next, Bound(data, k), Bound(data, k + 1)) ==> HasRows(next, data, k + 1)
    {
      RowSpan(data, k);
      hide Bound, RowEnd, Missing;
      var first, end := Bound(data, k), Bound(data, k + 1);
      var lo, x, hi := first / NENTRIES, RowEnd(data, k), RowEnd(data, k + 1);
      MissingFrom(pg, lo, x, hi);
      if TablesNow(pg, next, first, end) { RowsAfter(pg, next, first, end, lo, x, hi); }
    }

    static lemma RowSpan(data: nat, k: nat)
      requires DataOk(data) && k < 3
      ensures UPAGES <= Bound(data, k) < Bound(data, k + 1) <= VPAGES
      ensures UPAGES / NENTRIES <= Bound(data, k) / NENTRIES <= RowEnd(data, k) <= RowEnd(data, k + 1) <= NENTRIES
      ensures RowEnd(data, k + 1) == (Bound(data, k + 1) - 1) / NENTRIES + 1
    {
    }

    static lemma RowsAfter(pg: Page, next: Page, first: nat, end: nat, lo: nat, x: nat, hi: nat)
      requires TablesNow(pg, next, first, end) && UPAGES <= first < end && lo == first / NENTRIES
      requires lo <= x <= hi <= NENTRIES && hi == (end - 1) / NENTRIES + 1
      requires forall i :: 0 <= i < NENTRIES ==> (Present(pg[i]) <==> UPAGES / NENTRIES <= i < x)
      ensures forall i :: 0 <= i < NENTRIES ==> (Present(next[i]) <==> UPAGES / NENTRIES <= i < hi)
    {
    }

    static lemma LastRowCosts(pg: Page, next: Page, data: nat)
      requires DataOk(data) && HasRows(pg, data, 3)
      ensures RowTables(data, 3) + NewTables(pg, DEVSPACE / PGSIZE, VPAGES) == RowTables(data, 4)
      ensures TablesNow(pg, next, DEVSPACE / PGSIZE, VPAGES) ==> HasRows(next, data, 4)
    {
      var lo := DEVSPACE / PGSIZE / NENTRIES;
      MissingFrom(pg, lo, lo, NENTRIES);
    }

    /**
      A new address space with the kernel's part.  It takes a directory and 64 page tables; with fewer
      pages free it is 0 and nothing is taken.
     */
    method Setupkvm(data: nat) returns (dir: nat)
      requires Valid() && DataOk(data)
      modifies this`mem, this`freelist, this`free, this`owner, this`held
      ensures Valid() && (dir != 0 <==> |old(free)| >= KVMPAGES)
      ensures dir == 0 ==> owner == old(owner) && held == old(held) && SameViews(old(St()), St())
      ensures dir != 0 ==> NewSpace(old(St()), St(), dir) && KernelPart(mem, dir, data, 4)
      ensures dir != 0 ==> |free| == |old(free)| - KVMPAGES && HasRows(mem[dir], data, 4)
    {
      ghost var s := St();
      dir := Kalloc();
      if dir == 0 {
        return;
      }
      NewSpaceStarts(low, s);
      NotFree(low, St(), dir);
      ListFrame(mem, freelist, free, dir, Filled(0));
      hide UserView, Slot, Pte, Owned, Partition, NewSpace, MappedRange, Elsewhere, OnlyDir;
      mem := mem[dir := Filled(0)];
      owner, held := owner[dir := Dir], held - {dir};
      assert St() == FirstDir(s);
      assert HasRows(mem[dir], data, 0);
      dir := MapKernel(dir, data, s);
    }

    /** The loop of setupkvm over the kernel's mappings; 0 if it runs out of pages. */
    method MapKernel(d: nat, data: nat, ghost s: State) returns (dir: nat)
      requires Valid() && DataOk(data) && Inv(low, s) && IsDir(St(), d) && d > 0 && NewSpace(s, St(), d)
      requires KernelPart(mem, d, data, 0) && HasRows(mem[d], data, 0)
      modifies this`mem, this`freelist, this`free, this`owner, this`held
      ensures Valid() && (dir == 0 || dir == d) && (dir != 0 <==> |old(free)| >= KVMPAGES - 1)
      ensures dir != 0 ==> |free| == |old(free)| - (KVMPAGES - 1) && HasRows(mem[d], data, 4)
      ensures dir == 0 ==> owner == s.owner && held == s.held && SameViews(s, St())
      ensures dir != 0 ==> NewSpace(s, St(), d) && KernelPart(mem, d, data, 4)
    {
      hide UserView, Slot, Pte, Owned, Partition, NewSpace, MappedRange, Elsewhere, OnlyDir, KernelPart, SameViews;
      hide HasRows, NewTables, TablesNow;
      var kmap := KernelMap(data);
      assert RowTables(data, 0) == 0 && RowTables(data, 4) == KVMPAGES - 1;
      var k := 0;
      while k < |kmap|
        invariant 0 <= k <= |kmap| && Valid() && IsDir(St(), d) && NewSpace(s, St(), d) && KernelPart(mem, d, data, k)
        invariant HasRows(mem[d], data, k) && |free| + RowTables(data, k) == |old(free)|
      {
        ghost var t := St();
        RowFits(mem, d, data, k);
        var r, ok := Mappages(d, kmap[k].virt, RowSize(kmap[k]), kmap[k].start, kmap[k].perm);
        assert ok;
        RowCosts(t.mem[d], mem[d], data, k);
        RowsGrow(data, k + 1);
        SpaceStays(s, t, St(), d);
        if r < 0 {
          Discard(d, s);
          return 0;
        }
        RowDone(t.mem, mem, d, data, k);
        k := k + 1;
      }
      dir := d;
    }

    static lemma RowsGrow(data: nat, k: nat)
      requires DataOk(data) && k <= 4
      ensures RowTables(data, k) <= RowTables(data, 4)
    {
    }

    static lemma SpaceStays(s: State, t: State, u: State, dir: int)
      requires MemOk(s.mem) && MemOk(t.mem) && MemOk(u.mem) && NewSpace(s, t, dir) && OnlyDir(t, u, dir)
      requires SameViews(t, u)
      ensures NewSpace(s, u, dir) && IsDir(u, dir)
    {
      hide UserView;
      assert Elsewhere(t, u, dir);
      NewSpaceGrows(s, t, u, dir);
    }

    /** kalloc, and the new page filled with pg. */
    method AllocFilled(pg: Page) returns (p: nat)
      requires Valid() && PageOk(pg)
      modifies this`mem, this`freelist, this`free, this`held
      ensures Valid()
      ensures p == 0 <==> old(free) == []
      ensures p == 0 ==> St() == old(St())
      ensures p != 0 ==> p == old(free)[0] < NPAGES && St() == Store(Taken(old(St())), p, pg) && SameViews(old(St()), St())
    {
      hide Slot, Pte, UserView, Owned;
      ghost var s := St();
      p := Kalloc();
      if p == 0 {
        return;
      }
      NotFree(low, St(), p);
      ListFrame(mem, freelist, free, p, pg);
      LeafKeeps(low, St(), p, pg);
      mem := mem[p := pg];
      assert forall e :: IsDir(s, e) ==> IsDir(Taken(s), e);
    }

    /** The second half of a turn of copyuvm: contents pg in a new page, mapped in d at v. */
    method PlaceCopy(d: nat, v: nat, pg: Page, flags: nat, ghost s: State) returns (r: int)
      requires Valid() && MemOk(s.mem) && NewSpace(s, St(), d) && v < UPAGES && PageOk(pg) && flags < PGSIZE
      requires UserView(St(), d, v) == Unmapped
      modifies this`mem, this`freelist, this`free, this`owner, this`held
      ensures Valid() && NewSpace(s, St(), d) && (r == 0 || r == -1)
      ensures r == 0 ==> PageAdded(low, old(St()), St(), d, v, Mapped(flags + 1 - flags % 2, pg))
      ensures r == 0 <==> |old(free)| >= 1 + TableCost(old(mem)[d], v)
      ensures r == 0 ==> |free| == |old(free)| - 1 - TableCost(old(mem)[d], v)
      ensures r == 0 ==> TableAdded(old(mem)[d], mem[d], v / NENTRIES)
    {
      ghost var t := St();
      hide Slot, Pte, UserView, Owned, Partition, SameViews, EntryFor, PageAdded, TableAdded, TableCost;
      var p := AllocFilled(pg);
      if p == 0 {
        return -1;
      }
      ghost var t2 := St();
      FirstFree(low, t);
      DStill(low, t, t2, d, v);
      var ok;
      r, ok := MapUser(d, v, p, flags);
      if r < 0 {
        FreePage(p);
        GaveBack(s, t, t2, St(), d, p);
        return;
      }
      AddPage(low, t, St(), d, v, flags, pg);
      SpaceGains(low, s, t, St(), d, v, Mapped(flags + 1 - flags % 2, pg));
    }

    static lemma FirstFree(low: nat, s: State)
      requires Inv(low, s) && s.free != []
      ensures s.free[0] !in s.held && s.free[0] !in s.owner && low <= s.free[0] < NPAGES
    {
      assert Partition(low, s);
      var p := s.free[0];
      assert p in s.free;
    }

    /** One turn of copyuvm: page v of dir, its contents and flags, copied to the new directory d. */
    method CopyPage(dir: nat, d: nat, v: nat, ghost s: State) returns (r: int, ok: bool)
      requires Valid() && MemOk(s.mem) && NewSpace(s, St(), d) && IsDir(s, dir) && v < UPAGES
      requires UserView(St(), d, v) == Unmapped
      modifies this`mem, this`freelist, this`free, this`owner, this`held
      ensures Valid() && NewSpace(s, St(), d) && (r == 0 || r == -1)
      ensures ok <==> UserView(s, dir, v) != Unmapped
      ensures ok && r == 0 ==> PageAdded(low, old(St()), St(), d, v, UserView(s, dir, v))
      ensures ok ==> (r == 0 <==> |old(free)| >= 1 + TableCost(old(mem)[d], v))
      ensures ok && r == 0 ==> |free| == |old(free)| - 1 - TableCost(old(mem)[d], v)
      ensures ok && r == 0 ==> TableAdded(old(mem)[d], mem[d], v / NENTRIES)
    {
      ghost var t := St();
      NewSpaceDirs(s, t, d);
      assert UserView(t, dir, v) == UserView(s, dir, v);
      UnmappedAbsent(low, t, dir, v);
      if Present(Pte(mem, dir, v)) {
        AbsentTable(t, dir, v);
        FlagsOdd(Pte(mem, dir, v));
      }
      hide Slot, Pte, UserView, Owned, Partition, NewSpace, EntryFor, PageAdded, SameViews, Frame, Flags, ListOk;
      hide TableAdded, TableCost;
      r, ok := -1, false;
      var tb := Walkpgdir(dir, v, false);
      if tb == 0 {
        return;  // "copyuvm: pte should exist"
      }
      PteIs(t, dir, v);
      var w := mem[tb][v % NENTRIES];
      if !Present(w) {
        return;  // "copyuvm: page not present"
      }
      var pa, flags := Frame(w), Flags(w);
      assert PageOk(mem[pa]);
      ok := true;
      r := PlaceCopy(d, v, mem[pa], flags, s);
    }

    static lemma FlagsOdd(w: int)
      requires Present(w)
      ensures 0 <= Flags(w) < PGSIZE && Flags(w) + 1 - Flags(w) % 2 == Flags(w)
    {
      var q, r := w / 4096, w % 4096;
      assert w == q * 4096 + r;
      SameParity(w, q * 2048, r);
    }

    static lemma SameParity(w: int, q: int, r: int)
      requires w == 2 * q + r
      ensures w % 2 == r % 2
    {
    }

    static lemma AbsentTable(s: State, dir: int, v: nat)
      requires MemOk(s.mem) && IsDir(s, dir) && v < VPAGES && Present(Pte(s.mem, dir, v))
      ensures HasTable(s, dir, v)
    {
    }

    static lemma DStill(low: nat, t: State, u: State, d: int, v: nat)
      requires Inv(low, t) && Inv(low, u) && IsDir(t, d) && v < UPAGES && u.owner == t.owner && SameViews(t, u)
      requires UserView(t, d, v) == Unmapped
      ensures IsDir(u, d) && UserView(u, d, v) == Unmapped
    {
      hide UserView;
    }

    static lemma GaveBack(s: State, t: State, u: State, w: State, d: int, p: int)
      requires MemOk(s.mem) && MemOk(t.mem) && MemOk(u.mem) && MemOk(w.mem) && NewSpace(s, t, d) && p !in t.held
      requires u.owner == t.owner && u.held == t.held + {p} && SameViews(t, u)
      requires w.owner == u.owner && w.held == u.held - {p} && SameViews(u, w)
      ensures NewSpace(s, w, d)
    {
      hide UserView;
      assert forall e :: IsDir(t, e) <==> IsDir(u, e);
      assert Others(w, d) == Others(t, d);
      assert w.held == t.held;
      assert OnlyDir(t, w, d) && Elsewhere(t, w, d);
      NewSpaceGrows(s, t, w, d);
    }

    /**
      A new address space with the same contents and flags in pages of its own.  If all n pages below the
      size are mapped, it succeeds exactly if there are free pages for the kernel's part, the n pages and
      their page tables; otherwise it returns 0 with every page back on the free list.  At the first page
      that is not mapped it panics, exactly if the pages suffice up to there.
     */
    method Copyuvm(dir: nat, sz: nat, data: nat) returns (d: nat, ok: bool)
      requires Valid() && IsDir(St(), dir) && DataOk(data) && sz <= KERNBASE
      modifies this`mem, this`freelist, this`free, this`owner, this`held
      ensures Valid()
      ensures AllMapped(old(St()), dir, RoundUp(sz)) ==>
                ok && (d != 0 <==> |old(free)| >= KVMPAGES + CopyCost(RoundUp(sz)))
      ensures forall u :: FirstHole(old(St()), dir, RoundUp(sz), u) ==>
                (!ok <==> |old(free)| >= KVMPAGES + CopyCost(u)) && (ok ==> d == 0)
      ensures ok && d == 0 ==> owner == old(owner) && held == old(held) && SameViews(old(St()), St())
      ensures ok && d == 0 ==> forall p :: p in free <==> p in old(free)
      ensures ok && d != 0 ==> NewSpace(old(St()), St(), d) && Copied(old(St()), St(), dir, d, RoundUp(sz), data)
      ensures ok && d != 0 ==> AllMapped(old(St()), dir, RoundUp(sz))
    {
      ghost var s := St();
      ok := true;
      d := Setupkvm(data);
      if d == 0 {
        SameFree(low, s, St());
        return;
      }
      NothingYet(low, s, St(), dir, d, data);
      assert NoUserTables(mem[d]);
      hide Slot, Pte, UserView, Owned, Partition, SameViews, NewSpace, KernelPart, KernelEntry, Copied, RoundUp, Others;
      hide AllMapped, FirstHole, CopyCost, HasRows;
      var done;
      done, ok := CopyPages(dir, d, sz, data, RoundUp(sz), s);
      if ok && !done {
        Discard(d, s);
        d := 0;
      }
    }

    /** Directory page pg has no page table for user pages. */
    static ghost predicate NoUserTables(pg: Page) {
      |pg| == NENTRIES && forall i :: 0 <= i < UPAGES / NENTRIES ==> !Present(pg[i])
    }

    /** The pages that n pages and their page tables take in an address space that has none. */
    static function CopyCost(n: nat): nat {
      n + (n + NENTRIES - 1) / NENTRIES
    }

    /** Page u is the first below n that is not mapped. */
    static ghost predicate FirstHole(s: State, dir: int, n: nat, u: int)
      requires MemOk(s.mem) && 0 <= dir < NPAGES && n <= UPAGES
    {
      0 <= u < n && UserView(s, dir, u) == Unmapped && AllMapped(s, dir, u)
    }

    static ghost predicate AllMapped(s: State, dir: int, n: nat)
      requires MemOk(s.mem) && 0 <= dir < NPAGES && n <= UPAGES
    {
      forall u :: 0 <= u < n ==> UserView(s, dir, u) != Unmapped
    }

    /** A turn of the loop of copyuvm, after v pages; pg is what the directory page was at the start. */
    method CopyTurn(dir: nat, d: nat, v: nat, data: nat, ghost s: State, ghost pg: Page, ghost f: nat)
      returns (r: int, ok: bool)
      requires Valid() && Inv(low, s) && IsDir(s, dir) && DataOk(data) && NewSpace(s, St(), d) && v < UPAGES
      requires Copied(s, St(), dir, d, v, data)
      requires TablesNow(pg, mem[d], 0, v) && |free| + v + NewTables(pg, 0, v) == f
      modifies this`mem, this`freelist, this`free, this`owner, this`held
      ensures Valid() && NewSpace(s, St(), d) && (r == 0 || r == -1)
      ensures ok <==> UserView(s, dir, v) != Unmapped
      ensures ok && r == 0 ==> Copied(s, St(), dir, d, v + 1, data)
      ensures ok && r == 0 ==> TablesNow(pg, mem[d], 0, v + 1) && |free| + v + 1 + NewTables(pg, 0, v + 1) == f
      ensures ok && r == -1 ==> f < v + 1 + NewTables(pg, 0, v + 1)
    {
      hide Slot, Pte, Owned, Partition, SameViews, NewSpace, PageAdded, KernelEntry, RoundUp, Others, UserView;
      hide TablesNow, NewTables, TableAdded;
      ghost var t := St();
      TurnCost(pg, mem[d], 0, v);
      r, ok := CopyPage(dir, d, v, s);
      if ok && r == 0 {
        CopiedMore(low, s, t, St(), dir, d, v, data);
        TurnTables(pg, t.mem[d], mem[d], 0, v);
      }
    }

    /** The loop of copyuvm; not done when the pages run out. */
    method CopyPages(dir: nat, d: nat, sz: nat, data: nat, ghost n: nat, ghost s: State) returns (done: bool, ok: bool)
      requires Valid() && Inv(low, s) && IsDir(s, dir) && DataOk(data) && n == RoundUp(sz) <= UPAGES && NewSpace(s, St(), d)
      requires Copied(s, St(), dir, d, 0, data) && NoUserTables(mem[d])
      modifies this`mem, this`freelist, this`free, this`owner, this`held
      ensures Valid() && NewSpace(s, St(), d)
      ensures ok && done ==> Copied(s, St(), dir, d, n, data) && AllMapped(s, dir, n)
      ensures CopyOutcome(s, dir, n, |old(free)|, done, ok)
    {
      assert 0 <= d < NPAGES;
      hide Slot, Pte, UserView, Owned, Partition, SameViews, NewSpace, KernelEntry, RoundUp, Others, Copied;
      assert |mem[d]| == NENTRIES;
      hide TablesNow, NewTables, AllMapped, CopyOutcome, ListOk, NoUserTables, PageOk;
      ghost var pg, f := mem[d], |free|;
      TablesStart(pg, 0);
      CopyStart(s, dir, pg);
      var v := 0;
      PagesOf(0, sz);
      while v * PGSIZE < sz
        invariant v <= n && (v * PGSIZE < sz <==> v < n) && Valid() && NewSpace(s, St(), d)
        invariant Copied(s, St(), dir, d, v, data) && AllMapped(s, dir, v)
        invariant TablesNow(pg, mem[d], 0, v) && |free| + v + NewTables(pg, 0, v) == f
        decreases n - v
      {
        var r;
        r, ok := CopyTurn(dir, d, v, data, s, pg, f);
        if !ok || r < 0 {
          CopyEnds(s, dir, pg, f, n, v, ok);
          return false, ok;
        }
        MappedMore(s, dir, v);
        PagesOf(v + 1, sz);
        v := v + 1;
      }
      done, ok := true, true;
      CopyDone(s, dir, pg, f, n);
    }

    /** The first k pages of sz bytes. */
    static lemma PagesOf(k: nat, sz: nat)
      ensures k * PGSIZE / PGSIZE == k && (k + 1) * PGSIZE == k * PGSIZE + PGSIZE && (k * PGSIZE < sz <==> k < RoundUp(sz))
    {
    }

    static lemma MappedMore(s: State, dir: int, k: nat)
      requires MemOk(s.mem) && 0 <= dir < NPAGES && k < UPAGES && AllMapped(s, dir, k) && UserView(s, dir, k) != Unmapped
      ensures AllMapped(s, dir, k + 1)
    {
      hide UserView;
    }

    /** When the loop of copyuvm, begun with f free pages, is done and when it panics. */
    static ghost predicate CopyOutcome(s: State, dir: int, n: nat, f: nat, done: bool, ok: bool)
      requires MemOk(s.mem) && 0 <= dir < NPAGES && n <= UPAGES
    {
      && (AllMapped(s, dir, n) ==> ok && (done <==> f >= CopyCost(n)))
      && forall u :: FirstHole(s, dir, n, u) ==> (!ok <==> f >= CopyCost(u)) && (ok ==> !done)
    }

    static lemma CopyStart(s: State, dir: int, pg: Page)
      requires MemOk(s.mem) && 0 <= dir < NPAGES && |pg| == NENTRIES
      ensures AllMapped(s, dir, 0) && NewTables(pg, 0, 0) == 0
    {
    }

    /** The loop stops at page v: at a hole, or for want of pages. */
    static lemma CopyEnds(s: State, dir: int, pg: Page, f: nat, n: nat, v: nat, ok: bool)
      requires MemOk(s.mem) && 0 <= dir < NPAGES && v < n <= UPAGES && AllMapped(s, dir, v)
      requires NoUserTables(pg)
      requires ok <==> UserView(s, dir, v) != Unmapped
      requires if ok then f < v + 1 + NewTables(pg, 0, v + 1) else f >= v + NewTables(pg, 0, v)
      ensures CopyOutcome(s, dir, n, f, false, ok)
    {
      hide UserView, NewTables, CopyCost;
      CostIs(pg, v);
      CostIs(pg, v + 1);
      CostGrows(v + 1, n);
      forall u | FirstHole(s, dir, n, u) ensures (!ok <==> f >= CopyCost(u)) {
        if ok { CostGrows(v + 1, u); } else { assert u == v; }
      }
    }

    static lemma CopyDone(s: State, dir: int, pg: Page, f: nat, n: nat)
      requires MemOk(s.mem) && 0 <= dir < NPAGES && n <= UPAGES && AllMapped(s, dir, n)
      requires NoUserTables(pg) && f >= n + NewTables(pg, 0, n)
      ensures CopyOutcome(s, dir, n, f, true, true)
    {
      hide UserView, NewTables;
      CostIs(pg, n);
    }

    static lemma CostIs(pg: Page, n: nat)
      requires n <= UPAGES && NoUserTables(pg)
      ensures n + NewTables(pg, 0, n) == CopyCost(n)
    {
      EmptyStart(pg, n);
    }

    static lemma CostGrows(a: nat, b: nat)
      requires a <= b
      ensures CopyCost(a) <= CopyCost(b)
    {
    }

    /** The first n user pages of d are as those of dir in s, and the kernel's part is there. */
    static ghost predicate Copied(s: State, t: State, dir: int, d: int, n: nat, data: nat)
      requires MemOk(s.mem) && MemOk(t.mem) && DataOk(data)
    {
      && 0 <= dir < NPAGES && 0 <= d < NPAGES
      && (forall u :: 0 <= u < UPAGES ==> UserView(t, d, u) == if u < n then UserView(s, dir, u) else Unmapped)
      && (forall u :: UPAGES <= u < VPAGES ==> Pte(t.mem, d, u) == KernelEntry(data, u))
    }

    static lemma NothingYet(low: nat, s: State, t: State, dir: int, d: int, data: nat)
      requires Inv(low, s) && Inv(low, t) && IsDir(s, dir) && NewSpace(s, t, d) && DataOk(data)
      requires KernelPart(t.mem, d, data, 4)
      ensures Copied(s, t, dir, d, 0, data)
    {
      forall u | 0 <= u < UPAGES ensures UserView(t, d, u) == Unmapped { UnmappedAbsent(low, t, d, u); }
    }

    /** Gives back an address space made since s. */
    method Discard(d: nat, ghost s: State)
      requires Valid() && Inv(low, s) && NewSpace(s, St(), d)
      modifies this`mem, this`freelist, this`free, this`owner, this`held
      ensures Valid() && owner == s.owner && held == s.held && SameViews(s, St())
      ensures forall p :: p in free <==> p in s.free
    {
      hide Slot, Pte, UserView, Owned, Partition;
      ghost var t := St();
      Freevm(d);
      NewSpaceEnds(s, t, St(), d);
      SameFree(low, s, St());
    }

    static lemma CopiedMore(low: nat, s: State, t: State, u: State, dir: int, d: int, v: nat, data: nat)
      requires MemOk(s.mem) && MemOk(t.mem) && 0 <= dir < NPAGES && v < UPAGES && DataOk(data)
      requires Copied(s, t, dir, d, v, data) && PageAdded(low, t, u, d, v, UserView(s, dir, v))
      ensures Copied(s, u, dir, d, v + 1, data)
    {
      hide UserView, Pte;
    }

    /** User pages lo to hi of dir are new, zeroed and writable; all other views are as in s. */
    static ghost predicate Grown(s: State, t: State, dir: int, lo: int, hi: int)
      requires MemOk(s.mem) && MemOk(t.mem)
    {
      forall e, u :: IsDir(s, e) && 0 <= u < UPAGES ==>
        UserView(t, e, u) == if e == dir && lo <= u < hi then Mapped(7, Filled(0)) else UserView(s, e, u)
    }

    static lemma GrownMore(low: nat, s: State, t: State, u: State, dir: int, lo: int, v: nat)
      requires Inv(low, s) && MemOk(t.mem) && lo <= v && OnlyDir(s, t, dir) && Grown(s, t, dir, lo, v)
      requires PageAdded(low, t, u, dir, v, Mapped(7, Filled(0)))
      ensures OnlyDir(s, u, dir) && Grown(s, u, dir, lo, v + 1)
    {
      hide UserView, Pte;
      forall e ensures IsDir(s, e) <==> IsDir(t, e) { OthersDirs(s, t, dir, e); }
    }

    /** Cutting off what has grown is cutting off what was there. */
    static lemma GrownCut(s: State, t: State, u: State, dir: int, lo: int, mid: int, hi: int)
      requires MemOk(s.mem) && MemOk(t.mem) && MemOk(u.mem) && mid <= hi
      requires Grown(s, t, dir, lo, mid) && Cut(t, u, dir, lo, hi) && forall e :: IsDir(s, e) ==> IsDir(t, e)
      ensures Cut(s, u, dir, lo, hi)
    {
      hide UserView;
    }

    /** Where nothing was mapped, cutting off leaves the views as they were. */
    static lemma CutNothing(s: State, u: State, dir: int, lo: int, hi: int)
      requires MemOk(s.mem) && MemOk(u.mem) && 0 <= dir < NPAGES && Cut(s, u, dir, lo, hi)
      requires forall v :: 0 <= v < UPAGES && lo <= v < hi ==> UserView(s, dir, v) == Unmapped
      ensures SameViews(s, u)
    {
      hide UserView;
    }

    /** Some page in the range is mapped. */
    static ghost predicate SomeMapped(s: State, dir: int, lo: int, hi: int)
      requires MemOk(s.mem) && 0 <= dir < NPAGES
    {
      exists v :: 0 <= v < UPAGES && lo <= v < hi && UserView(s, dir, v) != Unmapped
    }

    /** Page u is the first in the range that is mapped. */
    static ghost predicate FirstMapped(s: State, dir: int, lo: nat, hi: nat, u: int)
      requires MemOk(s.mem) && 0 <= dir < NPAGES && hi <= UPAGES
    {
      lo <= u < hi && UserView(s, dir, u) != Unmapped && !SomeMapped(s, dir, lo, u)
    }

    /** The pages lo to hi and the page tables that they need besides those of pg. */
    static ghost function GrowCost(pg: Page, lo: nat, hi: nat): int
      requires |pg| == NENTRIES && hi <= VPAGES
    {
      hi - lo + NewTables(pg, lo, hi)
    }

    /** When the loop of allocuvm, begun with f free pages, is done and when it panics. */
    static ghost predicate GrowOutcome(s: State, dir: int, pg: Page, lo: nat, hi: nat, f: nat, done: bool, ok: bool)
      requires MemOk(s.mem) && 0 <= dir < NPAGES && hi <= UPAGES && |pg| == NENTRIES
    {
      && (!SomeMapped(s, dir, lo, hi) ==> ok && (done <==> f >= GrowCost(pg, lo, hi)))
      && forall u :: FirstMapped(s, dir, lo, hi, u) ==> (!ok <==> f > GrowCost(pg, lo, u)) && (ok ==> !done)
    }

    static lemma GrowCostGrows(pg: Page, lo: nat, v: nat, hi: nat)
      requires |pg| == NENTRIES && lo <= v <= hi <= VPAGES
      ensures GrowCost(pg, lo, v) <= GrowCost(pg, lo, hi) - (hi - v)
    {
      NewTablesGrow(pg, lo, v, hi);
    }

    /** The loop stops at page v: at a mapped page, or for want of pages. */
    static lemma GrowEnds(s: State, dir: int, pg: Page, lo: nat, hi: nat, f: nat, v: nat, ok: bool)
      requires MemOk(s.mem) && 0 <= dir < NPAGES && lo <= v < hi <= UPAGES && |pg| == NENTRIES && !SomeMapped(s, dir, lo, v)
      requires !ok ==> UserView(s, dir, v) != Unmapped && f > GrowCost(pg, lo, v)
      requires ok ==> f < GrowCost(pg, lo, v + 1) && (UserView(s, dir, v) != Unmapped ==> f <= GrowCost(pg, lo, v))
      ensures GrowOutcome(s, dir, pg, lo, hi, f, false, ok)
    {
      hide UserView, GrowCost;
      GrowCostGrows(pg, lo, v + 1, hi);
      forall u | FirstMapped(s, dir, lo, hi, u) ensures (!ok <==> f > GrowCost(pg, lo, u)) {
        if UserView(s, dir, v) == Unmapped { GrowCostGrows(pg, lo, v + 1, u); } else { assert u == v; }
      }
    }

    static lemma GrowDone(s: State, dir: int, pg: Page, lo: nat, hi: nat, f: nat)
      requires MemOk(s.mem) && 0 <= dir < NPAGES && hi <= UPAGES && |pg| == NENTRIES && !SomeMapped(s, dir, lo, hi)
      requires f >= GrowCost(pg, lo, hi)
      ensures GrowOutcome(s, dir, pg, lo, hi, f, true, true)
    {
      hide UserView, GrowCost;
    }

    static lemma NoneMapped(s: State, dir: int, lo: nat, v: nat)
      requires MemOk(s.mem) && 0 <= dir < NPAGES && v < UPAGES
      requires !SomeMapped(s, dir, lo, v) && UserView(s, dir, v) == Unmapped
      ensures !SomeMapped(s, dir, lo, v + 1)
    {
      hide UserView;
    }

    /**
      Grows an address space from oldsz to newsz bytes by zeroed pages.  If no page in the range is mapped,
      it succeeds exactly if there are free pages for them and for the page tables they need.  When the
      pages run out, the range is unmapped again, so that every view is as before if nothing was mapped
      there; only page tables may have been added.  At the first page that is mapped it panics, exactly if
      the pages suffice up to there and for one more.
     */
    method Allocuvm(dir: nat, oldsz: nat, newsz: nat) returns (r: nat, ok: bool)
      requires Valid() && IsDir(St(), dir)
      modifies this`mem, this`freelist, this`free, this`owner, this`held
      ensures Valid() && (ok ==> OnlyDir(old(St()), St(), dir))
      ensures !ok ==> oldsz <= newsz < KERNBASE && SomeMapped(old(St()), dir, RoundUp(oldsz), RoundUp(newsz))
      ensures newsz >= KERNBASE ==> r == 0 && St() == old(St())
      ensures newsz < KERNBASE && newsz < oldsz ==> r == oldsz && St() == old(St())
      ensures ok && oldsz <= newsz < KERNBASE ==> r == newsz || r == 0
      ensures ok && oldsz <= newsz < KERNBASE && r == newsz ==>
                Grown(old(St()), St(), dir, RoundUp(oldsz), RoundUp(newsz))
      ensures ok && oldsz <= newsz < KERNBASE && r == newsz ==>
                !SomeMapped(old(St()), dir, RoundUp(oldsz), RoundUp(newsz))
      ensures ok && oldsz <= newsz < KERNBASE && r != newsz ==>
                Cut(old(St()), St(), dir, RoundUp(oldsz), RoundUp(newsz))
      ensures ok && oldsz <= newsz < KERNBASE && r != newsz ==>
                SomeMapped(old(St()), dir, RoundUp(oldsz), RoundUp(newsz)) || SameViews(old(St()), St())
      ensures oldsz <= newsz < KERNBASE && !SomeMapped(old(St()), dir, RoundUp(oldsz), RoundUp(newsz)) ==>
                ok && (r == newsz <==> |old(free)| >= GrowCost(old(mem)[dir], RoundUp(oldsz), RoundUp(newsz)))
      ensures oldsz <= newsz < KERNBASE ==> forall u :: FirstMapped(old(St()), dir, RoundUp(oldsz), RoundUp(newsz), u) ==>
                (!ok <==> |old(free)| > GrowCost(old(mem)[dir], RoundUp(oldsz), u)) && (ok ==> r != newsz)
    {
      ghost var s := St();
      SameStart(s, dir);
      ok := true;
      if newsz >= KERNBASE {
        return 0, true;
      }
      if newsz < oldsz {
        return oldsz, true;
      }
      hide Slot, Pte, UserView, Owned, Partition, SameViews, EntryFor, PageAdded, OnlyDir, RoundUp, Others, Cut, Grown;
      GrowStart(s, dir, oldsz, newsz);
      hide SomeMapped, FirstMapped, GrowCost, TablesNow;
      var done;
      done, ok := GrowAll(dir, oldsz, newsz, RoundUp(oldsz), RoundUp(newsz), s);
      r := if done then newsz else 0;
    }

    static lemma GrowStart(s: State, dir: int, oldsz: nat, newsz: nat)
      requires MemOk(s.mem) && 0 <= dir < NPAGES && oldsz <= newsz < KERNBASE
      ensures RoundUp(oldsz) <= RoundUp(newsz) <= UPAGES && !SomeMapped(s, dir, RoundUp(oldsz), RoundUp(oldsz))
      ensures TablesNow(s.mem[dir], s.mem[dir], RoundUp(oldsz), RoundUp(oldsz))
      ensures GrowCost(s.mem[dir], RoundUp(oldsz), RoundUp(oldsz)) == 0
    {
      TablesStart(s.mem[dir], RoundUp(oldsz));
    }

    /** The loop of allocuvm, over the pages lo to hi; not done when the pages run out. */
    method GrowAll(dir: nat, oldsz: nat, newsz: nat, ghost lo: nat, ghost hi: nat, ghost s: State)
      returns (done: bool, ok: bool)
      requires Valid() && IsDir(St(), dir) && s == St() && oldsz <= newsz < KERNBASE
      requires lo == RoundUp(oldsz) <= hi == RoundUp(newsz) <= UPAGES && !SomeMapped(s, dir, lo, lo)
      requires OnlyDir(s, s, dir) && Grown(s, s, dir, lo, lo)
      requires TablesNow(mem[dir], mem[dir], lo, lo) && GrowCost(mem[dir], lo, lo) == 0
      modifies this`mem, this`freelist, this`free, this`owner, this`held
      ensures Valid() && (ok ==> OnlyDir(s, St(), dir)) && (ok && !done ==> newsz > 0)
      ensures !ok ==> SomeMapped(s, dir, lo, hi)
      ensures ok && done ==> Grown(s, St(), dir, lo, hi) && !SomeMapped(s, dir, lo, hi)
      ensures ok && !done ==> Cut(s, St(), dir, lo, hi) && (!SomeMapped(s, dir, lo, hi) ==> SameViews(s, St()))
      ensures GrowOutcome(s, dir, s.mem[dir], lo, hi, |s.free|, ok && done, ok)
    {
      hide Slot, Pte, UserView, Owned, Partition, SameViews, EntryFor, PageAdded, OnlyDir, RoundUp, Others, Cut, Grown;
      hide SomeMapped, FirstMapped, GrowCost, GrowOutcome, TablesNow;
      ghost var k, pg := lo, mem[dir];
      var a := RoundUp(oldsz) * PGSIZE;
      PagesOf(k, newsz);
      ok := true;
      while a < newsz
        invariant a == k * PGSIZE && lo <= k <= hi && (a < newsz <==> k < hi)
        invariant Valid() && OnlyDir(s, St(), dir) && Grown(s, St(), dir, lo, k) && !SomeMapped(s, dir, lo, k)
        invariant TablesNow(pg, mem[dir], lo, k) && |free| + GrowCost(pg, lo, k) == |s.free|
      {
        PagesOf(k, newsz);
        done, ok := GrowTurn(dir, a / PGSIZE, oldsz, newsz, s);
        if !ok || !done {
          GrowEnds(s, dir, pg, lo, hi, |s.free|, k, ok);
          if ok && !SomeMapped(s, dir, lo, hi) { NothingCut(s, St(), dir, lo, hi); }
          return;
        }
        NoneMapped(s, dir, lo, k);
        PagesOf(k + 1, newsz);
        a, k := a + PGSIZE, k + 1;
      }
      GrowDone(s, dir, pg, lo, hi, |s.free|);
      done, ok := true, true;
    }

    static lemma NothingCut(s: State, u: State, dir: int, lo: nat, hi: nat)
      requires MemOk(s.mem) && MemOk(u.mem) && 0 <= dir < NPAGES && Cut(s, u, dir, lo, hi) && !SomeMapped(s, dir, lo, hi)
      ensures SameViews(s, u)
    {
      hide UserView;
      CutNothing(s, u, dir, lo, hi);
    }

    /** One turn of allocuvm at page v, with the clean-up when it fails. */
    method GrowTurn(dir: nat, v: nat, oldsz: nat, newsz: nat, ghost s: State) returns (done: bool, ok: bool)
      requires Valid() && Inv(low, s) && IsDir(s, dir) && oldsz <= newsz < KERNBASE
      requires RoundUp(oldsz) <= v < RoundUp(newsz)
      requires OnlyDir(s, St(), dir) && Grown(s, St(), dir, RoundUp(oldsz), v) && v < UPAGES
      requires TablesNow(s.mem[dir], mem[dir], RoundUp(oldsz), v)
      requires |free| + GrowCost(s.mem[dir], RoundUp(oldsz), v) == |s.free|
      modifies this`mem, this`freelist, this`free, this`owner, this`held
      ensures Valid()
      ensures !ok ==> UserView(s, dir, v) != Unmapped
      ensures ok ==> OnlyDir(s, St(), dir)
      ensures ok && done ==> UserView(s, dir, v) == Unmapped && Grown(s, St(), dir, RoundUp(oldsz), v + 1)
      ensures !ok ==> SomeMapped(s, dir, RoundUp(oldsz), RoundUp(newsz))
      ensures ok && !done ==> Cut(s, St(), dir, RoundUp(oldsz), RoundUp(newsz))
      ensures ok && done ==> TablesNow(s.mem[dir], mem[dir], RoundUp(oldsz), v + 1)
      ensures ok && done ==> |free| + GrowCost(s.mem[dir], RoundUp(oldsz), v + 1) == |s.free|
      ensures !ok ==> |s.free| > GrowCost(s.mem[dir], RoundUp(oldsz), v)
      ensures ok && !done ==> |s.free| < GrowCost(s.mem[dir], RoundUp(oldsz), v + 1)
      ensures ok && !done && UserView(s, dir, v) != Unmapped ==> |s.free| <= GrowCost(s.mem[dir], RoundUp(oldsz), v)
    {
      ghost var t := St();
      forall e ensures IsDir(s, e) <==> IsDir(t, e) { OthersDirs(s, t, dir, e); }
      assert UserView(t, dir, v) == UserView(s, dir, v);
      if UserView(s, dir, v) != Unmapped { MappedSome(s, dir, RoundUp(oldsz), RoundUp(newsz), v); }
      GrowStep(s.mem[dir], mem[dir], RoundUp(oldsz), v);
      hide Slot, Pte, UserView, Owned, Partition, EntryFor, PageAdded, RoundUp, MappedTo, Grown, Cut;
      hide TablesNow, GrowCost, TableCost, TableAdded, SomeMapped;
      done, ok := false, true;
      var p := AllocFilled(Filled(0));
      if p == 0 {
        var r := Deallocuvm(dir, newsz, oldsz);
        GrownCut(s, t, St(), dir, RoundUp(oldsz), v, RoundUp(newsz));
        OnlyThen(s, t, St(), dir);
        return;
      }
      ghost var t2 := St();
      FirstFree(low, t);
      ViewStill(low, t, t2, dir, v);
      var m;
      m, ok := MapUser(dir, v, p, 6);
      if !ok {
        return;
      }
      if m < 0 {
        UndoGrowth(dir, p, v, oldsz, newsz, s, t);
        return;
      }
      AddPage(low, t, St(), dir, v, 6, Filled(0));
      GrownMore(low, s, t, St(), dir, RoundUp(oldsz), v);
      TurnTables(s.mem[dir], t.mem[dir], mem[dir], RoundUp(oldsz), v);
      done := true;
    }

    static lemma MappedSome(s: State, dir: int, lo: int, hi: int, v: nat)
      requires MemOk(s.mem) && 0 <= dir < NPAGES && v < UPAGES && lo <= v < hi && UserView(s, dir, v) != Unmapped
      ensures SomeMapped(s, dir, lo, hi)
    {
    }

    static lemma GrowStep(pg: Page, now: Page, lo: nat, v: nat)
      requires TablesNow(pg, now, lo, v) && lo <= v < VPAGES
      ensures GrowCost(pg, lo, v + 1) == GrowCost(pg, lo, v) + 1 + TableCost(now, v)
    {
      hide TablesNow, NewTables;
      TurnCost(pg, now, lo, v);
    }

    static lemma ViewStill(low: nat, t: State, u: State, d: int, v: nat)
      requires Inv(low, t) && Inv(low, u) && IsDir(t, d) && v < UPAGES && u.owner == t.owner && SameViews(t, u)
      ensures IsDir(u, d) && UserView(u, d, v) == UserView(t, d, v)
    {
      hide UserView;
    }

    static lemma OnlyThen(s: State, t: State, u: State, dir: int)
      requires OnlyDir(s, t, dir) && OnlyDir(t, u, dir)
      ensures OnlyDir(s, u, dir)
    {
    }

    /** The clean-up of allocuvm when no page table can be made: the page p is still held. */
    method UndoGrowth(dir: nat, p: nat, v: nat, oldsz: nat, newsz: nat, ghost s: State, ghost t: State)
      requires Valid() && Inv(low, s) && Inv(low, t) && IsDir(s, dir) && oldsz <= newsz < KERNBASE
      requires RoundUp(oldsz) <= v < RoundUp(newsz) && (forall e :: IsDir(s, e) ==> IsDir(t, e))
      requires OnlyDir(s, t, dir) && Grown(s, t, dir, RoundUp(oldsz), v)
      requires owner == t.owner && held == t.held + {p} && p !in t.held && SameViews(t, St())
      modifies this`mem, this`freelist, this`free, this`owner, this`held
      ensures Valid() && OnlyDir(s, St(), dir) && Cut(s, St(), dir, RoundUp(oldsz), RoundUp(newsz))
    {
      hide Slot, Pte, UserView, Owned, Partition, RoundUp;
      ghost var t2 := St();
      assert Grown(s, t2, dir, RoundUp(oldsz), v);
      assert forall e :: IsDir(t, e) <==> IsDir(t2, e);
      var r := Deallocuvm(dir, newsz, oldsz);
      ghost var t3 := St();
      hide Cut, Grown;
      GrownCut(s, t2, t3, dir, RoundUp(oldsz), v, RoundUp(newsz));
      FreePage(p);
      ReturnedPage(s, t, t2, t3, St(), dir, p, RoundUp(oldsz), RoundUp(newsz));
    }

    static lemma ReturnedPage(s: State, t: State, t2: State, t3: State, w: State, dir: int, p: int, lo: int, hi: int)
      requires MemOk(s.mem) && MemOk(t3.mem) && MemOk(w.mem) && IsDir(s, dir)
      requires OnlyDir(s, t, dir) && t2.owner == t.owner && t2.held == t.held + {p} && p !in t.held
      requires OnlyDir(t2, t3, dir) && Cut(s, t3, dir, lo, hi)
      requires w.owner == t3.owner && w.held == t3.held - {p} && SameViews(t3, w)
      ensures OnlyDir(s, w, dir) && Cut(s, w, dir, lo, hi)
    {
      hide UserView;
      assert Others(t2, dir) == Others(t, dir) && Others(w, dir) == Others(t3, dir);
      assert w.held == s.held;
      forall e ensures IsDir(s, e) ==> IsDir(t3, e) {
        OthersDirs(s, t, dir, e);
        OthersDirs(t2, t3, dir, e);
      }
    }
  }

  /** The number of pages that n bytes need. */
  function RoundUp(n: nat): (k: nat)
    ensures k * PGSIZE >= n && (k > 0 ==> (k - 1) * PGSIZE < n)
  {
    (n + PGSIZE - 1) / PGSIZE
  }
}
