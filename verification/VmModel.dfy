/**
  Physical pages and two-level page tables: the free list of kalloc.c and the page directories of
  vm.c as values, and the invariant that every page is free, or part of one address space in one
  place, or in the hands of some other part of the kernel.  A page is a sequence of 1024 words.
 */
module VmModel {
  import opened Params
  import RunQueue

  const PGSIZE: nat := 4096
  const NENTRIES: nat := 1024
  const KERNBASE: nat := 0x8000_0000
  const PHYSTOP: nat := 0xE00_0000
  /** The number of physical pages, and of virtual pages below KERNBASE. */
  const NPAGES: nat := PHYSTOP / PGSIZE
  const UPAGES: nat := KERNBASE / PGSIZE
  const VPAGES: nat := NENTRIES * NENTRIES
  /** The slots of a page directory: its page tables, then its user pages. */
  const NSLOT: nat := NENTRIES + UPAGES

  type Page = seq<int>
  type Memory = seq<Page>

  ghost predicate PageOk(pg: Page) {
    |pg| == NENTRIES && forall j :: 0 <= j < NENTRIES ==> 0 <= pg[j] < UINT
  }

  ghost predicate MemOk(mem: Memory) {
    |mem| == NPAGES && forall p :: 0 <= p < NPAGES ==> PageOk(mem[p])
  }

  function Filled(w: int): (pg: Page)
    ensures |pg| == NENTRIES && forall j :: 0 <= j < NENTRIES ==> pg[j] == w
  {
    seq(NENTRIES, _ => w)
  }

  // ----- entries -----

  predicate Present(w: int) { w % 2 == 1 }

  function Frame(w: int): int { w / PGSIZE }

  function Flags(w: int): int { w % PGSIZE }

  /** A present entry for page p; perm is below PGSIZE. */
  function EntryFor(p: int, perm: int): (w: int)
    requires 0 <= p < VPAGES && 0 <= perm < PGSIZE
    ensures 0 <= w < UINT && Present(w) && Frame(w) == p && Flags(w) == perm + 1 - perm % 2
  {
    p * PGSIZE + perm + 1 - perm % 2
  }

  /** The page an entry refers to, -1 if it is not present. */
  function Target(w: int): int {
    if Present(w) then Frame(w) else -1
  }

  /** The page table entry of virtual page v, 0 if there is no page table for it. */
  ghost function Pte(mem: Memory, dir: int, v: nat): int
    requires MemOk(mem) && 0 <= dir < NPAGES && v < VPAGES
  {
    var w := mem[dir][v / NENTRIES];
    if Present(w) && 0 <= Frame(w) < NPAGES then mem[Frame(w)][v % NENTRIES] else 0
  }

  // ----- ownership -----

  /** What a page is used for: a page directory, or what slot k of a directory refers to. */
  datatype Role = Dir | Place(dir: int, k: nat)

  datatype State = State(mem: Memory, free: seq<int>, owner: map<int, Role>, held: set<int>)

  /** The page in slot k of directory dir: page table k, or user page k - NENTRIES; -1 if none. */
  ghost function Slot(mem: Memory, dir: int, k: nat): int
    requires MemOk(mem) && 0 <= dir < NPAGES && k < NSLOT
  {
    if k < NENTRIES then Target(mem[dir][k]) else Target(Pte(mem, dir, k - NENTRIES))
  }

  ghost predicate IsDir(s: State, dir: int) {
    dir in s.owner && s.owner[dir] == Dir && 0 <= dir < NPAGES
  }

  ghost predicate SlotOwned(s: State, dir: int, k: nat)
    requires MemOk(s.mem) && 0 <= dir < NPAGES && k < NSLOT
  {
    var p := Slot(s.mem, dir, k);
    p != -1 ==> p in s.owner && s.owner[p] == Place(dir, k)
  }

  ghost predicate OwnerOk(s: State, p: int)
    requires MemOk(s.mem) && p in s.owner
  {
    match s.owner[p]
    case Dir => true
    case Place(dir, k) => IsDir(s, dir) && k < NSLOT && Slot(s.mem, dir, k) == p
  }

  /** Every allocatable page is on the free list once, or owned, or held outside the page tables. */
  ghost predicate Partition(low: nat, s: State) {
    && RunQueue.Distinct(s.free)
    && (forall p :: p in s.free ==> low <= p < NPAGES && p !in s.owner && p !in s.held)
    && (forall p :: p in s.owner ==> low <= p < NPAGES && p !in s.held)
    && (forall p :: p in s.held ==> low <= p < NPAGES)
    && (forall p :: low <= p < NPAGES ==> p in s.free || p in s.owner || p in s.held)
  }

  ghost predicate Owned(s: State)
    requires MemOk(s.mem)
  {
    && (forall dir, k :: IsDir(s, dir) && 0 <= k < NSLOT ==> SlotOwned(s, dir, k))
    && (forall p :: p in s.owner ==> OwnerOk(s, p))
  }

  /** low is the first page behind the kernel. */
  ghost predicate Inv(low: nat, s: State) {
    0 < low <= NPAGES && MemOk(s.mem) && Partition(low, s) && Owned(s)
  }

  /** No page is mapped in two places, and a mapped page is not free. */
  lemma MappedOnce(low: nat, s: State, d: int, k: nat, e: int, l: nat)
    requires Inv(low, s) && IsDir(s, d) && IsDir(s, e) && k < NSLOT && l < NSLOT
    requires Slot(s.mem, d, k) == Slot(s.mem, e, l) != -1
    ensures d == e && k == l && Slot(s.mem, d, k) !in s.free && !IsDir(s, Slot(s.mem, d, k))
  {
    assert SlotOwned(s, d, k) && SlotOwned(s, e, l);
  }

  // ----- what a user sees -----

  datatype View = Unmapped | Mapped(flags: int, page: Page)

  ghost function UserView(s: State, dir: int, v: nat): View
    requires MemOk(s.mem) && 0 <= dir < NPAGES && v < UPAGES
  {
    var w := Pte(s.mem, dir, v);
    if Present(w) && 0 <= Frame(w) < NPAGES then Mapped(Flags(w), s.mem[Frame(w)]) else Unmapped
  }

  /** Every user page of every directory of s looks the same in t, except page v of dir. */
  ghost predicate SameViewsBut(s: State, t: State, dir: int, v: int)
    requires MemOk(s.mem) && MemOk(t.mem)
  {
    forall e, u :: IsDir(s, e) && 0 <= u < UPAGES && !(e == dir && u == v) ==> UserView(t, e, u) == UserView(s, e, u)
  }

  ghost predicate SameViews(s: State, t: State)
    requires MemOk(s.mem) && MemOk(t.mem)
  {
    SameViewsBut(s, t, -1, -1)
  }

  // ----- changing pages that are no page tables -----

  /** Nothing a directory refers to is changed by storing pg in page p. */
  ghost function Store(s: State, p: int, pg: Page): State
    requires 0 <= p < |s.mem|
  {
    s.(mem := s.mem[p := pg])
  }

  /** p is no directory and no page table: it is a user page, held or free. */
  ghost predicate Leaf(s: State, p: int) {
    0 <= p < NPAGES && (p in s.owner ==> s.owner[p].Place? && s.owner[p].k >= NENTRIES)
  }

  lemma LeafSlots(low: nat, s: State, p: int, pg: Page)
    requires Inv(low, s) && Leaf(s, p) && PageOk(pg)
    ensures MemOk(Store(s, p, pg).mem)
    ensures forall d, v :: IsDir(s, d) && 0 <= v < VPAGES ==> Pte(Store(s, p, pg).mem, d, v) == Pte(s.mem, d, v)
    ensures forall d, k :: IsDir(s, d) && 0 <= k < NSLOT ==> Slot(Store(s, p, pg).mem, d, k) == Slot(s.mem, d, k)
  {
    var t := Store(s, p, pg);
    forall d, v | IsDir(s, d) && 0 <= v < VPAGES ensures Pte(t.mem, d, v) == Pte(s.mem, d, v) {
      assert SlotOwned(s, d, v / NENTRIES);
    }
    forall d, k | IsDir(s, d) && 0 <= k < NSLOT ensures Slot(t.mem, d, k) == Slot(s.mem, d, k) {
      assert d != p;
    }
  }

  /** Isolation: a store to a user page changes that page of that directory and nothing else. */
  lemma LeafKeeps(low: nat, s: State, p: int, pg: Page)
    requires Inv(low, s) && Leaf(s, p) && PageOk(pg)
    ensures Inv(low, Store(s, p, pg))
    ensures p !in s.owner ==> SameViews(s, Store(s, p, pg))
    ensures p in s.owner ==> SameViewsBut(s, Store(s, p, pg), s.owner[p].dir, s.owner[p].k - NENTRIES)
  {
    hide Slot, Pte;
    LeafSlots(low, s, p, pg);
    var t := Store(s, p, pg);
    forall d, k | IsDir(t, d) && 0 <= k < NSLOT ensures SlotOwned(t, d, k) { assert SlotOwned(s, d, k); }
    forall q | q in t.owner ensures OwnerOk(t, q) { assert OwnerOk(s, q); }
    LeafViews(low, s, p, pg);
  }

  lemma LeafViews(low: nat, s: State, p: int, pg: Page)
    requires Inv(low, s) && Leaf(s, p) && PageOk(pg)
    ensures MemOk(Store(s, p, pg).mem)
    ensures p !in s.owner ==> SameViews(s, Store(s, p, pg))
    ensures p in s.owner ==> SameViewsBut(s, Store(s, p, pg), s.owner[p].dir, s.owner[p].k - NENTRIES)
  {
    LeafSlots(low, s, p, pg);
    var t := Store(s, p, pg);
    forall e, u | IsDir(s, e) && 0 <= u < UPAGES && !(p in s.owner && s.owner[p] == Place(e, NENTRIES + u))
      ensures UserView(t, e, u) == UserView(s, e, u)
    {
      assert SlotOwned(s, e, NENTRIES + u);
      assert Slot(s.mem, e, NENTRIES + u) == Target(Pte(s.mem, e, u));
      hide Pte, Slot;
      assert Pte(t.mem, e, u) == Pte(s.mem, e, u);
    }
  }

  // ----- the free list -----

  function P2V(p: int): int { KERNBASE + p * PGSIZE }

  /** The pages in free are linked through their first words, from head to a null pointer. */
  ghost predicate ListOk(mem: Memory, head: int, free: seq<int>)
    requires MemOk(mem)
    decreases |free|
  {
    if free == [] then head == 0
    else 0 <= free[0] < NPAGES && head == P2V(free[0]) && ListOk(mem, mem[free[0]][0], free[1..])
  }

  /** Storing to a page that is not on the list leaves the list alone. */
  lemma {:induction false} ListFrame(mem: Memory, head: int, free: seq<int>, p: int, pg: Page)
    requires MemOk(mem) && 0 <= p < NPAGES && PageOk(pg) && p !in free && ListOk(mem, head, free)
    ensures MemOk(mem[p := pg]) && ListOk(mem[p := pg], head, free)
    decreases |free|
  {
    if free != [] { ListFrame(mem, mem[free[0]][0], free[1..], p, pg); }
  }

  ghost function Taken(s: State): State
    requires s.free != []
  {
    s.(free := s.free[1..], held := s.held + {s.free[0]})
  }

  lemma TakeKeeps(low: nat, s: State)
    requires Inv(low, s) && s.free != []
    ensures Inv(low, Taken(s)) && s.free[0] in Taken(s).held && SameViews(s, Taken(s))
  {
    hide Slot, Pte;
    var t := Taken(s);
    forall p | p in s.free ensures p == s.free[0] || p in t.free {
      var i :| 0 <= i < |s.free| && s.free[i] == p;
      if i > 0 { assert t.free[i - 1] == p; }
    }
    forall p | p in t.free ensures p in s.free && p != s.free[0] {
      var i :| 0 <= i < |t.free| && t.free[i] == p;
      assert s.free[i + 1] == p;
    }
    assert Partition(low, t);
    SameOwners(s, t);
    assert SameViews(s, t) by { SameMemory(s, t); }
  }

  lemma SameMemory(s: State, t: State)
    requires MemOk(s.mem) && t.mem == s.mem
    ensures SameViews(s, t)
  {
  }

  lemma SameOwners(s: State, t: State)
    requires MemOk(s.mem) && Owned(s) && t.mem == s.mem && t.owner == s.owner
    ensures Owned(t)
  {
    hide Slot, Pte;
    forall d, k | IsDir(t, d) && 0 <= k < NSLOT ensures SlotOwned(t, d, k) {
      assert IsDir(s, d) && SlotOwned(s, d, k);
    }
    forall p | p in t.owner ensures OwnerOk(t, p) { assert OwnerOk(s, p); }
  }

  ghost function Given(s: State, p: int): State {
    s.(free := [p] + s.free, held := s.held - {p})
  }

  lemma GiveKeeps(low: nat, s: State, p: int)
    requires Inv(low, s) && p in s.held
    ensures Inv(low, Given(s, p)) && SameViews(s, Given(s, p))
  {
    hide Slot, Pte;
    var t := Given(s, p);
    forall q | q in s.free ensures q in t.free {
      var i :| 0 <= i < |s.free| && s.free[i] == q;
      assert t.free[i + 1] == q;
    }
    assert Partition(low, t);
    SameOwners(s, t);
    assert SameViews(s, t) by { SameMemory(s, t); }
  }

  // ----- changing one slot -----

  /** t is s with the held page p in slot k of dir, which was empty. */
  ghost predicate Attached(s: State, t: State, dir: int, k: nat, p: int) {
    && MemOk(s.mem) && MemOk(t.mem) && IsDir(s, dir) && k < NSLOT && p in s.held && p !in s.owner
    && t.free == s.free && t.owner == s.owner[p := Place(dir, k)] && t.held == s.held - {p}
    && Slot(s.mem, dir, k) == -1
    && forall e, l :: IsDir(s, e) && 0 <= l < NSLOT ==>
         Slot(t.mem, e, l) == if e == dir && l == k then p else Slot(s.mem, e, l)
  }

  lemma AttachKeeps(low: nat, s: State, t: State, dir: int, k: nat, p: int)
    requires Inv(low, s) && Attached(s, t, dir, k, p)
    ensures Inv(low, t)
  {
    hide Slot;
    forall e, l | IsDir(t, e) && 0 <= l < NSLOT ensures SlotOwned(t, e, l) {
      assert IsDir(s, e) && SlotOwned(s, e, l);
    }
    forall q | q in t.owner ensures OwnerOk(t, q) {
      if q != p { assert OwnerOk(s, q); }
    }
  }

  /** t is s with slot k of dir emptied; its page p is held. */
  ghost predicate Detached(s: State, t: State, dir: int, k: nat, p: int) {
    && MemOk(s.mem) && MemOk(t.mem) && IsDir(s, dir) && k < NSLOT
    && t.free == s.free && t.owner == s.owner - {p} && t.held == s.held + {p}
    && Slot(s.mem, dir, k) == p != -1
    && forall e, l :: IsDir(s, e) && 0 <= l < NSLOT ==>
         Slot(t.mem, e, l) == if e == dir && l == k then -1 else Slot(s.mem, e, l)
  }

  lemma DetachKeeps(low: nat, s: State, t: State, dir: int, k: nat, p: int)
    requires Inv(low, s) && Detached(s, t, dir, k, p)
    ensures Inv(low, t)
  {
    hide Slot;
    assert SlotOwned(s, dir, k);
    forall e, l | IsDir(t, e) && 0 <= l < NSLOT ensures SlotOwned(t, e, l) {
      assert IsDir(s, e) && SlotOwned(s, e, l);
    }
    forall q | q in t.owner ensures OwnerOk(t, q) { assert OwnerOk(s, q); }
  }

  // ----- page table entries -----

  ghost predicate HasTable(s: State, dir: int, v: nat)
    requires MemOk(s.mem) && v < VPAGES
  {
    IsDir(s, dir) && Present(s.mem[dir][v / NENTRIES])
  }

  /** The page table for v. */
  ghost function TableOf(s: State, dir: int, v: nat): int
    requires MemOk(s.mem) && v < VPAGES && HasTable(s, dir, v)
  {
    Frame(s.mem[dir][v / NENTRIES])
  }

  ghost function WithPte(s: State, dir: int, v: nat, w: int): Memory
    requires MemOk(s.mem) && v < VPAGES && HasTable(s, dir, v) && 0 <= TableOf(s, dir, v) < NPAGES
  {
    var tb := TableOf(s, dir, v);
    s.mem[tb := s.mem[tb][v % NENTRIES := w]]
  }

  lemma TableThere(low: nat, s: State, dir: int, v: nat)
    requires Inv(low, s) && v < VPAGES && HasTable(s, dir, v)
    ensures low <= TableOf(s, dir, v) < NPAGES && TableOf(s, dir, v) in s.owner
    ensures s.owner[TableOf(s, dir, v)] == Place(dir, v / NENTRIES)
  {
    assert SlotOwned(s, dir, v / NENTRIES);
  }

  /** Writing an entry changes the translation of one page of one directory. */
  lemma PteAt(low: nat, s: State, dir: int, v: nat, w: int, e: int, u: nat)
    requires Inv(low, s) && v < VPAGES && HasTable(s, dir, v) && 0 <= w < UINT && IsDir(s, e) && u < VPAGES
    ensures 0 <= TableOf(s, dir, v) < NPAGES && MemOk(WithPte(s, dir, v, w)) && WithPte(s, dir, v, w)[e] == s.mem[e]
    ensures Pte(WithPte(s, dir, v, w), e, u) == if e == dir && u == v then w else Pte(s.mem, e, u)
  {
    TableThere(low, s, dir, v);
    assert PageOk(s.mem[TableOf(s, dir, v)]);
    if Present(s.mem[e][u / NENTRIES]) { TableThere(low, s, e, u); }
    assert u == v <==> u / NENTRIES == v / NENTRIES && u % NENTRIES == v % NENTRIES;
  }

  lemma PteSlots(low: nat, s: State, dir: int, v: nat, w: int)
    requires Inv(low, s) && v < VPAGES && HasTable(s, dir, v) && 0 <= w < UINT
    ensures 0 <= TableOf(s, dir, v) < NPAGES && MemOk(WithPte(s, dir, v, w))
    ensures forall e, u :: IsDir(s, e) && 0 <= u < VPAGES ==>
              Pte(WithPte(s, dir, v, w), e, u) == if e == dir && u == v then w else Pte(s.mem, e, u)
    ensures forall e, l :: IsDir(s, e) && 0 <= l < NSLOT ==>
              Slot(WithPte(s, dir, v, w), e, l) == if e == dir && l == NENTRIES + v then Target(w) else Slot(s.mem, e, l)
  {
    PteAt(low, s, dir, v, w, dir, v);
    forall e, u | IsDir(s, e) && 0 <= u < VPAGES
      ensures Pte(WithPte(s, dir, v, w), e, u) == if e == dir && u == v then w else Pte(s.mem, e, u)
    {
      PteAt(low, s, dir, v, w, e, u);
    }
    forall e, l | IsDir(s, e) && 0 <= l < NSLOT
      ensures Slot(WithPte(s, dir, v, w), e, l) == if e == dir && l == NENTRIES + v then Target(w) else Slot(s.mem, e, l)
    {
      PteAt(low, s, dir, v, w, e, if l < NENTRIES then 0 else l - NENTRIES);
    }
  }

  lemma PteViews(low: nat, s: State, t: State, dir: int, v: nat, w: int)
    requires Inv(low, s) && v < VPAGES && HasTable(s, dir, v) && 0 <= w < UINT
    requires 0 <= TableOf(s, dir, v) < NPAGES && t.mem == WithPte(s, dir, v, w) && MemOk(t.mem)
    ensures SameViewsBut(s, t, dir, v)
  {
    TableThere(low, s, dir, v);
    PteSlots(low, s, dir, v, w);
    forall e, u | IsDir(s, e) && 0 <= u < UPAGES && !(e == dir && u == v) ensures UserView(t, e, u) == UserView(s, e, u) {
      assert Slot(s.mem, e, NENTRIES + u) == Target(Pte(s.mem, e, u));
      hide Pte, Slot;
      assert SlotOwned(s, e, NENTRIES + u);
      assert Pte(t.mem, e, u) == Pte(s.mem, e, u);
    }
  }

  /** Mapping the held page p at user page v. */
  ghost function Mapping(s: State, dir: int, v: nat, p: int, perm: int): State
    requires MemOk(s.mem) && v < UPAGES && HasTable(s, dir, v) && 0 <= TableOf(s, dir, v) < NPAGES
    requires 0 <= p < NPAGES && 0 <= perm < PGSIZE
  {
    State(WithPte(s, dir, v, EntryFor(p, perm)), s.free, s.owner[p := Place(dir, NENTRIES + v)], s.held - {p})
  }

  lemma MapKeeps(low: nat, s: State, dir: int, v: nat, p: int, perm: int)
    requires Inv(low, s) && v < UPAGES && HasTable(s, dir, v) && !Present(Pte(s.mem, dir, v))
    requires p in s.held && 0 <= perm < PGSIZE
    ensures 0 <= p < NPAGES && 0 <= TableOf(s, dir, v) < NPAGES && Inv(low, Mapping(s, dir, v, p, perm))
    ensures SameViewsBut(s, Mapping(s, dir, v, p, perm), dir, v)
    ensures UserView(Mapping(s, dir, v, p, perm), dir, v) == Mapped(perm + 1 - perm % 2, s.mem[p])
  {
    TableThere(low, s, dir, v);
    var w := EntryFor(p, perm);
    var t := Mapping(s, dir, v, p, perm);
    PteSlots(low, s, dir, v, w);
    assert Slot(s.mem, dir, NENTRIES + v) == -1;
    PteViews(low, s, t, dir, v, w);
    hide Slot, Pte;
    AttachKeeps(low, s, t, dir, NENTRIES + v, p);
  }

  /** Unmapping user page v. */
  ghost function Unmapping(s: State, dir: int, v: nat): State
    requires MemOk(s.mem) && v < UPAGES && HasTable(s, dir, v) && 0 <= TableOf(s, dir, v) < NPAGES
  {
    var p := Frame(Pte(s.mem, dir, v));
    State(WithPte(s, dir, v, 0), s.free, s.owner - {p}, s.held + {p})
  }

  lemma UnmapKeeps(low: nat, s: State, dir: int, v: nat)
    requires Inv(low, s) && v < UPAGES && HasTable(s, dir, v) && Present(Pte(s.mem, dir, v))
    ensures 0 <= TableOf(s, dir, v) < NPAGES && Inv(low, Unmapping(s, dir, v))
    ensures SameViewsBut(s, Unmapping(s, dir, v), dir, v) && UserView(Unmapping(s, dir, v), dir, v) == Unmapped
    ensures low <= Frame(Pte(s.mem, dir, v)) < NPAGES && Frame(Pte(s.mem, dir, v)) in s.owner
    ensures s.owner[Frame(Pte(s.mem, dir, v))] == Place(dir, NENTRIES + v)
  {
    TableThere(low, s, dir, v);
    var t := Unmapping(s, dir, v);
    PteSlots(low, s, dir, v, 0);
    assert Slot(s.mem, dir, NENTRIES + v) == Frame(Pte(s.mem, dir, v)) != -1;
    assert SlotOwned(s, dir, NENTRIES + v);
    PteViews(low, s, t, dir, v, 0);
    hide Slot, Pte;
    DetachKeeps(low, s, t, dir, NENTRIES + v, Frame(Pte(s.mem, dir, v)));
  }

  /** Writing an entry of the kernel part. */
  lemma KernelKeeps(low: nat, s: State, dir: int, v: nat, w: int)
    requires Inv(low, s) && UPAGES <= v < VPAGES && HasTable(s, dir, v) && 0 <= w < UINT
    ensures 0 <= TableOf(s, dir, v) < NPAGES && Inv(low, s.(mem := WithPte(s, dir, v, w)))
    ensures SameViews(s, s.(mem := WithPte(s, dir, v, w)))
  {
    TableThere(low, s, dir, v);
    var t := s.(mem := WithPte(s, dir, v, w));
    PteSlots(low, s, dir, v, w);
    PteViews(low, s, t, dir, v, w);
    hide Slot, Pte;
    forall e, l | IsDir(t, e) && 0 <= l < NSLOT ensures SlotOwned(t, e, l) {
      assert IsDir(s, e) && SlotOwned(s, e, l);
    }
    forall q | q in t.owner ensures OwnerOk(t, q) { assert OwnerOk(s, q); }
  }

  // ----- page directory entries -----

  /** Entry i of dir refers to the held page p. */
  ghost function WithTable(s: State, dir: int, i: nat, p: int): State
    requires MemOk(s.mem) && IsDir(s, dir) && i < NENTRIES && 0 <= p < NPAGES
  {
    State(s.mem[dir := s.mem[dir][i := EntryFor(p, 6)]], s.free, s.owner[p := Place(dir, i)], s.held - {p})
  }

  /** A zeroed page as page table translates nothing, so no translation changes. */
  lemma TableKeeps(low: nat, s: State, dir: int, i: nat, p: int)
    requires Inv(low, s) && IsDir(s, dir) && i < NENTRIES && !Present(s.mem[dir][i])
    requires p in s.held && s.mem[p] == Filled(0)
    ensures 0 <= p < NPAGES && Inv(low, WithTable(s, dir, i, p)) && SameViews(s, WithTable(s, dir, i, p))
    ensures forall e, u :: IsDir(s, e) && 0 <= u < VPAGES ==> Pte(WithTable(s, dir, i, p).mem, e, u) == Pte(s.mem, e, u)
  {
    var t := WithTable(s, dir, i, p);
    assert MemOk(t.mem) by { assert PageOk(s.mem[dir]); }
    forall e, u | IsDir(s, e) && 0 <= u < VPAGES ensures Pte(t.mem, e, u) == Pte(s.mem, e, u) {
      if Present(s.mem[e][u / NENTRIES]) { TableThere(low, s, e, u); }
    }
    forall e, l | IsDir(s, e) && 0 <= l < NSLOT
      ensures Slot(t.mem, e, l) == if e == dir && l == i then p else Slot(s.mem, e, l)
    {
    }
    TableViews(low, s, t, dir);
    hide Slot, Pte;
    assert Slot(s.mem, dir, i) == -1 by { SlotIs(s, dir, i); }
    AttachKeeps(low, s, t, dir, i, p);
  }

  lemma SlotIs(s: State, dir: int, i: nat)
    requires MemOk(s.mem) && IsDir(s, dir) && i < NENTRIES
    ensures Slot(s.mem, dir, i) == Target(s.mem[dir][i])
  {
  }

  /** If only page dir, a directory, has changed and no translation has, nor has any view. */
  lemma TableViews(low: nat, s: State, t: State, dir: int)
    requires Inv(low, s) && MemOk(t.mem) && IsDir(s, dir)
    requires forall p :: 0 <= p < NPAGES && p != dir ==> t.mem[p] == s.mem[p]
    requires forall e, u :: IsDir(s, e) && 0 <= u < UPAGES ==> Pte(t.mem, e, u) == Pte(s.mem, e, u)
    ensures SameViews(s, t)
  {
    forall e, u | IsDir(s, e) && 0 <= u < UPAGES ensures UserView(t, e, u) == UserView(s, e, u) {
      assert Slot(s.mem, e, NENTRIES + u) == Target(Pte(s.mem, e, u));
      hide Pte, Slot;
      assert SlotOwned(s, e, NENTRIES + u);
    }
  }

  /** Entry i of dir cleared; its page table is held. */
  ghost function WithoutTable(s: State, dir: int, i: nat): State
    requires MemOk(s.mem) && IsDir(s, dir) && i < NENTRIES
  {
    var p := Frame(s.mem[dir][i]);
    State(s.mem[dir := s.mem[dir][i := 0]], s.free, s.owner - {p}, s.held + {p})
  }

  ghost predicate NoUserPages(s: State, dir: int)
    requires MemOk(s.mem) && 0 <= dir < NPAGES
  {
    forall u :: 0 <= u < UPAGES ==> !Present(Pte(s.mem, dir, u))
  }

  lemma UntableKeeps(low: nat, s: State, dir: int, i: nat)
    requires Inv(low, s) && IsDir(s, dir) && i < NENTRIES && Present(s.mem[dir][i]) && NoUserPages(s, dir)
    ensures Inv(low, WithoutTable(s, dir, i)) && NoUserPages(WithoutTable(s, dir, i), dir)
    ensures SameViews(s, WithoutTable(s, dir, i)) && low <= Frame(s.mem[dir][i]) < NPAGES
    ensures Frame(s.mem[dir][i]) in s.owner && s.owner[Frame(s.mem[dir][i])] == Place(dir, i)
  {
    var t := WithoutTable(s, dir, i);
    var p := Frame(s.mem[dir][i]);
    assert SlotOwned(s, dir, i);
    assert MemOk(t.mem) by { assert PageOk(s.mem[dir]); }
    forall e, u | IsDir(s, e) && 0 <= u < VPAGES
      ensures Pte(t.mem, e, u) == if e == dir && u / NENTRIES == i then 0 else Pte(s.mem, e, u)
    {
      if Present(s.mem[e][u / NENTRIES]) { TableThere(low, s, e, u); }
    }
    forall e, l | IsDir(s, e) && 0 <= l < NSLOT
      ensures Slot(t.mem, e, l) == if e == dir && l == i then -1 else Slot(s.mem, e, l)
    {
    }
    forall e, u | IsDir(s, e) && 0 <= u < UPAGES ensures UserView(t, e, u) == UserView(s, e, u) {
      assert SlotOwned(s, e, NENTRIES + u);
    }
    hide Slot, Pte;
    DetachKeeps(low, s, t, dir, i, p);
  }

  // ----- whole directories -----

  /** The held, zeroed page p becomes a page directory. */
  lemma NewDirKeeps(low: nat, s: State, p: int)
    requires Inv(low, s) && p in s.held && s.mem[p] == Filled(0)
    ensures Inv(low, s.(owner := s.owner[p := Dir], held := s.held - {p}))
    ensures SameViews(s, s.(owner := s.owner[p := Dir], held := s.held - {p}))
    ensures NoUserPages(s, p)
  {
    var t := s.(owner := s.owner[p := Dir], held := s.held - {p});
    forall e, l | IsDir(t, e) && 0 <= l < NSLOT ensures SlotOwned(t, e, l) {
      if e != p { assert IsDir(s, e) && SlotOwned(s, e, l); }
    }
    hide Slot, Pte;
    forall q | q in t.owner ensures OwnerOk(t, q) { if q != p { assert OwnerOk(s, q); } }
  }

  /** A directory without page tables is given up. */
  lemma DropDirKeeps(low: nat, s: State, dir: int)
    requires Inv(low, s) && IsDir(s, dir) && forall i :: 0 <= i < NENTRIES ==> !Present(s.mem[dir][i])
    ensures Inv(low, s.(owner := s.owner - {dir}, held := s.held + {dir}))
    ensures forall q :: q in s.owner && s.owner[q].Place? ==> s.owner[q].dir != dir
  {
    var t := s.(owner := s.owner - {dir}, held := s.held + {dir});
    forall q | q in s.owner && s.owner[q].Place? ensures s.owner[q].dir != dir { assert OwnerOk(s, q); }
    hide Slot, Pte;
    forall e, l | IsDir(t, e) && 0 <= l < NSLOT ensures SlotOwned(t, e, l) {
      assert IsDir(s, e) && SlotOwned(s, e, l);
    }
    forall q | q in t.owner ensures OwnerOk(t, q) { assert OwnerOk(s, q); }
  }

  // ----- bookkeeping over several steps -----

  /** The pages that do not belong to the address space of dir. */
  ghost function Others(s: State, dir: int): map<int, Role> {
    map p | p in s.owner && p != dir && (s.owner[p].Place? ==> s.owner[p].dir != dir) :: s.owner[p]
  }

  /** From s to t only the address space of dir has changed: who owns what outside, and what is held. */
  ghost predicate OnlyDir(s: State, t: State, dir: int) {
    Others(t, dir) == Others(s, dir) && t.held == s.held && (IsDir(s, dir) <==> IsDir(t, dir))
  }

  /** Other directories stay directories. */
  lemma OthersDirs(s: State, t: State, dir: int, e: int)
    requires OnlyDir(s, t, dir)
    ensures IsDir(s, e) <==> IsDir(t, e)
  {
    if e != dir {
      assert IsDir(s, e) <==> e in Others(s, dir) && Others(s, dir)[e] == Dir && 0 <= e < NPAGES;
      assert IsDir(t, e) <==> e in Others(t, dir) && Others(t, dir)[e] == Dir && 0 <= e < NPAGES;
    }
  }

  /** Views of t are those of s, but user pages lo to hi of dir are unmapped. */
  ghost predicate Cut(s: State, t: State, dir: int, lo: int, hi: int)
    requires MemOk(s.mem) && MemOk(t.mem)
  {
    forall e, u :: IsDir(s, e) && 0 <= u < UPAGES ==>
      UserView(t, e, u) == if e == dir && lo <= u < hi then Unmapped else UserView(s, e, u)
  }

  /** A page given back: junk in the page, the page on the list. */
  lemma FreeHeld(low: nat, s: State, p: int, pg: Page)
    requires Inv(low, s) && p in s.held && PageOk(pg)
    ensures Inv(low, Given(Store(s, p, pg), p)) && SameViews(s, Given(Store(s, p, pg), p))
  {
    hide Slot, Pte, UserView;
    LeafKeeps(low, s, p, pg);
    GiveKeeps(low, Store(s, p, pg), p);
    assert forall e :: IsDir(s, e) ==> IsDir(Store(s, p, pg), e);
  }

  // ----- steps of the methods -----

  /** What a walk to the entry of v may do: make the page table; nothing is translated differently. */
  ghost predicate Walked(low: nat, s: State, t: State, dir: int, v: nat) {
    && Inv(low, s) && Inv(low, t) && v < VPAGES && IsDir(s, dir) && OnlyDir(s, t, dir) && SameViews(s, t)
    && HasTable(t, dir, v)
    && (forall e, u :: IsDir(s, e) && 0 <= u < VPAGES ==> Pte(t.mem, e, u) == Pte(s.mem, e, u))
    && (forall q :: q in s.held ==> t.mem[q] == s.mem[q])
  }

  lemma WalkKeeps(low: nat, s: State, dir: int, v: nat)
    requires Inv(low, s) && v < VPAGES && IsDir(s, dir) && !HasTable(s, dir, v) && s.free != []
    ensures Walked(low, s, WithTable(Store(Taken(s), s.free[0], Filled(0)), dir, v / NENTRIES, s.free[0]), dir, v)
  {
    var p, i := s.free[0], v / NENTRIES;
    var s1 := Taken(s);
    var s2 := Store(s1, p, Filled(0));
    var t := WithTable(s2, dir, i, p);
    TakeKeeps(low, s);
    LeafKeeps(low, s1, p, Filled(0));
    LeafSlots(low, s1, p, Filled(0));
    assert IsDir(s2, dir) && s2.mem[dir] == s.mem[dir];
    TableKeeps(low, s2, dir, i, p);
    assert HasTable(t, dir, v);
    hide Slot, Pte, UserView, EntryFor;
    assert forall e :: IsDir(s, e) ==> IsDir(s1, e) && IsDir(s2, e);
    assert Others(t, dir) == Others(s, dir);
    assert t.held == s.held;
  }

  /** Page v of dir is mapped to the held page p with its contents and these permissions. */
  ghost predicate MappedTo(low: nat, s: State, t: State, dir: int, v: nat, p: int, perm: int) {
    && Inv(low, s) && Inv(low, t) && v < UPAGES && IsDir(s, dir) && p in s.held && IsDir(t, dir)
    && Others(t, dir) == Others(s, dir) && t.held == s.held - {p} && SameViewsBut(s, t, dir, v)
    && UserView(t, dir, v) == Mapped(perm + 1 - perm % 2, s.mem[p])
    && forall u :: 0 <= u < VPAGES && u != v ==> Pte(t.mem, dir, u) == Pte(s.mem, dir, u)
  }

  lemma MapWalked(low: nat, s: State, t: State, dir: int, v: nat, p: int, perm: int)
    requires Walked(low, s, t, dir, v) && v < UPAGES && !Present(Pte(s.mem, dir, v)) && p in s.held
    requires 0 <= perm < PGSIZE
    ensures 0 <= p < NPAGES && 0 <= TableOf(t, dir, v) < NPAGES
    ensures MappedTo(low, s, Mapping(t, dir, v, p, perm), dir, v, p, perm)
  {
    assert !Present(Pte(t.mem, dir, v));
    MapKeeps(low, t, dir, v, p, perm);
    PteSlots(low, t, dir, v, EntryFor(p, perm));
    hide Slot, Pte, UserView, EntryFor, WithPte;
    var u := Mapping(t, dir, v, p, perm);
    assert Others(u, dir) == Others(t, dir);
    forall e ensures IsDir(s, e) <==> IsDir(t, e) { OthersDirs(s, t, dir, e); }
  }

  /** Unmapping and freeing a user page; the entry is cleared after the page is on the list. */
  lemma UnmapFrees(low: nat, s: State, dir: int, v: nat, pg: Page)
    requires Inv(low, s) && v < UPAGES && HasTable(s, dir, v) && Present(Pte(s.mem, dir, v)) && PageOk(pg)
    ensures 0 <= TableOf(s, dir, v) < NPAGES && low <= Frame(Pte(s.mem, dir, v)) < NPAGES
    ensures Frame(Pte(s.mem, dir, v)) in s.owner && Frame(Pte(s.mem, dir, v)) != TableOf(s, dir, v)
    ensures var p, tb := Frame(Pte(s.mem, dir, v)), TableOf(s, dir, v);
      var t := State(s.mem[p := pg][tb := s.mem[tb][v % NENTRIES := 0]], [p] + s.free, s.owner - {p}, s.held);
      Inv(low, t) && OnlyDir(s, t, dir) && Cut(s, t, dir, v, v + 1)
  {
    UnmapKeeps(low, s, dir, v);
    TableThere(low, s, dir, v);
    var p, tb := Frame(Pte(s.mem, dir, v)), TableOf(s, dir, v);
    var u := Unmapping(s, dir, v);
    FreeHeld(low, u, p, pg);
    var t := State(s.mem[p := pg][tb := s.mem[tb][v % NENTRIES := 0]], [p] + s.free, s.owner - {p}, s.held);
    assert t == Given(Store(u, p, pg), p);
    hide Slot, Pte, UserView, WithPte;
    assert forall e :: IsDir(s, e) ==> IsDir(u, e);
    assert Others(t, dir) == Others(s, dir);
  }

  lemma CutMore(s: State, t: State, u: State, dir: int, lo: int, mid: int, hi: int)
    requires MemOk(s.mem) && MemOk(t.mem) && MemOk(u.mem) && lo <= mid <= hi
    requires Cut(s, t, dir, lo, mid) && Cut(t, u, dir, mid, hi) && OnlyDir(s, t, dir) && OnlyDir(t, u, dir)
    ensures Cut(s, u, dir, lo, hi) && OnlyDir(s, u, dir)
  {
    hide UserView;
    forall e ensures IsDir(s, e) <==> IsDir(t, e) { OthersDirs(s, t, dir, e); }
  }

  /** A directory entry that is not present covers no mapped page. */
  lemma CutSkip(low: nat, s: State, dir: int, v: nat, hi: int)
    requires Inv(low, s) && v < UPAGES && IsDir(s, dir) && !HasTable(s, dir, v) && hi <= (v / NENTRIES + 1) * NENTRIES
    ensures Cut(s, s, dir, v, hi)
  {
    forall u | v <= u < hi && 0 <= u < UPAGES ensures UserView(s, dir, u) == Unmapped {
      assert u / NENTRIES == v / NENTRIES;
    }
  }

  lemma CutNone(s: State, dir: int, lo: int, hi: int)
    requires MemOk(s.mem) && hi <= lo
    ensures Cut(s, s, dir, lo, hi) && OnlyDir(s, s, dir)
  {
  }

  /** A kernel entry written after a walk. */
  lemma KernelWalked(low: nat, s: State, t: State, dir: int, v: nat, w: int)
    requires Walked(low, s, t, dir, v) && UPAGES <= v && 0 <= w < UINT
    ensures 0 <= TableOf(t, dir, v) < NPAGES && Inv(low, t.(mem := WithPte(t, dir, v, w)))
    ensures OnlyDir(s, t.(mem := WithPte(t, dir, v, w)), dir) && SameViews(s, t.(mem := WithPte(t, dir, v, w)))
    ensures forall u :: 0 <= u < VPAGES ==>
              Pte(WithPte(t, dir, v, w), dir, u) == if u == v then w else Pte(s.mem, dir, u)
  {
    KernelKeeps(low, t, dir, v, w);
    PteSlots(low, t, dir, v, w);
    hide Slot, Pte, UserView, WithPte;
    forall e ensures IsDir(s, e) <==> IsDir(t, e) { OthersDirs(s, t, dir, e); }
  }

  lemma SameThen(s: State, t: State, u: State, dir: int)
    requires MemOk(s.mem) && MemOk(t.mem) && MemOk(u.mem)
    requires OnlyDir(s, t, dir) && OnlyDir(t, u, dir) && SameViews(s, t) && SameViews(t, u)
    ensures OnlyDir(s, u, dir) && SameViews(s, u)
  {
    hide UserView;
    forall e ensures IsDir(s, e) <==> IsDir(t, e) { OthersDirs(s, t, dir, e); }
  }

  /** A page table given back. */
  lemma UntableFrees(low: nat, s: State, dir: int, i: nat, pg: Page)
    requires Inv(low, s) && IsDir(s, dir) && i < NENTRIES && Present(s.mem[dir][i]) && NoUserPages(s, dir) && PageOk(pg)
    ensures low <= Frame(s.mem[dir][i]) < NPAGES && Frame(s.mem[dir][i]) in s.owner && Frame(s.mem[dir][i]) != dir
    ensures var p := Frame(s.mem[dir][i]);
      var t := State(s.mem[dir := s.mem[dir][i := 0]][p := pg], [p] + s.free, s.owner - {p}, s.held);
      Inv(low, t) && IsDir(t, dir) && NoUserPages(t, dir) && OnlyDir(s, t, dir) && SameViews(s, t)
  {
    UntableKeeps(low, s, dir, i);
    var p := Frame(s.mem[dir][i]);
    var u := WithoutTable(s, dir, i);
    FreeHeld(low, u, p, pg);
    LeafSlots(low, u, p, pg);
    var t := State(s.mem[dir := s.mem[dir][i := 0]][p := pg], [p] + s.free, s.owner - {p}, s.held);
    assert t == Given(Store(u, p, pg), p);
    hide Slot, Pte, UserView;
    assert forall e :: IsDir(s, e) ==> IsDir(u, e);
    assert Others(t, dir) == Others(s, dir);
  }

  /** The views of all directories but dir. */
  ghost predicate Elsewhere(s: State, t: State, dir: int)
    requires MemOk(s.mem) && MemOk(t.mem)
  {
    forall e, u :: IsDir(s, e) && e != dir && 0 <= u < UPAGES ==> UserView(t, e, u) == UserView(s, e, u)
  }

  /** An empty directory given back. */
  lemma DropFrees(low: nat, s: State, dir: int, pg: Page)
    requires Inv(low, s) && IsDir(s, dir) && PageOk(pg) && forall i :: 0 <= i < NENTRIES ==> !Present(s.mem[dir][i])
    ensures var t := State(s.mem[dir := pg], [dir] + s.free, s.owner - {dir}, s.held);
      Inv(low, t) && t.owner == Others(s, dir) && Elsewhere(s, t, dir)
  {
    DropDirKeeps(low, s, dir);
    var u := s.(owner := s.owner - {dir}, held := s.held + {dir});
    FreeHeld(low, u, dir, pg);
    var t := State(s.mem[dir := pg], [dir] + s.free, s.owner - {dir}, s.held);
    assert t == Given(Store(u, dir, pg), dir);
    hide Slot, Pte;
    forall q | q in s.owner && q != dir ensures q in Others(s, dir) {
      assert s.owner[q].Place? ==> s.owner[q].dir != dir;
    }
    assert t.owner == Others(s, dir);
    assert forall e :: IsDir(s, e) && e != dir ==> IsDir(u, e);
  }

  /** Unmapped means not present: a present entry refers to a page in memory. */
  lemma UnmappedAbsent(low: nat, s: State, dir: int, u: nat)
    requires Inv(low, s) && IsDir(s, dir) && u < UPAGES
    ensures UserView(s, dir, u) == Unmapped <==> !Present(Pte(s.mem, dir, u))
    ensures Present(Pte(s.mem, dir, u)) ==> low <= Frame(Pte(s.mem, dir, u)) < NPAGES
    ensures Present(Pte(s.mem, dir, u)) ==>
              UserView(s, dir, u) == Mapped(Flags(Pte(s.mem, dir, u)), s.mem[Frame(Pte(s.mem, dir, u))])
  {
    assert SlotOwned(s, dir, NENTRIES + u);
  }

  /** t is s and a new address space with directory dir, made of pages that were free. */
  ghost predicate NewSpace(s: State, t: State, dir: int)
    requires MemOk(s.mem) && MemOk(t.mem)
  {
    IsDir(t, dir) && dir !in s.owner && Others(t, dir) == s.owner && t.held == s.held && SameViews(s, t)
  }

  /** The first free page, zeroed, as page directory. */
  ghost function FirstDir(s: State): State
    requires MemOk(s.mem) && s.free != [] && 0 <= s.free[0] < NPAGES
  {
    var p := s.free[0];
    State(s.mem[p := Filled(0)], s.free[1..], s.owner[p := Dir], s.held)
  }

  lemma NewSpaceStarts(low: nat, s: State)
    requires Inv(low, s) && s.free != []
    ensures low <= s.free[0] < NPAGES && Inv(low, FirstDir(s)) && NewSpace(s, FirstDir(s), s.free[0])
    ensures forall u :: 0 <= u < VPAGES ==> Pte(FirstDir(s).mem, s.free[0], u) == 0
  {
    var p := s.free[0];
    TakeKeeps(low, s);
    var s1 := Taken(s);
    LeafKeeps(low, s1, p, Filled(0));
    var s2 := Store(s1, p, Filled(0));
    NewDirKeeps(low, s2, p);
    var t := FirstDir(s);
    assert t == s2.(owner := s2.owner[p := Dir], held := s2.held - {p});
    hide Slot, UserView;
    assert forall e :: IsDir(s, e) ==> IsDir(s1, e) && IsDir(s2, e);
    forall q | q in s.owner ensures q in Others(t, p) {
      assert OwnerOk(s, q);
    }
    assert Others(t, p) == s.owner;
  }

  lemma NewSpaceGrows(s: State, t: State, u: State, dir: int)
    requires MemOk(s.mem) && MemOk(t.mem) && MemOk(u.mem) && NewSpace(s, t, dir) && OnlyDir(t, u, dir)
    requires Elsewhere(t, u, dir)
    ensures NewSpace(s, u, dir)
  {
    hide UserView;
    NewSpaceDirs(s, t, dir);
  }

  lemma NewSpaceDirs(s: State, t: State, dir: int)
    requires MemOk(s.mem) && MemOk(t.mem) && NewSpace(s, t, dir)
    ensures forall e :: IsDir(s, e) ==> IsDir(t, e) && e != dir
  {
    forall e | IsDir(s, e) ensures IsDir(t, e) && e != dir { assert e in Others(t, dir); }
  }

  /** Giving back a new address space restores who owns what. */
  lemma NewSpaceEnds(s: State, t: State, u: State, dir: int)
    requires MemOk(s.mem) && MemOk(t.mem) && MemOk(u.mem) && NewSpace(s, t, dir)
    requires u.owner == Others(t, dir) && u.held == t.held && Elsewhere(t, u, dir)
    ensures u.owner == s.owner && u.held == s.held && SameViews(s, u)
  {
    hide UserView;
    NewSpaceDirs(s, t, dir);
  }

  /** Conservation: with the same pages in use the same pages are free. */
  lemma SameFree(low: nat, s: State, t: State)
    requires Inv(low, s) && Inv(low, t) && t.owner == s.owner && t.held == s.held
    ensures forall p :: p in s.free <==> p in t.free
  {
  }

  /** A free page filled with pg and then mapped: the address space of dir has one more page. */
  ghost predicate PageAdded(low: nat, s: State, t: State, dir: int, v: nat, view: View)
  {
    && Inv(low, s) && Inv(low, t) && v < UPAGES && IsDir(s, dir) && OnlyDir(s, t, dir) && IsDir(t, dir)
    && SameViewsBut(s, t, dir, v) && UserView(t, dir, v) == view
    && forall u :: 0 <= u < VPAGES && u != v ==> Pte(t.mem, dir, u) == Pte(s.mem, dir, u)
  }

  lemma AddPage(low: nat, s: State, t: State, dir: int, v: nat, perm: int, pg: Page)
    requires Inv(low, s) && s.free != [] && IsDir(s, dir) && PageOk(pg) && v < UPAGES
    requires 0 <= s.free[0] < NPAGES && MappedTo(low, Store(Taken(s), s.free[0], pg), t, dir, v, s.free[0], perm)
    ensures PageAdded(low, s, t, dir, v, Mapped(perm + 1 - perm % 2, pg))
  {
    var p := s.free[0];
    TakeKeeps(low, s);
    LeafKeeps(low, Taken(s), p, pg);
    LeafSlots(low, Taken(s), p, pg);
    hide Slot, Pte, UserView;
    assert forall e :: IsDir(s, e) ==> IsDir(Taken(s), e) && IsDir(Store(Taken(s), p, pg), e);
    assert Others(Store(Taken(s), p, pg), dir) == Others(s, dir);
    assert t.held == s.held;
  }

  lemma SpaceGains(low: nat, s: State, t: State, u: State, dir: int, v: nat, view: View)
    requires MemOk(s.mem) && MemOk(t.mem) && NewSpace(s, t, dir) && PageAdded(low, t, u, dir, v, view)
    ensures NewSpace(s, u, dir)
  {
    hide UserView, Pte;
    assert Elsewhere(t, u, dir);
    NewSpaceGrows(s, t, u, dir);
  }
}
