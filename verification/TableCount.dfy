/** How many page tables a range of virtual pages needs that a page directory does not have yet. */
module TableCount {
  import opened VmModel

  /** The entries lo to hi of a directory page that are not present. */
  ghost function Missing(pg: Page, lo: nat, hi: nat): nat
    requires hi <= |pg|
  {
    if hi <= lo then 0 else Missing(pg, lo, hi - 1) + if Present(pg[hi - 1]) then 0 else 1
  }

  /** The page tables that the pages lo to hi need besides those of pg. */
  ghost function NewTables(pg: Page, lo: nat, hi: nat): nat
    requires |pg| == NENTRIES && hi <= VPAGES
  {
    if hi <= lo then 0 else Missing(pg, lo / NENTRIES, (hi - 1) / NENTRIES + 1)
  }

  /** Page table i translates one of the pages lo to hi. */
  ghost predicate Covers(i: int, lo: nat, hi: nat) {
    lo < hi && lo / NENTRIES <= i <= (hi - 1) / NENTRIES
  }

  /** Directory page now has the tables of pg and those for the pages lo to hi. */
  ghost predicate TablesNow(pg: Page, now: Page, lo: nat, hi: nat) {
    && |pg| == |now| == NENTRIES
    && forall i :: 0 <= i < NENTRIES ==> (Present(now[i]) <==> Present(pg[i]) || Covers(i, lo, hi))
  }

  ghost predicate TableAdded(now: Page, next: Page, i: int) {
    && |now| == |next| == NENTRIES
    && forall j :: 0 <= j < NENTRIES ==> (Present(next[j]) <==> Present(now[j]) || j == i)
  }

  lemma TablesStart(pg: Page, lo: nat)
    requires |pg| == NENTRIES
    ensures TablesNow(pg, pg, lo, lo)
  {
  }

  /** One more page needs one more table exactly if its table is not there. */
  lemma TurnCost(pg: Page, now: Page, lo: nat, v: nat)
    requires TablesNow(pg, now, lo, v) && lo <= v < VPAGES
    ensures NewTables(pg, lo, v + 1) == NewTables(pg, lo, v) + if Present(now[v / NENTRIES]) then 0 else 1
  {
    var i := v / NENTRIES;
    if lo == v {
      assert Missing(pg, i, i) == 0 && !Covers(i, lo, v);
    } else {
      var j := (v - 1) / NENTRIES;
      assert j == i || j == i - 1;
      assert Covers(i, lo, v) <==> j == i;
    }
  }

  lemma TurnTables(pg: Page, now: Page, next: Page, lo: nat, v: nat)
    requires TablesNow(pg, now, lo, v) && lo <= v < VPAGES && TableAdded(now, next, v / NENTRIES)
    ensures TablesNow(pg, next, lo, v + 1)
  {
    forall i | 0 <= i < NENTRIES ensures Covers(i, lo, v + 1) <==> Covers(i, lo, v) || i == v / NENTRIES {
      if lo < v { assert (v - 1) / NENTRIES == v / NENTRIES || (v - 1) / NENTRIES == v / NENTRIES - 1; }
    }
  }

  lemma {:induction false} MissingGrows(pg: Page, lo: nat, mid: nat, hi: nat)
    requires mid <= hi <= |pg|
    ensures Missing(pg, lo, mid) <= Missing(pg, lo, hi)
    decreases hi
  {
    if mid < hi { MissingGrows(pg, lo, mid, hi - 1); }
  }

  lemma NewTablesGrow(pg: Page, lo: nat, v: nat, hi: nat)
    requires |pg| == NENTRIES && v <= hi <= VPAGES
    ensures NewTables(pg, lo, v) <= NewTables(pg, lo, hi)
  {
    if lo < v { MissingGrows(pg, lo / NENTRIES, (v - 1) / NENTRIES + 1, (hi - 1) / NENTRIES + 1); }
  }

  /** With the entries before x present and those from x on not. */
  lemma {:induction false} MissingFrom(pg: Page, lo: nat, x: nat, hi: nat)
    requires lo <= x <= hi <= |pg|
    requires (forall i :: lo <= i < x ==> Present(pg[i])) && (forall i :: x <= i < hi ==> !Present(pg[i]))
    ensures Missing(pg, lo, hi) == hi - x
    decreases hi
  {
    if lo < hi { MissingFrom(pg, lo, if x < hi then x else x - 1, hi - 1); }
  }

  /** From an empty start every 1024 pages need a table. */
  lemma EmptyStart(pg: Page, n: nat)
    requires |pg| == NENTRIES && n <= UPAGES && forall i :: 0 <= i < UPAGES / NENTRIES ==> !Present(pg[i])
    ensures NewTables(pg, 0, n) == (n + NENTRIES - 1) / NENTRIES
  {
    if n > 0 {
      var hi := (n - 1) / NENTRIES + 1;
      assert hi == (n + NENTRIES - 1) / NENTRIES;
      MissingFrom(pg, 0, 0, hi);
    }
  }
}
