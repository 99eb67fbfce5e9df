/** Mapping, unmapping and cloning, seen through lookups: each address space is a flat page map. */
module PageMaps {
  import opened Options
  import opened Arith
  import opened PageTables

  lemma {:induction false} SamePage(p: nat, q: nat)
    ensures DirIndex(p) == DirIndex(q) && TableIndex(p) == TableIndex(q) ==> p == q
  {
  }

  /** Lookups of every space agree in both states, except perhaps at (d, page) for pages in a range. */
  ghost predicate SameLookupsExcept(s: Sys, s': Sys, dirs: set<nat>, d: nat, lo: nat, hi: nat)
    requires forall e :: e in dirs ==> DirOk(s, e) && DirOk(s', e)
  {
    forall e, p :: e in dirs && 0 <= p < PAGES && !(e == d && lo <= p < hi) ==> Lookup(s', e, p) == Lookup(s, e, p)
  }

  /** No frame comes into use that was neither in use nor waiting in the heap. */
  ghost predicate NoNewFrames(s: Sys, s': Sys) {
    forall f :: f in s'.pages || f in s'.pool ==> f in s.pages || f in s.pool
  }

  /** Every directory entry leads to the same table in both states. */
  ghost predicate SameTables(s: Sys, s': Sys, dirs: set<nat>)
    requires forall e :: e in dirs ==> IsTable(s, e) && IsTable(s', e)
  {
    forall e, j :: e in dirs && 0 <= j < ENTRIES ==> Table(s', e, j) == Table(s, e, j)
  }

  /** Directory `d` has the tables it had, and one for entry `i`. */
  ghost predicate OneTableMore(s: Sys, s': Sys, d: nat, i: nat)
    requires IsTable(s, d) && IsTable(s', d)
  {
    forall j :: 0 <= j < ENTRIES ==> (Table(s', d, j).Some? <==> Table(s, d, j).Some? || j == i)
  }

  /** A user-range page is mapped in its own space, and no other lookup anywhere changes. */
  lemma {:induction false} MapUserPage(s: Sys, dirs: set<nat>, d: nat, page: nat, frame: nat, write: bool, user: bool)
    requires Separate(s, dirs) && PoolOk(s) && d in dirs && page < 0xC_0000 && CanMap(s, d, page)
    ensures var s' := MapPage(s, d, page, frame, write, user);
            && Separate(s', dirs) && PoolOk(s') && s'.kdir == s.kdir
            && |s'.pool| == |s.pool| - (if Table(s, d, DirIndex(page)).Some? then 0 else 1)
            && OneTableMore(s, s', d, DirIndex(page))
            && Lookup(s', d, page) == Some(Mapping(frame, write, !user))
            && SameLookupsExcept(s, s', dirs, d, page, page + 1)
            && NoNewFrames(s, s')
            && (Table(s, d, DirIndex(page)).Some? ==> SameTables(s, s', dirs))
  {
    var i, k := DirIndex(page), TableIndex(page);
    var s1 := EnsureTable(s, d, i);
    EnsureTableKeeps(s, dirs, d, i);
    var s2 := SetEntry(s1, d, i, OrUser(s1.pages[d][i], user));
    OrUserKeeps(s1, dirs, d, i, user);
    var w := MakeEntry(frame, write, user);
    SetPteKeeps(s2, dirs, d, i, k, w);
    var s3 := SetEntry(s2, Table(s2, d, i).value, k, w);
    assert MapPage(s, d, page, frame, write, user) == s3;
    assert NoNewFrames(s, s1) && NoNewFrames(s1, s3);
    hide Separate, DirOk, SetEntry, EnsureTable, MakeEntry, MapPage, OrUser, Lookup, Table;
    forall e, p | e in dirs && 0 <= p < PAGES && !(e == d && page <= p < page + 1)
      ensures Lookup(s3, e, p) == Lookup(s, e, p)
    {
      SamePage(p, page);
      UserTablesAreOwn(s2, dirs, d, e, i);
    }
  }

  lemma {:induction false} UserTablesAreOwn(s: Sys, dirs: set<nat>, d: nat, e: nat, i: nat)
    requires Separate(s, dirs) && d in dirs && e in dirs && i < KERNEL_ENTRY && Table(s, d, i).Some?
    ensures Table(s, d, i) == Table(s, e, i) ==> d == e
  {
  }

  // ----- Kernel range -----

  /** Copying a kernel entry of the kernel's directory into `d`. */
  lemma {:induction false} ShareKeeps(s: Sys, dirs: set<nat>, d: nat, i: nat)
    requires Separate(s, dirs) && PoolOk(s) && d in dirs && KERNEL_ENTRY <= i < ENTRIES
    ensures var s' := SetEntry(s, d, i, s.pages[s.kdir][i]);
            && Separate(s', dirs) && PoolOk(s')
            && (forall e, p :: e in dirs && 0 <= p < PAGES ==>
                  Lookup(s', e, p) == if e == d && DirIndex(p) == i then Lookup(s, s.kdir, p) else Lookup(s, e, p))
  {
    var s' := SetEntry(s, d, i, s.pages[s.kdir][i]);
    assert forall e, j :: e in dirs && 0 <= j < ENTRIES ==>
        Table(s', e, j) == if e == d && j == i then Table(s, s.kdir, i) else Table(s, e, j);
  }

  /** Mapping a kernel page goes to the kernel's directory, and `d` then shares that whole directory entry. */
  lemma {:induction false} MapKernelPage(s: Sys, dirs: set<nat>, d: nat, page: nat, frame: nat, write: bool, user: bool)
    requires Separate(s, dirs) && PoolOk(s) && d in dirs && 0xC_0000 <= page < PAGES && CanMap(s, s.kdir, page)
    ensures var s' := MapPage(s, d, page, frame, write, user);
            && Separate(s', dirs) && PoolOk(s') && s'.kdir == s.kdir
            && Lookup(s', d, page) == Lookup(s', s.kdir, page) == Some(Mapping(frame, write, !user))
            && (forall p :: 0 <= p < PAGES && DirIndex(p) == DirIndex(page) ==>
                Lookup(s', d, p) == Lookup(s', s.kdir, p))
            && (forall p :: 0 <= p < PAGES && p != page ==> Lookup(s', s.kdir, p) == Lookup(s, s.kdir, p))
            && (forall e, p :: e in dirs && 0 <= p < PAGES && DirIndex(p) != DirIndex(page) ==>
                  Lookup(s', e, p) == Lookup(s, e, p))
  {
    var t, i, k := s.kdir, DirIndex(page), TableIndex(page);
    var s1 := EnsureTable(s, t, i);
    EnsureTableKeeps(s, dirs, t, i);
    var s2 := SetEntry(s1, t, i, OrUser(s1.pages[t][i], user));
    OrUserKeeps(s1, dirs, t, i, user);
    var w := MakeEntry(frame, write, user);
    SetPteKeeps(s2, dirs, t, i, k, w);
    var s3 := SetEntry(s2, Table(s2, t, i).value, k, w);
    if d != t { ShareKeeps(s3, dirs, d, i); }
    assert MapPage(s, d, page, frame, write, user) ==
           if d != t then SetEntry(s3, d, i, s3.pages[t][i]) else s3;
    hide Separate, DirOk, SetEntry, EnsureTable, MakeEntry, MapPage, OrUser, Lookup, Table;
    forall p | 0 <= p < PAGES && p != page
      ensures Lookup(s3, t, p) == Lookup(s, t, p)
    {
      SamePage(p, page);
    }
  }

  /**
    What the other spaces see of a kernel page: it is global exactly for those that share the
    kernel's table behind its directory entry.
    */
  lemma {:induction false} KernelPageElsewhere(s: Sys, dirs: set<nat>, d: nat, page: nat, frame: nat, write: bool,
                                               user: bool)
    requires Separate(s, dirs) && PoolOk(s) && d in dirs && KERNEL_PAGE <= page < PAGES && CanMap(s, s.kdir, page)
    ensures var s' := MapPage(s, d, page, frame, write, user);
            && Separate(s', dirs)
            && forall e, p :: e in dirs && e != d && e != s.kdir && 0 <= p < PAGES ==>
                 Lookup(s', e, p) ==
                 if p == page && Table(s, e, DirIndex(page)).Some? &&
                    Table(s, e, DirIndex(page)) == Table(s, s.kdir, DirIndex(page))
                 then Some(Mapping(frame, write, !user)) else Lookup(s, e, p)
  {
    var t, i, k := s.kdir, DirIndex(page), TableIndex(page);
    var s1 := EnsureTable(s, t, i);
    EnsureTableKeeps(s, dirs, t, i);
    EnsureTableTables(s, dirs, t, i);
    var s2 := SetEntry(s1, t, i, OrUser(s1.pages[t][i], user));
    OrUserKeeps(s1, dirs, t, i, user);
    var w := MakeEntry(frame, write, user);
    SetPteKeeps(s2, dirs, t, i, k, w);
    var s3 := SetEntry(s2, Table(s2, t, i).value, k, w);
    if d != t { ShareKeeps(s3, dirs, d, i); }
    var s' := MapPage(s, d, page, frame, write, user);
    assert s' == if d != t then SetEntry(s3, d, i, s3.pages[t][i]) else s3;
    hide Separate, DirOk, SetEntry, EnsureTable, MakeEntry, MapPage, OrUser, Lookup, Table;
    forall e, p | e in dirs && e != d && e != t && 0 <= p < PAGES
      ensures Lookup(s', e, p) ==
              if p == page && Table(s, e, i).Some? &&
                  Table(s, e, i) == Table(s, t, i) then Decode(w) else Lookup(s, e, p)
    {
      SamePage(p, page);
      assert Table(s2, e, i) == Table(s, e, i);
      assert Table(s2, e, i) == Table(s2, t, i) <==> Table(s, e, i).Some? && Table(s, e, i) == Table(s, t, i);
    }
  }

  // ----- Sequences of user-range operations -----

  /** One page of mmu_map_table or of mmu_unmap_table. */
  datatype PageOp = Map(page: nat, frame: nat, write: bool, user: bool) | Unmap(page: nat)

  function UnmapPage(s: Sys, d: nat, page: nat): Sys
    requires DirOk(s, d) && page < PAGES
  {
    match Table(s, d, DirIndex(page))
    case None => s
    case Some(t) => SetEntry(s, t, TableIndex(page), 0)
  }

  lemma {:induction false} UnmapUserPage(s: Sys, dirs: set<nat>, d: nat, page: nat)
    requires Separate(s, dirs) && PoolOk(s) && d in dirs && page < KERNEL_PAGE
    ensures var s' := UnmapPage(s, d, page);
            && Separate(s', dirs) && PoolOk(s') && s'.kdir == s.kdir && s'.pool == s.pool
            && SameTables(s, s', dirs) && Lookup(s', d, page) == None
            && SameLookupsExcept(s, s', dirs, d, page, page + 1)
            && NoNewFrames(s, s')
  {
    var i, k := DirIndex(page), TableIndex(page);
    if Table(s, d, i).Some? {
      SetPteKeeps(s, dirs, d, i, k, 0);
      var s' := UnmapPage(s, d, page);
      hide Separate, DirOk, SetEntry, UnmapPage, Lookup, Table;
      forall e, p | e in dirs && 0 <= p < PAGES && !(e == d && page <= p < page + 1)
        ensures Lookup(s', e, p) == Lookup(s, e, p)
      {
        SamePage(p, page);
        UserTablesAreOwn(s, dirs, d, e, i);
      }
    }
  }

  /** The page maps can be worked on: separate spaces, a clean pool, and `d` one of them. */
  ghost predicate Ready(s: Sys, dirs: set<nat>, d: nat) {
    Separate(s, dirs) && PoolOk(s) && d in dirs
  }

  function Apply(s: Sys, d: nat, op: PageOp): Sys
    requires DirOk(s, d) && DirOk(s, s.kdir) && PoolOk(s) && op.page < KERNEL_PAGE &&
             (op.Map? ==> CanMap(s, d, op.page))
  {
    match op
    case Map(page, frame, write, user) => MapPage(s, d, page, frame, write, user)
    case Unmap(page) => UnmapPage(s, d, page)
  }

  function FlatApply(m: Option<Mapping>, page: nat, op: PageOp): Option<Mapping> {
    if op.page != page then m
    else match op
      case Map(_, frame, write, user) => Some(Mapping(frame, write, !user))
      case Unmap(_) => None
  }

  /** One operation on one page of a flat map: that page gets the operation's answer, everything else stays. */
  lemma {:induction false} ApplyIsFlat(s: Sys, dirs: set<nat>, d: nat, op: PageOp)
    requires Ready(s, dirs, d) && op.page < KERNEL_PAGE && (op.Map? ==> CanMap(s, d, op.page))
    ensures var s' := Apply(s, d, op);
            && Ready(s', dirs, d) && s'.kdir == s.kdir && NoNewFrames(s, s')
            && |s'.pool| == |s.pool| - (if op.Map? && Table(s, d, DirIndex(op.page)).None? then 1 else 0)
            && (forall j :: 0 <= j < ENTRIES ==>
                  (Table(s', d, j).Some? <==> Table(s, d, j).Some? || (op.Map? && j == DirIndex(op.page))))
            && forall e, p :: e in dirs && 0 <= p < PAGES ==>
                 Lookup(s', e, p) == if e == d then FlatApply(Lookup(s, e, p), p, op) else Lookup(s, e, p)
  {
    var s' := Apply(s, d, op);
    match op
    case Map(page, frame, write, user) => MapUserPage(s, dirs, d, page, frame, write, user);
    case Unmap(page) => UnmapUserPage(s, dirs, d, page);
  }

  ghost predicate UserOps(ops: seq<PageOp>) {
    forall op :: op in ops ==> op.page < KERNEL_PAGE
  }

  /** Some operation maps a page behind directory entry `i`. */
  ghost predicate Touched(ops: seq<PageOp>, i: nat) {
    exists k :: 0 <= k < |ops| && ops[k].Map? && DirIndex(ops[k].page) == i
  }

  /** The tables that a sequence of operations has to make: one for each entry it is the first to map behind. */
  ghost function Missing(s: Sys, d: nat, ops: seq<PageOp>): (n: nat)
    requires IsTable(s, d) && UserOps(ops)
    decreases |ops|
  {
    if ops == [] then 0
    else
      var front, last := ops[..|ops| - 1], ops[|ops| - 1];
      var i := DirIndex(last.page);
      Missing(s, d, front) + if last.Map? && Table(s, d, i).None? && !Touched(front, i) then 1 else 0
  }

  /** The state after a sequence of operations on space `d`; it takes exactly the frames it needs for tables. */
  ghost function Run(s: Sys, dirs: set<nat>, d: nat, ops: seq<PageOp>): (s': Sys)
    requires Ready(s, dirs, d) && UserOps(ops) && |s.pool| >= Missing(s, d, ops)
    ensures Ready(s', dirs, d) && s'.kdir == s.kdir && NoNewFrames(s, s')
    ensures |s'.pool| == |s.pool| - Missing(s, d, ops)
    ensures forall j :: 0 <= j < ENTRIES ==> (Table(s', d, j).Some? <==> Table(s, d, j).Some? || Touched(ops, j))
    decreases |ops|
  {
    if ops == [] then s
    else
      var front, last := ops[..|ops| - 1], ops[|ops| - 1];
      var s1 := Run(s, dirs, d, front);
      ApplyIsFlat(s1, dirs, d, last);
      TouchedLast(ops);
      Apply(s1, d, last)
  }

  lemma {:induction false} TouchedLast(ops: seq<PageOp>)
    requires ops != []
    ensures var front, last := ops[..|ops| - 1], ops[|ops| - 1];
            forall j :: Touched(ops, j) <==> Touched(front, j) || (last.Map? && DirIndex(last.page) == j)
  {
    var front, last := ops[..|ops| - 1], ops[|ops| - 1];
    forall j
      ensures Touched(ops, j) <==> Touched(front, j) || (last.Map? && DirIndex(last.page) == j)
    {
      if Touched(front, j) {
        var k :| 0 <= k < |front| && front[k].Map? && DirIndex(front[k].page) == j;
        assert ops[k] == front[k];
      }
      if Touched(ops, j) && !(last.Map? && DirIndex(last.page) == j) {
        var k :| 0 <= k < |ops| && ops[k].Map? && DirIndex(ops[k].page) == j;
        assert front[k] == ops[k];
      }
    }
  }

  /** The same sequence on a flat map. */
  function FlatRun(m: Option<Mapping>, page: nat, ops: seq<PageOp>): Option<Mapping>
    decreases |ops|
  {
    if ops == [] then m else FlatApply(FlatRun(m, page, ops[..|ops| - 1]), page, ops[|ops| - 1])
  }

  /** Two-level tables refine a flat page map, and no sequence of operations on one space shows in another. */
  lemma {:induction false} RunIsFlat(s: Sys, dirs: set<nat>, d: nat, ops: seq<PageOp>)
    requires Ready(s, dirs, d) && UserOps(ops) && |s.pool| >= Missing(s, d, ops)
    ensures var s' := Run(s, dirs, d, ops);
            forall e, p :: e in dirs && 0 <= p < PAGES ==>
              Lookup(s', e, p) == if e == d then FlatRun(Lookup(s, e, p), p, ops) else Lookup(s, e, p)
    decreases |ops|
  {
    if ops != [] {
      var front, last := ops[..|ops| - 1], ops[|ops| - 1];
      RunIsFlat(s, dirs, d, front);
      ApplyIsFlat(Run(s, dirs, d, front), dirs, d, last);
      hide Ready, Apply, FlatApply, DirOk, Lookup;
    }
  }

  /** Operations over a range of pages, as mmu_map_table and mmu_unmap_table issue them. */
  function MapOps(page: nat, frame: nat, n: nat, write: bool, user: bool): seq<PageOp> {
    seq(n, k requires 0 <= k => Map(page + k, frame + k, write, user))
  }

  function UnmapOps(page: nat, n: nat): seq<PageOp> {
    seq(n, k requires 0 <= k => Unmap(page + k))
  }

  lemma {:induction false} MapOpsFlat(m: Option<Mapping>, p: nat, page: nat, frame: nat, n: nat, write: bool,
                                      user: bool)
    ensures FlatRun(m, p, MapOps(page, frame, n, write, user)) ==
            if page <= p < page + n then Some(Mapping(frame + (p - page), write, !user)) else m
    decreases n
  {
    if n > 0 {
      MapOpsFlat(m, p, page, frame, n - 1, write, user);
      assert MapOps(page, frame, n, write, user)[..n - 1] == MapOps(page, frame, n - 1, write, user);
    }
  }

  lemma {:induction false} UnmapOpsFlat(m: Option<Mapping>, p: nat, page: nat, n: nat)
    ensures FlatRun(m, p, UnmapOps(page, n)) == if page <= p < page + n then None else m
    decreases n
  {
    if n > 0 {
      UnmapOpsFlat(m, p, page, n - 1);
      assert UnmapOps(page, n)[..n - 1] == UnmapOps(page, n - 1);
    }
  }

  /** Both states show the same page maps through the same tables. */
  ghost predicate SameMaps(s: Sys, s': Sys, dirs: set<nat>) {
    && (forall e :: e in dirs ==> DirOk(s, e) && DirOk(s', e)) && SameTables(s, s', dirs)
    && forall e, p :: e in dirs && 0 <= p < PAGES ==> Lookup(s', e, p) == Lookup(s, e, p)
  }

  /** Mapping a page that is already mapped as asked changes nothing that can be seen. */
  lemma {:induction false} RemapPage(s: Sys, dirs: set<nat>, d: nat, page: nat, frame: nat, write: bool, user: bool)
    requires Ready(s, dirs, d) && page < KERNEL_PAGE
    requires Lookup(s, d, page) == Some(Mapping(frame, write, !user))
    ensures var s' := MapPage(s, d, page, frame, write, user); Ready(s', dirs, d) && SameMaps(s, s', dirs)
  {
    MapUserPage(s, dirs, d, page, frame, write, user);
    var s' := MapPage(s, d, page, frame, write, user);
    assert forall e :: e in dirs ==> DirOk(s, e) && DirOk(s', e);
    hide Separate, MapPage, Lookup, DirOk;
  }

  lemma {:induction false} RunNone(s: Sys, dirs: set<nat>, d: nat, ops: seq<PageOp>)
    requires Ready(s, dirs, d) && ops == []
    ensures SameMaps(s, Run(s, dirs, d, ops), dirs)
  {
    assert forall e :: e in dirs ==> DirOk(s, e);
    hide Lookup;
  }

  lemma {:induction false} RunLast(s: Sys, dirs: set<nat>, d: nat, ops: seq<PageOp>)
    requires Ready(s, dirs, d) && UserOps(ops) && ops != [] && |s.pool| >= Missing(s, d, ops)
    ensures var front, last := ops[..|ops| - 1], ops[|ops| - 1];
            && Missing(s, d, front) <= Missing(s, d, ops)
            && (last.Map? ==> CanMap(Run(s, dirs, d, front), d, last.page))
            && Run(s, dirs, d, ops) == Apply(Run(s, dirs, d, front), d, last)
  {
  }

  lemma {:induction false} ReadyDir(s: Sys, dirs: set<nat>, d: nat)
    requires Ready(s, dirs, d)
    ensures DirOk(s, d) && IsTable(s, d)
  {
  }

  lemma {:induction false} MissingNone(s: Sys, d: nat, ops: seq<PageOp>)
    requires IsTable(s, d) && UserOps(ops) && ops == []
    ensures Missing(s, d, ops) == 0
  {
  }

  lemma {:induction false} MissingLast(s: Sys, d: nat, ops: seq<PageOp>)
    requires IsTable(s, d) && UserOps(ops) && ops != []
    requires ops[|ops| - 1].Map? ==> Table(s, d, DirIndex(ops[|ops| - 1].page)).Some?
    ensures Missing(s, d, ops) == Missing(s, d, ops[..|ops| - 1])
  {
  }

  lemma {:induction false} MappedIsThere(s: Sys, d: nat, page: nat)
    requires DirOk(s, d) && page < PAGES && Lookup(s, d, page).Some?
    ensures Table(s, d, DirIndex(page)).Some? && CanMap(s, d, page)
  {
  }

  lemma {:induction false} TouchedAny(page: nat, frame: nat, n: nat, write: bool, user: bool, i: nat)
    ensures Touched(MapOps(page, frame, n, write, user), i) <==> Touched(MapOps(page, 0, n, true, true), i)
  {
    var ops, other := MapOps(page, frame, n, write, user), MapOps(page, 0, n, true, true);
    assert forall k :: 0 <= k < n ==> ops[k].Map? && other[k].Map? && ops[k].page == other[k].page;
    if Touched(ops, i) {
      var k :| 0 <= k < |ops| && ops[k].Map? && DirIndex(ops[k].page) == i;
      assert DirIndex(other[k].page) == i;
    }
    if Touched(other, i) {
      var k :| 0 <= k < |other| && other[k].Map? && DirIndex(other[k].page) == i;
      assert DirIndex(ops[k].page) == i;
    }
  }

  /** The tables that mapping a range has to make. */
  ghost function TablesFor(s: Sys, d: nat, page: nat, n: nat): nat
    requires IsTable(s, d) && page + n <= KERNEL_PAGE
  {
    MapOpsLast(page, 0, n, true, true);
    Missing(s, d, MapOps(page, 0, n, true, true))
  }

  /** Their number depends on the pages alone. */
  lemma {:induction false} TablesForAny(s: Sys, d: nat, page: nat, frame: nat, n: nat, write: bool, user: bool)
    requires IsTable(s, d) && page + n <= KERNEL_PAGE
    ensures UserOps(MapOps(page, frame, n, write, user))
    ensures Missing(s, d, MapOps(page, frame, n, write, user)) == TablesFor(s, d, page, n)
    decreases n
  {
    hide MapOps, UserOps, Touched, DirIndex;
    MapOpsLast(page, frame, n, write, user);
    MapOpsLast(page, 0, n, true, true);
    if n > 0 {
      var i := DirIndex(page + n - 1);
      TablesForAny(s, d, page, frame, n - 1, write, user);
      TouchedAny(page, frame, n - 1, write, user, i);
    }
  }

  /** Unmapping makes no table. */
  lemma {:induction false} UnmapNeedsNone(s: Sys, d: nat, page: nat, n: nat)
    requires IsTable(s, d) && page + n <= KERNEL_PAGE
    ensures UserOps(UnmapOps(page, n)) && Missing(s, d, UnmapOps(page, n)) == 0
    decreases n
  {
    if n > 0 {
      UnmapNeedsNone(s, d, page, n - 1);
      assert UnmapOps(page, n)[..n - 1] == UnmapOps(page, n - 1);
    }
  }

  /** Where the same tables are present, the same ones are missing. */
  lemma {:induction false} SameMissing(s: Sys, d: nat, s': Sys, d': nat, ops: seq<PageOp>)
    requires IsTable(s, d) && IsTable(s', d') && UserOps(ops)
    requires forall j :: 0 <= j < ENTRIES ==> (Table(s', d', j).Some? <==> Table(s, d, j).Some?)
    ensures Missing(s', d', ops) == Missing(s, d, ops)
    decreases |ops|
  {
    if ops != [] { SameMissing(s, d, s', d', ops[..|ops| - 1]); }
  }

  lemma {:induction false} RemapLast(s: Sys, s1: Sys, dirs: set<nat>, d: nat, page: nat, frame: nat, write: bool,
                                     user: bool)
    requires Ready(s, dirs, d) && Ready(s1, dirs, d) && SameMaps(s, s1, dirs) && page < KERNEL_PAGE
    requires Lookup(s, d, page) == Some(Mapping(frame, write, !user))
    ensures SameMaps(s, Apply(s1, d, Map(page, frame, write, user)), dirs)
  {
    assert forall e :: e in dirs ==> DirOk(s, e) && DirOk(s1, e);
    RemapPage(s1, dirs, d, page, frame, write, user);
    hide Separate, MapPage, Lookup, DirOk;
  }

  lemma {:induction false} MapOpsLast(page: nat, frame: nat, n: nat, write: bool, user: bool)
    ensures |MapOps(page, frame, n, write, user)| == n
    ensures page + n <= KERNEL_PAGE ==> UserOps(MapOps(page, frame, n, write, user))
    ensures n > 0 ==>
              var ops := MapOps(page, frame, n, write, user);
              ops[..n - 1] == MapOps(page, frame, n - 1, write, user) &&
              ops[n - 1] == Map(page + n - 1, frame + n - 1, write, user)
  {
  }

  /** The same for a range of pages, each mapped onto itself. */
  lemma {:induction false} RemapKeeps(s: Sys, dirs: set<nat>, d: nat, page: nat, n: nat, write: bool, user: bool)
    requires Ready(s, dirs, d) && page + n <= KERNEL_PAGE
    requires forall p :: page <= p < page + n ==> Lookup(s, d, p) == Some(Mapping(p, write, !user))
    ensures UserOps(MapOps(page, page, n, write, user)) && |MapOps(page, page, n, write, user)| == n
    ensures Missing(s, d, MapOps(page, page, n, write, user)) == 0
    ensures SameMaps(s, Run(s, dirs, d, MapOps(page, page, n, write, user)), dirs)
    decreases n
  {
    hide Separate, DirOk, Lookup, SameMaps, Apply, PoolOk, Run, MapOps, UserOps, Missing, Ready, NoNewFrames, DirIndex;
    MapOpsLast(page, page, n, write, user);
    ReadyDir(s, dirs, d);
    var ops := MapOps(page, page, n, write, user);
    if n == 0 {
      MissingNone(s, d, ops);
      RunNone(s, dirs, d, ops);
    } else {
      RemapKeeps(s, dirs, d, page, n - 1, write, user);
      MappedIsThere(s, d, page + n - 1);
      MissingLast(s, d, ops);
      RunLast(s, dirs, d, ops);
      RemapLast(s, Run(s, dirs, d, ops[..n - 1]), dirs, d, page + n - 1, page + n - 1, write, user);
    }
  }

  // ----- The directory that paging_init sets up -----

  /** fill_pagetable: 1024 pages from frame 0 on, writable, for the kernel. */
  function LowTable(): (t: seq<nat>)
    ensures |t| == ENTRIES && forall i :: 0 <= i < ENTRIES ==> t[i] == MakeEntry(i, true, false)
  {
    seq(ENTRIES, i requires 0 <= i => MakeEntry(i, true, false))
  }

  function BootDir(low: nat, high: nat): (dir: seq<nat>)
    ensures |dir| == ENTRIES
  {
    Blank()[0 := MakeEntry(low, true, false)][KERNEL_ENTRY := MakeEntry(high, true, false)]
  }

  function BootSys(kdir: nat, low: nat, high: nat, pool: seq<nat>): Sys {
    Sys(kdir, map[kdir := BootDir(low, high), low := LowTable(), high := LowTable()], pool)
  }

  /** What it shows: the low 4 MiB, at their own addresses and in the kernel range. */
  function BootMap(page: nat): Option<Mapping> {
    if page < ENTRIES then Some(Mapping(page, true, true))
    else if KERNEL_PAGE <= page < KERNEL_PAGE + ENTRIES then Some(Mapping(page - KERNEL_PAGE, true, true))
    else None
  }

  /** After start-up the kernel's directory is the one address space. */
  lemma {:induction false} BootIsReady(kdir: nat, low: nat, high: nat, pool: seq<nat>)
    requires kdir != low && kdir != high && low != high
    requires kdir !in pool && low !in pool && high !in pool
    requires forall i, j :: 0 <= i < j < |pool| ==> pool[i] != pool[j]
    ensures Ready(BootSys(kdir, low, high, pool), {kdir}, kdir)
    ensures DirOk(BootSys(kdir, low, high, pool), kdir)
    ensures forall page :: 0 <= page < PAGES ==> Lookup(BootSys(kdir, low, high, pool), kdir, page) == BootMap(page)
  {
    hide LowTable, BootDir, Lookup, BootMap;
    var s := BootSys(kdir, low, high, pool);
    forall i | 0 <= i < ENTRIES
      ensures Table(s, kdir, i) == if i == 0 then Some(low) else if i == KERNEL_ENTRY then Some(high) else None
    {
      BootEntry(low, high, i);
    }
    forall page | 0 <= page < PAGES
      ensures Lookup(s, kdir, page) == BootMap(page)
    {
      BootLookup(s, kdir, low, high, page);
    }
  }

  lemma {:induction false} BootEntry(low: nat, high: nat, i: nat)
    requires i < ENTRIES
    ensures BootDir(low, high)[i] ==
            if i == 0 then MakeEntry(low, true, false)
            else if i == KERNEL_ENTRY then MakeEntry(high, true, false) else 0
  {
  }

  lemma {:induction false} BootLookup(s: Sys, kdir: nat, low: nat, high: nat, page: nat)
    requires DirOk(s, kdir) && low in s.pages && high in s.pages && page < PAGES
    requires s.pages[low] == LowTable() && s.pages[high] == LowTable()
    requires forall i :: 0 <= i < ENTRIES ==>
               Table(s, kdir, i) == if i == 0 then Some(low) else if i == KERNEL_ENTRY then Some(high) else None
    ensures Lookup(s, kdir, page) == BootMap(page)
  {
    hide LowTable;
    var i, k := DirIndex(page), TableIndex(page);
    DivMod(page, ENTRIES);
    assert page == i * ENTRIES + k;
    assert Table(s, kdir, i) == if i == 0 then Some(low) else if i == KERNEL_ENTRY then Some(high) else None;
    assert LowTable()[k] == MakeEntry(k, true, false);
  }
}
