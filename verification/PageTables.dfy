/**
  x86 two-level page tables (Intel SDM volume 3A, section 4.3) as words in
  physical frames, the kernel's map, unmap and clone on them, and the flat page
  map they stand for.
  */
module PageTables {
  import opened Options
  import opened Arith

  const PAGE_SZ: nat := 4096
  const ENTRIES: nat := 1024
  const PAGES: nat := 0x10_0000
  /** First page, and first directory entry, at or above KERNEL_OFFSET (0xC0000000). */
  const KERNEL_PAGE: nat := 0xC0000
  const KERNEL_ENTRY: nat := 768

  // ----- Entry words -----

  predicate Present(w: nat) { w % 2 == 1 }
  predicate Writable(w: nat) { w / 2 % 2 == 1 }
  predicate UserBit(w: nat) { w / 4 % 2 == 1 }
  function FrameOf(w: nat): nat { w / 4096 }

  function MakeEntry(frame: nat, write: bool, user: bool): (w: nat)
    ensures Present(w) && FrameOf(w) == frame && (Writable(w) <==> write) && (UserBit(w) <==> user)
  {
    frame * 4096 + 1 + (if write then 2 else 0) + (if user then 4 else 0)
  }

  /** `w |= flags & PAGE_DIRECTORY_FLAG_USER` */
  function OrUser(w: nat, user: bool): (w': nat)
    ensures (Present(w') <==> Present(w)) && FrameOf(w') == FrameOf(w) && (Writable(w') <==> Writable(w))
    ensures UserBit(w') <==> UserBit(w) || user
  {
    if user && !UserBit(w) then assert w / 4 % 2 == 0; SetBitTwo(w); w + 4 else w
  }

  lemma {:induction false} SetBitTwo(w: nat)
    requires w / 4 % 2 == 0
    ensures (w + 4) % 2 == w % 2 && (w + 4) / 2 % 2 == w / 2 % 2 && (w + 4) / 4 % 2 == 1 && (w + 4) / 4096 == w / 4096
  {
    var r, q := w % 4, w / 8;
    var f, g := q / 512, q % 512;
    assert w == 8 * q + r && q == 512 * f + g;
    DivModUnique(w, f, 4096, 8 * g + r);
    DivModUnique(w + 4, f, 4096, 8 * g + r + 4);
    LowBits(w, q, r);
  }

  lemma {:induction false} LowBits(w: nat, q: nat, r: nat)
    requires w == 8 * q + r && r < 4
    ensures (w + 4) % 2 == w % 2 && (w + 4) / 2 % 2 == w / 2 % 2 && (w + 4) / 4 % 2 == 1
  {
    assert w / 2 == 4 * q + r / 2 && (w + 4) / 2 == 4 * q + 2 + r / 2;
    assert (w + 4) / 4 == 2 * q + 1;
  }

  function DirIndex(page: nat): nat { page / ENTRIES }
  function TableIndex(page: nat): (i: nat) ensures i < ENTRIES { page % ENTRIES }

  // ----- Memory that holds directories and tables -----

  /**
    `pages` gives the contents of every frame in use as a directory or a table;
    `kdir` is the kernel's directory; `pool` lists the page-aligned frames the
    heap will hand out next.
    */
  datatype Sys = Sys(kdir: nat, pages: map<nat, seq<nat>>, pool: seq<nat>)

  predicate IsTable(s: Sys, f: nat) {
    f in s.pages && |s.pages[f]| == ENTRIES
  }

  /** The table behind entry `i` of directory `d`. */
  function Table(s: Sys, d: nat, i: nat): Option<nat>
    requires IsTable(s, d) && i < ENTRIES
  {
    if Present(s.pages[d][i]) then Some(FrameOf(s.pages[d][i])) else None
  }

  predicate DirOk(s: Sys, d: nat) {
    IsTable(s, d) && forall i :: 0 <= i < ENTRIES && Table(s, d, i).Some? ==> IsTable(s, Table(s, d, i).value)
  }

  datatype Mapping = Mapping(frame: nat, write: bool, kernel: bool)

  function Decode(w: nat): Option<Mapping> {
    if Present(w) then Some(Mapping(FrameOf(w), Writable(w), !UserBit(w))) else None
  }

  /** mmu_map_get_table: frame and flags of a page; a mapped page is always readable. */
  function Lookup(s: Sys, d: nat, page: nat): Option<Mapping>
    requires DirOk(s, d) && page < PAGES
  {
    var t := Table(s, d, DirIndex(page));
    if t.None? then None else Decode(s.pages[t.value][TableIndex(page)])
  }

  /**
    The directories `dirs` are separate address spaces: no table is a
    directory, and a table is reached from two places only if both are the same
    kernel entry.
    */
  ghost predicate Separate(s: Sys, dirs: set<nat>) {
    && s.kdir in dirs
    && (forall d :: d in dirs ==> DirOk(s, d))
    && (forall d, i :: d in dirs && 0 <= i < ENTRIES && Table(s, d, i).Some? ==> Table(s, d, i).value !in dirs)
    && (forall d, e, i, j :: d in dirs && e in dirs && 0 <= i < ENTRIES && 0 <= j < ENTRIES ==>
          Table(s, d, i).Some? ==> Table(s, d, i) == Table(s, e, j) ==> i == j && (d == e || i >= KERNEL_ENTRY))
  }

  /** Frames waiting in the heap hold no directory or table. */
  predicate PoolOk(s: Sys) {
    && (forall f :: f in s.pool ==> f !in s.pages)
    && (forall i, j :: 0 <= i < j < |s.pool| ==> s.pool[i] != s.pool[j])
  }

  // ----- pgdir_map_page -----

  function Blank(): seq<nat> {
    seq(ENTRIES, i => 0)
  }

  function SetEntry(s: Sys, f: nat, i: nat, w: nat): Sys
    requires IsTable(s, f) && i < ENTRIES
  {
    var entries: seq<nat> := s.pages[f][i := w];
    s.(pages := s.pages[f := entries])
  }

  /** Gives entry `i` of directory `d` a blank table if it has none. */
  function EnsureTable(s: Sys, d: nat, i: nat): (s': Sys)
    requires IsTable(s, d) && i < ENTRIES
    requires Present(s.pages[d][i]) || |s.pool| > 0
  {
    if Present(s.pages[d][i]) then s
    else
      var f := s.pool[0];
      var s1 := SetEntry(s, d, i, MakeEntry(f, true, false));
      Sys(s1.kdir, s1.pages[f := Blank()], s1.pool[1..])
  }

  /** The directory a mapping is made in: pages of the kernel range always go to the kernel's. */
  function Target(s: Sys, d: nat, page: nat): nat {
    if page >= KERNEL_PAGE then s.kdir else d
  }

  /** The page's table exists in directory `d`, or the heap has a frame for it. */
  predicate CanMap(s: Sys, d: nat, page: nat)
    requires IsTable(s, d) && page < PAGES
  {
    Table(s, d, DirIndex(page)).Some? || |s.pool| > 0
  }

  function MapPage(s: Sys, d: nat, page: nat, frame: nat, write: bool, user: bool): Sys
    requires DirOk(s, d) && DirOk(s, s.kdir) && PoolOk(s) && page < PAGES && CanMap(s, Target(s, d, page), page)
  {
    var t, i := Target(s, d, page), DirIndex(page);
    var s1 := EnsureTable(s, t, i);
    var s2 := SetEntry(s1, t, i, OrUser(s1.pages[t][i], user));
    var table := FrameOf(s2.pages[t][i]);
    if IsTable(s2, table) then
      var s3 := SetEntry(s2, table, TableIndex(page), MakeEntry(frame, write, user));
      if t != d && IsTable(s3, d) && IsTable(s3, t) then SetEntry(s3, d, i, s3.pages[t][i]) else s3
    else s2
  }

  // ----- Each write and what it does to every lookup -----

  /** The one new table is in nobody's way. */
  lemma {:induction false} EnsureTableTables(s: Sys, dirs: set<nat>, d: nat, i: nat)
    requires Separate(s, dirs) && PoolOk(s) && d in dirs && i < ENTRIES && (Table(s, d, i).Some? || |s.pool| > 0)
    ensures var s' := EnsureTable(s, d, i);
            && (forall e :: e in dirs ==> IsTable(s', e))
            && (forall e, j :: e in dirs && 0 <= j < ENTRIES && !(e == d && j == i) ==>
                Table(s', e, j) == Table(s, e, j))
            && (Table(s, d, i).Some? ==> s' == s)
            && (Table(s, d, i).None? ==>
                  && Table(s', d, i) == Some(s.pool[0])
                  && forall e, j :: e in dirs && 0 <= j < ENTRIES ==> Table(s, e, j) != Some(s.pool[0]))
  {
    if Table(s, d, i).None? { assert s.pool[0] in s.pool; }
  }

  lemma {:induction false} EnsureTableKeeps(s: Sys, dirs: set<nat>, d: nat, i: nat)
    requires Separate(s, dirs) && PoolOk(s) && d in dirs && i < ENTRIES && (Table(s, d, i).Some? || |s.pool| > 0)
    ensures var s' := EnsureTable(s, d, i);
            && Separate(s', dirs) && PoolOk(s') && s'.kdir == s.kdir
            && |s'.pool| == |s.pool| - (if Table(s, d, i).Some? then 0 else 1)
            && (forall j :: 0 <= j < ENTRIES ==> (Table(s', d, j).Some? <==> Table(s, d, j).Some? || j == i))
            && (forall e, page :: e in dirs && 0 <= page < PAGES ==> Lookup(s', e, page) == Lookup(s, e, page))
  {
    EnsureTableTables(s, dirs, d, i);
    if !Present(s.pages[d][i]) {
      var s' := EnsureTable(s, d, i);
      assert s.pool[0] in s.pool;
      assert forall f :: f in s'.pool ==> f in s.pool;
      forall e, page | e in dirs && 0 <= page < PAGES
        ensures Lookup(s', e, page) == Lookup(s, e, page)
      {
        var t := Table(s, e, DirIndex(page));
      }
    }
  }

  lemma {:induction false} OrUserKeeps(s: Sys, dirs: set<nat>, d: nat, i: nat, user: bool)
    requires Separate(s, dirs) && PoolOk(s) && d in dirs && i < ENTRIES
    ensures var s' := SetEntry(s, d, i, OrUser(s.pages[d][i], user));
            && Separate(s', dirs) && PoolOk(s')
            && (forall e, j :: e in dirs && 0 <= j < ENTRIES ==> Table(s', e, j) == Table(s, e, j))
            && (forall e, page :: e in dirs && 0 <= page < PAGES ==> Lookup(s', e, page) == Lookup(s, e, page))
  {
    var s' := SetEntry(s, d, i, OrUser(s.pages[d][i], user));
    assert forall e, j :: e in dirs && 0 <= j < ENTRIES ==> Table(s', e, j) == Table(s, e, j);
  }

  /** Writing an entry of the table behind (d, i) changes the pages that reach that table, and only the one entry. */
  lemma {:induction false} SetPteKeeps(s: Sys, dirs: set<nat>, d: nat, i: nat, k: nat, w: nat)
    requires Separate(s, dirs) && PoolOk(s) && d in dirs && i < ENTRIES && k < ENTRIES && Table(s, d, i).Some?
    ensures var t := Table(s, d, i).value;
            IsTable(s, t) &&
            var s' := SetEntry(s, t, k, w);
            && Separate(s', dirs) && PoolOk(s')
            && (forall e, j :: e in dirs && 0 <= j < ENTRIES ==> Table(s', e, j) == Table(s, e, j))
            && (forall e, page :: e in dirs && 0 <= page < PAGES ==>
                  Lookup(s', e, page) ==
                  if DirIndex(page) == i && TableIndex(page) == k && Table(s, e, i) == Table(s, d, i) then Decode(w)
                  else Lookup(s, e, page))
  {
    var t := Table(s, d, i).value;
    assert IsTable(s, t);
    var s' := SetEntry(s, t, k, w);
    assert t !in dirs;
    assert forall e, j :: e in dirs && 0 <= j < ENTRIES ==> Table(s', e, j) == Table(s, e, j);
    forall e, page | e in dirs && 0 <= page < PAGES
      ensures Lookup(s', e, page) ==
              if DirIndex(page) == i && TableIndex(page) == k && Table(s, e, i) == Table(s, d, i) then Decode(w)
              else Lookup(s, e, page)
    {
      var u := Table(s, e, DirIndex(page));
      if u == Some(t) { assert DirIndex(page) == i; }
    }
  }
}
