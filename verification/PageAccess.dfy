/**
  What the processor lets a program do with a page: a write or a user-mode access needs the
  permission at both levels (Intel SDM volume 3A, section 4.6).
  */
module PageAccess {
  import opened Options
  import opened PageTables
  import opened PageMaps
  import opened PageClone

  /** Entry `i` of directory `d`. */
  function DirWord(s: Sys, d: nat, i: nat): nat
    requires IsTable(s, d) && i < ENTRIES
  {
    s.pages[d][i]
  }

  /** The access a page gives, as its directory entry and its table entry allow together. */
  function Effective(s: Sys, d: nat, page: nat): Option<Mapping>
    requires DirOk(s, d) && page < PAGES
  {
    var w := DirWord(s, d, DirIndex(page));
    match Lookup(s, d, page)
    case None => None
    case Some(m) => Some(Mapping(m.frame, m.write && Writable(w), m.kernel || !UserBit(w)))
  }

  /** No directory entry is in the way: all allow writes, and user access wherever a page behind them does. */
  ghost predicate Coherent(s: Sys, dirs: set<nat>)
    requires forall e :: e in dirs ==> IsTable(s, e) && DirOk(s, e)
  {
    && (forall e, i :: e in dirs && 0 <= i < ENTRIES && Present(DirWord(s, e, i)) ==> Writable(DirWord(s, e, i)))
    && (forall e, p :: e in dirs && 0 <= p < PAGES && Lookup(s, e, p).Some? && !Lookup(s, e, p).value.kernel ==>
          UserBit(DirWord(s, e, DirIndex(p))))
  }

  /** Then every page gives the access that its own entry says. */
  lemma {:induction false} CoherentIsExact(s: Sys, dirs: set<nat>, e: nat, p: nat)
    requires (forall e :: e in dirs ==> IsTable(s, e) && DirOk(s, e)) && Coherent(s, dirs) && e in dirs && p < PAGES
    ensures Effective(s, e, p) == Lookup(s, e, p)
  {
    assert Lookup(s, e, p).Some? ==> Present(DirWord(s, e, DirIndex(p)));
  }

  // ----- Directory entries after a mapping -----

  /** Entry `i` of `d` is there and keeps or gains its permissions; every other directory entry is as it was. */
  ghost predicate OneEntryWider(s: Sys, s': Sys, dirs: set<nat>, d: nat, i: nat, user: bool)
    requires (forall e :: e in dirs ==> IsTable(s, e) && IsTable(s', e)) && d in dirs && i < ENTRIES
  {
    && (forall e, j :: e in dirs && 0 <= j < ENTRIES && !(e == d && j == i) ==> DirWord(s', e, j) == DirWord(s, e, j))
    && var w, w' := DirWord(s, d, i), DirWord(s', d, i);
       && Present(w') && (Writable(w') <==> !Present(w) || Writable(w))
       && (UserBit(w') <==> (Present(w) && UserBit(w)) || user)
  }

  lemma {:induction false} EnsureTableWords(s: Sys, dirs: set<nat>, d: nat, i: nat)
    requires Separate(s, dirs) && PoolOk(s) && d in dirs && i < ENTRIES && (Table(s, d, i).Some? || |s.pool| > 0)
    ensures var s' := EnsureTable(s, d, i);
            (forall e :: e in dirs ==> IsTable(s, e) && IsTable(s', e)) && OneEntryWider(s, s', dirs, d, i, false)
  {
    if !Present(s.pages[d][i]) { assert s.pool[0] in s.pool; }
  }

  /** The writes that pgdir_map_page makes in directory `t`, its own or the kernel's. */
  lemma {:induction false} MapWords(s: Sys, dirs: set<nat>, t: nat, page: nat, w: nat, user: bool)
    requires Separate(s, dirs) && PoolOk(s) && t in dirs && page < PAGES && CanMap(s, t, page)
    ensures var s1 := EnsureTable(s, t, DirIndex(page));
            IsTable(s1, t) &&
            var s2 := SetEntry(s1, t, DirIndex(page), OrUser(s1.pages[t][DirIndex(page)], user));
            && Table(s2, t, DirIndex(page)).Some? && IsTable(s2, Table(s2, t, DirIndex(page)).value)
            && var s3 := SetEntry(s2, Table(s2, t, DirIndex(page)).value, TableIndex(page), w);
               (forall e :: e in dirs ==> IsTable(s, e) && IsTable(s3, e)) &&
               OneEntryWider(s, s3, dirs, t, DirIndex(page), user)
  {
    var i := DirIndex(page);
    EnsureTableKeeps(s, dirs, t, i);
    EnsureTableWords(s, dirs, t, i);
    var s1 := EnsureTable(s, t, i);
    OrUserKeeps(s1, dirs, t, i, user);
    var s2 := SetEntry(s1, t, i, OrUser(s1.pages[t][i], user));
    var f := Table(s2, t, i).value;
    assert IsTable(s2, f) && f !in dirs;
    hide Separate, EnsureTable, OrUser, Present, Writable, UserBit, FrameOf;
  }

  lemma {:induction false} MapUserWords(s: Sys, dirs: set<nat>, d: nat, page: nat, frame: nat, write: bool, user: bool)
    requires Separate(s, dirs) && PoolOk(s) && d in dirs && page < KERNEL_PAGE && CanMap(s, d, page)
    ensures var s' := MapPage(s, d, page, frame, write, user);
            (forall e :: e in dirs ==> IsTable(s, e) && IsTable(s', e)) &&
            OneEntryWider(s, s', dirs, d, DirIndex(page), user)
  {
    MapWords(s, dirs, d, page, MakeEntry(frame, write, user), user);
    hide Separate, EnsureTable, OrUser, Present, Writable, UserBit, FrameOf, MakeEntry, OneEntryWider;
  }

  // ----- Access after a mapping -----

  /** The directory entry behind which a page of `e` lies, after entry `i` of `d` was widened. */
  lemma {:induction false} WiderEntry(s: Sys, s': Sys, dirs: set<nat>, d: nat, i: nat, user: bool, e: nat, j: nat)
    requires (forall e :: e in dirs ==> IsTable(s, e) && IsTable(s', e)) && d in dirs && i < ENTRIES
    requires OneEntryWider(s, s', dirs, d, i, user) && e in dirs && j < ENTRIES
    ensures Present(DirWord(s, e, j)) ==>
              && (Writable(DirWord(s', e, j)) <==> Writable(DirWord(s, e, j)))
              && (UserBit(DirWord(s', e, j)) <==> UserBit(DirWord(s, e, j)) || (user && e == d && j == i))
  {
    hide Present, Writable, UserBit;
  }

  /** What a page allows, given what its own entry says and whether its directory entry allows user access. */
  function Through(m: Option<Mapping>, write: bool, user: bool): Option<Mapping> {
    match m
    case None => None
    case Some(a) => Some(Mapping(a.frame, a.write && write, a.kernel || !user))
  }

  /**
    Mapping a user-range page, from any state: the page allows what was asked for, unless its directory
    entry was there before and forbids writes; every other page allows what it did, and those behind the
    same entry lose nothing.
    */
  lemma {:induction false} MapUserAccess(s: Sys, dirs: set<nat>, d: nat, page: nat, frame: nat, write: bool, user: bool,
                                         e: nat, p: nat)
    requires Separate(s, dirs) && PoolOk(s) && d in dirs && page < KERNEL_PAGE && CanMap(s, d, page)
    requires e in dirs && p < PAGES
    ensures var s', w := MapPage(s, d, page, frame, write, user), DirWord(s, d, DirIndex(page));
            && DirOk(s', e) && DirOk(s', d)
            && Effective(s', d, page) == Some(Mapping(frame, write && (!Present(w) || Writable(w)), !user))
            && (!(e == d && DirIndex(p) == DirIndex(page)) ==> Effective(s', e, p) == Effective(s, e, p))
            && (p != page && DirIndex(p) == DirIndex(page) ==>
                Effective(s', d, p) == Through(Lookup(s, d, p), Writable(w), UserBit(w) || user))
  {
    hide Separate, PoolOk, MapPage, Present, Writable, UserBit, Lookup, DirOk, OneEntryWider, NoNewFrames;
    SeparateDirs(s, dirs);
    MapUserPage(s, dirs, d, page, frame, write, user);
    MapUserWords(s, dirs, d, page, frame, write, user);
    var s', i := MapPage(s, d, page, frame, write, user), DirIndex(page);
    SeparateDirs(s', dirs);
    MappedEntry(s, d, p);
    MappedEntry(s, e, p);
    WiderEntry(s, s', dirs, d, i, user, e, DirIndex(p));
    WiderEntry(s, s', dirs, d, i, user, d, DirIndex(p));
    EntryIs(s, s', dirs, d, i, user);
  }

  lemma {:induction false} EntryIs(s: Sys, s': Sys, dirs: set<nat>, d: nat, i: nat, user: bool)
    requires (forall e :: e in dirs ==> IsTable(s, e) && IsTable(s', e)) && d in dirs && i < ENTRIES
    requires OneEntryWider(s, s', dirs, d, i, user)
    ensures var w, w' := DirWord(s, d, i), DirWord(s', d, i);
            && Present(w') && (Writable(w') <==> !Present(w) || Writable(w))
            && (UserBit(w') <==> (Present(w) && UserBit(w)) || user)
  {
  }

  lemma {:induction false} MappedEntry(s: Sys, e: nat, p: nat)
    requires DirOk(s, e) && p < PAGES
    ensures Lookup(s, e, p).Some? ==> Present(DirWord(s, e, DirIndex(p)))
  {
  }

  /** From a coherent state: exactly the access asked for, and a coherent state again. */
  lemma {:induction false} MapUserCoherent(s: Sys, dirs: set<nat>, d: nat, page: nat, frame: nat, write: bool,
                                           user: bool)
    requires Separate(s, dirs) && PoolOk(s) && d in dirs && page < KERNEL_PAGE && CanMap(s, d, page)
    requires Coherent(s, dirs)
    ensures var s' := MapPage(s, d, page, frame, write, user);
            && (forall e :: e in dirs ==> IsTable(s', e) && DirOk(s', e)) && Coherent(s', dirs)
            && Effective(s', d, page) == Some(Mapping(frame, write, !user))
  {
    hide Separate, PoolOk, MapPage, Present, Writable, UserBit, Lookup, DirOk, OneEntryWider, NoNewFrames;
    SeparateDirs(s, dirs);
    MapUserPage(s, dirs, d, page, frame, write, user);
    MapUserWords(s, dirs, d, page, frame, write, user);
    var s', i := MapPage(s, d, page, frame, write, user), DirIndex(page);
    SeparateDirs(s', dirs);
    EntryIs(s, s', dirs, d, i, user);
    forall e, j | e in dirs && 0 <= j < ENTRIES && Present(DirWord(s', e, j))
      ensures Writable(DirWord(s', e, j))
    {
      if !(e == d && j == i) { OtherWord(s, s', dirs, d, i, user, e, j); }
    }
    forall e, p | e in dirs && 0 <= p < PAGES && Lookup(s', e, p).Some? && !Lookup(s', e, p).value.kernel
      ensures UserBit(DirWord(s', e, DirIndex(p)))
    {
      MappedEntry(s, e, p);
      WiderEntry(s, s', dirs, d, i, user, e, DirIndex(p));
    }
    CoherentIsExact(s', dirs, d, page);
  }

  lemma {:induction false} OtherWord(s: Sys, s': Sys, dirs: set<nat>, d: nat, i: nat, user: bool, e: nat, j: nat)
    requires (forall e :: e in dirs ==> IsTable(s, e) && IsTable(s', e)) && d in dirs && i < ENTRIES
    requires OneEntryWider(s, s', dirs, d, i, user) && e in dirs && j < ENTRIES && !(e == d && j == i)
    ensures DirWord(s', e, j) == DirWord(s, e, j)
  {
  }

  // ----- Kernel pages -----

  /** The kernel's entry `i` is widened, `d` has a copy of it, and every other directory entry is as it was. */
  ghost predicate OneEntryShared(s: Sys, s': Sys, dirs: set<nat>, d: nat, i: nat, user: bool)
    requires (forall e :: e in dirs ==> IsTable(s, e) && IsTable(s', e)) && d in dirs && s.kdir in dirs && i < ENTRIES
  {
    && (forall e, j :: e in dirs && 0 <= j < ENTRIES && !((e == d || e == s.kdir) && j == i) ==>
          DirWord(s', e, j) == DirWord(s, e, j))
    && DirWord(s', d, i) == DirWord(s', s.kdir, i)
    && var w, w' := DirWord(s, s.kdir, i), DirWord(s', s.kdir, i);
       && Present(w') && (Writable(w') <==> !Present(w) || Writable(w))
       && (UserBit(w') <==> (Present(w) && UserBit(w)) || user)
  }

  lemma {:induction false} MapKernelWords(s: Sys, dirs: set<nat>, d: nat, page: nat, frame: nat, write: bool,
                                          user: bool)
    requires Separate(s, dirs) && PoolOk(s) && d in dirs && KERNEL_PAGE <= page < PAGES && CanMap(s, s.kdir, page)
    ensures var s' := MapPage(s, d, page, frame, write, user);
            (forall e :: e in dirs ==> IsTable(s, e) && IsTable(s', e)) &&
            OneEntryShared(s, s', dirs, d, DirIndex(page), user)
  {
    MapWords(s, dirs, s.kdir, page, MakeEntry(frame, write, user), user);
    hide Separate, EnsureTable, OrUser, Present, Writable, UserBit, FrameOf, MakeEntry;
  }

  /** The entry that `e` reaches the page through was there before and forbids user access. */
  ghost predicate Stale(s: Sys, d: nat, e: nat, i: nat)
    requires IsTable(s, e) && IsTable(s, s.kdir) && i < ENTRIES
  {
    e != d && e != s.kdir && Table(s, e, i).Some? && Table(s, e, i) == Table(s, s.kdir, i) && !UserBit(DirWord(s, e, i))
  }

  /**
    Mapping a kernel page from a coherent state gives the space and the kernel the access asked for.
    The state stays coherent exactly when the page is not for user mode, or no other space reaches it
    through an entry of its own that lacks the user bit: such entries are not brought up to date.
    */
  lemma {:induction false} MapKernelCoherent(s: Sys, dirs: set<nat>, d: nat, page: nat, frame: nat, write: bool,
                                             user: bool)
    requires Separate(s, dirs) && PoolOk(s) && d in dirs && KERNEL_PAGE <= page < PAGES && CanMap(s, s.kdir, page)
    requires Coherent(s, dirs)
    ensures var s' := MapPage(s, d, page, frame, write, user);
            && (forall e :: e in dirs ==> IsTable(s', e) && DirOk(s', e))
            && Effective(s', d, page) == Effective(s', s.kdir, page) == Some(Mapping(frame, write, !user))
            && (Coherent(s', dirs) <==> !user || forall e :: e in dirs ==> !Stale(s, d, e, DirIndex(page)))
  {
    hide Separate, PoolOk, MapPage, Present, Writable, UserBit, Lookup, DirOk;
    SeparateDirs(s, dirs);
    MapKernelPage(s, dirs, d, page, frame, write, user);
    KernelPageElsewhere(s, dirs, d, page, frame, write, user);
    MapKernelWords(s, dirs, d, page, frame, write, user);
    var s', i := MapPage(s, d, page, frame, write, user), DirIndex(page);
    SeparateDirs(s', dirs);
    if !user || forall e :: e in dirs ==> !Stale(s, d, e, i) {
      forall e, p | e in dirs && 0 <= p < PAGES && Lookup(s', e, p).Some? && !Lookup(s', e, p).value.kernel
        ensures UserBit(DirWord(s', e, DirIndex(p)))
      {
        MappedEntry(s, e, p);
        MappedEntry(s, s.kdir, p);
        if (e == d || e == s.kdir) && DirIndex(p) == i {
          assert Lookup(s', e, p) == Lookup(s', s.kdir, p);
        } else {
          assert DirWord(s', e, DirIndex(p)) == DirWord(s, e, DirIndex(p));
        }
      }
    } else {
      var e :| e in dirs && Stale(s, d, e, i);
      assert Lookup(s', e, page) == Some(Mapping(frame, write, !user));
    }
  }

  // ----- Unmapping, sequences and start-up -----

  lemma {:induction false} UnmapCoherent(s: Sys, dirs: set<nat>, d: nat, page: nat)
    requires Separate(s, dirs) && PoolOk(s) && d in dirs && page < KERNEL_PAGE && Coherent(s, dirs)
    ensures var s' := UnmapPage(s, d, page);
            (forall e :: e in dirs ==> IsTable(s', e) && DirOk(s', e)) && Coherent(s', dirs)
  {
    UnmapUserPage(s, dirs, d, page);
    var s' := UnmapPage(s, d, page);
    SeparateDirs(s', dirs);
    assert forall e, j :: e in dirs && 0 <= j < ENTRIES ==> DirWord(s', e, j) == DirWord(s, e, j);
    hide Separate, PoolOk, UnmapPage, Present, Writable, UserBit, Lookup, DirOk, DirWord, Table, IsTable;
  }

  /** Every sequence of user-range operations acts on what pages allow as on a flat map, in its own space alone. */
  lemma {:induction false} RunCoherent(s: Sys, dirs: set<nat>, d: nat, ops: seq<PageOp>)
    requires Ready(s, dirs, d) && UserOps(ops) && |s.pool| >= Missing(s, d, ops) && Coherent(s, dirs)
    ensures var s' := Run(s, dirs, d, ops);
            && (forall e :: e in dirs ==> IsTable(s', e) && DirOk(s', e)) && Coherent(s', dirs)
            && forall e, p :: e in dirs && 0 <= p < PAGES ==>
                 Effective(s', e, p) == if e == d then FlatRun(Effective(s, e, p), p, ops) else Effective(s, e, p)
    decreases |ops|
  {
    hide Coherent, Effective, FlatRun, Lookup, Apply, DirOk, Separate, PoolOk, Touched;
    var s' := Run(s, dirs, d, ops);
    SeparateDirs(s, dirs);
    SeparateDirs(s', dirs);
    if ops != [] {
      var front, last := ops[..|ops| - 1], ops[|ops| - 1];
      RunCoherent(s, dirs, d, front);
      ApplyCoherent(Run(s, dirs, d, front), dirs, d, last);
    }
    RunIsFlat(s, dirs, d, ops);
    forall e, p | e in dirs && 0 <= p < PAGES
      ensures Effective(s', e, p) == Lookup(s', e, p) && Effective(s, e, p) == Lookup(s, e, p)
    {
      CoherentIsExact(s, dirs, e, p);
      CoherentIsExact(s', dirs, e, p);
    }
  }

  lemma {:induction false} ApplyCoherent(s: Sys, dirs: set<nat>, d: nat, op: PageOp)
    requires Ready(s, dirs, d) && op.page < KERNEL_PAGE && (op.Map? ==> CanMap(s, d, op.page)) && Coherent(s, dirs)
    ensures var s' := Apply(s, d, op);
            (forall e :: e in dirs ==> IsTable(s', e) && DirOk(s', e)) && Coherent(s', dirs)
  {
    hide Coherent, MapPage, UnmapPage;
    match op
    case Map(page, frame, write, user) => MapUserCoherent(s, dirs, d, page, frame, write, user);
    case Unmap(page) => UnmapCoherent(s, dirs, d, page);
  }

  /** The directory of start-up is coherent. */
  lemma {:induction false} BootCoherent(kdir: nat, low: nat, high: nat, pool: seq<nat>)
    requires kdir != low && kdir != high && low != high
    requires kdir !in pool && low !in pool && high !in pool
    requires forall i, j :: 0 <= i < j < |pool| ==> pool[i] != pool[j]
    ensures var s := BootSys(kdir, low, high, pool); DirOk(s, kdir) && IsTable(s, kdir) && Coherent(s, {kdir})
  {
    hide LowTable, BootDir, Lookup, MakeEntry;
    BootIsReady(kdir, low, high, pool);
    var s := BootSys(kdir, low, high, pool);
    forall i | 0 <= i < ENTRIES
      ensures Present(DirWord(s, kdir, i)) ==> Writable(DirWord(s, kdir, i))
    {
      BootEntry(low, high, i);
    }
  }

  // ----- Clones -----

  /** A clone allows at every page what its source does, whatever the directory entries say. */
  lemma {:induction false} CloneAccess(s: Sys, dirs: set<nat>, src: nat, base: nat, s': Sys, e: nat, p: nat)
    requires Separate(s, dirs) && PoolOk(s) && src in dirs && e in dirs && p < PAGES
    requires FreeFrames(s, base, Rank(s, src, ENTRIES)) && ClonedUpTo(s, src, base, ENTRIES, s')
    ensures DirOk(s', base) && DirOk(s', e)
    ensures Effective(s', base, p) == Effective(s, src, p) && Effective(s', e, p) == Effective(s, e, p)
  {
    hide Separate, PoolOk, FreeFrames, Rank, Lookup, DirOk;
    CloneIsFaithful(s, dirs, src, base, s');
    SeparateDirs(s, dirs);
    SeparateDirs(s', dirs + {base});
    CloneWords(s, src, base, s', e, DirIndex(p));
    MappedEntry(s, src, p);
  }

  lemma {:induction false} CloneWords(s: Sys, src: nat, base: nat, s': Sys, e: nat, i: nat)
    requires DirOk(s, src) && DirOk(s, e) && DirOk(s', e) && ClonedUpTo(s, src, base, ENTRIES, s') && i < ENTRIES
    ensures IsTable(s', base) && DirWord(s', e, i) == DirWord(s, e, i)
    ensures Present(DirWord(s', base, i)) <==> Present(DirWord(s, src, i))
    ensures Present(DirWord(s, src, i)) ==> SameBits(DirWord(s, src, i), DirWord(s', base, i))
  {
    assert Copied(s, src, base, i, s');
    hide Rank;
  }

  lemma {:induction false} CloneCoherent(s: Sys, dirs: set<nat>, src: nat, base: nat, s': Sys)
    requires Separate(s, dirs) && PoolOk(s) && src in dirs && Coherent(s, dirs)
    requires FreeFrames(s, base, Rank(s, src, ENTRIES)) && ClonedUpTo(s, src, base, ENTRIES, s')
    ensures (forall e :: e in dirs + {base} ==> IsTable(s', e) && DirOk(s', e)) && Coherent(s', dirs + {base})
  {
    hide Separate, PoolOk, FreeFrames, Rank, Lookup, DirOk, Present, Writable, UserBit, ClonedUpTo;
    CloneIsFaithful(s, dirs, src, base, s');
    SeparateDirs(s, dirs);
    SeparateDirs(s', dirs + {base});
    forall e, i | e in dirs + {base} && 0 <= i < ENTRIES && Present(DirWord(s', e, i))
      ensures Writable(DirWord(s', e, i))
    {
      CloneWords(s, src, base, s', if e == base then src else e, i);
    }
    forall e, p | e in dirs + {base} && 0 <= p < PAGES && Lookup(s', e, p).Some? && !Lookup(s', e, p).value.kernel
      ensures UserBit(DirWord(s', e, DirIndex(p)))
    {
      CloneWords(s, src, base, s', if e == base then src else e, DirIndex(p));
      MappedEntry(s, src, p);
    }
  }
}
