/** mmu_clone_table: a copy of a directory and of every table it reaches. */
module PageClone {
  import opened Arith
  import opened Options
  import opened PageTables
  import opened PageMaps

  /** Present entries among the first `i` of directory `d`. */
  function Rank(s: Sys, d: nat, i: nat): (r: nat)
    requires IsTable(s, d) && i <= ENTRIES
    ensures r <= i
  {
    if i == 0 then 0 else Rank(s, d, i - 1) + (if Present(s.pages[d][i - 1]) then 1 else 0)
  }

  lemma {:induction false} RankGrows(s: Sys, d: nat, i: nat, j: nat)
    requires IsTable(s, d) && i <= j <= ENTRIES
    ensures Rank(s, d, i) <= Rank(s, d, j)
    ensures i < j && Present(s.pages[d][i]) ==> Rank(s, d, i) < Rank(s, d, j)
    decreases j - i
  {
    if i < j {
      RankGrows(s, d, i, j - 1);
      if i + 1 == j { assert Rank(s, d, j) == Rank(s, d, i) + (if Present(s.pages[d][i]) then 1 else 0); }
    }
  }

  /** Both words have the same access bits. */
  predicate SameBits(w: nat, w': nat) {
    (Present(w') <==> Present(w)) && (Writable(w') <==> Writable(w)) && (UserBit(w') <==> UserBit(w))
  }

  lemma {:induction false} RedirectParts(f: nat, low: nat)
    requires low < 4096
    ensures (f * 4096 + low) / 4096 == f && SameBits(f * 4096 + low, low)
  {
    var w := f * 4096 + low;
    DivModUnique(w, f, 4096, low);
    DivModUnique(w, f * 2048 + low / 2, 2, low % 2);
    DivModUnique(w, f * 1024 + low / 4, 4, low % 4);
    DivModUnique(f * 2048 + low / 2, f * 1024 + low / 4, 2, low / 2 % 2);
    DivModUnique(f * 1024 + low / 4, f * 512 + low / 8, 2, low / 4 % 2);
  }

  /** The low twelve bits of `w` with frame `f`. */
  function Redirect(w: nat, f: nat): (w': nat)
    ensures FrameOf(w') == f && SameBits(w, w')
  {
    RedirectParts(f, w % 4096);
    RedirectParts(w / 4096, w % 4096);
    f * 4096 + w % 4096
  }

  /** Frames `base` to `base + n` are unused. */
  ghost predicate FreeFrames(s: Sys, base: nat, n: nat) {
    forall f :: base <= f <= base + n ==> f !in s.pages && f !in s.pool
  }

  /** Entry `j` of the clone leads to its own copy of the table entry `j` of `src` leads to. */
  ghost predicate Copied(s: Sys, src: nat, base: nat, j: nat, s': Sys)
    requires DirOk(s, src) && IsTable(s', base) && j < ENTRIES
  {
    match Table(s, src, j)
    case None => Table(s', base, j).None?
    case Some(t) =>
      var f := base + 1 + Rank(s, src, j);
      && Table(s', base, j) == Some(f) && f in s'.pages && t in s.pages && s'.pages[f] == s.pages[t]
      && SameBits(s.pages[src][j], s'.pages[base][j])
  }

  /**
    Directory `base` after `i` entries of `src` have been treated: treated entries lead to private
    copies in the frames after `base`, the others still to the tables of `src`.
    */
  ghost predicate ClonedUpTo(s: Sys, src: nat, base: nat, i: nat, s': Sys)
    requires DirOk(s, src) && i <= ENTRIES
  {
    && s'.kdir == s.kdir && s'.pool == s.pool
    && (forall f :: f in s'.pages ==> f in s.pages || base <= f <= base + Rank(s, src, i))
    && (forall f :: f in s.pages ==> f in s'.pages && s'.pages[f] == s.pages[f])
    && IsTable(s', base)
    && (forall j :: i <= j < ENTRIES ==> s'.pages[base][j] == s.pages[src][j])
    && (forall j :: 0 <= j < i ==> Copied(s, src, base, j, s'))
  }

  /** The body of the copy loop on entry `i`, when it is present. */
  function CopyEntry(s1: Sys, base: nat, i: nat, f: nat): Sys
    requires IsTable(s1, base) && i < ENTRIES && FrameOf(s1.pages[base][i]) in s1.pages
  {
    var w := s1.pages[base][i];
    var entries: seq<nat> := s1.pages[base][i := Redirect(w, f)];
    s1.(pages := s1.pages[base := entries][f := s1.pages[FrameOf(w)]])
  }

  lemma {:induction false} CloneStep(s: Sys, src: nat, base: nat, i: nat, s1: Sys)
    requires DirOk(s, src) && i < ENTRIES && FreeFrames(s, base, Rank(s, src, i + 1))
    requires ClonedUpTo(s, src, base, i, s1)
    ensures !Present(s1.pages[base][i]) ==> ClonedUpTo(s, src, base, i + 1, s1)
    ensures Present(s1.pages[base][i]) ==>
              && FrameOf(s1.pages[base][i]) in s1.pages
              && ClonedUpTo(s, src, base, i + 1, CopyEntry(s1, base, i, base + 1 + Rank(s, src, i)))
  {
    if Present(s1.pages[base][i]) {
      CopyStep(s, src, base, i, s1);
    } else {
      assert Copied(s, src, base, i, s1);
    }
  }

  lemma {:induction false} CopyStep(s: Sys, src: nat, base: nat, i: nat, s1: Sys)
    requires DirOk(s, src) && i < ENTRIES && FreeFrames(s, base, Rank(s, src, i + 1))
    requires ClonedUpTo(s, src, base, i, s1) && Present(s1.pages[base][i])
    ensures FrameOf(s1.pages[base][i]) in s1.pages
    ensures ClonedUpTo(s, src, base, i + 1, CopyEntry(s1, base, i, base + 1 + Rank(s, src, i)))
  {
    var f := base + 1 + Rank(s, src, i);
    var t := Table(s, src, i).value;
    assert IsTable(s, t) && t == FrameOf(s1.pages[base][i]);
    assert Rank(s, src, i + 1) == Rank(s, src, i) + 1;
    var s2 := CopyEntry(s1, base, i, f);
    assert f != base && t != base && t != f;
    hide Redirect, FrameOf, Rank, SameBits;
    assert IsTable(s2, base);
    forall j | 0 <= j < i + 1
      ensures Copied(s, src, base, j, s2)
    {
      if j < i {
        assert Copied(s, src, base, j, s1);
        if Table(s, src, j).Some? { RankGrows(s, src, j, i); }
      }
    }
  }

  // ----- The finished clone -----

  lemma {:induction false} CloneTables(s: Sys, dirs: set<nat>, src: nat, base: nat, s': Sys)
    requires Separate(s, dirs) && src in dirs
    requires FreeFrames(s, base, Rank(s, src, ENTRIES))
    requires ClonedUpTo(s, src, base, ENTRIES, s')
    ensures base !in dirs
    ensures forall e :: e in dirs ==> DirOk(s', e)
    ensures forall e, j :: e in dirs && 0 <= j < ENTRIES ==> Table(s', e, j) == Table(s, e, j)
    ensures DirOk(s', base)
    ensures forall j :: 0 <= j < ENTRIES ==>
              Table(s', base, j) == if Table(s, src, j).Some? then Some(base + 1 + Rank(s, src, j)) else None
  {
    assert forall e :: e in dirs ==> DirOk(s, e);
    hide Separate, Rank;
    forall j | 0 <= j < ENTRIES
      ensures Copied(s, src, base, j, s')
      ensures Table(s', base, j).Some? ==> IsTable(s', Table(s', base, j).value)
    {
      if Table(s, src, j).Some? { assert IsTable(s, Table(s, src, j).value); }
    }
    forall e | e in dirs
      ensures DirOk(s', e)
    {
      forall j | 0 <= j < ENTRIES && Table(s', e, j).Some?
        ensures IsTable(s', Table(s', e, j).value)
      {
        assert Table(s', e, j) == Table(s, e, j);
        assert IsTable(s, Table(s, e, j).value);
      }
    }
  }

  lemma {:induction false} CloneLookups(s: Sys, dirs: set<nat>, src: nat, base: nat, s': Sys)
    requires Separate(s, dirs) && src in dirs
    requires FreeFrames(s, base, Rank(s, src, ENTRIES))
    requires ClonedUpTo(s, src, base, ENTRIES, s')
    ensures DirOk(s', base) && forall p :: 0 <= p < PAGES ==> Lookup(s', base, p) == Lookup(s, src, p)
    ensures forall e, p :: e in dirs && 0 <= p < PAGES ==> DirOk(s', e) && Lookup(s', e, p) == Lookup(s, e, p)
  {
    CloneTables(s, dirs, src, base, s');
    hide Separate, Rank;
    forall p | 0 <= p < PAGES
      ensures Lookup(s', base, p) == Lookup(s, src, p)
    {
      assert Copied(s, src, base, DirIndex(p), s');
    }
    forall e, p | e in dirs && 0 <= p < PAGES
      ensures Lookup(s', e, p) == Lookup(s, e, p)
    {
      var j := DirIndex(p);
      if Table(s, e, j).Some? { assert IsTable(s, Table(s, e, j).value); }
    }
  }

  lemma {:induction false} CloneTablesAreOwn(s: Sys, dirs: set<nat>, src: nat, base: nat, s': Sys, d: nat, e: nat,
                                             i: nat, j: nat)
    requires Separate(s, dirs) && src in dirs
    requires FreeFrames(s, base, Rank(s, src, ENTRIES))
    requires ClonedUpTo(s, src, base, ENTRIES, s')
    requires d in dirs + {base} && e in dirs + {base} && i < ENTRIES && j < ENTRIES
    requires DirOk(s', d) && DirOk(s', e) && Table(s', d, i).Some? && Table(s', d, i) == Table(s', e, j)
    ensures i == j && (d == e || i >= KERNEL_ENTRY)
    ensures Table(s', d, i).value !in dirs + {base}
  {
    CloneTables(s, dirs, src, base, s');
    if d == base {
      RankGrows(s, src, i, ENTRIES);
      if e == base {
        hide ClonedUpTo, Separate;
        if i < j { RankGrows(s, src, i, j); }
        if j < i { RankGrows(s, src, j, i); }
      } else {
        InUse(s, dirs, e, j);
      }
    } else {
      InUse(s, dirs, d, i);
      if e == base { RankGrows(s, src, j, ENTRIES); }
    }
  }

  lemma {:induction false} InUse(s: Sys, dirs: set<nat>, e: nat, j: nat)
    requires Separate(s, dirs) && e in dirs && j < ENTRIES
    ensures forall d :: d in dirs ==> d in s.pages
    ensures Table(s, e, j).Some? ==> Table(s, e, j).value in s.pages && Table(s, e, j).value !in dirs
  {
    if Table(s, e, j).Some? { assert IsTable(s, Table(s, e, j).value); }
  }

  /** The finished clone is one more separate space, with the same lookup as its source at every page. */
  lemma {:induction false} CloneIsFaithful(s: Sys, dirs: set<nat>, src: nat, base: nat, s': Sys)
    requires Separate(s, dirs) && PoolOk(s) && src in dirs
    requires FreeFrames(s, base, Rank(s, src, ENTRIES))
    requires ClonedUpTo(s, src, base, ENTRIES, s')
    ensures Separate(s', dirs + {base}) && PoolOk(s') && base !in dirs
    ensures forall p :: 0 <= p < PAGES ==> Lookup(s', base, p) == Lookup(s, src, p)
    ensures forall e, p :: e in dirs && 0 <= p < PAGES ==> Lookup(s', e, p) == Lookup(s, e, p)
  {
    CloneTables(s, dirs, src, base, s');
    CloneLookups(s, dirs, src, base, s');
    forall d, e, i, j | d in dirs + {base} && e in dirs + {base} && 0 <= i < ENTRIES && 0 <= j < ENTRIES &&
                        Table(s', d, i).Some? && Table(s', d, i) == Table(s', e, j)
      ensures i == j && (d == e || i >= KERNEL_ENTRY)
    {
      CloneTablesAreOwn(s, dirs, src, base, s', d, e, i, j);
    }
    forall d, i | d in dirs + {base} && 0 <= i < ENTRIES && Table(s', d, i).Some?
      ensures Table(s', d, i).value !in dirs + {base}
    {
      CloneTablesAreOwn(s, dirs, src, base, s', d, d, i, i);
    }
  }

  /**
    A clone and its source are isolated: after cloning, any sequence of user-range map and unmap
    operations on either leaves every lookup in the other as it was in the source before.
    */
  lemma {:induction false} ClonesAreIsolated(s: Sys, dirs: set<nat>, src: nat, base: nat, s': Sys, ops: seq<PageOp>,
                                             p: nat)
    requires Separate(s, dirs) && PoolOk(s) && src in dirs && p < PAGES
    requires FreeFrames(s, base, Rank(s, src, ENTRIES)) && ClonedUpTo(s, src, base, ENTRIES, s')
    requires UserOps(ops) && |s.pool| >= Missing(s, src, ops)
    ensures Missing(s', src, ops) == Missing(s', base, ops) == Missing(s, src, ops) && s'.pool == s.pool
    ensures Ready(s', dirs + {base}, src) && Ready(s', dirs + {base}, base)
    ensures Lookup(Run(s', dirs + {base}, src, ops), base, p) == Lookup(s, src, p)
    ensures Lookup(Run(s', dirs + {base}, base, ops), src, p) == Lookup(s, src, p)
    ensures Lookup(Run(s', dirs + {base}, base, ops), base, p) == FlatRun(Lookup(s, src, p), p, ops)
  {
    CloneIsFaithful(s, dirs, src, base, s');
    CloneTables(s, dirs, src, base, s');
    SameMissing(s, src, s', src, ops);
    SameMissing(s, src, s', base, ops);
    RunIsFlat(s', dirs + {base}, src, ops);
    RunIsFlat(s', dirs + {base}, base, ops);
    hide Separate, ClonedUpTo, Rank, Lookup;
  }

  /** A clone has its own kernel tables: a kernel page that is mapped later does not show in it. */
  lemma {:induction false} ClonesMissKernelPages(s: Sys, dirs: set<nat>, src: nat, base: nat, s': Sys,
                                                 page: nat, frame: nat, write: bool, user: bool, p: nat)
    requires Separate(s, dirs) && PoolOk(s) && src in dirs && p < PAGES && KERNEL_PAGE <= page < PAGES
    requires FreeFrames(s, base, Rank(s, src, ENTRIES)) && ClonedUpTo(s, src, base, ENTRIES, s')
    requires Table(s, s.kdir, DirIndex(page)).Some?
    ensures Separate(s', dirs + {base}) && PoolOk(s') && s'.kdir == s.kdir && CanMap(s', s.kdir, page)
    ensures var s'' := MapPage(s', s.kdir, page, frame, write, user);
            DirOk(s'', base) && Lookup(s'', base, p) == Lookup(s', base, p)
  {
    hide Lookup, MapPage, Separate, PoolOk, ClonedUpTo, Rank, FreeFrames;
    CloneIsFaithful(s, dirs, src, base, s');
    CloneTables(s, dirs, src, base, s');
    SeparateDirs(s, dirs);
    SeparateDirs(s', dirs + {base});
    CloneKernel(s, src, base, s');
    InUse(s, dirs, s.kdir, DirIndex(page));
    CloneFramesAreNew(s, dirs, src, base, DirIndex(page));
    KernelPageElsewhere(s', dirs + {base}, s.kdir, page, frame, write, user);
    SeparateDirs(MapPage(s', s.kdir, page, frame, write, user), dirs + {base});
  }

  lemma {:induction false} CloneKernel(s: Sys, src: nat, base: nat, s': Sys)
    requires DirOk(s, src) && ClonedUpTo(s, src, base, ENTRIES, s')
    ensures s'.kdir == s.kdir && s'.pool == s.pool
  {
  }

  lemma {:induction false} SeparateDirs(s: Sys, dirs: set<nat>)
    requires Separate(s, dirs)
    ensures s.kdir in dirs && forall e :: e in dirs ==> DirOk(s, e) && IsTable(s, e)
  {
  }

  lemma {:induction false} CloneFramesAreNew(s: Sys, dirs: set<nat>, src: nat, base: nat, i: nat)
    requires Separate(s, dirs) && src in dirs && FreeFrames(s, base, Rank(s, src, ENTRIES)) && i < ENTRIES
    ensures Table(s, src, i).Some? ==> base + 1 + Rank(s, src, i) !in s.pages
  {
    RankGrows(s, src, i, ENTRIES);
  }
}
