/** The table operations of the MMU layer as the kernel performs them, loop by loop. */
module Mmu {
  import opened Options
  import opened PageTables
  import opened PageMaps
  import opened PageClone
  import opened PageAccess

  /** Rounds of a loop that goes through `size` bytes a page at a time. */
  function Pages(size: nat): nat {
    (size + PAGE_SZ - 1) / PAGE_SZ
  }

  class Mmu {
    var sys: Sys
    var cr3: nat
    /** The address spaces in existence. */
    ghost var dirs: set<nat>

    constructor (s: Sys, current: nat, ghost spaces: set<nat>)
      requires Ready(s, spaces, current)
      ensures Valid() && sys == s && cr3 == current && dirs == spaces
    {
      sys, cr3, dirs := s, current, spaces;
    }

    ghost predicate Valid()
      reads this
    {
      Ready(sys, dirs, cr3)
    }

    /** Maps the pages from the one `virt` lies in; their number depends on `size` alone. */
    method MapTable(table: nat, virt: nat, phys: nat, size: nat, write: bool, user: bool)
      requires Valid() && table in dirs
      requires IsTable(sys, table) && virt / PAGE_SZ + Pages(size) <= KERNEL_PAGE
      requires |sys.pool| >= TablesFor(sys, table, virt / PAGE_SZ, Pages(size))
      modifies this`sys
      ensures Valid() && |MapOps(virt / PAGE_SZ, phys / PAGE_SZ, Pages(size), write, user)| == Pages(size)
      ensures UserOps(MapOps(virt / PAGE_SZ, phys / PAGE_SZ, Pages(size), write, user))
      ensures Missing(old(sys), table, MapOps(virt / PAGE_SZ, phys / PAGE_SZ, Pages(size), write, user)) ==
              TablesFor(old(sys), table, virt / PAGE_SZ, Pages(size))
      ensures sys == Run(old(sys), dirs, table, MapOps(virt / PAGE_SZ, phys / PAGE_SZ, Pages(size), write, user))
    {
      hide Separate, DirOk, PoolOk, MapOps, UserOps, Run, MapPage, Missing, CanMap;
      var page, frame := virt / PAGE_SZ, phys / PAGE_SZ;
      ghost var s := sys;
      ghost var n := Pages(size);
      var off, k := 0, 0;
      TablesForAny(s, table, page, frame, n, write, user);
      MapOpsLast(page, frame, 0, write, user);
      RunEmpty(s, dirs, table, MapOps(page, frame, 0, write, user));
      while off < size
        invariant off == k * PAGE_SZ && k <= n && Ready(s, dirs, table)
        invariant |MapOps(page, frame, k, write, user)| == k && UserOps(MapOps(page, frame, k, write, user))
        invariant Missing(s, table, MapOps(page, frame, k, write, user)) <= |s.pool|
        invariant sys == Run(s, dirs, table, MapOps(page, frame, k, write, user))
      {
        MapOpsLast(page, frame, k + 1, write, user);
        MissingGrows(s, table, page, frame, k + 1, n, write, user);
        RunLast(s, dirs, table, MapOps(page, frame, k + 1, write, user));
        ReadyDirs(sys, dirs, table);
        sys := Apply(sys, table, Map(page + k, frame + k, write, user));
        off, k := off + PAGE_SZ, k + 1;
      }
    }

    /** Removes the pages `virt`, `virt` plus one page, and so on; `virt` itself is not rounded. */
    method UnmapTable(table: nat, virt: nat, size: nat)
      requires Valid() && table in dirs
      requires virt / PAGE_SZ + Pages(size) <= KERNEL_PAGE
      modifies this`sys
      ensures Valid() && IsTable(old(sys), table) && |UnmapOps(virt / PAGE_SZ, Pages(size))| == Pages(size)
      ensures UserOps(UnmapOps(virt / PAGE_SZ, Pages(size)))
      ensures Missing(old(sys), table, UnmapOps(virt / PAGE_SZ, Pages(size))) == 0
      ensures sys == Run(old(sys), dirs, table, UnmapOps(virt / PAGE_SZ, Pages(size)))
    {
      hide Separate, DirOk, PoolOk, UnmapOps, UserOps, Run, UnmapPage, Missing;
      ghost var page, n := virt / PAGE_SZ, Pages(size);
      ghost var s := sys;
      ReadyDirs(s, dirs, table);
      DirIsTable(s, table);
      UnmapNeedsNone(s, table, page, n);
      UnmapNeedsNone(s, table, page, 0);
      var off, k := 0, 0;
      UnmapOpsLast(page, 0);
      RunEmpty(s, dirs, table, UnmapOps(page, 0));
      while off < size
        invariant off == k * PAGE_SZ && k <= n && Ready(s, dirs, table)
        invariant |UnmapOps(page, k)| == k && UserOps(UnmapOps(page, k)) && Missing(s, table, UnmapOps(page, k)) == 0
        invariant sys == Run(s, dirs, table, UnmapOps(page, k))
      {
        assert (virt + off) / PAGE_SZ == page + k;
        UnmapOpsLast(page, k + 1);
        UnmapNeedsNone(s, table, page, k + 1);
        RunLast(s, dirs, table, UnmapOps(page, k + 1));
        ReadyDirs(sys, dirs, table);
        sys := Apply(sys, table, Unmap((virt + off) / PAGE_SZ));
        off, k := off + PAGE_SZ, k + 1;
      }
    }

    lemma {:induction false} MissingGrows(s: Sys, d: nat, page: nat, frame: nat, k: nat, n: nat, write: bool,
                                          user: bool)
      requires IsTable(s, d) && k <= n && page + n <= KERNEL_PAGE
      ensures UserOps(MapOps(page, frame, k, write, user)) && UserOps(MapOps(page, frame, n, write, user))
      ensures Missing(s, d, MapOps(page, frame, k, write, user)) <= Missing(s, d, MapOps(page, frame, n, write, user))
      decreases n
    {
      hide MapOps, UserOps, Touched;
      MapOpsLast(page, frame, k, write, user);
      MapOpsLast(page, frame, n, write, user);
      if k < n { MissingGrows(s, d, page, frame, k, n - 1, write, user); }
    }

    lemma {:induction false} ReadyDirs(s: Sys, spaces: set<nat>, d: nat)
      requires Ready(s, spaces, d)
      ensures DirOk(s, d) && DirOk(s, s.kdir) && PoolOk(s) && forall e :: e in spaces ==> DirOk(s, e)
    {
    }

    lemma {:induction false} RunEmpty(s: Sys, spaces: set<nat>, d: nat, ops: seq<PageOp>)
      requires Ready(s, spaces, d) && ops == []
      ensures Missing(s, d, ops) == 0 && Run(s, spaces, d, ops) == s
    {
    }

    lemma {:induction false} UnmapOpsLast(page: nat, n: nat)
      ensures |UnmapOps(page, n)| == n
      ensures page + n <= KERNEL_PAGE ==> UserOps(UnmapOps(page, n))
      ensures n > 0 ==> UnmapOps(page, n)[..n - 1] == UnmapOps(page, n - 1) &&
                        UnmapOps(page, n)[n - 1] == Unmap(page + n - 1)
    {
    }

    /** The two copy loops of mmu_clone_table: the directory, then each table behind it. */
    method CopyTables(src: nat, base: nat)
      requires Valid() && src in dirs && DirOk(sys, src)
      requires FreeFrames(sys, base, Rank(sys, src, ENTRIES))
      modifies this`sys
      ensures DirOk(old(sys), src) && ClonedUpTo(old(sys), src, base, ENTRIES, sys)
    {
      hide DirOk, ClonedUpTo, FreeFrames, Ready, CopyEntry, Rank, Present, Separate, PoolOk;
      ghost var s := sys;
      DirIsTable(s, src);
      CloneStart(s, src, base);
      RankStart(s, src);
      sys := sys.(pages := sys.pages[base := sys.pages[src]]);
      CopyKeepsDirectory(s, src, base, 0, sys);
      var off := 1;
      for i := 0 to ENTRIES
        invariant DirOk(s, src) && IsTable(sys, base) && ClonedUpTo(s, src, base, i, sys)
        invariant off == 1 + Rank(s, src, i)
      {
        FewerFrames(s, src, base, i + 1);
        CloneStep(s, src, base, i, sys);
        CloneEntry(s, src, base, i, sys);
        RankStep(s, src, i);
        if Present(sys.pages[base][i]) {
          sys := CopyEntry(sys, base, i, base + off);
          CopyKeepsDirectory(s, src, base, i + 1, sys);
          off := off + 1;
        }
      }
    }

    lemma {:induction false} DirIsTable(s: Sys, d: nat)
      requires DirOk(s, d)
      ensures IsTable(s, d)
    {
    }

    lemma {:induction false} RankStart(s: Sys, d: nat)
      requires DirOk(s, d)
      ensures Rank(s, d, 0) == 0
    {
    }

    lemma {:induction false} RankStep(s: Sys, d: nat, i: nat)
      requires DirOk(s, d) && i < ENTRIES
      ensures Rank(s, d, i + 1) == Rank(s, d, i) + (if Present(s.pages[d][i]) then 1 else 0)
    {
    }

    lemma {:induction false} CloneStart(s: Sys, src: nat, base: nat)
      requires DirOk(s, src) && FreeFrames(s, base, Rank(s, src, ENTRIES))
      ensures ClonedUpTo(s, src, base, 0, s.(pages := s.pages[base := s.pages[src]]))
    {
    }

    lemma {:induction false} FewerFrames(s: Sys, src: nat, base: nat, i: nat)
      requires DirOk(s, src) && i <= ENTRIES && FreeFrames(s, base, Rank(s, src, ENTRIES))
      ensures FreeFrames(s, base, Rank(s, src, i))
    {
      RankGrows(s, src, i, ENTRIES);
    }

    lemma {:induction false} CloneEntry(s: Sys, src: nat, base: nat, i: nat, s1: Sys)
      requires DirOk(s, src) && i < ENTRIES && ClonedUpTo(s, src, base, i, s1)
      ensures IsTable(s1, base) && s1.pages[base][i] == s.pages[src][i]
    {
    }

    lemma {:induction false} CopyKeepsDirectory(s: Sys, src: nat, base: nat, i: nat, s1: Sys)
      requires DirOk(s, src) && i <= ENTRIES && ClonedUpTo(s, src, base, i, s1)
      ensures IsTable(s1, base)
    {
    }

    /**
      Clones `src` into the block of frames at `base` that the heap hands out.  That block is
      already mapped onto itself in the table in use, as all of the heap is.
      */
    method CloneTable(src: nat, base: nat)
      requires Valid() && src in dirs && DirOk(sys, src) && DirOk(sys, cr3)
      requires base + Rank(sys, src, ENTRIES) < KERNEL_PAGE && FreeFrames(sys, base, Rank(sys, src, ENTRIES))
      requires forall p :: base <= p <= base + Rank(sys, src, ENTRIES) ==>
                 Lookup(sys, cr3, p) == Some(Mapping(p, true, true))
      modifies this`sys, this`dirs
      ensures Valid() && dirs == old(dirs) + {base} && base !in old(dirs)
      ensures forall p :: 0 <= p < PAGES ==> DirOk(sys, base) && Lookup(sys, base, p) == Lookup(old(sys), src, p)
      ensures forall e, p :: e in old(dirs) && 0 <= p < PAGES ==>
                DirOk(sys, e) && DirOk(old(sys), e) && Lookup(sys, e, p) == Lookup(old(sys), e, p)
      ensures Permits(old(sys), old(dirs)) ==> Permits(sys, dirs)
    {
      ghost var s := sys;
      assert IsTable(s, src) && Separate(s, dirs) && PoolOk(s);
      hide Permits, Rank, ClonedUpTo, Lookup, FreeFrames, Separate, SameMaps, DirOk, PoolOk;
      var tables := CountTables(src);
      MapBlock(src, base, tables);
      ghost var s1 := sys;
      CopyTables(src, base);
      dirs := dirs + {base};
      FinishClone(s, s1, sys, old(dirs), src, base);
      ClonePermits(s1, old(dirs), src, base, sys);
    }

    /** Every page allows what its own entry says. */
    ghost predicate Permits(s: Sys, spaces: set<nat>) {
      (forall e :: e in spaces ==> IsTable(s, e) && DirOk(s, e)) && Coherent(s, spaces)
    }

    lemma {:induction false} ClonePermits(s: Sys, spaces: set<nat>, src: nat, base: nat, s': Sys)
      requires Separate(s, spaces) && PoolOk(s) && src in spaces && DirOk(s, src)
      requires FreeFrames(s, base, Rank(s, src, ENTRIES)) && ClonedUpTo(s, src, base, ENTRIES, s')
      ensures Permits(s, spaces) ==> Permits(s', spaces + {base})
    {
      hide Coherent;
      if Permits(s, spaces) { CloneCoherent(s, spaces, src, base, s'); }
    }

    lemma {:induction false} RunPermits(s: Sys, spaces: set<nat>, d: nat, ops: seq<PageOp>)
      requires Ready(s, spaces, d) && UserOps(ops) && |s.pool| >= Missing(s, d, ops)
      ensures Permits(s, spaces) ==> Permits(Run(s, spaces, d, ops), spaces)
    {
      hide Coherent, Run, Effective;
      if Permits(s, spaces) { RunCoherent(s, spaces, d, ops); }
    }

    /** The identity mapping made for the new block before anything is copied into it. */
    method MapBlock(src: nat, base: nat, tables: nat)
      requires Valid() && src in dirs && DirOk(sys, src) && DirOk(sys, cr3) && tables == Rank(sys, src, ENTRIES)
      requires base + tables < KERNEL_PAGE && FreeFrames(sys, base, tables)
      requires forall p :: base <= p <= base + tables ==> Lookup(sys, cr3, p) == Some(Mapping(p, true, true))
      modifies this`sys
      ensures Valid() && SameMaps(old(sys), sys, dirs)
      ensures DirOk(old(sys), src) && DirOk(sys, src) && Rank(sys, src, ENTRIES) == Rank(old(sys), src, ENTRIES)
      ensures FreeFrames(sys, base, tables) && (Permits(old(sys), dirs) ==> Permits(sys, dirs))
    {
      ghost var s := sys;
      hide Permits, Rank, Lookup, FreeFrames, Run, Separate, DirOk, MapOps, UserOps, SameMaps, PoolOk;
      RemapKeeps(s, dirs, cr3, base, tables + 1, true, false);
      ReadyDirs(s, dirs, cr3);
      DirIsTable(s, cr3);
      TablesForAny(s, cr3, base, base, tables + 1, true, false);
      MapTable(cr3, base * PAGE_SZ, base * PAGE_SZ, PAGE_SZ + PAGE_SZ * tables, true, false);
      RunPermits(s, dirs, cr3, MapOps(base, base, tables + 1, true, false));
      SameRank(s, sys, dirs, src, ENTRIES);
      StillFree(s, sys, base, tables);
    }

    lemma {:induction false} FinishClone(s: Sys, s1: Sys, s2: Sys, spaces: set<nat>, src: nat, base: nat)
      requires SameMaps(s, s1, spaces) && Separate(s1, spaces) && PoolOk(s1) && src in spaces
      requires DirOk(s1, src) && FreeFrames(s1, base, Rank(s1, src, ENTRIES)) && ClonedUpTo(s1, src, base, ENTRIES, s2)
      ensures Separate(s2, spaces + {base}) && PoolOk(s2) && base !in spaces
      ensures forall p :: 0 <= p < PAGES ==>
                DirOk(s2, base) && DirOk(s, src) && Lookup(s2, base, p) == Lookup(s, src, p)
      ensures forall e, p :: e in spaces && 0 <= p < PAGES ==>
                DirOk(s2, e) && DirOk(s, e) && Lookup(s2, e, p) == Lookup(s, e, p)
    {
      CloneIsFaithful(s1, spaces, src, base, s2);
      CloneView(s, s1, s2, spaces, src, base);
    }

    method CountTables(src: nat) returns (tables: nat)
      requires IsTable(sys, src)
      ensures tables == Rank(sys, src, ENTRIES)
    {
      tables := 0;
      for i := 0 to ENTRIES
        invariant tables == Rank(sys, src, i)
      {
        if Present(sys.pages[src][i]) { tables := tables + 1; }
      }
    }

    lemma {:induction false} StillFree(s: Sys, s1: Sys, base: nat, n: nat)
      requires FreeFrames(s, base, n) && NoNewFrames(s, s1)
      ensures FreeFrames(s1, base, n)
    {
    }

    /** The clone, and everything else, as seen from before the block was mapped again. */
    lemma {:induction false} CloneView(s: Sys, s1: Sys, s2: Sys, spaces: set<nat>, src: nat, base: nat)
      requires SameMaps(s, s1, spaces) && src in spaces && Separate(s2, spaces + {base})
      requires forall e :: e in spaces ==> DirOk(s1, e)
      requires forall p :: 0 <= p < PAGES ==> Lookup(s2, base, p) == Lookup(s1, src, p)
      requires forall e, p :: e in spaces && 0 <= p < PAGES ==> Lookup(s2, e, p) == Lookup(s1, e, p)
      ensures forall p :: 0 <= p < PAGES ==>
                DirOk(s2, base) && DirOk(s, src) && Lookup(s2, base, p) == Lookup(s, src, p)
      ensures forall e, p :: e in spaces && 0 <= p < PAGES ==>
                DirOk(s2, e) && DirOk(s, e) && Lookup(s2, e, p) == Lookup(s, e, p)
    {
      assert base in spaces + {base} && forall e :: e in spaces ==> e in spaces + {base};
    }

    lemma {:induction false} SameRank(s: Sys, s': Sys, spaces: set<nat>, d: nat, i: nat)
      requires SameMaps(s, s', spaces) && d in spaces && i <= ENTRIES
      ensures DirOk(s, d) && DirOk(s', d) && Rank(s', d, i) == Rank(s, d, i)
      decreases i
    {
      if i > 0 {
        SameRank(s, s', spaces, d, i - 1);
        assert Table(s', d, i - 1) == Table(s, d, i - 1);
      }
    }
  }
}
