/**
  One region of a forked process: a new block at the parent's offset in its
  page, mapped into the child's cloned table, and the parent's bytes copied.
  */
module ForkRegion {
  import opened Options
  import opened Arith
  import opened Bytes
  import opened PageTables
  import opened PageMaps
  import opened PageClone
  import opened Machine
  import opened SpaceCopy
  import Mmu

  // ----- The offset of the block -----

  /** Moves the start of a block up to the same place in a page as `like`. */
  function SameOffset(phys: nat, like: nat): (r: nat)
    ensures r % PAGE_SZ == like % PAGE_SZ && phys <= r < phys + PAGE_SZ
  {
    var p, q := phys % PAGE_SZ, like % PAGE_SZ;
    DivModUnique(phys - p + q, phys / PAGE_SZ, PAGE_SZ, q);
    DivModUnique(phys - p + PAGE_SZ + q, phys / PAGE_SZ + 1, PAGE_SZ, q);
    if p <= q then phys - p + q else phys + (PAGE_SZ - (p - q))
  }

  // ----- The child's table after the mapping -----

  function MapRegion(virt: nat, phys: nat, len: nat): seq<PageOp> {
    MapOps(virt / PAGE_SZ, phys / PAGE_SZ, Mmu.Pages(len), true, true)
  }

  /** The page of the region's byte `j` is among those the mapping covers; their number depends on the length alone. */
  predicate Covered(virt: nat, len: nat, j: nat) {
    PageAt(virt, j) < virt / PAGE_SZ + Mmu.Pages(len)
  }

  /** All of the region is covered exactly when it fits in that many pages from the start of its first one. */
  lemma {:induction false} CoveredIff(virt: nat, len: nat)
    requires len > 0
    ensures (forall j :: 0 <= j < len ==> Covered(virt, len, j)) <==> virt % PAGE_SZ + len <= PAGE_SZ * Mmu.Pages(len)
    ensures Covered(virt, len, len - 1) <==> virt % PAGE_SZ + len <= PAGE_SZ * Mmu.Pages(len)
  {
    var n, v, r := Mmu.Pages(len), virt / PAGE_SZ, virt % PAGE_SZ;
    assert virt == v * PAGE_SZ + r;
    forall j | 0 <= j < len
      ensures Covered(virt, len, j) <==> r + j < PAGE_SZ * n
    {
      PageOf(v, r + j, n);
      assert virt + j == v * PAGE_SZ + (r + j);
    }
    if forall j :: 0 <= j < len ==> Covered(virt, len, j) { assert Covered(virt, len, len - 1); }
  }

  lemma {:induction false} PageOf(v: nat, x: nat, n: nat)
    ensures (v * PAGE_SZ + x) / PAGE_SZ < v + n <==> x < PAGE_SZ * n
  {
    var q, t := x / PAGE_SZ, x % PAGE_SZ;
    assert x == q * PAGE_SZ + t;
    DivModUnique(v * PAGE_SZ + x, v + q, PAGE_SZ, t);
  }

  /** Both spaces show the same pages from `virt` on, as a table and its clone do. */
  ghost predicate SameMap(s: Sys, d: nat, e: nat, virt: nat, len: nat)
    requires DirOk(s, d) && DirOk(s, e) && virt + len <= WORD
  {
    forall j :: 0 <= j < len ==> Lookup(s, d, PageAt(virt, j)) == Lookup(s, e, PageAt(virt, j))
  }

  lemma {:induction false} CloneIsSameMap(s: Sys, dirs: set<nat>, src: nat, base: nat, s': Sys, virt: nat, len: nat)
    requires Separate(s, dirs) && PoolOk(s) && src in dirs && virt + len <= WORD
    requires FreeFrames(s, base, Rank(s, src, ENTRIES)) && ClonedUpTo(s, src, base, ENTRIES, s')
    ensures Ready(s', dirs + {base}, base) && base != src && DirOk(s', base) && DirOk(s', src)
    ensures SameMap(s', base, src, virt, len)
  {
    hide Lookup, DirOk, Separate, ClonedUpTo, Rank, FreeFrames;
    CloneIsFaithful(s, dirs, src, base, s');
    AllOk(s', dirs + {base}, base);
  }

  /** The mapping of the region can be made. */
  ghost predicate Mappable(s: Sys, dirs: set<nat>, child: nat, virt: nat, phys: nat, len: nat) {
    && Ready(s, dirs, child) && virt / PAGE_SZ + Mmu.Pages(len) <= KERNEL_PAGE
    && UserOps(MapRegion(virt, phys, len)) && IsTable(s, child) &&
        |s.pool| >= Missing(s, child, MapRegion(virt, phys, len))
  }

  /** What each space sees of a page afterwards. */
  lemma {:induction false} RegionLookup(s: Sys, dirs: set<nat>, child: nat, parent: nat, virt: nat, phys: nat,
                                        len: nat, p: nat)
    requires Mappable(s, dirs, child, virt, phys, len) && parent in dirs && child != parent && p < PAGES
    ensures var s' := Run(s, dirs, child, MapRegion(virt, phys, len));
            && DirOk(s', child) && DirOk(s', parent) && DirOk(s, child) && DirOk(s, parent)
            && Lookup(s', parent, p) == Lookup(s, parent, p)
            && Lookup(s', child, p) ==
               if virt / PAGE_SZ <= p < virt / PAGE_SZ + Mmu.Pages(len)
               then Some(Mapping(phys / PAGE_SZ + (p - virt / PAGE_SZ), true, false)) else Lookup(s, child, p)
  {
    hide Lookup, MapOps, UserOps, Run, Missing, FlatRun, Separate;
    var ops := MapRegion(virt, phys, len);
    RunIsFlat(s, dirs, child, ops);
    AllOk(s, dirs, child);
    AllOk(Run(s, dirs, child, ops), dirs, child);
    MapOpsFlat(Lookup(s, child, p), p, virt / PAGE_SZ, phys / PAGE_SZ, Mmu.Pages(len), true, true);
  }

  lemma {:induction false} AllOk(s: Sys, dirs: set<nat>, d: nat)
    requires Ready(s, dirs, d)
    ensures IsTable(s, d) && forall e :: e in dirs ==> DirOk(s, e)
  {
  }

  /** The frames of the new block are none of those the parent's region lies in. */
  ghost predicate NewFrames(s: Sys, parent: nat, virt: nat, phys: nat, len: nat)
    requires DirOk(s, parent) && virt + len <= WORD
  {
    forall j, f: nat :: 0 <= j < len && FrameAt(s, parent, virt, j, f) ==>
      !(phys / PAGE_SZ <= f < phys / PAGE_SZ + Mmu.Pages(len))
  }

  /** A byte of the region has memory of its own in the child exactly when its page is covered. */
  lemma {:induction false} BytePrivateIff(s: Sys, dirs: set<nat>, child: nat, parent: nat, virt: nat, phys: nat,
                                          len: nat, j: nat)
    requires Mappable(s, dirs, child, virt, phys, len) && parent in dirs && child != parent
    requires DirOk(s, child) && DirOk(s, parent) && virt + len <= WORD && SameMap(s, child, parent, virt, len)
    requires j < len && At(s, parent, virt, j).Some? && NewFrames(s, parent, virt, phys, len)
    ensures var s' := Run(s, dirs, child, MapRegion(virt, phys, len));
            && DirOk(s', child) && DirOk(s', parent) && At(s', parent, virt, j) == At(s, parent, virt, j)
            && At(s', child, virt, j).Some?
            && (At(s', child, virt, j) != At(s', parent, virt, j) <==> Covered(virt, len, j))
            && (Covered(virt, len, j) ==>
                  At(s', child, virt, j).value / PAGE_SZ == phys / PAGE_SZ + (PageAt(virt, j) - virt / PAGE_SZ))
  {
    hide Lookup, DirOk, Run, MapRegion, Mappable;
    var page := PageAt(virt, j);
    RegionLookup(s, dirs, child, parent, virt, phys, len, page);
    PageNotBefore(virt, j);
    var r, f := (virt + j) % PAGE_SZ, Lookup(s, parent, page).value.frame;
    DivModUnique(f * PAGE_SZ + r, f, PAGE_SZ, r);
    assert FrameAt(s, parent, virt, j, f);
    var g := phys / PAGE_SZ + (page - virt / PAGE_SZ);
    DivModUnique(g * PAGE_SZ + r, g, PAGE_SZ, r);
  }

  lemma {:induction false} PageNotBefore(virt: nat, j: nat)
    ensures virt / PAGE_SZ <= PageAt(virt, j)
  {
  }

  /**
    A forked region is private to the child, byte for byte, exactly when the offset of its start and
    its length fit together in as many pages as its length alone takes.
    */
  lemma {:induction false} RegionPrivateIff(s: Sys, dirs: set<nat>, child: nat, parent: nat, virt: nat, phys: nat,
                                            len: nat)
    requires Mappable(s, dirs, child, virt, phys, len) && parent in dirs && child != parent && len > 0
    requires DirOk(s, child) && DirOk(s, parent) && virt + len <= WORD && SameMap(s, child, parent, virt, len)
    requires (forall j :: 0 <= j < len ==> At(s, parent, virt, j).Some?) && NewFrames(s, parent, virt, phys, len)
    ensures var s' := Run(s, dirs, child, MapRegion(virt, phys, len));
            && DirOk(s', child) && DirOk(s', parent)
            && ((forall j :: 0 <= j < len ==> At(s', child, virt, j) != At(s', parent, virt, j)) <==>
                virt % PAGE_SZ + len <= PAGE_SZ * Mmu.Pages(len))
  {
    hide At, DirOk, MapRegion, Covered, NewFrames, Lookup;
    var s' := Run(s, dirs, child, MapRegion(virt, phys, len));
    forall j | 0 <= j < len
      ensures DirOk(s', child) && DirOk(s', parent)
      ensures At(s', child, virt, j) != At(s', parent, virt, j) <==> Covered(virt, len, j)
    {
      BytePrivateIff(s, dirs, child, parent, virt, phys, len, j);
    }
    BytePrivateIff(s, dirs, child, parent, virt, phys, len, 0);
    CoveredIff(virt, len);
  }

  // ----- The copy -----

  /** Where the mapping puts byte `j` when its page is covered. */
  function BlockPlace(virt: nat, phys: nat, j: nat): nat {
    phys / PAGE_SZ * PAGE_SZ + virt % PAGE_SZ + j
  }

  lemma {:induction false} BlockFrame(virt: nat, phys: nat, j: nat)
    ensures virt / PAGE_SZ <= PageAt(virt, j)
    ensures BlockPlace(virt, phys, j) / PAGE_SZ == phys / PAGE_SZ + (PageAt(virt, j) - virt / PAGE_SZ)
    ensures BlockPlace(virt, phys, j) % PAGE_SZ == (virt + j) % PAGE_SZ
  {
    var v, f, x := virt / PAGE_SZ, phys / PAGE_SZ, virt % PAGE_SZ + j;
    var q, r := x / PAGE_SZ, x % PAGE_SZ;
    assert virt + j == (v + q) * PAGE_SZ + r;
    DivModUnique(virt + j, v + q, PAGE_SZ, r);
    DivModUnique(BlockPlace(virt, phys, j), f + q, PAGE_SZ, r);
  }

  /** The parent's region is in memory of its own, and the new block is data as well. */
  ghost predicate Forkable(s: Sys, parent: nat, virt: nat, phys: nat, len: nat, limit: nat)
    requires DirOk(s, parent)
  {
    && virt + len <= WORD
    && (forall j :: 0 <= j < len ==> At(s, parent, virt, j).Some?)
    && (forall i, j :: 0 <= i < len && 0 <= j < len && i != j ==> At(s, parent, virt, i) != At(s, parent, virt, j))
    && (forall j, f: nat :: 0 <= j < len && FrameAt(s, parent, virt, j, f) ==> DataFrame(s, f, limit))
    && (forall k :: phys / PAGE_SZ <= k < phys / PAGE_SZ + Mmu.Pages(len) ==> DataFrame(s, k, limit))
    && NewFrames(s, parent, virt, phys, len)
  }

  /** The places of the region's bytes after the mapping, in the child and in the parent. */
  ghost predicate RegionAt(s: Sys, s': Sys, child: nat, parent: nat, virt: nat, phys: nat, len: nat)
    requires DirOk(s, parent) && DirOk(s', child) && DirOk(s', parent) && virt + len <= WORD
  {
    forall j :: 0 <= j < len ==>
      && At(s', parent, virt, j) == At(s, parent, virt, j)
      && At(s', child, virt, j) ==
         (if Covered(virt, len, j) then Some(BlockPlace(virt, phys, j)) else At(s, parent, virt, j))
      && (WritableAt(s', child, virt, j) <==> Covered(virt, len, j) || WritableAt(s, parent, virt, j))
  }

  lemma {:induction false} RegionIsAt(s: Sys, dirs: set<nat>, child: nat, parent: nat, virt: nat, phys: nat, len: nat)
    requires Mappable(s, dirs, child, virt, phys, len) && parent in dirs && child != parent
    requires DirOk(s, child) && DirOk(s, parent) && virt + len <= WORD && SameMap(s, child, parent, virt, len)
    ensures var s' := Run(s, dirs, child, MapRegion(virt, phys, len));
            DirOk(s', child) && DirOk(s', parent) && RegionAt(s, s', child, parent, virt, phys, len)
  {
    hide Lookup, DirOk, MapRegion, BlockPlace, Ready, UserOps, Missing;
    var s' := Run(s, dirs, child, MapRegion(virt, phys, len));
    RegionLookup(s, dirs, child, parent, virt, phys, len, 0);
    forall j | 0 <= j < len
      ensures At(s', parent, virt, j) == At(s, parent, virt, j)
      ensures At(s', child, virt, j) ==
              if Covered(virt, len, j) then Some(BlockPlace(virt, phys, j)) else At(s, parent, virt, j)
      ensures WritableAt(s', child, virt, j) <==> Covered(virt, len, j) || WritableAt(s, parent, virt, j)
    {
      RegionLookup(s, dirs, child, parent, virt, phys, len, PageAt(virt, j));
      BlockFrame(virt, phys, j);
    }
  }

  /** Wherever it ends, the region can be copied: shared pages meet themselves, covered ones a block of their own. */
  lemma {:induction false} RegionIsCopyable(s: Sys, s': Sys, child: nat, parent: nat, virt: nat, phys: nat, len: nat,
                                            limit: nat)
    requires DirOk(s, parent) && DirOk(s', child) && DirOk(s', parent) && NoNewFrames(s, s')
    requires Forkable(s, parent, virt, phys, len, limit) && RegionAt(s, s', child, parent, virt, phys, len)
    ensures Copyable(s', child, parent, virt, len, limit)
  {
    hide At, DirOk, Covered;
    forall i, f: nat | 0 <= i < len && (FrameAt(s', child, virt, i, f) || FrameAt(s', parent, virt, i, f))
      ensures DataFrame(s', f, limit)
    {
      assert At(s', parent, virt, i) == At(s, parent, virt, i);
      if FrameAt(s', parent, virt, i, f) || !Covered(virt, len, i) {
        assert FrameAt(s, parent, virt, i, f);
      } else {
        BlockInRange(virt, phys, len, i);
      }
      assert DataFrame(s, f, limit);
    }
    forall i, j | 0 <= i < len && 0 <= j < len && i != j && At(s', child, virt, i).Some?
      ensures At(s', child, virt, i) != At(s', child, virt, j) && At(s', child, virt, i) != At(s', parent, virt, j)
    {
      BlockIsNew(s, parent, virt, phys, len, limit, i, j);
      BlockIsNew(s, parent, virt, phys, len, limit, j, i);
      assert At(s, parent, virt, i) != At(s, parent, virt, j);
    }
  }

  lemma {:induction false} BlockInRange(virt: nat, phys: nat, len: nat, j: nat)
    requires Covered(virt, len, j)
    ensures phys / PAGE_SZ <= BlockPlace(virt, phys, j) / PAGE_SZ < phys / PAGE_SZ + Mmu.Pages(len)
  {
    BlockFrame(virt, phys, j);
  }

  lemma {:induction false} BlockIsNew(s: Sys, parent: nat, virt: nat, phys: nat, len: nat, limit: nat, i: nat, j: nat)
    requires DirOk(s, parent) && Forkable(s, parent, virt, phys, len, limit) && i < len && j < len
    ensures Covered(virt, len, i) ==> At(s, parent, virt, j) != Some(BlockPlace(virt, phys, i))
  {
    hide At, DirOk, Covered, Mmu.Pages;
    if Covered(virt, len, i) {
      BlockInRange(virt, phys, len, i);
      var a := At(s, parent, virt, j).value;
      assert FrameAt(s, parent, virt, j, a / PAGE_SZ);
    }
  }

  /** The heap has a frame for each table that the mapping and the windows of the copy make. */
  ghost predicate Affordable(s: Sys, dirs: set<nat>, d: nat, child: nat, parent: nat, virt: nat, phys: nat, len: nat)
    requires Mappable(s, dirs, child, virt, phys, len) && parent in dirs && d in dirs && virt + len <= WORD
  {
    hide Lookup;
    var s' := Run(s, dirs, child, MapRegion(virt, phys, len));
    AllOk(s', dirs, child);
    AllOk(s', dirs, d);
    |s'.pool| >= |NeededFor(s', s', d, child, parent, virt, 0, len)|
  }

  /** The first half: the child's pages of the region lead to the new block. */
  method PlaceRegion(m: Machine, child: nat, virt: nat, phys: nat, len: nat)
    requires m.Valid() && child in m.dirs && Mappable(m.sys, m.dirs, child, virt, phys, len)
    modifies m`sys
    ensures Mappable(old(m.sys), m.dirs, child, virt, phys, len)
    ensures m.Valid() && m.sys == Run(old(m.sys), m.dirs, child, MapRegion(virt, phys, len))
  {
    hide Run, MapOps, UserOps, Missing, Separate, DirOk, PoolOk, TablesFor;
    TablesForAny(m.sys, child, virt / PAGE_SZ, phys / PAGE_SZ, Mmu.Pages(len), true, true);
    var table := new Mmu.Mmu(m.sys, m.cr3, m.dirs);
    table.MapTable(child, virt, phys, len, true, true);
    AllOk(table.sys, m.dirs, m.cr3);
    m.sys := table.sys;
  }

  /** Other spaces see what they saw before the region was placed. */
  ghost predicate OthersKeep(s: Sys, s': Sys, dirs: set<nat>, child: nat)
    requires forall e :: e in dirs ==> DirOk(s, e) && DirOk(s', e)
  {
    forall e, p :: e in dirs && e != child && 0 <= p < PAGES ==> Lookup(s', e, p) == Lookup(s, e, p)
  }

  /** The region is private to the child byte for byte. */
  ghost predicate Private(s: Sys, child: nat, parent: nat, virt: nat, len: nat)
    requires DirOk(s, child) && DirOk(s, parent) && virt + len <= WORD
  {
    forall j :: 0 <= j < len ==> At(s, child, virt, j) != At(s, parent, virt, j)
  }

  /** The first `n` bytes of the region read the same in both spaces, and in the parent as they were in `before`. */
  ghost predicate SameBytes(s: Sys, child: nat, parent: nat, virt: nat, n: nat, before: seq<byte>, after: seq<byte>)
    requires DirOk(s, child) && DirOk(s, parent) && virt + n <= WORD
  {
    |after| == |before| && forall j :: 0 <= j < n ==>
      var a, b := At(s, child, virt, j), At(s, parent, virt, j);
      a.Some? && b.Some? && a.value < |after| && b.value < |after| &&
          after[a.value] == after[b.value] == before[b.value]
  }

  /** What the copy finds after the mapping. */
  lemma {:induction false} Placed(s: Sys, s': Sys, dirs: set<nat>, d: nat, child: nat, parent: nat, virt: nat,
                                  phys: nat, len: nat, limit: nat)
    requires Mappable(s, dirs, child, virt, phys, len) && parent in dirs && child != parent && d in dirs && len > 0
    requires s' == Run(s, dirs, child, MapRegion(virt, phys, len)) && forall e :: e in dirs ==> DirOk(s, e)
    requires Forkable(s, parent, virt, phys, len, limit) && SameMap(s, child, parent, virt, len)
    requires Affordable(s, dirs, d, child, parent, virt, phys, len)
    ensures (forall e :: e in dirs ==> DirOk(s', e)) && IsTable(s', d) && NoNewFrames(s, s')
    ensures OthersKeep(s, s', dirs, child) && RegionAt(s, s', child, parent, virt, phys, len)
    ensures Copyable(s', child, parent, virt, len, limit)
    ensures |s'.pool| >= |NeededFor(s', s', d, child, parent, virt, 0, len)|
    ensures Private(s', child, parent, virt, len) <==> virt % PAGE_SZ + len <= PAGE_SZ * Mmu.Pages(len)
  {
    hide At, RegionAt, Copyable, Lookup, NeededFor, SameMap, UserOps, Missing, FlatRun;
    AllOk(s', dirs, child);
    AllOk(s', dirs, d);
    RunIsFlat(s, dirs, child, MapRegion(virt, phys, len));
    RegionIsAt(s, dirs, child, parent, virt, phys, len);
    RegionIsCopyable(s, s', child, parent, virt, phys, len, limit);
    RegionPrivateIff(s, dirs, child, parent, virt, phys, len);
  }

  /** What the mapping promised holds after the copy, which changes no lookup. */
  lemma {:induction false} StaysPlaced(s: Sys, s1: Sys, s2: Sys, dirs: set<nat>, child: nat, parent: nat, virt: nat,
                                       phys: nat, len: nat)
    requires (forall e :: e in dirs ==> DirOk(s, e) && DirOk(s1, e) && DirOk(s2, e)) && child in dirs && parent in dirs
    requires virt + len <= WORD && SameView(s1, s2, dirs) && OthersKeep(s, s1, dirs, child)
    requires RegionAt(s, s1, child, parent, virt, phys, len) && NoNewFrames(s, s1) && NoNewFrames(s1, s2)
    ensures NoNewFrames(s, s2) && OthersKeep(s, s2, dirs, child) && RegionAt(s, s2, child, parent, virt, phys, len)
    ensures Private(s2, child, parent, virt, len) <==> Private(s1, child, parent, virt, len)
  {
    hide At, WritableAt, Lookup, DirOk;
    forall j | 0 <= j < len
      ensures At(s2, child, virt, j) == At(s1, child, virt, j) && At(s2, parent, virt, j) == At(s1, parent, virt, j)
      ensures WritableAt(s2, child, virt, j) <==> WritableAt(s1, child, virt, j)
    {
      SameAt(s1, s2, dirs, child, virt, j);
      SameAt(s1, s2, dirs, parent, virt, j);
    }
  }

  /** The copied bytes as both spaces read them. */
  lemma {:induction false} BothRead(s1: Sys, s2: Sys, dirs: set<nat>, child: nat, parent: nat, virt: nat, n: nat,
                                    before: seq<byte>, after: seq<byte>)
    requires (forall e :: e in dirs ==> DirOk(s1, e) && DirOk(s2, e)) && child in dirs && parent in dirs
    requires SameView(s1, s2, dirs) && |after| == |before| && virt + n <= WORD
    requires Mapped(s1, child, virt, n, |before|) && Mapped(s1, parent, virt, n, |before|)
    requires var to, from := Places(s1, child, virt, n, |before|), Places(s1, parent, virt, n, |before|);
             forall i :: 0 <= i < n ==> after[to[i]] == after[from[i]] == before[from[i]]
    ensures SameBytes(s2, child, parent, virt, n, before, after)
  {
    hide At, SameView, DirOk;
    var to, from := Places(s1, child, virt, n, |before|), Places(s1, parent, virt, n, |before|);
    forall j | 0 <= j < n
      ensures At(s2, child, virt, j) == Some(to[j]) && At(s2, parent, virt, j) == Some(from[j])
      ensures to[j] < |before| && from[j] < |before|
    {
      SameAt(s1, s2, dirs, child, virt, j);
      SameAt(s1, s2, dirs, parent, virt, j);
    }
  }

  /** A page that cannot be copied is one that was left shared, and the parent may not write it either. */
  lemma {:induction false} StopsAtShared(s: Sys, s1: Sys, child: nat, parent: nat, virt: nat, phys: nat, len: nat,
                                         j: nat, limit: nat)
    requires DirOk(s, parent) && DirOk(s1, child) && DirOk(s1, parent) && j < len
    requires Forkable(s, parent, virt, phys, len, limit) && RegionAt(s, s1, child, parent, virt, phys, len)
    requires !Possible(s1, child, parent, virt, j)
    ensures !Covered(virt, len, j) && !WritableAt(s, parent, virt, j)
  {
    hide At, WritableAt, DirOk, Covered, NewFrames;
    assert At(s1, parent, virt, j) == At(s, parent, virt, j) && At(s, parent, virt, j).Some?;
    assert WritableAt(s1, child, virt, j) <==> Covered(virt, len, j) || WritableAt(s, parent, virt, j);
  }

  /**
    What proc_copy_data does with one region once it has a block: the child's table is mapped to it and
    the parent's bytes are copied.  Both spaces then hold the parent's bytes as far as the copy got, which
    stops only at a page that is shared and that the parent may not write; and the region is private to
    the child exactly when its offset and length fit in the pages that were mapped.
    */
  method CopyRegion(m: Machine, child: nat, parent: nat, virt: nat, phys: nat, len: nat)
    returns (ok: bool, ghost done: nat)
    requires m.Valid() && child in m.dirs && parent in m.dirs && child != parent && len > 0
    requires DirOk(m.sys, child) && DirOk(m.sys, parent) && Mappable(m.sys, m.dirs, child, virt, phys, len)
    requires Forkable(m.sys, parent, virt, phys, len, m.ram.Length) && SameMap(m.sys, child, parent, virt, len)
    requires Affordable(m.sys, m.dirs, m.cr3, child, parent, virt, phys, len)
    modifies m`sys, m.ram
    ensures m.Valid() && NoNewFrames(old(m.sys), m.sys) && DirOk(m.sys, child) && DirOk(m.sys, parent)
    ensures (forall e :: e in m.dirs ==> DirOk(old(m.sys), e)) && OthersKeep(old(m.sys), m.sys, m.dirs, child)
    ensures RegionAt(old(m.sys), m.sys, child, parent, virt, phys, len)
    ensures Private(m.sys, child, parent, virt, len) <==> virt % PAGE_SZ + len <= PAGE_SZ * Mmu.Pages(len)
    ensures done <= len && (ok <==> done == len)
    ensures !ok ==> !Covered(virt, len, done) && !WritableAt(old(m.sys), parent, virt, done)
    ensures SameBytes(m.sys, child, parent, virt, done, old(m.ram[..]), m.ram[..])
  {
    hide RegionAt, OthersKeep, Private, SameBytes, Covered, WritableAt, Lookup, DirOk, Copyable, Run, Mapped,
        Places, At,
         NeededFor, Possible, SameView, NoNewFrames, Mmu.Pages, CopiedTo, Separate, PoolOk;
    ghost var s, before := m.sys, m.ram[..];
    PlaceRegion(m, child, virt, phys, len);
    ghost var s' := m.sys;
    Placed(s, s', m.dirs, m.cr3, child, parent, virt, phys, len, m.ram.Length);
    ok, done := CopyData(m, child, parent, virt, len);
    StaysPlaced(s, s', m.sys, m.dirs, child, parent, virt, phys, len);
    CopiedParts(s', child, parent, virt, done, before, m.ram[..]);
    BothRead(s', m.sys, m.dirs, child, parent, virt, done, before, m.ram[..]);
    if !ok { StopsAtShared(s, s', child, parent, virt, phys, len, done, m.ram.Length); }
  }

  /** Four bytes across a page end: one page is mapped, and the last byte stays the parent's. */
  lemma {:induction false} ShortRegionIsShared(virt: nat)
    requires virt % PAGE_SZ == PAGE_SZ - 2
    ensures !Covered(virt, 4, 2) && Covered(virt, 4, 1)
  {
    var v := virt / PAGE_SZ;
    assert Mmu.Pages(4) == 1 && virt == v * PAGE_SZ + 4094;
    PageOf(v, 4096, 1);
    PageOf(v, 4095, 1);
  }
}
