/**
  Copying a range from one address space to the same range of another, as fork
  does with each region of the parent: two frames at a time are mapped into the
  table in use, and pages that both spaces share are left alone.
  */
module SpaceCopy {
  import opened Options
  import opened Arith
  import opened Bytes
  import opened PageTables
  import opened PageMaps
  import opened Machine

  /** Byte `i` at `va` lies in frame `f`. */
  ghost predicate FrameAt(s: Sys, d: nat, va: nat, i: nat, f: nat)
    requires DirOk(s, d) && va + i < WORD
  {
    At(s, d, va, i).Some? && At(s, d, va, i).value / PAGE_SZ == f
  }

  /** A frame of user data: below the kernel range, in memory, and neither a table nor waiting in the heap. */
  predicate DataFrame(s: Sys, f: nat, limit: nat) {
    f < KERNEL_PAGE && (f + 1) * PAGE_SZ <= limit && f !in s.pages && f !in s.pool
  }

  /**
    What the call may assume: both spaces map the range to data frames, and a byte of the
    destination is no other byte of the destination and no other byte of the source.
    */
  ghost predicate Copyable(s: Sys, dst: nat, src: nat, virt: nat, size: nat, limit: nat)
    requires DirOk(s, dst) && DirOk(s, src)
  {
    && virt + size <= WORD
    && (forall i, f: nat :: 0 <= i < size && (FrameAt(s, dst, virt, i, f) || FrameAt(s, src, virt, i, f)) ==>
        DataFrame(s, f, limit))
    && (forall i, j :: 0 <= i < size && 0 <= j < size && i != j && At(s, dst, virt, i).Some? ==>
          At(s, dst, virt, i) != At(s, dst, virt, j) && At(s, dst, virt, i) != At(s, src, virt, j))
  }

  // ----- One page through two windows -----

  /** What the two windows changed is back when both are closed. */
  lemma {:induction false} WindowsClosed(s: Sys, s1: Sys, s2: Sys, s3: Sys, s4: Sys, dirs: set<nat>, d: nat, f: nat,
                                         g: nat)
    requires forall e :: e in dirs ==> DirOk(s, e) && DirOk(s1, e) && DirOk(s2, e) && DirOk(s3, e) && DirOk(s4, e)
    requires d in dirs && f < PAGES && g < PAGES && f != g
    requires SameLookupsExcept(s, s1, dirs, d, f, f + 1) && SameLookupsExcept(s1, s2, dirs, d, g, g + 1)
    requires SameLookupsExcept(s2, s3, dirs, d, f, f + 1) && SameLookupsExcept(s3, s4, dirs, d, g, g + 1)
    requires Lookup(s3, d, f) == Lookup(s, d, f) && Lookup(s4, d, g) == Lookup(s, d, g)
    requires NoNewFrames(s, s1) && NoNewFrames(s1, s2) && NoNewFrames(s2, s3) && NoNewFrames(s3, s4)
    ensures SameView(s, s4, dirs) && NoNewFrames(s, s4)
  {
    hide Lookup, DirOk;
  }

  lemma {:induction false} StillShown(s1: Sys, s2: Sys, dirs: set<nat>, d: nat, f: nat, g: nat)
    requires forall e :: e in dirs ==> DirOk(s1, e) && DirOk(s2, e)
    requires d in dirs && f < PAGES && f != g && SameLookupsExcept(s1, s2, dirs, d, g, g + 1)
    ensures Lookup(s2, d, f) == Lookup(s1, d, f)
  {
    hide Lookup, DirOk;
  }

  lemma {:induction false} FramesApart(f: nat, g: nat, off: nat, n: nat)
    requires f != g && off + n <= PAGE_SZ
    ensures var a, b := f * PAGE_SZ + off, g * PAGE_SZ + off;
            Disjoint(Stretch(a, n), Stretch(b, n)) && Distinct(Stretch(a, n))
  {
  }

  /** Tables that have to be made for two windows. */
  function WindowTables(s: Sys, d: nat, f: nat, g: nat): (n: nat)
    requires IsTable(s, d) && f < PAGES && g < PAGES
    ensures n <= 2
  {
    var i, j := DirIndex(f), DirIndex(g);
    (if Table(s, d, i).Some? then 0 else 1) + (if Table(s, d, j).Some? || i == j then 0 else 1)
  }

  /** Directory `d` has the tables it had, and one each for entries `i` and `j`. */
  ghost predicate TwoTablesMore(s: Sys, s': Sys, d: nat, i: nat, j: nat)
    requires IsTable(s, d) && IsTable(s', d)
  {
    forall k :: 0 <= k < ENTRIES ==> (Table(s', d, k).Some? <==> Table(s, d, k).Some? || k == i || k == j)
  }

  /** One round: `n` bytes at offset `off` of one frame to the same place of another. */
  method CopyFrame(m: Machine, sframe: nat, dframe: nat, off: nat, n: nat)
    requires m.Valid() && sframe != dframe && sframe < KERNEL_PAGE && dframe < KERNEL_PAGE
    requires (sframe + 1) * PAGE_SZ <= m.ram.Length && (dframe + 1) * PAGE_SZ <= m.ram.Length
    requires off + n <= PAGE_SZ && |m.sys.pool| >= WindowTables(m.sys, m.cr3, sframe, dframe)
    requires HoldsData(m.sys, sframe * PAGE_SZ) && HoldsData(m.sys, dframe * PAGE_SZ)
    modifies m`sys, m.ram
    ensures m.Valid() && |m.sys.pool| == |old(m.sys.pool)| - WindowTables(old(m.sys), m.cr3, sframe, dframe)
    ensures TwoTablesMore(old(m.sys), m.sys, m.cr3, DirIndex(sframe), DirIndex(dframe))
    ensures SameView(old(m.sys), m.sys, m.dirs) && NoNewFrames(old(m.sys), m.sys)
    ensures Moved(old(m.ram[..]), m.ram[..], Stretch(dframe * PAGE_SZ + off, n), Stretch(sframe * PAGE_SZ + off, n))
  {
    hide SameView, SameLookupsExcept, NoNewFrames, Moved, Lookup, Disjoint, Distinct, At, WritableAt, AllData, Separate,
         PoolOk;
    ghost var s := m.sys;
    FrameHoldsData(s, sframe, off, n);
    FrameHoldsData(s, dframe, off, n);
    var sphys, dphys := sframe * PAGE_SZ + off, dframe * PAGE_SZ + off;
    var ssaved, dsaved := Lookup(m.sys, m.cr3, sframe), Lookup(m.sys, m.cr3, dframe);
    var _ := m.OpenWindow(sframe, false);
    ghost var s1 := m.sys;
    var _ := m.OpenWindow(dframe, true);
    ghost var s2 := m.sys;
    StillShown(s1, s2, m.dirs, m.cr3, sframe, dframe);
    m.ThroughWindow(s2, sphys, sframe, n, false);
    m.ThroughWindow(s2, dphys, dframe, n, true);
    FramesApart(dframe, sframe, off, n);
    DataStays(s, s1, Stretch(sphys, n));
    DataStays(s1, s2, Stretch(sphys, n));
    DataStays(s, s1, Stretch(dphys, n));
    DataStays(s1, s2, Stretch(dphys, n));
    m.Memcpy(dphys, sphys, n, Stretch(dphys, n), Stretch(sphys, n));
    m.CloseWindow(sframe, ssaved);
    ghost var s3 := m.sys;
    m.CloseWindow(dframe, dsaved);
    WindowsClosed(s, s1, s2, s3, m.sys, m.dirs, m.cr3, sframe, dframe);
  }

  // ----- The whole range -----

  lemma {:induction false} FrameOfRound(s: Sys, d: nat, dst: nat, src: nat, virt: nat, size: nat, off: nat, limit: nat)
    requires DirOk(s, dst) && DirOk(s, src) && Copyable(s, dst, src, virt, size, limit) && (d == dst || d == src)
    requires off < size && Lookup(s, d, PageAt(virt, off)).Some?
    ensures DataFrame(s, Lookup(s, d, PageAt(virt, off)).value.frame, limit)
  {
    var m := Lookup(s, d, PageAt(virt, off)).value;
    ChunkPlaces(s, d, virt, off, size);
    assert FrameAt(s, d, virt, off, m.frame);
  }

  /** The destination reached so far is clear of everything the rest of the range touches. */
  lemma {:induction false} ReachedApart(s: Sys, dst: nat, src: nat, virt: nat, size: nat, off: nat, end: nat,
                                        limit: nat)
    requires DirOk(s, dst) && DirOk(s, src) && Copyable(s, dst, src, virt, size, limit) && off <= end <= size
    requires Mapped(s, dst, virt, end, limit) && Mapped(s, src, virt, end, limit)
    ensures var to, from := Places(s, dst, virt, end, limit), Places(s, src, virt, end, limit);
            Disjoint(to[..off], to[off..end]) && Disjoint(to[..off], from[off..end])
  {
    var to, from := Places(s, dst, virt, end, limit), Places(s, src, virt, end, limit);
    hide At;
    forall i, j | 0 <= i < off && off <= j < end
      ensures to[i] != to[j] && to[i] != from[j]
    {
      assert At(s, dst, virt, i) == Some(to[i]) && At(s, dst, virt, j) == Some(to[j]) &&
             At(s, src, virt, j) == Some(from[j]);
    }
  }

  /** `off` bytes have been copied. */
  ghost predicate CopiedTo(s: Sys, dst: nat, src: nat, virt: nat, off: nat, before: seq<byte>, after: seq<byte>)
    requires DirOk(s, dst) && DirOk(s, src)
  {
    && Mapped(s, dst, virt, off, |before|) && Mapped(s, src, virt, off, |before|)
    && (forall i :: 0 <= i < off ==> WritableAt(s, dst, virt, i))
    && Moved(before, after, Places(s, dst, virt, off, |before|), Places(s, src, virt, off, |before|))
  }

  /** One round carries the copy to the end of its chunk. */
  lemma {:induction false} CopyRound(s: Sys, dst: nat, src: nat, virt: nat, size: nat, off: nat,
                                     before: seq<byte>, mid: seq<byte>, after: seq<byte>)
    requires DirOk(s, dst) && DirOk(s, src) && Copyable(s, dst, src, virt, size, |before|) && off < size
    requires CopiedTo(s, dst, src, virt, off, before, mid)
    requires Lookup(s, src, PageAt(virt, off)).Some?
    requires Lookup(s, dst, PageAt(virt, off)).Some? && Lookup(s, dst, PageAt(virt, off)).value.write
    requires RoundDone(s, dst, src, virt, size, off, mid, after)
    ensures CopiedTo(s, dst, src, virt, off + Chunk(virt, off, size), before, after)
  {
    hide Copyable, DirOk, At, Disjoint, Moved, Lookup, WritableAt, Mapped, Places, Stretch, Chunk, PageAt, RoundDone;
    CopyableFits(s, dst, src, virt, size, off, |before|);
    RoundWritable(s, dst, virt, size, off);
    RoundMoves(s, dst, src, virt, size, off, before, mid, after);
  }

  /** The bytes of the chunk at `off` have been moved from frame to frame. */
  ghost predicate RoundDone(s: Sys, dst: nat, src: nat, virt: nat, size: nat, off: nat, mid: seq<byte>,
                            after: seq<byte>)
    requires DirOk(s, dst) && DirOk(s, src) && off < size && PageAt(virt, off) < PAGES
    requires Lookup(s, src, PageAt(virt, off)).Some? && Lookup(s, dst, PageAt(virt, off)).Some?
  {
    var n, at := Chunk(virt, off, size), (virt + off) % PAGE_SZ;
    var f, g := Lookup(s, src, PageAt(virt, off)).value.frame, Lookup(s, dst, PageAt(virt, off)).value.frame;
    Moved(mid, after, Stretch(g * PAGE_SZ + at, n), Stretch(f * PAGE_SZ + at, n))
  }

  lemma {:induction false} RoundMoves(s: Sys, dst: nat, src: nat, virt: nat, size: nat, off: nat,
                                      before: seq<byte>, mid: seq<byte>, after: seq<byte>)
    requires DirOk(s, dst) && DirOk(s, src) && Copyable(s, dst, src, virt, size, |before|) && off < size
    requires Mapped(s, dst, virt, off, |before|) && Mapped(s, src, virt, off, |before|)
    requires Lookup(s, src, PageAt(virt, off)).Some? && Lookup(s, dst, PageAt(virt, off)).Some?
    requires Moved(before, mid, Places(s, dst, virt, off, |before|), Places(s, src, virt, off, |before|))
    requires RoundDone(s, dst, src, virt, size, off, mid, after)
    ensures var end := off + Chunk(virt, off, size);
            && Mapped(s, dst, virt, end, |before|) && Mapped(s, src, virt, end, |before|)
            && Moved(before, after, Places(s, dst, virt, end, |before|), Places(s, src, virt, end, |before|))
  {
    hide Copyable, DirOk, At, Disjoint, Moved, Mapped, Places, PageAt, Split, Stretch, Lookup, Chunk;
    CopyableFits(s, dst, src, virt, size, off, |before|);
    var n, at, limit := Chunk(virt, off, size), (virt + off) % PAGE_SZ, |before|;
    var f, g := Lookup(s, src, PageAt(virt, off)).value.frame, Lookup(s, dst, PageAt(virt, off)).value.frame;
    RoundPlaces(s, dst, src, virt, size, off, limit);
    JoinMoves(before, mid, after, Places(s, dst, virt, off + n, limit), Places(s, src, virt, off + n, limit), off, n,
              Places(s, dst, virt, off, limit), Places(s, src, virt, off, limit),
              Stretch(g * PAGE_SZ + at, n), Stretch(f * PAGE_SZ + at, n));
  }

  lemma {:induction false} RoundWritable(s: Sys, dst: nat, virt: nat, size: nat, off: nat)
    requires DirOk(s, dst) && off < size && virt + size <= WORD
    requires Lookup(s, dst, PageAt(virt, off)).Some? && Lookup(s, dst, PageAt(virt, off)).value.write
    ensures forall i :: off <= i < off + Chunk(virt, off, size) ==> WritableAt(s, dst, virt, i)
  {
    ChunkPlaces(s, dst, virt, off, size);
  }

  /** The places of both ranges up to the end of a round, and how they are apart. */
  lemma {:induction false} RoundPlaces(s: Sys, dst: nat, src: nat, virt: nat, size: nat, off: nat, limit: nat)
    requires DirOk(s, dst) && DirOk(s, src) && Copyable(s, dst, src, virt, size, limit) && off < size
    requires Mapped(s, dst, virt, off, limit) && Mapped(s, src, virt, off, limit)
    requires Lookup(s, src, PageAt(virt, off)).Some? && Lookup(s, dst, PageAt(virt, off)).Some?
    ensures var n, at := Chunk(virt, off, size), (virt + off) % PAGE_SZ;
            var f, g := Lookup(s, src, PageAt(virt, off)).value.frame, Lookup(s, dst, PageAt(virt, off)).value.frame;
            && Mapped(s, dst, virt, off + n, limit) && Mapped(s, src, virt, off + n, limit)
            && Split(Places(s, dst, virt, off + n, limit), off, n, Places(s, dst, virt, off, limit),
                     Stretch(g * PAGE_SZ + at, n))
            && Split(Places(s, src, virt, off + n, limit), off, n, Places(s, src, virt, off, limit),
                     Stretch(f * PAGE_SZ + at, n))
            && Disjoint(Places(s, dst, virt, off, limit), Stretch(g * PAGE_SZ + at, n))
            && Disjoint(Places(s, dst, virt, off, limit), Stretch(f * PAGE_SZ + at, n))
  {
    hide Copyable, DirOk, At, Disjoint, Lookup, Mapped, PageAt;
    CopyableFits(s, dst, src, virt, size, off, limit);
    FrameOfRound(s, src, dst, src, virt, size, off, limit);
    FrameOfRound(s, dst, dst, src, virt, size, off, limit);
    PlacesExtend(s, src, virt, size, off, limit);
    PlacesExtend(s, dst, virt, size, off, limit);
    ReachedApart(s, dst, src, virt, size, off, off + Chunk(virt, off, size), limit);
  }

  /** Two moves that together cover two lists of places. */
  lemma {:induction false} JoinMoves(before: seq<byte>, mid: seq<byte>, after: seq<byte>, to: seq<nat>, from: seq<nat>,
                                     off: nat, n: nat, a: seq<nat>, c: seq<nat>, b: seq<nat>, d: seq<nat>)
    requires Split(to, off, n, a, b) && Split(from, off, n, c, d)
    requires Moved(before, mid, a, c) && Moved(mid, after, b, d)
    requires Disjoint(a, b) && Disjoint(a, d)
    ensures Moved(before, after, to, from)
  {
    hide Moved, Disjoint;
    assert to == a + b && from == c + d;
    MovedOn(before, mid, after, a, c, b, d);
  }

  /** A page that both spaces share needs no copy. */
  lemma {:induction false} SharedIsCopied(memory: seq<byte>, f: nat, off: nat, n: nat)
    requires off + n <= PAGE_SZ && (f + 1) * PAGE_SZ <= |memory|
    ensures Moved(memory, memory, Stretch(f * PAGE_SZ + off, n), Stretch(f * PAGE_SZ + off, n))
  {
  }

  /** The source can be read and the destination written at byte `i`. */
  ghost predicate Possible(s: Sys, dst: nat, src: nat, virt: nat, i: nat)
    requires DirOk(s, dst) && DirOk(s, src) && virt + i < WORD
  {
    At(s, src, virt, i).Some? && WritableAt(s, dst, virt, i)
  }

  // ----- Tables that windows need -----

  /** The copy gets as far as byte `j`. */
  ghost predicate CopyReaches(s: Sys, dst: nat, src: nat, virt: nat, j: nat)
    requires DirOk(s, dst) && DirOk(s, src) && virt + j < WORD
  {
    forall k :: 0 <= k <= j ==> Possible(s, dst, src, virt, k)
  }

  /** Byte `j` is copied through windows, one of them on a page behind directory entry `i`. */
  ghost predicate WindowBehind(s: Sys, dst: nat, src: nat, virt: nat, j: nat, i: nat)
    requires DirOk(s, dst) && DirOk(s, src) && virt + j < WORD
  {
    exists f: nat, g: nat :: FrameAt(s, src, virt, j, f) && FrameAt(s, dst, virt, j, g) && f != g &&
                             (DirIndex(f) == i || DirIndex(g) == i)
  }

  ghost predicate WantsWindow(s: Sys, dst: nat, src: nat, virt: nat, off: nat, size: nat, i: nat)
    requires DirOk(s, dst) && DirOk(s, src) && virt + size <= WORD
  {
    exists j :: off <= j < size && CopyReaches(s, dst, src, virt, j) && WindowBehind(s, dst, src, virt, j, i)
  }

  /** The entries behind which directory `d` lacks a table that the copy of bytes `off` to `size` will need. */
  ghost function NeededFor(s: Sys, now: Sys, d: nat, dst: nat, src: nat, virt: nat, off: nat, size: nat): set<nat>
    requires DirOk(s, dst) && DirOk(s, src) && virt + size <= WORD && IsTable(now, d)
  {
    set i: nat | i < ENTRIES && Table(now, d, i).None? && WantsWindow(s, dst, src, virt, off, size, i)
  }

  lemma {:induction false} NeededNow(s: Sys, now: Sys, d: nat, dst: nat, src: nat, virt: nat, off: nat, size: nat,
                                     f: nat, g: nat)
    requires DirOk(s, dst) && DirOk(s, src) && virt + size <= WORD && IsTable(now, d) && off < size
    requires CopyReaches(s, dst, src, virt, off) && f < PAGES && g < PAGES && f != g
    requires FrameAt(s, src, virt, off, f) && FrameAt(s, dst, virt, off, g)
    ensures forall i :: i == DirIndex(f) || i == DirIndex(g) ==>
              (Table(now, d, i).None? ==> i in NeededFor(s, now, d, dst, src, virt, off, size))
    ensures |NeededFor(s, now, d, dst, src, virt, off, size)| >= WindowTables(now, d, f, g)
  {
    hide FrameAt, CopyReaches;
    var need, some := NeededFor(s, now, d, dst, src, virt, off, size), TwoMissing(now, d, f, g);
    assert WindowBehind(s, dst, src, virt, off, DirIndex(f)) && WindowBehind(s, dst, src, virt, off, DirIndex(g));
    SubsetSize(some, need);
  }

  /** The entries of two pages that have no table. */
  ghost function TwoMissing(now: Sys, d: nat, f: nat, g: nat): (some: set<nat>)
    requires IsTable(now, d) && f < PAGES && g < PAGES
    ensures |some| == WindowTables(now, d, f, g)
    ensures forall i :: i in some <==> (i == DirIndex(f) || i == DirIndex(g)) && Table(now, d, i).None?
  {
    var i, j := DirIndex(f), DirIndex(g);
    (if Table(now, d, i).Some? then {} else {i}) + (if Table(now, d, j).Some? || i == j then {} else {j})
  }

  lemma {:induction false} NeededLater(s: Sys, now: Sys, next: Sys, d: nat, dst: nat, src: nat, virt: nat, off: nat,
                                       end: nat,
                                       size: nat, f: nat, g: nat)
    requires DirOk(s, dst) && DirOk(s, src) && virt + size <= WORD && IsTable(now, d) && IsTable(next, d)
    requires off <= end && f < PAGES && g < PAGES && TwoTablesMore(now, next, d, DirIndex(f), DirIndex(g))
    requires forall i :: i in TwoMissing(now, d, f, g) ==> i in NeededFor(s, now, d, dst, src, virt, off, size)
    ensures |NeededFor(s, next, d, dst, src, virt, end, size)| <=
            |NeededFor(s, now, d, dst, src, virt, off, size)| - WindowTables(now, d, f, g)
  {
    hide FrameAt, CopyReaches, WindowBehind, WindowTables;
    var was, left := NeededFor(s, now, d, dst, src, virt, off, size), NeededFor(s, next, d, dst, src, virt, end, size);
    var made := TwoMissing(now, d, f, g);
    forall i | i in left
      ensures i in was && i !in made
    {
      var j :| end <= j < size && CopyReaches(s, dst, src, virt, j) && WindowBehind(s, dst, src, virt, j, i);
    }
    SubsetSize(left, was - made);
    assert was == (was - made) + made;
  }

  lemma {:induction false} NeededLess(s: Sys, now: Sys, d: nat, dst: nat, src: nat, virt: nat, off: nat, end: nat,
                                      size: nat)
    requires DirOk(s, dst) && DirOk(s, src) && virt + size <= WORD && IsTable(now, d) && off <= end
    ensures |NeededFor(s, now, d, dst, src, virt, end, size)| <= |NeededFor(s, now, d, dst, src, virt, off, size)|
  {
    hide FrameAt, CopyReaches, WindowBehind;
    var was, left := NeededFor(s, now, d, dst, src, virt, off, size), NeededFor(s, now, d, dst, src, virt, end, size);
    forall i | i in left
      ensures i in was
    {
      var j :| end <= j < size && CopyReaches(s, dst, src, virt, j) && WindowBehind(s, dst, src, virt, j, i);
    }
    SubsetSize(left, was);
  }

  /** The state a copy started from, with its arguments as they must be. */
  ghost predicate Given(m: Machine, s: Sys, dst: nat, src: nat, virt: nat, size: nat)
    reads m`cr3, m`dirs
  {
    && (forall e :: e in m.dirs ==> DirOk(s, e)) && dst in m.dirs && src in m.dirs
    && IsTable(s, m.cr3) && Copyable(s, dst, src, virt, size, m.ram.Length)
    && |s.pool| >= |NeededFor(s, s, m.cr3, dst, src, virt, 0, size)|
  }

  /** `off` bytes have been copied, and every lookup is as it was in `s`. */
  ghost predicate Reached(m: Machine, s: Sys, dst: nat, src: nat, virt: nat, size: nat, off: nat, before: seq<byte>)
    requires Given(m, s, dst, src, virt, size)
    reads m, m.ram
  {
    && m.Valid() && off <= size && SameView(s, m.sys, m.dirs) && NoNewFrames(s, m.sys)
    && IsTable(m.sys, m.cr3) && |m.sys.pool| >= |NeededFor(s, m.sys, m.cr3, dst, src, virt, off, size)|
    && |before| == m.ram.Length && CopiedTo(s, dst, src, virt, off, before, m.ram[..])
  }

  method CopyOnce(m: Machine, dst: nat, src: nat, virt: nat, size: nat, off: nat, ghost s: Sys, ghost before: seq<byte>)
    returns (ok: bool, n: nat)
    requires Given(m, s, dst, src, virt, size) && Reached(m, s, dst, src, virt, size, off, before) && off < size
    modifies m`sys, m.ram
    ensures Given(m, s, dst, src, virt, size) && n <= size - off
    ensures ok ==> n > 0 && Reached(m, s, dst, src, virt, size, off + n, before)
    ensures !ok ==> Reached(m, s, dst, src, virt, size, off, before) && !Possible(s, dst, src, virt, off)
  {
    hide Moved, Stretch, NoNewFrames, CopiedTo, Copyable, NeededFor, FrameAt;
    CopyableFits(s, dst, src, virt, size, off, m.ram.Length);
    n := Chunk(virt, off, size);
    var sflag, dflag := Lookup(m.sys, src, PageAt(virt, off)), Lookup(m.sys, dst, PageAt(virt, off));
    assert sflag == Lookup(s, src, PageAt(virt, off)) && dflag == Lookup(s, dst, PageAt(virt, off));
    if sflag.None? || dflag.None? || !dflag.value.write {
      ok := false;
    } else {
      CopyChunk(m, dst, src, virt, size, off, n, sflag.value.frame, dflag.value.frame, s, before);
      ok := true;
    }
  }

  /** The part of a round that moves bytes. */
  method CopyChunk(m: Machine, dst: nat, src: nat, virt: nat, size: nat, off: nat, n: nat, sframe: nat, dframe: nat,
                   ghost s: Sys, ghost before: seq<byte>)
    requires Given(m, s, dst, src, virt, size) && Reached(m, s, dst, src, virt, size, off, before) && off < size
    requires n == Chunk(virt, off, size) && virt + size <= WORD && PageAt(virt, off) < PAGES
    requires Lookup(s, src, PageAt(virt, off)).Some? && Lookup(s, src, PageAt(virt, off)).value.frame == sframe
    requires Lookup(s, dst, PageAt(virt, off)).Some? && Lookup(s, dst, PageAt(virt, off)).value.frame == dframe
    requires Lookup(s, dst, PageAt(virt, off)).value.write
    modifies m`sys, m.ram
    ensures Given(m, s, dst, src, virt, size) && Reached(m, s, dst, src, virt, size, off + n, before)
  {
    hide Moved, Stretch, NoNewFrames, CopiedTo, Copyable, NeededFor, FrameAt, SameView, DirOk, At, Lookup, WritableAt,
         WindowTables, TwoTablesMore, CopyReaches, PageAt, Chunk, TwoMissing, HoldsData, Mapped;
    CopiedParts(s, dst, src, virt, off, before, m.ram[..]);
    RoundCanStart(s, m.sys, m.cr3, dst, src, virt, size, off, |before|);
    ghost var s1, mid := m.sys, m.ram[..];
    if sframe == dframe {
      SharedIsCopied(mid, sframe, (virt + off) % PAGE_SZ, n);
      NeededLess(s, s1, m.cr3, dst, src, virt, off, off + n, size);
    } else {
      CopyFrame(m, sframe, dframe, (virt + off) % PAGE_SZ, n);
      SameViewOn(s, s1, m.sys, m.dirs);
      m.InUse();
      NeededLater(s, s1, m.sys, m.cr3, dst, src, virt, off, off + n, size, sframe, dframe);
    }
    RoundIsDone(s, dst, src, virt, size, off, mid, m.ram[..], sframe, dframe);
    CopyRound(s, dst, src, virt, size, off, before, mid, m.ram[..]);
  }

  lemma {:induction false} CopiedParts(s: Sys, dst: nat, src: nat, virt: nat, off: nat, before: seq<byte>,
                                       after: seq<byte>)
    requires DirOk(s, dst) && DirOk(s, src) && CopiedTo(s, dst, src, virt, off, before, after)
    ensures Mapped(s, dst, virt, off, |before|) && Mapped(s, src, virt, off, |before|) && virt + off <= WORD
    ensures forall i :: 0 <= i < off ==> WritableAt(s, dst, virt, i)
  {
  }

  lemma {:induction false} RoundIsDone(s: Sys, dst: nat, src: nat, virt: nat, size: nat, off: nat,
                                       mid: seq<byte>, after: seq<byte>, sframe: nat, dframe: nat)
    requires DirOk(s, dst) && DirOk(s, src) && off < size && PageAt(virt, off) < PAGES
    requires Lookup(s, src, PageAt(virt, off)).Some? && Lookup(s, src, PageAt(virt, off)).value.frame == sframe
    requires Lookup(s, dst, PageAt(virt, off)).Some? && Lookup(s, dst, PageAt(virt, off)).value.frame == dframe
    requires var n, at := Chunk(virt, off, size), (virt + off) % PAGE_SZ;
             Moved(mid, after, Stretch(dframe * PAGE_SZ + at, n), Stretch(sframe * PAGE_SZ + at, n))
    ensures RoundDone(s, dst, src, virt, size, off, mid, after)
  {
    hide Moved, Lookup, DirOk, Stretch;
  }

  /** What a round finds: data frames on both sides, and a table or a frame for each of its windows. */
  lemma {:induction false} RoundCanStart(s: Sys, now: Sys, d: nat, dst: nat, src: nat, virt: nat, size: nat, off: nat,
                                         limit: nat)
    requires DirOk(s, dst) && DirOk(s, src) && Copyable(s, dst, src, virt, size, limit) && off < size
    requires virt + size <= WORD && PageAt(virt, off) < PAGES && IsTable(now, d) && NoNewFrames(s, now)
    requires Mapped(s, dst, virt, off, limit) && Mapped(s, src, virt, off, limit)
    requires forall i :: 0 <= i < off ==> WritableAt(s, dst, virt, i)
    requires Lookup(s, src, PageAt(virt, off)).Some?
    requires Lookup(s, dst, PageAt(virt, off)).Some? && Lookup(s, dst, PageAt(virt, off)).value.write
    requires |now.pool| >= |NeededFor(s, now, d, dst, src, virt, off, size)|
    ensures var f, g := Lookup(s, src, PageAt(virt, off)).value.frame, Lookup(s, dst, PageAt(virt, off)).value.frame;
            && DataFrame(s, f, limit) && DataFrame(s, g, limit)
            && HoldsData(now, f * PAGE_SZ) && HoldsData(now, g * PAGE_SZ)
            && (f != g ==>
                  && |now.pool| >= WindowTables(now, d, f, g)
                  && forall i :: i in TwoMissing(now, d, f, g) ==> i in NeededFor(s, now, d, dst, src, virt, off, size))
  {
    var f, g := Lookup(s, src, PageAt(virt, off)).value.frame, Lookup(s, dst, PageAt(virt, off)).value.frame;
    hide NeededFor, Copyable, Lookup, DirOk, TwoMissing, WindowTables;
    FrameOfRound(s, src, dst, src, virt, size, off, limit);
    FrameOfRound(s, dst, dst, src, virt, size, off, limit);
    RoundReaches(s, dst, src, virt, size, off, limit);
    if f != g { NeededNow(s, now, d, dst, src, virt, off, size, f, g); }
    assert f * PAGE_SZ / PAGE_SZ == f && g * PAGE_SZ / PAGE_SZ == g;
  }

  lemma {:induction false} RoundReaches(s: Sys, dst: nat, src: nat, virt: nat, size: nat, off: nat, limit: nat)
    requires DirOk(s, dst) && DirOk(s, src) && off < size && virt + size <= WORD && PageAt(virt, off) < PAGES
    requires Mapped(s, src, virt, off, limit) && forall i :: 0 <= i < off ==> WritableAt(s, dst, virt, i)
    requires Lookup(s, src, PageAt(virt, off)).Some?
    requires Lookup(s, dst, PageAt(virt, off)).Some? && Lookup(s, dst, PageAt(virt, off)).value.write
    ensures CopyReaches(s, dst, src, virt, off)
    ensures FrameAt(s, src, virt, off, Lookup(s, src, PageAt(virt, off)).value.frame)
    ensures FrameAt(s, dst, virt, off, Lookup(s, dst, PageAt(virt, off)).value.frame)
  {
    ChunkPlaces(s, src, virt, off, size);
    ChunkPlaces(s, dst, virt, off, size);
    hide Lookup;
  }

  lemma {:induction false} CopyableFits(s: Sys, dst: nat, src: nat, virt: nat, size: nat, off: nat, limit: nat)
    requires DirOk(s, dst) && DirOk(s, src) && Copyable(s, dst, src, virt, size, limit) && off < size
    ensures virt + size <= WORD && PageAt(virt, off) < PAGES
  {
  }

  /** What was copied is in the destination, and still in the source. */
  lemma {:induction false} BothHold(s: Sys, dst: nat, src: nat, virt: nat, size: nat, off: nat, before: seq<byte>,
                                    after: seq<byte>)
    requires DirOk(s, dst) && DirOk(s, src) && Copyable(s, dst, src, virt, size, |before|) && off <= size
    requires CopiedTo(s, dst, src, virt, off, before, after)
    ensures var to, from := Places(s, dst, virt, off, |before|), Places(s, src, virt, off, |before|);
            |after| == |before| && forall i :: 0 <= i < off ==> after[to[i]] == after[from[i]] == before[from[i]]
  {
    var to, from := Places(s, dst, virt, off, |before|), Places(s, src, virt, off, |before|);
    hide At;
    forall i | 0 <= i < off
      ensures after[to[i]] == after[from[i]] == before[from[i]]
    {
      if from[i] in to {
        var j :| 0 <= j < off && to[j] == from[i];
        assert At(s, dst, virt, j) == Some(to[j]) && At(s, src, virt, i) == Some(from[i]);
        assert i == j;
      }
    }
  }

  lemma {:induction false} CopyStarts(m: Machine, dst: nat, src: nat, virt: nat, size: nat)
    requires m.Valid() && dst in m.dirs && src in m.dirs
    requires (forall e :: e in m.dirs ==> DirOk(m.sys, e)) && Copyable(m.sys, dst, src, virt, size, m.ram.Length)
    requires IsTable(m.sys, m.cr3) && |m.sys.pool| >= |NeededFor(m.sys, m.sys, m.cr3, dst, src, virt, 0, size)|
    ensures Given(m, m.sys, dst, src, virt, size) && Reached(m, m.sys, dst, src, virt, size, 0, m.ram[..])
  {
    hide NeededFor, Lookup;
    NothingMoved(m.ram[..]);
    assert Places(m.sys, dst, virt, 0, m.ram.Length) == [] && Places(m.sys, src, virt, 0, m.ram.Length) == [];
  }

  /**
    mmu_copy_data for equal addresses in both spaces.  `done` counts the bytes before the first
    page that cannot be copied; afterwards the destination holds the source's bytes there, the
    source still does, nothing else has changed, and every lookup of every space is as before.
    */
  method CopyData(m: Machine, dst: nat, src: nat, virt: nat, size: nat) returns (ok: bool, ghost done: nat)
    requires m.Valid() && dst in m.dirs && src in m.dirs
    requires (forall e :: e in m.dirs ==> DirOk(m.sys, e)) && Copyable(m.sys, dst, src, virt, size, m.ram.Length)
    requires IsTable(m.sys, m.cr3) && |m.sys.pool| >= |NeededFor(m.sys, m.sys, m.cr3, dst, src, virt, 0, size)|
    modifies m`sys, m.ram
    ensures m.Valid() && SameView(old(m.sys), m.sys, m.dirs) && NoNewFrames(old(m.sys), m.sys)
    ensures done <= size && (ok <==> done == size) &&
            CopiedTo(old(m.sys), dst, src, virt, done, old(m.ram[..]), m.ram[..])
    ensures !ok ==> !Possible(old(m.sys), dst, src, virt, done)
    ensures var to := Places(old(m.sys), dst, virt, done, m.ram.Length);
            var from := Places(old(m.sys), src, virt, done, m.ram.Length);
            forall i :: 0 <= i < done ==> m.ram[to[i]] == m.ram[from[i]] == old(m.ram[..])[from[i]]
  {
    hide Moved, Stretch, NoNewFrames, CopiedTo, Copyable, NeededFor, SameView, DirOk, At, Lookup, Mapped, Places,
        Possible;
    ghost var s, before := m.sys, m.ram[..];
    CopyStarts(m, dst, src, virt, size);
    var off := 0;
    while off < size
      invariant off <= size && Given(m, s, dst, src, virt, size)
      invariant Reached(m, s, dst, src, virt, size, off, before)
    {
      var more, n := CopyOnce(m, dst, src, virt, size, off, s, before);
      if !more {
        BothHold(s, dst, src, virt, size, off, before, m.ram[..]);
        return false, off;
      }
      off := off + n;
    }
    BothHold(s, dst, src, virt, size, off, before, m.ram[..]);
    return true, size;
  }
}
