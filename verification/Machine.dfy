/**
  Copying between address spaces: the kernel maps one foreign frame at a time
  into the table it is running on, copies through it, and puts the table back.
  */
module Machine {
  import opened Options
  import opened Arith
  import opened Bytes
  import opened PageTables
  import opened PageMaps

  /** The physical address behind a virtual one. */
  function Phys(s: Sys, d: nat, va: nat): Option<nat>
    requires DirOk(s, d) && va < WORD
  {
    match Lookup(s, d, va / PAGE_SZ)
    case None => None
    case Some(m) => Some(m.frame * PAGE_SZ + va % PAGE_SZ)
  }

  /** The physical address of byte `i` of a buffer at `va`. */
  function At(s: Sys, d: nat, va: nat, i: nat): Option<nat>
    requires DirOk(s, d) && va + i < WORD
  {
    Phys(s, d, va + i)
  }

  /** The page of byte `i` of a buffer at `va`. */
  function PageAt(va: nat, i: nat): nat {
    (va + i) / PAGE_SZ
  }

  predicate WritableAt(s: Sys, d: nat, va: nat, i: nat)
    requires DirOk(s, d) && va + i < WORD
  {
    var m := Lookup(s, d, PageAt(va, i));
    m.Some? && m.value.write
  }

  /** Bytes `0` to `n` of a buffer are mapped writable. */
  ghost predicate AllWritable(s: Sys, d: nat, va: nat, n: nat)
    requires DirOk(s, d)
  {
    va + n <= WORD && forall i :: 0 <= i < n ==> WritableAt(s, d, va, i)
  }

  /** Every lookup of every space is the same in both states. */
  ghost predicate SameView(s: Sys, s': Sys, dirs: set<nat>)
    requires forall e :: e in dirs ==> DirOk(s, e) && DirOk(s', e)
  {
    forall e, p :: e in dirs && 0 <= p < PAGES ==> Lookup(s', e, p) == Lookup(s, e, p)
  }

  lemma {:induction false} SameViewOn(s: Sys, s1: Sys, s2: Sys, dirs: set<nat>)
    requires forall e :: e in dirs ==> DirOk(s, e) && DirOk(s1, e) && DirOk(s2, e)
    requires SameView(s, s1, dirs) && SameView(s1, s2, dirs) && NoNewFrames(s, s1) && NoNewFrames(s1, s2)
    ensures SameView(s, s2, dirs) && NoNewFrames(s, s2)
  {
  }

  lemma {:induction false} SameAt(s: Sys, s': Sys, dirs: set<nat>, d: nat, va: nat, i: nat)
    requires forall e :: e in dirs ==> DirOk(s, e) && DirOk(s', e)
    requires SameView(s, s', dirs) && d in dirs && va + i < WORD
    ensures At(s', d, va, i) == At(s, d, va, i) && (WritableAt(s', d, va, i) <==> WritableAt(s, d, va, i))
  {
  }

  /** Byte `i` from the middle of a buffer. */
  lemma {:induction false} AtShift(s: Sys, d: nat, va: nat, off: nat, i: nat)
    requires DirOk(s, d) && va + off + i < WORD
    ensures At(s, d, va + off, i) == At(s, d, va, off + i) && PageAt(va + off, i) == PageAt(va, off + i)
  {
  }

  /** Pages that bytes `off` to `size` of a buffer at `va` lie in. */
  function PagesLeft(va: nat, off: nat, size: nat): nat
    requires off <= size
  {
    if off == size then 0 else (va + size - 1) / PAGE_SZ - (va + off) / PAGE_SZ + 1
  }

  /** Bytes copied in one round: up to the end of the data or of the page. */
  function Chunk(va: nat, off: nat, size: nat): (n: nat)
    requires off < size
    ensures 0 < n <= size - off && (va + off) % PAGE_SZ + n <= PAGE_SZ
    ensures off + n < size ==> (va + off) % PAGE_SZ + n == PAGE_SZ
  {
    var n := if size - off > PAGE_SZ then PAGE_SZ else size - off;
    if n + (va + off) % PAGE_SZ > PAGE_SZ then PAGE_SZ - (va + off) % PAGE_SZ else n
  }

  lemma {:induction false} ChunkEndsPage(va: nat, off: nat, size: nat)
    requires off < size
    ensures PagesLeft(va, off + Chunk(va, off, size), size) == PagesLeft(va, off, size) - 1
    ensures forall i :: off <= i < off + Chunk(va, off, size) ==> PageAt(va, i) == PageAt(va, off)
  {
  }

  /** Where the bytes of one round lie in the frame their page is mapped to. */
  lemma {:induction false} ChunkPlaces(s: Sys, d: nat, va: nat, off: nat, size: nat)
    requires DirOk(s, d) && off < size && va + size <= WORD
    requires Lookup(s, d, PageAt(va, off)).Some?
    ensures var m := Lookup(s, d, PageAt(va, off)).value;
            forall i :: off <= i < off + Chunk(va, off, size) ==>
              && At(s, d, va, i) == Some(m.frame * PAGE_SZ + (va + off) % PAGE_SZ + (i - off))
              && (WritableAt(s, d, va, i) <==> m.write)
  {
    var m := Lookup(s, d, PageAt(va, off)).value;
    ChunkEndsPage(va, off, size);
    forall i | off <= i < off + Chunk(va, off, size)
      ensures At(s, d, va, i) == Some(m.frame * PAGE_SZ + (va + off) % PAGE_SZ + (i - off))
      ensures WritableAt(s, d, va, i) <==> m.write
    {
      assert PageAt(va, i) == PageAt(va, off);
      assert (va + i) % PAGE_SZ == (va + off) % PAGE_SZ + (i - off);
    }
  }

  // ----- Places in memory, and moving bytes between them -----

  /** Bytes `0` to `n` of a buffer are mapped, inside memory of `limit` bytes. */
  ghost predicate Mapped(s: Sys, d: nat, va: nat, n: nat, limit: nat)
    requires DirOk(s, d)
  {
    va + n <= WORD && forall i :: 0 <= i < n ==> At(s, d, va, i).Some? && At(s, d, va, i).value < limit
  }

  /** The physical addresses of bytes `0` to `n` of a buffer. */
  ghost function Places(s: Sys, d: nat, va: nat, n: nat, limit: nat): (r: seq<nat>)
    requires DirOk(s, d) && Mapped(s, d, va, n, limit)
    ensures |r| == n && forall i :: 0 <= i < n ==> At(s, d, va, i) == Some(r[i]) && r[i] < limit
  {
    seq(n, i requires 0 <= i < n => At(s, d, va, i).value)
  }

  /** The places of one round continue those of the rounds before it. */
  lemma {:induction false} PlacesExtend(s: Sys, d: nat, va: nat, size: nat, off: nat, limit: nat)
    requires DirOk(s, d) && off < size && va + size <= WORD && Mapped(s, d, va, off, limit)
    requires Lookup(s, d, PageAt(va, off)).Some? && (Lookup(s, d, PageAt(va, off)).value.frame + 1) * PAGE_SZ <= limit
    ensures var m, n := Lookup(s, d, PageAt(va, off)).value, Chunk(va, off, size);
            && Mapped(s, d, va, off + n, limit)
            && Places(s, d, va, off + n, limit)[..off] == Places(s, d, va, off, limit)
            && Places(s, d, va, off + n, limit)[off..off + n] == Stretch(m.frame * PAGE_SZ + (va + off) % PAGE_SZ, n)
  {
    var m, n := Lookup(s, d, PageAt(va, off)).value, Chunk(va, off, size);
    var here := Stretch(m.frame * PAGE_SZ + (va + off) % PAGE_SZ, n);
    ChunkPlaces(s, d, va, off, size);
    hide At;
    forall i | off <= i < off + n
      ensures At(s, d, va, i) == Some(here[i - off]) && here[i - off] < limit
    {
    }
  }

  /** A list of places is `first`, then `n` more. */
  predicate Split(all: seq<nat>, off: nat, n: nat, first: seq<nat>, second: seq<nat>) {
    |all| == off + n && all[..off] == first && all[off..off + n] == second
  }

  predicate Distinct(a: seq<nat>) {
    forall i, j :: 0 <= i < j < |a| ==> a[i] != a[j]
  }

  predicate Disjoint(a: seq<nat>, b: seq<nat>) {
    forall i, j :: 0 <= i < |a| && 0 <= j < |b| ==> a[i] != b[j]
  }

  /** `after` is `before` with the bytes at `from` copied to `to`, and nothing else changed. */
  ghost predicate Moved(before: seq<byte>, after: seq<byte>, to: seq<nat>, from: seq<nat>) {
    && |before| == |after| && |to| == |from|
    && (forall i :: 0 <= i < |to| ==> to[i] < |before| && from[i] < |before| && after[to[i]] == before[from[i]])
    && (forall a :: 0 <= a < |before| && a !in to ==> after[a] == before[a])
  }

  /** Two moves one after the other, when the second neither reads nor writes what the first wrote. */
  lemma {:induction false} MovedOn(before: seq<byte>, mid: seq<byte>, after: seq<byte>, to: seq<nat>, from: seq<nat>,
                to': seq<nat>, from': seq<nat>)
    requires Moved(before, mid, to, from) && Moved(mid, after, to', from')
    requires Disjoint(to, to') && Disjoint(to, from')
    ensures Moved(before, after, to + to', from + from')
  {
    var t, f := to + to', from + from';
    forall i | 0 <= i < |t|
      ensures t[i] < |before| && f[i] < |before| && after[t[i]] == before[f[i]]
    {
      if i < |to| {
        assert to[i] !in to';
      } else {
        assert from'[i - |to|] !in to;
      }
    }
  }

  /** One more round of a copy between two lists of places. */
  lemma {:induction false} RoundMoved(before: seq<byte>, mid: seq<byte>, after: seq<byte>, to: seq<nat>,
                                      from: seq<nat>, off: nat, n: nat)
    requires off + n <= |to| && off + n <= |from|
    requires Moved(before, mid, to[..off], from[..off]) && Moved(mid, after, to[off..off + n], from[off..off + n])
    requires Distinct(to) && Disjoint(to, from)
    ensures Moved(before, after, to[..off + n], from[..off + n])
  {
    MovedOn(before, mid, after, to[..off], from[..off], to[off..off + n], from[off..off + n]);
    assert to[..off + n] == to[..off] + to[off..off + n];
    assert from[..off + n] == from[..off] + from[off..off + n];
  }

  /** The same with the places reached so far and those of the round given apart. */
  lemma {:induction false} WrittenOn(before: seq<byte>, mid: seq<byte>, after: seq<byte>, to: seq<nat>,
                                     from: seq<nat>, off: nat, n: nat,
                                     first: seq<nat>, second: seq<nat>)
    requires Split(to, off, n, first, second) && off + n <= |from|
    requires Moved(before, mid, first, from[..off]) && Moved(mid, after, second, from[off..off + n])
    requires Distinct(to) && Disjoint(to, from)
    ensures Moved(before, after, to, from[..off + n])
  {
    hide Moved, Distinct, Disjoint;
    assert to[..off + n] == to;
    RoundMoved(before, mid, after, to, from, off, n);
  }

  lemma {:induction false} ReadOn(before: seq<byte>, mid: seq<byte>, after: seq<byte>, to: seq<nat>, from: seq<nat>,
                                  off: nat, n: nat,
                                  first: seq<nat>, second: seq<nat>)
    requires Split(from, off, n, first, second) && off + n <= |to|
    requires Moved(before, mid, to[..off], first) && Moved(mid, after, to[off..off + n], second)
    requires Distinct(to) && Disjoint(to, from)
    ensures Moved(before, after, to[..off + n], from)
  {
    hide Moved, Distinct, Disjoint;
    assert from[..off + n] == from;
    RoundMoved(before, mid, after, to, from, off, n);
  }

  lemma {:induction false} SliceDistinct(a: seq<nat>, off: nat, n: nat)
    requires Distinct(a) && off + n <= |a|
    ensures Distinct(a[off..off + n])
  {
  }

  lemma {:induction false} NothingMoved(memory: seq<byte>)
    ensures Moved(memory, memory, [], [])
  {
  }

  lemma {:induction false} OneMoved(mid: seq<byte>, to: seq<nat>, from: seq<nat>, k: nat)
    requires k < |to| == |from| && to[k] < |mid| && from[k] < |mid|
    ensures Moved(mid, mid[to[k] := mid[from[k]]], to[k..k + 1], from[k..k + 1])
  {
  }

  function Stretch(a: nat, n: nat): (r: seq<nat>)
    ensures |r| == n && forall i :: 0 <= i < n ==> r[i] == a + i
  {
    seq(n, i requires 0 <= i => a + i)
  }

  // ----- Memory that holds data -----

  /** The byte is neither in a page table nor in a frame that waits in the heap to become one. */
  predicate HoldsData(s: Sys, a: nat) {
    a / PAGE_SZ !in s.pages && a / PAGE_SZ !in s.pool
  }

  predicate AllData(s: Sys, places: seq<nat>) {
    forall i :: 0 <= i < |places| ==> HoldsData(s, places[i])
  }

  lemma {:induction false} DataStays(s: Sys, s': Sys, places: seq<nat>)
    requires NoNewFrames(s, s') && AllData(s, places)
    ensures AllData(s', places)
  {
  }

  lemma {:induction false} FrameHoldsData(s: Sys, frame: nat, off: nat, n: nat)
    requires frame !in s.pages && frame !in s.pool && off + n <= PAGE_SZ
    ensures AllData(s, Stretch(frame * PAGE_SZ + off, n))
  {
    var places := Stretch(frame * PAGE_SZ + off, n);
    forall i | 0 <= i < |places|
      ensures HoldsData(s, places[i])
    {
      assert places[i] / PAGE_SZ == frame;
    }
  }

  // ----- Tables that windows need -----

  /** A copy gets as far as byte `j`: every page up to it is mapped, and writable if it is to be written. */
  ghost predicate Reaches(s: Sys, table: nat, virt: nat, j: nat, write: bool)
    requires DirOk(s, table) && virt + j < WORD
  {
    forall k :: 0 <= k <= j ==> At(s, table, virt, k).Some? && (write ==> WritableAt(s, table, virt, k))
  }

  /** The copy of bytes `off` to `size` opens a window on a page behind directory entry `i`. */
  ghost predicate Wants(s: Sys, table: nat, virt: nat, off: nat, size: nat, write: bool, i: nat)
    requires DirOk(s, table) && virt + size <= WORD
  {
    exists j :: off <= j < size && Reaches(s, table, virt, j, write) &&
                At(s, table, virt, j).Some? && DirIndex(At(s, table, virt, j).value / PAGE_SZ) == i
  }

  /** The entries among those that directory `d` has no table behind. */
  ghost function Needed(s: Sys, now: Sys, d: nat, table: nat, virt: nat, off: nat, size: nat, write: bool): set<nat>
    requires DirOk(s, table) && virt + size <= WORD && IsTable(now, d)
  {
    set i: nat | i < ENTRIES && Table(now, d, i).None? && Wants(s, table, virt, off, size, write, i)
  }

  lemma {:induction false} NeededHere(s: Sys, now: Sys, d: nat, table: nat, virt: nat, off: nat, size: nat, write: bool,
                                      frame: nat)
    requires DirOk(s, table) && virt + size <= WORD && IsTable(now, d) && off < size && frame < PAGES
    requires Reaches(s, table, virt, off, write)
    requires At(s, table, virt, off).Some? && At(s, table, virt, off).value / PAGE_SZ == frame
    ensures Table(now, d, DirIndex(frame)).None? ==>
              DirIndex(frame) in Needed(s, now, d, table, virt, off, size, write) &&
              |Needed(s, now, d, table, virt, off, size, write)| > 0
  {
  }

  /** After a round on `frame` fewer are needed, by the one it made. */
  lemma {:induction false} NeededNext(s: Sys, now: Sys, next: Sys, d: nat, table: nat, virt: nat, off: nat, end: nat,
                                      size: nat, write: bool, frame: nat)
    requires DirOk(s, table) && virt + size <= WORD && IsTable(now, d) && IsTable(next, d) && off <= end
    requires frame < PAGES && OneTableMore(now, next, d, DirIndex(frame))
    requires Table(now, d, DirIndex(frame)).None? ==>
             DirIndex(frame) in Needed(s, now, d, table, virt, off, size, write)
    ensures |Needed(s, next, d, table, virt, end, size, write)| <=
            |Needed(s, now, d, table, virt, off, size, write)| -
            (if Table(now, d, DirIndex(frame)).None? then 1 else 0)
  {
    var was, left := Needed(s, now, d, table, virt, off, size, write),
        Needed(s, next, d, table, virt, end, size, write);
    forall i | i in left
      ensures i in was && i != DirIndex(frame)
    {
      var j :| end <= j < size && Reaches(s, table, virt, j, write) &&
               At(s, table, virt, j).Some? && DirIndex(At(s, table, virt, j).value / PAGE_SZ) == i;
    }
    if Table(now, d, DirIndex(frame)).None? {
      SubsetSize(left, was - {DirIndex(frame)});
    } else {
      SubsetSize(left, was);
    }
  }

  /** Windows that have been opened have their tables. */
  lemma {:induction false} NeededDone(s: Sys, now: Sys, next: Sys, d: nat, table: nat, virt: nat, off: nat, end: nat,
                                      write: bool, frame: nat)
    requires DirOk(s, table) && virt + end <= WORD && IsTable(now, d) && IsTable(next, d) && off <= end
    requires frame < PAGES && OneTableMore(now, next, d, DirIndex(frame))
    requires forall j :: off <= j < end ==>
             At(s, table, virt, j).Some? && At(s, table, virt, j).value / PAGE_SZ == frame
    requires Needed(s, now, d, table, virt, 0, off, write) == {}
    ensures Needed(s, next, d, table, virt, 0, end, write) == {}
  {
    hide At;
    forall i: nat | i < ENTRIES && Wants(s, table, virt, 0, end, write, i)
      ensures Table(next, d, i).Some?
    {
      var j :| 0 <= j < end && Reaches(s, table, virt, j, write) &&
               At(s, table, virt, j).Some? && DirIndex(At(s, table, virt, j).value / PAGE_SZ) == i;
      if j < off { assert i !in Needed(s, now, d, table, virt, 0, off, write); }
    }
  }

  lemma {:induction false} NeededNone(s: Sys, now: Sys, d: nat, table: nat, virt: nat, size: nat, write: bool)
    requires DirOk(s, table) && virt + size <= WORD && IsTable(now, d)
    ensures Needed(s, now, d, table, virt, 0, 0, write) == {}
  {
  }

  lemma {:induction false} SubsetSize(a: set<nat>, b: set<nat>)
    requires a <= b
    ensures |a| <= |b|
  {
    assert b == a + (b - a);
  }

  class Machine {
    var sys: Sys
    var cr3: nat
    /** The address spaces in existence. */
    ghost var dirs: set<nat>
    const ram: array<byte>

    constructor (s: Sys, current: nat, memory: array<byte>, ghost spaces: set<nat>)
      requires Ready(s, spaces, current)
      ensures Valid() && sys == s && cr3 == current && ram == memory && dirs == spaces
    {
      sys, cr3, ram, dirs := s, current, memory, spaces;
    }

    ghost predicate Valid()
      reads this
    {
      Ready(sys, dirs, cr3) && forall e :: e in dirs ==> DirOk(sys, e)
    }

    /** memcpy through the current table, whose addresses `to` and `from` are what it goes through. */
    method Memcpy(dst: nat, src: nat, n: nat, ghost to: seq<nat>, ghost from: seq<nat>)
      requires Valid() && dst + n <= WORD && src + n <= WORD && |to| == |from| == n
      requires forall i :: 0 <= i < n ==> At(sys, cr3, dst, i) == Some(to[i]) && WritableAt(sys, cr3, dst, i)
      requires forall i :: 0 <= i < n ==> At(sys, cr3, src, i) == Some(from[i])
      requires forall i :: 0 <= i < n ==> to[i] < ram.Length && from[i] < ram.Length
      requires Distinct(to) && Disjoint(to, from) && AllData(sys, to) && AllData(sys, from)
      modifies ram
      ensures Moved(old(ram[..]), ram[..], to, from)
    {
      assert DirOk(sys, cr3);
      hide At, DirOk, Ready, Lookup, WritableAt, Distinct, Disjoint, Moved, AllData;
      NothingMoved(ram[..]);
      for k := 0 to n
        invariant Moved(old(ram[..]), ram[..], to[..k], from[..k])
      {
        var d, f := At(sys, cr3, dst, k).value, At(sys, cr3, src, k).value;
        ghost var mid := ram[..];
        ram[d] := ram[f];
        OneMoved(mid, to, from, k);
        assert ram[..] == mid[to[k] := mid[from[k]]];
        RoundMoved(old(ram[..]), mid, ram[..], to, from, k, 1);
      }
      assert to[..n] == to && from[..n] == from;
    }

    // ----- One frame seen through a window -----

    /** mmu_map_save, and mmu_map of one page onto itself. */
    method OpenWindow(frame: nat, write: bool) returns (saved: Option<Mapping>)
      requires Valid() && frame < KERNEL_PAGE && CanMap(sys, cr3, frame)
      modifies this`sys
      ensures Valid() && |sys.pool| == |old(sys.pool)| - (if Table(old(sys), cr3, DirIndex(frame)).Some? then 0 else 1)
      ensures OneTableMore(old(sys), sys, cr3, DirIndex(frame))
      ensures saved == Lookup(old(sys), cr3, frame)
      ensures Lookup(sys, cr3, frame) == Some(Mapping(frame, write, false))
      ensures SameLookupsExcept(old(sys), sys, dirs, cr3, frame, frame + 1)
      ensures NoNewFrames(old(sys), sys)
    {
      saved := Lookup(sys, cr3, frame);
      MapUserPage(sys, dirs, cr3, frame, frame, write, true);
      sys := MapPage(sys, cr3, frame, frame, write, true);
    }

    /** mmu_map_restore, or mmu_unmap when nothing was mapped before. */
    method CloseWindow(frame: nat, saved: Option<Mapping>)
      requires Valid() && frame < KERNEL_PAGE && (saved.Some? ==> CanMap(sys, cr3, frame))
      modifies this`sys
      ensures Valid()
      ensures Table(old(sys), cr3, DirIndex(frame)).Some? ==>
                |sys.pool| == |old(sys.pool)| && OneTableMore(old(sys), sys, cr3, DirIndex(frame))
      ensures Lookup(sys, cr3, frame) == saved
      ensures SameLookupsExcept(old(sys), sys, dirs, cr3, frame, frame + 1)
      ensures NoNewFrames(old(sys), sys)
    {
      match saved
      case Some(m) =>
        MapUserPage(sys, dirs, cr3, frame, m.frame, m.write, !m.kernel);
        sys := MapPage(sys, cr3, frame, m.frame, m.write, !m.kernel);
      case None =>
        UnmapUserPage(sys, dirs, cr3, frame);
        sys := UnmapPage(sys, cr3, frame);
    }

    /** A buffer of `n` bytes at `va` avoids the window page, both as addresses and as memory. */
    ghost predicate ClearOf(s: Sys, va: nat, n: nat, frame: nat, places: seq<nat>)
      requires DirOk(s, cr3)
      reads this`cr3
    {
      && va + n <= WORD && |places| == n
      && forall i :: 0 <= i < n ==>
           At(s, cr3, va, i) == Some(places[i]) && places[i] < ram.Length && places[i] / PAGE_SZ != frame &&
           PageAt(va, i) != frame
    }

    lemma {:induction false} ThroughWindow(s: Sys, at: nat, frame: nat, n: nat, write: bool)
      requires DirOk(s, cr3) && frame < KERNEL_PAGE && frame * PAGE_SZ <= at && at + n <= (frame + 1) * PAGE_SZ
      requires Lookup(s, cr3, frame) == Some(Mapping(frame, write, false))
      ensures forall i :: 0 <= i < n ==>
              At(s, cr3, at, i) == Some(Stretch(at, n)[i]) && (WritableAt(s, cr3, at, i) <==> write)
    {
      forall i | 0 <= i < n
        ensures At(s, cr3, at, i) == Some(at + i) && (WritableAt(s, cr3, at, i) <==> write)
      {
        assert PageAt(at, i) == frame;
      }
    }

    lemma {:induction false} UnderWindow(s: Sys, s': Sys, va: nat, n: nat, frame: nat, places: seq<nat>)
      requires (forall e :: e in dirs ==> DirOk(s, e) && DirOk(s', e)) && cr3 in dirs
      requires SameLookupsExcept(s, s', dirs, cr3, frame, frame + 1)
      requires ClearOf(s, va, n, frame, places)
      ensures ClearOf(s', va, n, frame, places)
      ensures forall i :: 0 <= i < n ==> (WritableAt(s', cr3, va, i) <==> WritableAt(s, cr3, va, i))
    {
      forall i | 0 <= i < n
        ensures At(s', cr3, va, i) == At(s, cr3, va, i)
        ensures WritableAt(s', cr3, va, i) <==> WritableAt(s, cr3, va, i)
      {
        assert PageAt(va, i) != frame;
      }
    }

    /** What the window changed is back when it is closed. */
    lemma {:induction false} WindowClosed(s: Sys, s1: Sys, s2: Sys, frame: nat)
      requires forall e :: e in dirs ==> DirOk(s, e) && DirOk(s1, e) && DirOk(s2, e)
      requires cr3 in dirs && frame < PAGES
      requires SameLookupsExcept(s, s1, dirs, cr3, frame, frame + 1) &&
               SameLookupsExcept(s1, s2, dirs, cr3, frame, frame + 1)
      requires Lookup(s2, cr3, frame) == Lookup(s, cr3, frame)
      requires NoNewFrames(s, s1) && NoNewFrames(s1, s2)
      ensures SameView(s, s2, dirs) && NoNewFrames(s, s2)
    {
      hide Lookup, DirOk;
    }

    /**
      Through the window a byte of the buffer still leads to its own memory exactly when it is not on
      the window page, or lay in the window's frame all along.
      */
    lemma {:induction false} WindowHidesIff(s: Sys, s': Sys, va: nat, i: nat, frame: nat, write: bool)
      requires (forall e :: e in dirs ==> DirOk(s, e) && DirOk(s', e)) && cr3 in dirs && frame < PAGES
      requires SameLookupsExcept(s, s', dirs, cr3, frame, frame + 1)
      requires Lookup(s', cr3, frame) == Some(Mapping(frame, write, false))
      requires va + i < WORD && At(s, cr3, va, i).Some?
      ensures At(s', cr3, va, i) == At(s, cr3, va, i) <==>
              PageAt(va, i) != frame || At(s, cr3, va, i).value / PAGE_SZ == frame
    {
      hide Lookup, DirOk;
      var page, r := PageAt(va, i), (va + i) % PAGE_SZ;
      if page != frame {
        assert Lookup(s', cr3, page) == Lookup(s, cr3, page);
      } else {
        var f := Lookup(s, cr3, page).value.frame;
        assert At(s, cr3, va, i) == Some(f * PAGE_SZ + r) && At(s', cr3, va, i) == Some(frame * PAGE_SZ + r);
        DivModUnique(f * PAGE_SZ + r, f, PAGE_SZ, r);
      }
    }

    lemma {:induction false} WindowApart(at: nat, frame: nat, n: nat, places: seq<nat>)
      requires frame * PAGE_SZ <= at && at + n <= (frame + 1) * PAGE_SZ
      requires forall i :: 0 <= i < |places| ==> places[i] / PAGE_SZ != frame
      ensures Disjoint(Stretch(at, n), places) && Disjoint(places, Stretch(at, n)) && Distinct(Stretch(at, n))
    {
      forall i | 0 <= i < n
        ensures Stretch(at, n)[i] / PAGE_SZ == frame
      {
      }
    }

    /** One round of mmu_write_data: `n` bytes of the buffer at `saddr` into a frame. */
    method WriteFrame(frame: nat, off: nat, saddr: nat, n: nat, ghost from: seq<nat>)
      requires Valid() && frame < KERNEL_PAGE && off + n <= PAGE_SZ && CanMap(sys, cr3, frame)
      requires (frame + 1) * PAGE_SZ <= ram.Length
      requires ClearOf(sys, saddr, n, frame, from) && AllData(sys, from) && HoldsData(sys, frame * PAGE_SZ)
      modifies this`sys, ram
      ensures Valid() && OneTableMore(old(sys), sys, cr3, DirIndex(frame))
      ensures |sys.pool| == |old(sys.pool)| - (if Table(old(sys), cr3, DirIndex(frame)).Some? then 0 else 1)
      ensures SameView(old(sys), sys, dirs) && NoNewFrames(old(sys), sys)
      ensures Moved(old(ram[..]), ram[..], Stretch(frame * PAGE_SZ + off, n), from)
    {
      hide SameView, SameLookupsExcept, NoNewFrames, Moved, Lookup, Disjoint, Distinct, At, WritableAt, AllData;
      ghost var s := sys;
      var at := frame * PAGE_SZ + off;
      FrameHoldsData(s, frame, off, n);
      var saved := OpenWindow(frame, true);
      ThroughWindow(sys, at, frame, n, true);
      UnderWindow(s, sys, saddr, n, frame, from);
      WindowApart(at, frame, n, from);
      DataStays(s, sys, from);
      DataStays(s, sys, Stretch(at, n));
      Memcpy(at, saddr, n, Stretch(at, n), from);
      ghost var s1 := sys;
      CloseWindow(frame, saved);
      WindowClosed(s, s1, sys, frame);
    }

    /** One round of mmu_read_data: `n` bytes of a frame into the buffer at `daddr`. */
    method ReadFrame(frame: nat, off: nat, daddr: nat, n: nat, ghost to: seq<nat>)
      requires Valid() && frame < KERNEL_PAGE && off + n <= PAGE_SZ && CanMap(sys, cr3, frame)
      requires (frame + 1) * PAGE_SZ <= ram.Length
      requires ClearOf(sys, daddr, n, frame, to) && Distinct(to) && AllWritable(sys, cr3, daddr, n)
      requires AllData(sys, to) && HoldsData(sys, frame * PAGE_SZ)
      modifies this`sys, ram
      ensures Valid() && OneTableMore(old(sys), sys, cr3, DirIndex(frame))
      ensures |sys.pool| == |old(sys.pool)| - (if Table(old(sys), cr3, DirIndex(frame)).Some? then 0 else 1)
      ensures SameView(old(sys), sys, dirs) && NoNewFrames(old(sys), sys)
      ensures Moved(old(ram[..]), ram[..], to, Stretch(frame * PAGE_SZ + off, n))
    {
      hide SameView, SameLookupsExcept, NoNewFrames, Moved, Lookup, Disjoint, Distinct, At, WritableAt, AllData;
      ghost var s := sys;
      var at := frame * PAGE_SZ + off;
      FrameHoldsData(s, frame, off, n);
      var saved := OpenWindow(frame, true);
      ThroughWindow(sys, at, frame, n, true);
      UnderWindow(s, sys, daddr, n, frame, to);
      WindowApart(at, frame, n, to);
      DataStays(s, sys, to);
      DataStays(s, sys, Stretch(at, n));
      Memcpy(daddr, at, n, to, Stretch(at, n));
      ghost var s1 := sys;
      CloseWindow(frame, saved);
      WindowClosed(s, s1, sys, frame);
    }
  
    // ----- mmu_write_data and mmu_read_data -----

    /** The frame shown in the window for byte `i`, if its page is mapped. */
    ghost predicate ShownAt(s: Sys, table: nat, virt: nat, i: nat, frame: nat)
      requires DirOk(s, table) && virt + i < WORD
    {
      At(s, table, virt, i).Some? && At(s, table, virt, i).value / PAGE_SZ == frame
    }

    /**
      What the two calls may assume of their arguments.  Pages at `virt` that `table` maps lead to
      distinct frames below KERNEL_OFFSET that hold no page table and are not waiting in the heap.
      The buffer at `buff` is mapped in the table in use to distinct places, in frames of the same kind
      that are none of these.  While a page of the range is shown in its window, the bytes of the
      buffer that go with it are not on the window page.
      */
    ghost predicate Foreign(s: Sys, table: nat, virt: nat, buff: nat, size: nat)
      requires DirOk(s, table) && DirOk(s, cr3)
      reads this`cr3
    {
      && virt + size <= WORD && Mapped(s, cr3, buff, size, ram.Length)
      && Distinct(Places(s, cr3, buff, size, ram.Length)) && AllData(s, Places(s, cr3, buff, size, ram.Length))
      && (forall i, f: nat :: 0 <= i < size && ShownAt(s, table, virt, i, f) ==>
            f < KERNEL_PAGE && (f + 1) * PAGE_SZ <= ram.Length && f !in s.pages && f !in s.pool)
      && (forall i, j :: 0 <= i < j < size && At(s, table, virt, i).Some? ==>
            At(s, table, virt, i) != At(s, table, virt, j))
      && (forall i, f: nat, j :: 0 <= i < size && 0 <= j < size && ShownAt(s, table, virt, i, f) ==>
            Places(s, cr3, buff, size, ram.Length)[j] / PAGE_SZ != f &&
            (PageAt(virt, i) == PageAt(virt, j) ==> PageAt(buff, j) != f))
    }

    /** Bytes `0` to `n` at `virt` are mapped writable. */
    ghost predicate Done(s: Sys, table: nat, virt: nat, n: nat)
      requires DirOk(s, table)
    {
      Mapped(s, table, virt, n, ram.Length) && forall i :: 0 <= i < n ==> WritableAt(s, table, virt, i)
    }

    /** The frame a round works on is a good one, and not the buffer's. */
    lemma {:induction false} RoundFrame(s: Sys, table: nat, virt: nat, buff: nat, size: nat, off: nat)
      requires DirOk(s, table) && DirOk(s, cr3) && Foreign(s, table, virt, buff, size)
      requires off < size && Lookup(s, table, PageAt(virt, off)).Some?
      ensures var f, all := Lookup(s, table, PageAt(virt, off)).value.frame, Places(s, cr3, buff, size, ram.Length);
              && f < KERNEL_PAGE && (f + 1) * PAGE_SZ <= ram.Length && f !in s.pages && f !in s.pool
              && At(s, table, virt, off).Some? && At(s, table, virt, off).value / PAGE_SZ == f
              && (forall j :: 0 <= j < size ==> all[j] / PAGE_SZ != f)
              && (forall j :: off <= j < off + Chunk(virt, off, size) ==> PageAt(buff, j) != f)
    {
      var f := Lookup(s, table, PageAt(virt, off)).value.frame;
      ChunkPlaces(s, table, virt, off, size);
      ChunkEndsPage(virt, off, size);
      assert ShownAt(s, table, virt, off, f);
    }

    /** The buffer is clear of the frame a round works on. */
    lemma {:induction false} RoundIsClear(s: Sys, table: nat, virt: nat, buff: nat, size: nat, off: nat)
      requires Valid() && table in dirs && DirOk(s, table) && DirOk(s, cr3) && Foreign(s, table, virt, buff, size)
      requires off < size && Lookup(s, table, PageAt(virt, off)).Some?
      requires forall e :: e in dirs ==> DirOk(s, e)
      requires SameView(s, sys, dirs)
      ensures var f, n := Lookup(s, table, PageAt(virt, off)).value.frame, Chunk(virt, off, size);
              var all := Places(s, cr3, buff, size, ram.Length);
              ClearOf(sys, buff + off, n, f, all[off..off + n]) && f < KERNEL_PAGE && (f + 1) * PAGE_SZ <= ram.Length
    {
      hide Foreign, Distinct, ShownAt, WritableAt, At, PageAt, Lookup, DirOk, Mapped, Places, SameView, Chunk, AllData;
      ForeignFits(s, table, virt, buff, size, off);
      RoundFrame(s, table, virt, buff, size, off);
      var f, n := Lookup(s, table, PageAt(virt, off)).value.frame, Chunk(virt, off, size);
      var all := Places(s, cr3, buff, size, ram.Length);
      var part := all[off..off + n];
      forall i | 0 <= i < n
        ensures At(sys, cr3, buff + off, i) == Some(part[i]) && part[i] < ram.Length
        ensures part[i] / PAGE_SZ != f && PageAt(buff + off, i) != f
      {
        assert part[i] == all[off + i];
        BufferByte(s, buff, size, off, i);
        assert PageAt(buff, off + i) != f && all[off + i] / PAGE_SZ != f;
      }
    }

    /** A byte of the buffer is where it was. */
    lemma {:induction false} BufferByte(s: Sys, buff: nat, size: nat, off: nat, i: nat)
      requires Valid() && (forall e :: e in dirs ==> DirOk(s, e)) && SameView(s, sys, dirs)
      requires off + i < size && Mapped(s, cr3, buff, size, ram.Length)
      ensures buff + off + i < WORD
      ensures At(sys, cr3, buff + off, i) == Some(Places(s, cr3, buff, size, ram.Length)[off + i])
      ensures PageAt(buff + off, i) == PageAt(buff, off + i)
    {
      hide At, Lookup, PageAt, SameView, Places;
      AtShift(s, cr3, buff, off, i);
      SameAt(s, sys, dirs, cr3, buff + off, i);
    }

    /** The places of one round continue those of the rounds before it. */
    lemma {:induction false} RoundExtends(s: Sys, table: nat, virt: nat, buff: nat, size: nat, off: nat)
      requires DirOk(s, table) && DirOk(s, cr3) && Foreign(s, table, virt, buff, size)
      requires off < size && Mapped(s, table, virt, off, ram.Length) && Lookup(s, table, PageAt(virt, off)).Some?
      ensures var m, n := Lookup(s, table, PageAt(virt, off)).value, Chunk(virt, off, size);
              && Mapped(s, table, virt, off + n, ram.Length)
              && Places(s, table, virt, off + n, ram.Length)[..off] == Places(s, table, virt, off, ram.Length)
              && Places(s, table, virt, off + n, ram.Length)[off..off + n] ==
                 Stretch(m.frame * PAGE_SZ + (virt + off) % PAGE_SZ, n)
    {
      ChunkPlaces(s, table, virt, off, size);
      assert ShownAt(s, table, virt, off, Lookup(s, table, PageAt(virt, off)).value.frame);
      PlacesExtend(s, table, virt, size, off, ram.Length);
    }

    /** What has been reached through `table` is all distinct, and nowhere in the buffer. */
    lemma {:induction false} BufferApart(s: Sys, table: nat, virt: nat, buff: nat, size: nat, k: nat)
      requires DirOk(s, table) && DirOk(s, cr3) && Foreign(s, table, virt, buff, size)
      requires k <= size && Mapped(s, table, virt, k, ram.Length)
      ensures var there, all := Places(s, table, virt, k, ram.Length), Places(s, cr3, buff, size, ram.Length);
              Disjoint(there, all) && Disjoint(all, there) && Distinct(there) && Distinct(all)
    {
      var there, all := Places(s, table, virt, k, ram.Length), Places(s, cr3, buff, size, ram.Length);
      hide Mapped;
      forall i, j | 0 <= i < k && 0 <= j < size
        ensures there[i] != all[j]
      {
        assert ShownAt(s, table, virt, i, there[i] / PAGE_SZ);
      }
      assert forall i :: 0 <= i < k ==> At(s, table, virt, i).Some?;
    }

    /** The places of a whole round: those through the table, and those of the buffer. */
    lemma {:induction false} RoundPlaces(s: Sys, table: nat, virt: nat, buff: nat, size: nat, off: nat)
        returns (there: seq<nat>, all: seq<nat>)
      requires DirOk(s, table) && DirOk(s, cr3) && Foreign(s, table, virt, buff, size) && off < size
      requires Mapped(s, table, virt, off, ram.Length) && Lookup(s, table, PageAt(virt, off)).Some?
      ensures var n, m := Chunk(virt, off, size), Lookup(s, table, PageAt(virt, off)).value;
              && Mapped(s, table, virt, off + n, ram.Length)
              && there == Places(s, table, virt, off + n, ram.Length)
              && Split(there, off, n, Places(s, table, virt, off, ram.Length),
                       Stretch(m.frame * PAGE_SZ + (virt + off) % PAGE_SZ, n))
              && all == Places(s, cr3, buff, size, ram.Length)
              && Disjoint(there, all) && Disjoint(all, there) && Distinct(there) && Distinct(all)
    {
      var n := Chunk(virt, off, size);
      RoundExtends(s, table, virt, buff, size, off);
      BufferApart(s, table, virt, buff, size, off + n);
      there := Places(s, table, virt, off + n, ram.Length);
      all := Places(s, cr3, buff, size, ram.Length);
    }

    lemma {:induction false} ForeignFits(s: Sys, table: nat, virt: nat, buff: nat, size: nat, off: nat)
      requires DirOk(s, table) && DirOk(s, cr3) && Foreign(s, table, virt, buff, size) && off < size
      ensures virt + size <= WORD && PageAt(virt, off) < PAGES && Mapped(s, cr3, buff, size, ram.Length)
      ensures buff + size <= WORD && AllData(s, Places(s, cr3, buff, size, ram.Length))
    {
    }

    /** A round of writing carries the copy from `off` to the end of the chunk. */
    lemma {:induction false} WriteRound(s: Sys, table: nat, virt: nat, buff: nat, size: nat, off: nat,
                     before: seq<byte>, mid: seq<byte>, after: seq<byte>)
      requires DirOk(s, table) && DirOk(s, cr3) && Foreign(s, table, virt, buff, size) && off < size
      requires Done(s, table, virt, off)
      requires Lookup(s, table, PageAt(virt, off)).Some? && Lookup(s, table, PageAt(virt, off)).value.write
      requires var all := Places(s, cr3, buff, size, ram.Length);
               var n, m := Chunk(virt, off, size), Lookup(s, table, PageAt(virt, off)).value;
               && Moved(before, mid, Places(s, table, virt, off, ram.Length), all[..off])
               && Moved(mid, after, Stretch(m.frame * PAGE_SZ + (virt + off) % PAGE_SZ, n), all[off..off + n])
      ensures var all, n := Places(s, cr3, buff, size, ram.Length), Chunk(virt, off, size);
              && Done(s, table, virt, off + n)
              && Moved(before, after, Places(s, table, virt, off + n, ram.Length), all[..off + n])
    {
      hide Moved, Foreign, DirOk, At, Distinct, Disjoint, Chunk, Places, Stretch, Lookup, WritableAt, PageAt, Split;
      ForeignFits(s, table, virt, buff, size, off);
      ChunkPlaces(s, table, virt, off, size);
      var there, all := RoundPlaces(s, table, virt, buff, size, off);
      var m, n := Lookup(s, table, PageAt(virt, off)).value, Chunk(virt, off, size);
      WrittenOn(before, mid, after, there, all, off, n, Places(s, table, virt, off, ram.Length),
                Stretch(m.frame * PAGE_SZ + (virt + off) % PAGE_SZ, n));
    }

    /** The state a copy started from, with its arguments as they must be. */
    ghost predicate Given(s: Sys, table: nat, virt: nat, buff: nat, size: nat, write: bool)
      reads this`cr3, this`dirs
    {
      && (forall e :: e in dirs ==> DirOk(s, e)) && table in dirs && cr3 in dirs
      && Foreign(s, table, virt, buff, size) && |s.pool| >= |Needed(s, s, cr3, table, virt, 0, size, write)|
    }

    /** The heap still has the frames for the windows to come. */
    ghost predicate Lasts(s: Sys, table: nat, virt: nat, off: nat, size: nat, write: bool)
      requires DirOk(s, table) && DirOk(s, cr3) && virt + size <= WORD
      reads this
    {
      IsTable(sys, cr3) &&
      |sys.pool| - |Needed(s, sys, cr3, table, virt, off, size, write)| >=
      |s.pool| - |Needed(s, s, cr3, table, virt, 0, size, write)|
    }

    /** `off` bytes have been written, and every lookup is as it was in `s`. */
    ghost predicate Written(s: Sys, table: nat, virt: nat, buff: nat, size: nat, off: nat, before: seq<byte>)
      requires Given(s, table, virt, buff, size, true)
      reads this, ram
    {
      && Valid() && off <= size && SameView(s, sys, dirs) && NoNewFrames(s, sys)
      && Lasts(s, table, virt, off, size, true) && Needed(s, sys, cr3, table, virt, 0, off, true) == {}
      && Done(s, table, virt, off)
      && Moved(before, ram[..], Places(s, table, virt, off, ram.Length),
               Places(s, cr3, buff, size, ram.Length)[..off])
    }

    /** What a round finds: frames of data on both sides, and a table or a frame for its window. */
    lemma {:induction false} RoundIsReady(s: Sys, table: nat, virt: nat, buff: nat, size: nat, off: nat, write: bool)
      requires Valid() && Given(s, table, virt, buff, size, write) && off < size && virt + size <= WORD
      requires NoNewFrames(s, sys) && Lasts(s, table, virt, off, size, write)
      requires Mapped(s, table, virt, off, ram.Length) &&
               (forall k :: 0 <= k < off && write ==> WritableAt(s, table, virt, k))
      requires var m := Lookup(s, table, PageAt(virt, off)); m.Some? && (write ==> m.value.write)
      ensures Mapped(s, cr3, buff, size, ram.Length)
      ensures var f, n := Lookup(s, table, PageAt(virt, off)).value.frame, Chunk(virt, off, size);
              && f < KERNEL_PAGE && CanMap(sys, cr3, f) && HoldsData(sys, f * PAGE_SZ)
              && AllData(sys, Places(s, cr3, buff, size, ram.Length)[off..off + n])
              && (Table(sys, cr3, DirIndex(f)).None? ==>
                    DirIndex(f) in Needed(s, sys, cr3, table, virt, off, size, write))
    {
      hide Foreign, Lookup, At, Mapped, Places, Needed, WritableAt, Chunk, DirOk, NoNewFrames;
      var f, n := Lookup(s, table, PageAt(virt, off)).value.frame, Chunk(virt, off, size);
      ForeignFits(s, table, virt, buff, size, off);
      RoundFrame(s, table, virt, buff, size, off);
      ReachesHere(s, table, virt, off, size, write);
      NeededHere(s, sys, cr3, table, virt, off, size, write, f);
      var all := Places(s, cr3, buff, size, ram.Length);
      assert AllData(s, all[off..off + n]);
      DataStays(s, sys, all[off..off + n]);
      FrameHoldsData(s, f, 0, 1);
      DataStays(s, sys, Stretch(f * PAGE_SZ + 0, 1));
      assert HoldsData(sys, Stretch(f * PAGE_SZ + 0, 1)[0]);
    }

    lemma {:induction false} ReachesHere(s: Sys, table: nat, virt: nat, off: nat, size: nat, write: bool)
      requires DirOk(s, table) && off < size && virt + size <= WORD && Mapped(s, table, virt, off, ram.Length)
      requires forall k :: 0 <= k < off && write ==> WritableAt(s, table, virt, k)
      requires var m := Lookup(s, table, PageAt(virt, off)); m.Some? && (write ==> m.value.write)
      ensures Reaches(s, table, virt, off, write)
    {
      ChunkPlaces(s, table, virt, off, size);
    }

    method WriteOnce(table: nat, virt: nat, buff: nat, size: nat, off: nat, ghost s: Sys, ghost before: seq<byte>)
      returns (ok: bool, n: nat)
      requires Given(s, table, virt, buff, size, true) && Written(s, table, virt, buff, size, off, before) && off < size
      modifies this`sys, ram
      ensures Given(s, table, virt, buff, size, true) && n <= size - off
      ensures ok ==> n > 0 && Written(s, table, virt, buff, size, off + n, before)
      ensures !ok ==> Written(s, table, virt, buff, size, off, before) && !WritableAt(s, table, virt, off)
    {
      hide Foreign, Distinct, Disjoint, Moved, Stretch, Mapped, NoNewFrames, Needed, Places;
      n := Chunk(virt, off, size);
      ForeignFits(s, table, virt, buff, size, off);
      var dflag := Lookup(sys, table, PageAt(virt, off));
      assert dflag == Lookup(s, table, PageAt(virt, off));
      if dflag.None? || !dflag.value.write {
        ok := false;
      } else {
        WriteChunk(table, virt, buff, size, off, n, dflag.value, s, before);
        ok := true;
      }
    }

    /** The part of a round that moves bytes. */
    method WriteChunk(table: nat, virt: nat, buff: nat, size: nat, off: nat, n: nat, m: Mapping,
                      ghost s: Sys, ghost before: seq<byte>)
      requires Given(s, table, virt, buff, size, true) && Written(s, table, virt, buff, size, off, before) && off < size
      requires n == Chunk(virt, off, size) && virt + size <= WORD && PageAt(virt, off) < PAGES
      requires Lookup(s, table, PageAt(virt, off)) == Some(m) && m.write
      modifies this`sys, ram
      ensures Given(s, table, virt, buff, size, true) && Written(s, table, virt, buff, size, off + n, before)
    {
      hide Foreign, Distinct, Disjoint, Moved, At, Stretch, NoNewFrames, ClearOf, Needed, Mapped, SameView, Lookup,
           DirOk, Places, AllData, WritableAt, PageAt, Chunk, CanMap, OneTableMore, HoldsData;
      ForeignFits(s, table, virt, buff, size, off);
      RoundIsClear(s, table, virt, buff, size, off);
      RoundIsReady(s, table, virt, buff, size, off, true);
      ghost var all := Places(s, cr3, buff, size, ram.Length);
      ghost var s1, mid := sys, ram[..];
      WriteFrame(m.frame, (virt + off) % PAGE_SZ, buff + off, n, all[off..off + n]);
      SameViewOn(s, s1, sys, dirs);
      InUse();
      RoundLeaves(s, s1, table, virt, off, size, true, m.frame);
      WriteRound(s, table, virt, buff, size, off, before, mid, ram[..]);
    }

    lemma {:induction false} InUse()
      requires Valid()
      ensures IsTable(sys, cr3)
    {
    }

    /** The tables that are left to make after a round. */
    lemma {:induction false} RoundLeaves(s: Sys, now: Sys, table: nat, virt: nat, off: nat, size: nat, write: bool,
                                         frame: nat)
      requires DirOk(s, table) && DirOk(s, cr3) && IsTable(now, cr3) && IsTable(sys, cr3)
      requires off < size && virt + size <= WORD && PageAt(virt, off) < PAGES && frame < PAGES
      requires Lookup(s, table, PageAt(virt, off)).Some? && Lookup(s, table, PageAt(virt, off)).value.frame == frame
      requires OneTableMore(now, sys, cr3, DirIndex(frame))
      requires |sys.pool| == |now.pool| - (if Table(now, cr3, DirIndex(frame)).Some? then 0 else 1)
      requires Table(now, cr3, DirIndex(frame)).None? ==>
                 DirIndex(frame) in Needed(s, now, cr3, table, virt, off, size, write)
      requires |now.pool| - |Needed(s, now, cr3, table, virt, off, size, write)| >=
               |s.pool| - |Needed(s, s, cr3, table, virt, 0, size, write)|
      requires Needed(s, now, cr3, table, virt, 0, off, write) == {}
      ensures Lasts(s, table, virt, off + Chunk(virt, off, size), size, write)
      ensures Needed(s, sys, cr3, table, virt, 0, off + Chunk(virt, off, size), write) == {}
    {
      hide Needed, Lookup, DirOk, OneTableMore;
      var n := Chunk(virt, off, size);
      NeededNext(s, now, sys, cr3, table, virt, off, off + n, size, write, frame);
      ChunkFrame(s, table, virt, off, size, frame);
      NeededDone(s, now, sys, cr3, table, virt, off, off + n, write, frame);
    }

    lemma {:induction false} ChunkFrame(s: Sys, table: nat, virt: nat, off: nat, size: nat, frame: nat)
      requires DirOk(s, table) && off < size && virt + size <= WORD && PageAt(virt, off) < PAGES
      requires Lookup(s, table, PageAt(virt, off)).Some? && Lookup(s, table, PageAt(virt, off)).value.frame == frame
      ensures forall j :: off <= j < off + Chunk(virt, off, size) ==>
                At(s, table, virt, j).Some? && At(s, table, virt, j).value / PAGE_SZ == frame
    {
      ChunkPlaces(s, table, virt, off, size);
      hide At, Lookup;
    }

    lemma {:induction false} WriteStarts(table: nat, virt: nat, buff: nat, size: nat)
      requires Valid() && table in dirs && Foreign(sys, table, virt, buff, size)
      requires |sys.pool| >= |Needed(sys, sys, cr3, table, virt, 0, size, true)|
      ensures Given(sys, table, virt, buff, size, true) && Written(sys, table, virt, buff, size, 0, ram[..])
    {
      hide Needed, Lookup;
      NeededNone(sys, sys, cr3, table, virt, size, true);
      NothingMoved(ram[..]);
      assert Places(sys, cr3, buff, size, ram.Length)[..0] == [];
      assert Places(sys, table, virt, 0, ram.Length) == [];
    }

    lemma {:induction false} ReadStarts(table: nat, virt: nat, buff: nat, size: nat)
      requires Valid() && table in dirs && Foreign(sys, table, virt, buff, size)
      requires |sys.pool| >= |Needed(sys, sys, cr3, table, virt, 0, size, false)|
      ensures Given(sys, table, virt, buff, size, false) && Fetched(sys, table, virt, buff, size, 0, ram[..])
    {
      hide Needed, Lookup;
      NeededNone(sys, sys, cr3, table, virt, size, false);
      NothingMoved(ram[..]);
      assert Places(sys, cr3, buff, size, ram.Length)[..0] == [];
      assert Places(sys, table, virt, 0, ram.Length) == [];
    }

    /**
      Copies `size` bytes of the buffer to `virt` in `table`.  `done` counts the bytes before the
      first page that is not mapped writable; exactly those are copied.
      */
    method WriteData(table: nat, virt: nat, buff: nat, size: nat) returns (ok: bool, ghost done: nat)
      requires Valid() && table in dirs
      requires Foreign(sys, table, virt, buff, size)
      requires |sys.pool| >= |Needed(sys, sys, cr3, table, virt, 0, size, true)|
      modifies this`sys, ram
      ensures Valid() && SameView(old(sys), sys, dirs) && NoNewFrames(old(sys), sys)
      ensures |sys.pool| >= |old(sys.pool)| - |Needed(old(sys), old(sys), cr3, table, virt, 0, size, true)|
      ensures done <= size && Done(old(sys), table, virt, done) && (ok <==> done == size)
      ensures IsTable(sys, cr3) && Needed(old(sys), sys, cr3, table, virt, 0, done, true) == {}
      ensures !ok ==> !WritableAt(old(sys), table, virt, done)
      ensures Moved(old(ram[..]), ram[..], Places(old(sys), table, virt, done, ram.Length),
                    Places(old(sys), cr3, buff, size, ram.Length)[..done])
    {
      hide Foreign, Distinct, Disjoint, Moved, At, Stretch, NoNewFrames, Needed, Mapped, SameView, Lookup, DirOk,
          Places,
           AllData, AllWritable, Ready;
      ghost var s, before := sys, ram[..];
      WriteStarts(table, virt, buff, size);
      var off := 0;
      while off < size
        invariant off <= size && Given(s, table, virt, buff, size, true)
        invariant Written(s, table, virt, buff, size, off, before)
      {
        var more, n := WriteOnce(table, virt, buff, size, off, s, before);
        if !more { return false, off; }
        off := off + n;
      }
      return true, size;
    }
  
    /** A round of reading carries the copy from `off` to the end of the chunk. */
    lemma {:induction false} ReadRound(s: Sys, table: nat, virt: nat, buff: nat, size: nat, off: nat,
                    before: seq<byte>, mid: seq<byte>, after: seq<byte>)
      requires DirOk(s, table) && DirOk(s, cr3) && Foreign(s, table, virt, buff, size) && off < size
      requires Mapped(s, table, virt, off, ram.Length) && Lookup(s, table, PageAt(virt, off)).Some?
      requires var all := Places(s, cr3, buff, size, ram.Length);
               var n, m := Chunk(virt, off, size), Lookup(s, table, PageAt(virt, off)).value;
               && Moved(before, mid, all[..off], Places(s, table, virt, off, ram.Length))
               && Moved(mid, after, all[off..off + n], Stretch(m.frame * PAGE_SZ + (virt + off) % PAGE_SZ, n))
      ensures var all, n := Places(s, cr3, buff, size, ram.Length), Chunk(virt, off, size);
              && Mapped(s, table, virt, off + n, ram.Length)
              && Moved(before, after, all[..off + n], Places(s, table, virt, off + n, ram.Length))
    {
      hide Moved, Foreign, DirOk, At, Distinct, Disjoint, Chunk, Places, Stretch, Mapped, Lookup, PageAt, Split;
      ForeignFits(s, table, virt, buff, size, off);
      var there, all := RoundPlaces(s, table, virt, buff, size, off);
      var m, n := Lookup(s, table, PageAt(virt, off)).value, Chunk(virt, off, size);
      ReadOn(before, mid, after, all, there, off, n, Places(s, table, virt, off, ram.Length),
             Stretch(m.frame * PAGE_SZ + (virt + off) % PAGE_SZ, n));
    }

    /** `off` bytes have been read, and every lookup is as it was in `s`. */
    ghost predicate Fetched(s: Sys, table: nat, virt: nat, buff: nat, size: nat, off: nat, before: seq<byte>)
      requires Given(s, table, virt, buff, size, false)
      reads this, ram
    {
      && Valid() && off <= size && SameView(s, sys, dirs) && NoNewFrames(s, sys)
      && Lasts(s, table, virt, off, size, false) && Needed(s, sys, cr3, table, virt, 0, off, false) == {}
      && Mapped(s, table, virt, off, ram.Length)
      && Moved(before, ram[..], Places(s, cr3, buff, size, ram.Length)[..off],
               Places(s, table, virt, off, ram.Length))
    }

    method ReadOnce(table: nat, virt: nat, buff: nat, size: nat, off: nat, ghost s: Sys, ghost before: seq<byte>)
      returns (ok: bool, n: nat)
      requires Given(s, table, virt, buff, size, false) && Fetched(s, table, virt, buff, size, off, before) &&
               off < size
      requires AllWritable(s, cr3, buff, size)
      modifies this`sys, ram
      ensures Given(s, table, virt, buff, size, false) && n <= size - off
      ensures ok ==> n > 0 && Fetched(s, table, virt, buff, size, off + n, before)
      ensures !ok ==> Fetched(s, table, virt, buff, size, off, before) && At(s, table, virt, off).None?
    {
      hide Foreign, Distinct, Disjoint, Moved, Stretch, Mapped, NoNewFrames, Needed, Places, AllWritable;
      n := Chunk(virt, off, size);
      ForeignFits(s, table, virt, buff, size, off);
      var sflag := Lookup(sys, table, PageAt(virt, off));
      assert sflag == Lookup(s, table, PageAt(virt, off));
      if sflag.None? {
        ok := false;
      } else {
        ReadChunk(table, virt, buff, size, off, n, sflag.value, s, before);
        ok := true;
      }
    }

    /** The part of a round that moves bytes. */
    method ReadChunk(table: nat, virt: nat, buff: nat, size: nat, off: nat, n: nat, m: Mapping,
                     ghost s: Sys, ghost before: seq<byte>)
      requires Given(s, table, virt, buff, size, false) && Fetched(s, table, virt, buff, size, off, before) &&
               off < size
      requires AllWritable(s, cr3, buff, size) && n == Chunk(virt, off, size)
      requires virt + size <= WORD && PageAt(virt, off) < PAGES && Lookup(s, table, PageAt(virt, off)) == Some(m)
      modifies this`sys, ram
      ensures Given(s, table, virt, buff, size, false) && Fetched(s, table, virt, buff, size, off + n, before)
    {
      hide Foreign, Distinct, Disjoint, Moved, At, Stretch, NoNewFrames, ClearOf, Needed, Mapped, SameView, Lookup,
           DirOk, Places, AllData, AllWritable, PageAt, Chunk, CanMap, OneTableMore, HoldsData;
      ForeignFits(s, table, virt, buff, size, off);
      RoundIsReadable(s, table, virt, buff, size, off);
      RoundIsReady(s, table, virt, buff, size, off, false);
      ghost var all := Places(s, cr3, buff, size, ram.Length);
      ghost var s1, mid := sys, ram[..];
      ReadFrame(m.frame, (virt + off) % PAGE_SZ, buff + off, n, all[off..off + n]);
      SameViewOn(s, s1, sys, dirs);
      InUse();
      RoundLeaves(s, s1, table, virt, off, size, false, m.frame);
      ReadRound(s, table, virt, buff, size, off, before, mid, ram[..]);
    }

    lemma {:induction false} RoundIsReadable(s: Sys, table: nat, virt: nat, buff: nat, size: nat, off: nat)
      requires Valid() && Given(s, table, virt, buff, size, false) && off < size && SameView(s, sys, dirs)
      requires Lookup(s, table, PageAt(virt, off)).Some?
      requires AllWritable(s, cr3, buff, size)
      ensures var f, n := Lookup(s, table, PageAt(virt, off)).value.frame, Chunk(virt, off, size);
              var part := Places(s, cr3, buff, size, ram.Length)[off..off + n];
              && ClearOf(sys, buff + off, n, f, part) && Distinct(part)
              && f < KERNEL_PAGE && (f + 1) * PAGE_SZ <= ram.Length
              && AllWritable(sys, cr3, buff + off, n)
    {
      hide Foreign, At, Distinct, Mapped, AllWritable, ClearOf, SameView, Lookup, DirOk, Places, PageAt, Needed, Chunk;
      ForeignFits(s, table, virt, buff, size, off);
      BufferDistinct(s, table, virt, buff, size);
      var n := Chunk(virt, off, size);
      RoundIsClear(s, table, virt, buff, size, off);
      SliceDistinct(Places(s, cr3, buff, size, ram.Length), off, n);
      BufferWritable(s, buff, size, off, n);
    }

    lemma {:induction false} BufferDistinct(s: Sys, table: nat, virt: nat, buff: nat, size: nat)
      requires DirOk(s, table) && DirOk(s, cr3) && Foreign(s, table, virt, buff, size)
      ensures virt + size <= WORD && Mapped(s, cr3, buff, size, ram.Length)
      ensures Distinct(Places(s, cr3, buff, size, ram.Length))
    {
    }

    lemma {:induction false} BufferWritable(s: Sys, buff: nat, size: nat, off: nat, n: nat)
      requires Valid() && (forall e :: e in dirs ==> DirOk(s, e)) && cr3 in dirs && SameView(s, sys, dirs)
      requires off + n <= size && AllWritable(s, cr3, buff, size)
      ensures AllWritable(sys, cr3, buff + off, n)
    {
      var at := buff + off;
      forall i | 0 <= i < n
        ensures WritableAt(sys, cr3, at, i)
      {
        assert WritableAt(s, cr3, buff, off + i);
        SameAt(s, sys, dirs, cr3, buff, off + i);
      }
    }

    /**
      Copies `size` bytes from `virt` in `table` to the buffer; `done` counts the bytes before the
      first page that is not mapped, and exactly those are copied.
      */
    method ReadData(table: nat, virt: nat, buff: nat, size: nat) returns (ok: bool, ghost done: nat)
      requires Valid() && table in dirs
      requires Foreign(sys, table, virt, buff, size)
      requires |sys.pool| >= |Needed(sys, sys, cr3, table, virt, 0, size, false)|
      requires AllWritable(sys, cr3, buff, size)
      modifies this`sys, ram
      ensures Valid() && SameView(old(sys), sys, dirs) && NoNewFrames(old(sys), sys)
      ensures |sys.pool| >= |old(sys.pool)| - |Needed(old(sys), old(sys), cr3, table, virt, 0, size, false)|
      ensures done <= size && Mapped(old(sys), table, virt, done, ram.Length) && (ok <==> done == size)
      ensures IsTable(sys, cr3) && Needed(old(sys), sys, cr3, table, virt, 0, done, false) == {}
      ensures !ok ==> At(old(sys), table, virt, done).None?
      ensures Moved(old(ram[..]), ram[..], Places(old(sys), cr3, buff, size, ram.Length)[..done],
                    Places(old(sys), table, virt, done, ram.Length))
    {
      hide Foreign, Distinct, Disjoint, Moved, At, Stretch, NoNewFrames, Needed, Mapped, SameView, Lookup, DirOk,
          Places,
           AllData, AllWritable, Ready;
      ghost var s, before := sys, ram[..];
      ReadStarts(table, virt, buff, size);
      var off := 0;
      while off < size
        invariant off <= size && Given(s, table, virt, buff, size, false)
        invariant Fetched(s, table, virt, buff, size, off, before)
      {
        var more, n := ReadOnce(table, virt, buff, size, off, s, before);
        if !more { return false, off; }
        off := off + n;
      }
      return true, size;
    }

    /** The arguments of a copy stay good while nothing but page tables comes and goes. */
    lemma {:induction false} StillForeign(s: Sys, s': Sys, table: nat, virt: nat, buff: nat, size: nat)
      requires (forall e :: e in dirs ==> DirOk(s, e) && DirOk(s', e)) && table in dirs && cr3 in dirs
      requires SameView(s, s', dirs) && NoNewFrames(s, s') && Foreign(s, table, virt, buff, size)
      ensures Foreign(s', table, virt, buff, size)
      ensures Places(s', cr3, buff, size, ram.Length) == Places(s, cr3, buff, size, ram.Length)
    {
      SamePlaces(s, s', cr3, buff, size);
      forall i | 0 <= i < size
        ensures At(s', table, virt, i) == At(s, table, virt, i)
        ensures forall f: nat :: ShownAt(s', table, virt, i, f) <==> ShownAt(s, table, virt, i, f)
      {
        SameAt(s, s', dirs, table, virt, i);
      }
      hide At, ShownAt, DirOk, Mapped, SameView, Distinct;
    }

    /** The same range has the same places while lookups stay. */
    lemma {:induction false} SamePlaces(s: Sys, s': Sys, table: nat, virt: nat, n: nat)
      requires (forall e :: e in dirs ==> DirOk(s, e) && DirOk(s', e)) && table in dirs
      requires SameView(s, s', dirs) && Mapped(s, table, virt, n, ram.Length)
      ensures Mapped(s', table, virt, n, ram.Length)
      ensures Places(s', table, virt, n, ram.Length) == Places(s, table, virt, n, ram.Length)
    {
      forall i | 0 <= i < n
        ensures At(s', table, virt, i) == At(s, table, virt, i)
      {
        SameAt(s, s', dirs, table, virt, i);
      }
      hide At;
      assert Places(s', table, virt, n, ram.Length) == Places(s, table, virt, n, ram.Length);
    }

    /** Writing a range from one buffer and reading it back into another returns the same bytes. */
    method RoundTrip(table: nat, virt: nat, source: nat, target: nat, size: nat)
      requires Valid() && table in dirs
      requires Foreign(sys, table, virt, source, size) && Foreign(sys, table, virt, target, size)
      requires |sys.pool| >= |Needed(sys, sys, cr3, table, virt, 0, size, true)|
      requires AllWritable(sys, table, virt, size) && AllWritable(sys, cr3, target, size)
      modifies this`sys, ram
      ensures Valid() && SameView(old(sys), sys, dirs)
      ensures forall i :: 0 <= i < size ==>
                ram[Places(old(sys), cr3, target, size, ram.Length)[i]] ==
                old(ram[Places(sys, cr3, source, size, ram.Length)[i]])
    {
      hide Distinct, Disjoint, Moved, Separate, PoolOk, Needed, Lookup, SameView, AllData, DirOk;
      ghost var s, before := sys, ram[..];
      var written, w := WriteData(table, virt, source, size);
      ghost var s1, mid := sys, ram[..];
      StillForeign(s, s1, table, virt, target, size);
      SamePlaces(s, s1, table, virt, size);
      BufferWritable(s, target, size, 0, size);
      NothingNeeded(s, s1, table, virt, size);
      var read, r := ReadData(table, virt, target, size);
      SameViewOn(s, s1, sys, dirs);
      RoundTripBytes(before, mid, ram[..], Places(s, table, virt, size, ram.Length),
                     Places(s, cr3, source, size, ram.Length), Places(s, cr3, target, size, ram.Length));
    }

    /** After a complete write, reading the same range makes no table. */
    lemma {:induction false} NothingNeeded(s: Sys, s': Sys, table: nat, virt: nat, size: nat)
      requires (forall e :: e in dirs ==> DirOk(s, e) && DirOk(s', e)) && table in dirs && cr3 in dirs
      requires virt + size <= WORD && SameView(s, s', dirs)
      requires AllWritable(s, table, virt, size) && Needed(s, s', cr3, table, virt, 0, size, true) == {}
      ensures Needed(s', s', cr3, table, virt, 0, size, false) == {}
    {
      forall i: nat | i < ENTRIES && Wants(s', table, virt, 0, size, false, i)
        ensures Table(s', cr3, i).Some?
      {
        var j :| 0 <= j < size && Reaches(s', table, virt, j, false) &&
                 At(s', table, virt, j).Some? && DirIndex(At(s', table, virt, j).value / PAGE_SZ) == i;
        WritableReaches(s, table, virt, size, j);
        SameAt(s, s', dirs, table, virt, j);
        assert i !in Needed(s, s', cr3, table, virt, 0, size, true);
      }
    }

    lemma {:induction false} WritableReaches(s: Sys, table: nat, virt: nat, size: nat, j: nat)
      requires DirOk(s, table) && virt + size <= WORD && j < size && AllWritable(s, table, virt, size)
      ensures Reaches(s, table, virt, j, true)
    {
      forall k | 0 <= k <= j
        ensures At(s, table, virt, k).Some? && WritableAt(s, table, virt, k)
      {
        assert WritableAt(s, table, virt, k);
      }
    }

    lemma {:induction false} RoundTripBytes(before: seq<byte>, mid: seq<byte>, after: seq<byte>, there: seq<nat>,
                                            source: seq<nat>, target: seq<nat>)
      requires |there| == |source| == |target|
      requires Moved(before, mid, there, source[..|there|]) && Moved(mid, after, target[..|there|], there)
      ensures |after| == |before|
      ensures forall i :: 0 <= i < |there| ==>
              target[i] < |after| && source[i] < |before| && after[target[i]] == before[source[i]]
    {
      assert source[..|there|] == source && target[..|there|] == target;
    }
  }
}
