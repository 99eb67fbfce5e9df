/** Freeing, and whole runs of calls. */
module HeapFree {
  import opened Options
  import opened Arith
  import opened HeapSpec
  import opened HeapTiling
  import opened HeapAlloc
  import opened HeapBlocks

  // ----- kfree -----

  /** The two blocks really touch. */
  predicate Adjacent(e: Entry, f: Entry) {
    e.addr + e.size == f.addr || f.addr + f.size == e.addr
  }

  lemma {:induction false} NoSelfMerge(slots: seq<Entry>, k: nat, base: nat, limit: nat, fixed: bool)
    requires Tiles(slots, base, limit) && k < |slots| && slots[k].valid
    ensures !Mergeable(slots[k], slots[k], fixed)
    ensures 0 < slots[k].size < WORD && slots[k].addr + slots[k].size <= WORD
  {
    assert Within(slots[k], base, limit);
  }

  /** Two different blocks: their sizes add up inside the heap, and they do not overlap. */
  lemma {:induction false} TwoBlocks(slots: seq<Entry>, j: nat, k: nat, base: nat, limit: nat)
    requires Tiles(slots, base, limit) && j < |slots| && k < |slots| && j != k && slots[j].valid && slots[k].valid
    ensures Within(slots[j], base, limit) && Within(slots[k], base, limit) && Apart(slots[j], slots[k])
    ensures U32(slots[j].size + slots[k].size) == slots[j].size + slots[k].size
  {
    var e, f := slots[j], slots[k];
    assert if j < k then Apart(e, f) else Apart(f, e);
  }

  /** Freeing moves bytes between entries but never gains or loses any, even where the merge is wrong. */
  lemma {:induction false} ReleaseTotal(slots: seq<Entry>, k: nat, base: nat, limit: nat, fixed: bool)
    requires Tiles(slots, base, limit) && k < |slots| && slots[k].valid
    ensures Total(Release(slots, k, fixed)) == Total(slots)
  {
    NoSelfMerge(slots, k, base, limit, fixed);
    match FirstMergeable(slots, slots[k], fixed)
    case None => TotalUpdate(slots, k, slots[k].(used := false));
    case Some(j) =>
      TwoBlocks(slots, j, k, base, limit);
      var merged := slots[j := Merge(slots[j], slots[k])];
      TotalUpdate(slots, j, Merge(slots[j], slots[k]));
      TotalUpdate(merged, k, merged[k].(valid := false));
  }

  lemma {:induction false} ReleaseKeeps(slots: seq<Entry>, k: nat, base: nat, limit: nat, fixed: bool)
    requires Tiles(slots, base, limit) && k < |slots| && slots[k].valid
    requires var r := FirstMergeable(slots, slots[k], fixed); r.None? || Adjacent(slots[r.value], slots[k])
    ensures Tiles(Release(slots, k, fixed), base, limit)
  {
    NoSelfMerge(slots, k, base, limit, fixed);
    match FirstMergeable(slots, slots[k], fixed)
    case None => RemarkTiles(slots, k, slots[k].(used := false), base, limit);
    case Some(j) =>
      TwoBlocks(slots, j, k, base, limit);
      JoinTiles(slots, j, k, Merge(slots[j], slots[k]), slots[k].(valid := false), base, limit);
  }

  /** After a merge, slot `k` is empty, slot `j` holds the merged block, and the rest is unchanged. */
  lemma {:induction false} MergedElsewhere(slots: seq<Entry>, j: nat, k: nat, i: nat, x: int, fixed: bool)
    requires j < |slots| && k < |slots| && j != k && i < |slots|
    requires FirstMergeable(slots, slots[k], fixed) == Some(j)
    ensures var slots' := Release(slots, k, fixed);
            Inside(slots'[i], x) <==> (i != k && Inside(if i == j then Merge(slots[j], slots[k]) else slots[i], x))
  {
  }

  /** Some byte shows that a merge of blocks that do not touch is wrong. */
  lemma {:induction false} ReleaseBreaks(slots: seq<Entry>, k: nat, j: nat, base: nat, limit: nat, fixed: bool)
    requires Tiles(slots, base, limit) && k < |slots| && slots[k].valid
    requires FirstMergeable(slots, slots[k], fixed) == Some(j) && !Adjacent(slots[j], slots[k])
    ensures !Tiles(Release(slots, k, fixed), base, limit)
  {
    NoSelfMerge(slots, k, base, limit, fixed);
    TwoBlocks(slots, j, k, base, limit);
    var e, f := slots[j], slots[k];
    var x := f.addr + f.size;
    if e.addr < f.addr {
      LostByte(slots, k, j, x - 1, base, limit, fixed);
    } else {
      assert Covered(slots, x);
      var i :| 0 <= i < |slots| && Inside(slots[i], x);
      StolenByte(slots, k, j, i, x, base, limit, fixed);
    }
  }

  /** A byte of some third block that the merged block runs into is owned twice. */
  lemma {:induction false} StolenByte(slots: seq<Entry>, k: nat, j: nat, i: nat, x: nat, base: nat, limit: nat,
                                      fixed: bool)
    requires k < |slots| && j < |slots| && i < |slots| && j != k && i != k && i != j && Inside(slots[i], x)
    requires FirstMergeable(slots, slots[k], fixed) == Some(j) && Inside(Merge(slots[j], slots[k]), x)
    ensures !Tiles(Release(slots, k, fixed), base, limit)
  {
    MergedElsewhere(slots, j, k, i, x, fixed);
    MergedElsewhere(slots, j, k, j, x, fixed);
    OverlapRefutes(Release(slots, k, fixed), base, limit, i, j, x);
  }

  /** A byte of the freed block that the merged block does not reach is owned by nobody. */
  lemma {:induction false} LostByte(slots: seq<Entry>, k: nat, j: nat, x: nat, base: nat, limit: nat, fixed: bool)
    requires Tiles(slots, base, limit) && k < |slots| && j != k && Inside(slots[k], x)
    requires FirstMergeable(slots, slots[k], fixed) == Some(j) && !Inside(Merge(slots[j], slots[k]), x)
    ensures !Tiles(Release(slots, k, fixed), base, limit)
  {
    var slots' := Release(slots, k, fixed);
    assert Within(slots[k], base, limit);
    forall i | 0 <= i < |slots'|
      ensures !Inside(slots'[i], x)
    {
      MergedElsewhere(slots, j, k, i, x, fixed);
      if i != k && i != j && Inside(slots[i], x) { OneOwner(slots, base, limit, i, k, x); }
    }
    assert !Covered(slots', x);
  }

  /** What a caller can check before freeing: the block that will be merged with is really next to it. */
  predicate FreesCleanly(s: State, ptr: nat, fixed: bool) {
    match FirstAt(s.slots, ptr)
    case None => true
    case Some(k) =>
      match FirstMergeable(s.slots, s.slots[k], fixed)
      case None => true
      case Some(j) => Adjacent(s.slots[j], s.slots[k])
  }

  /** Freeing keeps the heap tiled if and only if the block the merge test picks is adjacent. */
  lemma {:induction false} KfreeIff(s: State, ptr: nat, base: nat, limit: nat, fixed: bool)
    requires Healthy(s, base, limit) && Kfree(s, ptr, fixed).Fine?
    ensures Tiles(Kfree(s, ptr, fixed).value.slots, base, limit) <==> FreesCleanly(s, ptr, fixed)
    ensures Total(Kfree(s, ptr, fixed).value.slots) == limit - base
  {
    var k := FirstAt(s.slots, ptr).value;
    ReleaseTotal(s.slots, k, base, limit, fixed);
    match FirstMergeable(s.slots, s.slots[k], fixed)
    case None => ReleaseKeeps(s.slots, k, base, limit, fixed);
    case Some(j) =>
      if Adjacent(s.slots[j], s.slots[k]) {
        ReleaseKeeps(s.slots, k, base, limit, fixed);
      } else {
        ReleaseBreaks(s.slots, k, j, base, limit, fixed);
      }
  }

  /** With the test that is meant, whatever block it picks is adjacent. */
  lemma {:induction false} MeantFreesCleanly(s: State, ptr: nat, base: nat, limit: nat)
    requires Healthy(s, base, limit)
    ensures FreesCleanly(s, ptr, true)
  {
    var k := FirstAt(s.slots, ptr);
    if k.Some? {
      var j := FirstMergeable(s.slots, s.slots[k.value], true);
      NoSelfMerge(s.slots, k.value, base, limit, true);
      if j.Some? { TwoBlocks(s.slots, j.value, k.value, base, limit); }
    }
  }

  // ----- What a free gives back -----

  /** The used total falls by the freed block, even where the merge is wrong. */
  lemma {:induction false} ReleaseUsed(slots: seq<Entry>, k: nat, base: nat, limit: nat, fixed: bool)
    requires Tiles(slots, base, limit) && k < |slots| && slots[k].valid
    ensures Used(Release(slots, k, fixed)) == Used(slots) - InUse(slots[k])
  {
    NoSelfMerge(slots, k, base, limit, fixed);
    match FirstMergeable(slots, slots[k], fixed)
    case None => UsedUpdate(slots, k, slots[k].(used := false));
    case Some(j) =>
      var merged := slots[j := Merge(slots[j], slots[k])];
      UsedUpdate(slots, j, Merge(slots[j], slots[k]));
      UsedUpdate(merged, k, merged[k].(valid := false));
  }

  /** The blocks in use afterwards are those before, without the one at the freed address. */
  lemma {:induction false} ReleaseLoses(slots: seq<Entry>, k: nat, base: nat, limit: nat, fixed: bool)
    requires Tiles(slots, base, limit) && k < |slots| && slots[k].valid
    ensures Lost(slots, Release(slots, k, fixed), slots[k].addr)
  {
    var slots' := Release(slots, k, fixed);
    NoSelfMerge(slots, k, base, limit, fixed);
    forall at: nat, sz: nat
      ensures UsedBlock(slots', at, sz) <==> UsedBlock(slots, at, sz) && at != slots[k].addr
    {
      if UsedBlock(slots, at, sz) { UsedAfterRelease(slots, k, at, sz, base, limit, fixed); }
      if UsedBlock(slots', at, sz) {
        var i :| 0 <= i < |slots'| && slots'[i] == Entry(true, true, at, sz);
        assert slots[i] == slots'[i];
      }
    }
  }

  /**
    Freeing a block in use: it succeeds, that block alone goes out of use and the totals move by its
    size; where the merge is clean, the free bytes are those before and all bytes of the block.
    */
  lemma {:induction false} FreedIsFree(s: State, ptr: nat, n: nat, base: nat, limit: nat, fixed: bool, x: int)
    requires Healthy(s, base, limit) && UsedBlock(s.slots, ptr, n)
    ensures Kfree(s, ptr, fixed).Fine?
    ensures var s' := Kfree(s, ptr, fixed).value;
            && s'.tables == s.tables && Lost(s.slots, s'.slots, ptr)
            && Used(s'.slots) == Used(s.slots) - n && Free(s'.slots) == Free(s.slots) + n
            && (FreesCleanly(s, ptr, fixed) ==> (FreeByte(s'.slots, x) <==> FreeByte(s.slots, x) || ptr <= x < ptr + n))
  {
    var i :| 0 <= i < |s.slots| && s.slots[i] == Entry(true, true, ptr, n);
    var k := FirstAt(s.slots, ptr).value;
    SameSlot(s.slots, i, k, base, limit);
    hide Tiles, Used, Free, Release, FreeByte, TablesReserved, Total, FreesCleanly, UsedBlock;
    ReleaseUsed(s.slots, k, base, limit, fixed);
    ReleaseLoses(s.slots, k, base, limit, fixed);
    KfreeIff(s, ptr, base, limit, fixed);
    UsedPlusFree(s.slots);
    UsedPlusFree(Kfree(s, ptr, fixed).value.slots);
    if FreesCleanly(s, ptr, fixed) {
      LostBytes(s.slots, Kfree(s, ptr, fixed).value.slots, ptr, n, base, limit, x);
    }
  }

  /** A block to merge with: free, and starting where the freed one ends, or ending where it starts. */
  ghost predicate Neighbour(slots: seq<Entry>, k: nat, j: nat, fixed: bool)
    requires j < |slots| && k < |slots|
  {
    var e, f := slots[j], slots[k];
    e.valid && !e.used &&
    (e.addr == f.addr + f.size ||
     if fixed then e.addr + e.size == f.addr else (e.addr + f.size) % 0x1_0000_0000 == f.addr)
  }

  lemma {:induction false} MergeableIff(slots: seq<Entry>, k: nat, j: nat, base: nat, limit: nat, fixed: bool)
    requires Tiles(slots, base, limit) && j < |slots| && k < |slots| && slots[k].valid
    ensures Mergeable(slots[j], slots[k], fixed) <==> Neighbour(slots, k, j, fixed)
  {
    assert Within(slots[k], base, limit);
    if slots[j].valid { assert Within(slots[j], base, limit); }
  }

  lemma {:induction false} MergesWithOther(slots: seq<Entry>, k: nat, base: nat, limit: nat, fixed: bool)
    requires Tiles(slots, base, limit) && k < |slots| && slots[k].valid
    ensures var r := FirstMergeable(slots, slots[k], fixed); r.Some? ==> r.value != k && slots[r.value].valid
  {
    NoSelfMerge(slots, k, base, limit, fixed);
  }

  /** A free gives a slot back exactly when there is a block to merge with, and none otherwise. */
  lemma {:induction false} FreeMergesIff(slots: seq<Entry>, k: nat, base: nat, limit: nat, fixed: bool)
    requires Tiles(slots, base, limit) && k < |slots| && slots[k].valid
    ensures CountEmpty(Release(slots, k, fixed)) ==
            CountEmpty(slots) + if exists j :: 0 <= j < |slots| && Neighbour(slots, k, j, fixed) then 1 else 0
  {
    hide CountEmpty, Mergeable, Neighbour, Tiles, U32;
    forall j | 0 <= j < |slots|
      ensures Mergeable(slots[j], slots[k], fixed) <==> Neighbour(slots, k, j, fixed)
    {
      MergeableIff(slots, k, j, base, limit, fixed);
    }
    MergesWithOther(slots, k, base, limit, fixed);
    match FirstMergeable(slots, slots[k], fixed)
    case None => EmptyUpdate(slots, k, slots[k].(used := false));
    case Some(j) =>
      var merged := slots[j := Merge(slots[j], slots[k])];
      assert Neighbour(slots, k, j, fixed);
      EmptyUpdate(slots, j, Merge(slots[j], slots[k]));
      EmptyUpdate(merged, k, merged[k].(valid := false));
  }

  /** A block is found by its address. */
  lemma {:induction false} SameSlot(slots: seq<Entry>, i: nat, k: nat, base: nat, limit: nat)
    requires Tiles(slots, base, limit) && i < |slots| && k < |slots| && slots[i].valid && slots[k].valid
    requires slots[i].addr == slots[k].addr
    ensures i == k
  {
    assert Within(slots[i], base, limit) && Within(slots[k], base, limit);
    OneOwner(slots, base, limit, i, k, slots[k].addr);
  }

  /** A free panics exactly when no block starts at the address. */
  lemma {:induction false} KfreePanicsIff(s: State, ptr: nat, fixed: bool)
    ensures Kfree(s, ptr, fixed).Panic? <==> forall k :: 0 <= k < |s.slots| && s.slots[k].valid ==>
            s.slots[k].addr != ptr
    ensures Kfree(s, ptr, fixed).Panic? || Kfree(s, ptr, fixed).Fine?
  {
  }

  /** Taking a free block and losing it again. */
  lemma {:induction false} GainedThenLost(a: seq<Entry>, b: seq<Entry>, c: seq<Entry>, at: nat, sz: nat, base: nat,
                                          limit: nat)
    requires Tiles(a, base, limit) && FreeByte(a, at) && Gained(a, b, {(at, sz)}) && Lost(b, c, at)
    ensures Gained(a, c, {})
  {
    forall x: nat, n: nat | UsedBlock(a, x, n)
      ensures x != at
    {
      BlocksApart(a, x, n, x, n, base, limit);
      FreeIffNotUsed(a, base, limit, at);
    }
    hide UsedBlock, FreeByte, Tiles;
  }

  /** What was handed out without making a table is given back in full, with the merge test that is meant. */
  lemma {:induction false} FreeUndoesAllocate(s: State, sz: nat, align: nat, base: nat, limit: nat)
    requires Healthy(s, base, limit) && sz < WORD && align < WORD && RequestInRange(s, sz, align)
    requires Kamalloc(s, sz, align).Fine? && Kamalloc(s, sz, align).value.1.Some?
    requires |Kamalloc(s, sz, align).value.0.tables| == |s.tables|
    ensures var (s', r) := Kamalloc(s, sz, align).value;
            && Kfree(s', r.value, true).Fine?
            && var s'' := Kfree(s', r.value, true).value;
               && Tiles(s''.slots, base, limit) && Used(s''.slots) == Used(s.slots) && Free(s''.slots) == Free(s.slots)
               && Gained(s.slots, s''.slots, {}) && forall x :: FreeByte(s''.slots, x) <==> FreeByte(s.slots, x)
  {
    hide Tiles, Used, Free, FreeByte, Kamalloc, RequestInRange, Total, Kfree, UsedBlock, TablesReserved, Gained, Lost,
         FreesCleanly, UsedKept, CarvesFrom;
    var (s', r) := Kamalloc(s, sz, align).value;
    SomeIsSized(s, sz, align);
    KamallocIff(s, sz, align, base, limit);
    KamallocGains(s, sz, align);
    assert NewTable(s, s') + Handed(r, sz) == {(r.value, sz)};
    KamallocTakes(s, sz, align, base, limit, 0);
    MeantFreesCleanly(s', r.value, base, limit);
    FreedIsFree(s', r.value, sz, base, limit, true, 0);
    KfreeIff(s', r.value, base, limit, true);
    var s'' := Kfree(s', r.value, true).value;
    HandedWasFree(s, sz, align, base, limit, r.value);
    GainedThenLost(s.slots, s'.slots, s''.slots, r.value, sz, base, limit);
    forall x
      ensures FreeByte(s''.slots, x) <==> FreeByte(s.slots, x)
    {
      GainedBytes(s.slots, s''.slots, {}, base, limit, x);
    }
  }

  // ----- Runs -----

  datatype Call = Allocate(sz: nat, align: nat) | Deallocate(ptr: nat)

  function Exec(s: State, c: Call, fixed: bool): Outcome<State>
    requires |s.slots| % ALLOC_BLOCK == 0
  {
    match c
    case Allocate(sz, align) =>
      (match Kamalloc(s, sz, align)
       case Fine((s', _)) => Fine(s')
       case Panic => Panic
       case TableOverrun => TableOverrun)
    case Deallocate(ptr) => Kfree(s, ptr, fixed)
  }

  /**
    What the caller owes: requests in range, and frees that are not of entry tables; with the merge
    test as written, also that the block it picks is adjacent.
    */
  predicate CallOk(s: State, c: Call, fixed: bool)
    requires |s.slots| % ALLOC_BLOCK == 0
  {
    match c
    case Allocate(sz, align) => RequestInRange(s, sz, align)
    case Deallocate(ptr) =>
      (fixed || FreesCleanly(s, ptr, fixed)) && forall t :: 1 <= t < |s.tables| ==> s.tables[t] != ptr
  }

  /**
    The heap is healthy after the call, memory handed out is aligned, exact and reserved, and the blocks
    in use have changed by exactly what was handed out, made into a table, or freed.
    */
  ghost predicate StepGood(s: State, c: Call, base: nat, limit: nat, fixed: bool)
    requires |s.slots| % ALLOC_BLOCK == 0 && Exec(s, c, fixed).Fine?
  {
    match c
    case Allocate(sz, align) =>
      var (s', r) := Kamalloc(s, sz, align).value;
      && Gained(s.slots, s'.slots, NewTable(s, s') + Handed(r, sz))
      && if r.None? then Healthy(s', base, limit) else AllocatedWell(s, sz, align, s', r.value, base, limit)
    case Deallocate(ptr) =>
      var s' := Kfree(s, ptr, fixed).value;
      Lost(s.slots, s'.slots, ptr) && Healthy(s', base, limit)
  }

  predicate Sized(c: Call) {
    c.Allocate? ==> c.sz < WORD && c.align < WORD
  }

  /** The slot that holds a used block. */
  lemma {:induction false} KfreeTables(s: State, ptr: nat, base: nat, limit: nat, fixed: bool)
    requires Healthy(s, base, limit) && Kfree(s, ptr, fixed).Fine?
    ensures TablesReserved(Kfree(s, ptr, fixed).value) <==> forall t :: 1 <= t < |s.tables| ==> s.tables[t] != ptr
  {
    var k := FirstAt(s.slots, ptr).value;
    var slots' := Release(s.slots, k, fixed);
    NoSelfMerge(s.slots, k, base, limit, fixed);
    forall t | 1 <= t < |s.tables|
      ensures UsedBlock(slots', s.tables[t], TABLE_BYTES) <==> s.tables[t] != ptr
    {
      UsedAfterRelease(s.slots, k, s.tables[t], TABLE_BYTES, base, limit, fixed);
    }
  }

  /** Freeing ends the use of the freed address and of no other. */
  lemma {:induction false} UsedAfterRelease(slots: seq<Entry>, k: nat, at: nat, sz: nat, base: nat, limit: nat,
                                            fixed: bool)
    requires Tiles(slots, base, limit) && k < |slots| && slots[k].valid
    requires UsedBlock(slots, at, sz)
    ensures UsedBlock(Release(slots, k, fixed), at, sz) <==> at != slots[k].addr
  {
    var slots' := Release(slots, k, fixed);
    NoSelfMerge(slots, k, base, limit, fixed);
    var i :| 0 <= i < |slots| && slots[i] == Entry(true, true, at, sz);
    if at != slots[k].addr {
      assert slots'[i] == slots[i];
    } else {
      forall n | 0 <= n < |slots'|
        ensures slots'[n] != Entry(true, true, at, sz)
      {
        if n != k && slots[n].valid { TwoBlocks(slots, n, k, base, limit); }
      }
    }
  }

  lemma {:induction false} NoneIsInRange(s: State, sz: nat, align: nat)
    requires |s.slots| % ALLOC_BLOCK == 0 && Kamalloc(s, sz, align).Fine? && Kamalloc(s, sz, align).value.1.None?
    ensures RequestInRange(s, sz, align)
  {
    hide Grow, Carve, Best, CountEmpty, TableOf;
  }

  /** One call, both ways: it leaves everything right exactly when the caller kept its side. */
  lemma {:induction false} StepIff(s: State, c: Call, base: nat, limit: nat, fixed: bool)
    requires Healthy(s, base, limit) && Sized(c) && Exec(s, c, fixed).Fine?
    ensures StepGood(s, c, base, limit, fixed) <==> CallOk(s, c, fixed)
    ensures StepGood(s, c, base, limit, fixed) ==> Healthy(Exec(s, c, fixed).value, base, limit)
  {
    hide Kamalloc, RequestInRange, Gained, Lost, Tiles, Total, Release, FreesCleanly, UsedKept, UsedBlock, CarvesFrom,
         TablesReserved;
    match c
    case Allocate(sz, align) =>
      var (s', r) := Kamalloc(s, sz, align).value;
      KamallocGains(s, sz, align);
      if r.Some? {
        SomeIsSized(s, sz, align);
        KamallocIff(s, sz, align, base, limit);
      } else {
        KamallocNoneKeeps(s, sz, align, base, limit);
        NoneIsInRange(s, sz, align);
      }
    case Deallocate(ptr) =>
      ReleaseLoses(s.slots, FirstAt(s.slots, ptr).value, base, limit, fixed);
      KfreeIff(s, ptr, base, limit, fixed);
      if fixed { MeantFreesCleanly(s, ptr, base, limit); }
      KfreeTables(s, ptr, base, limit, fixed);
  }

  ghost predicate RunGood(s: State, calls: seq<Call>, base: nat, limit: nat, fixed: bool)
    requires |s.slots| % ALLOC_BLOCK == 0
    decreases |calls|
  {
    calls == [] || !Exec(s, calls[0], fixed).Fine? ||
    (StepGood(s, calls[0], base, limit, fixed) &&
     |Exec(s, calls[0], fixed).value.slots| % ALLOC_BLOCK == 0 &&
     RunGood(Exec(s, calls[0], fixed).value, calls[1..], base, limit, fixed))
  }

  predicate RunOk(s: State, calls: seq<Call>, fixed: bool)
    requires |s.slots| % ALLOC_BLOCK == 0
    decreases |calls|
  {
    calls == [] || !Exec(s, calls[0], fixed).Fine? ||
    (CallOk(s, calls[0], fixed) &&
     |Exec(s, calls[0], fixed).value.slots| % ALLOC_BLOCK == 0 &&
     RunOk(Exec(s, calls[0], fixed).value, calls[1..], fixed))
  }

  /**
    Every run from a healthy heap stays healthy, call after call, exactly as long as the caller
    keeps its side; with the merge test that is meant, nothing is asked of the order of frees.
    */
  lemma {:induction false} RunIff(s: State, calls: seq<Call>, base: nat, limit: nat, fixed: bool)
    requires Healthy(s, base, limit) && forall c :: c in calls ==> Sized(c)
    ensures RunGood(s, calls, base, limit, fixed) <==> RunOk(s, calls, fixed)
    decreases |calls|
  {
    if calls != [] && Exec(s, calls[0], fixed).Fine? {
      StepIff(s, calls[0], base, limit, fixed);
      if CallOk(s, calls[0], fixed) { RunIff(Exec(s, calls[0], fixed).value, calls[1..], base, limit, fixed); }
    }
  }

  /** The heap init_alloc sets up is healthy, so RunIff applies from boot. */
  lemma {:induction false} InitIsHealthy(base: nat, size: nat, home: nat)
    requires 0 < size < WORD && base + size <= WORD
    ensures Healthy(Init(base, size, home), base, base + size)
  {
    InitTiles(base, size, home);
    InitTotal(base, size, home);
  }

  /** In a healthy heap used and free bytes always add up to the size of the heap. */
  lemma {:induction false} UsedPlusFreeIsConstant(s: State, base: nat, limit: nat)
    requires Healthy(s, base, limit)
    ensures Used(s.slots) + Free(s.slots) == limit - base
  {
    UsedPlusFree(s.slots);
  }
}
