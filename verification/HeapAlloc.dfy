/** Allocation: best fit, exact alignment, and when a call keeps the heap tiled. */
module HeapAlloc {
  import opened Options
  import opened Arith
  import opened HeapSpec
  import opened HeapTiling

  // ----- The hole search -----

  /** Slot `k` fits, no fitting slot is smaller, and none before it is as small. */
  ghost predicate Chosen(slots: seq<Entry>, n: nat, sz: nat, align: nat, k: nat)
    requires align > 0 && n <= |slots|
  {
    && k < n && Fits(slots[k], sz, align) && slots[k].size < WORD - 1
    && forall j :: 0 <= j < n && Fits(slots[j], sz, align) ==>
         slots[k].size <= slots[j].size && (j < k ==> slots[k].size < slots[j].size)
  }

  lemma {:induction false} BestIsChosen(slots: seq<Entry>, n: nat, sz: nat, align: nat)
    requires align > 0 && n <= |slots|
    ensures Best(slots, n, sz, align).Some? ==> Chosen(slots, n, sz, align, Best(slots, n, sz, align).value)
    ensures Best(slots, n, sz, align).None? ==>
              forall j :: 0 <= j < n && Fits(slots[j], sz, align) ==> slots[j].size >= WORD - 1
    decreases n
  {
    if n > 0 { BestIsChosen(slots, n - 1, sz, align); }
  }

  /** The search finds the first of the smallest fitting holes; only a hole of 0xFFFFFFFF bytes is never seen. */
  lemma {:induction false} FindHoleIsBestFit(slots: seq<Entry>, sz: nat, align: nat, k: nat)
    requires align > 0
    ensures FindHole(slots, sz, align) == Some(k) <==> Chosen(slots, |slots|, sz, align, k)
    ensures FindHole(slots, sz, align).None? <==>
            forall j :: 0 <= j < |slots| && Fits(slots[j], sz, align) ==> slots[j].size >= WORD - 1
  {
    BestIsChosen(slots, |slots|, sz, align);
    var r := FindHole(slots, sz, align);
    if Chosen(slots, |slots|, sz, align, k) && r.Some? {
      assert slots[k].size <= slots[r.value].size && slots[r.value].size <= slots[k].size;
    }
  }

  lemma {:induction false} NextMultiple(a: nat, at: nat, align: nat)
    requires align > 0 && a <= at && at % align == 0
    ensures a + Offset(a, align) <= at
  {
    var off := Offset(a, align);
    if at < a + off {
      DivMod(at, align);
      DivMod(a + off, align);
      MultiplesApart(at / align, (a + off) / align, align);
    }
  }

  lemma {:induction false} MultiplesApart(p: nat, q: nat, m: nat)
    requires p * m < q * m
    ensures p * m + m <= q * m
  {
    if q <= p {
      MultipleGrows(q, p, m);
    } else {
      MultipleGrows(p + 1, q, m);
      assert (p + 1) * m == p * m + m;
    }
  }

  lemma {:induction false} MultipleGrows(p: nat, q: nat, m: nat)
    requires p <= q
    ensures p * m <= q * m
  {
    assert q * m == p * m + (q - p) * m;
  }

  /** While its sum stays in 32 bits, the size test says exactly whether the hole has room for an aligned block. */
  lemma {:induction false} FitsIffRoom(e: Entry, sz: nat, align: nat)
    requires align > 0 && sz + Offset(e.addr, align) < WORD
    ensures Fits(e, sz, align) <==>
            e.valid && !e.used && exists at: nat :: e.addr <= at && at % align == 0 && at + sz <= e.addr + e.size
  {
    var off := Offset(e.addr, align);
    assert e.addr <= e.addr + off && (e.addr + off) % align == 0;
    if at: nat :| e.addr <= at && at % align == 0 && at + sz <= e.addr + e.size { NextMultiple(e.addr, at, align); }
  }

  // ----- Carving -----

  /** The block of exactly `sz` bytes at `at` is in use. */
  ghost predicate UsedBlock(slots: seq<Entry>, at: nat, sz: nat) {
    exists k :: 0 <= k < |slots| && slots[k] == Entry(true, true, at, sz)
  }

  /** Every block other than `k` is still there as it was. */
  ghost predicate OthersKept(slots: seq<Entry>, slots': seq<Entry>, k: nat) {
    |slots| <= |slots'| && forall j :: 0 <= j < |slots| && j != k && slots[j].valid ==> slots'[j] == slots[j]
  }

  /** What a correct carve of hole `k` leaves behind. */
  ghost predicate CarvedWell(slots: seq<Entry>, k: nat, sz: nat, align: nat, slots': seq<Entry>, at: nat,
                             base: nat, limit: nat)
    requires k < |slots| && align > 0
  {
    && Tiles(slots', base, limit)
    && Total(slots') == Total(slots)
    && at % align == 0
    && slots[k].addr <= at && at + sz <= slots[k].addr + slots[k].size
    && UsedBlock(slots', at, sz)
    && OthersKept(slots, slots', k)
  }

  lemma {:induction false} SplitKeeps(slots: seq<Entry>, k: nat, m: nat, e: Entry, f: Entry, base: nat, limit: nat)
    requires Tiles(slots, base, limit) && k < |slots| && m < |slots| && k != m
    requires slots[k].valid && !slots[m].valid
    requires Parts(slots[k], e, f) || Parts(slots[k], f, e)
    ensures Tiles(slots[k := e][m := f], base, limit)
    ensures Total(slots[k := e][m := f]) == Total(slots)
  {
    SplitTiles(slots, k, m, e, f, base, limit);
    TotalUpdate(slots, k, e);
    TotalUpdate(slots[k := e], m, f);
  }

  lemma {:induction false} CarveWhole(slots: seq<Entry>, k: nat, sz: nat, align: nat, base: nat, limit: nat)
    requires Tiles(slots, base, limit) && k < |slots| && align > 0 && 0 < sz < WORD
    requires Fits(slots[k], sz, align) && slots[k].size == sz
    requires sz + Offset(slots[k].addr, align) < WORD
    ensures Carve(slots, k, sz, align).Fine?
    ensures var (slots', at) := Carve(slots, k, sz, align).value;
            CarvedWell(slots, k, sz, align, slots', at, base, limit)
  {
    var e := slots[k].(used := true);
    RemarkTiles(slots, k, e, base, limit);
    TotalUpdate(slots, k, e);
    assert slots[k := e][k] == Entry(true, true, e.addr, sz);
  }

  lemma {:induction false} AlignedShape(slots: seq<Entry>, k: nat, sz: nat, align: nat)
    requires k < |slots| && align > 0 && slots[k].valid && slots[k].addr % align == 0
    requires sz < slots[k].size < WORD && slots[k].addr + slots[k].size <= WORD
    requires Carve(slots, k, sz, align).Fine?
    ensures var e := slots[k];
            var rest := e.(addr := e.addr + sz, size := e.size - sz);
            var m := FirstEmpty(slots[k := rest]);
            && m.Some? && m.value < |slots| && m.value != k && !slots[m.value].valid
            && Carve(slots, k, sz, align).value == (slots[k := rest][m.value := Entry(true, true, e.addr, sz)], e.addr)
  {
  }

  lemma {:induction false} CarveAligned(slots: seq<Entry>, k: nat, sz: nat, align: nat, base: nat, limit: nat)
    requires Tiles(slots, base, limit) && k < |slots| && align > 0 && 0 < sz < WORD
    requires Fits(slots[k], sz, align) && slots[k].size != sz && slots[k].addr % align == 0
    requires Carve(slots, k, sz, align).Fine?
    ensures var (slots', at) := Carve(slots, k, sz, align).value;
            CarvedWell(slots, k, sz, align, slots', at, base, limit)
  {
    var e := slots[k];
    var rest := e.(addr := e.addr + sz, size := e.size - sz);
    var taken := Entry(true, true, e.addr, sz);
    assert Within(e, base, limit) && sz < e.size by { assert Offset(e.addr, align) == 0; }
    var m := FirstEmpty(slots[k := rest]).value;
    AlignedShape(slots, k, sz, align);
    hide Tiles, Carve, Total, Fits, FirstEmpty;
    SplitKeeps(slots, k, m, rest, taken, base, limit);
    assert slots[k := rest][m := taken][m] == taken;
  }

  lemma {:induction false} InRange(x: nat)
    requires x < WORD
    ensures U32(x) == x
  {
  }

  /** The hole starts misaligned and ends with the allocation. */
  lemma {:induction false} CarveTail(slots: seq<Entry>, k: nat, sz: nat, align: nat, base: nat, limit: nat)
    requires Tiles(slots, base, limit) && k < |slots| && align > 0 && 0 < sz < WORD
    requires slots[k].valid && slots[k].addr % align != 0
    requires slots[k].size == sz + Offset(slots[k].addr, align) < WORD
    requires Carve(slots, k, sz, align).Fine?
    ensures var (slots', at) := Carve(slots, k, sz, align).value;
            CarvedWell(slots, k, sz, align, slots', at, base, limit)
  {
    var e, off := slots[k], Offset(slots[k].addr, align);
    InRange(sz + off);
    InRange(e.addr + off);
    var front := e.(size := off);
    var taken := Entry(true, true, e.addr + off, sz);
    var m := FirstEmpty(slots[k := front]).value;
    SplitKeeps(slots, k, m, front, taken, base, limit);
    hide Tiles, Total, U32;
    assert slots[k := front][m := taken][m] == taken;
  }

  /** The hole starts misaligned and goes on after the allocation. */
  lemma {:induction false} CarveMiddle(slots: seq<Entry>, k: nat, sz: nat, align: nat, base: nat, limit: nat)
    requires Tiles(slots, base, limit) && k < |slots| && align > 0 && 0 < sz < WORD
    requires slots[k].valid && slots[k].addr % align != 0
    requires sz + Offset(slots[k].addr, align) < WORD && sz + Offset(slots[k].addr, align) < slots[k].size
    requires Carve(slots, k, sz, align).Fine?
    ensures var (slots', at) := Carve(slots, k, sz, align).value;
            CarvedWell(slots, k, sz, align, slots', at, base, limit)
  {
    hide Carve, Total, UsedBlock, OthersKept, Fits;
    var off := Offset(slots[k].addr, align);
    assert (slots[k].addr + off) % align == 0;
    assert slots[k].addr + slots[k].size <= WORD by { assert Within(slots[k], base, limit); }
    hide Tiles, Within;
    var m, m' := CarveMiddleShape(slots, k, sz, align);
    TwoSplitsKeep(slots, k, m, m', off, sz, base, limit);
    var e := slots[k];
    PiecesInPlace(slots, k, m, m', e.(size := off + sz), Entry(true, false, e.addr + (sz + off), e.size - (sz + off)),
                  e.(size := off), Entry(true, true, e.addr + off, sz));
  }

  /** A hole cut in three: its front stays in place, the rest and the taken middle go to empty slots. */
  lemma {:induction false} TwoSplitsKeep(slots: seq<Entry>, k: nat, m: nat, m': nat, off: nat, sz: nat, base: nat,
                                         limit: nat)
    requires Tiles(slots, base, limit) && k < |slots| && m < |slots| && m' < |slots|
    requires m != k && m' != k && m' != m && slots[k].valid && !slots[m].valid && !slots[m'].valid
    requires 0 < off && 0 < sz && off + sz < slots[k].size
    ensures var e := slots[k];
            var both, rest := e.(size := off + sz), Entry(true, false, e.addr + (sz + off), e.size - (sz + off));
            var front, taken := e.(size := off), Entry(true, true, e.addr + off, sz);
            var slots' := slots[k := both][m := rest][k := front][m' := taken];
            Tiles(slots', base, limit) && Total(slots') == Total(slots)
  {
    var e := slots[k];
    var both, rest := e.(size := off + sz), Entry(true, false, e.addr + (sz + off), e.size - (sz + off));
    var front, taken := e.(size := off), Entry(true, true, e.addr + off, sz);
    hide Total, Tiles;
    SplitKeeps(slots, k, m, both, rest, base, limit);
    SplitKeeps(slots[k := both][m := rest], k, m', front, taken, base, limit);
  }

  lemma {:induction false} PiecesInPlace(slots: seq<Entry>, k: nat, m: nat, m': nat, both: Entry, rest: Entry,
                                         front: Entry, taken: Entry)
    requires k < |slots| && m < |slots| && m' < |slots| && m != k && m' != k && m' != m
    requires !slots[m].valid && !slots[m'].valid && taken == Entry(true, true, taken.addr, taken.size)
    ensures var slots' := slots[k := both][m := rest][k := front][m' := taken];
            UsedBlock(slots', taken.addr, taken.size) && OthersKept(slots, slots', k)
  {
    assert slots[k := both][m := rest][k := front][m' := taken][m'] == taken;
  }

  lemma {:induction false} CarveMiddleShape(slots: seq<Entry>, k: nat, sz: nat, align: nat) returns (m: nat, m': nat)
    requires k < |slots| && align > 0 && 0 < sz < WORD
    requires slots[k].valid && slots[k].addr % align != 0 && slots[k].addr + slots[k].size <= WORD
    requires sz + Offset(slots[k].addr, align) < WORD && sz + Offset(slots[k].addr, align) < slots[k].size
    requires Carve(slots, k, sz, align).Fine?
    ensures var e, off := slots[k], Offset(slots[k].addr, align);
            var both, rest := e.(size := off + sz), Entry(true, false, e.addr + (sz + off), e.size - (sz + off));
            var front, taken := e.(size := off), Entry(true, true, e.addr + off, sz);
            && m < |slots| && m' < |slots| && m != k && m' != k && m' != m && !slots[m].valid && !slots[m'].valid
            && Carve(slots, k, sz, align).value ==
               (slots[k := both][m := rest][k := front][m' := taken], e.addr + off)
  {
    var e, off := slots[k], Offset(slots[k].addr, align);
    InRange(sz + off);
    InRange(e.addr + off);
    InRange(e.addr + (sz + off));
    InRange(e.size - (sz + off));
    hide U32;
    var both, rest := e.(size := off + sz), Entry(true, false, e.addr + (sz + off), e.size - (sz + off));
    var front := e.(size := off);
    assert Add(slots, rest).Some?;
    m := FirstEmpty(slots).value;
    m' := FirstEmpty(slots[m := rest][k := front]).value;
    assert slots[k := both][m := rest][k := front] == slots[m := rest][k := front];
  }

  lemma {:induction false} CarveKeeps(slots: seq<Entry>, k: nat, sz: nat, align: nat, base: nat, limit: nat)
    requires Tiles(slots, base, limit) && k < |slots| && align > 0 && 0 < sz < WORD
    requires Fits(slots[k], sz, align) && sz + Offset(slots[k].addr, align) < WORD
    requires Carve(slots, k, sz, align).Fine?
    ensures var (slots', at) := Carve(slots, k, sz, align).value;
            CarvedWell(slots, k, sz, align, slots', at, base, limit)
  {
    if slots[k].size == sz {
      CarveWhole(slots, k, sz, align, base, limit);
    } else if slots[k].addr % align == 0 {
      CarveAligned(slots, k, sz, align, base, limit);
    } else if slots[k].size == sz + Offset(slots[k].addr, align) {
      CarveTail(slots, k, sz, align, base, limit);
    } else {
      CarveMiddle(slots, k, sz, align, base, limit);
    }
  }

  // ----- When the size test wraps -----

  /** Whatever the sizes, a misaligned carve shrinks the hole to its correction and adds one used block. */
  lemma {:induction false} CarveShape(slots: seq<Entry>, k: nat, sz: nat, align: nat) returns (m: nat)
    requires k < |slots| && align > 0 && slots[k].valid
    requires slots[k].addr % align != 0 && slots[k].size != sz
    requires Carve(slots, k, sz, align).Fine?
    ensures var (slots', at) := Carve(slots, k, sz, align).value;
            var off := Offset(slots[k].addr, align);
            && m < |slots| == |slots'| && m != k && !slots[m].valid
            && at == U32(slots[k].addr + off)
            && slots'[k] == slots[k].(size := off)
            && slots'[m] == Entry(true, true, at, sz)
            && OthersKept(slots, slots', k)
  {
    hide U32;
    var e, off := slots[k], Offset(slots[k].addr, align);
    var taken := U32(sz + off);
    var slots1 :=
      if e.size > taken then Add(slots, Entry(true, false, U32(e.addr + taken), U32(e.size - taken))).value
      else slots;
    m := FirstEmpty(slots1[k := slots1[k].(size := off)]).value;
  }

  lemma {:induction false} CarveBreaks(slots: seq<Entry>, k: nat, sz: nat, align: nat, base: nat, limit: nat)
    requires Tiles(slots, base, limit) && k < |slots| && 0 < align < WORD && 0 < sz < WORD
    requires Fits(slots[k], sz, align) && sz + Offset(slots[k].addr, align) >= WORD
    requires Carve(slots, k, sz, align).Fine?
    ensures var (slots', at) := Carve(slots, k, sz, align).value; !(Tiles(slots', base, limit) && at % align == 0)
  {
    var e, off := slots[k], Offset(slots[k].addr, align);
    ZeroIsAligned(align);
    if e.size != sz {
      var m := CarveShape(slots, k, sz, align);
      WrappedCarveOverlaps(slots, Carve(slots, k, sz, align).value.0, k, m, sz, off, base, limit);
    }
  }

  lemma {:induction false} ZeroIsAligned(align: nat)
    requires align > 0
    ensures 0 % align == 0
  {
  }

  /** A block so large that its end wrapped cannot fit anywhere beside the rest of the heap. */
  lemma {:induction false} WrappedCarveOverlaps(slots: seq<Entry>, slots': seq<Entry>, k: nat, m: nat, sz: nat,
                                                off: nat, base: nat, limit: nat)
    requires Tiles(slots, base, limit) && k < |slots| && m < |slots| == |slots'| && m != k
    requires slots[k].valid && !slots[m].valid && 0 < slots[k].addr
    requires off < WORD && sz < WORD && sz + off >= WORD
    requires slots'[k] == slots[k].(size := off)
    requires slots'[m] == Entry(true, true, U32(slots[k].addr + off), sz)
    requires OthersKept(slots, slots', k)
    ensures !Tiles(slots', base, limit)
  {
    WrappedBlockDoesNotFit(slots[k].addr, off, sz, base, limit);
    assert !(Within(slots'[k], base, limit) && Within(slots'[m], base, limit));
  }

  lemma {:induction false} WrappedBlockDoesNotFit(addr: nat, off: nat, sz: nat, base: nat, limit: nat)
    requires 0 < addr && off < WORD && sz < WORD && sz + off >= WORD
    requires base <= addr && limit <= WORD && limit - base < WORD
    ensures !(addr + off <= limit && base <= U32(addr + off) && U32(addr + off) + sz <= limit)
  {
  }

  lemma {:induction false} OverlapRefutes(slots: seq<Entry>, base: nat, limit: nat, j: nat, k: nat, x: int)
    requires j < |slots| && k < |slots| && j != k && Inside(slots[j], x) && Inside(slots[k], x)
    ensures !Tiles(slots, base, limit)
  {
    if Tiles(slots, base, limit) { OneOwner(slots, base, limit, j, k, x); }
  }

  /**
    Carving is correct exactly when the size test did not wrap: the chosen hole's correction plus
    the request stays below 2^32.
    */
  lemma {:induction false} CarveIff(slots: seq<Entry>, k: nat, sz: nat, align: nat, base: nat, limit: nat)
    requires Tiles(slots, base, limit) && k < |slots| && 0 < align < WORD && 0 < sz < WORD
    requires Fits(slots[k], sz, align)
    requires Carve(slots, k, sz, align).Fine?
    ensures var (slots', at) := Carve(slots, k, sz, align).value;
            CarvedWell(slots, k, sz, align, slots', at, base, limit) <==> sz + Offset(slots[k].addr, align) < WORD
  {
    if sz + Offset(slots[k].addr, align) < WORD {
      CarveKeeps(slots, k, sz, align, base, limit);
    } else {
      CarveBreaks(slots, k, sz, align, base, limit);
    }
  }

  // ----- Growth -----

  /** Every table but the first, static one lies in a used block of its own. */
  ghost predicate TablesReserved(s: State) {
    forall t :: 1 <= t < |s.tables| ==> UsedBlock(s.slots, s.tables[t], TABLE_BYTES)
  }

  ghost predicate Healthy(s: State, base: nat, limit: nat) {
    && |s.tables| <= ALLOC_BLOCKS && |s.slots| == ALLOC_BLOCK * |s.tables|
    && Tiles(s.slots, base, limit)
    && Total(s.slots) == limit - base
    && TablesReserved(s)
  }

  /** Blocks in use stay in use. */
  ghost predicate UsedKept(slots: seq<Entry>, slots': seq<Entry>) {
    forall at, sz :: UsedBlock(slots, at, sz) ==> UsedBlock(slots', at, sz)
  }

  lemma {:induction false} OthersKeptUsed(slots: seq<Entry>, slots': seq<Entry>, k: nat)
    requires OthersKept(slots, slots', k) && k < |slots| && !slots[k].used
    ensures UsedKept(slots, slots')
  {
    forall at, sz | UsedBlock(slots, at, sz)
      ensures UsedBlock(slots', at, sz)
    {
      var j :| 0 <= j < |slots| && slots[j] == Entry(true, true, at, sz);
      assert slots'[j] == slots[j];
    }
  }

  lemma {:induction false} InstallKeeps(s: State, slots: seq<Entry>, at: nat, base: nat, limit: nat)
    requires Healthy(s, base, limit)
    requires Tiles(slots, base, limit) && Total(slots) == Total(s.slots) && |slots| == |s.slots|
    requires UsedKept(s.slots, slots) && UsedBlock(slots, at, TABLE_BYTES)
    requires Install(slots, s.tables, at).Fine?
    ensures var s' := Install(slots, s.tables, at).value;
            Healthy(s', base, limit) && UsedKept(s.slots, s'.slots)
  {
    var s' := Install(slots, s.tables, at).value;
    ExtendTiles(slots, base, limit);
    TotalOfBlanks(slots, FreshTable());
    hide Tiles, Total;
    assert UsedKept(slots, s'.slots) by {
      assert OthersKept(slots, s'.slots, |slots|);
      forall a, n | UsedBlock(slots, a, n)
        ensures UsedBlock(s'.slots, a, n)
      {
        var j :| 0 <= j < |slots| && slots[j] == Entry(true, true, a, n);
        assert s'.slots[j] == slots[j];
      }
    }
    forall t | 1 <= t < |s'.tables|
      ensures UsedBlock(s'.slots, s'.tables[t], TABLE_BYTES)
    {
      if t < |s.tables| { assert UsedBlock(s.slots, s.tables[t], TABLE_BYTES); }
    }
  }

  lemma {:induction false} GrowKeeps(s: State, base: nat, limit: nat)
    requires Healthy(s, base, limit) && Grow(s).Fine?
    ensures Healthy(Grow(s).value, base, limit) && UsedKept(s.slots, Grow(s).value.slots)
  {
    var k := FindHole(s.slots, TABLE_BYTES, 1).value;
    var e := s.slots[k];
    assert Offset(e.addr, 1) == 0 && e.addr % 1 == 0;
    assert Within(e, base, limit);
    hide Tiles, Total, TablesReserved, UsedKept, UsedBlock, OthersKept, Offset, FindHole, Add;
    GrowIsCarve(s.slots, k);
    CarveKeeps(s.slots, k, TABLE_BYTES, 1, base, limit);
    var (slots, at) := Carve(s.slots, k, TABLE_BYTES, 1).value;
    OthersKeptUsed(s.slots, slots, k);
    InstallKeeps(s, slots, at, base, limit);
  }

  /** Growth carves its table from the start of the hole, exactly as an allocation would. */
  lemma {:induction false} GrowIsCarve(slots: seq<Entry>, k: nat)
    requires k < |slots|
    ensures var e := slots[k];
            Carve(slots, k, TABLE_BYTES, 1) ==
            if e.size == TABLE_BYTES then Fine((slots[k := e.(used := true)], e.addr))
            else
              match Add(slots[k := e.(addr := U32(e.addr + TABLE_BYTES), size := U32(e.size - TABLE_BYTES))],
                        Entry(true, true, e.addr, TABLE_BYTES))
              case None => Panic
              case Some(slots') => Fine((slots', e.addr))
  {
  }

  // ----- kamalloc -----

  /** The hole the call carves from, after a possible growth. */
  ghost predicate CarvesFrom(s: State, sz: nat, align: nat, s1: State, k: nat)
    requires |s.slots| % ALLOC_BLOCK == 0 && align > 0
  {
    MaybeGrow(s, sz, align) == Fine(s1) && FindHole(s1.slots, sz, align) == Some(k)
  }

  /** A successful call: an aligned block of exactly the requested size, taken from a best-fit hole. */
  ghost predicate AllocatedWell(s: State, sz: nat, align: nat, s': State, at: nat, base: nat, limit: nat)
    requires |s.slots| % ALLOC_BLOCK == 0 && align > 0
  {
    && Healthy(s', base, limit)
    && at % align == 0
    && UsedBlock(s'.slots, at, sz)
    && UsedKept(s.slots, s'.slots)
    && exists s1: State, k: nat :: CarvesFrom(s, sz, align, s1, k) && Chosen(s1.slots, |s1.slots|, sz, align, k) &&
                       s1.slots[k].addr <= at && at + sz <= s1.slots[k].addr + s1.slots[k].size
  }

  lemma {:induction false} MaybeGrowKeeps(s: State, sz: nat, align: nat, base: nat, limit: nat)
    requires Healthy(s, base, limit) && align > 0 && MaybeGrow(s, sz, align).Fine?
    ensures var s1 := MaybeGrow(s, sz, align).value; Healthy(s1, base, limit) && UsedKept(s.slots, s1.slots)
  {
    if MaybeGrow(s, sz, align).value != s { GrowKeeps(s, base, limit); }
  }

  /** The one condition on a request: its size test, on the hole it will use, stays in 32 bits. */
  predicate RequestInRange(s: State, sz: nat, align: nat)
    requires |s.slots| % ALLOC_BLOCK == 0
  {
    align == 0 || sz == 0 ||
    match MaybeGrow(s, sz, align)
    case Fine(s1) =>
      var r := FindHole(s1.slots, sz, align);
      r.None? || sz + Offset(s1.slots[r.value].addr, align) < WORD
    case _ => true
  }

  /** Requests whose size and alignment together stay within 2^32 always qualify. */
  lemma {:induction false} SmallRequestsAreInRange(s: State, sz: nat, align: nat)
    requires |s.slots| % ALLOC_BLOCK == 0 && sz + align <= WORD
    ensures RequestInRange(s, sz, align)
  {
  }

  /** A call that hands out memory does so correctly if and only if the request is in range. */
  lemma {:induction false} KamallocIff(s: State, sz: nat, align: nat, base: nat, limit: nat)
    requires Healthy(s, base, limit) && sz < WORD && align < WORD
    requires Kamalloc(s, sz, align).Fine? && Kamalloc(s, sz, align).value.1.Some?
    ensures var (s', r) := Kamalloc(s, sz, align).value;
            AllocatedWell(s, sz, align, s', r.value, base, limit) <==> RequestInRange(s, sz, align)
  {
    hide Tiles, Total, Carve, Chosen, MaybeGrow, FindHole;
    var s1 := MaybeGrow(s, sz, align).value;
    MaybeGrowKeeps(s, sz, align, base, limit);
    var k := FindHole(s1.slots, sz, align).value;
    CarveIff(s1.slots, k, sz, align, base, limit);
    FindHoleIsBestFit(s1.slots, sz, align, k);
    var (slots, at) := Carve(s1.slots, k, sz, align).value;
    assert CarvesFrom(s, sz, align, s1, k);
    if RequestInRange(s, sz, align) {
      OthersKeptUsed(s1.slots, slots, k);
      CarveLength(s1.slots, k, sz, align);
      assert TablesReserved(State(slots, s1.tables));
    } else {
      CarveBreaks(s1.slots, k, sz, align, base, limit);
    }
  }

  lemma {:induction false} CarveLength(slots: seq<Entry>, k: nat, sz: nat, align: nat)
    requires k < |slots| && align > 0 && Carve(slots, k, sz, align).Fine?
    ensures |Carve(slots, k, sz, align).value.0| == |slots|
  {
  }

  /** A call that hands out nothing leaves the heap as tiled as it found it. */
  lemma {:induction false} KamallocNoneKeeps(s: State, sz: nat, align: nat, base: nat, limit: nat)
    requires Healthy(s, base, limit)
    requires Kamalloc(s, sz, align).Fine? && Kamalloc(s, sz, align).value.1.None?
    ensures Healthy(Kamalloc(s, sz, align).value.0, base, limit)
    ensures UsedKept(s.slots, Kamalloc(s, sz, align).value.0.slots)
  {
    if align > 0 && sz > 0 && FindHole(s.slots, sz, align).Some? { MaybeGrowKeeps(s, sz, align, base, limit); }
  }

  // ----- Table slots -----

  lemma {:induction false} EmptyUpdate(slots: seq<Entry>, m: nat, e: Entry)
    requires m < |slots|
    ensures CountEmpty(slots[m := e]) ==
            CountEmpty(slots) - (if slots[m].valid then 0 else 1) + (if e.valid then 0 else 1)
    decreases |slots|
  {
    if m == 0 {
      assert slots[m := e][1..] == slots[1..];
    } else {
      EmptyUpdate(slots[1..], m - 1, e);
      assert slots[m := e][1..] == slots[1..][m - 1 := e];
    }
  }

  lemma {:induction false} NoEmptySlots(slots: seq<Entry>)
    ensures CountEmpty(slots) == 0 <==> forall k :: 0 <= k < |slots| ==> slots[k].valid
    decreases |slots|
  {
    if slots != [] {
      NoEmptySlots(slots[1..]);
      if CountEmpty(slots) == 0 {
        forall k | 0 <= k < |slots|
          ensures slots[k].valid
        {
          if k > 0 { assert slots[1..][k - 1].valid; }
        }
      }
    }
  }

  /** add_alloc panics exactly when no slot is empty, and otherwise uses one up. */
  lemma {:induction false} AddUsesOneSlot(slots: seq<Entry>, e: Entry)
    requires e.valid
    ensures Add(slots, e).Some? <==> CountEmpty(slots) > 0
    ensures Add(slots, e).Some? ==>
              && CountEmpty(Add(slots, e).value) == CountEmpty(slots) - 1
              && forall k :: 0 <= k < |slots| && slots[k].valid ==> Add(slots, e).value[k] == slots[k]
  {
    NoEmptySlots(slots);
    if Add(slots, e).Some? { EmptyUpdate(slots, FirstEmpty(slots).value, e); }
  }

  /** New entries a carve needs: none for an exact fit, two when bytes remain on both sides. */
  function SlotsNeeded(e: Entry, sz: nat, align: nat): nat
    requires align > 0
  {
    if e.size == sz then 0
    else if e.addr % align != 0 && e.size > U32(sz + Offset(e.addr, align)) then 2
    else 1
  }

  /** Carving panics if and only if the tables have fewer empty slots than the carve needs. */
  lemma {:induction false} CarvePanicsIff(slots: seq<Entry>, k: nat, sz: nat, align: nat)
    requires k < |slots| && slots[k].valid && align > 0
    ensures Carve(slots, k, sz, align).Panic? <==> CountEmpty(slots) < SlotsNeeded(slots[k], sz, align)
    ensures Carve(slots, k, sz, align).Fine? <==> CountEmpty(slots) >= SlotsNeeded(slots[k], sz, align)
  {
    hide U32, Add, CountEmpty, Fits;
    var e, off := slots[k], Offset(slots[k].addr, align);
    if e.size == sz {
    } else if e.addr % align == 0 {
      var shrunk := e.(addr := U32(e.addr + sz), size := U32(e.size - sz));
      EmptyUpdate(slots, k, shrunk);
      AddUsesOneSlot(slots[k := shrunk], Entry(true, true, e.addr, sz));
    } else {
      MisalignedPanicsIff(slots, k, sz, align);
    }
  }

  lemma {:induction false} MisalignedPanicsIff(slots: seq<Entry>, k: nat, sz: nat, align: nat)
    requires k < |slots| && slots[k].valid && align > 0
    requires slots[k].size != sz && slots[k].addr % align != 0
    ensures Carve(slots, k, sz, align).Panic? <==> CountEmpty(slots) < SlotsNeeded(slots[k], sz, align)
    ensures Carve(slots, k, sz, align).Fine? <==> CountEmpty(slots) >= SlotsNeeded(slots[k], sz, align)
  {
    hide U32, Add, CountEmpty, Fits;
    var e, off := slots[k], Offset(slots[k].addr, align);
    var taken := U32(sz + off);
    var rest := Entry(true, false, U32(e.addr + taken), U32(e.size - taken));
    AddUsesOneSlot(slots, rest);
    var more := if e.size > taken then Add(slots, rest) else Some(slots);
    if more.Some? {
      assert more.value[k].valid;
      EmptyUpdate(more.value, k, more.value[k].(size := off));
      AddUsesOneSlot(more.value[k := more.value[k].(size := off)], Entry(true, true, U32(e.addr + off), sz));
    }
  }

  lemma {:induction false} EmptyConcat(a: seq<Entry>, b: seq<Entry>)
    ensures CountEmpty(a + b) == CountEmpty(a) + CountEmpty(b)
  {
    if a == [] {
      assert a + b == b;
    } else {
      assert (a + b)[1..] == a[1..] + b;
      EmptyConcat(a[1..], b);
    }
  }

  lemma {:induction false} EmptyBlanks(blanks: seq<Entry>)
    requires forall k :: 0 <= k < |blanks| ==> !blanks[k].valid
    ensures CountEmpty(blanks) == |blanks|
  {
    if blanks != [] { EmptyBlanks(blanks[1..]); }
  }

  /** A table's empty slots are among those of all tables. */
  lemma {:induction false} EmptyInTable(slots: seq<Entry>, block: nat)
    requires (block + 1) * ALLOC_BLOCK <= |slots|
    ensures CountEmpty(TableOf(slots, block)) <= CountEmpty(slots)
  {
    var i, j := block * ALLOC_BLOCK, (block + 1) * ALLOC_BLOCK;
    EmptyConcat(slots[..i], slots[i..j]);
    EmptyConcat(slots[..j], slots[j..]);
    assert slots[..i] + slots[i..j] == slots[..j] && slots[..j] + slots[j..] == slots;
  }

  /** With an empty slot to spare, growth fails only for want of memory or of a place for the table. */
  lemma {:induction false} GrowPanicsIff(s: State)
    requires CountEmpty(s.slots) > 0
    ensures Grow(s).Panic? <==> FindHole(s.slots, 12288, 1).None?
    ensures Grow(s).TableOverrun? <==> FindHole(s.slots, 12288, 1).Some? && |s.tables| == 512
    ensures Grow(s).Fine? ==> CountEmpty(Grow(s).value.slots) >= ALLOC_BLOCK
  {
    hide CountEmpty, Add, U32, FindHole, FreshTable;
    match FindHole(s.slots, TABLE_BYTES, 1)
    case None =>
    case Some(k) =>
      HoleFits(s.slots, TABLE_BYTES, 1);
      var e := s.slots[k];
      var used, shrunk := e.(used := true), e.(addr := U32(e.addr + TABLE_BYTES), size := U32(e.size - TABLE_BYTES));
      var taken := Entry(true, true, e.addr, TABLE_BYTES);
      EmptyUpdate(s.slots, k, used);
      EmptyUpdate(s.slots, k, shrunk);
      AddUsesOneSlot(s.slots[k := shrunk], taken);
      FreshIsEmpty();
      EmptyConcat(s.slots[k := used], FreshTable());
      var more := Add(s.slots[k := shrunk], taken);
      if more.Some? { EmptyConcat(more.value, FreshTable()); }
  }

  lemma {:induction false} FreshIsEmpty()
    ensures |FreshTable()| == ALLOC_BLOCK && CountEmpty(FreshTable()) == ALLOC_BLOCK
  {
    var blank := FreshTable();
    assert forall k :: 0 <= k < |blank| ==> !blank[k].valid;
    EmptyBlanks(blank);
  }

  /** The table that the hole for a request is in has exactly four empty slots left. */
  predicate TriesToGrow(s: State, k: nat)
    requires |s.slots| % ALLOC_BLOCK == 0 && k < |s.slots|
  {
    CountEmpty(TableOf(s.slots, k / ALLOC_BLOCK)) == 4
  }

  /**
    When a call panics, for every heap and request.  Growth is tried only when the hole's table has
    exactly four empty slots, and then only memory for a table can be wanting; at any other count
    the call panics for want of slots, however much memory is free.
    */
  lemma {:induction false} KamallocPanicsIff(s: State, sz: nat, align: nat)
    requires |s.slots| % ALLOC_BLOCK == 0
    ensures Kamalloc(s, sz, align).Panic? <==>
            && align > 0 && sz > 0 && FindHole(s.slots, sz, align).Some?
            && var k := FindHole(s.slots, sz, align).value;
               if TriesToGrow(s, k) then FindHole(s.slots, 12288, 1).None?
               else CountEmpty(s.slots) < SlotsNeeded(s.slots[k], sz, align)
  {
    hide CountEmpty, TableOf, Carve, Grow, FindHole, SlotsNeeded;
    if align > 0 && sz > 0 && FindHole(s.slots, sz, align).Some? {
      var k := FindHole(s.slots, sz, align).value;
      HoleFits(s.slots, sz, align);
      if TriesToGrow(s, k) {
        EmptyInTable(s.slots, k / ALLOC_BLOCK);
        GrowPanicsIff(s);
        if Grow(s).Fine? {
          var s1 := Grow(s).value;
          HoleFits(s1.slots, sz, align);
          if FindHole(s1.slots, sz, align).Some? {
            var k1 := FindHole(s1.slots, sz, align).value;
            CarvePanicsIff(s1.slots, k1, sz, align);
            NeedsAtMostTwo(s1.slots[k1], sz, align);
          }
        }
      } else {
        CarvePanicsIff(s.slots, k, sz, align);
      }
    }
  }

  lemma {:induction false} HoleFits(slots: seq<Entry>, sz: nat, align: nat)
    requires align > 0
    ensures var r := FindHole(slots, sz, align); r.Some? ==> r.value < |slots| && slots[r.value].valid
  {
  }

  lemma {:induction false} NeedsAtMostTwo(e: Entry, sz: nat, align: nat)
    requires align > 0
    ensures SlotsNeeded(e, sz, align) <= 2
  {
  }
}
