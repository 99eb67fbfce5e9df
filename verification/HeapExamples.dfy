/** Heaps and runs on which the allocator goes wrong. */
module HeapExamples {
  import opened Options
  import opened Arith
  import opened HeapSpec
  import opened HeapTiling
  import opened HeapAlloc
  import opened HeapFree

  // ----- Heaps with a few blocks -----

  function Blanks(n: nat): (b: seq<Entry>)
    ensures |b| == n && forall k :: 0 <= k < n ==> b[k] == Blank
  {
    seq(n, i => Blank)
  }

  predicate Few(few: seq<Entry>) {
    |few| <= 8 && forall k :: 0 <= k < |few| ==> few[k].valid
  }

  /** One table that starts with the given blocks and is empty otherwise. */
  function Small(few: seq<Entry>, home: nat): (s: State)
    requires Few(few)
    ensures |s.slots| == ALLOC_BLOCK
  {
    State(few + Blanks(ALLOC_BLOCK - |few|), [home])
  }

  lemma {:induction false} SmallInit(base: nat, size: nat, home: nat)
    ensures Init(base, size, home) == Small([Entry(true, false, base, size)], home)
  {
    assert Init(base, size, home).slots == Small([Entry(true, false, base, size)], home).slots;
  }

  lemma {:induction false} BestOfFew(few: seq<Entry>, blanks: seq<Entry>, n: nat, sz: nat, align: nat)
    requires align > 0 && n <= |few| + |blanks| && forall k :: 0 <= k < |blanks| ==> !blanks[k].valid
    ensures Best(few + blanks, n, sz, align) == Best(few, if n <= |few| then n else |few|, sz, align)
    decreases n
  {
    hide Offset;
    if n > 0 { BestOfFew(few, blanks, n - 1, sz, align); }
  }

  lemma {:induction false} SmallFindHole(few: seq<Entry>, home: nat, sz: nat, align: nat)
    requires Few(few) && align > 0
    ensures FindHole(Small(few, home).slots, sz, align) == FindHole(few, sz, align)
  {
    BestOfFew(few, Blanks(ALLOC_BLOCK - |few|), ALLOC_BLOCK, sz, align);
  }

  lemma {:induction false} SmallEmpty(few: seq<Entry>, home: nat)
    requires Few(few)
    ensures CountEmpty(Small(few, home).slots) == ALLOC_BLOCK - |few|
    ensures TableOf(Small(few, home).slots, 0) == Small(few, home).slots
  {
    hide CountEmpty;
    EmptyConcat(few, Blanks(ALLOC_BLOCK - |few|));
    EmptyBlanks(Blanks(ALLOC_BLOCK - |few|));
    NoEmptySlots(few);
  }

  lemma {:induction false} EmptyBehind(few: seq<Entry>, blanks: seq<Entry>, from: nat)
    requires from <= |few| && |blanks| > 0 && !blanks[0].valid && forall k :: 0 <= k < |few| ==> few[k].valid
    ensures FirstEmpty(few + blanks, from) == Some(|few|)
    decreases |few| - from
  {
    if from < |few| { EmptyBehind(few, blanks, from + 1); }
  }

  lemma {:induction false} SmallAdd(few: seq<Entry>, home: nat, e: Entry)
    requires Few(few) && |few| < 8 && e.valid
    ensures Add(Small(few, home).slots, e) == Some(Small(few + [e], home).slots)
  {
    EmptyBehind(few, Blanks(ALLOC_BLOCK - |few|), 0);
    assert Small(few, home).slots[|few| := e] == Small(few + [e], home).slots;
  }

  /** No growth: an allocation is the carve of the hole it finds. */
  lemma {:induction false} SmallKamalloc(few: seq<Entry>, home: nat, sz: nat, align: nat, k: nat)
    requires Few(few) && align > 0 && sz > 0 && FindHole(few, sz, align) == Some(k)
    ensures var s := Small(few, home);
            && FindHole(s.slots, sz, align) == Some(k) && k < |few|
            && MaybeGrow(s, sz, align) == Fine(s)
            && Kamalloc(s, sz, align) ==
               match Carve(s.slots, k, sz, align)
               case Panic => Panic
               case TableOverrun => TableOverrun
               case Fine((slots, at)) => Fine((State(slots, s.tables), Some(at)))
  {
    hide FindHole, Carve, CountEmpty, Small, TableOf;
    SmallFindHole(few, home, sz, align);
    SmallEmpty(few, home);
    HoleFits(few, sz, align);
    assert k / ALLOC_BLOCK == 0;
  }

  lemma {:induction false} SmallExact(few: seq<Entry>, home: nat, sz: nat, align: nat, k: nat)
    requires Few(few) && align > 0 && sz > 0 && FindHole(few, sz, align) == Some(k) && k < |few| && few[k].size == sz
    ensures Kamalloc(Small(few, home), sz, align) ==
            Fine((Small(few[k := few[k].(used := true)], home), Some(few[k].addr)))
  {
    hide FindHole;
    SmallKamalloc(few, home, sz, align, k);
    var e := few[k].(used := true);
    assert Small(few, home).slots[k := e] == Small(few[k := e], home).slots;
  }

  lemma {:induction false} SmallCarve(few: seq<Entry>, home: nat, sz: nat, align: nat, k: nat)
    requires Few(few) && |few| < 8 && align > 0 && k < |few|
    requires few[k].size > sz > 0 && few[k].addr % align == 0 && few[k].addr + few[k].size <= WORD
    ensures var shrunk := few[k].(addr := few[k].addr + sz, size := few[k].size - sz);
            Few(few[k := shrunk] + [Entry(true, true, few[k].addr, sz)]) &&
            Carve(Small(few, home).slots, k, sz, align) ==
            Fine((Small(few[k := shrunk] + [Entry(true, true, few[k].addr, sz)], home).slots, few[k].addr))
  {
    hide Add, Small;
    var shrunk := few[k].(addr := few[k].addr + sz, size := few[k].size - sz);
    SmallHas(few, home, k);
    SmallUpdate(few, home, k, shrunk);
    SmallAdd(few[k := shrunk], home, Entry(true, true, few[k].addr, sz));
    assert U32(few[k].addr + sz) == few[k].addr + sz && U32(few[k].size - sz) == few[k].size - sz;
  }

  lemma {:induction false} SmallUpdate(few: seq<Entry>, home: nat, k: nat, e: Entry)
    requires Few(few) && k < |few| && e.valid
    ensures Few(few[k := e]) && Small(few, home).slots[k := e] == Small(few[k := e], home).slots
  {
  }

  lemma {:induction false} SmallSplit(few: seq<Entry>, home: nat, sz: nat, align: nat, k: nat)
    requires Few(few) && |few| < 8 && align > 0 && sz > 0 && FindHole(few, sz, align) == Some(k)
    requires k < |few| && few[k].size > sz && few[k].addr % align == 0 && few[k].addr + few[k].size <= WORD
    ensures var shrunk := few[k].(addr := few[k].addr + sz, size := few[k].size - sz);
            Few(few[k := shrunk] + [Entry(true, true, few[k].addr, sz)]) &&
            Kamalloc(Small(few, home), sz, align) ==
            Fine((Small(few[k := shrunk] + [Entry(true, true, few[k].addr, sz)], home), Some(few[k].addr)))
  {
    hide FindHole, Carve, MaybeGrow, Kamalloc;
    SmallKamalloc(few, home, sz, align, k);
    SmallCarve(few, home, sz, align, k);
  }

  lemma {:induction false} FirstAtFew(few: seq<Entry>, blanks: seq<Entry>, ptr: nat, from: nat)
    requires from <= |few| && (forall k :: 0 <= k < |blanks| ==> !blanks[k].valid) && FirstAt(few, ptr, from).Some?
    ensures FirstAt(few + blanks, ptr, from) == FirstAt(few, ptr, from)
    decreases |few| - from
  {
    if from < |few| && !(few[from].valid && few[from].addr == ptr) { FirstAtFew(few, blanks, ptr, from + 1); }
  }

  lemma {:induction false} MergeableFew(few: seq<Entry>, blanks: seq<Entry>, freed: Entry, fixed: bool, from: nat)
    requires from <= |few| + |blanks| && forall k :: 0 <= k < |blanks| ==> !blanks[k].valid
    ensures FirstMergeable(few + blanks, freed, fixed, from) ==
            if from <= |few| then FirstMergeable(few, freed, fixed, from) else None
    decreases |few| + |blanks| - from
  {
    if from < |few| + |blanks| { MergeableFew(few, blanks, freed, fixed, from + 1); }
  }

  lemma {:induction false} SmallKfree(few: seq<Entry>, home: nat, ptr: nat, k: nat, fixed: bool)
    requires Few(few) && FirstAt(few, ptr) == Some(k) && k < |few|
    ensures FirstAt(Small(few, home).slots, ptr) == Some(k)
    ensures FirstMergeable(Small(few, home).slots, few[k], fixed) == FirstMergeable(few, few[k], fixed)
    ensures FirstMergeable(few, few[k], fixed).None? ==>
              Kfree(Small(few, home), ptr, fixed) == Fine(Small(few[k := few[k].(used := false)], home))
  {
    var blanks, e := Blanks(ALLOC_BLOCK - |few|), few[k].(used := false);
    FirstAtFew(few, blanks, ptr, 0);
    MergeableFew(few, blanks, few[k], fixed, 0);
    assert Small(few, home).slots[k := e] == Small(few[k := e], home).slots;
  }

  // ----- A request whose size test wraps -----

  /**
    On a heap of 0x1000 bytes at address 1, a request for 0x80000001 bytes at a multiple of
    0x80000000 is served: size and correction add up to 2^32.
    */
  lemma {:induction false} WrappingRequestIsServed(home: nat)
    ensures var s, sz, align := Init(1, 0x1000, home), 0x8000_0001, 0x8000_0000;
            && Healthy(s, 1, 0x1001)
            && Kamalloc(s, sz, align).Fine? && Kamalloc(s, sz, align).value.1.Some?
            && !RequestInRange(s, sz, align)
            && var (s', at) := Kamalloc(s, sz, align).value;
               !AllocatedWell(s, sz, align, s', at.value, 1, 0x1001)
  {
    hide Kamalloc, Carve, CountEmpty, FindHole, AllocatedWell, Healthy, Init, Offset, Small;
    var sz, align := 0x8000_0001, 0x8000_0000;
    var few := [Entry(true, false, 1, 0x1000)];
    var s := Small(few, home);
    SmallInit(1, 0x1000, home);
    InitIsHealthy(1, 0x1000, home);
    WrappingHole(few, sz, align);
    SmallKamalloc(few, home, sz, align, 0);
    SmallEmpty(few, home);
    SmallHas(few, home, 0);
    CarvePanicsIff(s.slots, 0, sz, align);
    NeedsAtMostTwo(s.slots[0], sz, align);
    KamallocIff(s, sz, align, 1, 0x1001);
  }

  lemma {:induction false} SmallHas(few: seq<Entry>, home: nat, k: nat)
    requires Few(few) && k < |few|
    ensures Small(few, home).slots[k] == few[k]
  {
  }

  lemma {:induction false} WrappingHole(few: seq<Entry>, sz: nat, align: nat)
    requires few == [Entry(true, false, 1, 0x1000)] && sz == 0x8000_0001 && align == 0x8000_0000
    ensures FindHole(few, sz, align) == Some(0) && sz + Offset(few[0].addr, align) >= WORD
  {
    assert Offset(1, align) == 0x7FFF_FFFF;
    assert U32(sz + 0x7FFF_FFFF) == 0;
    assert Best(few, 0, sz, align) == None;
    assert Best(few, 1, sz, align) == Some(0);
  }

  // ----- A free that joins blocks that do not touch -----

  function Hole(addr: nat, size: nat): Entry {
    Entry(true, false, addr, size)
  }

  function Block(addr: nat, size: nat): Entry {
    Entry(true, true, addr, size)
  }

  const BadRun: seq<Call> :=
    [Allocate(4, 4), Allocate(12, 4), Allocate(16, 4), Deallocate(0x1000), Deallocate(0x1010)]

  /** The blocks before each call of the run. */
  function BadBlocks(i: nat): (few: seq<Entry>)
    requires i < 5
    ensures Few(few)
  {
    match i
    case 0 => [Hole(0x1000, 0x20)]
    case 1 => [Hole(0x1004, 0x1C), Block(0x1000, 4)]
    case 2 => [Hole(0x1010, 0x10), Block(0x1000, 4), Block(0x1004, 12)]
    case 3 => [Block(0x1010, 0x10), Block(0x1000, 4), Block(0x1004, 12)]
    case _ => [Block(0x1010, 0x10), Hole(0x1000, 4), Block(0x1004, 12)]
  }

  lemma {:induction false} OneHole(few: seq<Entry>, sz: nat)
    requires Few(few) && 0 < |few| <= 3 && !few[0].used && few[0].addr % 4 == 0 && sz <= few[0].size < WORD - 1
    requires forall k :: 1 <= k < |few| ==> few[k].used
    ensures FindHole(few, sz, 4) == Some(0)
  {
    assert Offset(few[0].addr, 4) == 0;
    assert Best(few, 0, sz, 4) == None;
    assert Best(few, 1, sz, 4) == Some(0);
    if |few| > 1 { assert Best(few, 2, sz, 4) == Some(0); }
  }

  lemma {:induction false} BadStep(i: nat, home: nat, fixed: bool)
    requires i < 4
    ensures Exec(Small(BadBlocks(i), home), BadRun[i], fixed) == Fine(Small(BadBlocks(i + 1), home))
  {
    hide Kamalloc, Kfree, FindHole;
    var few := BadBlocks(i);
    match i
    case 0 =>
      OneHole(few, 4);
      SmallSplit(few, home, 4, 4, 0);
      assert few[0 := Hole(0x1004, 0x1C)] + [Block(0x1000, 4)] == BadBlocks(1);
    case 1 =>
      OneHole(few, 12);
      SmallSplit(few, home, 12, 4, 0);
      assert few[0 := Hole(0x1010, 0x10)] + [Block(0x1004, 12)] == BadBlocks(2);
    case 2 =>
      OneHole(few, 16);
      SmallExact(few, home, 16, 4, 0);
      assert few[0 := Block(0x1010, 0x10)] == BadBlocks(3);
    case 3 =>
      assert FirstAt(few, 0x1000) == Some(1) by { assert FirstAt(few, 0x1000, 1) == Some(1); }
      NothingFree(few, few[1], fixed, 0);
      SmallKfree(few, home, 0x1000, 1, fixed);
      assert few[1 := Hole(0x1000, 4)] == BadBlocks(4);
  }

  lemma {:induction false} NothingFree(few: seq<Entry>, freed: Entry, fixed: bool, from: nat)
    requires from <= |few| && forall k :: 0 <= k < |few| ==> few[k].used
    ensures FirstMergeable(few, freed, fixed, from) == None
    decreases |few| - from
  {
    if from < |few| { NothingFree(few, freed, fixed, from + 1); }
  }

  lemma {:induction false} BadLast(home: nat)
    ensures !FreesCleanly(Small(BadBlocks(4), home), 0x1010, false)
  {
    var few := BadBlocks(4);
    assert FirstAt(few, 0x1010) == Some(0);
    assert FirstMergeable(few, few[0], false) == Some(1) by {
      assert FirstMergeable(few, few[0], false, 1) == Some(1);
    }
    SmallKfree(few, home, 0x1010, 0, false);
    SmallHas(few, home, 0);
    SmallHas(few, home, 1);
  }

  lemma {:induction false} BadCallOk(i: nat, home: nat, fixed: bool)
    requires i < 5
    ensures CallOk(Small(BadBlocks(i), home), BadRun[i], fixed) <==> i < 4 || fixed
  {
    hide FreesCleanly, RequestInRange;
    var s, few := Small(BadBlocks(i), home), BadBlocks(i);
    if i < 3 {
      SmallRequestsAreInRange(s, BadRun[i].sz, BadRun[i].align);
    } else if i == 3 {
      BadFirstFree(home, fixed);
    } else {
      BadLast(home);
    }
  }

  lemma {:induction false} BadFirstFree(home: nat, fixed: bool)
    ensures FreesCleanly(Small(BadBlocks(3), home), 0x1000, fixed)
  {
    var few := BadBlocks(3);
    assert FirstAt(few, 0x1000) == Some(1) by { assert FirstAt(few, 0x1000, 1) == Some(1); }
    NothingFree(few, few[1], fixed, 0);
    SmallKfree(few, home, 0x1000, 1, fixed);
    SmallHas(few, home, 1);
  }

  lemma {:induction false} BadLastEnds(home: nat, fixed: bool)
    ensures var r := Exec(Small(BadBlocks(4), home), BadRun[4], fixed); r.Fine? && |r.value.slots| == ALLOC_BLOCK
  {
    var few := BadBlocks(4);
    assert FirstAt(few, 0x1010) == Some(0);
    SmallKfree(few, home, 0x1010, 0, fixed);
  }

  lemma {:induction false} BadRunOk(i: nat, home: nat, fixed: bool)
    requires i < 5
    ensures RunOk(Small(BadBlocks(i), home), BadRun[i..], fixed) <==> fixed
    decreases 5 - i
  {
    hide Exec, CallOk, Small;
    var calls := BadRun[i..];
    assert calls[0] == BadRun[i];
    BadCallOk(i, home, fixed);
    if i < 4 {
      BadStep(i, home, fixed);
      BadRunOk(i + 1, home, fixed);
      assert calls[1..] == BadRun[i + 1..];
    } else {
      BadLastEnds(home, fixed);
      assert calls[1..] == [];
    }
  }

  /**
    Allocate 4, 12 and 16 bytes of a heap of 32, free the first block, free the third: the test as
    written joins the two across the block in use between them, the test that is meant does not.
    */
  lemma {:induction false} BadMergeRun(home: nat)
    ensures !RunGood(Init(0x1000, 0x20, home), BadRun, 0x1000, 0x1020, false)
    ensures RunGood(Init(0x1000, 0x20, home), BadRun, 0x1000, 0x1020, true)
  {
    hide RunGood, RunOk, Init, Healthy;
    var s := Init(0x1000, 0x20, home);
    InitIsHealthy(0x1000, 0x20, home);
    SmallInit(0x1000, 0x20, home);
    assert BadRun[0..] == BadRun;
    BadRunOk(0, home, false);
    BadRunOk(0, home, true);
    RunIff(s, BadRun, 0x1000, 0x1020, false);
    RunIff(s, BadRun, 0x1000, 0x1020, true);
  }

  // ----- A table that fills up without growth -----

  /** The blocks of a table come first, `v` of them. */
  predicate Filled(slots: seq<Entry>, v: nat) {
    |slots| == ALLOC_BLOCK && v <= ALLOC_BLOCK &&
    (forall k :: 0 <= k < v ==> slots[k].valid) && forall k :: v <= k < ALLOC_BLOCK ==> !slots[k].valid
  }

  lemma {:induction false} FilledEmpty(slots: seq<Entry>, v: nat)
    requires Filled(slots, v)
    ensures CountEmpty(slots) == ALLOC_BLOCK - v && TableOf(slots, 0) == slots
  {
    hide CountEmpty;
    EmptyConcat(slots[..v], slots[v..]);
    EmptyBlanks(slots[v..]);
    NoEmptySlots(slots[..v]);
    assert slots[..v] + slots[v..] == slots;
  }

  lemma {:induction false} FilledFirst(slots: seq<Entry>, v: nat, from: nat)
    requires Filled(slots, v) && v < ALLOC_BLOCK && from <= v
    ensures FirstEmpty(slots, from) == Some(v)
    decreases v - from
  {
    if from < v { FilledFirst(slots, v, from + 1); }
  }

  lemma {:induction false} FilledAdd(slots: seq<Entry>, v: nat, e: Entry)
    requires Filled(slots, v) && v < ALLOC_BLOCK && e.valid
    ensures Add(slots, e) == Some(slots[v := e]) && Filled(slots[v := e], v + 1)
  {
    FilledFirst(slots, v, 0);
  }

  /** Only the hole at `k` is large enough. */
  predicate OnlyHole(slots: seq<Entry>, k: nat, sz: nat) {
    k < |slots| && slots[k].valid && !slots[k].used && sz + 32 <= slots[k].size < WORD - 1 &&
    forall j :: 0 <= j < |slots| && j != k && slots[j].valid && !slots[j].used ==> slots[j].size < sz
  }

  lemma {:induction false} FindsOnlyHole(slots: seq<Entry>, k: nat, sz: nat, align: nat)
    requires OnlyHole(slots, k, sz) && 0 < sz <= 0x8000 && 0 < align <= 32
    ensures FindHole(slots, sz, align) == Some(k)
  {
    hide Offset;
    assert Fits(slots[k], sz, align);
    forall j | 0 <= j < |slots| && j != k
      ensures !Fits(slots[j], sz, align)
    {
      assert U32(sz + Offset(slots[j].addr, align)) == sz + Offset(slots[j].addr, align);
    }
    FindHoleIsBestFit(slots, sz, align, k);
  }

  /** An allocation that is a carve of hole `k`, no table being grown. */
  lemma {:induction false} FilledKamalloc(slots: seq<Entry>, home: nat, v: nat, k: nat, sz: nat, align: nat)
    requires Filled(slots, v) && OnlyHole(slots, k, sz) && 0 < sz <= 0x8000 && 0 < align <= 32 && v != ALLOC_BLOCK - 4
    ensures var s := State(slots, [home]);
            Kamalloc(s, sz, align) ==
            match Carve(slots, k, sz, align)
            case Panic => Panic
            case TableOverrun => TableOverrun
            case Fine((slots', at)) => Fine((State(slots', [home]), Some(at)))
  {
    hide FindHole, Carve, CountEmpty, TableOf;
    FindsOnlyHole(slots, k, sz, align);
    FilledEmpty(slots, v);
    assert k / ALLOC_BLOCK == 0;
  }

  /** An aligned hole gives up its first bytes, and the next slot takes them. */
  lemma {:induction false} FilledSplit(slots: seq<Entry>, home: nat, v: nat, k: nat, sz: nat, align: nat)
    requires Filled(slots, v) && OnlyHole(slots, k, sz) && 0 < sz <= 0x8000 && 0 < align <= 32
    requires v < ALLOC_BLOCK && v != ALLOC_BLOCK - 4 && slots[k].addr % align == 0
    requires slots[k].addr + slots[k].size < WORD
    ensures var e := slots[k];
            Exec(State(slots, [home]), Allocate(sz, align), false) ==
            Fine(State(slots[k := Hole(e.addr + sz, e.size - sz)][v := Block(e.addr, sz)], [home]))
  {
    hide Kamalloc, Add;
    var e := slots[k];
    var shrunk := Hole(e.addr + sz, e.size - sz);
    FilledKamalloc(slots, home, v, k, sz, align);
    assert Filled(slots[k := shrunk], v);
    FilledAdd(slots[k := shrunk], v, Block(e.addr, sz));
    assert U32(e.addr + sz) == e.addr + sz && U32(e.size - sz) == e.size - sz;
  }

  const START: nat := 0x10_0010
  const MANY: nat := 1018
  /** Where the first part of the run ends: a multiple of 16 and not of 32. */
  const MIDDLE: nat := START + 16 * MANY

  /** After `n` allocations of 16 bytes. */
  function Row(n: nat): (slots: seq<Entry>)
    requires n <= MANY
    ensures |slots| == ALLOC_BLOCK && slots[0] == Hole(START + 16 * n, 0x2_0000 - 16 * n)
    ensures forall k :: 1 <= k <= n ==> slots[k] == Block(START + 16 * (k - 1), 16)
    ensures forall k :: n < k < ALLOC_BLOCK ==> slots[k] == Blank
  {
    seq(ALLOC_BLOCK, k => if k == 0 then Hole(START + 16 * n, 0x2_0000 - 16 * n)
                          else if 1 <= k <= n then Block(START + 16 * (k - 1), 16) else Blank)
  }

  /** After one at a multiple of 32, which leaves bytes on both sides, and `m` of 32 bytes. */
  function Tail(m: nat): (slots: seq<Entry>)
    requires m <= 3
    ensures |slots| == ALLOC_BLOCK && slots[0] == Hole(MIDDLE, 16)
    ensures forall k :: 1 <= k <= MANY ==> slots[k] == Block(START + 16 * (k - 1), 16)
    ensures slots[1019] == Hole(MIDDLE + 32 + 32 * m, 0x2_0000 - 16 * MANY - 32 - 32 * m)
    ensures slots[1020] == Block(MIDDLE + 16, 16)
    ensures forall k :: 1021 <= k <= 1020 + m ==> slots[k] == Block(MIDDLE + 32 + 32 * (k - 1021), 32)
    ensures forall k :: 1020 + m < k < ALLOC_BLOCK ==> slots[k] == Blank
  {
    seq(ALLOC_BLOCK, k => if k == 0 then Hole(MIDDLE, 16)
                          else if 1 <= k <= MANY then Block(START + 16 * (k - 1), 16)
                          else if k == 1019 then Hole(MIDDLE + 32 + 32 * m, 0x2_0000 - 16 * MANY - 32 - 32 * m)
                          else if k == 1020 then Block(MIDDLE + 16, 16)
                          else if 1021 <= k <= 1020 + m then Block(MIDDLE + 32 + 32 * (k - 1021), 32) else Blank)
  }

  lemma {:induction false} RowStep(n: nat, home: nat)
    requires n < MANY
    ensures Exec(State(Row(n), [home]), Allocate(16, 16), false) == Fine(State(Row(n + 1), [home]))
  {
    hide Row, Exec;
    var slots := Row(n);
    FilledSplit(slots, home, n + 1, 0, 16, 16);
    assert slots[0 := Hole(START + 16 * (n + 1), 0x2_0000 - 16 * (n + 1))][n + 1 := Block(START + 16 * n, 16)] ==
           Row(n + 1);
  }

  lemma {:induction false} TailStep(m: nat, home: nat)
    requires m < 3
    ensures Exec(State(Tail(m), [home]), Allocate(32, 16), false) == Fine(State(Tail(m + 1), [home]))
  {
    hide Tail, Exec;
    var slots, v := Tail(m), 1021 + m;
    var e := slots[1019];
    assert Filled(slots, v) && OnlyHole(slots, 1019, 32);
    FilledSplit(slots, home, v, 1019, 32, 16);
    assert slots[1019 := Hole(e.addr + 32, e.size - 32)][v := Block(e.addr, 32)] == Tail(m + 1);
  }

  /** The allocation that takes two slots, from five empty ones to three. */
  lemma {:induction false} MiddleStep(home: nat)
    ensures Exec(State(Row(MANY), [home]), Allocate(16, 32), false) == Fine(State(Tail(0), [home]))
  {
    hide Row, Tail, Kamalloc, Add;
    var slots := Row(MANY);
    var e := slots[0];
    FilledKamalloc(slots, home, 1019, 0, 16, 32);
    var rest := Hole(e.addr + 32, e.size - 32);
    FilledAdd(slots, 1019, rest);
    var two := slots[1019 := rest][0 := e.(size := 16)];
    assert Filled(two, 1020);
    FilledAdd(two, 1020, Block(e.addr + 16, 16));
    assert e.addr % 32 == 16;
    assert U32(e.addr + 32) == e.addr + 32 && U32(e.size - 32) == e.size - 32 && U32(e.addr + 16) == e.addr + 16;
    assert two[1020 := Block(e.addr + 16, 16)] == Tail(0);
  }

  /** The state after a run of calls. */
  function After(s: State, calls: seq<Call>): Outcome<State>
    decreases |calls|
  {
    if calls == [] then Fine(s)
    else
      match After(s, calls[..|calls| - 1])
      case Fine(s1) => if |s1.slots| % ALLOC_BLOCK == 0 then Exec(s1, calls[|calls| - 1], false) else Panic
      case Panic => Panic
      case TableOverrun => TableOverrun
  }

  lemma {:induction false} AfterMore(s: State, calls: seq<Call>, s1: State, c: Call)
    requires After(s, calls) == Fine(s1) && |s1.slots| % ALLOC_BLOCK == 0
    ensures After(s, calls + [c]) == Exec(s1, c, false)
  {
    assert (calls + [c])[..|calls|] == calls;
  }

  function Times(n: nat, c: Call): (calls: seq<Call>)
    ensures |calls| == n && forall k :: 0 <= k < n ==> calls[k] == c
  {
    seq(n, k => c)
  }

  lemma {:induction false} TimesMore(n: nat, c: Call)
    ensures Times(n + 1, c) == Times(n, c) + [c]
  {
  }

  lemma {:induction false} ReachRow(n: nat, home: nat)
    requires n <= MANY
    ensures After(Init(START, 0x2_0000, home), Times(n, Allocate(16, 16))) == Fine(State(Row(n), [home]))
  {
    hide Row, Exec, After, Times, Init;
    if n == 0 {
      RowStarts(home);
    } else {
      ReachRow(n - 1, home);
      RowStep(n - 1, home);
      TimesMore(n - 1, Allocate(16, 16));
      AfterMore(Init(START, 0x2_0000, home), Times(n - 1, Allocate(16, 16)), State(Row(n - 1), [home]),
                Allocate(16, 16));
    }
  }

  lemma {:induction false} RowStarts(home: nat)
    ensures After(Init(START, 0x2_0000, home), Times(0, Allocate(16, 16))) == Fine(State(Row(0), [home]))
  {
    assert Init(START, 0x2_0000, home).slots == Row(0);
  }

  const LongRun: seq<Call> := Times(MANY, Allocate(16, 16)) + [Allocate(16, 32)]

  lemma {:induction false} ReachTail(m: nat, home: nat)
    requires m <= 3
    ensures After(Init(START, 0x2_0000, home), LongRun + Times(m, Allocate(32, 16))) == Fine(State(Tail(m), [home]))
  {
    hide Row, Tail, Exec, After, Times, Init;
    var s := Init(START, 0x2_0000, home);
    if m == 0 {
      ReachRow(MANY, home);
      MiddleStep(home);
      AfterMore(s, Times(MANY, Allocate(16, 16)), State(Row(MANY), [home]), Allocate(16, 32));
      assert LongRun + Times(0, Allocate(32, 16)) == LongRun;
    } else {
      var front := LongRun + Times(m - 1, Allocate(32, 16));
      ReachTail(m - 1, home);
      TailStep(m - 1, home);
      TimesMore(m - 1, Allocate(32, 16));
      AfterMore(s, front, State(Tail(m - 1), [home]), Allocate(32, 16));
      assert front + [Allocate(32, 16)] == LongRun + Times(m, Allocate(32, 16));
    }
  }

  /**
    1018 allocations of 16 bytes from start-up, one more at a multiple of 32, three of 32 bytes: the
    count of empty slots goes from five to three and on to none, growth is never tried, and the next
    call panics although there is a hole for another table.
    */
  lemma {:induction false} SkippedGrowthPanics(home: nat)
    ensures var r := After(Init(START, 0x2_0000, home), LongRun + Times(3, Allocate(32, 16)));
            && r.Fine? && |r.value.slots| == ALLOC_BLOCK
            && FindHole(r.value.slots, TABLE_BYTES, 1).Some? && Kamalloc(r.value, 32, 16).Panic?
  {
    hide FindHole, Kamalloc, CountEmpty, Tail, TableOf, After, Init, Times;
    ReachTail(3, home);
    var slots := Tail(3);
    FindsOnlyHole(slots, 1019, TABLE_BYTES, 1);
    FindsOnlyHole(slots, 1019, 32, 16);
    FilledEmpty(slots, ALLOC_BLOCK);
    KamallocPanicsIff(State(slots, [home]), 32, 16);
  }
}
