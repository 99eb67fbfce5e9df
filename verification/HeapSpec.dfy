/**
  The kernel heap as functions on its entry tables.

  Tables are installed at the first empty place of `allocs` and never removed,
  so the installed ones are always a prefix; `slots` is their concatenation and
  slot `1024 * j + i` stands for `allocs[j][i]`.
  */
module HeapSpec {
  import opened Options
  import opened Arith

  const ALLOC_BLOCK: nat := 1024
  const ALLOC_BLOCKS: nat := 512
  /** Bytes of one entry table: 1024 entries of 12 bytes. */
  const TABLE_BYTES: nat := 12288

  datatype Entry = Entry(valid: bool, used: bool, addr: nat, size: nat)

  /** `tables` holds the address of each installed entry table. */
  datatype State = State(slots: seq<Entry>, tables: seq<nat>)

  /** How a heap call ends: normally, in kpanic, or by writing past `allocs`. */
  datatype Outcome<+T> = Fine(value: T) | Panic | TableOverrun

  const Blank := Entry(false, false, 0, 0)

  function FreshTable(): seq<Entry> {
    seq(ALLOC_BLOCK, i => Blank)
  }

  // ----- _find_hole -----

  /** Distance from `addr` up to the next multiple of `align`. */
  function Offset(addr: nat, align: nat): (off: nat)
    requires align > 0
    ensures off < align && (addr + off) % align == 0
  {
    OffsetAligns(addr, align);
    if addr % align == 0 then 0 else align - addr % align
  }

  lemma {:induction false} OffsetAligns(addr: nat, align: nat)
    requires align > 0
    ensures addr % align != 0 ==> (addr + (align - addr % align)) % align == 0
  {
    var q := addr / align;
    assert addr + (align - addr % align) == (q + 1) * align;
    DivModUnique((q + 1) * align, q + 1, align, 0);
  }

  /** The size test of the hole search, in 32-bit arithmetic. */
  predicate Fits(e: Entry, sz: nat, align: nat)
    requires align > 0
  {
    e.valid && !e.used && e.size >= U32(sz + Offset(e.addr, align))
  }

  /** The slot chosen among the first `n`; the bound for the first candidate is 0xFFFFFFFF. */
  function Best(slots: seq<Entry>, n: nat, sz: nat, align: nat): (r: Option<nat>)
    requires n <= |slots| && align > 0
    ensures r.Some? ==> r.value < n && Fits(slots[r.value], sz, align)
  {
    if n == 0 then None
    else
      var b := Best(slots, n - 1, sz, align);
      var bound := if b.None? then WORD - 1 else slots[b.value].size;
      if Fits(slots[n - 1], sz, align) && slots[n - 1].size < bound then Some(n - 1) else b
  }

  function FindHole(slots: seq<Entry>, sz: nat, align: nat): (r: Option<nat>)
    requires align > 0
    ensures r.Some? ==> r.value < |slots| && Fits(slots[r.value], sz, align)
  {
    Best(slots, |slots|, sz, align)
  }

  // ----- add_alloc -----

  function FirstEmpty(slots: seq<Entry>, from: nat := 0): (r: Option<nat>)
    requires from <= |slots|
    ensures r.Some? ==> from <= r.value < |slots| && !slots[r.value].valid
    ensures r.None? ==> forall k :: from <= k < |slots| ==> slots[k].valid
    decreases |slots| - from
  {
    if from == |slots| then None
    else if !slots[from].valid then Some(from)
    else FirstEmpty(slots, from + 1)
  }

  function Add(slots: seq<Entry>, e: Entry): (r: Option<seq<Entry>>)
    ensures r.Some? ==> |r.value| == |slots|
  {
    match FirstEmpty(slots)
    case None => None
    case Some(m) => Some(slots[m := e])
  }

  // ----- Growth -----

  function CountEmpty(slots: seq<Entry>): nat {
    if slots == [] then 0 else (if slots[0].valid then 0 else 1) + CountEmpty(slots[1..])
  }

  /** Slots of table `block`. */
  function TableOf(slots: seq<Entry>, block: nat): seq<Entry>
    requires (block + 1) * ALLOC_BLOCK <= |slots|
  {
    slots[block * ALLOC_BLOCK..(block + 1) * ALLOC_BLOCK]
  }

  function Install(slots: seq<Entry>, tables: seq<nat>, at: nat): Outcome<State> {
    if |tables| == ALLOC_BLOCKS then TableOverrun else Fine(State(slots + FreshTable(), tables + [at]))
  }

  function Grow(s: State): Outcome<State> {
    match FindHole(s.slots, TABLE_BYTES, 1)
    case None => Panic
    case Some(k) =>
      var e := s.slots[k];
      if e.size == TABLE_BYTES then
        Install(s.slots[k := e.(used := true)], s.tables, e.addr)
      else
        var shrunk := s.slots[k := e.(addr := U32(e.addr + TABLE_BYTES), size := U32(e.size - TABLE_BYTES))];
        match Add(shrunk, Entry(true, true, e.addr, TABLE_BYTES))
        case None => Panic
        case Some(slots) => Install(slots, s.tables, e.addr)
  }

  // ----- kamalloc -----

  /** Takes `sz` bytes out of hole `k`. */
  function Carve(slots: seq<Entry>, k: nat, sz: nat, align: nat): Outcome<(seq<Entry>, nat)>
    requires k < |slots| && align > 0
  {
    var e := slots[k];
    if e.size == sz then Fine((slots[k := e.(used := true)], e.addr))
    else if e.addr % align != 0 then
      var correction := align - e.addr % align;
      var taken := U32(sz + correction);
      var withRest :=
        if e.size > taken then Add(slots, Entry(true, false, U32(e.addr + taken), U32(e.size - taken)))
        else Some(slots);
      match withRest
      case None => Panic
      case Some(slots') =>
        var at := U32(e.addr + correction);
        match Add(slots'[k := slots'[k].(size := correction)], Entry(true, true, at, sz))
        case None => Panic
        case Some(slots'') => Fine((slots'', at))
    else
      match Add(slots[k := e.(addr := U32(e.addr + sz), size := U32(e.size - sz))], Entry(true, true, e.addr, sz))
      case None => Panic
      case Some(slots') => Fine((slots', e.addr))
  }

  /** The growth test looks only at the table of the hole, and only for exactly four empty slots. */
  function MaybeGrow(s: State, sz: nat, align: nat): Outcome<State>
    requires align > 0 && |s.slots| % ALLOC_BLOCK == 0
  {
    match FindHole(s.slots, sz, align)
    case None => Fine(s)
    case Some(k) =>
      if CountEmpty(TableOf(s.slots, k / ALLOC_BLOCK)) == 4 then Grow(s) else Fine(s)
  }

  function Kamalloc(s: State, sz: nat, align: nat): Outcome<(State, Option<nat>)>
    requires |s.slots| % ALLOC_BLOCK == 0
  {
    if align == 0 || sz == 0 then Fine((s, None))
    else if FindHole(s.slots, sz, align).None? then Fine((s, None))
    else
      match MaybeGrow(s, sz, align)
      case Panic => Panic
      case TableOverrun => TableOverrun
      case Fine(s') =>
        match FindHole(s'.slots, sz, align)
        case None => Fine((s', None))
        case Some(k) =>
          match Carve(s'.slots, k, sz, align)
          case Panic => Panic
          case TableOverrun => TableOverrun
          case Fine((slots, at)) => Fine((State(slots, s'.tables), Some(at)))
  }

  // ----- kfree -----

  /**
    The merge test.  As written it recognises a preceding block by the freed block's size; `fixed`
    chooses the test that is meant, by the preceding block's own size.
    */
  predicate Mergeable(e: Entry, freed: Entry, fixed: bool) {
    var size := if fixed then e.size else freed.size;
    e.valid && (U32(e.addr + size) == freed.addr || e.addr == U32(freed.addr + freed.size)) && !e.used
  }

  function FirstMergeable(slots: seq<Entry>, freed: Entry, fixed: bool, from: nat := 0): (r: Option<nat>)
    requires from <= |slots|
    ensures r.Some? ==> from <= r.value < |slots| && Mergeable(slots[r.value], freed, fixed)
    ensures r.None? ==> forall k :: from <= k < |slots| ==> !Mergeable(slots[k], freed, fixed)
    decreases |slots| - from
  {
    if from == |slots| then None
    else if Mergeable(slots[from], freed, fixed) then Some(from)
    else FirstMergeable(slots, freed, fixed, from + 1)
  }

  function Merge(e: Entry, freed: Entry): Entry {
    e.(size := U32(e.size + freed.size), addr := if e.addr > freed.addr then freed.addr else e.addr)
  }

  function Release(slots: seq<Entry>, k: nat, fixed: bool): (r: seq<Entry>)
    requires k < |slots|
    ensures |r| == |slots|
  {
    match FirstMergeable(slots, slots[k], fixed)
    case None => slots[k := slots[k].(used := false)]
    case Some(j) =>
      var merged := slots[j := Merge(slots[j], slots[k])];
      merged[k := merged[k].(valid := false)]
  }

  function FirstAt(slots: seq<Entry>, ptr: nat, from: nat := 0): (r: Option<nat>)
    requires from <= |slots|
    ensures r.Some? ==> from <= r.value < |slots| && slots[r.value].valid && slots[r.value].addr == ptr
    ensures r.None? ==> forall k :: from <= k < |slots| ==> !(slots[k].valid && slots[k].addr == ptr)
    decreases |slots| - from
  {
    if from == |slots| then None
    else if slots[from].valid && slots[from].addr == ptr then Some(from)
    else FirstAt(slots, ptr, from + 1)
  }

  function Kfree(s: State, ptr: nat, fixed: bool): Outcome<State> {
    match FirstAt(s.slots, ptr)
    case None => Panic
    case Some(k) => Fine(s.(slots := Release(s.slots, k, fixed)))
  }

  // ----- Totals and start -----

  function Used(slots: seq<Entry>): nat {
    if slots == [] then 0
    else Used(slots[..|slots| - 1]) +
         (var e := slots[|slots| - 1]; if e.valid && e.used then e.size else 0)
  }

  function Free(slots: seq<Entry>): nat {
    if slots == [] then 0
    else Free(slots[..|slots| - 1]) +
         (var e := slots[|slots| - 1]; if e.valid && !e.used then e.size else 0)
  }

  /** The heap after init_alloc; `home` is the address of the statically allocated first table. */
  function Init(base: nat, size: nat, home: nat): State {
    State(FreshTable()[0 := Entry(true, false, base, size)], [home])
  }
}
