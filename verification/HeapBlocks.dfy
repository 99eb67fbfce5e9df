/** Which blocks are in use after a call, which bytes are free, and how the two totals move. */
module HeapBlocks {
  import opened Options
  import opened Arith
  import opened HeapSpec
  import opened HeapTiling
  import opened HeapAlloc

  /** The byte belongs to a block that can be handed out. */
  ghost predicate FreeByte(slots: seq<Entry>, x: int) {
    exists k :: 0 <= k < |slots| && Inside(slots[k], x) && !slots[k].used
  }

  /** The blocks in use are those before, and `more`. */
  ghost predicate Gained(slots: seq<Entry>, slots': seq<Entry>, more: set<(nat, nat)>) {
    forall at: nat, sz: nat :: UsedBlock(slots', at, sz) <==> UsedBlock(slots, at, sz) || (at, sz) in more
  }

  /** The blocks in use are those before, except the one at `ptr`. */
  ghost predicate Lost(slots: seq<Entry>, slots': seq<Entry>, ptr: nat) {
    forall at: nat, sz: nat :: UsedBlock(slots', at, sz) <==> UsedBlock(slots, at, sz) && at != ptr
  }

  // ----- Bytes follow from blocks -----

  /** In a tiled heap a byte is free exactly when it is in the heap and in no block in use. */
  lemma {:induction false} FreeIffNotUsed(slots: seq<Entry>, base: nat, limit: nat, x: int)
    requires Tiles(slots, base, limit)
    ensures FreeByte(slots, x) <==>
            base <= x < limit && !exists at: nat, sz: nat :: UsedBlock(slots, at, sz) && at <= x < at + sz
  {
    if base <= x < limit {
      assert Covered(slots, x);
      var j :| 0 <= j < |slots| && Inside(slots[j], x);
      if slots[j].used {
        assert UsedBlock(slots, slots[j].addr, slots[j].size) by {
          assert slots[j] == Entry(true, true, slots[j].addr, slots[j].size);
        }
        if FreeByte(slots, x) {
          var k :| 0 <= k < |slots| && Inside(slots[k], x) && !slots[k].used;
          OneOwner(slots, base, limit, j, k, x);
        }
      } else {
        forall at: nat, sz: nat | UsedBlock(slots, at, sz)
          ensures !(at <= x < at + sz)
        {
          var k :| 0 <= k < |slots| && slots[k] == Entry(true, true, at, sz);
          if Inside(slots[k], x) { OneOwner(slots, base, limit, j, k, x); }
        }
      }
    }
  }

  lemma {:induction false} GainedBytes(slots: seq<Entry>, slots': seq<Entry>, more: set<(nat, nat)>, base: nat,
                                       limit: nat, x: int)
    requires Tiles(slots, base, limit) && Tiles(slots', base, limit) && Gained(slots, slots', more)
    ensures FreeByte(slots', x) <==>
            FreeByte(slots, x) && !exists at: nat, sz: nat :: (at, sz) in more && at <= x < at + sz
  {
    hide Tiles, UsedBlock, FreeByte;
    FreeIffNotUsed(slots, base, limit, x);
    FreeIffNotUsed(slots', base, limit, x);
  }

  lemma {:induction false} LostBytes(slots: seq<Entry>, slots': seq<Entry>, ptr: nat, n: nat, base: nat, limit: nat,
                                     x: int)
    requires Tiles(slots, base, limit) && Tiles(slots', base, limit) && Lost(slots, slots', ptr)
    requires UsedBlock(slots, ptr, n)
    ensures FreeByte(slots', x) <==> FreeByte(slots, x) || ptr <= x < ptr + n
  {
    forall at: nat, sz: nat | UsedBlock(slots, at, sz)
      ensures at <= x < at + sz && ptr <= x < ptr + n ==> at == ptr
      ensures at == ptr ==> sz == n
      ensures at >= base && at + sz <= limit
    {
      BlocksApart(slots, at, sz, ptr, n, base, limit);
    }
    hide Tiles, UsedBlock, FreeByte;
    FreeIffNotUsed(slots, base, limit, x);
    FreeIffNotUsed(slots', base, limit, x);
  }

  /** Two blocks in use are one, or share no byte. */
  lemma {:induction false} BlocksApart(slots: seq<Entry>, at: nat, sz: nat, at': nat, sz': nat, base: nat, limit: nat)
    requires Tiles(slots, base, limit) && UsedBlock(slots, at, sz) && UsedBlock(slots, at', sz')
    ensures base <= at && 0 < sz && at + sz <= limit
    ensures (at == at' && sz == sz') || at + sz <= at' || at' + sz' <= at
  {
    var j :| 0 <= j < |slots| && slots[j] == Entry(true, true, at, sz);
    var k :| 0 <= k < |slots| && slots[k] == Entry(true, true, at', sz');
    assert Within(slots[j], base, limit);
    assert j < k ==> Apart(slots[j], slots[k]);
    assert k < j ==> Apart(slots[k], slots[j]);
  }

  // ----- One slot -----

  function InUse(e: Entry): nat {
    if e.valid && e.used then e.size else 0
  }

  lemma {:induction false} UsedUpdate(slots: seq<Entry>, k: nat, e: Entry)
    requires k < |slots|
    ensures Used(slots[k := e]) == Used(slots) - InUse(slots[k]) + InUse(e)
    decreases |slots|
  {
    var last := |slots| - 1;
    if k == last {
      assert slots[k := e][..last] == slots[..last];
    } else {
      UsedUpdate(slots[..last], k, e);
      assert slots[k := e][..last] == slots[..last][k := e];
    }
  }

  lemma {:induction false} UsedOfBlanks(slots: seq<Entry>, more: seq<Entry>)
    requires forall k :: 0 <= k < |more| ==> !more[k].valid
    ensures Used(slots + more) == Used(slots)
    decreases |more|
  {
    if more == [] {
      assert slots + more == slots;
    } else {
      var last := |more| - 1;
      UsedOfBlanks(slots, more[..last]);
      assert (slots + more)[..|slots| + last] == slots + more[..last];
    }
  }

  /** Writing a slot that holds no block in use. */
  lemma {:induction false} PutBlock(slots: seq<Entry>, m: nat, e: Entry)
    requires m < |slots| && InUse(slots[m]) == 0 && !(slots[m].valid && slots[m].used)
    ensures forall at: nat, sz: nat :: UsedBlock(slots[m := e], at, sz) <==>
              UsedBlock(slots, at, sz) || e == Entry(true, true, at, sz)
    ensures Used(slots[m := e]) == Used(slots) + InUse(e)
  {
    UsedUpdate(slots, m, e);
    hide Used;
    forall at: nat, sz: nat
      ensures UsedBlock(slots[m := e], at, sz) <==> UsedBlock(slots, at, sz) || e == Entry(true, true, at, sz)
    {
      if UsedBlock(slots, at, sz) {
        var j :| 0 <= j < |slots| && slots[j] == Entry(true, true, at, sz);
        assert slots[m := e][j] == Entry(true, true, at, sz);
      }
      if e == Entry(true, true, at, sz) { assert slots[m := e][m] == Entry(true, true, at, sz); }
    }
  }

  /** The blocks in use and their total after `e` went into an empty slot. */
  lemma {:induction false} AddBlock(slots: seq<Entry>, e: Entry)
    requires Add(slots, e).Some?
    ensures var slots' := Add(slots, e).value;
            && (forall at: nat, sz: nat :: UsedBlock(slots', at, sz) <==>
                UsedBlock(slots, at, sz) || e == Entry(true, true, at, sz))
            && Used(slots') == Used(slots) + InUse(e)
  {
    PutBlock(slots, FirstEmpty(slots).value, e);
  }

  // ----- Allocation -----

  /** Exactly the block handed out comes into use. */
  lemma {:induction false} CarveGains(slots: seq<Entry>, k: nat, sz: nat, align: nat)
    requires k < |slots| && align > 0 && slots[k].valid && !slots[k].used && Carve(slots, k, sz, align).Fine?
    ensures var (slots', at) := Carve(slots, k, sz, align).value;
            Gained(slots, slots', {(at, sz)}) && Used(slots') == Used(slots) + sz
  {
    hide Used, UsedBlock, Add, U32;
    var e := slots[k];
    if e.size == sz {
      PutBlock(slots, k, e.(used := true));
    } else if e.addr % align == 0 {
      var shrunk := e.(addr := U32(e.addr + sz), size := U32(e.size - sz));
      PutBlock(slots, k, shrunk);
      AddBlock(slots[k := shrunk], Entry(true, true, e.addr, sz));
    } else {
      MisalignedGains(slots, k, sz, align);
    }
  }

  lemma {:induction false} MisalignedGains(slots: seq<Entry>, k: nat, sz: nat, align: nat)
    requires k < |slots| && align > 0 && slots[k].valid && !slots[k].used && Carve(slots, k, sz, align).Fine?
    requires slots[k].size != sz && slots[k].addr % align != 0
    ensures var (slots', at) := Carve(slots, k, sz, align).value;
            Gained(slots, slots', {(at, sz)}) && Used(slots') == Used(slots) + sz
  {
    hide Used, UsedBlock, U32;
    var e, off := slots[k], align - slots[k].addr % align;
    var taken := U32(sz + off);
    var rest := Entry(true, false, U32(e.addr + taken), U32(e.size - taken));
    var more := if e.size > taken then Add(slots, rest).value else slots;
    if e.size > taken { AddBlock(slots, rest); }
    assert more[k] == e;
    PutBlock(more, k, e.(size := off));
    AddBlock(more[k := e.(size := off)], Entry(true, true, U32(e.addr + off), sz));
  }

  /** The block of the table that was installed between two states, if one was. */
  function NewTable(s: State, s': State): set<(nat, nat)> {
    if |s'.tables| > |s.tables| then {(s'.tables[|s'.tables| - 1], TABLE_BYTES)} else {}
  }

  function TableBytes(s: State, s': State): nat {
    if |s'.tables| > |s.tables| then TABLE_BYTES else 0
  }

  lemma {:induction false} BlankBlocks(slots: seq<Entry>)
    ensures Gained(slots, slots + FreshTable(), {}) && Used(slots + FreshTable()) == Used(slots)
  {
    var slots' := slots + FreshTable();
    assert forall k :: 0 <= k < |FreshTable()| ==> !FreshTable()[k].valid;
    UsedOfBlanks(slots, FreshTable());
    hide Used, FreshTable;
    forall at: nat, sz: nat
      ensures UsedBlock(slots', at, sz) <==> UsedBlock(slots, at, sz)
    {
      if UsedBlock(slots, at, sz) {
        var j :| 0 <= j < |slots| && slots[j] == Entry(true, true, at, sz);
        assert slots'[j] == Entry(true, true, at, sz);
      }
    }
  }

  /** Growth brings the new table's block into use, and no other. */
  lemma {:induction false} GrowGains(s: State)
    requires Grow(s).Fine?
    ensures var s' := Grow(s).value;
            && |s'.tables| == |s.tables| + 1 && Gained(s.slots, s'.slots, NewTable(s, s'))
            && Used(s'.slots) == Used(s.slots) + TABLE_BYTES
  {
    var k := FindHole(s.slots, TABLE_BYTES, 1).value;
    var e := s.slots[k];
    hide Used, UsedBlock, FreshTable, FindHole, Carve;
    GrowIsCarve(s.slots, k);
    CarveGains(s.slots, k, TABLE_BYTES, 1);
    BlankBlocks(Carve(s.slots, k, TABLE_BYTES, 1).value.0);
  }

  lemma {:induction false} MaybeGrowGains(s: State, sz: nat, align: nat)
    requires align > 0 && |s.slots| % ALLOC_BLOCK == 0 && MaybeGrow(s, sz, align).Fine?
    ensures var s' := MaybeGrow(s, sz, align).value;
            && |s.tables| <= |s'.tables| && Gained(s.slots, s'.slots, NewTable(s, s'))
            && Used(s'.slots) == Used(s.slots) + TableBytes(s, s')
  {
    hide Used, UsedBlock, FindHole, Grow, CountEmpty, TableOf;
    if MaybeGrow(s, sz, align) == Grow(s) && Grow(s).Fine? { GrowGains(s); }
  }

  /** What a call hands out. */
  function Handed(r: Option<nat>, sz: nat): set<(nat, nat)> {
    match r
    case None => {}
    case Some(at) => {(at, sz)}
  }

  /**
    A call brings exactly the block it hands out into use, and the block of a table if it made one;
    the total in use grows by their sizes.
    */
  lemma {:induction false} KamallocGains(s: State, sz: nat, align: nat)
    requires |s.slots| % ALLOC_BLOCK == 0 && Kamalloc(s, sz, align).Fine?
    ensures var (s', r) := Kamalloc(s, sz, align).value;
            && |s.tables| <= |s'.tables| && Gained(s.slots, s'.slots, NewTable(s, s') + Handed(r, sz))
            && Used(s'.slots) == Used(s.slots) + TableBytes(s, s') + if r.Some? then sz else 0
  {
    hide Used, UsedBlock, FindHole, MaybeGrow, Carve;
    if align > 0 && sz > 0 && FindHole(s.slots, sz, align).Some? {
      MaybeGrowGains(s, sz, align);
      var s1 := MaybeGrow(s, sz, align).value;
      HoleIsFree(s1.slots, sz, align);
      var r := FindHole(s1.slots, sz, align);
      if r.Some? { CarveGains(s1.slots, r.value, sz, align); }
    }
  }

  lemma {:induction false} HoleIsFree(slots: seq<Entry>, sz: nat, align: nat)
    requires align > 0
    ensures var r := FindHole(slots, sz, align);
            r.Some? ==> r.value < |slots| && slots[r.value].valid && !slots[r.value].used
  {
  }

  /** No free block is large enough; one of 0xFFFFFFFF bytes is never seen. */
  ghost predicate NoRoom(slots: seq<Entry>, sz: nat, align: nat)
    requires align > 0
  {
    forall k :: 0 <= k < |slots| && Fits(slots[k], sz, align) ==> slots[k].size >= WORD - 1
  }

  /** A call that does not fail answers NULL for an empty request, and when no hole fits before or after growth. */
  lemma {:induction false} KamallocNoneIff(s: State, sz: nat, align: nat)
    requires |s.slots| % ALLOC_BLOCK == 0 && Kamalloc(s, sz, align).Fine?
    ensures var (s', r) := Kamalloc(s, sz, align).value;
            r.None? <==>
            || sz == 0 || align == 0 || NoRoom(s.slots, sz, align)
            || (MaybeGrow(s, sz, align).Fine? && NoRoom(MaybeGrow(s, sz, align).value.slots, sz, align))
    ensures var (s', r) := Kamalloc(s, sz, align).value;
            r.None? && sz > 0 && align > 0 ==> NoRoom(s'.slots, sz, align)
  {
    hide MaybeGrow, Carve, FindHole, Fits;
    if sz > 0 && align > 0 {
      FindHoleIsBestFit(s.slots, sz, align, 0);
      if FindHole(s.slots, sz, align).Some? {
        FindHoleIsBestFit(MaybeGrow(s, sz, align).value.slots, sz, align, 0);
      }
    }
  }

  /** What is handed out was free. */
  lemma {:induction false} HandedWasFree(s: State, sz: nat, align: nat, base: nat, limit: nat, x: int)
    requires Healthy(s, base, limit) && sz < WORD && align < WORD && RequestInRange(s, sz, align)
    requires Kamalloc(s, sz, align).Fine? && Kamalloc(s, sz, align).value.1.Some?
    requires var at := Kamalloc(s, sz, align).value.1.value; at <= x < at + sz
    ensures FreeByte(s.slots, x)
  {
    hide Tiles, Used, UsedBlock, Kamalloc, RequestInRange, Total, TablesReserved, MaybeGrow, FindHole, UsedKept;
    var (s', r) := Kamalloc(s, sz, align).value;
    SomeIsSized(s, sz, align);
    KamallocIff(s, sz, align, base, limit);
    var s1: State, k: nat :| CarvesFrom(s, sz, align, s1, k) && Chosen(s1.slots, |s1.slots|, sz, align, k) &&
                             s1.slots[k].addr <= r.value && r.value + sz <= s1.slots[k].addr + s1.slots[k].size;
    assert FreeByte(s1.slots, x) by { assert Inside(s1.slots[k], x); }
    MaybeGrowKeeps(s, sz, align, base, limit);
    MaybeGrowGains(s, sz, align);
    GainedBytes(s.slots, s1.slots, NewTable(s, s1), base, limit, x);
  }

  /**
    A request in range takes from the free bytes exactly those handed out, and those of a table if one
    was made; the free total falls by as many.
    */
  lemma {:induction false} KamallocTakes(s: State, sz: nat, align: nat, base: nat, limit: nat, x: int)
    requires Healthy(s, base, limit) && sz < WORD && align < WORD
    requires Kamalloc(s, sz, align).Fine? && RequestInRange(s, sz, align)
    ensures var (s', r) := Kamalloc(s, sz, align).value;
            && (FreeByte(s'.slots, x) <==>
                FreeByte(s.slots, x) &&
                !exists at: nat, n: nat :: (at, n) in NewTable(s, s') + Handed(r, sz) && at <= x < at + n)
            && Free(s'.slots) == Free(s.slots) - TableBytes(s, s') - if r.Some? then sz else 0
  {
    hide Tiles, Used, Free, UsedBlock, FreeByte, Kamalloc, RequestInRange, Total, TablesReserved;
    var (s', r) := Kamalloc(s, sz, align).value;
    KamallocGains(s, sz, align);
    if r.Some? {
      SomeIsSized(s, sz, align);
      KamallocIff(s, sz, align, base, limit);
    } else {
      KamallocNoneKeeps(s, sz, align, base, limit);
    }
    GainedBytes(s.slots, s'.slots, NewTable(s, s') + Handed(r, sz), base, limit, x);
    UsedPlusFree(s.slots);
    UsedPlusFree(s'.slots);
  }

  lemma {:induction false} SomeIsSized(s: State, sz: nat, align: nat)
    requires |s.slots| % ALLOC_BLOCK == 0 && Kamalloc(s, sz, align).Fine? && Kamalloc(s, sz, align).value.1.Some?
    ensures align > 0 && sz > 0
  {
  }
}
