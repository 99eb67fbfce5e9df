/** What it means for the entries to tile the heap, and the moves that keep it so. */
module HeapTiling {
  import opened Arith
  import opened HeapSpec

  predicate Inside(e: Entry, x: int) {
    e.valid && e.addr <= x < e.addr + e.size
  }

  predicate Apart(e: Entry, f: Entry) {
    e.addr + e.size <= f.addr || f.addr + f.size <= e.addr
  }

  predicate Within(e: Entry, base: nat, limit: nat) {
    base <= e.addr && 0 < e.size && e.addr + e.size <= limit
  }

  ghost predicate Covered(slots: seq<Entry>, x: int) {
    exists k :: 0 <= k < |slots| && Inside(slots[k], x)
  }

  /** Valid entries are non-empty, pairwise disjoint, and together exactly the bytes from `base` to `limit`. */
  ghost predicate Tiles(slots: seq<Entry>, base: nat, limit: nat) {
    && base <= limit <= WORD && limit - base < WORD
    && (forall k :: 0 <= k < |slots| && slots[k].valid ==> Within(slots[k], base, limit))
    && (forall j, k :: 0 <= j < k < |slots| && slots[j].valid && slots[k].valid ==> Apart(slots[j], slots[k]))
    && (forall x :: base <= x < limit ==> Covered(slots, x))
  }

  /** `a` then `b` are exactly the bytes of `e`. */
  predicate Parts(e: Entry, a: Entry, b: Entry) {
    a.valid && b.valid && 0 < a.size && 0 < b.size &&
    a.addr == e.addr && b.addr == a.addr + a.size && a.size + b.size == e.size
  }

  // ----- Moves -----

  /** Changing only whether a block is used. */
  lemma {:induction false} RemarkTiles(slots: seq<Entry>, k: nat, e: Entry, base: nat, limit: nat)
    requires Tiles(slots, base, limit) && k < |slots|
    requires e == slots[k].(used := e.used)
    ensures Tiles(slots[k := e], base, limit)
  {
    var slots' := slots[k := e];
    forall x | base <= x < limit
      ensures Covered(slots', x)
    {
      assert Covered(slots, x);
      var j :| 0 <= j < |slots| && Inside(slots[j], x);
      assert Inside(slots'[j], x);
    }
  }

  /** Splitting block `k` between its own slot and an empty slot `m`. */
  lemma {:induction false} SplitTiles(slots: seq<Entry>, k: nat, m: nat, e: Entry, f: Entry, base: nat, limit: nat)
    requires Tiles(slots, base, limit) && k < |slots| && m < |slots| && k != m
    requires slots[k].valid && !slots[m].valid
    requires Parts(slots[k], e, f) || Parts(slots[k], f, e)
    ensures Tiles(slots[k := e][m := f], base, limit)
  {
    var slots' := slots[k := e][m := f];
    forall x | base <= x < limit
      ensures Covered(slots', x)
    {
      assert Covered(slots, x);
      var j :| 0 <= j < |slots| && Inside(slots[j], x);
      if j != k {
        assert Inside(slots'[j], x);
      } else {
        assert Inside(slots'[k], x) || Inside(slots'[m], x);
      }
    }
    forall i, j | 0 <= i < j < |slots'| && slots'[i].valid && slots'[j].valid
      ensures Apart(slots'[i], slots'[j])
    {
      if i != k && i != m && j != k && j != m {
        assert Apart(slots[i], slots[j]);
      } else {
        var o := if i == k || i == m then j else i;
        if o != k && o != m { assert Apart(slots[o], slots[k]) || Apart(slots[k], slots[o]); }
      }
    }
  }

  /** Joining block `k` into its neighbour `j`, and emptying slot `k`. */
  lemma {:induction false} JoinTiles(slots: seq<Entry>, j: nat, k: nat, e: Entry, f: Entry, base: nat, limit: nat)
    requires Tiles(slots, base, limit) && j < |slots| && k < |slots| && j != k
    requires slots[j].valid && slots[k].valid && e.valid && !f.valid
    requires Parts(e, slots[j], slots[k]) || Parts(e, slots[k], slots[j])
    ensures Tiles(slots[j := e][k := f], base, limit)
  {
    var slots' := slots[j := e][k := f];
    forall x | base <= x < limit
      ensures Covered(slots', x)
    {
      assert Covered(slots, x);
      var i :| 0 <= i < |slots| && Inside(slots[i], x);
      if i == k || i == j {
        assert Inside(slots'[j], x);
      } else {
        assert Inside(slots'[i], x);
      }
    }
    forall i, o | 0 <= i < o < |slots'| && slots'[i].valid && slots'[o].valid
      ensures Apart(slots'[i], slots'[o])
    {
      assert Apart(slots[i], slots[o]);
      if i == j || o == j {
        var other := if i == j then o else i;
        assert Apart(slots[other], slots[k]) || Apart(slots[k], slots[other]);
        assert Apart(slots[other], slots[j]) || Apart(slots[j], slots[other]);
      }
    }
  }

  /** Installing an empty table. */
  lemma {:induction false} ExtendTiles(slots: seq<Entry>, base: nat, limit: nat)
    requires Tiles(slots, base, limit)
    ensures Tiles(slots + FreshTable(), base, limit)
  {
    var slots' := slots + FreshTable();
    assert forall k :: 0 <= k < |slots'| && slots'[k].valid ==> k < |slots| && slots'[k] == slots[k];
    forall x | base <= x < limit
      ensures Covered(slots', x)
    {
      assert Covered(slots, x);
      var j :| 0 <= j < |slots| && Inside(slots[j], x);
      assert Inside(slots'[j], x);
    }
  }

  lemma {:induction false} InitTiles(base: nat, size: nat, home: nat)
    requires 0 < size < WORD && base + size <= WORD
    ensures Tiles(Init(base, size, home).slots, base, base + size)
  {
    var slots := Init(base, size, home).slots;
    forall x | base <= x < base + size
      ensures Covered(slots, x)
    {
      assert Inside(slots[0], x);
    }
  }

  /** A byte has one owner. */
  lemma {:induction false} OneOwner(slots: seq<Entry>, base: nat, limit: nat, j: nat, k: nat, x: int)
    requires Tiles(slots, base, limit) && j < |slots| && k < |slots|
    requires Inside(slots[j], x) && Inside(slots[k], x)
    ensures j == k
  {
    var e, f := slots[j], slots[k];
    assert j < k ==> Apart(e, f);
    assert k < j ==> Apart(f, e);
  }

  // ----- Totals -----

  function Bytes(e: Entry): nat {
    if e.valid then e.size else 0
  }

  function Total(slots: seq<Entry>): nat {
    if slots == [] then 0 else Total(slots[..|slots| - 1]) + Bytes(slots[|slots| - 1])
  }

  lemma {:induction false} UsedPlusFree(slots: seq<Entry>)
    ensures Used(slots) + Free(slots) == Total(slots)
  {
    if slots != [] { UsedPlusFree(slots[..|slots| - 1]); }
  }

  lemma {:induction false} TotalUpdate(slots: seq<Entry>, k: nat, e: Entry)
    requires k < |slots|
    ensures Total(slots[k := e]) == Total(slots) - Bytes(slots[k]) + Bytes(e)
    decreases |slots|
  {
    var last := |slots| - 1;
    if k == last {
      assert slots[k := e][..last] == slots[..last];
    } else {
      TotalUpdate(slots[..last], k, e);
      assert slots[k := e][..last] == slots[..last][k := e];
    }
  }

  lemma {:induction false} TotalOfBlanks(slots: seq<Entry>, more: seq<Entry>)
    requires forall k :: 0 <= k < |more| ==> !more[k].valid
    ensures Total(slots + more) == Total(slots)
    decreases |more|
  {
    if more == [] {
      assert slots + more == slots;
    } else {
      var last := |more| - 1;
      TotalOfBlanks(slots, more[..last]);
      assert (slots + more)[..|slots| + last] == slots + more[..last];
    }
  }

  lemma {:induction false} TotalOfNone()
    ensures Total([]) == 0
  {
  }

  lemma {:induction false} InitTotal(base: nat, size: nat, home: nat)
    ensures Total(Init(base, size, home).slots) == size
  {
    var blank := FreshTable();
    assert forall k :: 0 <= k < |blank| ==> !blank[k].valid;
    assert Init(base, size, home).slots == blank[0 := Entry(true, false, base, size)];
    hide FreshTable, Total, Init;
    TotalOfBlanks([], blank);
    assert [] + blank == blank;
    TotalOfNone();
    TotalUpdate(blank, 0, Entry(true, false, base, size));
  }
}
