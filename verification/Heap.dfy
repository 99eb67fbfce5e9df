/** The kernel heap as an object whose entry tables are edited in place. */
module Heap {
  import opened Options
  import opened Arith
  import opened HeapSpec
  import opened HeapTiling
  import HeapAlloc
  import HeapFree

  class Allocator {
    var slots: seq<Entry>
    var tables: seq<nat>

    ghost function View(): State
      reads this
    {
      State(slots, tables)
    }

    ghost predicate Valid()
      reads this
    {
      |slots| == ALLOC_BLOCK * |tables|
    }

    constructor (base: nat, size: nat, home: nat)
      ensures Valid() && View() == Init(base, size, home)
      ensures 0 < size < WORD && base + size <= WORD ==> HeapAlloc.Healthy(View(), base, base + size)
    {
      slots := FreshTable()[0 := Entry(true, false, base, size)];
      tables := [home];
      if 0 < size < WORD && base + size <= WORD { HeapFree.InitIsHealthy(base, size, home); }
    }

    /** add_alloc; false stands for its panic. */
    method AddAlloc(e: Entry) returns (ok: bool)
      modifies this`slots
      ensures ok <==> Add(old(slots), e).Some?
      ensures slots == if ok then Add(old(slots), e).value else old(slots)
    {
      var i := 0;
      while i < |slots|
        invariant i <= |slots| && slots == old(slots)
        invariant FirstEmpty(slots) == FirstEmpty(slots, i)
      {
        if !slots[i].valid {
          slots := slots[i := e];
          return true;
        }
        i := i + 1;
      }
      return false;
    }

    method FindHole(sz: nat, align: nat) returns (r: Option<nat>)
      requires align > 0
      ensures r == HeapSpec.FindHole(slots, sz, align)
      ensures r.Some? ==> HeapAlloc.Chosen(slots, |slots|, sz, align, r.value)
    {
      r := None;
      var size := WORD - 1;
      for i := 0 to |slots|
        invariant r == Best(slots, i, sz, align)
        invariant size == if r.None? then WORD - 1 else slots[r.value].size
      {
        if slots[i].valid && !slots[i].used {
          var off := align - slots[i].addr % align;
          if off == align { off := 0; }
          if slots[i].size >= U32(sz + off) {
            if slots[i].size < size {
              r, size := Some(i), slots[i].size;
            }
          }
        }
      }
      HeapAlloc.BestIsChosen(slots, |slots|, sz, align);
    }

    method EmptySlots(block: nat) returns (fill: nat)
      requires (block + 1) * ALLOC_BLOCK <= |slots|
      ensures fill == CountEmpty(TableOf(slots, block))
    {
      ghost var table := TableOf(slots, block);
      var first := block * ALLOC_BLOCK;
      var empty := ALLOC_BLOCK;
      var i := 0;
      while i < ALLOC_BLOCK
        invariant i <= ALLOC_BLOCK && 0 <= empty - (ALLOC_BLOCK - i)
        invariant CountEmpty(table) == empty - (ALLOC_BLOCK - i) + CountEmpty(table[i..])
      {
        assert slots[first + i] == table[i..][0] && table[i + 1..] == table[i..][1..];
        if slots[first + i].valid { empty := empty - 1; }
        i := i + 1;
      }
      fill := empty;
    }

    /** _alloc_new_block: takes memory for one more table out of the heap it describes. */
    method AllocNewBlock() returns (r: Outcome<()>)
      modifies this
      ensures match Grow(old(View()))
              case Fine(s) => r.Fine? && View() == s
              case Panic => r.Panic?
              case TableOverrun => r.TableOverrun?
    {
      var hole := FindHole(TABLE_BYTES, 1);
      if hole.None? { return Panic; }
      var k := hole.value;
      var e := slots[k];
      if e.size == TABLE_BYTES {
        slots := slots[k := e.(used := true)];
      } else {
        slots := slots[k := e.(addr := U32(e.addr + TABLE_BYTES), size := U32(e.size - TABLE_BYTES))];
        var ok := AddAlloc(Entry(true, true, e.addr, TABLE_BYTES));
        if !ok { return Panic; }
      }
      if |tables| == ALLOC_BLOCKS { return TableOverrun; }
      slots, tables := slots + FreshTable(), tables + [e.addr];
      return Fine(());
    }

    method Kamalloc(sz: nat, align: nat) returns (r: Outcome<Option<nat>>)
      requires Valid()
      modifies this
      ensures match HeapSpec.Kamalloc(old(View()), sz, align)
              case Fine((s, p)) => r == Fine(p) && View() == s && Valid()
              case Panic => r.Panic?
              case TableOverrun => r.TableOverrun?
    {
      if align == 0 || sz == 0 { return Fine(None); }
      var hole := FindHole(sz, align);
      if hole.None? { return Fine(None); }
      var block := hole.value / ALLOC_BLOCK;
      var empty := EmptySlots(block);
      if empty == 4 {
        var grown := AllocNewBlock();
        if grown.Panic? { return Panic; }
        if grown.TableOverrun? { return TableOverrun; }
        GrowLength(old(View()));
      }
      hole := FindHole(sz, align);
      if hole.None? { return Fine(None); }
      ghost var s1 := View();
      r := Take(hole.value, sz, align);
      if r.Fine? { HeapAlloc.CarveLength(s1.slots, hole.value, sz, align); }
    }

    lemma {:induction false} GrowLength(s: State)
      requires |s.slots| == ALLOC_BLOCK * |s.tables| && Grow(s).Fine?
      ensures var s' := Grow(s).value; |s'.slots| == ALLOC_BLOCK * |s'.tables|
    {
    }

    /** The three ways to take memory out of hole `k`. */
    method Take(k: nat, sz: nat, align: nat) returns (r: Outcome<Option<nat>>)
      requires k < |slots| && align > 0
      modifies this`slots
      ensures match Carve(old(slots), k, sz, align)
              case Fine((s, p)) => r == Fine(Some(p)) && slots == s
              case Panic => r.Panic?
              case TableOverrun => r.TableOverrun?
    {
      hide Add, U32;
      var e := slots[k];
      if e.size == sz {
        slots := slots[k := e.(used := true)];
        return Fine(Some(e.addr));
      }
      var at := e.addr;
      if e.addr % align != 0 {
        var correction := align - e.addr % align;
        var taken := U32(sz + correction);
        at := U32(e.addr + correction);
        if e.size > taken {
          var ok := AddAlloc(Entry(true, false, U32(e.addr + taken), U32(e.size - taken)));
          if !ok { return Panic; }
        }
        slots := slots[k := slots[k].(size := correction)];
      } else {
        slots := slots[k := e.(addr := U32(e.addr + sz), size := U32(e.size - sz))];
      }
      var ok := AddAlloc(Entry(true, true, at, sz));
      if !ok { return Panic; }
      return Fine(Some(at));
    }

    /** kmamalloc: the size is rounded up to a multiple of the alignment first. */
    method Kmamalloc(sz: nat, align: nat) returns (r: Outcome<Option<nat>>)
      requires Valid() && align > 0 && sz < WORD
      modifies this
      ensures match HeapSpec.Kamalloc(old(View()), U32(sz + Offset(sz, align)), align)
              case Fine((s, p)) => r == Fine(p) && View() == s && Valid()
              case Panic => r.Panic?
              case TableOverrun => r.TableOverrun?
    {
      hide HeapSpec.Kamalloc;
      var size := sz;
      if size % align != 0 { size := U32(size + (align - size % align)); }
      r := Kamalloc(size, align);
    }

    /** rm_alloc on slot `k`. */
    method RmAlloc(k: nat)
      requires k < |slots|
      modifies this`slots
      ensures slots == Release(old(slots), k, false)
    {
      var freed := slots[k];
      var i := 0;
      while i < |slots|
        invariant i <= |slots| && slots == old(slots)
        invariant FirstMergeable(slots, freed, false) == FirstMergeable(slots, freed, false, i)
      {
        var e := slots[i];
        if e.valid {
          if (U32(e.addr + freed.size) == freed.addr || e.addr == U32(freed.addr + freed.size)) && !e.used {
            slots := slots[i := slots[i].(size := U32(slots[i].size + freed.size))];
            if slots[i].addr > freed.addr {
              slots := slots[i := slots[i].(addr := freed.addr)];
            }
            slots := slots[k := slots[k].(valid := false)];
            return;
          }
        }
        i := i + 1;
      }
      slots := slots[k := slots[k].(used := false)];
    }

    method Kfree(ptr: nat) returns (r: Outcome<()>)
      requires Valid()
      modifies this`slots
      ensures match HeapSpec.Kfree(old(View()), ptr, false)
              case Fine(s) => r.Fine? && View() == s && Valid()
              case Panic => r.Panic?
              case TableOverrun => false
    {
      var i := 0;
      while i < |slots|
        invariant i <= |slots| && slots == old(slots)
        invariant FirstAt(slots, ptr) == FirstAt(slots, ptr, i)
      {
        if slots[i].valid && slots[i].addr == ptr {
          RmAlloc(i);
          return Fine(());
        }
        i := i + 1;
      }
      return Panic;
    }

    lemma {:induction false} SumWraps(a: nat, b: nat)
      ensures U32(U32(a) + b) == U32(a + b)
    {
    }

    /** alloc_get_used and alloc_get_free, with 32-bit sums. */
    method GetTotals() returns (used: nat, free: nat)
      ensures used == U32(Used(slots)) && free == U32(Free(slots))
      ensures forall base: nat, limit: nat :: HeapAlloc.Healthy(View(), base, limit) ==> used + free == limit - base
    {
      used, free := 0, 0;
      for i := 0 to |slots|
        invariant used == U32(Used(slots[..i])) && free == U32(Free(slots[..i]))
      {
        hide U32;
        var e := slots[i];
        assert slots[..i + 1][..i] == slots[..i];
        SumWraps(Used(slots[..i]), e.size);
        SumWraps(Free(slots[..i]), e.size);
        if e.valid && e.used { used := U32(used + e.size); }
        if e.valid && !e.used { free := U32(free + e.size); }
      }
      assert slots[..|slots|] == slots;
      forall base: nat, limit: nat | HeapAlloc.Healthy(View(), base, limit)
        ensures used + free == limit - base
      {
        HeapFree.UsedPlusFreeIsConstant(View(), base, limit);
      }
    }
  }
}
