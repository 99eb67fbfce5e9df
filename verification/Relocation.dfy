/** Applying i386 relocations (System V ABI, Intel386 supplement, chapter 4, "Relocation Types") to placed sections. */
module Relocation {
  import opened Options
  import opened Bytes
  import opened Arith
  import opened Words
  import opened ModuleLayout

  // ----- Symbols -----

  const SHN_UNDEF: nat := 0
  const SHN_ABS: nat := 0xfff1

  /** An entry of the module's symbol table: its section and, once translated, that section's address. */
  datatype Symbol = Symbol(section: nat, addr: nat)

  /** An ELF symbol; `external` is what the kernel and the loaded modules know under its name. */
  datatype ElfSym = ElfSym(shndx: nat, value: nat, external: Option<nat>)

  /** _get_reloc: the first entry for a section. */
  function Find(table: seq<Placed>, section: nat): (r: Option<Placed>)
    ensures r.Some? ==> r.value in table && r.value.section == section
    ensures r.None? ==> forall p :: p in table ==> p.section != section
    decreases |table|
  {
    if table == [] then None
    else if table[0].section == section then Some(table[0])
    else Find(table[1..], section)
  }

  function TranslateAddr(table: seq<Placed>, section: nat, addr: nat): nat {
    match Find(table, section)
    case None => 0
    case Some(p) => U32(p.virt + addr)
  }

  function TranslateSymbol(table: seq<Placed>, sym: Symbol): Symbol {
    match Find(table, sym.section)
    case None => sym
    case Some(p) => sym.(addr := p.virt)
  }

  function TranslateSymbols(table: seq<Placed>, symbols: seq<Symbol>): (r: seq<Symbol>)
    ensures |r| == |symbols|
  {
    seq(|symbols|, i requires 0 <= i < |symbols| => TranslateSymbol(table, symbols[i]))
  }

  function SectionAddr(symbols: seq<Symbol>, section: nat): Option<nat> {
    if symbols == [] then None
    else if symbols[0].section == section then Some(symbols[0].addr)
    else SectionAddr(symbols[1..], section)
  }

  /** _find_symbol */
  function FindSymbol(symbols: seq<Symbol>, symtab: seq<ElfSym>, index: nat): Option<nat> {
    if index >= |symtab| then None
    else
      var sym := symtab[index];
      if sym.shndx == SHN_ABS then Some(sym.value)
      else if sym.shndx == SHN_UNDEF then sym.external
      else
        match SectionAddr(symbols, sym.shndx)
        case None => None
        case Some(a) => Some(U32(a + sym.value))
  }

  // ----- One relocation -----

  datatype Type = None386 | Abs32 | Pc32 | Relative | GlobDat | JmpSlot | Unhandled

  /** A relocation, with the section it applies to. */
  datatype Rel = Rel(section: nat, offset: nat, kind: Type, sym: nat)

  predicate NeedsSymbol(kind: Type) {
    kind != None386 && kind != Relative
  }

  /** The ABI's formulas: S + A, S + A - P, B + A, S, on 32-bit words. */
  function Formula(kind: Type, addend: nat, s: nat, place: nat, base: nat): nat {
    match kind
    case Abs32 => U32(s + addend)
    case Pc32 => U32(s + addend - place)
    case Relative => U32(base + addend)
    case GlobDat => U32(s)
    case JmpSlot => U32(s)
    case _ => U32(addend)
  }

  /** The address a relocation changes, or nothing when it is refused. */
  function Target(table: seq<Placed>, rel: Rel): Option<nat> {
    var a := TranslateAddr(table, rel.section, rel.offset);
    if a < 0x1000 || rel.kind.Unhandled? then None else Some(a)
  }

  datatype Env = Env(table: seq<Placed>, symbols: seq<Symbol>, symtab: seq<ElfSym>)

  function SymbolOf(env: Env, rel: Rel): Option<nat> {
    if NeedsSymbol(rel.kind) then FindSymbol(env.symbols, env.symtab, rel.sym) else Some(0)
  }

  /** The relocation can be applied. */
  predicate Applies(env: Env, rel: Rel) {
    SymbolOf(env, rel).Some? && Target(env.table, rel).Some?
  }

  function BaseOf(env: Env, rel: Rel): nat {
    TranslateAddr(env.table, rel.section, 0)
  }

  /** What the relocated word must be, given the word that was there. */
  function Relocated(env: Env, rel: Rel, addend: nat): (w: nat)
    requires Applies(env, rel)
    ensures w < WORD
  {
    Formula(rel.kind, addend, SymbolOf(env, rel).value, Target(env.table, rel).value, BaseOf(env, rel))
  }

  /** The relocation changes memory. */
  predicate Writes(env: Env, rel: Rel) {
    Applies(env, rel) && rel.kind != None386
  }

  /** _handle_reloc on memory that starts at address 0. */
  function ApplyOne(env: Env, mem: seq<byte>, rel: Rel): (r: Option<seq<byte>>)
    requires Writes(env, rel) ==> WordAt(mem, Target(env.table, rel).value)
    ensures r.Some? <==> Applies(env, rel)
    ensures r.Some? ==> |r.value| == |mem|
  {
    if !Applies(env, rel) then None
    else if rel.kind == None386 then Some(mem)
    else
      var a := Target(env.table, rel).value;
      Some(WriteWord(mem, a, Relocated(env, rel, ReadWord(mem, a))))
  }

  // ----- All relocations -----

  /** Targets are inside memory. */
  ghost predicate InMemory(env: Env, rels: seq<Rel>, size: nat) {
    forall i :: 0 <= i < |rels| && Writes(env, rels[i]) ==> Target(env.table, rels[i]).value + 4 <= size
  }

  /** Targets do not overlap. */
  ghost predicate TargetsApart(env: Env, rels: seq<Rel>) {
    forall i, j :: 0 <= i < j < |rels| && Writes(env, rels[i]) && Writes(env, rels[j]) ==>
      WordsApart(Target(env.table, rels[i]).value, Target(env.table, rels[j]).value)
  }

  ghost predicate AllApply(env: Env, rels: seq<Rel>) {
    forall i :: 0 <= i < |rels| ==> Applies(env, rels[i])
  }

  /** The relocations one after the other, overlapping or not; nothing if one cannot be applied. */
  ghost function ApplyAll(env: Env, mem: seq<byte>, rels: seq<Rel>): (r: Option<seq<byte>>)
    requires InMemory(env, rels, |mem|)
    ensures r.Some? <==> AllApply(env, rels)
    ensures r.Some? ==> |r.value| == |mem|
    decreases |rels|
  {
    if rels == [] then Some(mem)
    else
      var front, last := rels[..|rels| - 1], rels[|rels| - 1];
      assert forall i :: 0 <= i < |front| ==> front[i] == rels[i];
      var r := ApplyAll(env, mem, front);
      if r.None? then None else ApplyOne(env, r.value, last)
  }

  /** _module_apply_relocs: relocates in place, and fails at the first relocation that cannot be applied. */
  method ApplyRelocs(env: Env, mem: array<byte>, rels: seq<Rel>) returns (ok: bool)
    requires InMemory(env, rels, mem.Length)
    modifies mem
    ensures ok <==> AllApply(env, rels)
    ensures ok ==> ApplyAll(env, old(mem[..]), rels) == Some(mem[..])
  {
    hide ReadWord, WriteWord, Target, SymbolOf, Relocated;
    ghost var before := mem[..];
    for j := 0 to |rels|
      invariant InMemory(env, rels[..j], |before|)
      invariant ApplyAll(env, before, rels[..j]) == Some(mem[..])
    {
      var rel := rels[j];
      ghost var front := rels[..j + 1];
      assert front[..j] == rels[..j] && front[j] == rel;
      if !Applies(env, rel) {
        return false;
      }
      assert InMemory(env, front, |before|);
      if rel.kind != None386 {
        var a := Target(env.table, rel).value;
        var w := Relocated(env, rel, ReadWord(mem[..], a));
        StoreWord(mem, a, w);
      }
    }
    assert rels[..|rels|] == rels;
    ok := true;
  }

  method StoreWord(mem: array<byte>, a: nat, w: nat)
    requires a + 4 <= mem.Length && w < WORD
    modifies mem
    ensures mem[..] == WriteWord(old(mem[..]), a, w)
  {
    hide WordBytes;
    var d := WordBytes(w);
    mem[a], mem[a + 1], mem[a + 2], mem[a + 3] := d[0], d[1], d[2], d[3];
  }

  // ----- Relocations that do not overlap -----

  predicate OutsideTarget(env: Env, rel: Rel, k: int)
    requires Applies(env, rel)
  {
    var a := Target(env.table, rel).value;
    rel.kind == None386 || !(a <= k < a + 4)
  }

  /** The relocations as one change: each target holds its formula on the original word, all else is as it was. */
  ghost predicate RelocatedBy(env: Env, rels: seq<Rel>, before: seq<byte>, after: seq<byte>)
    requires AllApply(env, rels) && InMemory(env, rels, |before|)
  {
    && |after| == |before|
    && (forall i :: 0 <= i < |rels| ==> HoldsFormula(env, rels[i], before, after))
    && (forall k :: 0 <= k < |before| && (forall i :: 0 <= i < |rels| ==> OutsideTarget(env, rels[i], k)) ==>
          after[k] == before[k])
  }

  ghost predicate HoldsFormula(env: Env, rel: Rel, before: seq<byte>, after: seq<byte>)
    requires Applies(env, rel) && |after| == |before|
    requires Writes(env, rel) ==> WordAt(before, Target(env.table, rel).value)
  {
    var a := Target(env.table, rel).value;
    rel.kind != None386 ==> ReadWord(after, a) == Relocated(env, rel, ReadWord(before, a))
  }

  /** A target that has not been reached yet still holds its original word. */
  lemma {:induction false} TargetUntouched(env: Env, rels: seq<Rel>, rel: Rel, before: seq<byte>, mid: seq<byte>)
    requires AllApply(env, rels) && InMemory(env, rels, |before|) && RelocatedBy(env, rels, before, mid)
    requires Writes(env, rel) && WordAt(before, Target(env.table, rel).value)
    requires forall i :: 0 <= i < |rels| && Writes(env, rels[i]) ==>
               WordsApart(Target(env.table, rels[i]).value, Target(env.table, rel).value)
    ensures var a := Target(env.table, rel).value; ReadWord(mid, a) == ReadWord(before, a)
  {
    var a := Target(env.table, rel).value;
    forall k | a <= k < a + 4
      ensures mid[k] == before[k]
    {
      forall i | 0 <= i < |rels|
        ensures OutsideTarget(env, rels[i], k)
      {
        assert Applies(env, rels[i]);
      }
    }
  }

  /** One more relocation, clear of those before it. */
  lemma {:induction false} OneMore(env: Env, rels: seq<Rel>, rel: Rel, before: seq<byte>, mid: seq<byte>)
    requires AllApply(env, rels) && InMemory(env, rels, |before|) && RelocatedBy(env, rels, before, mid)
    requires Applies(env, rel) && (Writes(env, rel) ==> WordAt(before, Target(env.table, rel).value))
    requires Writes(env, rel) ==>
               forall i :: 0 <= i < |rels| && Writes(env, rels[i]) ==>
                 WordsApart(Target(env.table, rels[i]).value, Target(env.table, rel).value)
    ensures var r := ApplyOne(env, mid, rel);
            r.Some? && AllApply(env, rels + [rel]) && InMemory(env, rels + [rel], |before|) &&
            RelocatedBy(env, rels + [rel], before, r.value)
  {
    hide ReadWord, WriteWord, Target, SymbolOf, Relocated;
    var a, all := Target(env.table, rel).value, rels + [rel];
    var after := ApplyOne(env, mid, rel).value;
    if Writes(env, rel) {
      TargetUntouched(env, rels, rel, before, mid);
      ReadWritten(mid, a, Relocated(env, rel, ReadWord(mid, a)));
    }
    forall i | 0 <= i < |rels|
      ensures HoldsFormula(env, all[i], before, after)
    {
      assert HoldsFormula(env, rels[i], before, mid) && all[i] == rels[i] && Applies(env, rels[i]);
      if Writes(env, rel) && Writes(env, rels[i]) {
        ReadElsewhere(mid, a, Relocated(env, rel, ReadWord(mid, a)), Target(env.table, rels[i]).value);
      }
    }
    forall k | 0 <= k < |before| && (forall i :: 0 <= i < |all| ==> OutsideTarget(env, all[i], k))
      ensures after[k] == before[k]
    {
      assert forall i :: 0 <= i < |rels| ==> all[i] == rels[i];
      assert OutsideTarget(env, all[|rels|], k);
    }
  }

  /** When targets do not overlap, each word ends up as its formula on the original word. */
  lemma {:induction false} ApplyAllIsFormulas(env: Env, rels: seq<Rel>, before: seq<byte>)
    requires AllApply(env, rels) && InMemory(env, rels, |before|) && TargetsApart(env, rels)
    ensures RelocatedBy(env, rels, before, ApplyAll(env, before, rels).value)
    decreases |rels|
  {
    hide ReadWord, WriteWord, Target, SymbolOf, Relocated, ApplyOne, RelocatedBy;
    if rels == [] {
      NothingRelocated(env, rels, before);
    } else {
      var front, last := rels[..|rels| - 1], rels[|rels| - 1];
      assert front + [last] == rels && forall i :: 0 <= i < |front| ==> front[i] == rels[i];
      ApplyAllIsFormulas(env, front, before);
      OneMore(env, front, last, before, ApplyAll(env, before, front).value);
    }
  }

  lemma {:induction false} NothingRelocated(env: Env, rels: seq<Rel>, before: seq<byte>)
    requires rels == []
    ensures RelocatedBy(env, rels, before, before)
  {
  }

  // ----- Order -----

  lemma {:induction false} SameDigits(a0: byte, a1: byte, a2: byte, a3: byte, b0: byte, b1: byte, b2: byte, b3: byte)
    requires (a0 as int) + 0x100 * (a1 as int) + 0x1_0000 * (a2 as int) + 0x100_0000 * (a3 as int) ==
             (b0 as int) + 0x100 * (b1 as int) + 0x1_0000 * (b2 as int) + 0x100_0000 * (b3 as int)
    ensures a0 == b0 && a1 == b1 && a2 == b2 && a3 == b3
  {
    var a: int, b: int := a0, b0;
    var ra: int := a1 as int + 0x100 * (a2 as int) + 0x1_0000 * (a3 as int);
    var rb: int := b1 as int + 0x100 * (b2 as int) + 0x1_0000 * (b3 as int);
    DivModUnique(ra * 0x100 + a, ra, 0x100, a);
    DivModUnique(rb * 0x100 + b, rb, 0x100, b);
    assert a == b && ra == rb;
    var qa: int, qb: int := a2 as int + 0x100 * (a3 as int), b2 as int + 0x100 * (b3 as int);
    DivModUnique(ra, qa, 0x100, a1);
    DivModUnique(rb, qb, 0x100, b1);
    assert a1 == b1 && qa == qb;
  }

  lemma {:induction false} SameWordSameBytes(x: seq<byte>, y: seq<byte>, a: nat, k: nat)
    requires |x| == |y| && WordAt(x, a) && ReadWord(x, a) == ReadWord(y, a) && a <= k < a + 4
    ensures x[k] == y[k]
  {
    SameDigits(x[a], x[a + 1], x[a + 2], x[a + 3], y[a], y[a + 1], y[a + 2], y[a + 3]);
  }

  /** Whatever order relocations that do not overlap come in, the relocated memory is the same. */
  lemma {:induction false} OrderIsIrrelevant(env: Env, rels: seq<Rel>, rels': seq<Rel>, before: seq<byte>)
    requires multiset(rels) == multiset(rels')
    requires AllApply(env, rels) && InMemory(env, rels, |before|) && TargetsApart(env, rels)
    ensures AllApply(env, rels') && InMemory(env, rels', |before|) && TargetsApart(env, rels')
    ensures ApplyAll(env, before, rels) == ApplyAll(env, before, rels')
  {
    SameConditions(env, rels, rels', |before|);
    var after, after' := ApplyAll(env, before, rels).value, ApplyAll(env, before, rels').value;
    ApplyAllIsFormulas(env, rels, before);
    ApplyAllIsFormulas(env, rels', before);
    SameRelocated(env, rels, rels', before, after, after');
  }

  lemma {:induction false} SameConditions(env: Env, rels: seq<Rel>, rels': seq<Rel>, size: nat)
    requires multiset(rels) == multiset(rels')
    requires AllApply(env, rels) && InMemory(env, rels, size) && TargetsApart(env, rels)
    ensures AllApply(env, rels') && InMemory(env, rels', size) && TargetsApart(env, rels')
  {
    hide Target, SymbolOf;
    forall j | 0 <= j < |rels'|
      ensures Applies(env, rels'[j])
      ensures Writes(env, rels'[j]) ==> Target(env.table, rels'[j]).value + 4 <= size
    {
      assert rels'[j] in multiset(rels);
    }
    forall i, j | 0 <= i < j < |rels'| && Writes(env, rels'[i]) && Writes(env, rels'[j])
      ensures WordsApart(Target(env.table, rels'[i]).value, Target(env.table, rels'[j]).value)
    {
      var k, l := PairIn(rels', rels, i, j);
      assert WordsApart(Target(env.table, rels[k]).value, Target(env.table, rels[l]).value);
    }
  }

  /** Two places of a sequence have two places, with the same items, in any rearrangement. */
  lemma {:induction false} PairIn(a: seq<Rel>, b: seq<Rel>, i: nat, j: nat) returns (k: nat, l: nat)
    requires multiset(a) == multiset(b) && i < j < |a|
    ensures k < l < |b| && ((b[k] == a[i] && b[l] == a[j]) || (b[k] == a[j] && b[l] == a[i]))
  {
    if a[i] == a[j] {
      CountPair(a, i, j);
      k, l := TwoPlaces(b, a[i]);
    } else {
      assert a[i] in multiset(b) && a[j] in multiset(b);
      var m :| 0 <= m < |b| && b[m] == a[i];
      var n :| 0 <= n < |b| && b[n] == a[j];
      if m < n { k, l := m, n; } else { k, l := n, m; }
    }
  }

  lemma {:induction false} CountPair(a: seq<Rel>, i: nat, j: nat)
    requires i < j < |a| && a[i] == a[j]
    ensures multiset(a)[a[i]] >= 2
  {
    assert a == a[..j] + a[j..];
    assert a[i] in a[..j] && a[j] in a[j..] by { assert a[..j][i] == a[i] && a[j..][0] == a[j]; }
    assert multiset(a) == multiset(a[..j]) + multiset(a[j..]);
  }

  lemma {:induction false} TwoPlaces(b: seq<Rel>, x: Rel) returns (k: nat, l: nat)
    requires multiset(b)[x] >= 2
    ensures k < l < |b| && b[k] == x && b[l] == x
  {
    assert x in multiset(b);
    l :| 0 <= l < |b| && b[l] == x;
    assert b == b[..l] + [x] + b[l + 1..];
    assert multiset(b) == multiset(b[..l]) + multiset([x]) + multiset(b[l + 1..]);
    if x in b[..l] {
      k :| 0 <= k < l && b[..l][k] == x;
    } else {
      assert x in multiset(b[l + 1..]);
      var m :| 0 <= m < |b[l + 1..]| && b[l + 1..][m] == x;
      k, l := l, l + 1 + m;
    }
  }

  lemma {:induction false} SameRelocated(env: Env, rels: seq<Rel>, rels': seq<Rel>,
                                         before: seq<byte>, after: seq<byte>, after': seq<byte>)
    requires multiset(rels) == multiset(rels')
    requires AllApply(env, rels) && InMemory(env, rels, |before|) && RelocatedBy(env, rels, before, after)
    requires AllApply(env, rels') && InMemory(env, rels', |before|) && RelocatedBy(env, rels', before, after')
    ensures after == after'
  {
    hide ReadWord, Target, SymbolOf, Relocated;
    forall k | 0 <= k < |before|
      ensures after[k] == after'[k]
    {
      if i :| 0 <= i < |rels| && !OutsideTarget(env, rels[i], k) {
        assert rels[i] in multiset(rels');
        var j :| 0 <= j < |rels'| && rels'[j] == rels[i];
        assert HoldsFormula(env, rels[i], before, after) && HoldsFormula(env, rels'[j], before, after');
        SameWordSameBytes(after, after', Target(env.table, rels[i]).value, k);
      } else {
        forall j | 0 <= j < |rels'|
          ensures OutsideTarget(env, rels'[j], k)
        {
          assert rels'[j] in multiset(rels);
        }
      }
    }
  }

  // ----- Moving the module -----

  lemma {:induction false} FindShifts(table: seq<Placed>, table': seq<Placed>, delta: int, section: nat)
    requires Shifted(table, table', delta)
    ensures match Find(table, section)
            case None => Find(table', section).None?
            case Some(p) => Find(table', section).Some? && Find(table', section).value.virt == U32(p.virt + delta)
    decreases |table|
  {
    if table != [] && table[0].section != section { FindShifts(table[1..], table'[1..], delta, section); }
  }

  /** The address found for a section: its own if it is placed, else the one the symbol table came with. */
  lemma {:induction false} SectionAddrIs(table: seq<Placed>, symbols: seq<Symbol>, section: nat)
    ensures SectionAddr(TranslateSymbols(table, symbols), section) ==
            match SectionAddr(symbols, section)
            case None => None
            case Some(a) => Some(match Find(table, section) case None => a case Some(p) => p.virt)
    decreases |symbols|
  {
    if symbols != [] {
      var t := TranslateSymbols(table, symbols);
      SectionAddrIs(table, symbols[1..], section);
      assert t[1..] == TranslateSymbols(table, symbols[1..]);
      assert t[0] == TranslateSymbol(table, symbols[0]) && t[0].section == symbols[0].section;
    }
  }

  /** The relocation's symbol lies in a placed section of the module. */
  predicate SymbolMoves(table: seq<Placed>, symtab: seq<ElfSym>, rel: Rel) {
    rel.sym < |symtab| && symtab[rel.sym].shndx != SHN_ABS && symtab[rel.sym].shndx != SHN_UNDEF &&
    Find(table, symtab[rel.sym].shndx).Some?
  }

  /**
    How far a relocated word moves with the module: absolute words with their symbol, relative ones
    against their place.
    */
  function WordShift(table: seq<Placed>, symtab: seq<ElfSym>, rel: Rel, delta: int): int {
    if rel.kind == Relative then delta
    else (if SymbolMoves(table, symtab, rel) then delta else 0) - (if rel.kind == Pc32 then delta else 0)
  }

  lemma {:induction false} SymbolShifts(table: seq<Placed>, table': seq<Placed>, delta: int, symbols: seq<Symbol>,
                                        symtab: seq<ElfSym>, rel: Rel)
    requires Shifted(table, table', delta) && FindSymbol(TranslateSymbols(table, symbols), symtab, rel.sym).Some?
    ensures var s := FindSymbol(TranslateSymbols(table, symbols), symtab, rel.sym);
            var s' := FindSymbol(TranslateSymbols(table', symbols), symtab, rel.sym);
            s'.Some? && U32(s'.value) == U32(s.value + if SymbolMoves(table, symtab, rel) then delta else 0)
  {
    hide Shifted, Find, TranslateSymbols, U32, SectionAddr;
    var sym := symtab[rel.sym];
    FindShifts(table, table', delta, sym.shndx);
    SectionAddrIs(table, symbols, sym.shndx);
    SectionAddrIs(table', symbols, sym.shndx);
    var p := Find(table, sym.shndx);
    if p.Some? {
      ShiftSum(p.value.virt, sym.value, delta);
      Twice(p.value.virt + delta + sym.value);
    }
  }

  lemma {:induction false} Twice(x: int)
    ensures U32(U32(x)) == U32(x)
  {
  }

  /** The environment relocations see when the sections are placed as in `table`. */
  function EnvOf(table: seq<Placed>, symbols: seq<Symbol>, symtab: seq<ElfSym>): Env {
    Env(table, TranslateSymbols(table, symbols), symtab)
  }

  lemma {:induction false} Same(a: int, b: int, c: int)
    requires U32(a) == U32(b)
    ensures U32(a + c) == U32(b + c)
  {
    assert U32(a + c) == U32(U32(a) + c) && U32(b + c) == U32(U32(b) + c);
  }

  lemma {:induction false} FormulaShifts(kind: Type, addend: nat, s: nat, s': nat, place: nat, base: nat,
                                         ds: int, delta: int)
    requires kind != None386 && kind != Unhandled && U32(s') == U32(s + ds)
    ensures var shift := if kind == Relative then delta else if kind == Pc32 then ds - delta else ds;
            Formula(kind, addend, s', U32(place + delta), U32(base + delta)) ==
            U32(Formula(kind, addend, s, place, base) + shift)
  {
    hide U32;
    Same(s', s + ds, addend);
    Wraps(s + addend, ds);
    Wraps(base + delta, addend);
    Wraps(base + addend, delta);
    Wraps(s, ds);
    Wraps(s + addend - place, ds - delta);
    Same(s', s + ds, addend - U32(place + delta));
    WrapsBelow(s + ds + addend, place + delta);
  }

  lemma {:induction false} Wraps(a: int, b: int)
    ensures U32(U32(a) + b) == U32(a + b)
  {
  }

  lemma {:induction false} WrapsBelow(a: int, b: int)
    ensures U32(a - U32(b)) == U32(a - b)
  {
  }

  /** Target and base of a relocation move with the sections. */
  lemma {:induction false} PlaceShifts(table: seq<Placed>, table': seq<Placed>, delta: int, rel: Rel)
    requires Shifted(table, table', delta) && Target(table, rel).Some? && Target(table', rel).Some?
    ensures Target(table', rel).value == U32(Target(table, rel).value + delta)
    ensures TranslateAddr(table', rel.section, 0) == U32(TranslateAddr(table, rel.section, 0) + delta)
    ensures rel.kind != Unhandled
  {
    hide Shifted, Find, U32;
    FindShifts(table, table', delta, rel.section);
    var p := Find(table, rel.section).value;
    ShiftSum(p.virt, rel.offset, delta);
    ShiftSum(p.virt, 0, delta);
  }

  /** What a relocated word becomes when every section moves by `delta`. */
  lemma {:induction false} RelocatedShifts(table: seq<Placed>, table': seq<Placed>, delta: int,
                                           symbols: seq<Symbol>, symtab: seq<ElfSym>, rel: Rel, addend: nat)
    requires Shifted(table, table', delta) && rel.kind != None386
    requires Applies(EnvOf(table, symbols, symtab), rel) && Applies(EnvOf(table', symbols, symtab), rel)
    ensures Target(table', rel).value == U32(Target(table, rel).value + delta)
    ensures Relocated(EnvOf(table', symbols, symtab), rel, addend) ==
            U32(Relocated(EnvOf(table, symbols, symtab), rel, addend) + WordShift(table, symtab, rel, delta))
  {
    hide Shifted, Find, TranslateSymbols, FindSymbol, U32, TranslateAddr, Target, Formula, SymbolMoves;
    var env, env' := EnvOf(table, symbols, symtab), EnvOf(table', symbols, symtab);
    PlaceShifts(table, table', delta, rel);
    var s, s' := SymbolOf(env, rel).value, SymbolOf(env', rel).value;
    if NeedsSymbol(rel.kind) {
      SymbolShifts(table, table', delta, symbols, symtab, rel);
      var ds := if SymbolMoves(table, symtab, rel) then delta else 0;
      FormulaShifts(rel.kind, addend, s, s', Target(table, rel).value, BaseOf(env, rel), ds, delta);
    } else {
      FormulaShifts(rel.kind, addend, s, s', Target(table, rel).value, BaseOf(env, rel), 0, delta);
    }
  }

  /**
    The module loaded at two page-aligned addresses, from the same words: every relocated word of
    one load is that of the other, shifted as its kind and its symbol say.
    */
  lemma {:induction false} MovedModule(sects: seq<Section>, base: nat, base': nat, phys: (nat, nat), phys': (nat, nat),
                                       symbols: seq<Symbol>, symtab: seq<ElfSym>, rels: seq<Rel>,
                                       mem: seq<byte>, mem': seq<byte>, i: nat)
    requires GoodAligns(sects) && base % PAGE == 0 && base' % PAGE == 0
    requires base + PAGE < WORD && base' + PAGE < WORD && i < |rels| && rels[i].kind != None386
    requires var env := EnvOf(Table(sects, BasesAt(sects, base, phys.0, phys.1), |sects|), symbols, symtab);
             AllApply(env, rels) && InMemory(env, rels, |mem|) && TargetsApart(env, rels)
    requires var env' := EnvOf(Table(sects, BasesAt(sects, base', phys'.0, phys'.1), |sects|), symbols, symtab);
             AllApply(env', rels) && InMemory(env', rels, |mem'|) && TargetsApart(env', rels)
    requires var table := Table(sects, BasesAt(sects, base, phys.0, phys.1), |sects|);
             var table' := Table(sects, BasesAt(sects, base', phys'.0, phys'.1), |sects|);
             Applies(EnvOf(table, symbols, symtab), rels[i]) && Applies(EnvOf(table', symbols, symtab), rels[i]) &&
             WordAt(mem, Target(table, rels[i]).value) && WordAt(mem', Target(table', rels[i]).value) &&
             ReadWord(mem', Target(table', rels[i]).value) == ReadWord(mem, Target(table, rels[i]).value)
    ensures var table := Table(sects, BasesAt(sects, base, phys.0, phys.1), |sects|);
            var table' := Table(sects, BasesAt(sects, base', phys'.0, phys'.1), |sects|);
            var after := ApplyAll(EnvOf(table, symbols, symtab), mem, rels).value;
            var after' := ApplyAll(EnvOf(table', symbols, symtab), mem', rels).value;
            ReadWord(after', Target(table', rels[i]).value) ==
            U32(ReadWord(after, Target(table, rels[i]).value) + WordShift(table, symtab, rels[i], base' - base))
  {
    hide Table, SymbolOf, Relocated, Target, ReadWord, ApplyAll, TargetsApart, InMemory, GoodAligns, BasesAt, U32,
        WordShift;
    TablesMove(sects, base, base', phys, phys');
    var table := Table(sects, BasesAt(sects, base, phys.0, phys.1), |sects|);
    var table' := Table(sects, BasesAt(sects, base', phys'.0, phys'.1), |sects|);
    var env, env' := EnvOf(table, symbols, symtab), EnvOf(table', symbols, symtab);
    ApplyAllIsFormulas(env, rels, mem);
    ApplyAllIsFormulas(env', rels, mem');
    assert HoldsFormula(env, rels[i], mem, ApplyAll(env, mem, rels).value);
    assert HoldsFormula(env', rels[i], mem', ApplyAll(env', mem', rels).value);
    RelocatedShifts(table, table', base' - base, symbols, symtab, rels[i], ReadWord(mem, Target(table, rels[i]).value));
  }

  lemma {:induction false} TablesMove(sects: seq<Section>, base: nat, base': nat, phys: (nat, nat), phys': (nat, nat))
    requires GoodAligns(sects) && base % PAGE == 0 && base' % PAGE == 0
    requires base + PAGE < WORD && base' + PAGE < WORD
    ensures Shifted(Table(sects, BasesAt(sects, base, phys.0, phys.1), |sects|),
                    Table(sects, BasesAt(sects, base', phys'.0, phys'.1), |sects|), base' - base)
  {
    hide Table, GoodAligns, ProgBase, NobitsBase;
    var b, b' := BasesAt(sects, base, phys.0, phys.1), BasesAt(sects, base', phys'.0, phys'.1);
    BasesShift(sects, base, base');
    TableShifts(sects, b, b', base' - base, |sects|);
  }
}
