/** What the words of a loaded module are, in terms of its placed sections and the values in its symbol table. */
module RelocatedWords {
  import opened Options
  import opened Bytes
  import opened Arith
  import opened Words
  import opened ModuleLayout
  import opened Relocation

  predicate OnePerSection(table: seq<Placed>) {
    forall i, j :: 0 <= i < j < |table| ==> table[i].section != table[j].section
  }

  /** The table that the placing pass fills has one entry per section. */
  lemma {:induction false} TableOnePerSection(sects: seq<Section>, b: Bases)
    ensures OnePerSection(Table(sects, b, |sects|))
  {
    var table := Table(sects, b, |sects|);
    forall i, j | 0 <= i < j < |table|
      ensures table[i].section != table[j].section
    {
      TableOrder(sects, b, |sects|, i, j);
    }
  }

  lemma {:induction false} FindPlaced(table: seq<Placed>, p: Placed)
    requires OnePerSection(table) && p in table
    ensures Find(table, p.section) == Some(p)
  {
    var r := Find(table, p.section).value;
    var i :| 0 <= i < |table| && table[i] == p;
    var j :| 0 <= j < |table| && table[j] == r;
  }

  /** What an ELF symbol stands for: its own value, what others know it as, or an offset in a placed section. */
  ghost predicate StandsFor(table: seq<Placed>, sym: ElfSym, v: int) {
    if sym.shndx == 0xfff1 then v == sym.value
    else if sym.shndx == 0 then sym.external.Some? && v == sym.external.value
    else exists q :: q in table && q.section == sym.shndx && v == q.virt + sym.value
  }

  predicate Listed(symbols: seq<Symbol>, section: nat) {
    exists i :: 0 <= i < |symbols| && symbols[i].section == section
  }

  lemma {:induction false} ListedIff(symbols: seq<Symbol>, section: nat)
    ensures SectionAddr(symbols, section).Some? <==> Listed(symbols, section)
    decreases |symbols|
  {
    if symbols != [] {
      ListedIff(symbols[1..], section);
      if Listed(symbols[1..], section) {
        var i :| 0 <= i < |symbols[1..]| && symbols[1..][i].section == section;
        assert symbols[i + 1].section == section;
      }
      if Listed(symbols, section) && symbols[0].section != section {
        var i :| 0 <= i < |symbols| && symbols[i].section == section;
        assert symbols[1..][i - 1].section == section;
      }
    }
  }

  /** A symbol is found exactly if it exists and is absolute, known to others, or of a section that is listed. */
  lemma {:induction false} SymbolFoundIff(table: seq<Placed>, symbols: seq<Symbol>, symtab: seq<ElfSym>, index: nat)
    ensures FindSymbol(TranslateSymbols(table, symbols), symtab, index).Some? <==>
            index < |symtab| &&
            var sym := symtab[index];
            sym.shndx == 0xfff1 || (if sym.shndx == 0 then sym.external.Some? else Listed(symbols, sym.shndx))
  {
    if index < |symtab| {
      SectionAddrIs(table, symbols, symtab[index].shndx);
      ListedIff(symbols, symtab[index].shndx);
    }
  }

  /** A symbol that is found has the value it stands for, in 32 bits. */
  lemma {:induction false} SymbolIs(table: seq<Placed>, symbols: seq<Symbol>, symtab: seq<ElfSym>, index: nat, v: int)
    requires OnePerSection(table) && index < |symtab| && StandsFor(table, symtab[index], v)
    requires FindSymbol(TranslateSymbols(table, symbols), symtab, index).Some?
    ensures FindSymbol(TranslateSymbols(table, symbols), symtab, index).value % 0x1_0000_0000 == v % 0x1_0000_0000
  {
    var sym := symtab[index];
    if sym.shndx != 0xfff1 && sym.shndx != 0 {
      var q :| q in table && q.section == sym.shndx && v == q.virt + sym.value;
      FindPlaced(table, q);
      SectionAddrIs(table, symbols, sym.shndx);
      assert FindSymbol(TranslateSymbols(table, symbols), symtab, index) == Some(U32(v));
    }
  }

  /**
    A relocation applies exactly if its section is placed, its address is past the first page, its kind is
    one that is handled, and its symbol, if it needs one, is found.
    */
  lemma {:induction false} AppliesIff(table: seq<Placed>, symbols: seq<Symbol>, symtab: seq<ElfSym>, rel: Rel,
                                      p: Placed)
    requires OnePerSection(table) && p in table && p.section == rel.section
    ensures Applies(EnvOf(table, symbols, symtab), rel) <==>
            && (p.virt + rel.offset) % 0x1_0000_0000 >= 0x1000 && rel.kind != Unhandled
            && (rel.kind in {Abs32, Pc32, GlobDat, JmpSlot} ==>
                  FindSymbol(TranslateSymbols(table, symbols), symtab, rel.sym).Some?)
  {
    hide FindSymbol, TranslateSymbols;
    FindPlaced(table, p);
  }

  /** The relocated word at address `a` of a section that starts at `start`, for a symbol that stands for `v`. */
  ghost predicate WordIs(kind: Type, before: nat, after: nat, v: int, a: nat, start: nat) {
    match kind
    case Abs32 => after == (before + v) % 0x1_0000_0000
    case Pc32 => after == (before + v - a) % 0x1_0000_0000
    case Relative => after == (before + start) % 0x1_0000_0000
    case GlobDat => after == v % 0x1_0000_0000
    case JmpSlot => after == v % 0x1_0000_0000
    case _ => false
  }

  lemma {:induction false} FormulaIs(kind: Type, before: nat, s: nat, v: int, a: nat, start: nat, base: nat)
    requires kind != None386 && kind != Unhandled && base == start % 0x1_0000_0000
    requires NeedsSymbol(kind) ==> s % 0x1_0000_0000 == v % 0x1_0000_0000
    ensures WordIs(kind, before, Formula(kind, before, s, a, base), v, a, start)
  {
    if NeedsSymbol(kind) {
      Same(s, v, before);
      Same(s, v, before - a);
    } else {
      Wraps(start, before);
    }
  }

  /**
    After all relocations of a loaded module, when none overlap: the word that relocation `i` names, in
    the section placed as `p`, is the one its kind asks for on the original word.
    */
  lemma {:induction false} WordAfter(table: seq<Placed>, symbols: seq<Symbol>, symtab: seq<ElfSym>, rels: seq<Rel>,
                                     before: seq<byte>, i: nat, p: Placed, v: int)
    requires OnePerSection(table) && i < |rels| && rels[i].kind != None386
    requires p in table && p.section == rels[i].section
    requires NeedsSymbol(rels[i].kind) ==> rels[i].sym < |symtab| && StandsFor(table, symtab[rels[i].sym], v)
    requires AllApply(EnvOf(table, symbols, symtab), rels) && InMemory(EnvOf(table, symbols, symtab), rels, |before|)
    requires TargetsApart(EnvOf(table, symbols, symtab), rels)
    ensures var after := ApplyAll(EnvOf(table, symbols, symtab), before, rels).value;
            var a := (p.virt + rels[i].offset) % 0x1_0000_0000;
            && a + 4 <= |before| == |after|
            && WordIs(rels[i].kind, ReadWord(before, a), ReadWord(after, a), v, a, p.virt)
  {
    hide ReadWord, ApplyAll, Formula, FindSymbol, Find, TranslateSymbols, WordIs, TargetsApart, StandsFor,
        OnePerSection;
    var env, rel := EnvOf(table, symbols, symtab), rels[i];
    var after := ApplyAll(env, before, rels).value;
    ApplyAllIsFormulas(env, rels, before);
    assert Applies(env, rel) && HoldsFormula(env, rel, before, after);
    FindPlaced(table, p);
    var a := Target(table, rel).value;
    assert Writes(env, rel);
    if NeedsSymbol(rel.kind) { SymbolIs(table, symbols, symtab, rel.sym, v); }
    FormulaIs(rel.kind, ReadWord(before, a), SymbolOf(env, rel).value, v, a, p.virt, BaseOf(env, rel));
  }
}
