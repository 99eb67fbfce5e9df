/** Where the module loader puts sections: a sizing pass, then a placing pass over the section headers. */
module ModuleLayout {
  import opened Arith

  const PAGE: nat := 0x1000

  datatype Kind = ProgBits | NoBits | Other

  /** The header fields the loader looks at; `align` 0 asks for none. */
  datatype Section = Section(kind: Kind, addr: nat, align: nat, size: nat)

  datatype Placed = Placed(section: nat, virt: nat, phys: nat, size: nat)

  // ----- FORCE_ALIGN -----

  /** Bitwise and of two unsigned words. */
  function And(a: nat, b: nat): nat {
    if a == 0 || b == 0 then 0 else a % 2 * (b % 2) + 2 * And(a / 2, b / 2)
  }

  function Mask(align: nat): nat {
    if align == 0 then 0 else align - 1
  }

  /** `if(v & m) v = (v + m) & ~m`, in 32 bits. */
  function ForceAlign(v: nat, mask: nat): nat {
    if And(v, mask) != 0 then U32(U32(v + mask) - And(U32(v + mask), mask)) else v
  }

  /** Alignments that follow the ELF rules and pass the loader's limit. */
  predicate GoodAlign(align: nat) {
    align in {0, 1, 2, 4, 8, 16, 32, 64, 128}
  }

  function RoundUp(v: nat, align: nat): nat {
    if align == 0 || v % align == 0 then v else v + (align - v % align)
  }

  lemma {:induction false} HalfMask(v: nat, b: nat)
    requires b >= 1
    ensures v % (2 * b) == v % 2 + 2 * (v / 2 % b)
  {
    var h := v / 2;
    var q, r := h / b, h % b;
    DivMod(h, b);
    assert v == q * (2 * b) + (2 * r + v % 2);
    DivModUnique(v, q, 2 * b, 2 * r + v % 2);
  }

  /** Masking with one less than a power of two is the remainder. */
  lemma {:induction false} AndIsMod(v: nat, align: nat)
    requires GoodAlign(align) && align > 0
    ensures And(v, align - 1) == v % align
    decreases align
  {
    if align > 1 && v > 0 {
      var b := align / 2;
      assert b in {1, 2, 4, 8, 16, 32, 64} && align == 2 * b && (align - 1) / 2 == b - 1 && (align - 1) % 2 == 1;
      AndIsMod(v / 2, b);
      HalfMask(v, b);
    }
  }

  lemma {:induction false} RoundUpIsMultiple(v: nat, align: nat)
    requires align > 0
    ensures RoundUp(v, align) % align == 0 && v <= RoundUp(v, align) < v + align
    ensures v % align != 0 ==> v + align - 1 - (v + align - 1) % align == RoundUp(v, align)
  {
    var q, r := v / align, v % align;
    DivMod(v, align);
    if r > 0 {
      assert v + (align - r) == (q + 1) * align;
      DivModUnique(v + (align - r), q + 1, align, 0);
      DivModUnique(v + align - 1, q + 1, align, r - 1);
    }
  }

  lemma {:induction false} ForceAlignWith(v: nat, mask: nat, a: nat, b: nat)
    requires v + mask < WORD && And(v, mask) == a && And(v + mask, mask) == b && b <= v + mask
    ensures ForceAlign(v, mask) == if a != 0 then v + mask - b else v
  {
    hide And;
  }

  lemma {:induction false} ForceAlignIsRoundUp(v: nat, align: nat)
    requires GoodAlign(align) && v + align <= WORD
    ensures ForceAlign(v, Mask(align)) == RoundUp(v, align)
  {
    if align > 0 {
      AndIsMod(v, align);
      AndIsMod(v + align - 1, align);
      DivMod(v + align - 1, align);
      RoundUpIsMultiple(v, align);
      LowPart(v + align - 1, align);
      ForceAlignWith(v, align - 1, v % align, (v + align - 1) % align);
      if v % align == 0 { RoundUpOfMultiple(v, align); }
    } else {
      NoMask(v);
    }
    hide And, RoundUp, ForceAlign;
  }

  lemma {:induction false} LowPart(x: nat, m: nat)
    requires m > 0
    ensures 0 <= x % m <= x
  {
    DivMod(x, m);
    if x / m > 0 { MultipleIsLarge(x / m, m); }
  }

  lemma {:induction false} RoundUpOfMultiple(v: nat, align: nat)
    requires align > 0 && v % align == 0
    ensures RoundUp(v, align) == v
  {
  }

  lemma {:induction false} NoMask(v: nat)
    ensures And(v, 0) == 0
  {
  }

  // ----- The passes -----

  /** What makes the sizing pass give up. */
  predicate Accepted(sects: seq<Section>) {
    forall i :: 0 <= i < |sects| ==> sects[i].addr == 0 && sects[i].align <= 0x80
  }

  predicate GoodAligns(sects: seq<Section>) {
    forall i :: 0 <= i < |sects| ==> GoodAlign(sects[i].align)
  }

  /** Bytes of one group after the first `i` headers, as both passes add them up. */
  function GroupEnd(sects: seq<Section>, kind: Kind, i: nat): nat
    requires i <= |sects|
  {
    if i == 0 then 0
    else
      var end, sect := GroupEnd(sects, kind, i - 1), sects[i - 1];
      if sect.kind == kind then U32(ForceAlign(end, Mask(sect.align)) + sect.size) else end
  }

  /** The program base after `i` headers: aligned for each program section in turn. */
  function ProgBase(sects: seq<Section>, base: nat, i: nat): nat
    requires i <= |sects|
  {
    if i == 0 then base
    else
      var b, sect := ProgBase(sects, base, i - 1), sects[i - 1];
      if sect.kind.ProgBits? then ForceAlign(b, Mask(sect.align)) else b
  }

  /** One page after the program base, whatever the size of the program group. */
  function NobitsBase(progBase: nat): nat {
    U32(progBase + PAGE) / PAGE * PAGE
  }

  /** The offset of section `i` in its group. */
  function Start(sects: seq<Section>, i: nat): nat
    requires i < |sects|
  {
    ForceAlign(GroupEnd(sects, sects[i].kind, i), Mask(sects[i].align))
  }

  /** Where the two groups go. */
  datatype Bases = Bases(progVirt: nat, progPhys: nat, nobitsVirt: nat, nobitsPhys: nat)
  {
    function Virt(kind: Kind): nat { if kind.ProgBits? then progVirt else nobitsVirt }
    function Phys(kind: Kind): nat { if kind.ProgBits? then progPhys else nobitsPhys }
  }

  /** The placement table after `i` headers. */
  function Table(sects: seq<Section>, b: Bases, i: nat): seq<Placed>
    requires i <= |sects|
  {
    if i == 0 then []
    else
      var rest, sect := Table(sects, b, i - 1), sects[i - 1];
      if sect.kind.Other? then rest
      else
        rest + [Placed(i - 1, U32(b.Virt(sect.kind) + Start(sects, i - 1)),
                       U32(b.Phys(sect.kind) + Start(sects, i - 1)),
                       sect.size)]
  }

  method Plan(sects: seq<Section>, base: nat)
    returns (ok: bool, progBase: nat, progSize: nat, nobitsBase: nat, nobitsSize: nat)
    ensures ok <==> Accepted(sects)
    ensures ok ==> && progBase == ProgBase(sects, base, |sects|) && nobitsBase == NobitsBase(progBase)
                   && progSize == GroupEnd(sects, ProgBits, |sects|) && nobitsSize == GroupEnd(sects, NoBits, |sects|)
  {
    progBase, progSize, nobitsBase, nobitsSize := base, 0, 0, 0;
    for i := 0 to |sects|
      invariant Accepted(sects[..i]) && progBase == ProgBase(sects, base, i)
      invariant progSize == GroupEnd(sects, ProgBits, i) && nobitsSize == GroupEnd(sects, NoBits, i)
    {
      var sect := sects[i];
      if sect.addr != 0 || sect.align > 0x80 {
        ok := false;
        return;
      }
      var mask := Mask(sect.align);
      match sect.kind
      case ProgBits =>
        progBase, progSize := ForceAlign(progBase, mask), ForceAlign(progSize, mask);
        progSize := U32(progSize + sect.size);
      case NoBits =>
        nobitsBase, nobitsSize := ForceAlign(nobitsBase, mask), ForceAlign(nobitsSize, mask);
        nobitsSize := U32(nobitsSize + sect.size);
      case Other =>
    }
    ok, nobitsBase := true, NobitsBase(progBase);
  }

  /** The placing pass; its running offsets end at exactly the sizes the sizing pass computed. */
  method Place(sects: seq<Section>, b: Bases) returns (table: seq<Placed>, progEnd: nat, nobitsEnd: nat)
    ensures table == Table(sects, b, |sects|)
    ensures progEnd == GroupEnd(sects, ProgBits, |sects|) && nobitsEnd == GroupEnd(sects, NoBits, |sects|)
  {
    table, progEnd, nobitsEnd := [], 0, 0;
    for i := 0 to |sects|
      invariant table == Table(sects, b, i)
      invariant progEnd == GroupEnd(sects, ProgBits, i) && nobitsEnd == GroupEnd(sects, NoBits, i)
    {
      var sect := sects[i];
      var mask := Mask(sect.align);
      match sect.kind
      case ProgBits =>
        progEnd := ForceAlign(progEnd, mask);
        table := table + [Placed(i, U32(b.progVirt + progEnd), U32(b.progPhys + progEnd), sect.size)];
        progEnd := U32(progEnd + sect.size);
      case NoBits =>
        nobitsEnd := ForceAlign(nobitsEnd, mask);
        table := table + [Placed(i, U32(b.nobitsVirt + nobitsEnd), U32(b.nobitsPhys + nobitsEnd), sect.size)];
        nobitsEnd := U32(nobitsEnd + sect.size);
      case Other =>
    }
  }

  // ----- The layout is sound -----

  /** The same sums without a word size. */
  function ExactEnd(sects: seq<Section>, kind: Kind, i: nat): nat
    requires i <= |sects|
  {
    if i == 0 then 0
    else
      var end, sect := ExactEnd(sects, kind, i - 1), sects[i - 1];
      if sect.kind == kind then RoundUp(end, sect.align) + sect.size else end
  }

  /** The group and its alignment fit in 32 bits. */
  predicate GroupFits(sects: seq<Section>, kind: Kind) {
    ExactEnd(sects, kind, |sects|) + 0x80 <= WORD
  }

  lemma {:induction false} ExactGrows(sects: seq<Section>, kind: Kind, i: nat, j: nat)
    requires i <= j <= |sects|
    ensures ExactEnd(sects, kind, i) <= ExactEnd(sects, kind, j)
    decreases j
  {
    if i < j {
      ExactGrows(sects, kind, i, j - 1);
      if sects[j - 1].align > 0 { RoundUpIsMultiple(ExactEnd(sects, kind, j - 1), sects[j - 1].align); }
    }
  }

  lemma {:induction false} NoWrap(sects: seq<Section>, kind: Kind, i: nat)
    requires i <= |sects| && GoodAligns(sects) && GroupFits(sects, kind)
    ensures GroupEnd(sects, kind, i) == ExactEnd(sects, kind, i)
    decreases i
  {
    if i > 0 {
      NoWrap(sects, kind, i - 1);
      ExactGrows(sects, kind, i - 1, |sects|);
      ExactGrows(sects, kind, i, |sects|);
      ForceAlignIsRoundUp(ExactEnd(sects, kind, i - 1), sects[i - 1].align);
      hide And, ForceAlign, RoundUp;
    }
  }

  lemma {:induction false} StartIsExact(sects: seq<Section>, i: nat)
    requires i < |sects| && GoodAligns(sects) && GroupFits(sects, sects[i].kind)
    ensures Start(sects, i) == RoundUp(ExactEnd(sects, sects[i].kind, i), sects[i].align)
    ensures Start(sects, i) + sects[i].size == ExactEnd(sects, sects[i].kind, i + 1)
    ensures ExactEnd(sects, sects[i].kind, i) <= Start(sects, i)
    ensures sects[i].align > 0 ==> Start(sects, i) % sects[i].align == 0
  {
    var kind := sects[i].kind;
    NoWrap(sects, kind, i);
    ExactGrows(sects, kind, i, |sects|);
    ForceAlignIsRoundUp(ExactEnd(sects, kind, i), sects[i].align);
    if sects[i].align > 0 { RoundUpIsMultiple(ExactEnd(sects, kind, i), sects[i].align); }
    hide And, ForceAlign;
  }

  /** Each section is aligned in its group and inside it; sections of one group do not overlap. */
  lemma {:induction false} GroupIsSound(sects: seq<Section>, i: nat, j: nat)
    requires i <= j < |sects| && sects[i].kind == sects[j].kind
    requires GoodAligns(sects) && GroupFits(sects, sects[i].kind)
    ensures sects[i].align > 0 ==> Start(sects, i) % sects[i].align == 0
    ensures Start(sects, i) + sects[i].size <= GroupEnd(sects, sects[i].kind, |sects|)
    ensures i < j ==> Start(sects, i) + sects[i].size <= Start(sects, j)
  {
    var kind := sects[i].kind;
    StartIsExact(sects, i);
    StartIsExact(sects, j);
    NoWrap(sects, kind, |sects|);
    ExactGrows(sects, kind, i + 1, |sects|);
    if i < j { ExactGrows(sects, kind, i + 1, j); }
  }

  /** A page boundary suits every accepted alignment, so the program base stays where it is. */
  lemma {:induction false} PageBaseStays(sects: seq<Section>, base: nat, i: nat)
    requires i <= |sects| && GoodAligns(sects) && base % PAGE == 0 && base + 0x80 <= WORD
    ensures ProgBase(sects, base, i) == base
    decreases i
  {
    if i > 0 {
      PageBaseStays(sects, base, i - 1);
      var align := sects[i - 1].align;
      ForceAlignIsRoundUp(base, align);
      if align > 0 {
        PageIsAligned(base, align);
        RoundUpOfMultiple(base, align);
      }
      hide And, ForceAlign, RoundUp;
    }
  }

  lemma {:induction false} PageIsAligned(base: nat, align: nat)
    requires base % PAGE == 0 && GoodAlign(align) && align > 0
    ensures base % align == 0
  {
    var q := base / PAGE;
    var k := PAGE / align;
    assert PAGE == k * align;
    assert base == q * k * align;
    DivModUnique(base, q * k, align, 0);
  }

  lemma {:induction false} SumIsAligned(a: nat, b: nat, align: nat)
    requires align > 0 && a % align == 0 && b % align == 0
    ensures (a + b) % align == 0
  {
    DivMod(a, align);
    DivMod(b, align);
    assert a + b == (a / align + b / align) * align;
    DivModUnique(a + b, a / align + b / align, align, 0);
  }

  /** Entry for section `i`, if it is placed. */
  lemma {:induction false} TableEntries(sects: seq<Section>, b: Bases, i: nat, k: nat)
    requires i <= |sects| && k < |Table(sects, b, i)|
    ensures var p := Table(sects, b, i)[k];
            && p.section < i && !sects[p.section].kind.Other? && p.size == sects[p.section].size
            && p.virt == U32(b.Virt(sects[p.section].kind) + Start(sects, p.section))
            && p.phys == U32(b.Phys(sects[p.section].kind) + Start(sects, p.section))
    decreases i
  {
    var rest := Table(sects, b, i - 1);
    if k < |rest| { TableEntries(sects, b, i - 1, k); }
  }

  lemma {:induction false} TableOrder(sects: seq<Section>, b: Bases, i: nat, k: nat, l: nat)
    requires i <= |sects| && k < l < |Table(sects, b, i)|
    ensures Table(sects, b, i)[k].section < Table(sects, b, i)[l].section
    decreases i
  {
    var rest := Table(sects, b, i - 1);
    if l < |rest| {
      TableOrder(sects, b, i - 1, k, l);
    } else {
      TableEntries(sects, b, i - 1, k);
    }
  }

  predicate BasesFit(sects: seq<Section>, b: Bases) {
    && GroupFits(sects, ProgBits) && GroupFits(sects, NoBits)
    && b.progVirt % PAGE == 0 && b.progPhys % PAGE == 0 && b.nobitsVirt % PAGE == 0 && b.nobitsPhys % PAGE == 0
    && b.progVirt + ExactEnd(sects, ProgBits, |sects|) < WORD && b.progPhys + ExactEnd(sects, ProgBits, |sects|) < WORD
    && b.nobitsVirt + ExactEnd(sects, NoBits, |sects|) < WORD && b.nobitsPhys + ExactEnd(sects, NoBits, |sects|) < WORD
  }

  /**
    For good alignments and bases on page boundaries: every placed section is aligned, lies inside
    its group's allocation, keeps the group's virtual-to-physical offset, and overlaps no other
    section of the group.
    */
  lemma {:induction false} LayoutIsSound(sects: seq<Section>, b: Bases, k: nat, l: nat)
    requires GoodAligns(sects) && BasesFit(sects, b) && k <= l < |Table(sects, b, |sects|)|
    ensures var t := Table(sects, b, |sects|);
            t[k].section < |sects| && t[l].section < |sects| &&
            var p, kind := t[k], sects[t[k].section].kind;
            && (sects[p.section].align > 0 ==> p.virt % sects[p.section].align == 0)
            && b.Virt(kind) <= p.virt && p.virt + p.size <= b.Virt(kind) + GroupEnd(sects, kind, |sects|)
            && p.phys - p.virt == b.Phys(kind) - b.Virt(kind)
            && (k < l && sects[t[l].section].kind == kind ==> p.virt + p.size <= t[l].virt)
  {
    hide ForceAlign, Start, GroupEnd, ExactEnd, Table, BasesFit, GroupFits;
    var t := Table(sects, b, |sects|);
    TableEntries(sects, b, |sects|, k);
    TableEntries(sects, b, |sects|, l);
    var i, j := t[k].section, t[l].section;
    PlacedExactly(sects, b, i);
    PlacedExactly(sects, b, j);
    if k < l { TableOrder(sects, b, |sects|, k, l); }
    GroupIsSound(sects, i, i);
    if k < l && sects[j].kind == sects[i].kind { GroupIsSound(sects, i, j); }
    if sects[i].align > 0 {
      PageIsAligned(b.Virt(sects[i].kind), sects[i].align);
      SumIsAligned(b.Virt(sects[i].kind), Start(sects, i), sects[i].align);
    }
  }

  lemma {:induction false} PlacedExactly(sects: seq<Section>, b: Bases, i: nat)
    requires GoodAligns(sects) && BasesFit(sects, b) && i < |sects| && !sects[i].kind.Other?
    ensures var kind := sects[i].kind;
            && GroupFits(sects, kind) && b.Virt(kind) % PAGE == 0
            && U32(b.Virt(kind) + Start(sects, i)) == b.Virt(kind) + Start(sects, i)
            && U32(b.Phys(kind) + Start(sects, i)) == b.Phys(kind) + Start(sects, i)
  {
    hide ForceAlign, Start, ExactEnd, GoodAligns, U32;
    var kind := sects[i].kind;
    StartIsExact(sects, i);
    ExactGrows(sects, kind, i + 1, |sects|);
    InWord(b.Virt(kind) + Start(sects, i));
    InWord(b.Phys(kind) + Start(sects, i));
  }

  lemma {:induction false} InWord(x: nat)
    requires x < WORD
    ensures U32(x) == x
  {
  }

  predicate InRange(base: nat, size: nat, x: int) {
    base <= x < base + size
  }

  /**
    The two groups keep apart exactly when the program group ends before the next page, which the
    choice of the second base takes for granted.
    */
  lemma {:induction false} GroupsApartIff(base: nat, progSize: nat, nobitsSize: nat)
    requires base % PAGE == 0 && base + PAGE < WORD && nobitsSize > 0
    ensures NobitsBase(base) == base + 0x1000
    ensures (forall x :: InRange(base, progSize, x) ==> !InRange(NobitsBase(base), nobitsSize, x)) <==>
            progSize <= 0x1000
  {
    if progSize > PAGE {
      assert InRange(base, progSize, base + PAGE) && InRange(NobitsBase(base), nobitsSize, base + PAGE);
    }
  }

  /** When the program group fits in one page, no placed program section overlaps a nobits section. */
  lemma {:induction false} SectionsApart(sects: seq<Section>, b: Bases, k: nat, l: nat)
    requires GoodAligns(sects) && BasesFit(sects, b) && b.nobitsVirt == NobitsBase(b.progVirt)
    requires b.progVirt + PAGE < WORD && GroupEnd(sects, ProgBits, |sects|) <= PAGE
    requires k < |Table(sects, b, |sects|)| && l < |Table(sects, b, |sects|)|
    ensures var t := Table(sects, b, |sects|);
            t[k].section < |sects| && t[l].section < |sects| &&
            (sects[t[k].section].kind.ProgBits? && sects[t[l].section].kind.NoBits? ==>
               t[k].virt + t[k].size <= t[l].virt)
  {
    hide GoodAligns, BasesFit, GroupEnd, Table, NobitsBase;
    LayoutIsSound(sects, b, k, k);
    LayoutIsSound(sects, b, l, l);
    ProgBaseIsPage(sects, b);
    PageAfter(b.progVirt);
  }

  lemma {:induction false} ProgBaseIsPage(sects: seq<Section>, b: Bases)
    requires BasesFit(sects, b)
    ensures b.progVirt % PAGE == 0
  {
  }

  /** A program section of two pages and a nobits section: accepted, and laid over each other. */
  lemma {:induction false} SectionsOverlap(base: nat, progPhys: nat, nobitsPhys: nat)
    requires base % PAGE == 0 && base + 0x4000 < WORD && progPhys + 0x4000 < WORD && nobitsPhys + 0x4000 < WORD
    ensures var sects := [Section(ProgBits, 0, 1, 0x2000), Section(NoBits, 0, 1, 0x10)];
            && Accepted(sects) && GoodAligns(sects)
            && Table(sects, BasesAt(sects, base, progPhys, nobitsPhys), 2) ==
               [Placed(0, base, progPhys, 0x2000), Placed(1, base + PAGE, nobitsPhys, 0x10)]
  {
    var sects := [Section(ProgBits, 0, 1, 0x2000), Section(NoBits, 0, 1, 0x10)];
    var b := BasesAt(sects, base, progPhys, nobitsPhys);
    PageBaseStays(sects, base, 2);
    PageAfter(base);
    NoMask(0);
    assert GroupEnd(sects, ProgBits, 0) == 0 && GroupEnd(sects, NoBits, 0) == 0;
    assert GroupEnd(sects, NoBits, 1) == 0;
    assert Table(sects, b, 0) == [];
    assert Table(sects, b, 1) == [Placed(0, base, progPhys, 0x2000)];
  }

  /** The bases the loader works out for a load address. */
  function BasesAt(sects: seq<Section>, base: nat, progPhys: nat, nobitsPhys: nat): Bases {
    var progBase := ProgBase(sects, base, |sects|);
    Bases(progBase, progPhys, NobitsBase(progBase), nobitsPhys)
  }

  /** Loading somewhere else by whole pages moves both bases alike. */
  lemma {:induction false} BasesShift(sects: seq<Section>, base: nat, base': nat)
    requires GoodAligns(sects) && base % PAGE == 0 && base' % PAGE == 0
    requires base + PAGE < WORD && base' + PAGE < WORD
    ensures ProgBase(sects, base', |sects|) == ProgBase(sects, base, |sects|) + (base' - base)
    ensures NobitsBase(ProgBase(sects, base', |sects|)) == NobitsBase(ProgBase(sects, base, |sects|)) + (base' - base)
  {
    hide ProgBase, NobitsBase;
    PageBaseStays(sects, base, |sects|);
    PageBaseStays(sects, base', |sects|);
    PageAfter(base);
    PageAfter(base');
  }

  lemma {:induction false} PageAfter(base: nat)
    requires base % PAGE == 0 && base + PAGE < WORD
    ensures NobitsBase(base) == base + PAGE
  {
    DivModUnique(base + PAGE, base / PAGE + 1, PAGE, 0);
  }

  /** The same sections, every virtual address moved by `delta`. */
  ghost predicate Shifted(table: seq<Placed>, table': seq<Placed>, delta: int) {
    |table'| == |table| &&
    forall k :: 0 <= k < |table| ==>
      table'[k].section == table[k].section && table'[k].virt == U32(table[k].virt + delta)
  }

  /** Moving both bases by the same amount moves every placed section by it. */
  lemma {:induction false} TableShifts(sects: seq<Section>, b: Bases, b': Bases, delta: int, i: nat)
    requires i <= |sects| && b'.progVirt == b.progVirt + delta && b'.nobitsVirt == b.nobitsVirt + delta
    ensures Shifted(Table(sects, b, i), Table(sects, b', i), delta)
    decreases i
  {
    if i > 0 {
      TableShifts(sects, b, b', delta, i - 1);
      if !sects[i - 1].kind.Other? {
        ShiftSum(b.Virt(sects[i - 1].kind), Start(sects, i - 1), delta);
      }
    }
  }

  lemma {:induction false} ShiftSum(a: int, x: int, delta: int)
    ensures U32(U32(a + delta) + x) == U32(U32(a + x) + delta) == U32(a + delta + x)
  {
  }
}
