/**
  Packing the argument and environment vectors of execve into one block:
  pointers first, then the strings.
  */
module ExecArgs {
  import opened Arith
  import opened Bytes
  import opened Words

  type Strings = seq<seq<byte>>

  predicate CStrings(list: Strings) {
    forall i, j :: 0 <= i < |list| && 0 <= j < |list[i]| ==> list[i][j] != 0
  }

  // ----- What a vector in memory means -----

  /** The C string `s` stands at address `p` of memory that starts at `base`. */
  predicate StringAt(mem: seq<byte>, base: nat, p: nat, s: seq<byte>) {
    base <= p && Has(mem, p - base, s + [0]) && forall j :: 0 <= j < |s| ==> s[j] != 0
  }

  /** A vector of pointers at address `a`, ended by NULL, leads to exactly these strings. */
  predicate VectorAt(mem: seq<byte>, base: nat, a: nat, list: Strings)
    decreases |list|
  {
    && base <= a && WordAt(mem, a - base)
    && var w := ReadWord(mem, a - base);
       if list == [] then w == 0
       else w != 0 && StringAt(mem, base, w, list[0]) && VectorAt(mem, base, a + 4, list[1..])
  }

  lemma {:induction false} StringByte(mem: seq<byte>, base: nat, p: nat, s: seq<byte>, j: nat)
    requires StringAt(mem, base, p, s) && j <= |s|
    ensures p - base + |s| < |mem| && (mem[p - base + j] == 0 <==> j == |s|)
  {
    var at := p - base;
    assert mem[at + j] == mem[at..at + |s| + 1][j];
  }

  lemma {:induction false} StringIsUnique(mem: seq<byte>, base: nat, p: nat, s: seq<byte>, t: seq<byte>)
    requires StringAt(mem, base, p, s) && StringAt(mem, base, p, t)
    ensures s == t
  {
    if |s| < |t| {
      StringByte(mem, base, p, s, |s|);
      StringByte(mem, base, p, t, |s|);
    } else if |t| < |s| {
      StringByte(mem, base, p, s, |t|);
      StringByte(mem, base, p, t, |t|);
    }
    var at := p - base;
    assert s == mem[at..at + |s| + 1][..|s|] && t == mem[at..at + |t| + 1][..|t|];
  }

  /** Memory holds at most one vector at an address. */
  lemma {:induction false} VectorIsUnique(mem: seq<byte>, base: nat, a: nat, list: Strings, other: Strings)
    requires VectorAt(mem, base, a, list) && VectorAt(mem, base, a, other)
    ensures list == other
    decreases |list|
  {
    hide StringAt;
    if list != [] && other != [] {
      StringIsUnique(mem, base, ReadWord(mem, a - base), list[0], other[0]);
      VectorIsUnique(mem, base, a + 4, list[1..], other[1..]);
      assert list == [list[0]] + list[1..] && other == [other[0]] + other[1..];
    }
  }

  // ----- The packed block -----

  /** The strings one after the other, each with its terminator. */
  function Blob(list: Strings): seq<byte> {
    if list == [] then [] else list[0] + [0] + Blob(list[1..])
  }

  /** Pointers to strings packed from address `p` on. */
  function Pointers(list: Strings, p: nat): (s: seq<byte>)
    requires p + |Blob(list)| <= WORD
    ensures |s| == 4 * |list|
    decreases |list|
  {
    if list == [] then [] else WordBytes(p) + Pointers(list[1..], p + |list[0]| + 1)
  }

  function TableSize(args: Strings, envs: Strings): nat {
    4 * (|args| + |envs| + 2)
  }

  function BlockSize(args: Strings, envs: Strings): nat {
    TableSize(args, envs) + |Blob(args)| + |Blob(envs)|
  }

  /** The block for a given address. */
  function Block(args: Strings, envs: Strings, base: nat): (s: seq<byte>)
    requires base + BlockSize(args, envs) <= WORD
    ensures |s| == BlockSize(args, envs)
  {
    var p := base + TableSize(args, envs);
    Pointers(args, p) + (WordBytes(0) + (Pointers(envs, p + |Blob(args)|) + (WordBytes(0) + (Blob(args) + Blob(envs)))))
  }

  /** Pointers and strings in place make a vector. */
  lemma {:induction false} PlacedIsVector(mem: seq<byte>, base: nat, tab: nat, off: nat, list: Strings)
    requires 0 < base && CStrings(list) && base + off + |Blob(list)| <= WORD
    requires Has(mem, tab, Pointers(list, base + off)) && Has(mem, tab + 4 * |list|, WordBytes(0))
    requires Has(mem, off, Blob(list))
    ensures VectorAt(mem, base, base + tab, list)
    decreases |list|
  {
    hide WordBytes, ReadWord, Has;
    if list == [] {
      ReadWordBytes(mem, tab, 0);
      HasFits(mem, tab, WordBytes(0));
    } else {
      var s := list[0];
      HasSplit(mem, tab, WordBytes(base + off), Pointers(list[1..], base + off + |s| + 1));
      HasSplit(mem, off, s + [0], Blob(list[1..]));
      ReadWordBytes(mem, tab, base + off);
      HasFits(mem, tab, WordBytes(base + off));
      assert CStrings(list[1..]);
      PlacedIsVector(mem, base, tab + 4, off + |s| + 1, list[1..]);
    }
  }

  lemma {:induction false} HasFits(mem: seq<byte>, at: nat, part: seq<byte>)
    requires Has(mem, at, part)
    ensures at + |part| <= |mem|
  {
  }

  /** The block holds both vectors, the second right after the first. */
  lemma {:induction false} BlockHoldsBoth(args: Strings, envs: Strings, base: nat)
    requires 0 < base && base + BlockSize(args, envs) <= WORD && CStrings(args) && CStrings(envs)
    ensures var mem := Block(args, envs, base);
            VectorAt(mem, base, base, args) && VectorAt(mem, base, base + 4 * (|args| + 1), envs)
  {
    hide WordBytes, Has, VectorAt, Pointers, Blob;
    var mem := Block(args, envs, base);
    var off := TableSize(args, envs);
    var p := base + off;
    var n := 4 * |args|;
    HasAll(mem);
    HasSplit(mem, 0, Pointers(args, p),
             WordBytes(0) + (Pointers(envs, p + |Blob(args)|) + (WordBytes(0) + (Blob(args) + Blob(envs)))));
    HasSplit(mem, n, WordBytes(0), Pointers(envs, p + |Blob(args)|) + (WordBytes(0) + (Blob(args) + Blob(envs))));
    HasSplit(mem, n + 4, Pointers(envs, p + |Blob(args)|), WordBytes(0) + (Blob(args) + Blob(envs)));
    HasSplit(mem, n + 4 + 4 * |envs|, WordBytes(0), Blob(args) + Blob(envs));
    HasSplit(mem, off, Blob(args), Blob(envs));
    PlacedIsVector(mem, base, 0, off, args);
    PlacedIsVector(mem, base, n + 4, off + |Blob(args)|, envs);
  }

  lemma {:induction false} HasAll(mem: seq<byte>)
    ensures Has(mem, 0, mem)
  {
    assert mem[0..|mem|] == mem;
  }

  // ----- Building it -----

  lemma {:induction false} BlobBack(list: Strings, k: nat)
    requires k < |list|
    ensures Blob(list[..k + 1]) == Blob(list[..k]) + (list[k] + [0])
    decreases k
  {
    var l := list[..k + 1];
    if k == 0 {
      assert l[1..] == [] && Blob([]) == [];
      assert list[..0] == [];
    } else {
      BlobBack(list[1..], k - 1);
      assert l[1..] == list[1..][..k] && list[..k][1..] == list[1..][..k - 1];
    }
  }

  lemma {:induction false} BlobGrows(list: Strings, k: nat)
    requires k <= |list|
    ensures |Blob(list[..k])| <= |Blob(list)|
    ensures k < |list| ==> |Blob(list[..k])| + |list[k]| + 1 <= |Blob(list)|
    decreases |list| - k
  {
    if k < |list| {
      BlobBack(list, k);
      BlobGrows(list, k + 1);
    } else {
      assert list[..k] == list;
    }
  }

  lemma {:induction false} PointersBack(list: Strings, p: nat, k: nat)
    requires k < |list| && p + |Blob(list)| <= WORD
    ensures |Blob(list[..k + 1])| <= |Blob(list)| && |Blob(list[..k])| < |Blob(list)|
    ensures Pointers(list[..k + 1], p) == Pointers(list[..k], p) + WordBytes(p + |Blob(list[..k])|)
    decreases k
  {
    hide WordBytes;
    BlobGrows(list, k);
    BlobGrows(list, k + 1);
    var l := list[..k + 1];
    if k == 0 {
      assert l[1..] == [] && list[..0] == [];
    } else {
      PointersBack(list[1..], p + |list[0]| + 1, k - 1);
      assert l[1..] == list[1..][..k] && list[..k][1..] == list[1..][..k - 1];
    }
  }

  /** Length of the string at `p`, counted up to its terminator. */
  method Strlen(mem: seq<byte>, base: nat, p: nat, ghost s: seq<byte>) returns (n: nat)
    requires StringAt(mem, base, p, s)
    ensures n == |s|
  {
    n := 0;
    StringByte(mem, base, p, s, 0);
    while mem[p - base + n] != 0
      invariant n <= |s|
      decreases |s| - n
    {
      StringByte(mem, base, p, s, n);
      n := n + 1;
    }
    StringByte(mem, base, p, s, n);
  }

  /** Entry `k` of a vector. */
  lemma {:induction false} VectorEntry(mem: seq<byte>, base: nat, a: nat, list: Strings, k: nat, at: nat)
    requires VectorAt(mem, base, a, list) && k <= |list| && at == a + 4 * k
    ensures base <= at && WordAt(mem, at - base)
    ensures k < |list| ==> ReadWord(mem, at - base) != 0 && StringAt(mem, base, ReadWord(mem, at - base), list[k])
    ensures k == |list| ==> ReadWord(mem, at - base) == 0
    decreases k
  {
    hide ReadWord, StringAt;
    if k > 0 { VectorEntry(mem, base, a + 4, list[1..], k - 1, at); }
  }

  /** The counting loop: the number of strings, and the bytes they need with their pointers. */
  method CountVector(mem: seq<byte>, base: nat, a: nat, ghost list: Strings) returns (n: nat, size: nat)
    requires VectorAt(mem, base, a, list)
    ensures n == |list| && size == 4 * |list| + |Blob(list)|
  {
    hide ReadWord, StringAt, VectorAt;
    n, size := 0, 0;
    VectorEntry(mem, base, a, list, 0, a);
    while ReadWord(mem, a + 4 * n - base) != 0
      invariant n <= |list| && base <= a + 4 * n && WordAt(mem, a + 4 * n - base)
      invariant n == |list| ==> ReadWord(mem, a + 4 * n - base) == 0
      invariant size == 4 * n + |Blob(list[..n])|
      decreases |list| - n
    {
      VectorEntry(mem, base, a, list, n, a + 4 * n);
      var len := Strlen(mem, base, ReadWord(mem, a + 4 * n - base), list[n]);
      BlobBack(list, n);
      size := size + 4 + len + 1;
      n := n + 1;
      VectorEntry(mem, base, a, list, n, a + 4 * n);
    }
    VectorEntry(mem, base, a, list, n, a + 4 * n);
    assert list[..n] == list;
  }

  /** memcpy into the block. */
  method Store(data: array<byte>, at: nat, part: seq<byte>)
    requires at + |part| <= data.Length
    modifies data
    ensures Has(data[..], at, part)
    ensures forall k :: 0 <= k < data.Length && !(at <= k < at + |part|) ==> data[k] == old(data[k])
  {
    var i := 0;
    while i < |part|
      invariant 0 <= i <= |part|
      invariant forall k :: 0 <= k < i ==> data[at + k] == part[k]
      invariant forall k :: 0 <= k < data.Length && !(at <= k < at + i) ==> data[k] == old(data[k])
    {
      data[at + i] := part[i];
      i := i + 1;
    }
    assert data[..][at..at + |part|] == part;
  }

  /** Byte `k` belongs neither to the pointers nor to the strings of a list. */
  predicate Outside(k: nat, tab: nat, n: nat, off: nat, end: nat) {
    !(tab <= k < tab + 4 * n) && !(off <= k < end)
  }

  /** One round of a placing loop: pointer, string, terminator. */
  method StoreOne(data: array<byte>, at: nat, off: nat, p: nat, s: seq<byte>)
    requires at + 4 <= off && off + |s| + 1 <= data.Length && p < WORD
    modifies data
    ensures Has(data[..], at, WordBytes(p)) && Has(data[..], off, s + [0])
    ensures forall k :: 0 <= k < data.Length && !(at <= k < at + 4) && !(off <= k < off + |s| + 1) ==>
            data[k] == old(data[k])
  {
    hide WordBytes;
    Store(data, at, WordBytes(p));
    ghost var before := data[..];
    Store(data, off, s + [0]);
    HasKept(before, data[..], at, WordBytes(p));
  }

  /** A placing loop: pointers from `tab` on, strings from `off` on. */
  method PlaceVector(mem: seq<byte>, mbase: nat, a: nat, ghost list: Strings, n: nat,
                     data: array<byte>, base: nat, tab: nat, off: nat) returns (end: nat)
    requires VectorAt(mem, mbase, a, list) && n == |list|
    requires tab + 4 * n <= off && off + |Blob(list)| <= data.Length && base + data.Length <= WORD
    modifies data
    ensures end == off + |Blob(list)|
    ensures Has(data[..], tab, Pointers(list, base + off)) && Has(data[..], off, Blob(list))
    ensures forall k :: 0 <= k < data.Length && Outside(k, tab, n, off, end) ==> data[k] == old(data[k])
  {
    hide ReadWord, StringAt, VectorAt, WordBytes, Pointers, Blob, Has;
    var i := 0;
    end := off;
    PlacedNone(data[..], list, base, tab, off);
    while i < n
      invariant 0 <= i <= n
      invariant |Blob(list[..i])| <= |Blob(list)| && end == off + |Blob(list[..i])|
      invariant Has(data[..], tab, Pointers(list[..i], base + off)) && Has(data[..], off, Blob(list[..i]))
      invariant forall k :: 0 <= k < data.Length && Outside(k, tab, i, off, end) ==> data[k] == old(data[k])
    {
      VectorEntry(mem, mbase, a, list, i, a + 4 * i);
      var p := ReadWord(mem, a + 4 * i - mbase);
      var len := Strlen(mem, mbase, p, list[i]);
      StringText(mem, mbase, p, list[i]);
      BlobGrows(list, i);
      ghost var before := data[..];
      StoreOne(data, tab + 4 * i, end, base + end, mem[p - mbase..p - mbase + len]);
      PlacedOneMore(before, data[..], list, base, tab, off, i);
      end := end + len + 1;
      i := i + 1;
    }
    assert list[..n] == list;
  }

  /** The loop and the NULL after it. */
  method PlaceTerminated(mem: seq<byte>, mbase: nat, a: nat, ghost list: Strings, n: nat,
                         data: array<byte>, base: nat, tab: nat, off: nat) returns (end: nat)
    requires VectorAt(mem, mbase, a, list) && n == |list|
    requires tab + 4 * (n + 1) <= off && off + |Blob(list)| <= data.Length && base + data.Length <= WORD
    modifies data
    ensures end == off + |Blob(list)|
    ensures Has(data[..], tab, Pointers(list, base + off)) && Has(data[..], off, Blob(list))
    ensures Has(data[..], tab + 4 * n, WordBytes(0))
    ensures forall k :: 0 <= k < data.Length && Outside(k, tab, n + 1, off, end) ==> data[k] == old(data[k])
  {
    hide VectorAt, WordBytes, Pointers, Blob, Has;
    end := PlaceVector(mem, mbase, a, list, n, data, base, tab, off);
    ghost var before := data[..];
    Store(data, tab + 4 * n, WordBytes(0));
    HasKept(before, data[..], tab, Pointers(list, base + off));
    HasKept(before, data[..], off, Blob(list));
  }

  lemma {:induction false} StringText(mem: seq<byte>, base: nat, p: nat, s: seq<byte>)
    requires StringAt(mem, base, p, s)
    ensures base <= p && p - base + |s| <= |mem| && mem[p - base..p - base + |s|] == s
  {
    var at := p - base;
    HasSplit(mem, at, s, [0]);
  }

  lemma {:induction false} PlacedNone(mem: seq<byte>, list: Strings, base: nat, tab: nat, off: nat)
    requires tab <= |mem| && off <= |mem| && base + off <= WORD
    ensures Blob(list[..0]) == [] && Pointers(list[..0], base + off) == []
    ensures Has(mem, tab, []) && Has(mem, off, [])
  {
    assert list[..0] == [];
  }

  /** Pointers and strings of one entry more. */
  lemma {:induction false} PlacedOneMore(s: seq<byte>, t: seq<byte>, list: Strings, base: nat, tab: nat, off: nat,
                                         i: nat)
    requires i < |list| && base + off + |Blob(list)| <= WORD && tab + 4 * |list| <= off && |s| == |t|
    requires |Blob(list[..i])| < |Blob(list)|
    requires Has(s, tab, Pointers(list[..i], base + off)) && Has(s, off, Blob(list[..i]))
    requires var end := off + |Blob(list[..i])|;
             Has(t, tab + 4 * i, WordBytes(base + end)) && Has(t, end, list[i] + [0]) &&
             (forall k :: 0 <= k < |s| && !(tab + 4 * i <= k < tab + 4 * i + 4) && !(end <= k < end + |list[i]| + 1) ==>
                t[k] == s[k])
    ensures |Blob(list[..i + 1])| == |Blob(list[..i])| + |list[i]| + 1 <= |Blob(list)|
    ensures Has(t, tab, Pointers(list[..i + 1], base + off)) && Has(t, off, Blob(list[..i + 1]))
  {
    hide WordBytes, Pointers, Blob;
    var pointers, blob := Pointers(list[..i], base + off), Blob(list[..i]);
    HasKept(s, t, tab, pointers);
    HasKept(s, t, off, blob);
    BlobBack(list, i);
    BlobGrows(list, i + 1);
    PointersBack(list, base + off, i);
    HasSplit(t, tab, pointers, WordBytes(base + off + |blob|));
    HasSplit(t, off, blob, list[i] + [0]);
  }

  /** The parts of a block, each in its place, are the block. */
  lemma {:induction false} PartsAreBlock(mem: seq<byte>, args: Strings, envs: Strings, base: nat)
    requires |mem| == BlockSize(args, envs) && base + |mem| <= WORD
    requires var off := TableSize(args, envs);
             && Has(mem, 0, Pointers(args, base + off)) && Has(mem, 4 * |args|, WordBytes(0))
             && Has(mem, 4 * |args| + 4, Pointers(envs, base + off + |Blob(args)|))
             && Has(mem, 4 * |args| + 4 + 4 * |envs|, WordBytes(0))
             && Has(mem, off, Blob(args)) && Has(mem, off + |Blob(args)|, Blob(envs))
    ensures mem == Block(args, envs, base)
  {
    hide WordBytes, Pointers, Blob, Has;
    var off, n := TableSize(args, envs), 4 * |args|;
    var pa, pe := Pointers(args, base + off), Pointers(envs, base + off + |Blob(args)|);
    var strings := Blob(args) + Blob(envs);
    HasSplit(mem, off, Blob(args), Blob(envs));
    HasSplit(mem, n + 4 + 4 * |envs|, WordBytes(0), strings);
    HasSplit(mem, n + 4, pe, WordBytes(0) + strings);
    HasSplit(mem, n, WordBytes(0), pe + (WordBytes(0) + strings));
    HasSplit(mem, 0, pa, WordBytes(0) + (pe + (WordBytes(0) + strings)));
    HasWhole(mem, Block(args, envs, base));
  }

  lemma {:induction false} HasWhole(mem: seq<byte>, part: seq<byte>)
    requires Has(mem, 0, part) && |part| == |mem|
    ensures mem == part
  {
  }

  /**
    _store_arguments and _exec_copy_arguments: reads both vectors from memory,
    packs them at `base`, and returns where the vectors now are. The offset ends
    at the computed size.
    */
  method Pack(mem: seq<byte>, mbase: nat, argv: nat, envp: nat, ghost args: Strings, ghost envs: Strings, base: nat)
      returns (data: array<byte>, newEnvp: nat, off: nat)
    requires VectorAt(mem, mbase, argv, args) && VectorAt(mem, mbase, envp, envs)
    requires 0 < base && base + BlockSize(args, envs) <= WORD
    ensures fresh(data) && data[..] == Block(args, envs, base)
    ensures newEnvp == base + 4 * (|args| + 1)
    ensures off == data.Length
  {
    hide VectorAt, WordBytes, Pointers, Blob, Has;
    var argc, asize := CountVector(mem, mbase, argv, args);
    var envc, esize := CountVector(mem, mbase, envp, envs);
    var size := 8 + asize + esize;
    data := new byte[size](_ => 0);
    newEnvp := base + 4 * (argc + 1);
    off := (argc + envc + 2) * 4;
    ghost var at := off;
    off := PlaceTerminated(mem, mbase, argv, args, argc, data, base, 0, off);
    ghost var one := data[..];
    ghost var mid := off;
    off := PlaceTerminated(mem, mbase, envp, envs, envc, data, base, 4 * argc + 4, off);
    ghost var two := data[..];
    assert forall k :: 0 <= k < size && Outside(k, 4 * argc + 4, envc + 1, mid, off) ==> two[k] == one[k];
    HasKept(one, two, 0, Pointers(args, base + at));
    HasKept(one, two, at, Blob(args));
    HasKept(one, two, 4 * argc, WordBytes(0));
    PartsAreBlock(two, args, envs, base);
  }

  /** Stored for the kernel and copied for the new image, the vectors lead to the same strings. */
  method StoreAndCopy(mem: seq<byte>, mbase: nat, argv: nat, envp: nat, ghost args: Strings, ghost envs: Strings,
                      kernel: nat, user: nat) returns (data: array<byte>, newEnvp: nat)
    requires VectorAt(mem, mbase, argv, args) && VectorAt(mem, mbase, envp, envs)
    requires 0 < kernel && kernel + BlockSize(args, envs) <= WORD
    requires 0 < user && user + BlockSize(args, envs) <= WORD
    ensures VectorAt(data[..], user, user, args) && VectorAt(data[..], user, newEnvp, envs)
    ensures data.Length == BlockSize(args, envs)
  {
    hide VectorAt, Block;
    VectorStrings(mem, mbase, argv, args);
    VectorStrings(mem, mbase, envp, envs);
    var stored, storedEnvp, _ := Pack(mem, mbase, argv, envp, args, envs, kernel);
    BlockHoldsBoth(args, envs, kernel);
    var end: nat;
    data, newEnvp, end := Pack(stored[..], kernel, kernel, storedEnvp, args, envs, user);
    BlockHoldsBoth(args, envs, user);
    BlockLength(args, envs, user);
  }

  lemma {:induction false} BlockLength(args: Strings, envs: Strings, base: nat)
    requires base + BlockSize(args, envs) <= WORD
    ensures |Block(args, envs, base)| == BlockSize(args, envs)
  {
  }

  lemma {:induction false} VectorStrings(mem: seq<byte>, base: nat, a: nat, list: Strings)
    requires VectorAt(mem, base, a, list)
    ensures CStrings(list)
    decreases |list|
  {
    if list != [] { VectorStrings(mem, base, a + 4, list[1..]); }
  }
}
