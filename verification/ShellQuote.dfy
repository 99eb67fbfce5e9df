/**
  What the shell does to a split argument, and the round trip from quoted text
  to arguments.
  */
module ShellQuote {
  import opened Options
  import opened Bytes
  import opened ShellSplit

  const MAX_ENVLEN: nat := 64
  const UNDERSCORE: byte := 95

  /** getenv, with the empty string for a variable that is not set. */
  type Env = seq<byte> -> seq<byte>

  predicate IsName(c: byte) {
    c == UNDERSCORE || 48 <= c <= 57 || 65 <= c <= 90 || 97 <= c <= 122
  }

  /** Bytes of the argument that the clean-up treats specially. */
  predicate IsSpecial(c: byte) {
    c == DOLLAR || c == DOLLAR_REPLACE || c == QUOTE_REPLACE
  }

  /** Length of the variable name at the front of `s`. */
  function NameLength(s: seq<byte>): (n: nat)
    ensures n <= |s|
    ensures forall i :: 0 <= i < n ==> IsName(s[i])
    ensures n < |s| ==> !IsName(s[n])
  {
    if s == [] || !IsName(s[0]) then 0 else 1 + NameLength(s[1..])
  }

  function Prefixed(p: seq<byte>, r: Option<seq<byte>>): Option<seq<byte>> {
    if r.Some? then Some(p + r.value) else None
  }

  // ----- _args_replace on one argument -----

  /**
    The text the loop works out, in blocks that have room for it: the byte after an expanded
    variable is stepped over.
    */
  function Replaced(s: seq<byte>, env: Env): Option<seq<byte>>
    decreases |s|
  {
    if s == [] then Some([])
    else if s[0] == DOLLAR then
      var n := NameLength(s[1..]);
      var rest := s[1 + n..];
      if n > MAX_ENVLEN then None
      else if rest == [] then Some(env(s[1..1 + n]))
      else Prefixed(env(s[1..1 + n]) + [rest[0]], Replaced(rest[1..], env))
    else Prefixed(Resolve(s[0]), Replaced(s[1..], env))
  }

  /** The argument as the two replacement bytes are documented: every variable expanded, every marker resolved. */
  function Meant(s: seq<byte>, env: Env): Option<seq<byte>>
    decreases |s|
  {
    if s == [] then Some([])
    else if s[0] == DOLLAR then
      var n := NameLength(s[1..]);
      if n > MAX_ENVLEN then None else Prefixed(env(s[1..1 + n]), Meant(s[1 + n..], env))
    else Prefixed(Resolve(s[0]), Meant(s[1..], env))
  }

  /** What a byte outside variables stands for. */
  function Resolve(c: byte): seq<byte> {
    if c == QUOTE_REPLACE then [] else if c == DOLLAR_REPLACE then [DOLLAR] else [c]
  }

  function Clean(s: seq<byte>): seq<byte> {
    if s == [] then [] else Resolve(s[0]) + Clean(s[1..])
  }

  predicate Without(s: seq<byte>, c: byte) {
    forall i :: 0 <= i < |s| ==> s[i] != c
  }

  lemma {:induction false} CleanConcat(a: seq<byte>, b: seq<byte>)
    ensures Clean(a + b) == Clean(a) + Clean(b)
  {
    if a == [] {
      assert a + b == b;
    } else {
      assert (a + b)[1..] == a[1..] + b;
      CleanConcat(a[1..], b);
    }
  }

  lemma {:induction false} CleanPlain(s: seq<byte>)
    requires Without(s, DOLLAR_REPLACE) && Without(s, QUOTE_REPLACE)
    ensures Clean(s) == s
  {
    if s != [] { CleanPlain(s[1..]); }
  }

  /** Without variables the shell resolves the markers and nothing else. */
  lemma {:induction false} ReplacedIsClean(s: seq<byte>, env: Env)
    requires Without(s, DOLLAR)
    ensures Replaced(s, env) == Some(Clean(s)) == Meant(s, env)
  {
    if s != [] { ReplacedIsClean(s[1..], env); }
  }

  // ----- When the clean-up does what it is meant to -----

  predicate ShortNames(s: seq<byte>)
    decreases |s|
  {
    s == [] || (ShortNames(s[1..]) && (s[0] == 36 ==> NameLength(s[1..]) <= 64))
  }

  /** No variable is directly followed by another variable, a quote or an escaped dollar. */
  predicate Apart(s: seq<byte>)
    decreases |s|
  {
    if s == [] then true
    else if s[0] == DOLLAR then
      var rest := s[1 + NameLength(s[1..])..];
      rest != [] ==> !IsSpecial(rest[0]) && Apart(rest)
    else Apart(s[1..])
  }

  /** The loop, which steps over the byte behind a variable, meets a name that is too long. */
  predicate MeetsLongName(s: seq<byte>)
    decreases |s|
  {
    if s == [] then false
    else if s[0] == DOLLAR then
      var n := NameLength(s[1..]);
      n > 64 || (1 + n < |s| && MeetsLongName(s[2 + n..]))
    else MeetsLongName(s[1..])
  }

  /** No value holds a byte that the shell reserves; a variable that is not set has the empty value. */
  ghost predicate PlainValues(env: Env) {
    forall name :: Weight(env(name)) == 0
  }

  lemma {:induction false} ShortSuffix(s: seq<byte>, k: nat)
    requires ShortNames(s) && k <= |s|
    ensures ShortNames(s[k..])
  {
    if k > 0 {
      assert s[1..][k - 1..] == s[k..];
      ShortSuffix(s[1..], k - 1);
    } else {
      assert s[k..] == s;
    }
  }

  lemma {:induction false} ShortSucceeds(s: seq<byte>, env: Env)
    requires ShortNames(s)
    ensures Replaced(s, env).Some? && Meant(s, env).Some?
    decreases |s|
  {
    if s == [] {
    } else if s[0] == DOLLAR {
      var n := NameLength(s[1..]);
      var rest := s[1 + n..];
      ShortSuffix(s, 1 + n);
      ShortSucceeds(rest, env);
      if rest != [] { ShortSucceeds(rest[1..], env); }
    } else {
      ShortSucceeds(s[1..], env);
    }
  }

  lemma {:induction false} ApartAgrees(s: seq<byte>, env: Env)
    requires Apart(s)
    ensures Replaced(s, env) == Meant(s, env)
    decreases |s|
  {
    if s == [] {
    } else if s[0] == DOLLAR {
      var n := NameLength(s[1..]);
      var rest := s[1 + n..];
      if rest == [] {
        assert env(s[1..1 + n]) + [] == env(s[1..1 + n]);
      } else {
        ApartAgrees(rest[1..], env);
        var v := env(s[1..1 + n]);
        var m := Meant(rest[1..], env);
        if m.Some? { assert v + [rest[0]] + m.value == v + ([rest[0]] + m.value); }
      }
    } else {
      ApartAgrees(s[1..], env);
    }
  }

  // Counting special bytes: what is meant holds one dollar for each escaped one and no marker.

  /** A dollar weighs 1, a marker 2. */
  function Weight(s: seq<byte>): nat {
    if s == [] then 0
    else (if s[0] == DOLLAR then 1 else if IsSpecial(s[0]) then 2 else 0) + Weight(s[1..])
  }

  function Escapes(s: seq<byte>): nat {
    if s == [] then 0 else (if s[0] == DOLLAR_REPLACE then 1 else 0) + Escapes(s[1..])
  }

  lemma {:induction false} WeightConcat(a: seq<byte>, b: seq<byte>)
    ensures Weight(a + b) == Weight(a) + Weight(b)
  {
    if a == [] {
      assert a + b == b;
    } else {
      assert (a + b)[1..] == a[1..] + b;
      WeightConcat(a[1..], b);
    }
  }

  lemma {:induction false} WeightOfResolved(c: byte)
    requires c != DOLLAR
    ensures Weight(Resolve(c)) == if c == DOLLAR_REPLACE then 1 else 0
  {
  }

  /** A name holds no marker. */
  lemma {:induction false} EscapesBehindName(s: seq<byte>, k: nat)
    requires k <= |s| && forall i :: 0 <= i < k ==> s[i] != DOLLAR_REPLACE
    ensures Escapes(s) == Escapes(s[k..])
    decreases k
  {
    if k > 0 {
      assert s[1..][k - 1..] == s[k..];
      EscapesBehindName(s[1..], k - 1);
    } else {
      assert s[k..] == s;
    }
  }

  lemma {:induction false} MeantWeighs(s: seq<byte>, env: Env)
    requires Meant(s, env).Some? && PlainValues(env)
    ensures Weight(Meant(s, env).value) == Escapes(s)
    decreases |s|
  {
    if s == [] {
    } else if s[0] == DOLLAR {
      var n := NameLength(s[1..]);
      MeantWeighs(s[1 + n..], env);
      EscapesBehindName(s, 1 + n);
      WeightConcat(env(s[1..1 + n]), Meant(s[1 + n..], env).value);
    } else {
      MeantWeighs(s[1..], env);
      WeightOfResolved(s[0]);
      WeightConcat(Resolve(s[0]), Meant(s[1..], env).value);
    }
  }

  /** What the loop yields weighs as much, and more once a special byte has been stepped over. */
  lemma {:induction false} ReplacedWeighs(s: seq<byte>, env: Env)
    requires Replaced(s, env).Some? && PlainValues(env)
    ensures Weight(Replaced(s, env).value) >= Escapes(s) + (if Apart(s) then 0 else 1)
    decreases |s|
  {
    if s == [] {
    } else if s[0] == DOLLAR {
      var n := NameLength(s[1..]);
      var v, rest := env(s[1..1 + n]), s[1 + n..];
      EscapesBehindName(s, 1 + n);
      if rest != [] {
        var tail := Replaced(rest[1..], env).value;
        ReplacedWeighs(rest[1..], env);
        WeightConcat(v + [rest[0]], tail);
        WeightConcat(v, [rest[0]]);
        WeightOfOne(rest[0]);
      }
    } else {
      ReplacedWeighs(s[1..], env);
      WeightOfResolved(s[0]);
      WeightConcat(Resolve(s[0]), Replaced(s[1..], env).value);
    }
  }

  lemma {:induction false} WeightOfOne(c: byte)
    ensures Weight([c]) == if c == DOLLAR then 1 else if IsSpecial(c) then 2 else 0
  {
    assert [c][1..] == [];
  }

  lemma {:induction false} LongNameFails(s: seq<byte>, env: Env)
    ensures Replaced(s, env).None? <==> MeetsLongName(s)
    ensures Meant(s, env).None? <==> !ShortNames(s)
    decreases |s|
  {
    if s == [] {
    } else if s[0] == DOLLAR {
      var n := NameLength(s[1..]);
      var rest := s[1 + n..];
      ShortBehindName(s, 1 + n);
      LongNameFails(rest, env);
      if rest != [] {
        assert rest[1..] == s[2 + n..];
        LongNameFails(rest[1..], env);
      }
    } else {
      LongNameFails(s[1..], env);
    }
  }

  lemma {:induction false} ShortBehindName(s: seq<byte>, k: nat)
    requires 1 <= k <= |s| && forall i :: 1 <= i < k ==> s[i] != DOLLAR
    ensures ShortNames(s) <==>
            ShortNames(s[k..]) && (s[0] == DOLLAR ==> NameLength(s[1..]) <= MAX_ENVLEN)
    decreases k
  {
    if k > 1 {
      assert s[1..][k - 1..] == s[k..];
      ShortBehindName(s[1..], k - 1);
    }
  }

  /**
    The clean-up does what is meant exactly when variables stand apart from what follows them, or,
    for text with a name that is too long, when the loop gets to such a name.
    */
  lemma {:induction false} ReplacedIffApart(s: seq<byte>, env: Env)
    requires PlainValues(env)
    ensures Replaced(s, env) == Meant(s, env) <==> if ShortNames(s) then Apart(s) else MeetsLongName(s)
  {
    LongNameFails(s, env);
    if ShortNames(s) {
      ShortSucceeds(s, env);
      MeantWeighs(s, env);
      ReplacedWeighs(s, env);
      if Apart(s) { ApartAgrees(s, env); }
    }
  }

  // ----- Single steps of the scan -----

  lemma {:induction false} ScanEmit(s: seq<byte>, i: nat, quote: byte, done: seq<seq<byte>>, cur: seq<byte>)
    requires i < |s| && MoveAt(s, i, quote).Emit?
    ensures var m := MoveAt(s, i, quote); Scan(s, i, quote, done, cur) == Scan(s, m.next, m.quote, done, cur + [m.c])
  {
  }

  lemma {:induction false} ScanEnd(s: seq<byte>, i: nat, done: seq<seq<byte>>, cur: seq<byte>)
    requires i < |s| && MoveAt(s, i, 0).EndParam?
    ensures Scan(s, i, 0, done, cur) ==
            if |done| + 1 >= MAX_PARAMS then None else Scan(s, MoveAt(s, i, 0).next, 0, done + [cur], [])
  {
  }

  lemma {:induction false} ScanDone(s: seq<byte>, quote: byte, done: seq<seq<byte>>, cur: seq<byte>)
    ensures Scan(s, |s|, quote, done, cur) == Some(done + [cur])
  {
  }

  /** The text "$A" in double quotes keeps its closing quote's marker. */
  lemma {:induction false} QuotedVariableKeepsMarker(env: Env)
    ensures Split([34, 36, 65, 34]) == Some([[QUOTE_REPLACE, DOLLAR, 65, QUOTE_REPLACE]])
    ensures Replaced([QUOTE_REPLACE, DOLLAR, 65, QUOTE_REPLACE], env) == Some(env([65]) + [QUOTE_REPLACE])
  {
    hide Scan;
    var s := [DQUOTE, DOLLAR, 65, DQUOTE];
    var m := [QUOTE_REPLACE, DOLLAR, 65, QUOTE_REPLACE];
    ScanEmit(s, 0, 0, [], []);
    ScanEmit(s, 1, DQUOTE, [], m[..1]);
    ScanEmit(s, 2, DQUOTE, [], m[..2]);
    ScanEmit(s, 3, DQUOTE, [], m[..3]);
    assert [] + [m[0]] == m[..1] && m[..1] + [m[1]] == m[..2] && m[..2] + [m[2]] == m[..3] && m[..3] + [m[3]] == m;
    ScanDone(s, 0, [], m);
    KeepsMarker(env);
  }

  lemma {:induction false} KeepsMarker(env: Env)
    ensures Replaced([QUOTE_REPLACE, DOLLAR, 65, QUOTE_REPLACE], env) == Some(env([65]) + [QUOTE_REPLACE])
  {
    var m := [QUOTE_REPLACE, DOLLAR, 65, QUOTE_REPLACE];
    var t := m[1..];
    assert NameLength(t[1..]) == 1 by { assert NameLength(t[1..][1..]) == 0; }
    assert t[1..2] == [65] && t[2..][1..] == [];
    assert Replaced([], env) == Some([]);
    assert Replaced(t, env) == Some(env([65]) + [QUOTE_REPLACE]) by {
      assert env([65]) + [QUOTE_REPLACE] + [] == env([65]) + [QUOTE_REPLACE];
    }
    assert [] + (env([65]) + [QUOTE_REPLACE]) == env([65]) + [QUOTE_REPLACE];
  }

  // ----- The clean-up in the blocks the shell asks for -----

  /** How the clean-up of an argument ends: with a text, refused, or with an access outside its block. */
  datatype Fate = Kept(text: seq<byte>) | Refused | Overrun

  /**
    The loop as written, `kept` being the text behind it.  An expansion asks realloc for the length
    of the new text and then writes a terminator behind it, one byte outside the block; realloc
    refuses to give a block of no bytes.
    */
  function Written(kept: seq<byte>, s: seq<byte>, env: Env): Fate
    decreases |s|
  {
    if s == [] then Kept(kept)
    else if s[0] == DOLLAR then
      var n := NameLength(s[1..]);
      if n > MAX_ENVLEN then Refused
      else if |kept| + |env(s[1..1 + n])| + (|s| - (1 + n)) == 0 then Refused
      else Overrun
    else Written(kept + Resolve(s[0]), s[1..], env)
  }

  function FirstDollar(s: seq<byte>): (k: nat)
    ensures k <= |s| && Without(s[..k], DOLLAR) && (k < |s| ==> s[k] == DOLLAR)
  {
    if s == [] || s[0] == DOLLAR then 0 else 1 + FirstDollar(s[1..])
  }

  /** The text is one variable, but for quotes before it, and its value is empty. */
  predicate Vanishes(s: seq<byte>, env: Env) {
    var k := FirstDollar(s);
    k < |s| && Clean(s[..k]) == [] && k + 1 + NameLength(s[k + 1..]) == |s| && env(s[k + 1..]) == []
  }

  /** How it ends is decided by the first variable. */
  lemma {:induction false} WrittenFrom(kept: seq<byte>, s: seq<byte>, env: Env)
    ensures var k := FirstDollar(s);
            Written(kept, s, env) ==
            if k == |s| then Kept(kept + Clean(s))
            else if NameLength(s[k + 1..]) > MAX_ENVLEN || (kept == [] && Vanishes(s, env)) then Refused
            else Overrun
    decreases |s|
  {
    hide Written, FirstDollar, Clean, Vanishes, NameLength, Resolve;
    if s == [] || s[0] == DOLLAR {
      WrittenHere(kept, s, env);
    } else {
      var r := Resolve(s[0]);
      PlainStep(kept, s, env);
      WrittenFrom(kept + r, s[1..], env);
      assert kept + r + Clean(s[1..]) == kept + (r + Clean(s[1..]));
      var k := FirstDollar(s);
      if k < |s| {
        assert s[1..][k..] == s[k + 1..];
        VanishesLater(s, env);
      }
    }
  }

  lemma {:induction false} WrittenHere(kept: seq<byte>, s: seq<byte>, env: Env)
    requires s == [] || s[0] == DOLLAR
    ensures var k := FirstDollar(s);
            k == 0 && Written(kept, s, env) ==
            if k == |s| then Kept(kept + Clean(s))
            else if NameLength(s[k + 1..]) > MAX_ENVLEN || (kept == [] && Vanishes(s, env)) then Refused
            else Overrun
  {
    if s == [] {
      assert kept + [] == kept;
    } else {
      var n := NameLength(s[1..]);
      assert Clean(s[..0]) == [];
      if 1 + n == |s| { assert s[1..1 + n] == s[1..]; }
    }
  }

  lemma {:induction false} PlainStep(kept: seq<byte>, s: seq<byte>, env: Env)
    requires s != [] && s[0] != DOLLAR
    ensures Clean(s) == Resolve(s[0]) + Clean(s[1..]) && FirstDollar(s) == 1 + FirstDollar(s[1..])
    ensures Written(kept, s, env) == Written(kept + Resolve(s[0]), s[1..], env)
  {
  }

  lemma {:induction false} VanishesLater(s: seq<byte>, env: Env)
    requires s != [] && s[0] != DOLLAR && FirstDollar(s) < |s|
    ensures Vanishes(s, env) <==> Resolve(s[0]) == [] && Vanishes(s[1..], env)
  {
    var k := FirstDollar(s);
    assert s[1..][k..] == s[k + 1..];
    assert s[..k][1..] == s[1..][..k - 1] && s[..k][0] == s[0];
    assert Clean(s[..k]) == Resolve(s[0]) + Clean(s[1..][..k - 1]);
  }

  /**
    The clean-up stays in its block exactly when the argument has no variable, or its first one is
    refused: its name is too long, or it is the whole text and has no value.
    */
  lemma {:induction false} StaysInBlockIff(s: seq<byte>, env: Env)
    ensures var k := FirstDollar(s);
            Written([], s, env) != Overrun <==>
            k == |s| || NameLength(s[k + 1..]) > 64 || Vanishes(s, env)
    ensures Without(s, DOLLAR) ==> Written([], s, env) == Kept(Clean(s))
  {
    WrittenFrom([], s, env);
    assert [] + Clean(s) == Clean(s);
    if Without(s, DOLLAR) { assert FirstDollar(s) == |s|; }
  }

  /** The argument "$A" leaves its block if A has a value, and is refused if it has none. */
  lemma {:induction false} LoneVariable(env: Env)
    ensures Written([], [36, 65], env) == if env([65]) == [] then Refused else Overrun
  {
    var s := [DOLLAR, 65];
    assert s[1..] == [65] && s[1..][1..] == [] && NameLength([]) == 0;
    assert NameLength(s[1..]) == 1 && s[1..2] == [65];
  }

  // ----- The loop on a buffer -----

  /** `a` holds the C string `s`. */
  predicate Holds(a: array<byte>, s: seq<byte>)
    reads a
  {
    |s| < a.Length && a[..|s|] == s && a[|s|] == NUL
  }

  /** Drops byte `j`, copying the rest and its terminator down one place. */
  method DeleteAt(a: array<byte>, j: nat, len: nat)
    requires j < len < a.Length && a[len] == NUL
    modifies a
    ensures Holds(a, old(a[..j] + a[j + 1..len]))
  {
    var k := j;
    while k < len
      invariant j <= k <= len
      invariant forall i :: 0 <= i < j || k < i <= len ==> a[i] == old(a[i])
      invariant forall i :: j <= i < k ==> a[i] == old(a[i + 1])
    {
      a[k] := a[k + 1];
      k := k + 1;
    }
    ghost var s := old(a[..j] + a[j + 1..len]);
    assert |s| == len - 1 && a[len - 1] == NUL;
    forall i | 0 <= i < len - 1 ensures a[..len - 1][i] == s[i] {
      if i >= j { assert s[i] == old(a[i + 1]) && a[i] == old(a[i + 1]); }
    }
    assert a[..len - 1] == s;
  }

  /** A buffer, with room for the terminator, where bytes `j` to `k` of the string are `v` instead. */
  method Splice(a: array<byte>, j: nat, k: nat, len: nat, v: seq<byte>) returns (b: array<byte>)
    requires j <= k <= len < a.Length
    ensures fresh(b) && Holds(b, a[..j] + v + a[k..len])
  {
    ghost var s := a[..j] + v + a[k..len];
    var n := len - (k - j) + |v|;
    b := new byte[n + 1](i requires 0 <= i <= n reads a =>
      if i < j then a[i] else if i < j + |v| then v[i - j] else if i < n then a[i - |v| + (k - j)] else NUL);
    assert b[..n] == s;
  }

  /** What the loop will have made of `text` once position `j` is reached. */
  function Finish(text: seq<byte>, j: nat, env: Env): Option<seq<byte>> {
    if j <= |text| then Prefixed(text[..j], Replaced(text[j..], env)) else Some(text)
  }

  lemma {:induction false} FinishResolve(text: seq<byte>, j: nat, env: Env)
    requires j < |text| && text[j] != DOLLAR
    ensures var r := Resolve(text[j]); Finish(text, j, env) == Finish(text[..j] + r + text[j + 1..], j + |r|, env)
  {
    var r, tail := Resolve(text[j]), Replaced(text[j + 1..], env);
    var next := text[..j] + r + text[j + 1..];
    assert text[j..][1..] == text[j + 1..];
    assert next[..j + |r|] == text[..j] + r && next[j + |r|..] == text[j + 1..];
    if tail.Some? { assert text[..j] + (r + tail.value) == text[..j] + r + tail.value; }
  }

  lemma {:induction false} FinishVariable(text: seq<byte>, j: nat, k: nat, env: Env)
    requires j < k <= |text| && text[j] == DOLLAR && k == j + 1 + NameLength(text[j + 1..])
    ensures k - (j + 1) > MAX_ENVLEN ==> Finish(text, j, env) == None
    ensures k - (j + 1) <= MAX_ENVLEN ==>
              var v := env(text[j + 1..k]); Finish(text, j, env) == Finish(text[..j] + v + text[k..], j + |v| + 1, env)
  {
    hide NameLength, Replaced;
    var s, v := text[j..], env(text[j + 1..k]);
    assert s[1..] == text[j + 1..] && s[1..k - j] == text[j + 1..k] && s[k - j..] == text[k..];
    ReplacedVariable(s, env);
    var next := text[..j] + v + text[k..];
    if k - (j + 1) <= MAX_ENVLEN {
      if k == |text| {
        assert next == text[..j] + v;
      } else {
        var tail := Replaced(text[k..][1..], env);
        var keep := v + [text[k]];
        assert next[..j + |v| + 1] == text[..j] + keep && next[j + |v| + 1..] == text[k..][1..];
        if tail.Some? { assert text[..j] + (keep + tail.value) == text[..j] + keep + tail.value; }
      }
    }
  }

  lemma {:induction false} ReplacedVariable(s: seq<byte>, env: Env)
    requires s != [] && s[0] == DOLLAR
    ensures var n := NameLength(s[1..]);
            var v, rest := env(s[1..1 + n]), s[1 + n..];
            Replaced(s, env) ==
            if n > MAX_ENVLEN then None
            else if rest == [] then Some(v)
            else Prefixed(v + [rest[0]], Replaced(rest[1..], env))
  {
  }

  /** End of the name that starts at `i`. */
  method NameEnd(a: array<byte>, i: nat, len: nat) returns (k: nat)
    requires i <= len < a.Length
    ensures k == i + NameLength(a[i..len]) && k <= len
  {
    k := i;
    while k < len && IsName(a[k])
      invariant i <= k <= len
      invariant NameLength(a[i..len]) == k - i + NameLength(a[k..len])
    {
      assert a[k..len][1..] == a[k + 1..len];
      k := k + 1;
    }
  }

  lemma {:induction false} SameSlice(all: seq<byte>, text: seq<byte>, i: nat, k: nat)
    requires |text| <= |all| && all[..|text|] == text && i <= k <= |text|
    ensures all[i..k] == text[i..k]
    ensures k == |text| ==> all[i..k] == text[i..]
  {
    forall x | i <= x < k ensures all[x] == text[x] { assert all[x] == all[..|text|][x]; }
    assert all[i..k] == text[i..k];
    assert text[i..] == text[i..|text|];
  }

  /** The variable at `j` expanded into a new buffer, unless its name is too long. */
  method ExpandAt(a: array<byte>, ghost text: seq<byte>, n: nat, j: nat, env: Env)
      returns (ok: bool, b: array<byte>, m: nat, next: nat)
    requires Holds(a, text) && n == |text| && j < n && text[j] == DOLLAR
    ensures !ok ==> Finish(text, j, env) == None
    ensures ok ==> fresh(b) && m < b.Length && b[m] == NUL && next <= m + 1 && m - next < n - j
    ensures ok ==> Finish(b[..m], next, env) == Finish(text, j, env)
  {
    hide Replaced, NameLength, IsName, Resolve, Finish;
    var k := NameEnd(a, j + 1, n);
    ghost var all := a[..];
    assert a[j + 1..n] == all[j + 1..n] && a[j + 1..k] == all[j + 1..k] && a[..n] == all[..n];
    assert a[..j] == all[0..j] && a[k..n] == all[k..n];
    SameSlice(all, text, j + 1, n);
    SameSlice(all, text, j + 1, k);
    SameSlice(all, text, 0, j);
    SameSlice(all, text, k, n);
    FinishVariable(text, j, k, env);
    var v := env(a[j + 1..k]);
    assert a[..j] == text[..j] && a[k..n] == text[k..];
    ok := k - (j + 1) <= MAX_ENVLEN;
    if !ok { return false, a, n, j; }
    ghost var expanded := text[..j] + v + text[k..];
    assert a[..j] + v + a[k..n] == expanded;
    b := Splice(a, j, k, n, v);
    m := n - (k - j) + |v|;
    next := j + |v| + 1;
    assert |expanded| == m && b[..m] == expanded;
  }

  /**
    _args_replace on one argument.  Its block is `a`; without `room` blocks are as long as the code
    asks for, with it every new block has room for the terminator and the old bytes stay readable.
    */
  method ReplaceArg(a: array<byte>, arg_len: nat, env: Env, room: bool) returns (r: Fate, b: array<byte>)
    requires arg_len < a.Length && a[arg_len] == NUL
    modifies a
    ensures b == a || fresh(b)
    ensures r.Kept? ==> Holds(b, r.text)
    ensures !room ==> b == a && r == Written([], old(a[..arg_len]), env)
    ensures room ==> var t := Replaced(old(a[..arg_len]), env); r == if t.Some? then Kept(t.value) else Refused
  {
    hide Replaced, NameLength, IsName, Resolve, Written;
    var n: nat, j: nat := arg_len, 0;
    b := a;
    ghost var text: seq<byte> := a[..arg_len];
    ghost var goal, fate := Replaced(text, env), Written([], text, env);
    FinishStart(text, env);
    assert text[..0] == [] && text[0..] == text;
    while j < n
      invariant (b == a || fresh(b)) && (!room ==> b == a && j <= n)
      invariant Holds(b, text) && |text| == n && j <= n + 1
      invariant Finish(text, j, env) == goal
      invariant !room ==> Written(text[..j], text[j..], env) == fate
      decreases n - j
    {
      assert text[j] == b[j];
      if !room { WrittenStep(text, j, env); }
      if b[j] == DOLLAR {
        if !room {
          r := RefuseOrOverrun(b, text, n, j, env);
          return;
        }
        var fits, c, m, next := ExpandAt(b, text, n, j, env);
        if !fits { return Refused, b; }
        b, n, j := c, m, next;
        text := c[..m];
      } else if b[j] == DOLLAR_REPLACE {
        FinishMarks(text, j, env);
        b[j] := DOLLAR;
        text := text[j := DOLLAR];
        j := j + 1;
      } else if b[j] == QUOTE_REPLACE {
        // The source steps j back and the loop steps it on again.
        FinishMarks(text, j, env);
        assert b[..j] + b[j + 1..n] == text[..j] + text[j + 1..];
        DeleteAt(b, j, n);
        text := text[..j] + text[j + 1..];
        n := n - 1;
      } else {
        FinishMarks(text, j, env);
        j := j + 1;
      }
    }
    FinishEnd(text, j, env);
    if !room { WrittenEnd(text, env); }
    r := Kept(b[..n]);
  }

  /** The variable at `j` in the block the code asks for. */
  method RefuseOrOverrun(a: array<byte>, ghost text: seq<byte>, n: nat, j: nat, env: Env) returns (r: Fate)
    requires Holds(a, text) && n == |text| && j < n && text[j] == DOLLAR
    ensures !r.Kept? && r == Written(text[..j], text[j..], env)
  {
    hide NameLength, IsName, Resolve, Written;
    var k := NameEnd(a, j + 1, n);
    ghost var all := a[..];
    assert a[j + 1..n] == all[j + 1..n] && a[j + 1..k] == all[j + 1..k] && a[..n] == all[..n];
    SameSlice(all, text, j + 1, n);
    SameSlice(all, text, j + 1, k);
    WrittenVariable(text, j, k, env);
    if k - (j + 1) > MAX_ENVLEN { return Refused; }
    var v := env(a[j + 1..k]);
    var size := n - (k - j) + |v|;
    // realloc gives `size` bytes, and the terminator goes to place `size`.
    return if size == 0 then Refused else Overrun;
  }

  lemma {:induction false} WrittenVariable(text: seq<byte>, j: nat, k: nat, env: Env)
    requires j < k <= |text| && text[j] == DOLLAR && k == j + 1 + NameLength(text[j + 1..])
    ensures Written(text[..j], text[j..], env) ==
            if k - (j + 1) > MAX_ENVLEN || |text| - (k - j) + |env(text[j + 1..k])| == 0 then Refused else Overrun
  {
    hide NameLength;
    var s := text[j..];
    assert s[1..] == text[j + 1..] && s[1..k - j] == text[j + 1..k];
  }

  lemma {:induction false} WrittenStep(text: seq<byte>, j: nat, env: Env)
    requires j < |text|
    ensures text[j] == DOLLAR_REPLACE ==>
              var t := text[j := DOLLAR]; Written(text[..j], text[j..], env) == Written(t[..j + 1], t[j + 1..], env)
    ensures text[j] == QUOTE_REPLACE ==>
              var t := text[..j] + text[j + 1..]; Written(text[..j], text[j..], env) == Written(t[..j], t[j..], env)
    ensures !IsSpecial(text[j]) ==> Written(text[..j], text[j..], env) == Written(text[..j + 1], text[j + 1..], env)
  {
    hide NameLength;
    assert text[j..][1..] == text[j + 1..];
    var t, u := text[j := DOLLAR], text[..j] + text[j + 1..];
    assert t[..j + 1] == text[..j] + [DOLLAR] && t[j + 1..] == text[j + 1..];
    assert u[..j] == text[..j] + [] && u[j..] == text[j + 1..];
    assert text[..j + 1] == text[..j] + [text[j]];
  }

  lemma {:induction false} WrittenEnd(text: seq<byte>, env: Env)
    ensures Written(text[..|text|], text[|text|..], env) == Kept(text)
  {
    assert text[..|text|] == text;
  }

  lemma {:induction false} FinishStart(text: seq<byte>, env: Env)
    ensures Finish(text, 0, env) == Replaced(text, env)
  {
    assert text[0..] == text;
    var r := Replaced(text, env);
    if r.Some? { assert text[..0] + r.value == r.value; }
  }

  lemma {:induction false} FinishEnd(text: seq<byte>, j: nat, env: Env)
    requires |text| <= j
    ensures Finish(text, j, env) == Some(text)
  {
    if j == |text| { assert text[..j] + [] == text && Replaced(text[j..], env) == Some([]); }
  }

  lemma {:induction false} FinishMarks(text: seq<byte>, j: nat, env: Env)
    requires j < |text| && text[j] != DOLLAR
    ensures text[j] == DOLLAR_REPLACE ==> Finish(text, j, env) == Finish(text[j := DOLLAR], j + 1, env)
    ensures text[j] == QUOTE_REPLACE ==> Finish(text, j, env) == Finish(text[..j] + text[j + 1..], j, env)
    ensures !IsSpecial(text[j]) ==> Finish(text, j, env) == Finish(text, j + 1, env)
  {
    hide Replaced, Finish;
    FinishResolve(text, j, env);
    assert text[..j] + [DOLLAR] + text[j + 1..] == text[j := DOLLAR];
    assert text[..j] + [] + text[j + 1..] == text[..j] + text[j + 1..];
    assert text[..j] + [text[j]] + text[j + 1..] == text;
  }

  // ----- Printing a command line -----

  /** A stretch of an argument: a bare byte, an escaped byte, or text in quotes. */
  datatype Piece = Bare(c: byte) | Escaped(c: byte) | Quoted(q: byte, text: seq<byte>)

  /** A command line: arguments apart by white space. */
  datatype Line = Last(arg: seq<Piece>) | More(arg: seq<Piece>, gap: seq<byte>, rest: Line)

  predicate Storable(c: byte) {
    c != NUL && c != DOLLAR_REPLACE && c != QUOTE_REPLACE
  }

  predicate PieceOk(p: Piece) {
    match p
    case Bare(c) => Storable(c) && c !in {32, 34, 36, 39, 92} && !(9 <= c <= 13)
    case Escaped(c) => Storable(c)
    case Quoted(q, text) =>
      q in {34, 39} && (forall i :: 0 <= i < |text| ==> Storable(text[i])) &&
      Without(text, q) && Without(text, 92) && Without(text, 36)
  }

  predicate ArgOk(a: seq<Piece>) {
    a != [] && forall i :: 0 <= i < |a| ==> PieceOk(a[i])
  }

  predicate GapOk(gap: seq<byte>) {
    gap != [] && forall i :: 0 <= i < |gap| ==> gap[i] == 32 || 9 <= gap[i] <= 13
  }

  predicate LineOk(l: Line) {
    ArgOk(l.arg) && (l.More? ==> GapOk(l.gap) && LineOk(l.rest))
  }

  function ArgCount(l: Line): nat {
    if l.Last? then 1 else 1 + ArgCount(l.rest)
  }

  function PrintPiece(p: Piece): seq<byte> {
    match p
    case Bare(c) => [c]
    case Escaped(c) => [92, c]
    case Quoted(q, text) => [q] + text + [q]
  }

  function PrintArg(a: seq<Piece>): seq<byte> {
    if a == [] then [] else PrintPiece(a[0]) + PrintArg(a[1..])
  }

  function PrintLine(l: Line): seq<byte> {
    match l
    case Last(a) => PrintArg(a)
    case More(a, gap, rest) => PrintArg(a) + gap + PrintLine(rest)
  }

  /** The bytes a piece stands for. */
  function PieceValue(p: Piece): seq<byte> {
    if p.Quoted? then p.text else [p.c]
  }

  function ArgValue(a: seq<Piece>): seq<byte> {
    if a == [] then [] else PieceValue(a[0]) + ArgValue(a[1..])
  }

  function LineValue(l: Line): (v: seq<seq<byte>>)
    ensures |v| == ArgCount(l)
  {
    [ArgValue(l.arg)] + (if l.More? then LineValue(l.rest) else [])
  }

  // ----- What the splitter makes of it -----

  function MarkPiece(p: Piece): seq<byte> {
    match p
    case Bare(c) => [c]
    case Escaped(c) => [if c == DOLLAR then DOLLAR_REPLACE else c]
    case Quoted(q, text) => [QUOTE_REPLACE] + text + [QUOTE_REPLACE]
  }

  function MarkArg(a: seq<Piece>): seq<byte> {
    if a == [] then [] else MarkPiece(a[0]) + MarkArg(a[1..])
  }

  function MarkLine(l: Line): seq<seq<byte>> {
    [MarkArg(l.arg)] + (if l.More? then MarkLine(l.rest) else [])
  }

  lemma {:induction false} ScanQuoted(s: seq<byte>, i: nat, q: byte, text: seq<byte>, done: seq<seq<byte>>,
                                      cur: seq<byte>)
    requires IsQuote(q) && Has(s, i, text) && Without(text, q) && Without(text, BACKSLASH)
    ensures Scan(s, i, q, done, cur) == Scan(s, i + |text|, q, done, cur + text)
    decreases |text|
  {
    hide Scan;
    if text == [] {
      assert cur + text == cur;
    } else {
      HasSplit(s, i, text[..1], text[1..]) by { assert text == text[..1] + text[1..]; }
      assert s[i] == s[i..i + |text|][0];
      assert MoveAt(s, i, q) == Emit(text[0], q, i + 1);
      ScanEmit(s, i, q, done, cur);
      ScanQuoted(s, i + 1, q, text[1..], done, cur + [text[0]]);
      assert cur + [text[0]] + text[1..] == cur + text;
    }
  }

  lemma {:induction false} MoveQuote(s: seq<byte>, i: nat, q: byte)
    requires IsQuote(q) && Has(s, i, [q])
    ensures i < |s| && MoveAt(s, i, 0) == Emit(QUOTE_REPLACE, q, i + 1)
    ensures MoveAt(s, i, q) == Emit(QUOTE_REPLACE, 0, i + 1)
  {
    HasOne(s, i, q);
  }

  lemma {:induction false} ScanQuotedPiece(s: seq<byte>, i: nat, q: byte, text: seq<byte>, done: seq<seq<byte>>,
                                           cur: seq<byte>)
    requires PieceOk(Quoted(q, text)) && Has(s, i, [q] + text + [q])
    ensures Scan(s, i, 0, done, cur) ==
            Scan(s, i + |text| + 2, 0, done, cur + ([QUOTE_REPLACE] + text + [QUOTE_REPLACE]))
  {
    hide Scan, MoveAt, Has;
    assert [q] + text + [q] == [q] + (text + [q]);
    HasSplit(s, i, [q], text + [q]);
    HasSplit(s, i + 1, text, [q]);
    var at := i + 1 + |text|;
    MoveQuote(s, i, q);
    MoveQuote(s, at, q);
    ScanEmit(s, i, 0, done, cur);
    ScanQuoted(s, i + 1, q, text, done, cur + [QUOTE_REPLACE]);
    ScanEmit(s, at, q, done, cur + [QUOTE_REPLACE] + text);
    assert cur + [QUOTE_REPLACE] + text + [QUOTE_REPLACE] == cur + ([QUOTE_REPLACE] + text + [QUOTE_REPLACE]);
  }

  lemma {:induction false} MoveBare(s: seq<byte>, i: nat, c: byte)
    requires PieceOk(Bare(c)) && Has(s, i, [c])
    ensures i < |s| && MoveAt(s, i, 0) == Emit(c, 0, i + 1)
  {
    assert s[i] == s[i..i + 1][0];
  }

  lemma {:induction false} MoveEscaped(s: seq<byte>, i: nat, c: byte)
    requires Has(s, i, [BACKSLASH, c])
    ensures i < |s| && MoveAt(s, i, 0) == Emit(if c == DOLLAR then DOLLAR_REPLACE else c, 0, i + 2)
  {
    assert s[i] == s[i..i + 2][0] && s[i + 1] == s[i..i + 2][1];
  }

  lemma {:induction false} ScanPiece(s: seq<byte>, i: nat, p: Piece, done: seq<seq<byte>>, cur: seq<byte>)
    requires PieceOk(p) && Has(s, i, PrintPiece(p))
    ensures Scan(s, i, 0, done, cur) == Scan(s, i + |PrintPiece(p)|, 0, done, cur + MarkPiece(p))
  {
    hide Scan, MoveAt, Has;
    match p
    case Bare(c) =>
      MoveBare(s, i, c);
      ScanEmit(s, i, 0, done, cur);
    case Escaped(c) =>
      MoveEscaped(s, i, c);
      ScanEmit(s, i, 0, done, cur);
    case Quoted(q, text) => ScanQuotedPiece(s, i, q, text, done, cur);
  }

  lemma {:induction false} ScanArg(s: seq<byte>, i: nat, a: seq<Piece>, done: seq<seq<byte>>, cur: seq<byte>)
    requires (forall k :: 0 <= k < |a| ==> PieceOk(a[k])) && Has(s, i, PrintArg(a))
    ensures Scan(s, i, 0, done, cur) == Scan(s, i + |PrintArg(a)|, 0, done, cur + MarkArg(a))
    decreases |a|
  {
    hide Scan, PieceOk, PrintPiece, MarkPiece;
    if a == [] {
      assert cur + MarkArg(a) == cur;
    } else {
      var p := PrintPiece(a[0]);
      HasSplit(s, i, p, PrintArg(a[1..]));
      ScanPiece(s, i, a[0], done, cur);
      ScanArg(s, i + |p|, a[1..], done, cur + MarkPiece(a[0]));
      assert cur + MarkPiece(a[0]) + MarkArg(a[1..]) == cur + MarkArg(a);
    }
  }

  lemma {:induction false} PrintStart(l: Line)
    requires LineOk(l)
    ensures PrintLine(l) != [] && !IsSpace(PrintLine(l)[0])
  {
    assert PieceOk(l.arg[0]);
    assert PrintArg(l.arg)[0] == PrintPiece(l.arg[0])[0];
  }

  lemma {:induction false} SkipsGap(s: seq<byte>, i: nat, end: nat)
    requires i <= end < |s| && !IsSpace(s[end])
    requires forall k :: i <= k < end ==> IsSpace(s[k])
    ensures SkipSpaces(s, i) == end
    decreases end - i
  {
    if i < end { SkipsGap(s, i + 1, end); }
  }

  lemma {:induction false} ScanLine(s: seq<byte>, i: nat, l: Line, done: seq<seq<byte>>)
    requires LineOk(l) && Has(s, i, PrintLine(l)) && i + |PrintLine(l)| == |s|
    requires |done| < MAX_PARAMS
    ensures Scan(s, i, 0, done, []) == if |done| + ArgCount(l) <= 32 then Some(done + MarkLine(l)) else None
    decreases l
  {
    hide Scan, PieceOk, PrintArg, MarkArg, MoveAt;
    var a := PrintArg(l.arg);
    match l
    case Last(_) =>
      ScanArg(s, i, l.arg, done, []);
      assert [] + MarkArg(l.arg) == MarkArg(l.arg);
      ScanDone(s, 0, done, MarkArg(l.arg));
      assert done + MarkLine(l) == done + [MarkArg(l.arg)];
    case More(_, gap, rest) =>
      var tail := PrintLine(rest);
      assert a + gap + tail == a + (gap + tail);
      HasSplit(s, i, a, gap + tail);
      HasSplit(s, i + |a|, gap, tail);
      ScanArg(s, i, l.arg, done, []);
      assert [] + MarkArg(l.arg) == MarkArg(l.arg);
      var from, to := i + |a|, i + |a| + |gap|;
      GapEnds(s, from, to, gap, rest);
      ScanEnd(s, from, done, MarkArg(l.arg));
      if |done| + 1 < MAX_PARAMS { ScanLine(s, to, rest, done + [MarkArg(l.arg)]); }
      assert done + [MarkArg(l.arg)] + MarkLine(rest) == done + MarkLine(l);
  }

  lemma {:induction false} GapEnds(s: seq<byte>, from: nat, to: nat, gap: seq<byte>, rest: Line)
    requires GapOk(gap) && LineOk(rest) && to == from + |gap|
    requires Has(s, from, gap) && Has(s, to, PrintLine(rest))
    ensures from < |s| && MoveAt(s, from, 0) == EndParam(to)
  {
    PrintStart(rest);
    assert s[to] == s[to..to + |PrintLine(rest)|][0];
    forall k | from <= k < to ensures IsSpace(s[k]) { assert s[k] == s[from..to][k - from]; }
    SkipsGap(s, from + 1, to);
  }

  // ----- The round trip -----

  lemma {:induction false} MarkedArg(a: seq<Piece>)
    requires forall k :: 0 <= k < |a| ==> PieceOk(a[k])
    ensures Without(MarkArg(a), DOLLAR) && Clean(MarkArg(a)) == ArgValue(a)
  {
    if a != [] {
      MarkedPiece(a[0]);
      MarkedArg(a[1..]);
      CleanConcat(MarkPiece(a[0]), MarkArg(a[1..]));
    }
  }

  lemma {:induction false} MarkedPiece(p: Piece)
    requires PieceOk(p)
    ensures Without(MarkPiece(p), DOLLAR) && Clean(MarkPiece(p)) == PieceValue(p)
  {
    match p
    case Quoted(q, text) =>
      CleanQuoted(text);
    case _ =>
  }

  lemma {:induction false} CleanQuoted(text: seq<byte>)
    requires Without(text, DOLLAR_REPLACE) && Without(text, QUOTE_REPLACE)
    ensures Clean([QUOTE_REPLACE] + text + [QUOTE_REPLACE]) == text
  {
    hide Clean;
    CleanConcat([QUOTE_REPLACE], text);
    CleanConcat([QUOTE_REPLACE] + text, [QUOTE_REPLACE]);
    CleanPlain(text);
    CleanMark();
    assert [] + text + [] == text;
  }

  lemma {:induction false} CleanMark()
    ensures Clean([QUOTE_REPLACE]) == []
  {
  }

  /** _args_split and then _args_replace; nothing if either fails or leaves its blocks. */
  function Arguments(s: seq<byte>, env: Env): Option<seq<seq<byte>>> {
    var r := Split(s);
    if r.None? then None else ReplaceAll(r.value, env)
  }

  function ReplaceAll(args: seq<seq<byte>>, env: Env): Option<seq<seq<byte>>> {
    if args == [] then Some([])
    else
      var a, rest := Written([], args[0], env), ReplaceAll(args[1..], env);
      if a.Kept? && rest.Some? then Some([a.text] + rest.value) else None
  }

  lemma {:induction false} ReplaceMarked(l: Line, env: Env)
    requires LineOk(l)
    ensures ReplaceAll(MarkLine(l), env) == Some(LineValue(l))
  {
    MarkedArg(l.arg);
    StaysInBlockIff(MarkArg(l.arg), env);
    if l.More? {
      ReplaceMarked(l.rest, env);
      assert MarkLine(l)[1..] == MarkLine(l.rest);
    } else {
      assert MarkLine(l)[1..] == [];
    }
  }

  /**
    Up to 32 arguments, quoted or escaped piece by piece, come back as they were, whatever the
    environment; more fail.
    */
  lemma {:induction false} QuotingRoundTrip(l: Line, env: Env)
    requires LineOk(l)
    ensures Arguments(PrintLine(l), env) == if ArgCount(l) <= 32 then Some(LineValue(l)) else None
  {
    var s := PrintLine(l);
    assert s[0..0 + |s|] == s;
    ScanLine(s, 0, l, []);
    assert [] + MarkLine(l) == MarkLine(l);
    ReplaceMarked(l, env);
  }
}
