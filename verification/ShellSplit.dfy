/**
  The shell's argument splitter and its quote handling, on bytes: one scanning
  rule run three times, to count, to allocate and to write.
  */
module ShellSplit {
  import opened Options
  import opened Bytes

  const NUL: byte := 0
  const DOLLAR_REPLACE: byte := 0x01
  const QUOTE_REPLACE: byte := 0x1F
  const DQUOTE: byte := 34
  const DOLLAR: byte := 36
  const SQUOTE: byte := 39
  const SPACE: byte := 32
  const BACKSLASH: byte := 92
  const MAX_PARAMS: nat := 32

  predicate IsSpace(c: byte) {
    c == 32 || 9 <= c <= 13
  }

  predicate IsQuote(c: byte) {
    c == SQUOTE || c == DQUOTE
  }

  /** First position from `i` on that is no space. */
  function SkipSpaces(s: seq<byte>, i: nat): (j: nat)
    requires i <= |s|
    ensures i <= j <= |s|
    ensures j < |s| ==> !IsSpace(s[j])
    ensures forall k :: i <= k < j ==> IsSpace(s[k])
    decreases |s| - i
  {
    if i < |s| && IsSpace(s[i]) then SkipSpaces(s, i + 1) else i
  }

  // ----- The scanning rule -----

  /** What the scan does at one place: adds a byte to the parameter and moves on, or ends the parameter. */
  datatype Move = Emit(c: byte, quote: byte, next: nat) | EndParam(next: nat)

  /** `quote` is the open quote character, 0 for none. */
  function MoveAt(s: seq<byte>, i: nat, quote: byte): (m: Move)
    requires i < |s|
    ensures i < m.next <= |s|
  {
    var c := s[i];
    if quote != 0 && c == quote then Emit(QUOTE_REPLACE, 0, i + 1)
    else if IsSpace(c) && quote == 0 then EndParam(SkipSpaces(s, i + 1))
    else if c == BACKSLASH && i + 1 < |s| then
      Emit(if s[i + 1] == DOLLAR then DOLLAR_REPLACE else s[i + 1], quote, i + 2)
    else if quote == 0 && IsQuote(c) then Emit(QUOTE_REPLACE, c, i + 1)
    else Emit(c, quote, i + 1)
  }

  /** The parameters from position `i` on, given the ones finished and the one begun; nothing if there are too many. */
  function Scan(s: seq<byte>, i: nat, quote: byte, done: seq<seq<byte>>, cur: seq<byte>): (r: Option<seq<seq<byte>>>)
    requires i <= |s|
    ensures r.Some? ==> |done| < |r.value| && (|done| < MAX_PARAMS ==> |r.value| <= MAX_PARAMS)
    ensures r.Some? ==> r.value[..|done|] == done
    decreases |s| - i
  {
    if i == |s| then Some(done + [cur])
    else
      match MoveAt(s, i, quote)
      case Emit(c, q, next) => Scan(s, next, q, done, cur + [c])
      case EndParam(next) =>
        if |done| + 1 >= MAX_PARAMS then None else Scan(s, next, 0, done + [cur], [])
  }

  function Split(s: seq<byte>): Option<seq<seq<byte>>> {
    Scan(s, 0, 0, [], [])
  }

  // ----- The three passes of _args_split -----

  /** RUN_COUNT */
  method CountPass(s: seq<byte>) returns (ok: bool, param: nat)
    ensures ok <==> Split(s).Some?
    ensures ok ==> |Split(s).value| == param + 1
  {
    var i, quote := 0, NUL;
    param := 0;
    ghost var done, cur := [], [];
    while i < |s|
      invariant i <= |s| && |done| == param && param < MAX_PARAMS
      invariant Scan(s, i, quote, done, cur) == Split(s)
      decreases |s| - i
    {
      match MoveAt(s, i, quote)
      case Emit(c, q, next) =>
        cur := cur + [c];
        i, quote := next, q;
      case EndParam(next) =>
        done, cur := done + [cur], [];
        param := param + 1;
        if param >= MAX_PARAMS { return false, param; }
        i, quote := next, 0;
    }
    ok := true;
  }

  /** RUN_ALLOC: a buffer for each parameter, one byte longer than it for the terminator. */
  method AllocPass(s: seq<byte>) returns (params: seq<array<byte>>)
    requires Split(s).Some?
    ensures |params| == |Split(s).value|
    ensures forall k :: 0 <= k < |params| ==> fresh(params[k]) && params[k].Length == |Split(s).value[k]| + 1
    ensures forall j, k :: 0 <= j < k < |params| ==> params[j] != params[k]
  {
    var i, quote, len := 0, NUL, 0;
    params := [];
    ghost var done, cur := [], [];
    while i < |s|
      invariant i <= |s| && |done| == |params| && |cur| == len
      invariant Scan(s, i, quote, done, cur) == Split(s)
      invariant forall k :: 0 <= k < |params| ==> fresh(params[k]) && params[k].Length == |done[k]| + 1
      invariant forall j, k :: 0 <= j < k < |params| ==> params[j] != params[k]
      decreases |s| - i
    {
      match MoveAt(s, i, quote)
      case Emit(c, q, next) =>
        cur := cur + [c];
        i, quote, len := next, q, len + 1;
      case EndParam(next) =>
        var buffer := new byte[len + 1](_ => NUL);
        params := params + [buffer];
        done, cur := done + [cur], [];
        i, quote, len := next, 0, 0;
    }
    var last := new byte[len + 1](_ => NUL);
    params := params + [last];
  }

  /** RUN_REAL: every write lands inside its buffer, and fills it with the parameter and its terminator. */
  method RealPass(s: seq<byte>, params: seq<array<byte>>)
    requires Split(s).Some? && |params| == |Split(s).value|
    requires forall k :: 0 <= k < |params| ==> params[k].Length == |Split(s).value[k]| + 1
    requires forall j, k :: 0 <= j < k < |params| ==> params[j] != params[k]
    modifies params
    ensures forall k :: 0 <= k < |params| ==> params[k][..] == Split(s).value[k] + [NUL]
  {
    ghost var all := Split(s).value;
    var i, quote, param, len := 0, NUL, 0, 0;
    ghost var done, cur := [], [];
    while i < |s|
      invariant i <= |s| && |done| == param && |cur| == len
      invariant Scan(s, i, quote, done, cur) == Some(all)
      invariant param < |params| && len < params[param].Length
      invariant params[param][..len] == cur
      invariant forall k :: 0 <= k < param ==> params[k][..] == all[k] + [NUL]
      decreases |s| - i
    {
      ScanBounds(s, i, quote, done, cur);
      match MoveAt(s, i, quote)
      case Emit(c, q, next) =>
        ScanBounds(s, next, q, done, cur + [c]);
        params[param][len] := c;
        assert params[param][..len + 1] == cur + [c];
        cur := cur + [c];
        i, quote, len := next, q, len + 1;
      case EndParam(next) =>
        assert all[param] == cur by { assert all[..param + 1] == done + [cur]; }
        params[param][len] := NUL;
        assert params[param][..] == cur + [NUL];
        ScanBounds(s, next, 0, done + [cur], []);
        done, cur := done + [cur], [];
        i, quote, param, len := next, 0, param + 1, 0;
    }
    params[param][len] := NUL;
    assert params[param][..] == cur + [NUL];
  }

  /** The parameter begun is a prefix of the one the scan will yield. */
  lemma {:induction false} ScanBounds(s: seq<byte>, i: nat, quote: byte, done: seq<seq<byte>>, cur: seq<byte>)
    requires i <= |s| && Scan(s, i, quote, done, cur).Some?
    ensures var all := Scan(s, i, quote, done, cur).value; |done| < |all| && |cur| <= |all[|done|]|
    decreases |s| - i
  {
    if i < |s| {
      match MoveAt(s, i, quote)
      case Emit(c, q, next) => ScanBounds(s, next, q, done, cur + [c]);
      case EndParam(next) =>
        var all := Scan(s, next, 0, done + [cur], []).value;
        assert all[..|done| + 1] == done + [cur];
        assert all[|done|] == cur;
    }
  }

  /** _args_split; a failure stands for the shell's own failure path, taken on the 33rd parameter. */
  method ArgsSplit(s: seq<byte>) returns (r: Option<seq<array<byte>>>)
    ensures r.Some? <==> Split(s).Some?
    ensures r.Some? ==> |r.value| == |Split(s).value|
    ensures r.Some? ==> forall k :: 0 <= k < |r.value| ==>
            fresh(r.value[k]) && r.value[k][..] == Split(s).value[k] + [NUL]
  {
    var ok, param := CountPass(s);
    if !ok { return None; }
    var params := AllocPass(s);
    RealPass(s, params);
    r := Some(params);
  }
}
