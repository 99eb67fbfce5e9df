/**
  The decompressor as the kernel runs it: input and output cursors, 32-bit
  length arithmetic, and a loop that is entered at three different points.
  */
module LzoBlock {
  import opened Arith
  import opened Bytes
  import opened LzoFormat
  import opened LzoDecoder

  /** Why ReadOpcode returned: a run of literals, a match, the end marker, or a failed check. */
  datatype Opcode = Verbatim | Match | Finish | Overrun

  /** SKIP_AND_COUNT_ZEROES: skips a run of zeroes and returns 255 times its length. */
  method SkipZeroes(input: seq<byte>, start: nat) returns (ok: bool, ip: nat, value: nat)
    requires start <= |input|
    ensures ok <==> ReadExt(input, start).Ok?
    ensures ok ==> start <= ip < |input| && ip + 1 == ReadExt(input, start).value.1
    ensures ok ==> value + input[ip] == ReadExt(input, start).value.0
  {
    ip := start;
    while ip < |input| && input[ip] == 0
      invariant start <= ip <= |input|
      invariant CountZeros(input, start) == ip - start + CountZeros(input, ip)
    {
      ip := ip + 1;
    }
    var offset := ip - start;
    ok, value := false, 0;
    if ip == |input| || offset > MAX_255_COUNT {
      return;
    }
    ok, value := true, U32(offset * 255);
  }

  /** The extended length `base + 255 * zeroes + last byte`, computed in size_t. */
  method ExtendedLength(input: seq<byte>, start: nat, base: nat) returns (ok: bool, ip: nat, temp: nat)
    requires start <= |input| && base <= 31
    ensures ok <==> ReadExt(input, start).Ok?
    ensures ok ==> ip == ReadExt(input, start).value.1 && temp == base + ReadExt(input, start).value.0
  {
    var value;
    ok, ip, value := SkipZeroes(input, start);
    temp := 0;
    if ok {
      var last: int := input[ip];
      temp := U32(U32(value + base) + last);
      ip := ip + 1;
    }
  }

  /** The header at `ip`, with the cursor moved past it. */
  ghost predicate ReadsAs(f: Fetched, op: Opcode, ip: nat, temp: nat, lookbehind: nat, next: nat) {
    match f
    case Bad => op == Overrun
    case Marker(len, at) => op == Finish && temp == len && ip == at
    case Operation(h, at) =>
      ip == at &&
      if h.Literals? then op == Verbatim && temp == h.n
      else op == Match && temp == h.MatchLen() && lookbehind == h.dist && next == h.next
  }

  method ReadOpcode(input: seq<byte>, start: nat, state: nat)
    returns (op: Opcode, ip: nat, temp: nat, lookbehind: nat, next: nat)
    requires start + 3 <= |input|
    ensures ReadsAs(Fetch(input, start, state), op, ip, temp, lookbehind, next)
    ensures op != Overrun ==> temp + 3 < WORD && next <= 3
  {
    var first: int, second: int := input[start], input[start + 1];
    op, ip, temp, lookbehind, next := Match, start + 1, first, 0, 0;
    if temp < 16 {
      if state == 0 {
        if temp == 0 {
          var ok;
          ok, ip, temp := ExtendedLength(input, ip, 15);
          if !ok { op := Overrun; return; }
        }
        op, temp := Verbatim, U32(temp + 3);
      } else if state == 4 {
        next, lookbehind, temp, ip := temp % 4, 1 + 0x0800 + temp / 4 + second * 4, 3, ip + 1;
      } else {
        next, lookbehind, temp, ip := temp % 4, 1 + temp / 4 + second * 4, 2, ip + 1;
      }
    } else if temp < 64 {
      op, ip, temp, lookbehind, next := ReadLongOpcode(input, start);
    } else {
      next, lookbehind, temp, ip := temp % 4, 1 + temp / 4 % 8 + second * 8, temp / 32 + 1, ip + 1;
    }
  }

  /** Opcodes 16 to 63: a possibly extended length, then a little-endian word. */
  method ReadLongOpcode(input: seq<byte>, start: nat)
    returns (op: Opcode, ip: nat, temp: nat, lookbehind: nat, next: nat)
    requires start + 3 <= |input| && 16 <= input[start] < 64
    ensures forall state :: ReadsAs(Fetch(input, start, state), op, ip, temp, lookbehind, next)
    ensures op != Overrun ==> temp + 3 < WORD && next <= 3
  {
    var first: int := input[start];
    var far := first < 32;
    op, ip, lookbehind, next := Match, start + 1, 0, 0;
    temp := (if far then first % 8 else first % 32) + 2;
    if temp == 2 {
      var ok, more;
      ok, ip, more := ExtendedLength(input, ip, if far then 7 else 31);
      if !ok { op := Overrun; return; }
      temp := U32(temp + more);
    }
    if |input| - ip < 2 { op := Overrun; return; }
    next, ip := Word16(input, ip), ip + 2;
    if far {
      lookbehind := first / 8 % 2 * 16384 + next / 4;
      next := next % 4;
      if lookbehind == 0 { op := Finish; return; }
      lookbehind := lookbehind + 0x4000;
    } else {
      lookbehind, next := 1 + next / 4, next % 4;
    }
  }

  // ----- Copies, byte by byte as the kernel does -----

  method CopyFromInput(output: array<byte>, at: nat, input: seq<byte>, ip: nat, n: nat)
    requires at + n <= output.Length && ip + n <= |input|
    modifies output
    ensures output[..at + n] == old(output[..at]) + input[ip..ip + n]
    ensures forall k :: at + n <= k < output.Length ==> output[k] == old(output[k])
  {
    for i := 0 to n
      invariant output[..at + i] == old(output[..at]) + input[ip..ip + i]
      invariant forall k :: at + i <= k < output.Length ==> output[k] == old(output[k])
    {
      output[at + i] := input[ip + i];
      assert output[..at + i + 1] == output[..at + i] + [input[ip + i]];
    }
  }

  method CopyFromOutput(output: array<byte>, at: nat, lookbehind: nat, n: nat)
    requires at + n <= output.Length && 1 <= lookbehind <= at
    modifies output
    ensures output[..at + n] == CopyBack(old(output[..at]), lookbehind, n)
    ensures forall k :: at + n <= k < output.Length ==> output[k] == old(output[k])
  {
    hide CopyBack;
    ghost var all := CopyBack(old(output[..at]), lookbehind, n);
    for i := 0 to n
      invariant CopyBack(output[..at + i], lookbehind, n - i) == all
      invariant forall k :: at + i <= k < output.Length ==> output[k] == old(output[k])
    {
      CopyBackStep(output[..at + i], lookbehind, n - i);
      output[at + i] := output[at + i - lookbehind];
      assert output[..at + i + 1] == output[..at + i] + [output[..at + i][at + i - lookbehind]];
    }
    CopyBackNone(output[..at + n], lookbehind);
  }

  lemma {:induction false} CopyBackStep(out: seq<byte>, dist: nat, len: nat)
    requires 0 < len && 1 <= dist <= |out|
    ensures CopyBack(out, dist, len) == CopyBack(out + [out[|out| - dist]], dist, len - 1)
  {
  }

  lemma {:induction false} CopyBackNone(out: seq<byte>, dist: nat)
    ensures CopyBack(out, dist, 0) == out
  {
  }

  // ----- The block -----

  /** Where the next turn of the loop starts: at its head, or at one of the two labels inside it. */
  datatype Entry = LoopHead | CopyVerbatim | SkipLookbehind

  /** What the rest of the run will answer from a given entry. */
  ghost function Pending(input: seq<byte>, entry: Entry, ip: nat, out: seq<byte>, state: nat, temp: nat, next: nat,
                         cap: nat): Result<seq<byte>>
    requires ip <= |input|
    requires entry.LoopHead? ==> ip + 3 <= |input|
  {
    match entry
    case LoopHead => Run(input, ip, out, state, cap)
    case CopyVerbatim => Resume(input, TakeLiterals(input, ip, out, temp, 4, cap), cap)
    case SkipLookbehind => Resume(input, TakeLiterals(input, ip, out, next, next, cap), cap)
  }

  lemma {:induction false} AfterOpcode(input: seq<byte>, head: nat, out: seq<byte>, state: nat, cap: nat,
                                       op: Opcode, ip: nat, temp: nat,
                                       lookbehind: nat, next: nat, temp': nat, next': nat)
    requires head + 3 <= |input| && |out| <= cap
    requires ReadsAs(Fetch(input, head, state), op, ip, temp, lookbehind, next)
    ensures op != Overrun ==> head < ip <= |input|
    ensures op == Match ==> lookbehind >= 1
    ensures Pending(input, LoopHead, head, out, state, temp', next', cap) ==
            match op
            case Overrun => Err
            case Finish => if temp != 3 || ip < |input| then Err else Ok(out)
            case Verbatim => Pending(input, CopyVerbatim, ip, out, state, temp, next, cap)
            case Match =>
              if |out| < lookbehind || cap - |out| < temp then Err
              else Pending(input, SkipLookbehind, ip, CopyBack(out, lookbehind, temp), state, temp, next, cap)
  {
    hide CopyBack;
    var f := Fetch(input, head, state);
    assert op == Match ==> f.head.dist >= 1 by { MatchesLookBack(input, head, state); }
    hide Fetch;
  }

  lemma {:induction false} MatchesLookBack(input: seq<byte>, ip: nat, state: nat)
    requires ip + 3 <= |input|
    ensures var f := Fetch(input, ip, state); f.Operation? && !f.head.Literals? ==> f.head.dist >= 1
  {
  }

  lemma {:induction false} AfterLiterals(input: seq<byte>, entry: Entry, ip: nat, out: seq<byte>, state: nat,
                                         temp: nat, next: nat, cap: nat)
    requires ip <= |input| && !entry.LoopHead?
    ensures var n := if entry.CopyVerbatim? then temp else next;
            Pending(input, entry, ip, out, state, temp, next, cap) ==
            if |input| - ip < n + 3 || cap - |out| < n then Err
            else Pending(input, LoopHead, ip + n, out + input[ip..ip + n],
                         if entry.CopyVerbatim? then 4 else next, temp, next, cap)
  {
    hide Advance, Run;
  }

  lemma {:induction false} AtStart(input: seq<byte>, cap: nat)
    ensures |input| < 3 || input[0] == 17 ==> Decode(input, cap) == Err
    ensures |input| >= 3 && input[0] != 17 ==>
              var first: int := input[0];
              var n := first - 17;
              Decode(input, cap) ==
              if n < 0 then Pending(input, LoopHead, 0, [], 0, 0, 0, cap)
              else if n < 4 then Pending(input, SkipLookbehind, 1, [], 0, n, n, cap)
              else Pending(input, CopyVerbatim, 1, [], 0, n, 0, cap)
  {
    hide Advance, Run;
  }

  method DecompressBlock(input: seq<byte>, output: array<byte>) returns (r: Result<nat>)
    modifies output
    ensures r.Ok? <==> Decode(input, output.Length).Ok?
    ensures r.Ok? ==> r.value <= output.Length && Decode(input, output.Length) == Ok(output[..r.value])
    ensures r.Ok? ==> output[r.value..] == old(output[r.value..])
  {
    hide Fetch, ReadsAs, Decode, CopyBack, Run, Pending;
    var cap := output.Length;
    AtStart(input, cap);
    if |input| < 3 || input[0] == 17 { return Err; }
    var ip: nat, at: nat, state: nat, temp: nat, next: nat, lookbehind: nat := 0, 0, 0, 0, 0, 0;
    var entry := LoopHead;
    if input[0] > 17 {
      temp, ip := input[0] - 17, 1;
      if temp < 4 {
        next, entry := temp, SkipLookbehind;
      } else {
        entry := CopyVerbatim;
      }
    }
    assert output[..0] == [];
    while true
      invariant ip <= |input| && at <= cap && temp + 3 < WORD && next <= 3
      invariant entry.LoopHead? ==> ip + 3 <= |input|
      invariant Pending(input, entry, ip, output[..at], state, temp, next, cap) == Decode(input, cap)
      invariant forall k :: at <= k < cap ==> output[k] == old(output[k])
      decreases |input| - ip, if entry.LoopHead? then 0 else 1
    {
      if entry.LoopHead? {
        var op;
        ghost var head, temp', next' := ip, temp, next;
        op, ip, temp, lookbehind, next := ReadOpcode(input, ip, state);
        AfterOpcode(input, head, output[..at], state, cap, op, ip, temp, lookbehind, next, temp', next');
        match op
        case Overrun => return Err;
        case Finish =>
          if temp != 3 || ip < |input| { return Err; }
          return Ok(at);
        case Verbatim => entry := CopyVerbatim;
        case Match =>
          if at < lookbehind || cap - at < temp { return Err; }
          ghost var before := output[..at];
          CopyFromOutput(output, at, lookbehind, temp);
          at, entry := at + temp, SkipLookbehind;
          assert output[..at] == CopyBack(before, lookbehind, temp);
      }
      assert Pending(input, entry, ip, output[..at], state, temp, next, cap) == Decode(input, cap);
      AfterLiterals(input, entry, ip, output[..at], state, temp, next, cap);
      var n := if entry.CopyVerbatim? then temp else next;
      if |input| - ip < U32(n + 3) || cap - at < n { return Err; }
      assert U32(n + 3) == n + 3;
      ghost var before := output[..at];
      CopyFromInput(output, at, input, ip, n);
      assert output[..at + n] == before + input[ip..ip + n];
      state := if entry.CopyVerbatim? then 4 else next;
      ip, at, entry := ip + n, at + n, LoopHead;
    }
  }
}
