/**
  The block decoder as a function, and the proof that it accepts exactly the
  encodings of legal streams and expands each to its meaning.
  */
module LzoDecoder {
  import opened Bytes
  import opened LzoFormat

  datatype Result<+T> = Ok(value: T) | Err

  // ----- Decoding one header -----

  function CountZeros(input: seq<byte>, ip: nat): (z: nat)
    requires ip <= |input|
    ensures ip + z <= |input|
    ensures forall k :: ip <= k < ip + z ==> input[k] == 0
    ensures ip + z < |input| ==> input[ip + z] != 0
    decreases |input| - ip
  {
    if ip < |input| && input[ip] == 0 then 1 + CountZeros(input, ip + 1) else 0
  }

  /** A zero-run length: its value and the position after it. */
  function ReadExt(input: seq<byte>, ip: nat): (r: Result<(nat, nat)>)
    requires ip <= |input|
    ensures r.Ok? ==> ip < r.value.1 <= |input|
    ensures r.Ok? ==> ExtFits(r.value.0)
  {
    var z := CountZeros(input, ip);
    if ip + z == |input| || z > MAX_255_COUNT then Err
    else Ok((z * 255 + input[ip + z], ip + z + 1))
  }

  /** A length is refused exactly when the input ends in its zero run, or that run has more than 16843007 zeroes. */
  lemma {:induction false} ReadExtRefusedIff(input: seq<byte>, ip: nat)
    requires ip <= |input|
    ensures ReadExt(input, ip).Err? <==>
            (forall k :: ip <= k < |input| ==> input[k] == 0) ||
            (ip + 16843008 <= |input| && forall k :: ip <= k < ip + 16843008 ==> input[k] == 0)
  {
    var z := CountZeros(input, ip);
    assert MAX_255_COUNT == 16843007;
    if ip + z < |input| && z < 16843008 { assert input[ip + z] != 0; }
  }

  /** The extension of a long form (0 if its opcode has a length) and the position of its word. */
  function LongTail(input: seq<byte>, ip: nat, short: nat): (r: Result<(nat, nat)>)
    requires ip < |input|
    ensures r.Ok? ==> ip < r.value.1 <= |input|
    ensures r.Ok? ==> if short == 0 then ExtFits(r.value.0) else r.value.0 == 0
  {
    if short != 0 then Ok((0, ip + 1)) else ReadExt(input, ip + 1)
  }

  datatype Fetched = Operation(head: Head, ip: nat) | Marker(len: nat, ip: nat) | Bad

  function Word16(input: seq<byte>, ip: nat): nat
    requires ip + 2 <= |input|
  {
    var lo: int, hi: int := input[ip], input[ip + 1];
    lo + 256 * hi
  }

  function FetchM4(op: nat, input: seq<byte>, len: nat, ip: nat): Fetched
  {
    if ip + 2 > |input| then Bad
    else
      var w := Word16(input, ip);
      var v := op / 8 % 2 * 16384 + w / 4;
      if v == 0 then Marker(len, ip + 2) else Operation(M4(len, v + 16384, w % 4), ip + 2)
  }

  function FetchM3(input: seq<byte>, len: nat, ip: nat): Fetched
  {
    if ip + 2 > |input| then Bad
    else var w := Word16(input, ip); Operation(M3(len, 1 + w / 4, w % 4), ip + 2)
  }

  function Fetch(input: seq<byte>, ip: nat, state: nat): (f: Fetched)
    requires ip + 3 <= |input|
    ensures !f.Bad? ==> ip < f.ip <= |input|
  {
    var op: int, second: int := input[ip], input[ip + 1];
    if op < 16 then
      if state == 0 then
        if op != 0 then Operation(Literals(op + 3), ip + 1)
        else
          match ReadExt(input, ip + 1)
          case Err => Bad
          case Ok((n, ip')) => Operation(Literals(n + 18), ip')
      else if state == 4 then
        Operation(Far(2049 + op / 4 + second * 4, op % 4), ip + 2)
      else
        Operation(Near(1 + op / 4 + second * 4, op % 4), ip + 2)
    else if op < 32 then
      match LongTail(input, ip, op % 8)
      case Err => Bad
      case Ok((ext, ip')) => FetchM4(op, input, if op % 8 != 0 then op % 8 + 2 else ext + 9, ip')
    else if op < 64 then
      match LongTail(input, ip, op % 32)
      case Err => Bad
      case Ok((ext, ip')) => FetchM3(input, if op % 32 != 0 then op % 32 + 2 else ext + 33, ip')
    else
      Operation(M2(op / 32 + 1, 1 + op / 4 % 8 + second * 8, op % 4), ip + 2)
  }

  /**
    What an opcode with its length in itself asks for, in numbers: bytes to repeat, how far back,
    literals, next state.
    */
  lemma {:induction false} OpcodeMeaning(input: seq<byte>, ip: nat, state: nat)
    requires ip + 3 <= |input| && state <= 4 && Fetch(input, ip, state).Operation?
    ensures var op: int, second: int, third: int := input[ip], input[ip + 1], input[ip + 2];
            var h := Fetch(input, ip, state).head;
            && (op >= 64 ==> Asks(h, op / 32 + 1, second * 8 + op / 4 % 8 + 1, op % 4, op % 4))
            && (32 <= op < 64 && op % 32 != 0 ==>
                  Asks(h, op % 32 + 2, third * 64 + second / 4 + 1, second % 4, second % 4))
            && (16 <= op < 32 && op % 8 != 0 ==>
                  Asks(h, op % 8 + 2, 16384 + op / 8 % 2 * 16384 + third * 64 + second / 4, second % 4, second % 4))
            && (op < 16 && state == 4 ==> Asks(h, 3, second * 4 + op / 4 + 2049, op % 4, op % 4))
            && (op < 16 && 1 <= state <= 3 ==> Asks(h, 2, second * 4 + op / 4 + 1, op % 4, op % 4))
            && (0 < op < 16 && state == 0 ==> Asks(h, 0, 0, op + 3, 4))
  {
    var second: int, third: int := input[ip + 1], input[ip + 2];
    var w := Word16(input, ip + 1);
    assert w == 4 * (64 * third + second / 4) + second % 4;
    assert w / 4 == third * 64 + second / 4 && w % 4 == second % 4;
  }

  predicate Asks(h: Head, len: nat, dist: nat, literals: nat, next: nat) {
    h.MatchLen() == len && h.Distance() == dist && h.LiteralCount() == literals && h.NextState() == next
  }

  // ----- Running a block -----

  /** One turn of the loop from the point where the header is known. */
  datatype Progress = Next(ip: nat, out: seq<byte>, state: nat) | Done(out: seq<byte>) | Fail

  function TakeLiterals(input: seq<byte>, ip: nat, out: seq<byte>, n: nat, state: nat, cap: nat): (p: Progress)
    requires ip <= |input|
    ensures p.Next? ==> p.ip + 3 <= |input| && ip <= p.ip && |p.out| <= cap
  {
    if |input| - ip < n + 3 || cap - |out| < n then Fail
    else Next(ip + n, out + input[ip..ip + n], state)
  }

  function Execute(input: seq<byte>, ip: nat, out: seq<byte>, h: Head, cap: nat): (p: Progress)
    requires ip <= |input|
    ensures p.Next? ==> p.ip + 3 <= |input| && ip <= p.ip && |p.out| <= cap
    ensures !p.Done?
  {
    if h.Literals? then TakeLiterals(input, ip, out, h.n, 4, cap)
    else if h.dist > |out| || h.dist == 0 || cap - |out| < h.MatchLen() then Fail
    else TakeLiterals(input, ip, CopyBack(out, h.dist, h.MatchLen()), h.next, h.next, cap)
  }

  function Advance(input: seq<byte>, ip: nat, out: seq<byte>, state: nat, cap: nat): (p: Progress)
    requires ip + 3 <= |input|
    ensures p.Next? ==> p.ip + 3 <= |input| && ip < p.ip && |p.out| <= cap
  {
    match Fetch(input, ip, state)
    case Bad => Fail
    case Marker(len, ip') => if len != 3 || ip' < |input| then Fail else Done(out)
    case Operation(h, ip') => Execute(input, ip', out, h, cap)
  }

  function Run(input: seq<byte>, ip: nat, out: seq<byte>, state: nat, cap: nat): Result<seq<byte>>
    requires ip + 3 <= |input|
    decreases |input| - ip
  {
    match Advance(input, ip, out, state, cap)
    case Fail => Err
    case Done(out') => Ok(out')
    case Next(ip', out', state') => Run(input, ip', out', state', cap)
  }

  /** Continue after an entry into the middle of the loop. */
  function Resume(input: seq<byte>, p: Progress, cap: nat): Result<seq<byte>>
    requires p.Next? ==> p.ip + 3 <= |input|
  {
    match p
    case Fail => Err
    case Done(out) => Ok(out)
    case Next(ip, out, state) => Run(input, ip, out, state, cap)
  }

  function Decode(input: seq<byte>, cap: nat): Result<seq<byte>>
  {
    if |input| < 3 || input[0] == 17 then Err
    else if input[0] > 17 then
      var n := input[0] - 17;
      Resume(input, TakeLiterals(input, 1, [], n, if n < 4 then n else 4, cap), cap)
    else Run(input, 0, [], 0, cap)
  }

  // ----- Headers: Fetch is the inverse of EncodeHead -----

  lemma {:induction false} CountZerosFinds(input: seq<byte>, ip: nat, n: nat)
    requires ip + n < |input|
    requires forall k :: ip <= k < ip + n ==> input[k] == 0
    requires input[ip + n] != 0
    ensures CountZeros(input, ip) == n
    decreases n
  {
    if n > 0 { CountZerosFinds(input, ip + 1, n - 1); }
  }

  lemma {:induction false} ReadExtComplete(input: seq<byte>, ip: nat, n: nat)
    requires ip <= |input| && ExtFits(n)
    requires Has(input, ip, ExtLen(n))
    ensures ReadExt(input, ip) == Ok((n, ip + |ExtLen(n)|))
  {
    var z := (n - 1) / 255;
    HasSplit(input, ip, Zeros(z), [(n - 1) % 255 + 1]);
    HasOne(input, ip + z, (n - 1) % 255 + 1);
    forall k | ip <= k < ip + z
      ensures input[k] == 0
    {
      assert input[k] == input[ip..ip + z][k - ip];
    }
    CountZerosFinds(input, ip, z);
  }

  lemma {:induction false} ReadExtSound(input: seq<byte>, ip: nat)
    requires ip <= |input| && ReadExt(input, ip).Ok?
    ensures var (n, ip') := ReadExt(input, ip).value; Has(input, ip, ExtLen(n)) && ip' == ip + |ExtLen(n)|
  {
    var z := CountZeros(input, ip);
    var b := input[ip + z];
    var n := z * 255 + b;
    assert (n - 1) / 255 == z && (n - 1) % 255 == b - 1;
    assert input[ip..ip + z] == Zeros(z);
    HasSplit(input, ip, Zeros(z), [b]);
    HasOne(input, ip + z, b);
  }

  /** The header found at `ip` is `h`, and it ends at `ip'`. */
  ghost predicate FetchedIs(input: seq<byte>, ip: nat, state: nat, h: Head, ip': nat) {
    HeadOk(h, state) && Has(input, ip, EncodeHead(h, state)) && ip' == ip + |EncodeHead(h, state)|
  }

  lemma {:induction false} FetchComplete(input: seq<byte>, ip: nat, h: Head, state: nat)
    requires ip + 3 <= |input| && HeadOk(h, state)
    requires Has(input, ip, EncodeHead(h, state))
    ensures Fetch(input, ip, state) == Operation(h, ip + |EncodeHead(h, state)|)
  {
    match h
    case Literals(n) => FetchCompleteLiterals(input, ip, n);
    case Near(dist, next) => FetchCompleteNear(input, ip, dist, next, state);
    case Far(dist, next) => FetchCompleteFar(input, ip, dist, next);
    case M2(len, dist, next) => FetchCompleteM2(input, ip, len, dist, next, state);
    case M3(len, dist, next) => FetchCompleteM3(input, ip, len, dist, next, state);
    case M4(len, dist, next) => FetchCompleteM4(input, ip, len, dist, next, state);
  }

  lemma {:induction false} FetchCompleteLiterals(input: seq<byte>, ip: nat, n: nat)
    requires ip + 3 <= |input| && HeadOk(Literals(n), 0)
    requires Has(input, ip, EncodeHead(Literals(n), 0))
    ensures Fetch(input, ip, 0) == Operation(Literals(n), ip + |EncodeHead(Literals(n), 0)|)
  {
    if n <= 18 {
      HasOne(input, ip, n - 3);
    } else {
      HasSplit(input, ip, [0], ExtLen(n - 18));
      HasOne(input, ip, 0);
      ReadExtComplete(input, ip + 1, n - 18);
    }
  }

  lemma {:induction false} FetchCompleteNear(input: seq<byte>, ip: nat, dist: nat, next: nat, state: nat)
    requires ip + 3 <= |input| && HeadOk(Near(dist, next), state)
    requires Has(input, ip, EncodeHead(Near(dist, next), state))
    ensures Fetch(input, ip, state) == Operation(Near(dist, next), ip + 2)
  {
    HasTwo(input, ip, (dist - 1) % 4 * 4 + next, (dist - 1) / 4);
  }

  lemma {:induction false} FetchCompleteFar(input: seq<byte>, ip: nat, dist: nat, next: nat)
    requires ip + 3 <= |input| && HeadOk(Far(dist, next), 4)
    requires Has(input, ip, EncodeHead(Far(dist, next), 4))
    ensures Fetch(input, ip, 4) == Operation(Far(dist, next), ip + 2)
  {
    HasTwo(input, ip, (dist - 2049) % 4 * 4 + next, (dist - 2049) / 4);
  }

  lemma {:induction false} FetchCompleteM2(input: seq<byte>, ip: nat, len: nat, dist: nat, next: nat, state: nat)
    requires ip + 3 <= |input| && HeadOk(M2(len, dist, next), state)
    requires Has(input, ip, EncodeHead(M2(len, dist, next), state))
    ensures Fetch(input, ip, state) == Operation(M2(len, dist, next), ip + 2)
  {
    hide Fetch, LongForm, ExtLen, Has;
    M2Fields(len - 1, dist - 1, next);
    HasTwo(input, ip, (len - 1) * 32 + (dist - 1) % 8 * 4 + next, (dist - 1) / 8);
    FetchShort2(input, ip, state);
  }

  lemma {:induction false} M2Fields(l: nat, d: nat, next: nat)
    requires next < 4
    ensures var op := l * 32 + d % 8 * 4 + next; op / 32 == l && op / 4 % 8 + d / 8 * 8 == d && op % 4 == next
  {
    var low := d % 8;
    var op := l * 32 + low * 4 + next;
    assert op / 4 == l * 8 + low;
  }

  lemma {:induction false} FetchShort2(input: seq<byte>, ip: nat, state: nat)
    requires ip + 3 <= |input| && input[ip] >= 64
    ensures var op: int, second: int := input[ip], input[ip + 1];
            Fetch(input, ip, state) == Operation(M2(op / 32 + 1, 1 + op / 4 % 8 + second * 8, op % 4), ip + 2)
  {
    hide LongTail, FetchM3, FetchM4, ReadExt;
  }

  lemma {:induction false} FetchCompleteM3(input: seq<byte>, ip: nat, len: nat, dist: nat, next: nat, state: nat)
    requires ip + 3 <= |input| && HeadOk(M3(len, dist, next), state)
    requires Has(input, ip, EncodeHead(M3(len, dist, next), state))
    ensures Fetch(input, ip, state) == Operation(M3(len, dist, next), ip + |EncodeHead(M3(len, dist, next), state)|)
  {
    hide Fetch, ReadExt, ExtLen, LongTail, FetchM3, Word16, LongForm, Has;
    var short, ext := if len <= 33 then len - 2 else 0, if len <= 33 then 0 else len - 33;
    LongComplete(input, ip, 32, short, ext, (dist - 1) * 4 + next);
    FetchLong3(input, ip, state, short);
    Word3(input, LongTail(input, ip, short).value.1, len, dist, next);
  }

  /** The word of a long match gives back distance and trailing literals. */
  lemma {:induction false} Word3(input: seq<byte>, at: nat, len: nat, dist: nat, next: nat)
    requires at + 2 <= |input| && dist >= 1 && next <= 3 && Word16(input, at) == (dist - 1) * 4 + next
    ensures FetchM3(input, len, at) == Operation(M3(len, dist, next), at + 2)
  {
    hide Word16;
  }

  lemma {:induction false} Word4(op: nat, input: seq<byte>, at: nat, len: nat, dist: nat, next: nat, w: nat)
    requires at + 2 <= |input| && dist >= 16385 && next <= 3 && Word16(input, at) == w
    requires op / 8 % 2 * 16384 + w / 4 == dist - 16384 && w % 4 == next
    ensures FetchM4(op, input, len, at) == Operation(M4(len, dist, next), at + 2)
  {
    hide Word16;
  }

  /** The two long branches of the opcode ladder. */
  lemma {:induction false} FetchLong3(input: seq<byte>, ip: nat, state: nat, short: nat)
    requires ip + 3 <= |input| && input[ip] == 32 + short && short < 32
    ensures Fetch(input, ip, state) ==
            match LongTail(input, ip, short)
            case Err => Bad
            case Ok((ext, at)) => FetchM3(input, if short != 0 then short + 2 else ext + 33, at)
  {
    hide LongTail, FetchM3, FetchM4, ReadExt;
    var op: int := input[ip];
    assert op % 32 == short;
  }

  lemma {:induction false} FetchLong4(input: seq<byte>, ip: nat, state: nat, op: nat)
    requires ip + 3 <= |input| && input[ip] == op && 16 <= op < 32
    ensures Fetch(input, ip, state) ==
            match LongTail(input, ip, op % 8)
            case Err => Bad
            case Ok((ext, at)) => FetchM4(op, input, if op % 8 != 0 then op % 8 + 2 else ext + 9, at)
  {
    hide LongTail, FetchM3, FetchM4, ReadExt;
  }

  lemma {:induction false} FetchCompleteM4(input: seq<byte>, ip: nat, len: nat, dist: nat, next: nat, state: nat)
    requires ip + 3 <= |input| && HeadOk(M4(len, dist, next), state)
    requires Has(input, ip, EncodeHead(M4(len, dist, next), state))
    ensures Fetch(input, ip, state) == Operation(M4(len, dist, next), ip + |EncodeHead(M4(len, dist, next), state)|)
  {
    hide Fetch, ReadExt, ExtLen, ExtFits, LongTail, FetchM4, Word16, LongForm, Has;
    var v := dist - 16384;
    var short, ext := if len <= 9 then len - 2 else 0, if len <= 9 then 0 else len - 9;
    var bit, w := v / 16384, v % 16384 * 4 + next;
    LongComplete(input, ip, 16 + bit * 8, short, ext, w);
    M4Fields(v, short, next);
    var op: nat := 16 + bit * 8 + short;
    FetchLong4(input, ip, state, op);
    var at := LongTail(input, ip, short).value.1;
    Word4(op, input, at, len, dist, next, w);
  }

  /** The opcode and the word of an M4 match give back the three fields they were made of. */
  lemma {:induction false} M4Fields(v: nat, short: nat, next: nat)
    requires 1 <= v < 32768 && short < 8 && next < 4
    ensures var op, w := 16 + v / 16384 * 8 + short, v % 16384 * 4 + next;
            16 <= op < 32 && op % 8 == short && op / 8 % 2 * 16384 + w / 4 == v && w % 4 == next
  {}

  /** The same the other way round. */
  lemma {:induction false} M4Parts(op: nat, w: nat)
    requires 16 <= op < 32 && w < 65536
    ensures op == 16 + op / 8 % 2 * 8 + op % 8
    ensures var v := op / 8 % 2 * 16384 + w / 4; v / 16384 == op / 8 % 2 && v % 16384 * 4 + w % 4 == w
  {
    var q := w / 4;
    assert q < 16384;
    assert op / 8 == 2 || op / 8 == 3;
  }

  // ----- The long forms -----

  lemma {:induction false} HasThree(input: seq<byte>, ip: nat, b: byte, middle: seq<byte>, lo: byte, hi: byte)
    ensures Has(input, ip, [b] + middle + [lo, hi]) <==>
              && ip + |middle| + 3 <= |input| && input[ip] == b && Has(input, ip + 1, middle)
              && input[ip + |middle| + 1] == lo && input[ip + |middle| + 2] == hi
  {
    HasSplit(input, ip, [b] + middle, [lo, hi]);
    HasSplit(input, ip, [b], middle);
    HasOne(input, ip, b);
    HasTwo(input, ip + 1 + |middle|, lo, hi);
  }

  function Middle(short: nat, ext: nat): seq<byte>
    requires short == 0 ==> ext >= 1
  {
    if short != 0 then [] else ExtLen(ext)
  }

  lemma {:induction false} LongComplete(input: seq<byte>, ip: nat, base: nat, short: nat, ext: nat, w: nat)
    requires base + short < 256 && w < 65536
    requires if short == 0 then ExtFits(ext) else ext == 0
    requires Has(input, ip, LongForm(base, short, ext, w))
    ensures var n := |LongForm(base, short, ext, w)|;
            && ip + n <= |input| && input[ip] == base + short
            && LongTail(input, ip, short) == Ok((ext, ip + n - 2))
            && Word16(input, ip + n - 2) == w
  {
    HasThree(input, ip, base + short, Middle(short, ext), w % 256, w / 256);
    if short == 0 { ReadExtComplete(input, ip + 1, ext); }
  }

  lemma {:induction false} LongSound(input: seq<byte>, ip: nat, base: nat, short: nat)
    requires base + short < 256
    requires ip < |input| && input[ip] == base + short
    requires LongTail(input, ip, short).Ok? && LongTail(input, ip, short).value.1 + 2 <= |input|
    ensures var (ext, at) := LongTail(input, ip, short).value;
            && Has(input, ip, LongForm(base, short, ext, Word16(input, at)))
            && at + 2 == ip + |LongForm(base, short, ext, Word16(input, at))|
  {
    var (ext, at) := LongTail(input, ip, short).value;
    var w := Word16(input, at);
    if short == 0 {
      ReadExtSound(input, ip + 1);
    } else {
      assert input[ip + 1..ip + 1] == [];
    }
    WordBytes(input[at], input[at + 1]);
    HasThree(input, ip, base + short, Middle(short, ext), input[at], input[at + 1]);
  }

  lemma {:induction false} WordBytes(lo: byte, hi: byte)
    ensures var w := (lo as int) + 256 * (hi as int); w % 256 == lo && w / 256 == hi
  {}

  lemma {:induction false} FetchSound(input: seq<byte>, ip: nat, state: nat)
    requires ip + 3 <= |input| && state <= 4
    requires Fetch(input, ip, state).Operation?
    ensures FetchedIs(input, ip, state, Fetch(input, ip, state).head, Fetch(input, ip, state).ip)
  {
    hide Fetch, FetchedIs;
    var op: int := input[ip];
    if op < 16 {
      FetchSoundShort(input, ip, state);
    } else if op < 32 {
      FetchSoundM4(input, ip, state);
    } else if op < 64 {
      FetchSoundM3(input, ip, state);
    } else {
      FetchSoundM2(input, ip, state);
    }
  }

  lemma {:induction false} FetchSoundM2(input: seq<byte>, ip: nat, state: nat)
    requires ip + 3 <= |input| && input[ip] >= 64
    ensures var f := Fetch(input, ip, state); f.Operation? && FetchedIs(input, ip, state, f.head, f.ip)
  {
    hide Fetch, LongForm, ExtLen, Has;
    FetchShort2(input, ip, state);
    HasTwo(input, ip, input[ip], input[ip + 1]);
  }

  lemma {:induction false} FetchSoundShort(input: seq<byte>, ip: nat, state: nat)
    requires ip + 3 <= |input| && state <= 4 && input[ip] < 16
    requires Fetch(input, ip, state).Operation?
    ensures FetchedIs(input, ip, state, Fetch(input, ip, state).head, Fetch(input, ip, state).ip)
  {
    hide ReadExt, ExtLen, LongForm, LongTail, FetchM3, FetchM4, Has;
    if state == 0 {
      FetchSoundLiterals(input, ip);
    } else {
      HasTwo(input, ip, input[ip], input[ip + 1]);
    }
  }

  lemma {:induction false} FetchSoundLiterals(input: seq<byte>, ip: nat)
    requires ip + 3 <= |input| && input[ip] < 16
    requires Fetch(input, ip, 0).Operation?
    ensures FetchedIs(input, ip, 0, Fetch(input, ip, 0).head, Fetch(input, ip, 0).ip)
  {
    hide ReadExt, ExtLen, LongForm;
    HasOne(input, ip, input[ip]);
    if input[ip] == 0 {
      ReadExtSound(input, ip + 1);
      HasSplit(input, ip, [0], ExtLen(ReadExt(input, ip + 1).value.0));
    }
  }

  lemma {:induction false} FetchSoundM3(input: seq<byte>, ip: nat, state: nat)
    requires ip + 3 <= |input| && 32 <= input[ip] < 64
    requires Fetch(input, ip, state).Operation?
    ensures FetchedIs(input, ip, state, Fetch(input, ip, state).head, Fetch(input, ip, state).ip)
  {
    hide Fetch, ReadExt, ExtLen, LongTail, Has;
    var short: int := input[ip] % 32;
    FetchLong3(input, ip, state, short);
    LongSound(input, ip, 32, short);
    var (ext, at) := LongTail(input, ip, short).value;
    var w := Word16(input, at);
    var h := Fetch(input, ip, state).head;
    assert (h.dist - 1) * 4 + h.next == w;
    assert EncodeHead(h, state) == LongForm(32, short, ext, w);
  }

  lemma {:induction false} FetchSoundM4(input: seq<byte>, ip: nat, state: nat)
    requires ip + 3 <= |input| && 16 <= input[ip] < 32
    requires Fetch(input, ip, state).Operation?
    ensures FetchedIs(input, ip, state, Fetch(input, ip, state).head, Fetch(input, ip, state).ip)
  {
    hide Fetch, ReadExt, ExtLen, LongTail, Has;
    var op: nat := input[ip];
    var short, bit := op % 8, op / 8 % 2;
    FetchLong4(input, ip, state, op);
    LongSound(input, ip, 16 + bit * 8, short);
    var (ext, at) := LongTail(input, ip, short).value;
    var w := Word16(input, at);
    M4Parts(op, w);
    var h := Fetch(input, ip, state).head;
    var v := h.dist - 16384;
    assert v == bit * 16384 + w / 4 && h.next == w % 4;
    assert h.len == if short != 0 then short + 2 else ext + 9;
    assert EncodeHead(h, state) == LongForm(16 + bit * 8, short, ext, w);
  }
}
