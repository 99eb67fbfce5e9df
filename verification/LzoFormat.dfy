/**
  The LZO1X byte format as a language of instructions: what each instruction
  looks like on the wire, when it is legal, and what it expands to.  Nothing in
  this module decodes anything; it is the reference the decoder is held against.
  */
module LzoFormat {
  import opened Arith
  import opened Bytes

  /** Largest zero-run that may be multiplied by 255 without leaving size_t. */
  const MAX_255_COUNT: int := (WORD - 1) / 255 - 2

  /** Instruction headers.  `next` is the number of literals that trail a match. */
  datatype Head =
    | Literals(n: nat)
    | Near(dist: nat, next: nat)              // two bytes, states 1 to 3
    | Far(dist: nat, next: nat)               // three bytes, state 4
    | M2(len: nat, dist: nat, next: nat)      // opcodes 64 and above
    | M3(len: nat, dist: nat, next: nat)      // opcodes 32 to 63
    | M4(len: nat, dist: nat, next: nat)      // opcodes 16 to 31
  {
    /** Bytes repeated from the output. */
    function MatchLen(): nat {
      match this
      case Literals(_) => 0
      case Near(_, _) => 2
      case Far(_, _) => 3
      case M2(len, _, _) => len
      case M3(len, _, _) => len
      case M4(len, _, _) => len
    }

    /** How far behind the end of the output a match starts. */
    function Distance(): nat {
      if Literals? then 0 else dist
    }

    /** Literal bytes that follow the header in the stream. */
    function LiteralCount(): nat {
      if Literals? then n else next
    }

    /** The decoder state the instruction leaves behind. */
    function NextState(): nat {
      if Literals? then 4 else next
    }
  }

  /** An instruction is a header and the literals it carries. */
  datatype Instr = Instr(head: Head, lits: seq<byte>)

  /** A block: an optional first literal run, instructions, and the end marker's two free bits. */
  datatype Stream = Stream(first: seq<byte>, body: seq<Instr>, bits: nat)

  // ----- Legality -----

  /** Lengths of the zero-run extended form: `n` counts from 1. */
  predicate ExtFits(n: int) {
    1 <= n <= MAX_255_COUNT * 255 + 255
  }

  /** That is every length up to 256 short of 2^32. */
  lemma {:induction false} ExtFitsIff(n: int)
    ensures ExtFits(n) <==> 1 <= n <= 0xFFFF_FF00
  {
    assert MAX_255_COUNT == 16843007;
  }

  predicate HeadOk(h: Head, state: nat)
    ensures HeadOk(h, state) ==> h.NextState() <= 4 && (h.Literals? || 1 <= h.Distance())
  {
    match h
    case Literals(n) => state == 0 && 4 <= n && (n <= 18 || ExtFits(n - 18))
    case Near(dist, next) => 1 <= state <= 3 && 1 <= dist <= 1024 && next <= 3
    case Far(dist, next) => state == 4 && 2049 <= dist <= 3072 && next <= 3
    case M2(len, dist, next) => 3 <= len <= 8 && 1 <= dist <= 2048 && next <= 3
    case M3(len, dist, next) => 3 <= len && (len <= 33 || ExtFits(len - 33)) && 1 <= dist <= 16384 && next <= 3
    case M4(len, dist, next) => 3 <= len && (len <= 9 || ExtFits(len - 9)) && 16385 <= dist <= 49151 && next <= 3
  }

  predicate InstrOk(i: Instr, state: nat, produced: nat) {
    HeadOk(i.head, state) && |i.lits| == i.head.LiteralCount() && i.head.Distance() <= produced
  }

  predicate BodyOk(body: seq<Instr>, state: nat, produced: nat) {
    body == [] ||
    (InstrOk(body[0], state, produced) &&
     BodyOk(body[1..], body[0].head.NextState(), produced + body[0].head.MatchLen() + |body[0].lits|))
  }

  function FirstState(first: seq<byte>): nat {
    if |first| < 4 then |first| else 4
  }

  predicate StreamOk(s: Stream) {
    && |s.first| <= 238
    && s.bits <= 3
    && (s.first == [] ==> s.body != [])
    && BodyOk(s.body, FirstState(s.first), |s.first|)
  }

  // ----- Wire form -----

  function Zeros(n: nat): (z: seq<byte>)
    ensures |z| == n
  {
    seq(n, i => 0)
  }

  function ExtLen(n: nat): seq<byte>
    requires n >= 1
  {
    Zeros((n - 1) / 255) + [(n - 1) % 255 + 1]
  }

  function Le16(v: nat): seq<byte>
    requires v < 65536
  {
    [v % 256, v / 256]
  }

  /** The shared shape of M3 and M4: an opcode, an extension if its length field is 0, and a word. */
  function LongForm(base: nat, short: nat, ext: nat, w: nat): seq<byte>
    requires base + short < 256 && w < 65536
    requires short == 0 ==> ext >= 1
  {
    [base + short] + (if short != 0 then [] else ExtLen(ext)) + Le16(w)
  }

  function EncodeHead(h: Head, state: nat): seq<byte>
    requires HeadOk(h, state)
  {
    match h
    case Literals(n) => if n <= 18 then [n - 3] else [0] + ExtLen(n - 18)
    case Near(dist, next) => [(dist - 1) % 4 * 4 + next, (dist - 1) / 4]
    case Far(dist, next) => [(dist - 2049) % 4 * 4 + next, (dist - 2049) / 4]
    case M2(len, dist, next) => [(len - 1) * 32 + (dist - 1) % 8 * 4 + next, (dist - 1) / 8]
    case M3(len, dist, next) =>
      LongForm(32, if len <= 33 then len - 2 else 0, if len <= 33 then 0 else len - 33, (dist - 1) * 4 + next)
    case M4(len, dist, next) =>
      var v := dist - 16384;
      LongForm(16 + v / 16384 * 8, if len <= 9 then len - 2 else 0, if len <= 9 then 0 else len - 9,
               v % 16384 * 4 + next)
  }

  function EncodeInstr(i: Instr, state: nat): seq<byte>
    requires HeadOk(i.head, state)
  {
    EncodeHead(i.head, state) + i.lits
  }

  function EncodeBody(body: seq<Instr>, state: nat, produced: nat, bits: nat): seq<byte>
    requires BodyOk(body, state, produced)
    requires bits <= 3
  {
    if body == [] then [17, bits, 0]
    else
      EncodeInstr(body[0], state) +
      EncodeBody(body[1..], body[0].head.NextState(), produced + body[0].head.MatchLen() + |body[0].lits|, bits)
  }

  function Encode(s: Stream): seq<byte>
    requires StreamOk(s)
  {
    (if s.first == [] then [] else [17 + |s.first|] + s.first) +
    EncodeBody(s.body, FirstState(s.first), |s.first|, s.bits)
  }

  // ----- Meaning -----

  /** Repeats `len` bytes from `dist` back; the source may run into the bytes just produced. */
  function CopyBack(out: seq<byte>, dist: nat, len: nat): (r: seq<byte>)
    requires len == 0 || 1 <= dist <= |out|
    ensures |r| == |out| + len
    decreases len
  {
    if len == 0 then out else CopyBack(out + [out[|out| - dist]], dist, len - 1)
  }

  /** What CopyBack means: old bytes stay, and every new byte equals the one `dist` before it. */
  lemma {:induction false} CopyBackIsPeriodic(out: seq<byte>, dist: nat, len: nat)
    requires 1 <= dist <= |out|
    ensures var r := CopyBack(out, dist, len);
            r[..|out|] == out && forall k :: |out| <= k < |r| ==> r[k] == r[k - dist]
    decreases len
  {
    if len == 0 {
    } else {
      var out' := out + [out[|out| - dist]];
      CopyBackIsPeriodic(out', dist, len - 1);
      var r := CopyBack(out', dist, len - 1);
      assert out == r[..|out'|][..|out|];
      assert r[|out|] == r[..|out'|][|out|] && r[|out| - dist] == r[..|out'|][|out| - dist];
    }
  }

  function ExpandInstr(i: Instr, out: seq<byte>): (r: seq<byte>)
    requires i.head.Literals? || 1 <= i.head.Distance() <= |out|
    ensures |r| == |out| + i.head.MatchLen() + |i.lits|
  {
    CopyBack(out, i.head.Distance(), i.head.MatchLen()) + i.lits
  }

  function ExpandBody(body: seq<Instr>, state: nat, out: seq<byte>): seq<byte>
    requires BodyOk(body, state, |out|)
  {
    if body == [] then out
    else ExpandBody(body[1..], body[0].head.NextState(), ExpandInstr(body[0], out))
  }

  function Expand(s: Stream): seq<byte>
    requires StreamOk(s)
  {
    ExpandBody(s.body, FirstState(s.first), s.first)
  }
}
