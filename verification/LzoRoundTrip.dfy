/**
  Whole blocks: the decoder accepts an input exactly when it is the encoding of
  a legal stream that fits the output block, and then yields its expansion.
  */
module LzoRoundTrip {
  import opened Bytes
  import opened LzoFormat
  import opened LzoDecoder

  // ----- Every legal stream decodes to its meaning -----

  lemma {:induction false} BodyEndsWithMarker(body: seq<Instr>, state: nat, produced: nat, bits: nat)
    requires BodyOk(body, state, produced) && bits <= 3
    ensures |EncodeBody(body, state, produced, bits)| >= 3
    decreases |body|
  {
    if body != [] {
      BodyEndsWithMarker(body[1..], body[0].head.NextState(),
                         produced + body[0].head.MatchLen() + |body[0].lits|, bits);
    }
  }

  lemma {:induction false} ExpansionGrows(body: seq<Instr>, state: nat, out: seq<byte>)
    requires BodyOk(body, state, |out|)
    ensures |out| <= |ExpandBody(body, state, out)|
    decreases |body|
  {
    if body != [] {
      ExpansionGrows(body[1..], body[0].head.NextState(), ExpandInstr(body[0], out));
    }
  }

  lemma {:induction false} MarkerDecodes(input: seq<byte>, ip: nat, out: seq<byte>, state: nat, bits: nat, cap: nat)
    requires bits <= 3 && ip + 3 == |input| && Has(input, ip, [17, bits, 0])
    ensures Run(input, ip, out, state, cap) == Ok(out)
  {
    HasSplit(input, ip, [17], [bits, 0]);
    assert [17] + [bits, 0] == [17, bits, 0];
    HasOne(input, ip, 17);
    HasTwo(input, ip + 1, bits, 0);
  }

  lemma {:induction false} RunComplete(input: seq<byte>, ip: nat, out: seq<byte>, body: seq<Instr>, state: nat,
                                       bits: nat, cap: nat)
    requires BodyOk(body, state, |out|) && bits <= 3
    requires ip + |EncodeBody(body, state, |out|, bits)| == |input|
    requires Has(input, ip, EncodeBody(body, state, |out|, bits))
    requires |ExpandBody(body, state, out)| <= cap
    ensures ip + 3 <= |input| && Run(input, ip, out, state, cap) == Ok(ExpandBody(body, state, out))
    decreases |body|
  {
    hide Fetch, HeadOk, EncodeHead, Execute;
    BodyEndsWithMarker(body, state, |out|, bits);
    if body == [] {
      MarkerDecodes(input, ip, out, state, bits, cap);
    } else {
      var i, rest := body[0], body[1..];
      var out' := ExpandInstr(i, out);
      var tail := EncodeBody(rest, i.head.NextState(), |out'|, bits);
      HasSplit(input, ip, EncodeInstr(i, state), tail);
      BodyEndsWithMarker(rest, i.head.NextState(), |out'|, bits);
      ExpansionGrows(rest, i.head.NextState(), out');
      AdvanceComplete(input, ip, out, i, state, cap);
      RunComplete(input, ip + |EncodeInstr(i, state)|, out', rest, i.head.NextState(), bits, cap);
    }
  }

  lemma {:induction false} AdvanceComplete(input: seq<byte>, ip: nat, out: seq<byte>, i: Instr, state: nat, cap: nat)
    requires InstrOk(i, state, |out|)
    requires Has(input, ip, EncodeInstr(i, state)) && ip + |EncodeInstr(i, state)| + 3 <= |input|
    requires |ExpandInstr(i, out)| <= cap
    ensures Advance(input, ip, out, state, cap) ==
            Next(ip + |EncodeInstr(i, state)|, ExpandInstr(i, out), i.head.NextState())
  {
    hide Fetch, HeadOk, EncodeHead, Execute;
    var head := EncodeHead(i.head, state);
    HasSplit(input, ip, head, i.lits);
    FetchComplete(input, ip, i.head, state);
    ExecuteExpands(input, ip + |head|, out, i, cap);
  }

  lemma {:induction false} ExecuteExpands(input: seq<byte>, ip: nat, out: seq<byte>, i: Instr, cap: nat)
    requires i.head.Literals? || 1 <= i.head.Distance() <= |out|
    requires |i.lits| == i.head.LiteralCount()
    requires Has(input, ip, i.lits) && ip + |i.lits| + 3 <= |input|
    requires |ExpandInstr(i, out)| <= cap
    ensures Execute(input, ip, out, i.head, cap) ==
            Next(ip + |i.lits|, ExpandInstr(i, out), i.head.NextState())
  {
  }

  /** Decoding the encoding of a legal stream yields its expansion. */
  lemma {:induction false} DecodeEncode(s: Stream, cap: nat)
    requires StreamOk(s) && |Expand(s)| <= cap
    ensures Decode(Encode(s), cap) == Ok(Expand(s))
  {
    if s.first == [] { DecodeBare(s, cap); } else { DecodePrefixed(s, cap); }
  }

  lemma {:induction false} DecodeBare(s: Stream, cap: nat)
    requires StreamOk(s) && |Expand(s)| <= cap && s.first == []
    ensures Decode(Encode(s), cap) == Ok(Expand(s))
  {
    var input := Encode(s);
    FirstIsLiteral(s);
    hide BodyOk, EncodeBody, ExpandBody, Run;
    BodyEndsWithMarker(s.body, 0, 0, s.bits);
    assert Has(input, 0, input);
    RunComplete(input, 0, [], s.body, 0, s.bits, cap);
  }

  lemma {:induction false} DecodePrefixed(s: Stream, cap: nat)
    requires StreamOk(s) && |Expand(s)| <= cap && s.first != []
    ensures Decode(Encode(s), cap) == Ok(Expand(s))
  {
    hide BodyOk, EncodeBody, ExpandBody, Run;
    var input := Encode(s);
    var state := FirstState(s.first);
    var body := EncodeBody(s.body, state, |s.first|, s.bits);
    BodyEndsWithMarker(s.body, state, |s.first|, s.bits);
    assert Has(input, 0, input);
    var n: int := |s.first|;
    HasSplit(input, 0, [17 + n] + s.first, body);
    HasSplit(input, 0, [17 + n], s.first);
    ExpansionGrows(s.body, state, s.first);
    assert [] + input[1..1 + n] == s.first;
    assert input[0] == 17 + n;
    RunComplete(input, 1 + n, s.first, s.body, state, s.bits, cap);
  }

  /** With nothing produced yet only a literal run is legal, so the first byte is below 16. */
  lemma {:induction false} FirstIsLiteral(s: Stream)
    requires StreamOk(s) && s.first == []
    ensures Encode(s)[0] < 16
  {
    var i := s.body[0];
    assert i.head.Literals?;
    var e := EncodeBody(s.body, 0, 0, s.bits);
    assert e[0] == EncodeHead(i.head, 0)[0];
    assert Encode(s) == e;
  }

  // ----- Only legal streams decode -----

  lemma {:induction false} MarkerSound(input: seq<byte>, ip: nat, state: nat)
    requires ip + 3 <= |input|
    requires Fetch(input, ip, state) == Marker(3, |input|)
    ensures exists bits: byte :: bits <= 3 && input[ip..] == [17, bits, 0]
  {
    var op: int := input[ip];
    assert op % 8 == 1 && op / 8 % 2 == 0 && op == 17;
    var w := Word16(input, ip + 1);
    var bits := input[ip + 1];
    assert w < 4 && input[ip + 2] == 0;
    assert bits <= 3 && input[ip..] == [17, bits, 0];
  }

  lemma {:induction false} RunSound(input: seq<byte>, ip: nat, out: seq<byte>, state: nat, cap: nat)
    returns (body: seq<Instr>, bits: nat)
    requires ip + 3 <= |input| && state <= 4 && |out| <= cap
    requires Run(input, ip, out, state, cap).Ok?
    ensures BodyOk(body, state, |out|) && bits <= 3
    ensures input[ip..] == EncodeBody(body, state, |out|, bits)
    ensures Run(input, ip, out, state, cap).value == ExpandBody(body, state, out)
    ensures |ExpandBody(body, state, out)| <= cap
    decreases |input| - ip
  {
    hide Fetch, HeadOk, EncodeHead, Execute;
    match Fetch(input, ip, state)
    case Marker(len, ip') =>
      MarkerSound(input, ip, state);
      var b: byte :| b <= 3 && input[ip..] == [17, b, 0];
      body, bits := [], b;
    case Operation(h, ip') =>
      var i := AdvanceSound(input, ip, out, state, cap);
      var ip'' := Advance(input, ip, out, state, cap).ip;
      var out' := ExpandInstr(i, out);
      var rest, b := RunSound(input, ip'', out', i.head.NextState(), cap);
      body, bits := [i] + rest, b;
      assert body[1..] == rest;
      assert input[ip..] == input[ip..ip''] + input[ip''..];
  }

  lemma {:induction false} AdvanceSound(input: seq<byte>, ip: nat, out: seq<byte>, state: nat, cap: nat)
      returns (i: Instr)
    requires ip + 3 <= |input| && state <= 4
    requires Advance(input, ip, out, state, cap).Next?
    ensures InstrOk(i, state, |out|) && i.head.NextState() <= 4
    ensures var ip' := ip + |EncodeInstr(i, state)|;
            && ip' <= |input| && input[ip..ip'] == EncodeInstr(i, state)
            && Advance(input, ip, out, state, cap) == Next(ip', ExpandInstr(i, out), i.head.NextState())
  {
    hide Fetch, HeadOk, EncodeHead;
    var Operation(h, at) := Fetch(input, ip, state);
    FetchSound(input, ip, state);
    var n := h.LiteralCount();
    i := Instr(h, input[at..at + n]);
    assert Has(input, at, i.lits);
    ExecuteExpands(input, at, out, i, cap);
    HasSplit(input, ip, EncodeHead(h, state), i.lits);
  }

  lemma {:induction false} DecodeSound(input: seq<byte>, cap: nat) returns (s: Stream)
    requires Decode(input, cap).Ok?
    ensures StreamOk(s) && Encode(s) == input && Expand(s) == Decode(input, cap).value
    ensures |Expand(s)| <= cap
  {
    if input[0] > 17 { s := PrefixedSound(input, cap); } else { s := BareSound(input, cap); }
  }

  lemma {:induction false} PrefixedSound(input: seq<byte>, cap: nat) returns (s: Stream)
    requires Decode(input, cap).Ok? && input[0] > 17
    ensures StreamOk(s) && Encode(s) == input && Expand(s) == Decode(input, cap).value
    ensures |Expand(s)| <= cap
  {
    hide BodyOk, EncodeBody, ExpandBody, Run;
    var n: int := input[0] - 17;
    var first := input[1..1 + n];
    assert [] + first == first;
    var body, bits := RunSound(input, 1 + n, first, FirstState(first), cap);
    s := Stream(first, body, bits);
    assert input == [17 + n] + first + input[1 + n..];
  }

  lemma {:induction false} BareSound(input: seq<byte>, cap: nat) returns (s: Stream)
    requires Decode(input, cap).Ok? && input[0] <= 17
    ensures StreamOk(s) && Encode(s) == input && Expand(s) == Decode(input, cap).value
    ensures |Expand(s)| <= cap
  {
    hide Fetch, HeadOk, EncodeHead, Execute;
    var body, bits := RunSound(input, 0, [], 0, cap);
    s := Stream([], body, bits);
    assert input[0..] == input;
  }

  /** Some legal stream has this wire form and this meaning. */
  ghost predicate Denotes(input: seq<byte>, out: seq<byte>) {
    exists s: Stream :: StreamOk(s) && Encode(s) == input && Expand(s) == out
  }

  /** The decoder, for every input and block size, is exactly the inverse of the encoder. */
  lemma {:induction false} DecodeIffDenotes(input: seq<byte>, cap: nat, out: seq<byte>)
    ensures Decode(input, cap) == Ok(out) <==> Denotes(input, out) && |out| <= cap
  {
    if Decode(input, cap) == Ok(out) {
      var s := DecodeSound(input, cap);
      assert StreamOk(s) && Encode(s) == input && Expand(s) == out;
    }
    if Denotes(input, out) && |out| <= cap {
      var s: Stream :| StreamOk(s) && Encode(s) == input && Expand(s) == out;
      DecodeEncode(s, cap);
    }
  }

  /** A block has one meaning: two legal streams with the same bytes expand alike. */
  lemma {:induction false} MeaningIsUnique(s: Stream, t: Stream)
    requires StreamOk(s) && StreamOk(t) && Encode(s) == Encode(t)
    ensures Expand(s) == Expand(t)
  {
    var cap := |Expand(s)| + |Expand(t)|;
    DecodeEncode(s, cap);
    DecodeEncode(t, cap);
  }

  /** The literal-only compressor: one run carries the whole string. */
  function StoreOnly(data: seq<byte>): Stream {
    if |data| <= 238 then Stream(data, [], 0) else Stream([], [Instr(Literals(|data|), data)], 0)
  }

  /** Every non-empty string up to 238 bytes short of 2^32 can be stored and read back. */
  lemma {:induction false} EveryStringHasAnEncoding(data: seq<byte>)
    requires 1 <= |data| <= 0xFFFF_FF12
    ensures StreamOk(StoreOnly(data)) && Decode(Encode(StoreOnly(data)), |data|) == Ok(data)
  {
    var s := StoreOnly(data);
    ExtFitsIff(|data| - 18);
    if |data| > 238 {
      assert BodyOk([], 4, |data|);
      assert s.body[1..] == [];
      assert ExpandInstr(s.body[0], []) == data;
      assert ExpandBody(s.body, 0, []) == ExpandBody([], 4, data);
    }
    DecodeEncode(s, |data|);
  }

  /** No stream denotes the empty string: the shortest block is refused as a Linux run-length extension. */
  lemma {:induction false} EmptyIsNotEncodable(input: seq<byte>, cap: nat)
    ensures Decode(input, cap) != Ok([])
  {
    if Decode(input, cap) == Ok([]) {
      var s := DecodeSound(input, cap);
      ExpansionGrows(s.body, FirstState(s.first), s.first);
      if s.first == [] {
        var i := s.body[0];
        ExpansionGrows(s.body[1..], i.head.NextState(), ExpandInstr(i, []));
      }
    }
  }
}
