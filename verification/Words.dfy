/** Little-endian 32-bit words in memory. */
module Words {
  import opened Arith
  import opened Bytes

  predicate WordAt(mem: seq<byte>, a: nat) {
    a + 4 <= |mem|
  }

  function ReadWord(mem: seq<byte>, a: nat): (w: nat)
    requires WordAt(mem, a)
    ensures w < WORD
  {
    var b0: int, b1: int, b2: int, b3: int := mem[a], mem[a + 1], mem[a + 2], mem[a + 3];
    b0 + 0x100 * b1 + 0x1_0000 * b2 + 0x100_0000 * b3
  }

  /** The bytes of a word, low byte first. */
  function WordBytes(w: nat): (s: seq<byte>)
    requires w < WORD
    ensures |s| == 4
    ensures (s[0] as int) + 0x100 * (s[1] as int) + 0x1_0000 * (s[2] as int) + 0x100_0000 * (s[3] as int) == w
  {
    var q1 := w / 0x100;
    var q2 := q1 / 0x100;
    [w % 0x100, q1 % 0x100, q2 % 0x100, q2 / 0x100]
  }

  function WriteWord(mem: seq<byte>, a: nat, w: nat): (mem': seq<byte>)
    requires WordAt(mem, a) && w < WORD
    ensures |mem'| == |mem|
    ensures forall k :: 0 <= k < |mem| && !(a <= k < a + 4) ==> mem'[k] == mem[k]
  {
    var d := WordBytes(w);
    mem[a := d[0]][a + 1 := d[1]][a + 2 := d[2]][a + 3 := d[3]]
  }

  lemma {:induction false} ReadWritten(mem: seq<byte>, a: nat, w: nat)
    requires WordAt(mem, a) && w < WORD
    ensures ReadWord(WriteWord(mem, a, w), a) == w
  {
    hide WordBytes;
    var d := WordBytes(w);
    var m := WriteWord(mem, a, w);
    assert m[a] == d[0] && m[a + 1] == d[1] && m[a + 2] == d[2] && m[a + 3] == d[3];
  }

  predicate WordsApart(a: nat, b: nat) {
    a + 4 <= b || b + 4 <= a
  }

  lemma {:induction false} ReadElsewhere(mem: seq<byte>, a: nat, w: nat, b: nat)
    requires WordAt(mem, a) && WordAt(mem, b) && w < WORD && WordsApart(a, b)
    ensures ReadWord(WriteWord(mem, a, w), b) == ReadWord(mem, b)
  {
  }

  lemma {:induction false} ReadWordBytes(mem: seq<byte>, a: nat, w: nat)
    requires w < WORD && Has(mem, a, WordBytes(w))
    ensures ReadWord(mem, a) == w
  {
    hide WordBytes;
    var s := mem[a..a + 4];
    assert s[0] == mem[a] && s[1] == mem[a + 1] && s[2] == mem[a + 2] && s[3] == mem[a + 3];
  }
}
