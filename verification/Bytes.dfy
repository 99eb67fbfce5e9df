/** Octets, shared by every module that works on raw memory. */
module Bytes {
  type byte = x: int | 0 <= x < 256

  /** `part` stands in `s` at `i`. */
  predicate Has(s: seq<byte>, i: nat, part: seq<byte>) {
    i + |part| <= |s| && s[i..i + |part|] == part
  }

  lemma {:induction false} HasSplit(s: seq<byte>, i: nat, a: seq<byte>, b: seq<byte>)
    ensures Has(s, i, a + b) <==> Has(s, i, a) && Has(s, i + |a|, b)
  {
    if Has(s, i, a + b) {
      var both := s[i..i + |a + b|];
      assert s[i..i + |a|] == both[..|a|] == a;
      assert s[i + |a|..i + |a| + |b|] == both[|a|..] == b;
    }
    if Has(s, i, a) && Has(s, i + |a|, b) {
      assert s[i..i + |a + b|] == s[i..i + |a|] + s[i + |a|..i + |a| + |b|];
    }
  }

  lemma {:induction false} HasOne(s: seq<byte>, i: nat, b: byte)
    ensures Has(s, i, [b]) <==> i < |s| && s[i] == b
  {
    if i < |s| { assert s[i..i + 1] == [s[i]]; }
  }

  lemma {:induction false} HasTwo(s: seq<byte>, i: nat, a: byte, b: byte)
    ensures Has(s, i, [a, b]) <==> i + 2 <= |s| && s[i] == a && s[i + 1] == b
  {
    HasSplit(s, i, [a], [b]);
    HasOne(s, i, a);
    HasOne(s, i + 1, b);
    assert [a] + [b] == [a, b];
  }

  /** A part stays where nothing around it changes. */
  lemma {:induction false} HasKept(s: seq<byte>, t: seq<byte>, i: nat, part: seq<byte>)
    requires Has(s, i, part) && |s| == |t| && forall k :: i <= k < i + |part| ==> t[k] == s[k]
    ensures Has(t, i, part)
  {
    assert t[i..i + |part|] == s[i..i + |part|];
  }
}
