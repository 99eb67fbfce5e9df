/** The byte ring and the stream file on top of it. */
module Stream {
  import opened Options
  import opened Bytes

  const INT_MAX: int := 0x7FFF_FFFF

  /** WRAP: an index that is at most one round too far. */
  function Wrap(n: nat, m: nat): (k: nat)
    requires n < 2 * m
    ensures k < m
  {
    if n >= m then n - m else n
  }

  class Ring {
    const buff: array<byte>
    var begin: nat
    var count: nat

    constructor (size: nat)
      requires 0 < size <= 0x7FFF_FFFF
      ensures Valid() && fresh(buff) && buff.Length == size && Contents() == []
    {
      buff := new byte[size](_ => 0);
      begin, count := 0, 0;
    }

    /** No index sum leaves 32 bits. */
    predicate Valid()
      reads this
    {
      0 < buff.Length <= INT_MAX && begin < buff.Length && count <= buff.Length
    }

    /** The readable bytes, oldest first. */
    ghost function Contents(): (s: seq<byte>)
      reads this, buff
      requires Valid()
      ensures |s| == count
    {
      seq(count, i requires 0 <= i < count reads this, buff requires Valid() => buff[Wrap(begin + i, buff.Length)])
    }

    /** cbuff_put */
    method Put(data: byte) returns (ok: bool)
      requires Valid()
      modifies this`count, buff
      ensures Valid()
      ensures ok <==> old(count) < buff.Length
      ensures Contents() == if ok then old(Contents()) + [data] else old(Contents())
    {
      if count >= buff.Length { return false; }
      ghost var s := Contents();
      buff[Wrap(begin + count, buff.Length)] := data;
      count := count + 1;
      forall i | 0 <= i < count ensures Contents()[i] == (s + [data])[i] {
        WrapApart(begin, i, count - 1, buff.Length);
      }
      assert Contents() == s + [data];
      ok := true;
    }

    /** cbuff_get; the byte, unless there is none. */
    method Get() returns (r: Option<byte>)
      requires Valid()
      modifies this`begin, this`count
      ensures Valid()
      ensures r.None? <==> old(count) == 0
      ensures r.Some? ==> old(Contents()) == [r.value] + Contents()
      ensures r.None? ==> Contents() == old(Contents())
    {
      if count == 0 { return None; }
      ghost var s := Contents();
      assert s[0] == buff[begin] by { assert Wrap(begin + 0, buff.Length) == begin; }
      r := Some(buff[begin]);
      begin := Wrap(begin + 1, buff.Length);
      count := count - 1;
      forall i | 0 <= i < count ensures Contents()[i] == s[i + 1] {
        WrapAgain(old(begin), i, buff.Length);
      }
      assert Contents() == s[1..];
      assert s == [s[0]] + s[1..];
    }

    /** cbuff_write: all of `data`, or nothing. */
    method Write(data: seq<byte>) returns (ok: bool)
      requires Valid()
      modifies this`count, buff
      ensures Valid()
      ensures ok <==> |data| <= buff.Length - old(count)
      ensures Contents() == if ok then old(Contents()) + data else old(Contents())
    {
      if |data| > buff.Length - count { return false; }
      ghost var s := Contents();
      var i := 0;
      while i < |data|
        invariant 0 <= i <= |data| && Valid() && count == old(count) + i
        invariant Contents() == s + data[..i]
      {
        ok := Put(data[i]);
        assert s + data[..i] + [data[i]] == s + data[..i + 1];
        i := i + 1;
      }
      assert data[..i] == data;
      ok := true;
    }

    /** cbuff_read: exactly `size` bytes, or nothing. */
    method Read(size: nat) returns (r: Option<seq<byte>>)
      requires Valid()
      modifies this`begin, this`count
      ensures Valid()
      ensures r.Some? <==> size <= old(count)
      ensures r.Some? ==> |r.value| == size && old(Contents()) == r.value + Contents()
      ensures r.None? ==> Contents() == old(Contents())
    {
      if size > count { return None; }
      ghost var s := Contents();
      var data: seq<byte> := [];
      while |data| < size
        invariant Valid() && |data| <= size && count == old(count) - |data|
        invariant s == data + Contents()
      {
        var d := Get();
        assert data + ([d.value] + Contents()) == data + [d.value] + Contents();
        data := data + [d.value];
      }
      r := Some(data);
    }
  }

  /** Two places of the ring within one round differ. */
  lemma {:induction false} WrapApart(begin: nat, i: nat, j: nat, size: nat)
    requires begin < size && i <= j < size
    ensures Wrap(begin + i, size) == Wrap(begin + j, size) <==> i == j
  {
  }

  /** Moving the start on by one and the place back by one is the same place. */
  lemma {:induction false} WrapAgain(begin: nat, i: nat, size: nat)
    requires begin < size && i + 1 < size
    ensures Wrap(Wrap(begin + 1, size) + i, size) == Wrap(begin + (i + 1), size)
  {
  }

  // ----- The stream as a bounded queue -----

  datatype Op = Write(data: seq<byte>) | Read(n: nat)

  function Min(a: nat, b: nat): nat {
    if a < b then a else b
  }

  /** Bytes that an operation moves into or out of a queue of at most `size` bytes. */
  function Moved(queue: seq<byte>, size: nat, op: Op): nat
    requires |queue| <= size
  {
    if op.Write? then Min(|op.data|, size - |queue|) else Min(op.n, |queue|)
  }

  function Step(queue: seq<byte>, size: nat, op: Op): (q: seq<byte>)
    requires |queue| <= size
    ensures |q| <= size
  {
    var k := Moved(queue, size, op);
    if op.Write? then queue + op.data[..k] else queue[k..]
  }

  function Run(queue: seq<byte>, size: nat, ops: seq<Op>): (q: seq<byte>)
    requires |queue| <= size
    ensures |q| <= size
    decreases |ops|
  {
    if ops == [] then queue else Run(Step(queue, size, ops[0]), size, ops[1..])
  }

  /** All bytes that the writes of a run report as taken, in order. */
  function Accepted(queue: seq<byte>, size: nat, ops: seq<Op>): seq<byte>
    requires |queue| <= size
    decreases |ops|
  {
    if ops == [] then []
    else
      (if ops[0].Write? then ops[0].data[..Moved(queue, size, ops[0])] else []) +
      Accepted(Step(queue, size, ops[0]), size, ops[1..])
  }

  /** All bytes that the reads of a run return, in order. */
  function Delivered(queue: seq<byte>, size: nat, ops: seq<Op>): seq<byte>
    requires |queue| <= size
    decreases |ops|
  {
    if ops == [] then []
    else
      (if ops[0].Read? then queue[..Moved(queue, size, ops[0])] else []) +
      Delivered(Step(queue, size, ops[0]), size, ops[1..])
  }

  /** What was read, followed by what is buffered, is what was buffered at first followed by what was taken. */
  lemma {:induction false} RunIsFifo(queue: seq<byte>, size: nat, ops: seq<Op>)
    requires |queue| <= size
    ensures Delivered(queue, size, ops) + Run(queue, size, ops) == queue + Accepted(queue, size, ops)
    decreases |ops|
  {
    if ops != [] {
      var op := ops[0];
      var next := Step(queue, size, op);
      var d, r, a := Delivered(next, size, ops[1..]), Run(next, size, ops[1..]), Accepted(next, size, ops[1..]);
      RunIsFifo(next, size, ops[1..]);
      hide Step, Run, Delivered, Accepted;
      StepIsFifo(queue, size, op, d, r, a);
    }
  }

  /** One operation in front of a run. */
  lemma {:induction false} StepIsFifo(queue: seq<byte>, size: nat, op: Op, d: seq<byte>, r: seq<byte>, a: seq<byte>)
    requires |queue| <= size && d + r == Step(queue, size, op) + a
    ensures var k := Moved(queue, size, op);
            (if op.Read? then queue[..k] else []) + d + r == queue + ((if op.Write? then op.data[..k] else []) + a)
  {
    var k := Moved(queue, size, op);
    if op.Write? {
      assert [] + d == d;
      assert queue + op.data[..k] + a == queue + (op.data[..k] + a);
    } else {
      assert queue[..k] + d + r == queue[..k] + (d + r);
      assert queue[..k] + (queue[k..] + a) == queue[..k] + queue[k..] + a;
      assert queue[..k] + queue[k..] == queue;
      assert [] + a == a;
    }
  }

  // ----- The stream file -----

  class File {
    const ring: Ring
    var length: nat

    constructor (size: nat)
      requires 0 < size <= 0x7FFF_FFFF
      ensures Valid() && fresh(ring) && fresh(ring.buff) && ring.buff.Length == size && Buffered() == []
    {
      ring := new Ring(size);
      length := 0;
    }

    /** stream_create: no file of length below one. */
    static method Create(size: int) returns (f: File?)
      requires size <= 0x7FFF_FFFF
      ensures f == null <==> size < 1
      ensures f != null ==> fresh(f) && fresh(f.ring) && fresh(f.ring.buff)
      ensures f != null ==> f.Valid() && f.ring.buff.Length == size && f.Buffered() == []
    {
      if size < 1 { return null; }
      f := new File(size);
    }

    /** The file's length is the number of bytes that can be read. */
    predicate Valid()
      reads this, ring
    {
      ring.Valid() && length == ring.count
    }

    ghost function Buffered(): seq<byte>
      reads this, ring, ring.buff
      requires Valid()
    {
      ring.Contents()
    }

    /** _read */
    method ReadSome(sz: nat) returns (data: seq<byte>)
      requires Valid()
      modifies this, ring
      ensures Valid()
      ensures old(Buffered()) == data + Buffered()
      ensures |data| == Moved(old(Buffered()), ring.buff.Length, Op.Read(sz))
      ensures Buffered() == Step(old(Buffered()), ring.buff.Length, Op.Read(sz))
    {
      ghost var s := ring.Contents();
      data := [];
      while |data| < sz
        invariant ring.Valid() && |data| <= sz && |data| + ring.count == |s|
        invariant s == data + ring.Contents()
        invariant length == |s|
      {
        var d := ring.Get();
        if d.None? { break; }
        assert data + ([d.value] + ring.Contents()) == data + [d.value] + ring.Contents();
        data := data + [d.value];
      }
      length := length - |data|;
      assert s[|data|..] == ring.Contents();
    }

    /** _write; the number of bytes taken. */
    method WriteSome(data: seq<byte>) returns (k: nat)
      requires Valid()
      modifies this, ring, ring.buff
      ensures Valid()
      ensures k == Moved(old(Buffered()), ring.buff.Length, Op.Write(data))
      ensures Buffered() == Step(old(Buffered()), ring.buff.Length, Op.Write(data))
    {
      ghost var s := ring.Contents();
      k := 0;
      while k < |data|
        invariant 0 <= k <= |data| && ring.Valid() && ring.count == |s| + k
        invariant ring.Contents() == s + data[..k]
        invariant length == |s|
      {
        var ok := ring.Put(data[k]);
        if !ok { break; }
        assert s + data[..k] + [data[k]] == s + data[..k + 1];
        k := k + 1;
      }
      length := length + k;
    }
  }
}
