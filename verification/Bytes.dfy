/** Bytes, and integers in network byte order. */
module Bytes {

  newtype byte = x: int | 0 <= x < 256

  function Power256(n: nat): (p: nat)
    ensures p > 0
  {
    if n == 0 then 1 else 256 * Power256(n - 1)
  }

  /** The n low-order bytes of x, most significant first. */
  function BigEndian(x: nat, n: nat): (bs: seq<byte>)
    ensures |bs| == n
  {
    if n == 0 then [] else BigEndian(x / 256, n - 1) + [(x % 256) as byte]
  }

  function FromBigEndian(bs: seq<byte>): nat
  {
    if bs == [] then 0 else FromBigEndian(bs[..|bs| - 1]) * 256 + bs[|bs| - 1] as int
  }

  /** The first byte is the most significant one. */
  lemma {:induction false} BigEndianByte(x: nat, n: nat, i: nat)
    requires i < n
    ensures BigEndian(x, n)[i] as int == x / Power256(n - 1 - i) % 256
  {
    if i < n - 1 {
      BigEndianByte(x / 256, n - 1, i);
      var p := Power256(n - 2 - i);
      assert Power256(n - 1 - i) == 256 * p;
      DivideTwice(x, p);
    }
  }

  lemma DivideTwice(x: nat, p: nat)
    requires p > 0
    ensures x / 256 / p == x / (256 * p)
  {
    var q := x / 256 / p;
    var r := x / 256 % p;
    assert x / 256 == q * p + r;
    var s := x % 256;
    assert x == 256 * (q * p + r) + s == (256 * p) * q + (256 * r + s);
    assert 256 * r + s < 256 * p;
    DivideUnique(x, 256 * p, q, 256 * r + s);
  }

  lemma DivideUnique(x: nat, d: nat, q: nat, r: nat)
    requires d > 0 && r < d && x == d * q + r
    ensures x / d == q
  {
    var t := x / d - q;
    assert d * t == r - x % d by {
      assert x == d * (x / d) + x % d;
      assert d * (x / d - q) == d * (x / d) - d * q;
    }
    if t > 0 {
      AtLeastFactor(d, t);
    } else if t < 0 {
      AtLeastFactor(d, -t);
    }
  }

  lemma AtLeastFactor(d: nat, t: int)
    requires t > 0
    ensures d * t >= d
  {
    assert d * t == d + d * (t - 1);
  }

  lemma {:induction false} BigEndianInverse(x: nat, n: nat)
    requires x < Power256(n)
    ensures FromBigEndian(BigEndian(x, n)) == x
  {
    if n > 0 {
      BigEndianInverse(x / 256, n - 1);
      var bs := BigEndian(x, n);
      assert bs[..n - 1] == BigEndian(x / 256, n - 1);
    }
  }

  lemma {:induction false} FromBigEndianBound(bs: seq<byte>)
    ensures FromBigEndian(bs) < Power256(|bs|)
  {
    if bs != [] {
      FromBigEndianBound(bs[..|bs| - 1]);
    }
  }

  /** The values of a signed integer of n bytes. */
  predicate FitsSigned(x: int, n: nat)
    requires n > 0
  {
    -(Power256(n) / 2) <= x < Power256(n) / 2
  }

  function Encode(x: int, n: nat): (bs: seq<byte>)
    requires n > 0 && FitsSigned(x, n)
    ensures |bs| == n
  {
    BigEndian(if x < 0 then x + Power256(n) else x, n)
  }

  function Decode(bs: seq<byte>): int
    requires bs != []
  {
    var u, p := FromBigEndian(bs), Power256(|bs|);
    if u < p / 2 then u else u - p
  }

  lemma {:induction false} BigEndianOf(bs: seq<byte>)
    ensures BigEndian(FromBigEndian(bs), |bs|) == bs
  {
    if bs != [] {
      BigEndianOf(bs[..|bs| - 1]);
      assert bs == bs[..|bs| - 1] + [bs[|bs| - 1]];
    }
  }

  lemma PowerEven(n: nat)
    requires n > 0
    ensures Power256(n) % 2 == 0
  {
    assert Power256(n) == 2 * (128 * Power256(n - 1));
  }

  /** Every sequence of bytes is the encoding of what it decodes to. */
  lemma DecodeEncode(bs: seq<byte>)
    requires bs != []
    ensures FitsSigned(Decode(bs), |bs|) && Encode(Decode(bs), |bs|) == bs
  {
    hide Power256, FromBigEndian, BigEndian;
    FromBigEndianBound(bs);
    BigEndianOf(bs);
    PowerEven(|bs|);
  }

  lemma EncodeDecode(x: int, n: nat)
    requires n > 0 && FitsSigned(x, n)
    ensures Decode(Encode(x, n)) == x
  {
    var p := Power256(n);
    assert p == 256 * Power256(n - 1);
    BigEndianInverse(if x < 0 then x + p else x, n);
  }
}

/** What a byte buffer stands for: a first-in first-out sequence of bytes. */
module ByteFifo {
  import opened Bytes

  datatype Op = Put(data: seq<byte>) | Get(n: nat)

  datatype Fifo = Fifo(content: seq<byte>, received: seq<byte>)

  function Apply(f: Fifo, op: Op): Fifo
  {
    match op
    case Put(d) => f.(content := f.content + d)
    case Get(n) => if n <= |f.content| then Fifo(f.content[n..], f.received + f.content[..n]) else f
  }

  function Run(f: Fifo, ops: seq<Op>): Fifo
    decreases |ops|
  {
    if ops == [] then f else Run(Apply(f, ops[0]), ops[1..])
  }

  lemma RunNothing(f: Fifo)
    ensures Run(f, []) == f
  {
  }

  lemma {:induction false} RunSnoc(f: Fifo, ops: seq<Op>, op: Op)
    ensures Run(f, ops + [op]) == Apply(Run(f, ops), op)
    decreases |ops|
  {
    if ops == [] {
      assert [op][1..] == [];
      assert Run(f, [] + [op]) == Run(f, [op]) == Run(Apply(f, op), []);
    } else {
      assert (ops + [op])[1..] == ops[1..] + [op];
      RunSnoc(Apply(f, ops[0]), ops[1..], op);
    }
  }

  function AllPut(ops: seq<Op>): seq<byte>
    decreases |ops|
  {
    if ops == [] then [] else (if ops[0].Put? then ops[0].data else []) + AllPut(ops[1..])
  }

  /** On every run, what was taken out followed by what is still there is what was put in, in order. */
  lemma {:induction false} Conserved(f: Fifo, ops: seq<Op>)
    ensures Run(f, ops).received + Run(f, ops).content == f.received + f.content + AllPut(ops)
    decreases |ops|
  {
    if ops == [] {
      assert f.received + f.content + [] == f.received + f.content;
    } else {
      var g := Apply(f, ops[0]);
      Conserved(g, ops[1..]);
      match ops[0]
      case Put(d) => assert g.received + g.content == f.received + f.content + d;
        assert f.received + f.content + d + AllPut(ops[1..]) == f.received + f.content + (d + AllPut(ops[1..]));
      case Get(n) =>
        if n <= |f.content| {
          assert f.content == f.content[..n] + f.content[n..];
        }
        assert g.received + g.content == f.received + f.content;
        assert [] + AllPut(ops[1..]) == AllPut(ops[1..]);
    }
  }
}
