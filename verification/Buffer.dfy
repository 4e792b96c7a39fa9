/** The growable byte buffer with room to prepend. */
module Buffers {
  import opened ByteFifo
  import opened Bytes

  const CHEAP_PREPEND: nat := 8
  const INITIAL_SIZE: nat := 1024
  const EXTRA_SIZE: nat := 65536

  function Zeros(n: nat): seq<byte> { seq(n, _ => 0 as byte) }

  /** The vector resized to n: cut off, or filled up with zeros. */
  function Resized(s: seq<byte>, n: nat): (r: seq<byte>)
    ensures |r| == n && forall i | 0 <= i < n && i < |s| :: r[i] == s[i]
  {
    if n <= |s| then s[..n] else s + Zeros(n - |s|)
  }

  /** The vector with data copied over the bytes from at on. */
  function Copied(s: seq<byte>, at: nat, data: seq<byte>): (r: seq<byte>)
    requires at + |data| <= |s|
    ensures |r| == |s| && r[at..at + |data|] == data
    ensures forall i | 0 <= i < |s| && !(at <= i < at + |data|) :: r[i] == s[i]
  {
    s[..at] + data + s[at + |data|..]
  }

  lemma CopiedFollows(s: seq<byte>, r: nat, w: nat, data: seq<byte>)
    requires r <= w && w + |data| <= |s|
    ensures Copied(s, w, data)[r..w + |data|] == s[r..w] + data
  {
  }

  class Buffer {
    var buffer: seq<byte>
    var readrIndex: nat
    var writerIndex: nat

    ghost predicate Valid()
      reads this
    {
      CHEAP_PREPEND <= |buffer| && readrIndex <= writerIndex <= |buffer| && CHEAP_PREPEND <= writerIndex
    }

    /** The readable bytes. */
    ghost function Content(): (c: seq<byte>)
      requires Valid()
      reads this
      ensures |c| == writerIndex - readrIndex
    {
      buffer[readrIndex..writerIndex]
    }

    constructor (initialSize: nat := INITIAL_SIZE)
      ensures Valid() && Content() == [] && GetPrependableBytes() == CHEAP_PREPEND && GetWritableBytes() == initialSize
    {
      buffer := Zeros(CHEAP_PREPEND + initialSize);
      readrIndex, writerIndex := CHEAP_PREPEND, CHEAP_PREPEND;
    }

    function GetReadableBytes(): (n: nat)
      requires Valid()
      reads this
      ensures n == |Content()|
    {
      writerIndex - readrIndex
    }

    function GetWritableBytes(): nat
      requires Valid()
      reads this
    {
      |buffer| - writerIndex
    }

    function GetPrependableBytes(): nat
      reads this
    {
      readrIndex
    }

    method HasWritten(len: nat)
      requires Valid() && len <= GetWritableBytes()
      modifies `writerIndex
      ensures Valid() && writerIndex == old(writerIndex) + len
    {
      writerIndex := writerIndex + len;
    }

    method RetrieveAll()
      requires Valid()
      modifies `readrIndex, `writerIndex
      ensures Valid() && Content() == []
    {
      readrIndex := CHEAP_PREPEND;
      writerIndex := CHEAP_PREPEND;
    }

    method Retrieve(len: nat)
      requires Valid() && len <= GetReadableBytes()
      modifies `readrIndex, `writerIndex
      ensures Valid() && Content() == old(Content())[len..]
    {
      if len < GetReadableBytes() {
        readrIndex := readrIndex + len;
      } else {
        RetrieveAll();
      }
    }

    method RetrieveAsString(len: nat) returns (res: seq<byte>)
      requires Valid() && len <= GetReadableBytes()
      modifies `readrIndex, `writerIndex
      ensures Valid() && res == old(Content())[..len] && Content() == old(Content())[len..]
    {
      res := buffer[readrIndex..readrIndex + len];
      Retrieve(len);
    }

    /** Makes room by growing, or by moving the readable bytes to the front: then the prependable part is
        larger than it need be, which is what the program asserts. */
    method MakeSpace(len: nat)
      requires Valid() && GetWritableBytes() < len
      modifies this
      ensures Valid() && Content() == old(Content()) && GetWritableBytes() >= len
      ensures old(GetPrependableBytes()) >= CHEAP_PREPEND ==> GetPrependableBytes() >= CHEAP_PREPEND
    {
      if GetWritableBytes() + GetPrependableBytes() < len + CHEAP_PREPEND {
        buffer := Resized(buffer, writerIndex + len);
      } else {
        assert CHEAP_PREPEND < readrIndex;
        var readableBytes := GetReadableBytes();
        buffer := Copied(buffer, CHEAP_PREPEND, buffer[readrIndex..writerIndex]);
        readrIndex := CHEAP_PREPEND;
        writerIndex := readrIndex + readableBytes;
        assert readableBytes == GetReadableBytes();
      }
    }

    method EnsureWritableBytes(len: nat)
      requires Valid()
      modifies this
      ensures Valid() && Content() == old(Content()) && GetWritableBytes() >= len
      ensures old(GetPrependableBytes()) >= CHEAP_PREPEND ==> GetPrependableBytes() >= CHEAP_PREPEND
      ensures old(GetWritableBytes()) >= len ==> unchanged(this)
    {
      if GetWritableBytes() < len {
        MakeSpace(len);
      }
    }

    method Append(data: seq<byte>)
      requires Valid()
      modifies this
      ensures Valid() && Content() == old(Content()) + data
      ensures old(GetPrependableBytes()) >= CHEAP_PREPEND ==> GetPrependableBytes() >= CHEAP_PREPEND
      ensures old(GetWritableBytes()) >= |data| ==> GetWritableBytes() == old(GetWritableBytes()) - |data|
    {
      EnsureWritableBytes(|data|);
      buffer := Copied(buffer, writerIndex, data);
      HasWritten(|data|);
    }

    method Prepend(data: seq<byte>)
      requires Valid() && |data| <= GetPrependableBytes()
      modifies this
      ensures Valid() && Content() == data + old(Content())
    {
      readrIndex := readrIndex - |data|;
      buffer := Copied(buffer, readrIndex, data);
    }

    method Swap(rhs: Buffer)
      requires Valid() && rhs.Valid()
      modifies this, rhs
      ensures Valid() && rhs.Valid() && Content() == old(rhs.Content()) && rhs.Content() == old(Content())
      ensures GetWritableBytes() == old(rhs.GetWritableBytes()) && rhs.GetWritableBytes() == old(GetWritableBytes())
    {
      buffer, rhs.buffer := rhs.buffer, buffer;
      readrIndex, rhs.readrIndex := rhs.readrIndex, readrIndex;
      writerIndex, rhs.writerIndex := rhs.writerIndex, writerIndex;
    }

    method Shrink(reserve: nat)
      requires Valid()
      modifies this
      ensures Valid() && Content() == old(Content())
      ensures GetWritableBytes() >= reserve
    {
      var other := new Buffer();
      var readableBytes := GetReadableBytes();
      other.EnsureWritableBytes(readableBytes + reserve);
      other.Append(buffer[readrIndex..writerIndex]);
      Swap(other);
    }

    // ----- integers, in network byte order

    method AppendInt(x: int, size: nat)
      requires Valid() && size > 0 && FitsSigned(x, size)
      modifies this
      ensures Valid() && Content() == old(Content()) + Encode(x, size)
    {
      Append(Encode(x, size));
    }

    method PeekInt(size: nat) returns (x: int)
      requires Valid() && 0 < size <= GetReadableBytes()
      ensures x == Decode(Content()[..size])
    {
      assert buffer[readrIndex..readrIndex + size] == Content()[..size];
      x := Decode(buffer[readrIndex..readrIndex + size]);
    }

    method ReadInt(size: nat) returns (x: int)
      requires Valid() && 0 < size <= GetReadableBytes()
      modifies `readrIndex, `writerIndex
      ensures Valid() && x == Decode(old(Content())[..size]) && Content() == old(Content())[size..]
    {
      x := PeekInt(size);
      Retrieve(size);
    }

    // ----- reading from a descriptor

    /** A read delivers no more than the room it is given. */
    predicate Delivers(input: ReadResult)
      requires Valid()
      reads this
    {
      input.Bytes? ==> |input.data| <= GetWritableBytes() + if GetWritableBytes() < EXTRA_SIZE then EXTRA_SIZE else 0
    }

    /** readv into the writable bytes and, if those are fewer than the spare block, into the spare block;
        input is what the call delivers, or Failed for an error. */
    method ReadFd(input: ReadResult) returns (n: int)
      requires Valid() && Delivers(input)
      modifies this
      ensures Valid()
      ensures input.Bytes? ==> n == |input.data| && Content() == old(Content()) + input.data
      ensures input.Failed? ==> n == -1 && Content() == old(Content())
    {
      var writableBytes := GetWritableBytes();
      match input
      case Failed => n := -1;
      case Bytes(data) =>
        n := |data|;
        if n <= writableBytes {
          buffer := Copied(buffer, writerIndex, data);
          writerIndex := writerIndex + n;
        } else {
          ghost var c := Content();
          CopiedFollows(buffer, readrIndex, writerIndex, data[..writableBytes]);
          buffer := Copied(buffer, writerIndex, data[..writableBytes]);
          writerIndex := |buffer|;
          assert Content() == c + data[..writableBytes];
          Append(data[writableBytes..]);
          assert data == data[..writableBytes] + data[writableBytes..];
        }
    }
  }

  // ----- whole runs

  /** What can be asked of a buffer. */
  datatype Use = Append(data: seq<byte>) | Retrieve(n: nat) | Prepend(data: seq<byte>) | Shrink(reserve: nat)
               | Read(input: ReadResult)

  /** What it does to the bytes taken out and the bytes left. */
  function Used(f: Fifo, use: Use): Fifo
  {
    match use
    case Append(data) => Apply(f, Put(data))
    case Retrieve(n) => Apply(f, Get(n))
    case Prepend(data) => f.(content := data + f.content)
    case Shrink(_) => f
    case Read(input) => if input.Bytes? then Apply(f, Put(input.data)) else f
  }

  function UsedAll(f: Fifo, uses: seq<Use>): Fifo
  {
    if uses == [] then f else Used(UsedAll(f, uses[..|uses| - 1]), uses[|uses| - 1])
  }

  /** The operation of a byte FIFO that it amounts to, if any. */
  function OpOf(use: Use): seq<Op>
  {
    match use
    case Append(data) => [Put(data)]
    case Retrieve(n) => [Get(n)]
    case Read(Bytes(data)) => [Put(data)]
    case _ => []
  }

  function OpsOf(uses: seq<Use>): seq<Op>
  {
    if uses == [] then [] else OpsOf(uses[..|uses| - 1]) + OpOf(uses[|uses| - 1])
  }

  /** Without prepending a buffer is a byte FIFO, whatever it is asked. */
  lemma {:induction false} UsesAreFifo(f: Fifo, uses: seq<Use>)
    requires forall i | 0 <= i < |uses| :: !uses[i].Prepend?
    ensures UsedAll(f, uses) == Run(f, OpsOf(uses))
  {
    hide Apply, Run;
    if uses == [] {
      RunNothing(f);
    } else {
      UsesAreFifo(f, uses[..|uses| - 1]);
      var ops, more := OpsOf(uses[..|uses| - 1]), OpOf(uses[|uses| - 1]);
      if more == [] {
        assert ops + [] == ops;
      } else {
        RunSnoc(f, ops, more[0]);
      }
    }
  }

  /** The program asserts that there is room to prepend, and a read delivers no more than it is given room for. */
  predicate Allowed(buf: Buffer, use: Use)
    requires buf.Valid()
    reads buf
  {
    match use
    case Prepend(data) => |data| <= buf.GetPrependableBytes()
    case Read(input) => buf.Delivers(input)
    case _ => true
  }

  /** Any run on a new buffer does what UsedAll says, up to the first use that is not allowed; done is how many come
      before that. */
  method Replay(initialSize: nat, uses: seq<Use>) returns (buf: Buffer, received: seq<byte>, done: nat)
    ensures buf.Valid() && done <= |uses| && (done < |uses| ==> !Allowed(buf, uses[done]))
    ensures Fifo(buf.Content(), received) == UsedAll(Fifo([], []), uses[..done])
  {
    buf := new Buffer(initialSize);
    received, done := [], 0;
    while done < |uses|
      invariant 0 <= done <= |uses| && buf.Valid() && fresh(buf)
      invariant Fifo(buf.Content(), received) == UsedAll(Fifo([], []), uses[..done])
    {
      assert uses[..done + 1][..done] == uses[..done];
      if !Allowed(buf, uses[done]) {
        return;
      }
      match uses[done] {
        case Append(data) => buf.Append(data);
        case Retrieve(n) =>
          if n <= buf.GetReadableBytes() {
            var res := buf.RetrieveAsString(n);
            received := received + res;
          }
        case Prepend(data) => buf.Prepend(data);
        case Shrink(reserve) => buf.Shrink(reserve);
        case Read(input) => var _ := buf.ReadFd(input);
      }
      done := done + 1;
    }
  }

  /** What a read call yields. */
  datatype ReadResult = Failed | Bytes(data: seq<byte>)

  /** An integer at the front of the content reads back as it was appended, and what follows it is left. */
  lemma ReadsBack(x: int, size: nat, rest: seq<byte>)
    requires size > 0 && FitsSigned(x, size)
    ensures Decode((Encode(x, size) + rest)[..size]) == x && (Encode(x, size) + rest)[size..] == rest
  {
    EncodeDecode(x, size);
    assert (Encode(x, size) + rest)[..size] == Encode(x, size);
  }
}
