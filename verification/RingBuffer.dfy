/** The ring buffer: the same bytes, kept in a circle above the first eight. */
module RingBuffers {
  import opened Buffers
  import opened ByteFifo
  import opened Bytes
  import opened Circles

  class RingBuffer {
    var buffer: seq<byte>
    var readrIndex: nat
    var writerIndex: nat
    var capacity: nat
    var totalSize: nat
    var hasData: bool

    /** The indices are folded, and those of an empty buffer are at the start of the circle. */
    predicate Valid()
      reads this
    {
      && |buffer| == totalSize == CHEAP_PREPEND + capacity && Bounded(buffer, readrIndex, writerIndex)
      && (!hasData ==> readrIndex == writerIndex == CHEAP_PREPEND)
    }

    /** What is handed out when everything is retrieved. */
    ghost function Content(): seq<byte>
      requires Valid()
      reads this
    {
      Held(buffer, hasData, readrIndex, writerIndex)
    }

    /** No index has been folded to before the circle. */
    predicate InCircle()
      reads this
    {
      CHEAP_PREPEND <= readrIndex && CHEAP_PREPEND <= writerIndex
    }

    /** The readable bytes do not lie in one stretch. */
    predicate IsRing()
      reads this
    {
      hasData && writerIndex <= readrIndex
    }

    /** An index moved on to sum would be folded to before the circle. */
    predicate Misfolds(sum: nat)
      reads this
    {
      capacity <= sum < totalSize
    }

    /** Moving the readable bytes to a new buffer that has room for len more would misfold its write index. */
    predicate MoveMisfolds(len: nat)
      requires Valid()
      reads this
    {
      var room := Max(INITIAL_SIZE, GetReadableBytes() + len);
      room <= CHEAP_PREPEND + GetReadableBytes() < CHEAP_PREPEND + room
    }

    /** The append of n bytes would misfold an index: its own, or one of those of the move that makes room. */
    predicate AppendMisfolds(n: nat)
      requires Valid()
      reads this
    {
      if n <= GetWritableBytes() then Misfolds(writerIndex + n)
      else IsRing() && (MoveMisfolds(n)
                        || INITIAL_SIZE - CHEAP_PREPEND <= GetReadableBytes() + n < INITIAL_SIZE)
    }

    /** The assertion that there is room for n bytes fails. */
    predicate RoomFails(n: nat)
      requires Valid()
      reads this
    {
      GetWritableBytes() < n && IsRing() && MoveMisfolds(n)
    }

    predicate RetrieveLoses(len: nat)
      requires Valid()
      reads this
    {
      len < GetReadableBytes() && DropLoses(buffer, readrIndex, writerIndex, len)
    }

    /** Without room the bytes are moved first, and lost only if they are one stretch that begins before the circle. */
    predicate AppendLoses(data: seq<byte>)
      requires Valid()
      reads this
    {
      if |data| <= GetWritableBytes() then
        RoomFits(|data|);
        WriteLoses(buffer, hasData, readrIndex, writerIndex, data)
      else !IsRing() && readrIndex < CHEAP_PREPEND
    }

    lemma RoomFits(n: nat)
      requires Valid() && n <= GetWritableBytes()
      ensures HasRoom(buffer, hasData, readrIndex, writerIndex, n)
    {
    }

    constructor (initialSize: nat := INITIAL_SIZE)
      requires initialSize > CHEAP_PREPEND
      ensures Valid() && !hasData && capacity == initialSize && buffer == Zeros(CHEAP_PREPEND + initialSize)
    {
      buffer := Zeros(CHEAP_PREPEND + initialSize);
      readrIndex, writerIndex := CHEAP_PREPEND, CHEAP_PREPEND;
      capacity, totalSize, hasData := initialSize, CHEAP_PREPEND + initialSize, false;
    }

    function GetReadableBytes(): (n: nat)
      requires Valid()
      reads this
      ensures n == |Content()|
    {
      if !hasData then 0
      else if writerIndex > readrIndex then writerIndex - readrIndex
      else capacity - (readrIndex - writerIndex)
    }

    /** What is kept free in front of the readable bytes: eight, as far as there are any; less than none if they begin
        before the circle. */
    function Gap(): int
      requires Valid()
      reads this
    {
      if !hasData then 0
      else if IsRing() then Min(CHEAP_PREPEND, capacity - GetReadableBytes())
      else if readrIndex < 2 * CHEAP_PREPEND then readrIndex - CHEAP_PREPEND
      else CHEAP_PREPEND
    }

    function GetWritableBytes(): (n: nat)
      requires Valid()
      reads this
      ensures n == capacity - GetReadableBytes() - Gap()
    {
      if !hasData then capacity
      else if writerIndex > readrIndex then
        totalSize - writerIndex + if readrIndex > 2 * CHEAP_PREPEND then readrIndex - 2 * CHEAP_PREPEND else 0
      else if readrIndex - writerIndex >= CHEAP_PREPEND then readrIndex - writerIndex - CHEAP_PREPEND
      else 0
    }

    method HasWritten(len: nat)
      requires Valid() && len <= GetWritableBytes()
      modifies `writerIndex, `hasData
      ensures Valid() && hasData == (old(hasData) || len > 0)
      ensures writerIndex == Fold(old(writerIndex) + len, capacity)
      ensures old(InCircle()) ==> (InCircle() <==> !old(Misfolds(writerIndex + len)))
    {
      Folds(writerIndex + len, capacity);
      if len > 0 {
        hasData := true;
      }
      writerIndex := writerIndex + len;
      writerIndex := writerIndex % capacity;
    }

    method RetrieveAll()
      requires Valid()
      modifies `readrIndex, `writerIndex, `hasData
      ensures Valid() && InCircle() && !hasData
    {
      readrIndex := CHEAP_PREPEND;
      writerIndex := CHEAP_PREPEND;
      hasData := false;
    }

    /** Drops the first len bytes. What is left is right exactly unless the read index is misfolded and the bytes found
        before the circle are other ones; a misfolded index is one before the circle. */
    method Retrieve(len: nat)
      requires Valid() && len <= GetReadableBytes()
      modifies `readrIndex, `writerIndex, `hasData
      ensures Valid() && (Content() == old(Content())[len..] <==> !old(RetrieveLoses(len)))
      ensures !(capacity <= old(readrIndex) + len < totalSize) ==> Content() == old(Content())[len..]
      ensures len == old(GetReadableBytes()) ==> !hasData && InCircle()
      ensures len < old(GetReadableBytes()) ==>
        hasData && writerIndex == old(writerIndex) && readrIndex == Fold(old(readrIndex) + len, capacity)
      ensures old(InCircle()) ==> (InCircle() <==> len == old(GetReadableBytes()) || !old(Misfolds(readrIndex + len)))
      ensures len < old(GetReadableBytes()) ==> GetReadableBytes() > 0
    {
      hide Between, DropLoses;
      if len < GetReadableBytes() {
        DropExact(buffer, readrIndex, writerIndex, len);
        if !Misfolds(readrIndex + len) {
          DropKeeps(buffer, readrIndex, writerIndex, len);
        }
        Folds(readrIndex + len, capacity);
        readrIndex := readrIndex + len;
        readrIndex := readrIndex % capacity;
      } else {
        RetrieveAll();
      }
    }

    method RetrieveAsString(len: nat) returns (res: seq<byte>)
      requires Valid() && len <= GetReadableBytes()
      modifies `readrIndex, `writerIndex, `hasData
      ensures res == old(Content())[..len]
      ensures Valid() && (Content() == old(Content())[len..] <==> !old(RetrieveLoses(len)))
      ensures !(capacity <= old(readrIndex) + len < totalSize) ==> Content() == old(Content())[len..]
      ensures len == old(GetReadableBytes()) ==> !hasData && InCircle()
      ensures len < old(GetReadableBytes()) ==>
        hasData && writerIndex == old(writerIndex) && readrIndex == Fold(old(readrIndex) + len, capacity)
      ensures old(InCircle()) ==> (InCircle() <==> len == old(GetReadableBytes()) || !old(Misfolds(readrIndex + len)))
    {
      hide Between, DropLoses;
      ghost var c := Content();
      if hasData {
        TakeFirst(buffer, readrIndex, writerIndex, len);
      }
      if writerIndex > readrIndex || readrIndex + len <= totalSize {
        res := buffer[readrIndex..readrIndex + len];
      } else {
        var firstPart := totalSize - readrIndex;
        res := buffer[readrIndex..readrIndex + firstPart];
        assert readrIndex + firstPart == |buffer| && buffer[readrIndex..|buffer|] == buffer[readrIndex..];
        res := res + buffer[CHEAP_PREPEND..CHEAP_PREPEND + (len - firstPart)];
      }
      assert res == c[..len];
      Retrieve(len);
      if GetReadableBytes() == 0 {
        hasData := false;
      }
    }

    /** Makes room for len bytes: by growing while the readable bytes are one stretch, else by moving them to a new
        buffer, which leaves no room at all exactly when the move misfolds. The content is kept in any case. */
    method MakeSpace(len: nat)
      requires Valid() && GetWritableBytes() < len
      modifies this
      ensures Valid() && Content() == old(Content()) && hasData == old(hasData)
      ensures GetWritableBytes() >= len <==> !old(IsRing() && MoveMisfolds(len))
      ensures !old(IsRing()) ==>
        totalSize == writerIndex + len && readrIndex == old(readrIndex) && writerIndex == old(writerIndex)
      ensures old(IsRing()) && !old(MoveMisfolds(len)) ==>
        && capacity == old(Max(INITIAL_SIZE, GetReadableBytes() + len)) && readrIndex == CHEAP_PREPEND
        && writerIndex == CHEAP_PREPEND + old(GetReadableBytes())
      decreases if IsRing() then 5 else 1
    {
      hide Resized, Between;
      if !hasData {
        buffer := Resized(buffer, CHEAP_PREPEND + len);
        readrIndex := CHEAP_PREPEND;
        writerIndex := CHEAP_PREPEND;
        totalSize := |buffer|;
        capacity := totalSize - CHEAP_PREPEND;
      } else if writerIndex > readrIndex {
        Stretch(buffer, readrIndex, writerIndex);
        Stretch(Resized(buffer, writerIndex + len), readrIndex, writerIndex);
        ResizedKeeps(buffer, readrIndex, writerIndex, writerIndex + len);
        buffer := Resized(buffer, writerIndex + len);
        totalSize := |buffer|;
        capacity := totalSize - CHEAP_PREPEND;
      } else {
        MoveOut(len);
      }
    }

    /** An empty buffer loses nothing that it has room for. */
    lemma EmptyTakes(data: seq<byte>)
      requires Valid() && !hasData && |data| <= capacity
      ensures !AppendLoses(data)
    {
    }

    /** Moves the content to a new buffer with room for reserve more; its write index may be misfolded. */
    method MoveOut(reserve: nat)
      requires Valid()
      modifies this
      ensures Valid() && Content() == old(Content()) && hasData == old(GetReadableBytes() > 0)
      ensures InCircle() <==> !old(MoveMisfolds(reserve))
      ensures capacity == old(Max(INITIAL_SIZE, GetReadableBytes() + reserve)) && readrIndex == CHEAP_PREPEND
      ensures writerIndex == Fold(CHEAP_PREPEND + old(GetReadableBytes()), capacity)
      decreases 4
    {
      hide WriteLoses, DropLoses, Between, Written;
      var other := new RingBuffer();
      var readableBytes := GetReadableBytes();
      var _ := other.EnsureWritableBytes(readableBytes + reserve);
      var str := RetrieveAsString(GetReadableBytes());
      assert |str| == readableBytes;
      other.EmptyTakes(str);
      var _ := other.Append(str);
      Swap(other);
    }

    /** Makes sure of room for len bytes; held tells whether the assertion at the end holds. */
    method EnsureWritableBytes(len: nat) returns (held: bool)
      requires Valid()
      modifies this
      ensures Valid() && Content() == old(Content()) && hasData == old(hasData)
      ensures held <==> !old(RoomFails(len))
      ensures held ==> GetWritableBytes() >= len
      ensures len <= old(GetWritableBytes()) ==> unchanged(this)
      ensures len > old(GetWritableBytes()) && !old(IsRing()) ==>
        totalSize == writerIndex + len && readrIndex == old(readrIndex) && writerIndex == old(writerIndex)
      ensures len > old(GetWritableBytes()) && old(IsRing()) && held ==>
        && capacity == old(Max(INITIAL_SIZE, GetReadableBytes() + len)) && readrIndex == CHEAP_PREPEND
        && writerIndex == CHEAP_PREPEND + old(GetReadableBytes())
      decreases if IsRing() then 6 else 2
    {
      if GetWritableBytes() < len {
        MakeSpace(len);
      }
      held := GetWritableBytes() >= len;
    }

    /** Copies the data to behind the readable bytes, in two pieces if they overlap the end of the vector. */
    method CopyIn(data: seq<byte>)
      requires Valid() && |data| <= GetWritableBytes()
      modifies `buffer
      ensures old(HasRoom(buffer, hasData, readrIndex, writerIndex, |data|))
      ensures buffer == old(Written(buffer, hasData, readrIndex, writerIndex, data))
    {
      hide Between, Copied;
      RoomFits(|data|);
      if writerIndex > readrIndex && writerIndex + |data| > totalSize {
        var firstPart := totalSize - writerIndex;
        buffer := Copied(buffer, writerIndex, data[..firstPart]);
        buffer := Copied(buffer, CHEAP_PREPEND, data[firstPart..]);
      } else {
        buffer := Copied(buffer, writerIndex, data);
      }
    }

    /** The end of Append, once there is room. */
    method Write(data: seq<byte>)
      requires Valid() && |data| <= GetWritableBytes()
      modifies `buffer, `writerIndex, `hasData
      ensures Valid() && (Content() == old(Content()) + data <==> !old(AppendLoses(data)))
      ensures old(InCircle()) ==> (InCircle() <==> !old(Misfolds(writerIndex + |data|)))
      ensures writerIndex == Fold(old(writerIndex) + |data|, capacity) && hasData == (old(hasData) || data != [])
      ensures old(HasRoom(buffer, hasData, readrIndex, writerIndex, |data|))
      ensures buffer == old(Written(buffer, hasData, readrIndex, writerIndex, data))
    {
      hide Between, Written, WriteLoses, HasRoom;
      RoomFits(|data|);
      WriteExact(buffer, hasData, readrIndex, writerIndex, data);
      CopyIn(data);
      HasWritten(|data|);
    }

    /** Appends the data: what is handed out afterwards has them at its end exactly unless AppendLoses tells otherwise,
        misfolded or not. Held is false when the assertion in EnsureWritableBytes ends the call, with nothing lost. */
    method Append(data: seq<byte>) returns (held: bool)
      requires Valid()
      modifies this
      ensures Valid() && (held <==> !old(RoomFails(|data|)))
      ensures held ==> (Content() == old(Content()) + data <==> !old(AppendLoses(data)))
      ensures !held ==> Content() == old(Content())
      ensures old(InCircle()) ==> (held && InCircle() <==> !old(AppendMisfolds(|data|)))
      ensures |data| <= old(GetWritableBytes()) ==>
        && capacity == old(capacity) && readrIndex == old(readrIndex)
        && writerIndex == Fold(old(writerIndex) + |data|, capacity) && hasData == (old(hasData) || data != [])
        && old(HasRoom(buffer, hasData, readrIndex, writerIndex, |data|))
        && buffer == old(Written(buffer, hasData, readrIndex, writerIndex, data))
      decreases if IsRing() then 7 else 3
    {
      hide Between, Written;
      held := EnsureWritableBytes(|data|);
      if held {
        Write(data);
      }
    }

    /** As long as no index is before the circle, an append loses nothing. */
    lemma InCircleAppends(data: seq<byte>)
      requires Valid() && InCircle()
      ensures !AppendLoses(data)
    {
      if |data| <= GetWritableBytes() {
        RoomFits(|data|);
        InCircleWrites(buffer, hasData, readrIndex, writerIndex, data);
      }
    }

    method Swap(rhs: RingBuffer)
      modifies this, rhs
      ensures buffer == old(rhs.buffer) && readrIndex == old(rhs.readrIndex) && writerIndex == old(rhs.writerIndex)
      ensures capacity == old(rhs.capacity) && totalSize == old(rhs.totalSize) && hasData == old(rhs.hasData)
      ensures rhs.buffer == old(buffer) && rhs.readrIndex == old(readrIndex) && rhs.writerIndex == old(writerIndex)
      ensures rhs.capacity == old(capacity) && rhs.totalSize == old(totalSize) && rhs.hasData == old(hasData)
    {
      buffer, rhs.buffer := rhs.buffer, buffer;
      readrIndex, rhs.readrIndex := rhs.readrIndex, readrIndex;
      writerIndex, rhs.writerIndex := rhs.writerIndex, writerIndex;
      capacity, rhs.capacity := rhs.capacity, capacity;
      hasData, rhs.hasData := rhs.hasData, hasData;
      totalSize, rhs.totalSize := rhs.totalSize, totalSize;
    }

    /** Keeps the content in a buffer with room for reserve more, whose write index may be misfolded. */
    method Shrink(reserve: nat)
      requires Valid()
      modifies this
      ensures Valid() && Content() == old(Content())
      ensures InCircle() <==> !old(MoveMisfolds(reserve))
      ensures capacity == old(Max(INITIAL_SIZE, GetReadableBytes() + reserve))
    {
      MoveOut(reserve);
    }
  }

  // ----- whole runs

  /** What became of a run: all of it was done, an assertion ended it, or bytes were lost. */
  datatype Outcome = Done | Stopped | Lost

  /** A run of appends and retrievals on a new buffer does what it does to a byte FIFO, misfolded indices and all, up to
      the first operation that loses bytes or fails the assertion that there is room; done is how many come before. */
  method Replay(initialSize: nat, ops: seq<Op>)
    returns (buf: RingBuffer, received: seq<byte>, done: nat, outcome: Outcome)
    requires initialSize > CHEAP_PREPEND
    ensures buf.Valid() && done <= |ops| && (outcome == Done <==> done == |ops|)
    ensures outcome != Lost ==> Fifo(buf.Content(), received) == Run(Fifo([], []), ops[..done])
    ensures outcome == Stopped ==> ops[done].Put? && buf.RoomFails(|ops[done].data|)
    ensures outcome == Lost ==> Fifo(buf.Content(), received) != Run(Fifo([], []), ops[..done + 1])
  {
    buf := new RingBuffer(initialSize);
    received, done, outcome := [], 0, Done;
    while done < |ops|
      invariant 0 <= done <= |ops| && buf.Valid() && fresh(buf) && outcome == Done
      invariant Fifo(buf.Content(), received) == Run(Fifo([], []), ops[..done])
    {
      assert ops[..done + 1] == ops[..done] + [ops[done]];
      RunSnoc(Fifo([], []), ops[..done], ops[done]);
      match ops[done] {
        case Put(data) =>
          if buf.RoomFails(|data|) {
            outcome := Stopped;
            return;
          }
          if buf.AppendLoses(data) {
            outcome := Lost;
          }
          var _ := buf.Append(data);
        case Get(n) =>
          if n <= buf.GetReadableBytes() {
            if buf.RetrieveLoses(n) {
              outcome := Lost;
            }
            var res := buf.RetrieveAsString(n);
            received := received + res;
          }
      }
      if outcome == Lost {
        return;
      }
      done := done + 1;
    }
    assert ops[..done] == ops;
  }

  /** Retrieving can lose bytes: 1024 go into a new buffer and all but eight are taken out; what is read next are the
      eight bytes in front of the circle, not the eight that are left. */
  method RetrieveExample(data: seq<byte>) returns (next: seq<byte>)
    requires |data| == INITIAL_SIZE
    ensures next == Zeros(CHEAP_PREPEND)
  {
    var buf := new RingBuffer();
    var _ := buf.Append(data);
    buf.Retrieve(INITIAL_SIZE - CHEAP_PREPEND);
    assert buf.readrIndex == 0 && buf.writerIndex == CHEAP_PREPEND;
    next := buf.RetrieveAsString(CHEAP_PREPEND);
  }

  /** Appending can: 1016 bytes go in, 100 are taken out, and eight more go in; these come back only if they are what
      the end of the vector happened to hold. */
  method AppendExample(data: seq<byte>, more: seq<byte>) returns (rest: seq<byte>)
    requires |data| == INITIAL_SIZE - CHEAP_PREPEND && |more| == CHEAP_PREPEND
    ensures rest == data[100..] + more <==> more == Zeros(CHEAP_PREPEND)
  {
    var buf := new RingBuffer();
    var _ := buf.Append(data);
    assert buf.Content() == data by { assert [] + data == data; }
    buf.Retrieve(100);
    assert buf.buffer[INITIAL_SIZE..] == Zeros(CHEAP_PREPEND);
    assert buf.AppendLoses(more) <==> more != Zeros(CHEAP_PREPEND) by {
      assert more[..CHEAP_PREPEND] == more;
      assert buf.buffer[INITIAL_SIZE..INITIAL_SIZE + CHEAP_PREPEND] == buf.buffer[INITIAL_SIZE..];
    }
    var _ := buf.Append(more);
    rest := buf.RetrieveAsString(buf.GetReadableBytes());
  }

  /** And an append of a single byte can fail the assertion although eight are free. */
  method RoomExample(data: seq<byte>, one: byte) returns (held: bool)
    requires |data| == INITIAL_SIZE - CHEAP_PREPEND
    ensures !held
  {
    var buf := new RingBuffer();
    var _ := buf.Append(data);
    assert buf.GetReadableBytes() + CHEAP_PREPEND == buf.capacity;
    held := buf.Append([one]);
  }
}
