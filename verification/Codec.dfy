/** Framing: messages behind a length header, and the decoder that takes a byte stream apart again. */
module Framing {
  import opened Bytes
  import opened Buffers

  const HEADER_LEN: nat := 4
  const MAX_MESSAGE: nat := 65536

  type Message = seq<byte>

  /** The size of a message as a 32-bit signed integer, which wraps round. */
  function ToInt32(size: nat): (x: int)
    ensures FitsSigned(x, HEADER_LEN)
    ensures size < 0x8000_0000 ==> x == size
  {
    (size + 0x8000_0000) % 0x1_0000_0000 - 0x8000_0000
  }

  /** A message as it is sent. */
  function Frame(msg: Message): seq<byte>
  {
    Encode(ToInt32(|msg|), HEADER_LEN) + msg
  }

  function Frames(msgs: seq<Message>): seq<byte>
  {
    if msgs == [] then [] else Frame(msgs[0]) + Frames(msgs[1..])
  }

  function Header(bytes: seq<byte>): int
    requires |bytes| >= HEADER_LEN
  {
    Decode(bytes[..HEADER_LEN])
  }

  predicate ValidLength(len: int)
  {
    0 <= len <= MAX_MESSAGE
  }

  /** What a call of the decoder does to the bytes in the buffer: the messages it hands over, the bytes it leaves, and
      whether it shuts the connection down. */
  datatype Decoded = Decoded(messages: seq<Message>, rest: seq<byte>, invalid: bool)

  function DecodeAll(bytes: seq<byte>): (d: Decoded)
    decreases |bytes|
  {
    if |bytes| < HEADER_LEN then Decoded([], bytes, false)
    else if !ValidLength(Header(bytes)) then Decoded([], bytes, true)
    else if |bytes| < HEADER_LEN + Header(bytes) then Decoded([], bytes, false)
    else
      var n := HEADER_LEN + Header(bytes);
      var d := DecodeAll(bytes[n..]);
      d.(messages := [bytes[HEADER_LEN..n]] + d.messages)
  }

  /** First what d hands over, then what e does. */
  function Then(d: Decoded, e: Decoded): Decoded
  {
    e.(messages := d.messages + e.messages)
  }

  /** The decoder takes off the message in front. */
  lemma DecodeFirst(msg: Message, bytes: seq<byte>)
    requires |bytes| >= HEADER_LEN && Header(bytes) == |msg| <= MAX_MESSAGE
    requires |bytes| >= HEADER_LEN + |msg| && bytes[HEADER_LEN..HEADER_LEN + |msg|] == msg
    ensures DecodeAll(bytes) == Then(Decoded([msg], [], false), DecodeAll(bytes[HEADER_LEN + |msg|..]))
  {
  }

  /** Or the bytes stay as they are. */
  lemma DecodeNone(bytes: seq<byte>)
    requires DecodeAll(bytes).messages == []
    ensures DecodeAll(bytes).rest == bytes
    ensures !DecodeAll(bytes).invalid ==>
      |bytes| < HEADER_LEN || (ValidLength(Header(bytes)) && |bytes| < HEADER_LEN + Header(bytes))
  {
  }

  /** Nothing is taken off an incomplete message or an invalid header. */
  lemma DecodeStops(bytes: seq<byte>)
    requires |bytes| < HEADER_LEN || !ValidLength(Header(bytes)) || |bytes| < HEADER_LEN + Header(bytes)
    ensures DecodeAll(bytes) == Decoded([], bytes, |bytes| >= HEADER_LEN && !ValidLength(Header(bytes)))
  {
  }

  lemma ThenAssociates(d: Decoded, e: Decoded, f: Decoded)
    ensures Then(d, Then(e, f)) == Then(Then(d, e), f)
  {
    assert d.messages + (e.messages + f.messages) == (d.messages + e.messages) + f.messages;
  }

  // ----- one stream, however it is cut

  /** Decoding what has come so far and going on with the rest is decoding it all at once. */
  lemma {:induction false} DecodeResumes(a: seq<byte>, b: seq<byte>)
    ensures DecodeAll(a + b) == Then(DecodeAll(a), DecodeAll(DecodeAll(a).rest + b))
    decreases |a|
  {
    hide Decode;
    var d := DecodeAll(a);
    var e := DecodeAll(d.rest + b);
    if d.messages == [] {
      DecodeNone(a);
      assert [] + e.messages == e.messages;
    } else {
      ResumesAfterFirst(a, b);
      DecodeResumes(a[HEADER_LEN + Header(a)..], b);
    }
  }

  lemma ResumesAfterFirst(a: seq<byte>, b: seq<byte>)
    requires |a| >= HEADER_LEN && ValidLength(Header(a)) && |a| >= HEADER_LEN + Header(a)
    ensures var n := HEADER_LEN + Header(a);
            var e := DecodeAll(DecodeAll(a[n..]).rest + b);
            DecodeAll(a[n..] + b) == Then(DecodeAll(a[n..]), e) ==> DecodeAll(a + b) == Then(DecodeAll(a), e)
  {
    hide Decode, DecodeAll, Then;
    var n := HEADER_LEN + Header(a);
    var msg := a[HEADER_LEN..n];
    assert (a + b)[..HEADER_LEN] == a[..HEADER_LEN];
    assert (a + b)[n..] == a[n..] + b;
    assert (a + b)[HEADER_LEN..n] == msg;
    DecodeFirst(msg, a);
    DecodeFirst(msg, a + b);
    ThenAssociates(Decoded([msg], [], false), DecodeAll(a[n..]), DecodeAll(DecodeAll(a[n..]).rest + b));
    RestOfThen(Decoded([msg], [], false), DecodeAll(a[n..]));
  }

  lemma RestOfThen(d: Decoded, e: Decoded)
    ensures Then(d, e).rest == e.rest
  {
  }

  function Flatten(chunks: seq<seq<byte>>): seq<byte>
  {
    if chunks == [] then [] else Flatten(chunks[..|chunks| - 1]) + chunks[|chunks| - 1]
  }

  /** Each chunk is appended to what the buffer holds, and the decoder is called. */
  function Feed(chunks: seq<seq<byte>>): (d: Decoded)
  {
    if chunks == [] then Decoded([], [], false)
    else
      var before := Feed(chunks[..|chunks| - 1]);
      var d := DecodeAll(before.rest + chunks[|chunks| - 1]);
      Then(before, d)
  }

  lemma {:induction false} ChunkingIrrelevant(chunks: seq<seq<byte>>)
    ensures Feed(chunks) == DecodeAll(Flatten(chunks))
  {
    if chunks != [] {
      ChunkingIrrelevant(chunks[..|chunks| - 1]);
      DecodeResumes(Flatten(chunks[..|chunks| - 1]), chunks[|chunks| - 1]);
    }
  }

  // ----- messages come back

  /** How many messages lie, with their headers, within the first n bytes of their frames. */
  function Completed(msgs: seq<Message>, n: nat): (k: nat)
    ensures k <= |msgs|
  {
    if msgs == [] || n < |Frame(msgs[0])| then 0 else 1 + Completed(msgs[1..], n - |Frame(msgs[0])|)
  }

  /** It is the largest number of messages whose frames fit into n bytes. */
  lemma {:induction false} CompletedIsMost(msgs: seq<Message>, n: nat, k: nat)
    requires k <= |msgs|
    ensures |Frames(msgs[..k])| <= n <==> k <= Completed(msgs, n)
  {
    if k > 0 {
      assert msgs[..k][0] == msgs[0] && msgs[..k][1..] == msgs[1..][..k - 1];
      if n >= |Frame(msgs[0])| {
        CompletedIsMost(msgs[1..], n - |Frame(msgs[0])|, k - 1);
      }
    }
  }

  lemma FrameHeader(msg: Message, bytes: seq<byte>)
    requires HEADER_LEN <= |bytes| && Frame(msg)[..HEADER_LEN] == bytes[..HEADER_LEN]
    ensures Header(bytes) == ToInt32(|msg|)
  {
    assert Frame(msg)[..HEADER_LEN] == Encode(ToInt32(|msg|), HEADER_LEN);
    EncodeDecode(ToInt32(|msg|), HEADER_LEN);
  }

  /** Of any part of the stream received, exactly the complete messages are decoded and the rest is kept. */
  lemma {:induction false} PrefixDecodes(msgs: seq<Message>, p: seq<byte>)
    requires forall m | m in msgs :: |m| <= MAX_MESSAGE
    requires p <= Frames(msgs)
    ensures var k := Completed(msgs, |p|);
            Frames(msgs[..k]) <= p && DecodeAll(p) == Decoded(msgs[..k], p[|Frames(msgs[..k])|..], false)
    decreases |msgs|
  {
    hide Decode, Encode;
    var k := Completed(msgs, |p|);
    if k == 0 {
      assert p[0..] == p;
      if msgs != [] && |p| >= HEADER_LEN {
        assert p == Frame(msgs[0])[..|p|];
        assert p[..HEADER_LEN] == Frame(msgs[0])[..HEADER_LEN];
        FrameHeader(msgs[0], p);
      }
    } else {
      PrefixDecodes(msgs[1..], p[|Frame(msgs[0])|..]);
      PrefixAfterFirst(msgs, p, k);
    }
  }

  lemma PrefixAfterFirst(msgs: seq<Message>, p: seq<byte>, k: nat)
    requires 0 < k <= |msgs| && |msgs[0]| <= MAX_MESSAGE && p <= Frames(msgs) && |Frame(msgs[0])| <= |p|
    ensures p[|Frame(msgs[0])|..] <= Frames(msgs[1..])
    ensures var f := |Frame(msgs[0])|;
            Frames(msgs[1..][..k - 1]) <= p[f..]
            && DecodeAll(p[f..]) == Decoded(msgs[1..][..k - 1], p[f..][|Frames(msgs[1..][..k - 1])|..], false) ==>
            Frames(msgs[..k]) <= p && DecodeAll(p) == Decoded(msgs[..k], p[|Frames(msgs[..k])|..], false)
  {
    hide Decode, Encode, DecodeAll, Header;
    var f := Frame(msgs[0]);
    assert p[..|f|] == f && p == f + p[|f|..];
    assert p[..HEADER_LEN] == f[..HEADER_LEN] && p[HEADER_LEN..|f|] == msgs[0];
    FrameHeader(msgs[0], p);
    DecodeFirst(msgs[0], p);
    assert msgs[..k][0] == msgs[0] && msgs[..k][1..] == msgs[1..][..k - 1];
    assert Frames(msgs[..k]) == f + Frames(msgs[1..][..k - 1]);
    if Frames(msgs[1..][..k - 1]) <= p[|f|..] {
      var g := Frames(msgs[1..][..k - 1]);
      assert p[|f|..][|g|..] == p[|f| + |g|..];
      assert f + g <= p;
      assert msgs[..k] == [msgs[0]] + msgs[1..][..k - 1];
    }
  }

  /** The decoder's promise: whatever the messages of at most 65536 bytes, and however their frames are cut into
      chunks, the callbacks so far are the messages that have come completely, in order, and the buffer holds the
      bytes after them. */
  lemma MessagesComeBack(msgs: seq<Message>, chunks: seq<seq<byte>>)
    requires forall m | m in msgs :: |m| <= MAX_MESSAGE
    requires Flatten(chunks) <= Frames(msgs)
    ensures var k := Completed(msgs, |Flatten(chunks)|);
            && Feed(chunks).messages == msgs[..k] && !Feed(chunks).invalid
            && Flatten(chunks) == Frames(msgs[..k]) + Feed(chunks).rest
  {
    ChunkingIrrelevant(chunks);
    PrefixDecodes(msgs, Flatten(chunks));
  }

  /** Once everything has come, every message has been handed over and nothing is left. */
  lemma AllMessagesComeBack(msgs: seq<Message>, chunks: seq<seq<byte>>)
    requires forall m | m in msgs :: |m| <= MAX_MESSAGE
    requires Flatten(chunks) == Frames(msgs)
    ensures Feed(chunks) == Decoded(msgs, [], false)
  {
    MessagesComeBack(msgs, chunks);
    CompletedIsMost(msgs, |Frames(msgs)|, |msgs|);
    assert msgs[..|msgs|] == msgs;
  }

  /** The sender does not check the size, so a message comes back exactly when it is not too long. */
  lemma FrameComesBackIff(msg: Message)
    ensures DecodeAll(Frame(msg)) == Decoded([msg], [], false) <==> |msg| <= MAX_MESSAGE
  {
    var f := Frame(msg);
    FrameHeader(msg, f);
    if |msg| <= MAX_MESSAGE {
      assert Frames([msg]) == f + [];
      AllMessagesComeBack([msg], [f]);
      ChunkingIrrelevant([f]);
      assert [f][..0] == [];
      assert Flatten([f]) == [] + f == f;
    } else if ValidLength(Header(f)) && |f| >= HEADER_LEN + Header(f) {
      assert |DecodeAll(f).messages[0]| == Header(f) < |msg|;
    }
  }

  // ----- the decoder, by the bytes alone

  /** The four bytes in front, most significant first. */
  function FirstFour(bytes: seq<byte>): nat
    requires |bytes| >= 4
  {
    bytes[0] as int * 16777216 + bytes[1] as int * 65536 + bytes[2] as int * 256 + bytes[3] as int
  }

  lemma FromFour(bs: seq<byte>)
    requires |bs| == 4
    ensures FromBigEndian(bs) == FirstFour(bs)
  {
    assert bs[..3][..2] == bs[..2] && bs[..2][..1] == bs[..1] && bs[..1][..0] == [];
    assert FromBigEndian(bs[..1]) == FromBigEndian([]) * 256 + bs[0] as int;
    assert FromBigEndian(bs[..2]) == FromBigEndian(bs[..1]) * 256 + bs[1] as int;
    assert FromBigEndian(bs[..3]) == FromBigEndian(bs[..2]) * 256 + bs[2] as int;
  }

  /** The header is those bytes as a signed integer, so a negative one reads as too large. */
  lemma HeaderRead(bytes: seq<byte>)
    requires |bytes| >= 4
    ensures var u := FirstFour(bytes); Header(bytes) == if u < 0x8000_0000 then u else u - 0x1_0000_0000
    ensures ValidLength(Header(bytes)) <==> FirstFour(bytes) <= 65536
  {
    FromFour(bytes[..4]);
    assert Power256(4) == 0x1_0000_0000 by {
      assert Power256(3) == 256 * Power256(2) && Power256(2) == 256 * Power256(1) && Power256(1) == 256 * Power256(0);
    }
  }

  /** The bytes of a frame: the length of the message in four bytes, and the message. */
  lemma FrameBytes(msg: Message)
    requires |msg| < 0x8000_0000
    ensures |Frame(msg)| == 4 + |msg| && Frame(msg)[4..] == msg && FirstFour(Frame(msg)) == |msg|
  {
    var f := Frame(msg);
    FrameHeader(msg, f);
    HeaderRead(f);
  }

  /** No further message can be taken off: the length or the message is incomplete, or the length is not valid. */
  predicate Stuck(rest: seq<byte>)
  {
    |rest| < 4 || FirstFour(rest) > 65536 || |rest| < 4 + FirstFour(rest)
  }

  predicate Refused(rest: seq<byte>)
  {
    |rest| >= 4 && FirstFour(rest) > 65536
  }

  /** What the decoder does to any bytes, whoever sent them: they are the frames of the messages handed over, none of
      them too long, and a rest no message can be taken off, and the connection is shut down exactly if the rest has a
      length that is not valid. There is only one such way to take the bytes apart. */
  lemma DecodedIff(bytes: seq<byte>, d: Decoded)
    ensures d == DecodeAll(bytes) <==>
            && bytes == Frames(d.messages) + d.rest && (forall m | m in d.messages :: |m| <= 65536)
            && Stuck(d.rest) && d.invalid == Refused(d.rest)
  {
    hide DecodeAll, Frames, Stuck, Refused;
    DecodedParts(bytes);
    if bytes == Frames(d.messages) + d.rest && (forall m | m in d.messages :: |m| <= 65536) && Stuck(d.rest)
       && d.invalid == Refused(d.rest) {
      PartsDecode(d.messages, d.rest);
      assert d == Decoded(d.messages, d.rest, d.invalid);
    }
  }

  lemma StuckDecodes(rest: seq<byte>)
    requires Stuck(rest)
    ensures DecodeAll(rest) == Decoded([], rest, Refused(rest))
  {
    hide Header, DecodeAll;
    if |rest| >= 4 {
      HeaderRead(rest);
    }
    DecodeStops(rest);
  }

  lemma PartsDecode(msgs: seq<Message>, rest: seq<byte>)
    requires Stuck(rest) && forall m | m in msgs :: |m| <= 65536
    ensures DecodeAll(Frames(msgs) + rest) == Decoded(msgs, rest, Refused(rest))
  {
    hide DecodeAll, Frames, Stuck, Refused;
    var f := Frames(msgs);
    PrefixDecodes(msgs, f);
    CompletedIsMost(msgs, |f|, |msgs|);
    assert msgs[..|msgs|] == msgs && f[|f|..] == [] && [] + rest == rest;
    DecodeResumes(f, rest);
    StuckDecodes(rest);
    assert msgs + [] == msgs;
  }

  lemma {:induction false} DecodedParts(bytes: seq<byte>)
    ensures var d := DecodeAll(bytes);
            && bytes == Frames(d.messages) + d.rest && (forall m | m in d.messages :: |m| <= 65536)
            && Stuck(d.rest) && d.invalid == Refused(d.rest)
    decreases |bytes|
  {
    hide Decode, DecodeAll, Frame, Frames, Refused;
    if |bytes| >= 4 {
      HeaderRead(bytes);
    }
    if Stuck(bytes) {
      StuckDecodes(bytes);
      assert Frames([]) == [] by { FramesNone(); }
    } else {
      var n := 4 + Header(bytes);
      DecodedParts(bytes[n..]);
      DecodeFirst(bytes[4..n], bytes);
      FrameOf(bytes, n);
      FramesMore(bytes[4..n], DecodeAll(bytes[n..]).messages, DecodeAll(bytes[n..]).rest);
      assert bytes == bytes[..n] + bytes[n..];
    }
  }

  lemma FramesNone()
    ensures Frames([]) == []
  {
  }

  lemma FramesMore(msg: Message, msgs: seq<Message>, rest: seq<byte>)
    ensures Frames([msg] + msgs) + rest == Frame(msg) + (Frames(msgs) + rest)
  {
    hide Frame;
    assert ([msg] + msgs)[1..] == msgs;
  }

  lemma FrameOf(bytes: seq<byte>, n: nat)
    requires 4 <= n <= |bytes| && Header(bytes) == n - 4 <= MAX_MESSAGE
    ensures Frame(bytes[4..n]) == bytes[..n]
  {
    DecodeEncode(bytes[..4]);
    assert bytes[..n] == bytes[..4] + bytes[4..n];
  }

  // ----- the program

  class LengthHeaderCodec {
    /** The messages handed to the callback. */
    var delivered: seq<Message>

    constructor ()
      ensures delivered == []
    {
      delivered := [];
    }

    method DecodeBuffer(buf: Buffer) returns (shutdown: bool)
      requires buf.Valid()
      modifies this, buf
      ensures buf.Valid()
      ensures var d := DecodeAll(old(buf.Content()));
              delivered == old(delivered) + d.messages && buf.Content() == d.rest && shutdown == d.invalid
    {
      hide DecodeAll, Decode;
      shutdown := false;
      ghost var start, all := delivered, DecodeAll(buf.Content());
      while buf.GetReadableBytes() >= HEADER_LEN
        invariant buf.Valid() && !shutdown
        invariant Then(Decoded(delivered, [], false), DecodeAll(buf.Content())) == Then(Decoded(start, [], false), all)
        decreases |buf.Content()|
      {
        ghost var c := buf.Content();
        var len := buf.PeekInt(HEADER_LEN);
        assert len == Header(c);
        if len > MAX_MESSAGE || len < 0 {
          shutdown := true;
          break;
        } else if buf.GetReadableBytes() >= len + HEADER_LEN {
          buf.Retrieve(HEADER_LEN);
          var message := buf.buffer[buf.readrIndex..buf.readrIndex + len];
          assert message == buf.Content()[..len] == c[HEADER_LEN..HEADER_LEN + len];
          delivered := delivered + [message];
          buf.Retrieve(len);
          assert buf.Content() == c[HEADER_LEN + len..];
          DecodeFirst(message, c);
          ThenAssociates(Decoded(delivered[..|delivered| - 1], [], false), Decoded([message], [], false),
                         DecodeAll(buf.Content()));
        } else {
          break;
        }
      }
      DecodeStops(buf.Content());
      assert delivered + [] == delivered;
    }

    /** The buffer that is sent for a message. */
    method Wrap(msg: Message) returns (buf: Buffer)
      ensures fresh(buf) && buf.Valid() && buf.Content() == Frame(msg)
    {
      buf := new Buffer();
      buf.Append(msg);
      var len := ToInt32(|msg|);
      buf.Prepend(Encode(len, HEADER_LEN));
      assert [] + msg == msg;
    }
  }

  /** Chunks appended to a buffer and decoded one by one: what the connection's loop does. */
  method Receive(codec: LengthHeaderCodec, chunks: seq<seq<byte>>) returns (buf: Buffer, shutdown: bool)
    modifies codec
    ensures fresh(buf) && buf.Valid()
    ensures codec.delivered == old(codec.delivered) + Feed(chunks).messages
    ensures buf.Content() == Feed(chunks).rest && shutdown == Feed(chunks).invalid
  {
    hide DecodeAll;
    buf := new Buffer();
    shutdown := false;
    assert chunks[..|chunks|] == chunks;
    var i := 0;
    while i < |chunks|
      invariant i <= |chunks| && buf.Valid() && fresh(buf)
      invariant codec.delivered == old(codec.delivered) + Feed(chunks[..i]).messages
      invariant buf.Content() == Feed(chunks[..i]).rest && shutdown == Feed(chunks[..i]).invalid
    {
      assert chunks[..i + 1][..i] == chunks[..i];
      buf.Append(chunks[i]);
      shutdown := codec.DecodeBuffer(buf);
      i := i + 1;
    }
  }
}
