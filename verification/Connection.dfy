/** The life of a TCP connection, as the loop thread that owns it drives it. */
module Connections {
  import Buffers
  import opened Bytes
  import opened Polling

  datatype Status = Connecting | Connected | Disconnecting | Disconnected

  function Rank(s: Status): nat
  {
    match s
    case Connecting => 0
    case Connected => 1
    case Disconnecting => 2
    case Disconnected => 3
  }

  /** What the rest of the world sees of a connection: bytes taken by the socket, its write side shut down, a message
      given up on a broken connection, and the user's connection callback run up and down. */
  datatype Effect = Wrote(data: seq<byte>) | ShutWrite | Dropped | Up | Down

  /** A message that send was given while the connection was up, and whether it was given up on a broken connection. */
  datatype Message = Message(data: seq<byte>, dropped: bool)

  /** The bytes of the messages that were not given up, in order. */
  function Kept(messages: seq<Message>): seq<byte>
  {
    if messages == [] then []
    else
      var last := messages[|messages| - 1];
      Kept(messages[..|messages| - 1]) + if last.dropped then [] else last.data
  }

  /** The bytes of all messages. */
  function Sent(messages: seq<Message>): seq<byte>
  {
    if messages == [] then [] else Sent(messages[..|messages| - 1]) + messages[|messages| - 1].data
  }

  predicate HasDropped(messages: seq<Message>)
  {
    exists i :: 0 <= i < |messages| && messages[i].dropped
  }

  /** A connection: its state, the effects so far, and what is queued for it on the loops. Messages is what send was
      given while the connection was up. Aborted is set when an assertion of the program fails. */
  datatype Conn = Conn(
    status: Status,
    mask: Mask,
    output: seq<byte>,
    messages: seq<Message>,
    log: seq<Effect>,
    inMap: bool,
    removed: bool,
    establishing: nat,
    closing: nat,
    removing: nat,
    destroying: nat,
    aborted: bool)

  /** Accepted by the server: put into its map, and connectEstablished queued. */
  const ACCEPTED: Conn := Conn(Connecting, NONE_EVENT, [], [], [], true, false, 1, 0, 0, 0, false)

  /** What write returns, at most n bytes or an error; Broken is EPIPE or ECONNRESET. */
  datatype WriteResult = Took(n: nat) | WouldBlock | Failed | Broken

  /** What the user's code calls, on the loop thread, from a callback or at any other time. */
  datatype Call = Send(data: seq<byte>, result: WriteResult) | Shutdown | ForceClose

  predicate IsWriting(c: Conn) { OUT in c.mask }

  predicate IsOpen(c: Conn) { c.status == Connected || c.status == Disconnecting }

  // ----- sending

  /** The write call takes a front part of the data. */
  function Write(c: Conn, data: seq<byte>): Conn
  {
    if data == [] then c else c.(log := c.log + [Wrote(data)])
  }

  function Keep(c: Conn, data: seq<byte>): Conn
  {
    if data == [] then c else c.(output := c.output + data, mask := c.mask + WRITE_EVENT)
  }

  function SendInLoop(c: Conn, data: seq<byte>, result: WriteResult): Conn
  {
    if c.status == Disconnected then c
    else if !IsWriting(c) && c.output == [] then
      match result
      case Took(n) => var k := if n <= |data| then n else |data|; Keep(Write(c, data[..k]), data[k..])
      case Broken => c.(log := c.log + [Dropped])
      case _ => Keep(c, data)
    else Keep(c, data)
  }

  /** The write call is made, and finds the connection broken. */
  predicate Drops(c: Conn, result: WriteResult)
  {
    !IsWriting(c) && c.output == [] && result == Broken
  }

  function DoSend(c: Conn, data: seq<byte>, result: WriteResult): Conn
  {
    if c.status == Connected then
      SendInLoop(c.(messages := c.messages + [Message(data, Drops(c, result))]), data, result)
    else c
  }

  function ShutdownInLoop(c: Conn): Conn
  {
    if IsWriting(c) then c else c.(log := c.log + [ShutWrite])
  }

  function DoShutdown(c: Conn): Conn
  {
    if c.status == Connected then ShutdownInLoop(c.(status := Disconnecting)) else c
  }

  function DoForceClose(c: Conn): Conn
  {
    if IsOpen(c) then c.(status := Disconnecting, closing := c.closing + 1) else c
  }

  function DoCall(c: Conn, call: Call): Conn
  {
    match call
    case Send(data, result) => DoSend(c, data, result)
    case Shutdown => DoShutdown(c)
    case ForceClose => DoForceClose(c)
  }

  /** A callback of the user's that makes these calls. */
  function DoCalls(c: Conn, calls: seq<Call>): Conn
    decreases |calls|
  {
    if calls == [] then c else DoCall(DoCalls(c, calls[..|calls| - 1]), calls[|calls| - 1])
  }

  // ----- events

  function HandleWrite(c: Conn, result: WriteResult): Conn
  {
    if IsWriting(c) && result.Took? && result.n > 0 && c.output != [] then
      var k := if result.n <= |c.output| then result.n else |c.output|;
      var d := Write(c, c.output[..k]).(output := c.output[k..]);
      if d.output != [] then d
      else
        var e := d.(mask := d.mask - WRITE_EVENT);
        if e.status == Disconnecting then ShutdownInLoop(e) else e
    else c
  }

  /** Closes the connection; the user's callback makes calls, and the server is asked to remove the connection. */
  function HandleClose(c: Conn, calls: seq<Call>): Conn
  {
    if IsOpen(c) then
      var d := DoCalls(c.(status := Disconnected, mask := NONE_EVENT, log := c.log + [Down]), calls);
      d.(removing := d.removing + 1)
    else c.(aborted := true)
  }

  /** No bytes are read at the end of the stream. */
  function HandleRead(c: Conn, input: Buffers.ReadResult, calls: seq<Call>): Conn
  {
    match input
    case Failed => c
    case Bytes(data) => if data != [] then DoCalls(c, calls) else HandleClose(c, calls)
  }

  /** What arrives with an event: its mask, the results of the read and write calls, and the calls that the user's
      callbacks make on closing and on reading. */
  datatype Event = Event(
    mask: Mask,
    input: Buffers.ReadResult,
    result: WriteResult,
    onClose: seq<Call>,
    onRead: seq<Call>)

  predicate EndOfStream(input: Buffers.ReadResult)
  {
    input.Bytes? && input.data == []
  }

  predicate HangsUp(e: Event)
  {
    HUP in e.mask && IN !in e.mask
  }

  predicate Reads(e: Event)
  {
    e.mask * {IN, PRI, RDHUP} != {}
  }

  /** The connection is found closed twice in one dispatch. */
  predicate ClosesTwice(e: Event)
  {
    HangsUp(e) && Reads(e) && EndOfStream(e.input)
  }

  function HandleEvent(c: Conn, e: Event): Conn
  {
    var d := if HangsUp(e) then HandleClose(c, e.onClose) else c;
    var f := if Reads(e) then HandleRead(d, e.input, e.onRead) else d;
    if OUT in e.mask then HandleWrite(f, e.result) else f
  }

  // ----- what the loops run

  function ConnectEstablished(c: Conn, calls: seq<Call>): Conn
  {
    if c.status == Connecting then
      DoCalls(c.(status := Connected, mask := c.mask + READ_EVENT, log := c.log + [Up]), calls)
    else c.(aborted := true)
  }

  function ForceCloseInLoop(c: Conn, calls: seq<Call>): Conn
  {
    if IsOpen(c) then HandleClose(c, calls) else c
  }

  /** The channel is removed; the program asserts that its mask is empty. */
  function ConnectDestroyed(c: Conn, calls: seq<Call>): Conn
  {
    var d :=
      if c.status == Connected then
        DoCalls(c.(status := Disconnected, mask := NONE_EVENT, log := c.log + [Down]), calls)
      else c;
    if d.mask == NONE_EVENT && !d.removed then d.(removed := true) else d.(aborted := true)
  }

  /** The server erases the entry, and asserts that there was one; the connection's loop destroys it. */
  function RemoveConnection(c: Conn): Conn
  {
    if c.inMap then c.(inMap := false, destroying := c.destroying + 1) else c.(aborted := true)
  }

  datatype Step =
    | Calls(call: Call)
    | Dispatch(event: Event)
    | RunEstablish(calls: seq<Call>)
    | RunForceClose(calls: seq<Call>)
    | RunRemove
    | RunDestroy(calls: seq<Call>)

  /** The kernel reports an event only while the channel is registered, and of the flags only those registered, errors
      and hangups; between the wait and the dispatch nothing takes registered flags away. A queued function is run only
      if it was queued. */
  predicate Enabled(c: Conn, s: Step)
  {
    match s
    case Calls(_) => true
    case Dispatch(event) => c.mask != NONE_EVENT && event.mask <= c.mask + {ERR, HUP}
    case RunEstablish(_) => c.establishing > 0
    case RunForceClose(_) => c.closing > 0
    case RunRemove => c.removing > 0
    case RunDestroy(_) => c.destroying > 0
  }

  function Next(c: Conn, s: Step): Conn
    requires Enabled(c, s)
  {
    match s
    case Calls(call) => DoCall(c, call)
    case Dispatch(event) => HandleEvent(c, event)
    case RunEstablish(calls) => ConnectEstablished(c.(establishing := c.establishing - 1), calls)
    case RunForceClose(calls) => ForceCloseInLoop(c.(closing := c.closing - 1), calls)
    case RunRemove => RemoveConnection(c.(removing := c.removing - 1))
    case RunDestroy(calls) => ConnectDestroyed(c.(destroying := c.destroying - 1), calls)
  }

  /** A step that does not have the connection found closed twice. */
  predicate Sound(s: Step)
  {
    s.Dispatch? ==> !ClosesTwice(s.event)
  }

  /** The states of a run, from the accepted connection on. */
  predicate IsRun(states: seq<Conn>, steps: seq<Step>)
  {
    && |states| == |steps| + 1 && states[0] == ACCEPTED
    && forall i | 0 <= i < |steps| :: Enabled(states[i], steps[i]) && states[i + 1] == Next(states[i], steps[i])
  }

  // ----- what is observed

  /** The bytes that the socket took. */
  function Wire(log: seq<Effect>): seq<byte>
  {
    if log == [] then []
    else
      var last := log[|log| - 1];
      Wire(log[..|log| - 1]) + if last.Wrote? then last.data else []
  }

  function Count(log: seq<Effect>, e: Effect): nat
  {
    multiset(log)[e]
  }

  /** Nothing is written after the write side is shut down. */
  predicate SilentAfterShut(log: seq<Effect>)
  {
    forall i, j | 0 <= i < j < |log| :: log[i] == ShutWrite ==> !log[j].Wrote?
  }

  /** The up callback comes first, and both come once at most. */
  predicate UpBeforeDown(log: seq<Effect>)
  {
    && (forall i | 0 <= i < |log| :: log[i] == Up <==> i == 0)
    && (forall i, j | 0 <= i < j < |log| :: !(log[i] == Down && log[j] == Down))
  }
}
