/** What each call and each event does to a connection, and which messages a run has sent, told from its steps alone. */
module ConnectionEffects {
  import Buffers
  import opened Bytes
  import opened Polling
  import opened Connections
  import opened Lifecycle

  function Min(x: nat, y: nat): nat { if x < y then x else y }

  // ----- calls

  /** A send on a connected connection. If nothing is buffered and the channel does not wait to write, the socket takes
      a front part of the data, the rest is buffered and waited for, or all of it is given up if the connection is
      broken; otherwise all of the data goes behind what is buffered. A send on any other connection does nothing. */
  lemma SendMeans(c: Conn, data: seq<byte>, result: WriteResult)
    ensures c.status != Connected ==> DoSend(c, data, result) == c
    ensures c.status == Connected ==>
      var d := DoSend(c, data, result);
      var idle := OUT !in c.mask && c.output == [];
      var taken := if idle && result.Took? then Min(result.n, |data|) else 0;
      var broken := idle && result == Broken;
      && d.log == c.log + (if broken then [Dropped] else if taken > 0 then [Wrote(data[..taken])] else [])
      && d.output == c.output + (if broken then [] else data[taken..])
      && d.mask == c.mask + (if !broken && taken < |data| then {OUT} else {})
      && d.messages == c.messages + [Message(data, broken)] && d.status == Connected
  {
    if c.status == Connected {
      var s := c.(messages := c.messages + [Message(data, Drops(c, result))]);
      SendInLoopMeans(s, data, result);
    }
  }

  lemma SendInLoopMeans(c: Conn, data: seq<byte>, result: WriteResult)
    requires c.status != Disconnected
    ensures var d := SendInLoop(c, data, result);
            var idle := OUT !in c.mask && c.output == [];
            var taken := if idle && result.Took? then Min(result.n, |data|) else 0;
            var broken := idle && result == Broken;
            d == c.(log := c.log + if broken then [Dropped] else if taken > 0 then [Wrote(data[..taken])] else [],
                    output := c.output + if broken then [] else data[taken..],
                    mask := c.mask + if !broken && taken < |data| then {OUT} else {})
  {
    assert c.log + [] == c.log && c.output + [] == c.output && data[0..] == data && c.mask + {} == c.mask;
    if !IsWriting(c) && c.output == [] && result.Took? {
      assert data[..0] == [] && data[|data|..] == [];
    }
  }

  /** What the socket has taken and what is buffered together grow by exactly the data, or, given up, not at all. */
  lemma SendAdds(c: Conn, data: seq<byte>, result: WriteResult)
    requires c.status == Connected
    ensures var d := DoSend(c, data, result);
            Wire(d.log) + d.output ==
              Wire(c.log) + c.output + if OUT !in c.mask && c.output == [] && result == Broken then [] else data
  {
    hide Wire, DoSend;
    var d := DoSend(c, data, result);
    SendMeans(c, data, result);
    var idle := OUT !in c.mask && c.output == [];
    var taken := if idle && result.Took? then Min(result.n, |data|) else 0;
    assert data == data[..taken] + data[taken..];
    if idle && result == Broken {
      WireAppend(c.log, Dropped);
      assert Wire(c.log) + [] == Wire(c.log);
    } else if taken > 0 {
      WireAppend(c.log, Wrote(data[..taken]));
      assert Wire(c.log) + [] + data == Wire(c.log) + data[..taken] + ([] + data[taken..]);
    } else {
      assert c.log + [] == c.log && data[0..] == data;
      assert Wire(c.log) + (c.output + data) == Wire(c.log) + c.output + data;
    }
  }

  /** Shutting down a connected connection: the write side at once, unless the channel waits to write. */
  lemma ShutdownMeans(c: Conn)
    ensures c.status != Connected ==> DoShutdown(c) == c
    ensures c.status == Connected ==>
      DoShutdown(c) == c.(status := Disconnecting, log := c.log + if OUT in c.mask then [] else [ShutWrite])
  {
    assert c.log + [] == c.log;
  }

  /** A forced close of an open connection is queued, and when it is run the connection is closed, unless it has been
      closed in the meantime. */
  lemma ForceCloseMeans(c: Conn, calls: seq<Call>)
    requires Inv(c)
    ensures !IsOpen(c) ==> DoForceClose(c) == c
    ensures IsOpen(c) ==>
      && DoForceClose(c) == c.(status := Disconnecting, closing := c.closing + 1)
      && Enabled(DoForceClose(c), RunForceClose(calls))
    ensures c.closing > 0 && IsOpen(c) ==>
      var d := Next(c, RunForceClose(calls));
      d.status == Disconnected && d.log == c.log + [Down] && d.mask == {} && d.removing == 1 && d.output == c.output
    ensures c.closing > 0 && c.status == Disconnected ==>
      Next(c, RunForceClose(calls)) == c.(closing := c.closing - 1)
  {
    if c.closing > 0 && IsOpen(c) {
      CloseMeans(c.(closing := c.closing - 1), calls);
    }
  }

  lemma CloseMeans(c: Conn, calls: seq<Call>)
    requires IsOpen(c)
    ensures HandleClose(c, calls) ==
      c.(status := Disconnected, mask := {}, log := c.log + [Down], removing := c.removing + 1)
  {
    ClosedIgnores(c.(status := Disconnected, mask := NONE_EVENT, log := c.log + [Down]), calls);
  }

  // ----- events

  /** A writable socket takes a front part of what is buffered; when nothing is left, the channel stops waiting, and a
      shutdown that was put off is carried out. */
  lemma WriteMeans(c: Conn, result: WriteResult)
    ensures OUT in c.mask && c.output != [] && result.Took? && result.n > 0 ==>
      var d := HandleWrite(c, result);
      var taken := Min(result.n, |c.output|);
      var shut := taken == |c.output| && c.status == Disconnecting;
      && d.log == c.log + [Wrote(c.output[..taken])] + (if shut then [ShutWrite] else [])
      && d.output == c.output[taken..] && d.status == c.status && d.messages == c.messages
      && d.mask == if taken == |c.output| then c.mask - {OUT} else c.mask
    ensures !(OUT in c.mask && c.output != [] && result.Took? && result.n > 0) ==> HandleWrite(c, result) == c
  {
    var taken := if result.Took? then Min(result.n, |c.output|) else 0;
    assert c.log + [Wrote(c.output[..taken])] + [] == c.log + [Wrote(c.output[..taken])];
  }

  /** The event closes the connection: a hangup without input, or input that is the end of the stream. */
  predicate Closes(e: Event)
  {
    || (HUP in e.mask && IN !in e.mask)
    || ((IN in e.mask || PRI in e.mask || RDHUP in e.mask) && e.input == Buffers.Bytes([]))
  }

  /** The event brings bytes, and the user's callback is run on them. */
  predicate BringsBytes(e: Event)
  {
    (IN in e.mask || PRI in e.mask || RDHUP in e.mask) && e.input.Bytes? && e.input.data != []
  }

  lemma ReadsIff(e: Event)
    ensures Reads(e) <==> IN in e.mask || PRI in e.mask || RDHUP in e.mask
  {
    if f :| f in e.mask * {IN, PRI, RDHUP} {
    }
    assert IN in e.mask ==> IN in e.mask * {IN, PRI, RDHUP};
    assert PRI in e.mask ==> PRI in e.mask * {IN, PRI, RDHUP};
    assert RDHUP in e.mask ==> RDHUP in e.mask * {IN, PRI, RDHUP};
  }

  /** A dispatch to an open connection: it is closed; or the calls made on the bytes read are carried out, and then, if
      the socket is writable, what is buffered is written. */
  lemma DispatchMeans(c: Conn, e: Event)
    requires IsOpen(c)
    ensures Closes(e) ==>
      var d := HandleEvent(c, e);
      && d.status == Disconnected && d.mask == {} && d.log == c.log + [Down] && d.removing == c.removing + 1
      && d.output == c.output && d.messages == c.messages
    ensures !Closes(e) ==>
      var f := if BringsBytes(e) then DoCalls(c, e.onRead) else c;
      HandleEvent(c, e) == if OUT in e.mask then HandleWrite(f, e.result) else f
  {
    hide Reads, DoCalls;
    ReadsIff(e);
    if Closes(e) {
      var calls := if HangsUp(e) then e.onClose else e.onRead;
      CloseMeans(c, calls);
      var d := HandleClose(c, calls);
      ClosedIgnores(d, e.onRead);
    }
  }

  /** An accepted connection is connected and reading once it is established, and the up callback is run. */
  lemma EstablishMeans(calls: seq<Call>)
    ensures Enabled(ACCEPTED, RunEstablish(calls))
    ensures Next(ACCEPTED, RunEstablish(calls)) ==
      DoCalls(ACCEPTED.(status := Connected, mask := {IN, PRI}, log := [Up], establishing := 0), calls)
  {
    assert ACCEPTED.mask + READ_EVENT == {IN, PRI} && [] + [Up] == [Up];
  }

  /** A closed connection is taken out of the server's table once, and then its channel is removed. */
  lemma TeardownMeans(c: Conn, calls: seq<Call>)
    requires Inv(c)
    ensures c.removing > 0 ==> Next(c, RunRemove) == c.(removing := 0, inMap := false, destroying := 1)
    ensures c.destroying > 0 ==> Next(c, RunDestroy(calls)) == c.(destroying := 0, removed := true)
  {
    hide LogFits, Wire;
    LogEmpty(c);
  }

  // ----- what was sent

  /** None of the calls shuts the connection down or closes it. */
  predicate StaysConnected(calls: seq<Call>)
  {
    forall i | 0 <= i < |calls| :: calls[i].Send?
  }

  /** The messages that calls on a connected connection send: those before the first other call. */
  function SentBy(calls: seq<Call>): seq<seq<byte>>
  {
    if calls == [] then []
    else
      var n := |calls| - 1;
      SentBy(calls[..n]) + if calls[n].Send? && StaysConnected(calls[..n]) then [calls[n].data] else []
  }

  /** The messages that a step sends, from the status before it: those of the user's calls, made at that time or in a
      callback that is run while the connection is connected. */
  function SentIn(status: Status, s: Step): seq<seq<byte>>
  {
    match s
    case Calls(call) => if status == Connected then SentBy([call]) else []
    case Dispatch(e) => if status == Connected && !Closes(e) && BringsBytes(e) then SentBy(e.onRead) else []
    case RunEstablish(calls) => SentBy(calls)
    case _ => []
  }

  function SentOver(states: seq<Conn>, steps: seq<Step>): seq<seq<byte>>
    requires |steps| < |states|
    decreases |steps|
  {
    if steps == [] then []
    else
      var n := |steps| - 1;
      SentOver(states, steps[..n]) + SentIn(states[n].status, steps[n])
  }

  function DataOf(messages: seq<Message>): seq<seq<byte>>
  {
    seq(|messages|, i requires 0 <= i < |messages| => messages[i].data)
  }

  function Joined(parts: seq<seq<byte>>): seq<byte>
  {
    if parts == [] then [] else Joined(parts[..|parts| - 1]) + parts[|parts| - 1]
  }

  lemma CallStatus(c: Conn, call: Call)
    ensures c.status == Connected ==>
      DoCall(c, call).status == if call.Send? then Connected else Disconnecting
    ensures c.status != Connected ==>
      DoCall(c, call).status == c.status && DoCall(c, call).messages == c.messages
    ensures !call.Send? ==> DoCall(c, call).messages == c.messages
  {
    if call.Send? {
      SendMeans(c, call.data, call.result);
    }
  }

  lemma {:induction false} CallsSend(c: Conn, calls: seq<Call>)
    requires c.status == Connected
    ensures var d := DoCalls(c, calls);
            && DataOf(d.messages) == DataOf(c.messages) + SentBy(calls)
            && d.status == if StaysConnected(calls) then Connected else Disconnecting
    decreases |calls|
  {
    hide DoCall;
    if calls == [] {
      assert DataOf(c.messages) + [] == DataOf(c.messages);
    } else {
      var n := |calls| - 1;
      var before := DoCalls(c, calls[..n]);
      CallsSend(c, calls[..n]);
      CallStatus(before, calls[n]);
      assert StaysConnected(calls) <==> StaysConnected(calls[..n]) && calls[n].Send? by {
        assert calls == calls[..n] + [calls[n]];
      }
      if calls[n].Send? && StaysConnected(calls[..n]) {
        OneSent(before, calls[n]);
        assert DataOf(c.messages) + SentBy(calls[..n]) + [calls[n].data] == DataOf(c.messages) + SentBy(calls);
      } else {
        assert SentBy(calls[..n]) + [] == SentBy(calls[..n]);
      }
    }
  }

  lemma OneSent(c: Conn, call: Call)
    requires c.status == Connected && call.Send?
    ensures DataOf(DoCall(c, call).messages) == DataOf(c.messages) + [call.data]
  {
    SendMeans(c, call.data, call.result);
  }

  lemma StepSends(c: Conn, s: Step)
    requires Inv(c) && Enabled(c, s)
    ensures DataOf(Next(c, s).messages) == DataOf(c.messages) + SentIn(c.status, s)
  {
    hide LogFits, Wire, DoCalls, DoCall, HandleEvent, Closes, BringsBytes;
    assert DataOf(c.messages) + [] == DataOf(c.messages);
    match s
    case Calls(call) =>
      if c.status == Connected {
        CallsSend(c, [call]);
        OneCall(c, call);
      } else {
        CallStatus(c, call);
      }
    case Dispatch(e) => DispatchSends(c, e);
    case RunEstablish(calls) =>
      EstablishMeans(calls);
      CallsSend(ACCEPTED.(status := Connected, mask := {IN, PRI}, log := [Up], establishing := 0), calls);
      assert [] + SentBy(calls) == SentBy(calls);
    case RunForceClose(calls) =>
      if IsOpen(c) {
        CloseMeans(c.(closing := c.closing - 1), calls);
      }
    case RunRemove => TeardownMeans(c, []);
    case RunDestroy(calls) => TeardownMeans(c, calls);
  }

  lemma OneCall(c: Conn, call: Call)
    ensures DoCalls(c, [call]) == DoCall(c, call)
  {
    assert [call][..0] == [];
  }

  lemma DispatchSends(c: Conn, e: Event)
    requires IsOpen(c)
    ensures DataOf(HandleEvent(c, e).messages) == DataOf(c.messages) + SentIn(c.status, Dispatch(e))
  {
    hide DoCalls, HandleEvent, Closes, BringsBytes, HandleWrite, DataOf;
    DispatchMeans(c, e);
    assert DataOf(c.messages) + [] == DataOf(c.messages);
    if !Closes(e) {
      var f := if BringsBytes(e) then DoCalls(c, e.onRead) else c;
      WriteMeans(f, e.result);
      if BringsBytes(e) {
        if c.status == Connected {
          CallsSend(c, e.onRead);
        } else {
          DisconnectingSends(c, e.onRead);
        }
      }
    }
  }

  lemma {:induction false} DisconnectingSends(c: Conn, calls: seq<Call>)
    requires c.status != Connected
    ensures DoCalls(c, calls).messages == c.messages && DoCalls(c, calls).status == c.status
    decreases |calls|
  {
    hide DoCall;
    if calls != [] {
      DisconnectingSends(c, calls[..|calls| - 1]);
      CallStatus(DoCalls(c, calls[..|calls| - 1]), calls[|calls| - 1]);
    }
  }

  /** The messages of a run are, in order, those that its steps send. */
  lemma {:induction false} RunSends(states: seq<Conn>, steps: seq<Step>, i: nat)
    requires IsRun(states, steps) && i < |states|
    requires forall s | s in steps :: Sound(s)
    ensures DataOf(states[i].messages) == SentOver(states, steps[..i])
  {
    hide Inv, Next, Enabled, SentIn;
    if i > 0 {
      RunSends(states, steps, i - 1);
      RunKeeps(states, steps, i - 1);
      StepSends(states[i - 1], steps[i - 1]);
      assert steps[..i][..i - 1] == steps[..i - 1];
    }
  }

  lemma {:induction false} JoinedIsSent(messages: seq<Message>)
    ensures Sent(messages) == Joined(DataOf(messages))
  {
    if messages != [] {
      var n := |messages| - 1;
      JoinedIsSent(messages[..n]);
      assert DataOf(messages)[..n] == DataOf(messages[..n]);
    }
  }

  /** Unless the connection is found broken, what the socket has taken, followed by what is buffered, is what the steps
      of the run have sent, message after message. */
  lemma RunDelivers(states: seq<Conn>, steps: seq<Step>, i: nat)
    requires IsRun(states, steps) && i < |states|
    requires forall s | s in steps :: Sound(s)
    requires Dropped !in states[i].log
    ensures Wire(states[i].log) + states[i].output == Joined(SentOver(states, steps[..i]))
  {
    BytesConserved(states, steps, i);
    RunSends(states, steps, i);
    JoinedIsSent(states[i].messages);
  }
}
