/** What every run of a connection keeps. */
module Lifecycle {
  import Buffers
  import opened Bytes
  import opened Polling
  import opened Connections

  // ----- the log

  lemma WireAppend(log: seq<Effect>, e: Effect)
    ensures Wire(log + [e]) == Wire(log) + if e.Wrote? then e.data else []
  {
    assert (log + [e])[..|log|] == log;
  }

  /** The effects so far fit the status. */
  ghost predicate LogFits(log: seq<Effect>, status: Status)
  {
    && UpBeforeDown(log) && SilentAfterShut(log) && Count(log, ShutWrite) <= 1
    && (status == Connecting <==> log == [])
    && (status == Disconnected <==> Down in log)
    && (ShutWrite in log ==> Rank(status) >= Rank(Disconnecting))
  }

  lemma InAppend(log: seq<Effect>, d: Effect, e: Effect)
    ensures e in log + [d] <==> e in log || d == e
  {
    assert d == e ==> (log + [d])[|log|] == e;
  }

  lemma CountAppend(log: seq<Effect>, d: Effect, e: Effect)
    ensures Count(log + [d], e) == Count(log, e) + if d == e then 1 else 0
  {
  }

  lemma SilentAppend(log: seq<Effect>, e: Effect)
    requires SilentAfterShut(log) && (e.Wrote? ==> ShutWrite !in log)
    ensures SilentAfterShut(log + [e])
  {
  }

  lemma OnceAppend(log: seq<Effect>, e: Effect)
    requires UpBeforeDown(log) && (e == Up <==> log == []) && (e == Down ==> Down !in log)
    ensures UpBeforeDown(log + [e])
  {
  }

  /** An effect between up and down. */
  lemma LogAppend(log: seq<Effect>, status: Status, e: Effect, later: Status)
    requires LogFits(log, status) && Rank(status) <= Rank(later) <= Rank(Disconnecting)
    requires status != Connecting && !e.Up? && !e.Down?
    requires e.Wrote? || e == ShutWrite ==> ShutWrite !in log
    requires e == ShutWrite ==> later == Disconnecting
    ensures LogFits(log + [e], later)
  {
    hide SilentAfterShut, UpBeforeDown;
    SilentAppend(log, e);
    OnceAppend(log, e);
    CountAppend(log, e, ShutWrite);
    InAppend(log, e, ShutWrite);
    InAppend(log, e, Down);
  }

  lemma LogUp()
    ensures LogFits([Up], Connected)
  {
  }

  lemma LogDown(log: seq<Effect>, status: Status)
    requires LogFits(log, status) && (status == Connected || status == Disconnecting)
    ensures LogFits(log + [Down], Disconnected)
  {
    hide SilentAfterShut, UpBeforeDown;
    SilentAppend(log, Down);
    OnceAppend(log, Down);
    CountAppend(log, Down, ShutWrite);
    InAppend(log, Down, ShutWrite);
    InAppend(log, Down, Down);
  }

  // ----- the invariant

  lemma KeptAppend(messages: seq<Message>, m: Message)
    ensures Kept(messages + [m]) == Kept(messages) + if m.dropped then [] else m.data
    ensures HasDropped(messages + [m]) <==> HasDropped(messages) || m.dropped
  {
    var ms := messages + [m];
    assert ms[..|messages|] == messages;
    assert m.dropped ==> ms[|messages|].dropped;
    if i :| 0 <= i < |messages| && messages[i].dropped {
      assert ms[i].dropped;
    }
  }

  lemma {:induction false} NoneDropped(messages: seq<Message>)
    requires !HasDropped(messages)
    ensures Kept(messages) == Sent(messages)
  {
    if messages != [] {
      assert messages == messages[..|messages| - 1] + [messages[|messages| - 1]];
      KeptAppend(messages[..|messages| - 1], messages[|messages| - 1]);
      NoneDropped(messages[..|messages| - 1]);
    }
  }

  /** The bytes taken by the socket, followed by those still kept, are those of the messages that were not given up. */
  ghost predicate Conserved(c: Conn)
  {
    Wire(c.log) + c.output == Kept(c.messages) && DropsFit(c)
  }

  ghost predicate DropsFit(c: Conn)
  {
    Dropped in c.log <==> HasDropped(c.messages)
  }

  /** The mask, the buffer and the queues fit the status. */
  ghost predicate StateFits(c: Conn)
  {
    && !c.aborted
    && (c.status == Connecting <==> c.establishing > 0)
    && (c.status == Connecting ==> c == ACCEPTED)
    && (IsOpen(c) ==>
          && READ_EVENT <= c.mask <= READ_EVENT + WRITE_EVENT && (IsWriting(c) <==> c.output != [])
          && c.inMap && !c.removed && c.removing == 0 && c.destroying == 0)
    && (c.status == Disconnected ==>
          && c.mask == NONE_EVENT && c.removing + c.destroying + (if c.removed then 1 else 0) == 1
          && (c.inMap <==> c.removing == 1))
    && (ShutWrite in c.log ==> c.output == [])
  }

  ghost predicate Inv(c: Conn)
  {
    StateFits(c) && LogFits(c.log, c.status) && Conserved(c)
  }

  /** Forward, and what was observed stays. */
  predicate Onward(c: Conn, d: Conn)
  {
    Rank(c.status) <= Rank(d.status) && c.log <= d.log
  }

  lemma AcceptedInv()
    ensures Inv(ACCEPTED)
  {
    assert Wire([]) + [] == [];
  }

  /** What send relies on, apart from the bytes: connected, and so not shut down. */
  ghost predicate Sending(c: Conn)
  {
    StateFits(c) && LogFits(c.log, c.status) && c.status == Connected && ShutWrite !in c.log
  }

  lemma ConnectedSends(c: Conn)
    requires Inv(c) && c.status == Connected
    ensures Sending(c)
  {
  }

  /** A send that has been split up: what was written, what is kept, and what is left to do. */
  ghost predicate Owes(c: Conn, data: seq<byte>)
  {
    Wire(c.log) + c.output + data == Kept(c.messages) && DropsFit(c)
  }

  lemma WriteKeeps(c: Conn, data: seq<byte>, left: seq<byte>)
    requires Sending(c) && c.output == [] && Owes(c, data + left)
    ensures Sending(Write(c, data)) && Owes(Write(c, data), left) && Write(c, data).output == []
    ensures Onward(c, Write(c, data)) && Write(c, data).mask == c.mask
  {
    hide LogFits, Wire;
    if data == [] {
      assert data + left == left;
    } else {
      LogAppend(c.log, c.status, Wrote(data), c.status);
      WireAppend(c.log, Wrote(data));
      InAppend(c.log, Wrote(data), ShutWrite);
      InAppend(c.log, Wrote(data), Dropped);
      assert Wire(c.log) + [] + (data + left) == Wire(c.log) + data + [] + left;
    }
  }

  lemma KeepNothing(c: Conn)
    ensures Keep(c, []) == c
  {
  }

  lemma KeepKeeps(c: Conn, data: seq<byte>)
    requires Sending(c) && Owes(c, data)
    ensures Inv(Keep(c, data)) && Onward(c, Keep(c, data))
  {
    assert Wire(c.log) + c.output + data == Wire(c.log) + (c.output + data);
    if data == [] {
      assert Wire(c.log) + c.output + data == Wire(c.log) + c.output;
    }
  }

  lemma SendKeeps(c: Conn, data: seq<byte>, result: WriteResult)
    requires Inv(c)
    ensures Inv(DoSend(c, data, result)) && Onward(c, DoSend(c, data, result))
  {
    if c.status == Connected {
      ConnectedSends(c);
      var m := Message(data, Drops(c, result));
      var s := c.(messages := c.messages + [m]);
      KeptAppend(c.messages, m);
      if m.dropped {
        DropKeeps(s);
      } else {
        assert Sending(s) && Owes(s, data);
        SendInLoopKeeps(s, data, result);
      }
    }
  }

  lemma SendInLoopKeeps(c: Conn, data: seq<byte>, result: WriteResult)
    requires Sending(c) && Owes(c, data) && !Drops(c, result)
    ensures Inv(SendInLoop(c, data, result)) && Onward(c, SendInLoop(c, data, result))
  {
    hide LogFits, Wire, Keep, Write, Inv, Owes, StateFits;
    if !IsWriting(c) && c.output == [] {
      match result
      case Took(n) =>
        var k := if n <= |data| then n else |data|;
        assert data == data[..k] + data[k..];
        WriteKeeps(c, data[..k], data[k..]);
        KeepKeeps(Write(c, data[..k]), data[k..]);
      case _ => KeepKeeps(c, data);
    } else {
      KeepKeeps(c, data);
    }
  }

  /** The message that was sent last is given up. */
  lemma DropKeeps(c: Conn)
    requires Sending(c) && HasDropped(c.messages) && Wire(c.log) + c.output == Kept(c.messages)
    ensures Inv(c.(log := c.log + [Dropped])) && Onward(c, c.(log := c.log + [Dropped]))
  {
    hide LogFits, Wire, HasDropped;
    LogAppend(c.log, c.status, Dropped, c.status);
    WireAppend(c.log, Dropped);
    InAppend(c.log, Dropped, Dropped);
    InAppend(c.log, Dropped, ShutWrite);
    assert Wire(c.log) + [] == Wire(c.log);
  }

  /** The write side is shut down at most once, and with nothing left to write. */
  lemma ShutKeeps(c: Conn)
    requires StateFits(c) && LogFits(c.log, c.status) && Conserved(c)
    requires IsOpen(c) && !IsWriting(c) && ShutWrite !in c.log
    ensures Inv(ShutdownInLoop(c.(status := Disconnecting))) && Onward(c, ShutdownInLoop(c.(status := Disconnecting)))
  {
    LogAppend(c.log, c.status, ShutWrite, Disconnecting);
    WireAppend(c.log, ShutWrite);
    assert Wire(c.log) + [] == Wire(c.log);
  }

  lemma ShutdownKeeps(c: Conn)
    requires Inv(c)
    ensures Inv(DoShutdown(c)) && Onward(c, DoShutdown(c))
  {
    if c.status == Connected {
      ConnectedSends(c);
      if !IsWriting(c) {
        ShutKeeps(c);
      }
    }
  }

  lemma LogEmpty(c: Conn)
    requires LogFits(c.log, c.status)
    ensures c.status == Connecting <==> c.log == []
  {
  }

  lemma CallKeeps(c: Conn, call: Call)
    requires Inv(c)
    ensures Inv(DoCall(c, call)) && Onward(c, DoCall(c, call))
  {
    match call
    case Send(data, result) => SendKeeps(c, data, result);
    case Shutdown => ShutdownKeeps(c);
    case ForceClose =>
  }

  lemma {:induction false} CallsKeep(c: Conn, calls: seq<Call>)
    requires Inv(c)
    ensures Inv(DoCalls(c, calls)) && Onward(c, DoCalls(c, calls))
    decreases |calls|
  {
    if calls != [] {
      CallsKeep(c, calls[..|calls| - 1]);
      CallKeeps(DoCalls(c, calls[..|calls| - 1]), calls[|calls| - 1]);
    }
  }

  /** A closed connection takes no notice of the user any more. */
  lemma {:induction false} ClosedIgnores(c: Conn, calls: seq<Call>)
    requires c.status == Disconnected
    ensures DoCalls(c, calls) == c
    decreases |calls|
  {
    if calls != [] {
      ClosedIgnores(c, calls[..|calls| - 1]);
    }
  }

  /** The user's calls never take the status back. */
  lemma {:induction false} CallsForward(c: Conn, calls: seq<Call>)
    ensures Rank(c.status) <= Rank(DoCalls(c, calls).status)
    decreases |calls|
  {
    if calls != [] {
      CallsForward(c, calls[..|calls| - 1]);
    }
  }

  // ----- events

  lemma HandleWriteKeeps(c: Conn, result: WriteResult)
    requires Inv(c) && IsOpen(c)
    ensures Inv(HandleWrite(c, result)) && Onward(c, HandleWrite(c, result))
  {
    hide Write;
    if IsWriting(c) && result.Took? && result.n > 0 {
      var k := if result.n <= |c.output| then result.n else |c.output|;
      var d := Write(c, c.output[..k]).(output := c.output[k..]);
      DrainKeeps(c, k);
      if d.output == [] {
        var e := d.(mask := d.mask - WRITE_EVENT);
        assert StateFits(e);
        if e.status == Disconnecting {
          ShutKeeps(e);
          assert e == e.(status := Disconnecting);
        }
      }
    }
  }

  /** Bytes move from the front of the buffer to the wire. */
  lemma DrainKeeps(c: Conn, k: nat)
    requires Inv(c) && IsOpen(c) && IsWriting(c) && 0 < k <= |c.output|
    ensures var d := Write(c, c.output[..k]).(output := c.output[k..]);
            && LogFits(d.log, d.status) && Conserved(d) && ShutWrite !in d.log && Onward(c, d)
            && StateFits(d.(mask := if d.output == [] then d.mask - WRITE_EVENT else d.mask))
            && d.status == c.status && d.mask == c.mask && d.output == c.output[k..]
  {
    hide LogFits, Wire;
    InAppend(c.log, Wrote(c.output[..k]), ShutWrite);
    InAppend(c.log, Wrote(c.output[..k]), Dropped);
    LogAppend(c.log, c.status, Wrote(c.output[..k]), c.status);
    WireAppend(c.log, Wrote(c.output[..k]));
    assert c.output == c.output[..k] + c.output[k..];
    assert Wire(c.log) + c.output[..k] + c.output[k..] == Wire(c.log) + c.output;
  }

  lemma HandleCloseKeeps(c: Conn, calls: seq<Call>)
    requires Inv(c) && IsOpen(c)
    ensures Inv(HandleClose(c, calls)) && Onward(c, HandleClose(c, calls))
    ensures HandleClose(c, calls).status == Disconnected
  {
    hide LogFits, Wire;
    var d := c.(status := Disconnected, mask := NONE_EVENT, log := c.log + [Down]);
    ClosedIgnores(d, calls);
    LogDown(c.log, c.status);
    WireAppend(c.log, Down);
    InAppend(c.log, Down, ShutWrite);
    InAppend(c.log, Down, Dropped);
    assert Wire(c.log) + [] == Wire(c.log);
  }

  /** A dispatch keeps the invariant unless the connection is found closed twice; then the assertion in handleClose
      fails. */
  lemma HandleEventKeeps(c: Conn, e: Event)
    requires Inv(c) && IsOpen(c)
    ensures HandleEvent(c, e).aborted <==> ClosesTwice(e)
    ensures !ClosesTwice(e) ==> Inv(HandleEvent(c, e)) && Onward(c, HandleEvent(c, e))
  {
    hide HandleClose, HandleWrite, Inv;
    InvNotAborted(c);
    var d := if HangsUp(e) then HandleClose(c, e.onClose) else c;
    if HangsUp(e) {
      HandleCloseKeeps(c, e.onClose);
      ClosedEvent(d, e);
    } else {
      var f := if Reads(e) then HandleRead(d, e.input, e.onRead) else d;
      if Reads(e) {
        HandleReadKeeps(d, e.input, e.onRead);
      }
      if IsOpen(f) {
        HandleWriteKeeps(f, e.result);
      } else {
        ClosedWrite(f, e.result);
      }
      InvNotAborted(if OUT in e.mask then HandleWrite(f, e.result) else f);
    }
  }

  lemma InvNotAborted(c: Conn)
    ensures Inv(c) ==> !c.aborted
    ensures Inv(c) && c.status == Connecting ==> c == ACCEPTED
  {
  }

  lemma ClosedWrite(c: Conn, result: WriteResult)
    requires Inv(c) && c.status == Disconnected
    ensures HandleWrite(c, result) == c
  {
  }

  lemma HandleReadKeeps(c: Conn, input: Buffers.ReadResult, calls: seq<Call>)
    requires Inv(c) && IsOpen(c)
    ensures Inv(HandleRead(c, input, calls)) && Onward(c, HandleRead(c, input, calls))
    ensures HandleRead(c, input, calls).status != Connecting
  {
    if input.Bytes? {
      if input.data != [] {
        CallsKeep(c, calls);
      } else {
        HandleCloseKeeps(c, calls);
      }
    }
  }

  /** The rest of a dispatch on a connection that has just been closed. */
  lemma ClosedEvent(d: Conn, e: Event)
    requires Inv(d) && d.status == Disconnected
    ensures var f := if Reads(e) then HandleRead(d, e.input, e.onRead) else d;
            var g := if OUT in e.mask then HandleWrite(f, e.result) else f;
            (g.aborted <==> Reads(e) && EndOfStream(e.input)) && (!(Reads(e) && EndOfStream(e.input)) ==> g == d)
  {
    ClosedIgnores(d, e.onRead);
  }

  // ----- steps and runs

  lemma EstablishedKeeps(calls: seq<Call>)
    ensures var c := ACCEPTED.(establishing := 0);
            Inv(ConnectEstablished(c, calls)) && Onward(ACCEPTED, ConnectEstablished(c, calls))
  {
    var d := ACCEPTED.(establishing := 0, status := Connected, mask := READ_EVENT, log := [Up]);
    LogUp();
    WireAppend([], Up);
    assert [] + [Up] == [Up];
    assert Wire([Up]) + [] == [];
    assert ACCEPTED.mask + READ_EVENT == READ_EVENT;
    CallsKeep(d, calls);
  }

  /** An enabled step keeps the invariant and breaks no assertion, unless it finds the connection closed twice. */
  lemma StepKeeps(c: Conn, s: Step)
    requires Inv(c) && Enabled(c, s)
    ensures Next(c, s).aborted <==> !Sound(s)
    ensures Sound(s) ==> Inv(Next(c, s)) && Onward(c, Next(c, s))
  {
    hide LogFits, Wire, DoCall, HandleEvent, DoCalls, HandleClose;
    match s
    case Calls(call) => CallKeeps(c, call);
    case Dispatch(event) => HandleEventKeeps(c, event);
    case RunEstablish(calls) => EstablishedKeeps(calls);
    case RunForceClose(calls) =>
      var d := c.(closing := c.closing - 1);
      assert Inv(d);
      if IsOpen(d) {
        HandleCloseKeeps(d, calls);
      }
    case RunRemove => LogEmpty(c);
    case RunDestroy(calls) => LogEmpty(c);
  }

  /** On every run in which no dispatch finds the connection closed twice, every state keeps the invariant. */
  lemma {:induction false} RunKeeps(states: seq<Conn>, steps: seq<Step>, i: nat)
    requires IsRun(states, steps) && i < |states|
    requires forall s | s in steps :: Sound(s)
    ensures Inv(states[i])
  {
    if i == 0 {
      AcceptedInv();
    } else {
      RunKeeps(states, steps, i - 1);
      StepKeeps(states[i - 1], steps[i - 1]);
    }
  }

  /** The status only moves forward. */
  lemma {:induction false} OnwardAlways(states: seq<Conn>, steps: seq<Step>, i: nat, j: nat)
    requires IsRun(states, steps) && i <= j < |states|
    requires forall s | s in steps :: Sound(s)
    ensures Onward(states[i], states[j])
    decreases j - i
  {
    if i < j {
      OnwardAlways(states, steps, i, j - 1);
      RunKeeps(states, steps, j - 1);
      StepKeeps(states[j - 1], steps[j - 1]);
    }
  }

  // ----- what it means for a run

  /** The program's assertions hold throughout a run exactly when no dispatch finds the connection closed twice. */
  lemma {:induction false} AssertionsHoldIff(states: seq<Conn>, steps: seq<Step>)
    requires IsRun(states, steps)
    ensures (forall c | c in states :: !c.aborted) <==> (forall s | s in steps :: Sound(s))
    decreases |steps|
  {
    hide Inv, Onward, Next, Enabled, Sound;
    if steps == [] {
      assert forall c | c in states :: c == ACCEPTED;
    } else {
      var n := |steps| - 1;
      AssertionsHoldIff(states[..n + 1], steps[..n]);
      assert states == states[..n + 1] + [states[n + 1]] && steps == steps[..n] + [steps[n]];
      if forall s | s in steps[..n] :: Sound(s) {
        RunKeeps(states[..n + 1], steps[..n], n);
        StepKeeps(states[n], steps[n]);
        assert states[n + 1] in states && steps[n] in steps;
      } else {
        assert forall c | c in states[..n + 1] :: c in states;
        assert forall s | s in steps[..n] :: s in steps;
      }
    }
  }

  /** It can be found closed twice: hung up, with out-of-band data announced and nothing left to read. */
  lemma ClosedTwiceExample()
    ensures var e := Event({HUP, PRI}, Buffers.Bytes([]), WouldBlock, [], []);
            var states := [ACCEPTED, Next(ACCEPTED, RunEstablish([])),
                           Next(Next(ACCEPTED, RunEstablish([])), Dispatch(e))];
            IsRun(states, [RunEstablish([]), Dispatch(e)]) && states[2].aborted
  {
    var e := Event({HUP, PRI}, Buffers.Bytes([]), WouldBlock, [], []);
    EstablishedWithoutCalls();
    assert PRI in e.mask * {IN, PRI, RDHUP};
    ClosesTwiceAborts(Next(ACCEPTED, RunEstablish([])), e);
  }

  /** Out-of-band data are what it takes: the flag for a peer that has shut down is tested too, but never registered. */
  lemma ClosedTwiceNeedsPri(c: Conn, e: Event)
    requires Inv(c) && Enabled(c, Dispatch(e)) && ClosesTwice(e)
    ensures RDHUP !in e.mask && PRI in e.mask
  {
    assert c.mask <= READ_EVENT + WRITE_EVENT;
    var f :| f in e.mask * {IN, PRI, RDHUP};
    assert f in c.mask + {ERR, HUP};
  }

  lemma EstablishedWithoutCalls()
    ensures Enabled(ACCEPTED, RunEstablish([]))
    ensures var c := Next(ACCEPTED, RunEstablish([])); c.status == Connected && READ_EVENT <= c.mask
  {
    hide Write;
    assert IN in Next(ACCEPTED, RunEstablish([])).mask;
  }

  lemma ClosesTwiceAborts(c: Conn, e: Event)
    requires c.status == Connected && Enabled(c, Dispatch(e)) && e.onClose == [] && ClosesTwice(e)
    ensures Next(c, Dispatch(e)).aborted
  {
    hide Write;
    assert HandleClose(c, []).status == Disconnected;
  }

  /** Whatever the socket takes of each write, it has taken, in order, the first bytes of the messages sent, but for
      those given up on a broken connection, and the rest is kept; the connection waits for the socket exactly as long
      as there is a rest. */
  lemma BytesConserved(states: seq<Conn>, steps: seq<Step>, i: nat)
    requires IsRun(states, steps) && i < |states|
    requires forall s | s in steps :: Sound(s)
    ensures var c := states[i];
            && Wire(c.log) + c.output == Kept(c.messages)
            && (Dropped !in c.log ==> Wire(c.log) + c.output == Sent(c.messages))
            && (IsOpen(c) ==> (IsWriting(c) <==> c.output != []))
  {
    RunKeeps(states, steps, i);
    if Dropped !in states[i].log {
      NoneDropped(states[i].messages);
    }
  }

  /** The write side is shut down at most once, when everything that was not given up has been written, and nothing is
      written or buffered after. */
  lemma ShutDownOnce(states: seq<Conn>, steps: seq<Step>, i: nat)
    requires IsRun(states, steps) && i < |states|
    requires forall s | s in steps :: Sound(s)
    ensures var c := states[i];
            && Count(c.log, ShutWrite) <= 1 && SilentAfterShut(c.log)
            && (ShutWrite in c.log ==> c.output == [] && Wire(c.log) == Kept(c.messages))
            && (ShutWrite in c.log && Dropped !in c.log ==> Wire(c.log) == Sent(c.messages))
            && (ShutWrite in c.log ==> c.status == Disconnecting || c.status == Disconnected)
  {
    RunKeeps(states, steps, i);
    BytesConserved(states, steps, i);
    assert Wire(states[i].log) + [] == Wire(states[i].log);
  }

  lemma {:induction false} DownOnce(log: seq<Effect>)
    requires UpBeforeDown(log)
    ensures Count(log, Up) <= 1 && Count(log, Down) <= 1
  {
    if log != [] {
      var n := |log| - 1;
      var l := log[..n];
      assert log == l + [log[n]];
      CountAppend(l, log[n], Up);
      CountAppend(l, log[n], Down);
      DownOnce(l);
      if log[n] == Down {
        assert Down !in l;
      }
      if log[n] == Up {
        assert l == [];
      }
    }
  }

  /** The callbacks run up once and down once after it, the connection is closed at most once, and the server's map
      has its entry until the one removal takes it out; then the channel is removed once. */
  lemma ClosedOnce(states: seq<Conn>, steps: seq<Step>, i: nat)
    requires IsRun(states, steps) && i < |states|
    requires forall s | s in steps :: Sound(s)
    ensures var c := states[i];
            && Count(c.log, Up) <= 1 && Count(c.log, Down) <= 1
            && (Up in c.log <==> c.status != Connecting) && (Down in c.log <==> c.status == Disconnected)
            && (Up in c.log ==> c.log[0] == Up)
            && c.removing + c.destroying + (if c.removed then 1 else 0) == Count(c.log, Down)
            && (c.inMap <==> c.removing == Count(c.log, Down))
  {
    RunKeeps(states, steps, i);
    DownOnce(states[i].log);
    if states[i].log != [] {
      assert states[i].log[0] == Up;
    }
  }

  /** The socket being writable again and again, the results of the writes being positive. */
  function Writable(c: Conn, sizes: seq<nat>): Conn
    decreases |sizes|
  {
    if sizes == [] then c else HandleWrite(Writable(c, sizes[..|sizes| - 1]), Took(sizes[|sizes| - 1]))
  }

  function Sum(sizes: seq<nat>): nat
    decreases |sizes|
  {
    if sizes == [] then 0 else Sum(sizes[..|sizes| - 1]) + sizes[|sizes| - 1]
  }

  /** A shutdown that was put off is carried out once the socket has taken all that was kept. */
  lemma {:induction false} ShutdownCarriedOut(c: Conn, sizes: seq<nat>)
    requires Inv(c) && c.status == Disconnecting && IsWriting(c)
    requires forall i | 0 <= i < |sizes| :: sizes[i] > 0
    ensures var d := Writable(c, sizes);
            && Inv(d) && d.status == Disconnecting
            && |d.output| == (if Sum(sizes) <= |c.output| then |c.output| - Sum(sizes) else 0)
            && (d.output == [] <==> ShutWrite in d.log)
    decreases |sizes|
  {
    if sizes != [] {
      var before := Writable(c, sizes[..|sizes| - 1]);
      var n := sizes[|sizes| - 1];
      ShutdownCarriedOut(c, sizes[..|sizes| - 1]);
      HandleWriteKeeps(before, Took(n));
      WritableStep(before, n);
    }
  }

  lemma WritableStep(c: Conn, n: nat)
    requires Inv(c) && c.status == Disconnecting && n > 0
    ensures var d := HandleWrite(c, Took(n));
            && d.status == Disconnecting && |d.output| == (if n <= |c.output| then |c.output| - n else 0)
            && ((c.output == [] <==> ShutWrite in c.log) ==> (d.output == [] <==> ShutWrite in d.log))
  {
    if IsWriting(c) {
      var k := if n <= |c.output| then n else |c.output|;
      InAppend(c.log, Wrote(c.output[..k]), ShutWrite);
      InAppend(Write(c, c.output[..k]).log, ShutWrite, ShutWrite);
    }
  }
}
