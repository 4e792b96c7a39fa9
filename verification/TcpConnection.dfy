/** The connection object: its methods do to its fields what the functions of Connections do to its state. */
module TcpConnections {
  import opened Buffers
  import opened Bytes
  import opened Polling
  import opened Connections
  import Lifecycle

  class TcpConnection {
    const name: string
    const epoll: Epoll
    const channel: Channel
    const inputBuffer: Buffer
    const outputBuffer: Buffer
    var status: Status

    /** What the socket and the user's callbacks have seen, and what is queued on the loops. */
    ghost var messages: seq<Message>
    ghost var log: seq<Effect>
    ghost var inMap: bool
    ghost var removed: bool
    ghost var establishing: nat
    ghost var closing: nat
    ghost var removing: nat
    ghost var destroying: nat
    ghost var aborted: bool

    ghost predicate Valid()
      reads this, epoll, epoll.channels, channel, inputBuffer, outputBuffer
    {
      && epoll.Valid() && channel in epoll.channels
      && inputBuffer != outputBuffer && inputBuffer.Valid() && outputBuffer.Valid()
      && (channel.status == New <==> status == Connecting || removed)
    }

    ghost function View(): Conn
      requires outputBuffer.Valid()
      reads this, channel, outputBuffer
    {
      Conn(status, channel.events, outputBuffer.Content(), messages, log, inMap, removed,
           establishing, closing, removing, destroying, aborted)
    }

    /** A connection on a socket that no other channel of the loop has, with connectEstablished queued. */
    constructor (name: string, epoll: Epoll, channel: Channel)
      requires epoll.Valid() && channel in epoll.channels && channel.status == New
      ensures Valid() && View() == ACCEPTED && this.name == name && this.epoll == epoll && this.channel == channel
    {
      this.name, this.epoll, this.channel := name, epoll, channel;
      inputBuffer := new Buffer();
      outputBuffer := new Buffer();
      status := Connecting;
      messages, log, inMap, removed := [], [], true, false;
      establishing, closing, removing, destroying, aborted := 1, 0, 0, 0, false;
      new;
      assert epoll.Agrees(channel);
    }

    // ----- the user's calls

    /** The system call: result is what it does, and it takes no more than it is given. */
    method WriteTo(data: seq<byte>, result: WriteResult) returns (n: int)
      modifies `log
      ensures n == (if result.Took? then if result.n <= |data| then result.n else |data| else -1)
      ensures log == if n > 0 then old(log) + [Wrote(data[..n])] else old(log)
    {
      n := match result
        case Took(k) => if k <= |data| then k else |data|
        case _ => -1;
      if n > 0 {
        log := log + [Wrote(data[..n])];
      }
    }

    method SendInLoop(data: seq<byte>, result: WriteResult)
      requires Valid() && status != Connecting && !removed
      modifies this`log, channel, epoll`channelMap, epoll`kernel, outputBuffer
      ensures Valid() && View() == Connections.SendInLoop(old(View()), data, result)
    {
      hide Epoll.Agrees, Epoll.OnlyChannels, Epoll.Places;
      hide Connections.Keep;
      var nwrote := 0;
      var remaining := |data|;
      var faultError := false;
      if status == Disconnected {
        return;
      }
      if !channel.IsWriting() && outputBuffer.GetReadableBytes() == 0 {
        nwrote := WriteTo(data, result);
        if nwrote >= 0 {
          remaining := |data| - nwrote;
        } else {
          nwrote := 0;
          if result == Broken {
            faultError := true;
            log := log + [Dropped];
          }
        }
      }
      assert remaining <= |data|;
      Lifecycle.KeepNothing(View());
      assert data[|data|..] == [] && (|data| == 0 ==> data == []);
      assert data[nwrote..nwrote + remaining] == data[nwrote..] || faultError;
      if !faultError && remaining > 0 {
        Keep(data[nwrote..nwrote + remaining]);
      }
    }

    /** The end of SendInLoop: what is left is buffered, and the channel waits to write it. */
    method Keep(data: seq<byte>)
      requires Valid() && status != Connecting && !removed && data != []
      modifies channel, epoll`channelMap, epoll`kernel, outputBuffer
      ensures Valid() && View() == Connections.Keep(old(View()), data)
    {
      hide Epoll.Agrees, Epoll.OnlyChannels, Epoll.Places;
      outputBuffer.Append(data);
      if !channel.IsWriting() {
        channel.EnableWriting(epoll);
      } else {
        assert channel.events + WRITE_EVENT == channel.events;
      }
    }

    method Send(data: seq<byte>, result: WriteResult)
      requires Valid() && !removed
      modifies this`log, this`messages, channel, epoll`channelMap, epoll`kernel, outputBuffer
      ensures Valid() && View() == DoSend(old(View()), data, result)
    {
      hide Epoll.Agrees, Epoll.OnlyChannels, Epoll.Places;
      if status == Connected {
        messages := messages + [Message(data, Drops(View(), result))];
        SendInLoop(data, result);
      }
    }

    method ShutdownInLoop()
      requires Valid()
      modifies `log
      ensures Valid() && View() == Connections.ShutdownInLoop(old(View()))
    {
      if !channel.IsWriting() {
        log := log + [ShutWrite];
      }
    }

    method Shutdown()
      requires Valid()
      modifies `log, `status
      ensures Valid() && View() == DoShutdown(old(View()))
    {
      if status == Connected {
        status := Disconnecting;
        ShutdownInLoop();
      }
    }

    method ForceClose()
      requires Valid()
      modifies `status, `closing
      ensures Valid() && View() == DoForceClose(old(View()))
    {
      if status == Connected || status == Disconnecting {
        status := Disconnecting;
        closing := closing + 1;
      }
    }

    /** A callback of the user's. */
    method RunCallback(calls: seq<Call>)
      requires Valid() && !removed
      modifies this`status, this`log, this`messages, this`closing
      modifies channel, epoll`channelMap, epoll`kernel, outputBuffer
      ensures Valid() && View() == DoCalls(old(View()), calls)
      ensures Rank(old(status)) <= Rank(status)
      ensures old(status) == Disconnected ==> View() == old(View())
    {
      hide Epoll.Agrees, Epoll.OnlyChannels, Epoll.Places;
      hide DoSend, DoShutdown, DoForceClose;
      Lifecycle.CallsForward(View(), calls);
      if status == Disconnected {
        Lifecycle.ClosedIgnores(View(), calls);
      }
      assert calls[..|calls|] == calls;
      var i := 0;
      while i < |calls|
        invariant 0 <= i <= |calls| && Valid() && !removed
        invariant View() == DoCalls(old(View()), calls[..i])
      {
        assert calls[..i + 1][..i] == calls[..i];
        match calls[i] {
          case Send(data, result) => Send(data, result);
          case Shutdown => Shutdown();
          case ForceClose => ForceClose();
        }
        i := i + 1;
      }
    }

    // ----- events

    method HandleWrite(result: WriteResult)
      requires Valid() && status != Connecting && !removed
      modifies this`log, channel, epoll`channelMap, epoll`kernel, outputBuffer
      ensures Valid() && View() == Connections.HandleWrite(old(View()), result)
    {
      hide Epoll.Agrees, Epoll.OnlyChannels, Epoll.Places;
      if channel.IsWriting() {
        var data := outputBuffer.buffer[outputBuffer.readrIndex..outputBuffer.writerIndex];
        assert data == outputBuffer.Content();
        var n := WriteTo(data, result);
        if n > 0 {
          outputBuffer.Retrieve(n);
          if outputBuffer.GetReadableBytes() == 0 {
            channel.DisableWriting(epoll);
            if status == Disconnecting {
              ShutdownInLoop();
            }
          }
        }
      }
    }

    /** Held tells whether the assertion that the connection is open holds. */
    method HandleClose(calls: seq<Call>) returns (held: bool)
      requires Valid() && !removed
      modifies this`status, this`log, this`messages, this`closing, this`removing, this`aborted
      modifies channel, epoll`channelMap, epoll`kernel, outputBuffer
      ensures held <==> old(status) == Connected || old(status) == Disconnecting
      ensures Valid() && View() == Connections.HandleClose(old(View()), calls)
      ensures held ==> status == Disconnected && aborted == old(aborted)
      ensures !held ==> status == old(status) && aborted
    {
      hide Epoll.Agrees, Epoll.OnlyChannels, Epoll.Places;
      held := status == Connected || status == Disconnecting;
      if !held {
        aborted := true;
        return;
      }
      status := Disconnected;
      channel.DisableAll(epoll);
      log := log + [Down];
      RunCallback(calls);
      removing := removing + 1;
    }

    method HandleRead(input: Buffers.ReadResult, calls: seq<Call>)
      requires Valid() && !removed && inputBuffer.Delivers(input)
      modifies this`status, this`log, this`messages, this`closing, this`removing, this`aborted
      modifies channel, epoll`channelMap, epoll`kernel, outputBuffer, inputBuffer
      ensures Valid() && View() == Connections.HandleRead(old(View()), input, calls)
      ensures Rank(old(status)) <= Rank(status)
      ensures aborted <==>
        old(aborted) || (EndOfStream(input) && old(status) != Connected && old(status) != Disconnecting)
      ensures inputBuffer.Content() == old(inputBuffer.Content()) + if input.Bytes? then input.data else []
    {
      hide Epoll.Agrees, Epoll.OnlyChannels, Epoll.Places;
      var n := inputBuffer.ReadFd(input);
      if n > 0 {
        RunCallback(calls);
      } else if n == 0 {
        var _ := HandleClose(calls);
      }
    }

    /** Dispatches an event to the callbacks; the assertion in HandleClose fails exactly if the connection is found
        closed twice. */
    method HandleEventWithGuard(e: Event)
      requires Valid() && !removed && inputBuffer.Delivers(e.input)
      requires status == Connected || status == Disconnecting
      modifies this`status, this`log, this`messages, this`closing, this`removing, this`aborted
      modifies channel, epoll`channelMap, epoll`kernel, outputBuffer, inputBuffer
      ensures Valid() && View() == HandleEvent(old(View()), e)
      ensures aborted <==> old(aborted) || ClosesTwice(e)
    {
      hide Epoll.Agrees, Epoll.OnlyChannels, Epoll.Places;
      if HUP in e.mask && !(IN in e.mask) {
        var _ := HandleClose(e.onClose);
      }
      if e.mask * {IN, PRI, RDHUP} != {} {
        HandleRead(e.input, e.onRead);
      }
      if OUT in e.mask {
        HandleWrite(e.result);
      }
    }

    // ----- what the loops run

    method ConnectEstablished(calls: seq<Call>)
      requires Valid() && !removed && status == Connecting
      modifies this`status, this`log, this`messages, this`closing
      modifies channel, epoll`channelMap, epoll`kernel, outputBuffer
      ensures Valid() && View() == Connections.ConnectEstablished(old(View()), calls)
    {
      hide Epoll.Agrees, Epoll.OnlyChannels, Epoll.Places;
      status := Connected;
      channel.EnableReading(epoll);
      log := log + [Up];
      RunCallback(calls);
    }

    method ForceCloseInLoop(calls: seq<Call>)
      requires Valid() && !removed
      modifies this`status, this`log, this`messages, this`closing, this`removing, this`aborted
      modifies channel, epoll`channelMap, epoll`kernel, outputBuffer
      ensures Valid() && View() == Connections.ForceCloseInLoop(old(View()), calls)
    {
      hide Epoll.Agrees, Epoll.OnlyChannels, Epoll.Places;
      if status == Connected || status == Disconnecting {
        var _ := HandleClose(calls);
      }
    }

    /** Removing the channel asserts that its mask is empty and that it is in the map. */
    method ConnectDestroyed(calls: seq<Call>)
      requires Valid() && !removed
      requires status == Connected || (status == Disconnected && channel.events == NONE_EVENT)
      modifies this`status, this`log, this`messages, this`closing, this`removed
      modifies channel, epoll`channelMap, epoll`kernel, outputBuffer
      ensures Valid() && View() == Connections.ConnectDestroyed(old(View()), calls)
      ensures channel.fd !in epoll.kernel && channel.fd !in epoll.channelMap
    {
      hide Epoll.Agrees, Epoll.OnlyChannels, Epoll.Places;
      if status == Connected {
        status := Disconnected;
        channel.DisableAll(epoll);
        log := log + [Down];
        RunCallback(calls);
      }
      channel.Remove(epoll);
      removed := true;
    }

    /** The destructor, which destroys the channel: no other channel of the loop has its descriptor, and a new
        connection may have it. */
    method Destruct()
      requires Valid() && removed
      modifies epoll`channels
      ensures epoll.Valid() && epoll.channels == old(epoll.channels) - {channel}
      ensures forall c | c in epoll.channels :: c.fd != channel.fd
    {
      epoll.Forget(channel);
    }

    /** What the server's removal means for the connection: out of the table, and its destruction is queued. */
    ghost method LeaveMap()
      requires outputBuffer.Valid() && removing > 0 && inMap
      modifies `inMap, `removing, `destroying
      ensures View() == Next(old(View()), RunRemove) && !inMap
    {
      hide DoCall, HandleEvent, Connections.ConnectEstablished, Connections.ForceCloseInLoop;
      hide Connections.ConnectDestroyed;
      removing := removing - 1;
      inMap := false;
      destroying := destroying + 1;
    }
  }
}
