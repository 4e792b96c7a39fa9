/** Channels and the epoll set: the interest registered with the kernel follows the channels' event masks. */
module Polling {

  datatype Flag = IN | PRI | OUT | ERR | HUP | RDHUP

  type Mask = set<Flag>

  const NONE_EVENT: Mask := {}
  const READ_EVENT: Mask := {IN, PRI}
  const WRITE_EVENT: Mask := {OUT}

  datatype ChannelStatus = New | Added | Dismissed

  datatype Operation = Add | Mod | Del

  /** The status that an update leaves. */
  function Updated(status: ChannelStatus, mask: Mask): ChannelStatus
  {
    if status == Added && mask == NONE_EVENT then Dismissed else Added
  }

  class Channel {
    const fd: int
    var events: Mask
    var revents: Mask
    var status: ChannelStatus
    var addedToEpoll: bool

    constructor (fd: int)
      ensures this.fd == fd && events == NONE_EVENT && revents == NONE_EVENT && status == New && !addedToEpoll
    {
      this.fd := fd;
      events, revents, status, addedToEpoll := NONE_EVENT, NONE_EVENT, New, false;
    }

    predicate IsWriting()
      reads this
    {
      OUT in events
    }

    predicate IsNoneEvent()
      reads this
    {
      events == NONE_EVENT
    }

    /** The mask becomes m; the kernel is told, and nothing changes for the other channels. */
    twostate predicate SetTo(epoll: Epoll, m: Mask)
      reads this, epoll
    {
      && events == m && addedToEpoll && status == Updated(old(status), m) && revents == old(revents)
      && epoll.channelMap == old(epoll.channelMap)[fd := this]
      && epoll.kernel == if status == Added then old(epoll.kernel)[fd := m] else old(epoll.kernel) - {fd}
    }

    method EnableReading(epoll: Epoll)
      requires epoll.Valid() && this in epoll.channels
      modifies `events, `status, `addedToEpoll, epoll`channelMap, epoll`kernel
      ensures epoll.Valid() && SetTo(epoll, old(events) + READ_EVENT)
    {
      events := events + READ_EVENT;
      Update(epoll);
    }

    method DisableReading(epoll: Epoll)
      requires epoll.Valid() && this in epoll.channels
      modifies `events, `status, `addedToEpoll, epoll`channelMap, epoll`kernel
      ensures epoll.Valid() && SetTo(epoll, old(events) - READ_EVENT)
    {
      events := events - READ_EVENT;
      Update(epoll);
    }

    method EnableWriting(epoll: Epoll)
      requires epoll.Valid() && this in epoll.channels
      modifies `events, `status, `addedToEpoll, epoll`channelMap, epoll`kernel
      ensures epoll.Valid() && SetTo(epoll, old(events) + WRITE_EVENT)
    {
      events := events + WRITE_EVENT;
      Update(epoll);
    }

    method DisableWriting(epoll: Epoll)
      requires epoll.Valid() && this in epoll.channels
      modifies `events, `status, `addedToEpoll, epoll`channelMap, epoll`kernel
      ensures epoll.Valid() && SetTo(epoll, old(events) - WRITE_EVENT)
    {
      events := events - WRITE_EVENT;
      Update(epoll);
    }

    method DisableAll(epoll: Epoll)
      requires epoll.Valid() && this in epoll.channels
      modifies `events, `status, `addedToEpoll, epoll`channelMap, epoll`kernel
      ensures epoll.Valid() && SetTo(epoll, NONE_EVENT)
    {
      events := NONE_EVENT;
      Update(epoll);
    }

    method Update(epoll: Epoll)
      requires this in epoll.channels && epoll.ValidBut(this)
      modifies `status, `addedToEpoll, epoll`channelMap, epoll`kernel
      ensures epoll.Valid() && SetTo(epoll, events)
    {
      addedToEpoll := true;
      epoll.UpdateChannel(this);
    }

    /** The program asserts that the mask is empty and that the channel is in the map. */
    method Remove(epoll: Epoll)
      requires epoll.Valid() && this in epoll.channels && IsNoneEvent() && status != New
      modifies `status, `addedToEpoll, epoll`channelMap, epoll`kernel
      ensures epoll.Valid() && status == New && !addedToEpoll
      ensures epoll.channelMap == old(epoll.channelMap) - {fd} && epoll.kernel == old(epoll.kernel) - {fd}
    {
      addedToEpoll := false;
      epoll.RemoveChannel(this);
    }
  }

  class Epoll {
    var channelMap: map<int, Channel>
    /** What epoll_ctl has registered with the kernel. */
    var kernel: map<int, Mask>
    /** The channels of the loop, in the map or not. */
    ghost var channels: set<Channel>

    constructor ()
      ensures Valid() && channelMap == map[] && kernel == map[] && channels == {}
    {
      channelMap, kernel, channels := map[], map[], {};
    }

    /** New: not in the map, and the mask is empty. Added: registered. Dismissed: in the map, not registered. */
    ghost predicate Places(c: Channel)
      reads this, c
    {
      && (c.status == New <==> c.fd !in channelMap)
      && (c.status == Added <==> c.fd in kernel)
      && (c.fd in channelMap ==> channelMap[c.fd] == c)
      && (c.addedToEpoll <==> c.status != New)
    }

    /** And what is registered is the channel's mask. */
    ghost predicate Agrees(c: Channel)
      reads this, c
    {
      && Places(c)
      && (c.status == Added ==> kernel[c.fd] == c.events)
      && (c.status != Added ==> c.events == NONE_EVENT)
    }

    /** No two channels share a descriptor, and the map and the kernel hold nothing else. */
    ghost predicate OnlyChannels()
      reads this, channels
    {
      && (forall c, d | c in channels && d in channels :: c.fd == d.fd ==> c == d)
      && (forall fd | fd in channelMap :: channelMap[fd] in channels && channelMap[fd].fd == fd)
      && kernel.Keys <= channelMap.Keys
    }

    ghost predicate Valid()
      reads this, channels
    {
      OnlyChannels() && forall c | c in channels :: Agrees(c)
    }

    /** Valid, but for a change in the mask of one channel that the kernel does not know of. */
    ghost predicate ValidBut(channel: Channel)
      requires channel in channels
      reads this, channels
    {
      && OnlyChannels() && Places(channel)
      && forall c | c in channels && c != channel :: Agrees(c)
    }

    /** A channel of a descriptor that no other channel of the loop has. */
    method Register(fd: int) returns (c: Channel)
      requires Valid() && forall d | d in channels :: d.fd != fd
      modifies `channels
      ensures Valid() && fresh(c) && c.fd == fd && c.status == New && c.events == NONE_EVENT
      ensures channels == old(channels) + {c}
    {
      c := new Channel(fd);
      channels := channels + {c};
    }

    /** A channel is destroyed, which the program asserts it is not while it is in the map; its descriptor may then be
        handed out again. */
    method Forget(channel: Channel)
      requires Valid() && channel in channels && channel.status == New
      modifies `channels
      ensures Valid() && channels == old(channels) - {channel}
      ensures forall c | c in channels :: c.fd != channel.fd
    {
      assert !channel.addedToEpoll && channel.fd !in channelMap;
      channels := channels - {channel};
    }

    method UpdateChannel(channel: Channel)
      requires channel in channels && channel.addedToEpoll && OnlyChannels()
      requires channel.status == New <==> channel.fd !in channelMap
      requires channel.status == Added <==> channel.fd in kernel
      requires channel.fd in channelMap ==> channelMap[channel.fd] == channel
      requires forall c | c in channels && c != channel :: Agrees(c)
      modifies channel`status, `channelMap, `kernel
      ensures Valid() && channel.status == Updated(old(channel.status), channel.events)
      ensures channelMap == old(channelMap)[channel.fd := channel]
      ensures kernel ==
        if channel.status == Added then old(kernel)[channel.fd := channel.events] else old(kernel) - {channel.fd}
    {
      var status := channel.status;
      var fd := channel.fd;
      if status == New || status == Dismissed {
        if status == New {
          assert fd !in channelMap;
          channelMap := channelMap[fd := channel];
        } else {
          assert fd in channelMap && channelMap[fd] == channel;
        }
        channel.status := Added;
        EpollCtl(Add, channel);
      } else {
        assert fd in channelMap && channelMap[fd] == channel;
        if channel.IsNoneEvent() {
          EpollCtl(Del, channel);
          channel.status := Dismissed;
        } else {
          EpollCtl(Mod, channel);
        }
      }
    }

    method RemoveChannel(channel: Channel)
      requires channel in channels && OnlyChannels() && !channel.addedToEpoll
      requires channel.IsNoneEvent() && channel.status != New
      requires channel.fd in channelMap && channelMap[channel.fd] == channel
      requires channel.status == Added <==> channel.fd in kernel
      requires forall c | c in channels && c != channel :: Agrees(c)
      modifies channel`status, `channelMap, `kernel
      ensures Valid() && channel.status == New
      ensures channelMap == old(channelMap) - {channel.fd} && kernel == old(kernel) - {channel.fd}
    {
      var fd := channel.fd;
      var status := channel.status;
      assert status == Added || status == Dismissed;
      channelMap := channelMap - {fd};
      if status == Added {
        EpollCtl(Del, channel);
      }
      channel.status := New;
    }

    /** The system call, which fails unless the descriptor is unregistered for an addition and registered otherwise. */
    method EpollCtl(op: Operation, channel: Channel)
      requires op == Add <==> channel.fd !in kernel
      modifies `kernel
      ensures kernel == if op == Del then old(kernel) - {channel.fd} else old(kernel)[channel.fd := channel.events]
    {
      match op
      case Del => kernel := kernel - {channel.fd};
      case _ => kernel := kernel[channel.fd := channel.events];
    }

    /** The events the kernel reports go to the channels they were registered for. */
    method FillActiveChannels(ready: seq<(Channel, Mask)>) returns (active: seq<Channel>)
      requires Valid() && forall r | r in ready :: r.0 in channels && r.0.fd in kernel
      requires forall i, j | 0 <= i < j < |ready| :: ready[i].0 != ready[j].0
      modifies set r | r in ready :: r.0`revents
      ensures Valid() && |active| == |ready|
      ensures forall i | 0 <= i < |ready| :: active[i] == ready[i].0 && active[i].revents == ready[i].1
    {
      active := [];
      var i := 0;
      while i < |ready|
        invariant i == |active| <= |ready| && Valid()
        invariant forall k | 0 <= k < i :: active[k] == ready[k].0 && active[k].revents == ready[k].1
      {
        var (channel, events) := ready[i];
        assert ready[i] in ready;
        assert channel.fd in channelMap && channelMap[channel.fd] == channel;
        channel.revents := events;
        active := active + [channel];
        i := i + 1;
      }
    }
  }

  // ----- a whole history of one channel

  /** The status after updates with the given masks, one after the other. */
  function StatusAfter(masks: seq<Mask>): ChannelStatus
  {
    if masks == [] then New else Updated(StatusAfter(masks[..|masks| - 1]), masks[|masks| - 1])
  }

  /** How many empty masks end the history. */
  function TrailingEmpty(masks: seq<Mask>): (n: nat)
    ensures n <= |masks|
  {
    if masks == [] || masks[|masks| - 1] != NONE_EVENT then 0 else 1 + TrailingEmpty(masks[..|masks| - 1])
  }

  /** The updates with an empty mask take the descriptor out of the kernel's set and put it back in turn: it is out
      after an odd number of them behind another one, and after a positive even number of them from the start. */
  lemma {:induction false} DismissedIff(masks: seq<Mask>)
    ensures StatusAfter(masks) == Dismissed <==>
            var n := TrailingEmpty(masks);
            if n < |masks| then n % 2 == 1 else n > 0 && n % 2 == 0
    ensures StatusAfter(masks) == New <==> masks == []
  {
    if masks != [] {
      DismissedIff(masks[..|masks| - 1]);
    }
  }
}
