/** The server's table of connections. */
module TcpServers {
  import opened Polling
  import opened Connections
  import opened TcpConnections

  function Digit(d: nat): char
    requires d < 10
  {
    "0123456789"[d]
  }

  function Decimal(n: nat): (s: string)
    ensures s != []
  {
    if n < 10 then [Digit(n)] else Decimal(n / 10) + [Digit(n % 10)]
  }

  lemma {:induction false} DecimalDistinct(m: nat, n: nat)
    requires Decimal(m) == Decimal(n)
    ensures m == n
  {
    assert Digit(m % 10) == Decimal(m)[|Decimal(m)| - 1] == Digit(n % 10);
    if m >= 10 && n >= 10 {
      assert Decimal(m)[..|Decimal(m)| - 1] == Decimal(m / 10);
      assert Decimal(n)[..|Decimal(n)| - 1] == Decimal(n / 10);
      DecimalDistinct(m / 10, n / 10);
    }
  }

  function ConnName(hostName: string, hostIpPort: string, id: nat): string
  {
    hostName + "-" + hostIpPort + "#" + Decimal(id)
  }

  /** No two connections of a server have the same name. */
  lemma NamesDistinct(hostName: string, hostIpPort: string, m: nat, n: nat)
    requires ConnName(hostName, hostIpPort, m) == ConnName(hostName, hostIpPort, n)
    ensures m == n
  {
    var prefix := hostName + "-" + hostIpPort + "#";
    assert (prefix + Decimal(m))[|prefix|..] == Decimal(m) && (prefix + Decimal(n))[|prefix|..] == Decimal(n);
    DecimalDistinct(m, n);
  }

  lemma EraseOne<K, V>(m: map<K, V>, k: K)
    requires k in m
    ensures |m - {k}| == |m| - 1
  {
    assert (m - {k}).Keys == m.Keys - {k};
    assert |(m - {k}).Keys| == |m - {k}| && |m.Keys| == |m|;
  }

  class TcpServer {
    const hostName: string
    const hostIpPort: string
    var nextConnId: nat
    var connectionsMap: map<string, TcpConnection>
    /** Every connection accepted so far, with its number. */
    ghost var ids: map<TcpConnection, nat>

    /** The connections have different numbers, and the names that these make. */
    ghost predicate Numbered(ids: map<TcpConnection, nat>, next: nat)
    {
      && (forall c | c in ids :: ids[c] < next && c.name == ConnName(hostName, hostIpPort, ids[c]))
      && (forall c, d | c in ids && d in ids && c != d :: ids[c] != ids[d])
    }

    /** The table holds, under its name, each connection that is still in it. */
    ghost predicate Valid()
      reads this, ids.Keys
    {
      && Numbered(ids, nextConnId)
      && (forall c | c in ids :: c.inMap <==> c.name in connectionsMap)
      && (forall name | name in connectionsMap ::
            connectionsMap[name] in ids && connectionsMap[name].name == name)
    }

    lemma NewName(ids: map<TcpConnection, nat>, next: nat, conn: TcpConnection)
      requires Numbered(ids, next) && conn !in ids && conn.name == ConnName(hostName, hostIpPort, next)
      ensures Numbered(ids[conn := next], next + 1)
      ensures forall c | c in ids :: c.name != conn.name
    {
      hide ConnName;
      forall c | c in ids ensures c.name != conn.name {
        if c.name == conn.name {
          NamesDistinct(hostName, hostIpPort, ids[c], next);
        }
      }
    }

    constructor (hostName: string, hostIpPort: string)
      ensures Valid() && connectionsMap == map[]
    {
      this.hostName, this.hostIpPort := hostName, hostIpPort;
      nextConnId, connectionsMap, ids := 1, map[], map[];
    }

    /** The entry of a new connection displaces no other. */
    method NewConnection(ioEpoll: Epoll, sockfd: int) returns (conn: TcpConnection)
      requires Valid() && ioEpoll.Valid() && forall c | c in ioEpoll.channels :: c.fd != sockfd
      modifies this, ioEpoll`channels
      ensures Valid() && fresh(conn) && conn.Valid() && conn.View() == ACCEPTED
      ensures conn.epoll == ioEpoll && conn.channel.fd == sockfd
      ensures conn.name !in old(connectionsMap) && connectionsMap == old(connectionsMap)[conn.name := conn]
    {
      hide ConnName, Epoll.Agrees, Epoll.OnlyChannels, Epoll.Places, Numbered;
      var connName := ConnName(hostName, hostIpPort, nextConnId);
      var channel := ioEpoll.Register(sockfd);
      conn := new TcpConnection(connName, ioEpoll, channel);
      NewName(ids, nextConnId, conn);
      ids := ids[conn := nextConnId];
      nextConnId := nextConnId + 1;
      connectionsMap := connectionsMap[connName := conn];
    }

    /** Runs a queued removal: exactly one entry is erased, the connection's own, and its destruction is queued. */
    method RemoveConnectionInLoop(conn: TcpConnection)
      requires Valid() && conn in ids && conn.outputBuffer.Valid() && conn.removing > 0 && conn.inMap
      modifies `connectionsMap, conn`inMap, conn`removing, conn`destroying
      ensures Valid() && conn.View() == Next(old(conn.View()), RunRemove)
      ensures conn.name in old(connectionsMap) && old(connectionsMap)[conn.name] == conn
      ensures connectionsMap == old(connectionsMap) - {conn.name} && |connectionsMap| == |old(connectionsMap)| - 1
    {
      hide ConnName, Next;
      Owner(conn);
      EraseOne(connectionsMap, conn.name);
      forall c | c in ids && c != conn ensures c.name != conn.name {
        if c.name == conn.name {
          NamesDistinct(hostName, hostIpPort, ids[c], ids[conn]);
        }
      }
      var n := if conn.name in connectionsMap then 1 else 0;
      connectionsMap := connectionsMap - {conn.name};
      assert n == 1;
      conn.LeaveMap();
    }

    lemma Owner(conn: TcpConnection)
      requires Valid() && conn in ids && conn.inMap
      ensures conn.name in connectionsMap && connectionsMap[conn.name] == conn
    {
      var other := connectionsMap[conn.name];
      if other != conn {
        NamesDistinct(hostName, hostIpPort, ids[other], ids[conn]);
      }
    }
  }
}
