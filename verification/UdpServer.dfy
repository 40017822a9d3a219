/** The server list of one channel, updated in place by its second tick and by the messages of other channels. */
module UdpServer {
  import opened Bytes
  import opened Packets
  import opened Liveness

  /** The places of one server's channels from j on that are online and not our own, in order. */
  function OnlineFrom(self: Place, i: nat, channels: seq<Channel>, j: nat): seq<Place>
    requires j <= |channels|
    decreases |channels| - j
  {
    if j == |channels| then []
    else (if Place(i + 1, j + 1) != self && channels[j].isOnline then [Place(i + 1, j + 1)] else [])
         + OnlineFrom(self, i, channels, j + 1)
  }

  /** Whom a tick that ends in this view sends a heartbeat: every other channel that is still online. */
  function Targets(self: Place, servers: seq<Server>, i: nat): seq<Place>
    requires i <= |servers|
    decreases |servers| - i
  {
    if i == |servers| then [] else OnlineFrom(self, i, servers[i].channels, 0) + Targets(self, servers, i + 1)
  }

  lemma {:induction false} OnlineFromHas(self: Place, i: nat, channels: seq<Channel>, j: nat, p: Place)
    requires j <= |channels|
    ensures p in OnlineFrom(self, i, channels, j)
       <==> p != self && p.server == i + 1 && j + 1 <= p.channel <= |channels| && channels[p.channel - 1].isOnline
    decreases |channels| - j
  {
    if j < |channels| {
      OnlineFromHas(self, i, channels, j + 1, p);
      if p == Place(i + 1, j + 1) { assert p.channel - 1 == j; }
    }
  }

  /** Heartbeats go to exactly the other channels that the view holds online. */
  lemma {:induction false} TargetsAreOnline(v: View, i: nat, p: Place)
    requires i <= |v.servers|
    ensures p in Targets(v.self, v.servers, i) <==> p != v.self && i < p.server && v.Online(p)
    decreases |v.servers| - i
  {
    if i < |v.servers| {
      OnlineFromHas(v.self, i, v.servers[i].channels, 0, p);
      TargetsAreOnline(v, i + 1, p);
    }
  }

  predicate Before(p: Place, q: Place) {
    p.server < q.server || (p.server == q.server && p.channel < q.channel)
  }

  predicate Ascending(ps: seq<Place>) {
    forall a, b :: 0 <= a < b < |ps| ==> Before(ps[a], ps[b])
  }

  lemma BothAscend(ps: seq<Place>, qs: seq<Place>)
    requires Ascending(ps) && Ascending(qs) && forall p, q :: p in ps && q in qs ==> Before(p, q)
    ensures Ascending(ps + qs)
  {
    hide Before;
    forall a, b | 0 <= a < b < |ps + qs| ensures Before((ps + qs)[a], (ps + qs)[b]) {
      if b < |ps| {
        assert (ps + qs)[a] == ps[a] && (ps + qs)[b] == ps[b];
      } else if a < |ps| {
        assert (ps + qs)[a] == ps[a] && (ps + qs)[b] == qs[b - |ps|];
      } else {
        assert (ps + qs)[a] == qs[a - |ps|] && (ps + qs)[b] == qs[b - |ps|];
      }
    }
  }

  lemma {:induction false} OnlineFromAscends(self: Place, i: nat, channels: seq<Channel>, j: nat)
    requires j <= |channels|
    ensures Ascending(OnlineFrom(self, i, channels, j))
    decreases |channels| - j
  {
    if j < |channels| {
      var first := if Place(i + 1, j + 1) != self && channels[j].isOnline then [Place(i + 1, j + 1)] else [];
      var rest := OnlineFrom(self, i, channels, j + 1);
      OnlineFromAscends(self, i, channels, j + 1);
      forall p, q | p in first && q in rest ensures Before(p, q) {
        OnlineFromHas(self, i, channels, j + 1, q);
      }
      BothAscend(first, rest);
    }
  }

  /** Each gets one heartbeat: the targets are in strictly ascending order. */
  lemma {:induction false} TargetsAscend(v: View, i: nat)
    requires i <= |v.servers|
    ensures Ascending(Targets(v.self, v.servers, i))
    decreases |v.servers| - i
  {
    if i < |v.servers| {
      var first, rest := OnlineFrom(v.self, i, v.servers[i].channels, 0), Targets(v.self, v.servers, i + 1);
      OnlineFromAscends(v.self, i, v.servers[i].channels, 0);
      TargetsAscend(v, i + 1);
      forall p, q | p in first && q in rest ensures Before(p, q) {
        OnlineFromHas(v.self, i, v.servers[i].channels, 0, p);
        TargetsAreOnline(v, i + 1, q);
      }
      BothAscend(first, rest);
    }
  }

  class UDPServer {
    const self: Place
    const authKey: seq<u8>
    var serverList: seq<Server>
    var currentTime: nat
    var heartbeats: seq<Place>

    constructor (self: Place, authKey: seq<u8>, serverList: seq<Server>)
      ensures this.self == self && this.authKey == authKey
      ensures GetView() == View(self, serverList, 0) && heartbeats == []
    {
      this.self, this.authKey, this.serverList := self, authKey, serverList;
      currentTime, heartbeats := 0, [];
    }

    function GetView(): View
      reads this
    {
      View(self, serverList, currentTime)
    }

    method SetStatus(i: nat, status: Status)
      requires i < |serverList|
      modifies this`serverList
      ensures serverList == old(serverList)[i := old(serverList)[i].(status := status)]
    {
      serverList := serverList[i := serverList[i].(status := status)];
    }

    method SetChannel(i: nat, j: nat, c: Channel)
      requires i < |serverList| && j < |serverList[i].channels|
      modifies this`serverList
      ensures serverList == old(serverList)[i := old(serverList)[i].(channels := old(serverList)[i].channels[j := c])]
    {
      var s := serverList[i];
      serverList := serverList[i := s.(channels := s.channels[j := c])];
    }

    /** Not ready, unless one of the channels is online. */
    method RecomputeStatus(i: nat)
      requires i < |serverList|
      modifies this`serverList
      ensures serverList == old(serverList)[i := old(serverList)[i].(status := StatusOf(old(serverList)[i].channels))]
    {
      SetStatus(i, NotReady);
      var k := 0;
      while k < |serverList[i].channels|
        invariant serverList == old(serverList)[i := old(serverList)[i].(status := NotReady)]
        invariant k <= |serverList[i].channels|
        invariant forall k' :: 0 <= k' < k ==> !serverList[i].channels[k'].isOnline
      {
        if serverList[i].channels[k].isOnline {
          SetStatus(i, Ready);
          return;
        }
        k := k + 1;
      }
    }

    method ForgetServer(i: nat)
      requires i < |serverList|
      modifies this`serverList
      ensures serverList == old(serverList)[i := ResetServer(self, i, old(serverList)[i])]
    {
      ghost var before := serverList;
      if i + 1 != self.server {
        SetStatus(i, NotReady);
      }
      for j := 0 to |serverList[i].channels|
        invariant |serverList| == |before| && forall k :: 0 <= k < |before| && k != i ==> serverList[k] == before[k]
        invariant serverList[i].status == ResetServer(self, i, before[i]).status
        invariant |serverList[i].channels| == |before[i].channels|
        invariant forall k :: 0 <= k < |before[i].channels| ==>
                    serverList[i].channels[k] == if k < j then ResetServer(self, i, before[i]).channels[k] else before[i].channels[k]
      {
        if Place(i + 1, j + 1) != self {
          SetChannel(i, j, Silent);
        }
      }
      assert serverList[i] == ResetServer(self, i, before[i]);
    }

    method Forget()
      modifies this`serverList
      ensures serverList == Reset(View(self, old(serverList), currentTime)).servers
    {
      ghost var before := serverList;
      for i := 0 to |serverList|
        invariant |serverList| == |before|
        invariant forall k :: 0 <= k < |before| ==> serverList[k] == if k < i then ResetServer(self, k, before[k]) else before[k]
      {
        ForgetServer(i);
      }
    }

    method MarkOffline(i: nat, j: nat)
      requires i < |serverList| && j < |serverList[i].channels|
      modifies this`serverList
      ensures var s := old(serverList)[i];
              var channels := s.channels[j := Silent];
              serverList == old(serverList)[i := Server(if i + 1 != self.server then StatusOf(channels) else s.status, channels)]
    {
      SetChannel(i, j, Silent);
      if i + 1 != self.server {
        RecomputeStatus(i);
      }
    }

    method CheckServer(i: nat)
      requires i < |serverList|
      modifies this`serverList, this`heartbeats
      ensures serverList == old(serverList)[i := ExpireServer(self, i, old(serverList)[i], currentTime)]
      ensures heartbeats == old(heartbeats) + OnlineFrom(self, i, serverList[i].channels, 0)
    {
      hide StatusOf;
      ghost var before := serverList;
      ghost var after := ExpireServer(self, i, before[i], currentTime);
      for j := 0 to |serverList[i].channels|
        invariant |serverList| == |before| && forall k :: 0 <= k < |before| && k != i ==> serverList[k] == before[k]
        invariant |serverList[i].channels| == |before[i].channels|
        invariant forall k :: 0 <= k < |before[i].channels| ==>
                    serverList[i].channels[k] == if k < j then after.channels[k] else before[i].channels[k]
        invariant serverList[i].status == if serverList[i].channels != before[i].channels && i + 1 != self.server
                                          then StatusOf(serverList[i].channels) else before[i].status
        invariant heartbeats + OnlineFrom(self, i, after.channels, j) == old(heartbeats) + OnlineFrom(self, i, after.channels, 0)
      {
        var channel := serverList[i].channels[j];
        if Place(i + 1, j + 1) != self && channel.isOnline {
          if channel.lastHeartbeat + UDP_SERVER_HEARTBEAT_TIMEOUT < currentTime {
            MarkOffline(i, j);
            assert serverList[i].channels[j] != before[i].channels[j];
          } else {
            heartbeats := heartbeats + [Place(i + 1, j + 1)];
          }
        }
      }
      assert serverList[i].channels == after.channels;
      assert heartbeats + [] == heartbeats;
    }

    /** The second tick: forget everybody after a clock gap, then mark the silent channels offline and send a heartbeat
        to the others. */
    method OnSecondTick(now: nat)
      modifies this`serverList, this`currentTime, this`heartbeats
      ensures GetView() == Tick(old(GetView()), now)
      ensures heartbeats == old(heartbeats) + Targets(self, serverList, 0)
      ensures forall p :: p in heartbeats[|old(heartbeats)|..] <==> p != self && GetView().Online(p)
    {
      if currentTime + UDP_SERVER_HEARTBEAT_TIMEOUT < now {
        Forget();
      }
      currentTime := now;
      ghost var before := serverList;
      ghost var after := Tick(old(GetView()), now).servers;
      for i := 0 to |serverList|
        invariant currentTime == now && |serverList| == |before| == |after|
        invariant forall k :: 0 <= k < |before| ==> serverList[k] == if k < i then after[k] else before[k]
        invariant heartbeats + Targets(self, after, i) == old(heartbeats) + Targets(self, after, 0)
      {
        CheckServer(i);
      }
      assert serverList == after;
      assert heartbeats + [] == heartbeats;
      forall p ensures p in Targets(self, serverList, 0) <==> p != self && GetView().Online(p) {
        TargetsAreOnline(GetView(), 0, p);
      }
    }

    /** One server datagram, after its signature has been read; a HELLO is to be answered. */
    method HandleIncomingServerPacket(packet: Packet) returns (answer: bool)
      requires packet.Valid()
      modifies this`serverList, packet`readOffset
      ensures var (authorised, m) := ParseMessage(packet.buffer, old(packet.readOffset), authKey);
              GetView() == if authorised then Handle(old(GetView()), m) else old(GetView())
      ensures ReadStr(packet.buffer, old(packet.readOffset)).0 != authKey ==> serverList == old(serverList) && !answer
      ensures var (authorised, m) := ParseMessage(packet.buffer, old(packet.readOffset), authKey);
              answer <==> authorised && old(GetView()).Has(m.from) && m.kind == 0
    {
      answer := false;
      ghost var (authorised, m) := ParseMessage(packet.buffer, packet.readOffset, authKey);
      var key := packet.ReadString();
      if key != authKey { return; }
      var serverID := packet.ReadBytes(1, true);
      var channelID := packet.ReadBytes(1, true);
      if serverID == 0 || serverID > |serverList| { return; }
      if channelID == 0 || channelID > |serverList[serverID - 1].channels| { return; }
      var kind := packet.ReadBytes(1, true);
      var i, j := serverID - 1, channelID - 1;
      if kind == HELLO as int || kind == HELLO_ANSWER as int {
        var players := packet.ReadBytes(2, true);
        assert players == m.players;
        SetChannel(i, j, Channel(true, currentTime, players));
        if serverID != self.server {
          SetStatus(i, Ready);
        }
        answer := kind == HELLO as int;
      } else if kind == GOODBYE as int {
        SetChannel(i, j, Silent);
        if serverID != self.server {
          RecomputeStatus(i);
        }
      } else if kind == HEARTBEAT as int {
        SetChannel(i, j, serverList[i].channels[j].(lastHeartbeat := currentTime));
      } else if kind == NUMPLAYERS as int {
        var players := packet.ReadBytes(2, true);
        assert players == m.players;
        SetChannel(i, j, serverList[i].channels[j].(numPlayers := players));
      }
    }
  }
}
