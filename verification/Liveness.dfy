/** How a channel tracks which other channels are alive: hello, heartbeat, goodbye and the clock. */
module Liveness {
  import opened Bytes
  import opened Packets

  const UDP_SERVER_HEARTBEAT_TIMEOUT := 3

  datatype Channel = Channel(isOnline: bool, lastHeartbeat: nat, numPlayers: u16)

  datatype Status = NotReady | Ready

  datatype Server = Server(status: Status, channels: seq<Channel>)

  /** A channel's own place in the server list, both counted from 1. */
  datatype Place = Place(server: nat, channel: nat)

  /** What one channel believes, and the clock value of its last tick. */
  datatype View = View(self: Place, servers: seq<Server>, now: nat) {
    predicate Has(p: Place) {
      1 <= p.server <= |servers| && 1 <= p.channel <= |servers[p.server - 1].channels|
    }

    function At(p: Place): Channel
      requires Has(p)
    {
      servers[p.server - 1].channels[p.channel - 1]
    }

    predicate Online(p: Place) {
      Has(p) && At(p).isOnline
    }
  }

  const Silent := Channel(false, 0, 0)

  predicate AnyOnline(channels: seq<Channel>) {
    exists j :: 0 <= j < |channels| && channels[j].isOnline
  }

  function StatusOf(channels: seq<Channel>): Status {
    if AnyOnline(channels) then Ready else NotReady
  }

  // ----- The tick -----

  /** The channel of a server list entry after a clock gap: everything but our own channel is forgotten. */
  function ResetServer(self: Place, i: nat, s: Server): (r: Server)
    ensures |r.channels| == |s.channels|
  {
    Server(if i + 1 != self.server then NotReady else s.status,
           seq(|s.channels|, j requires 0 <= j < |s.channels| =>
             if Place(i + 1, j + 1) == self then s.channels[j] else Silent))
  }

  function Expire(c: Channel, now: nat): Channel {
    if c.isOnline && c.lastHeartbeat + UDP_SERVER_HEARTBEAT_TIMEOUT < now then Silent else c
  }

  function ExpireChannels(self: Place, i: nat, channels: seq<Channel>, now: nat): (r: seq<Channel>)
    ensures |r| == |channels|
  {
    seq(|channels|, j requires 0 <= j < |channels| =>
      if Place(i + 1, j + 1) == self then channels[j] else Expire(channels[j], now))
  }

  /** A server of which some channel expired gets its status from what is left. */
  function ExpireServer(self: Place, i: nat, s: Server, now: nat): (r: Server)
    ensures |r.channels| == |s.channels|
  {
    var channels := ExpireChannels(self, i, s.channels, now);
    Server(if channels != s.channels && i + 1 != self.server then StatusOf(channels) else s.status, channels)
  }

  function Reset(v: View): View {
    v.(servers := seq(|v.servers|, i requires 0 <= i < |v.servers| => ResetServer(v.self, i, v.servers[i])))
  }

  function Tick(v: View, now: nat): View {
    var v1 := if v.now + UDP_SERVER_HEARTBEAT_TIMEOUT < now then Reset(v) else v;
    View(v.self, seq(|v1.servers|, i requires 0 <= i < |v1.servers| => ExpireServer(v.self, i, v1.servers[i], now)), now)
  }

  // ----- Messages -----

  const HELLO: u8 := 0
  const HELLO_ANSWER: u8 := 1
  const GOODBYE: u8 := 2
  const HEARTBEAT: u8 := 3
  const NUMPLAYERS: u8 := 4

  datatype Message = Message(from: Place, kind: u8, players: u16)

  /** Parsing a server datagram after its signature: the key, the sender's place, the type, and for
      HELLO, HELLO_ANSWER and NUMPLAYERS a player count. Missing bytes read as zero. */
  function ParseMessage(buf: seq<u8>, off: nat, authKey: seq<u8>): (bool, Message)
    requires off <= |buf|
  {
    var (key, o1) := ReadStr(buf, off);
    var (server, o2) := ReadNum(buf, o1, 1, true);
    var (channel, o3) := ReadNum(buf, o2, 1, true);
    var (kind, o4) := ReadNum(buf, o3, 1, true);
    var (players, _) := ReadNum(buf, o4, 2, true);
    assert kind < Pow256(1) by { if o4 > o3 { FromLEBound(buf[o3..o4]); } }
    assert players < Pow256(2) by { if o4 + 2 <= |buf| { FromLEBound(buf[o4..o4 + 2]); } }
    assert Pow256(2) == 0x1_0000 && Pow256(1) == 256;
    (key == authKey, Message(Place(server, channel), kind, players))
  }

  lemma PlaceAndKind(buf: seq<u8>, off: nat)
    requires off + 3 <= |buf|
    ensures ReadNum(buf, off, 1, true) == (buf[off], off + 1)
    ensures ReadNum(buf, off + 1, 1, true) == (buf[off + 1], off + 2)
    ensures ReadNum(buf, off + 2, 1, true) == (buf[off + 2], off + 3)
  {
    OneByte(buf, off);
    OneByte(buf, off + 1);
    OneByte(buf, off + 2);
  }

  lemma OneByte(buf: seq<u8>, off: nat)
    requires off < |buf|
    ensures ReadNum(buf, off, 1, true) == (buf[off], off + 1)
  {
    var bs := buf[off..off + 1];
    assert bs == [buf[off]] && bs[1..] == [];
    assert FromLE(bs) == bs[0] + 256 * FromLE(bs[1..]);
  }

  /** The bytes of a datagram after its signature, one by one: the key with its terminator, the sender's server and channel,
      the type, and the player count, low byte first, which may be missing. */
  lemma MessageRoundTrip(pre: seq<u8>, key: seq<u8>, server: u8, channel: u8, kind: u8, players: u16, post: seq<u8>, authKey: seq<u8>)
    requires 0 !in key
    ensures ParseMessage(pre + (key + [0]) + [server, channel, kind, players % 256, players / 256] + post, |pre|, authKey)
         == (key == authKey, Message(Place(server, channel), kind, players))
    ensures ParseMessage(pre + (key + [0]) + [server, channel, kind], |pre|, authKey)
         == (key == authKey, Message(Place(server, channel), kind, 0))
  {
    hide ReadNum, ReadStr;
    var long := pre + (key + [0]) + [server, channel, kind, players % 256, players / 256] + post;
    var short := pre + (key + [0]) + [server, channel, kind];
    assert long == pre + (key + [0]) + ([server, channel, kind, players % 256, players / 256] + post);
    var o := |pre| + |key| + 1;
    StrRoundTrip(pre, key, [server, channel, kind, players % 256, players / 256] + post);
    StrRoundTrip(pre, key, [server, channel, kind]);
    PlaceAndKind(long, o);
    PlaceAndKind(short, o);
    ShortRead(short, o + 3, 2, true);
    TwoBytes(long, o + 3);
  }

  lemma TwoBytes(buf: seq<u8>, off: nat)
    requires off + 2 <= |buf|
    ensures ReadNum(buf, off, 2, true) == ((buf[off] as int) + 256 * (buf[off + 1] as int), off + 2)
  {
    var bs := buf[off..off + 2];
    assert bs == [buf[off], buf[off + 1]];
    ByteOrder(buf[off], buf[off + 1], 0, 0);
  }

  function SetChannel(v: View, p: Place, c: Channel): (r: View)
    requires v.Has(p)
    ensures r.Has(p) && r.At(p) == c
  {
    var s := v.servers[p.server - 1];
    v.(servers := v.servers[p.server - 1 := s.(channels := s.channels[p.channel - 1 := c])])
  }

  function SetStatus(v: View, i: nat, status: Status): View
    requires i < |v.servers|
  {
    v.(servers := v.servers[i := v.servers[i].(status := status)])
  }

  function Handle(v: View, m: Message): View {
    if !v.Has(m.from) then v
    else if m.kind == HELLO || m.kind == HELLO_ANSWER then
      var v1 := SetChannel(v, m.from, Channel(true, v.now, m.players));
      if m.from.server != v.self.server then SetStatus(v1, m.from.server - 1, Ready) else v1
    else if m.kind == GOODBYE then
      var v1 := SetChannel(v, m.from, Silent);
      if m.from.server != v.self.server
      then SetStatus(v1, m.from.server - 1, StatusOf(v1.servers[m.from.server - 1].channels)) else v1
    else if m.kind == HEARTBEAT then SetChannel(v, m.from, v.At(m.from).(lastHeartbeat := v.now))
    else if m.kind == NUMPLAYERS then SetChannel(v, m.from, v.At(m.from).(numPlayers := m.players))
    else v
  }

  datatype Event = Ticked(now: nat) | Handled(m: Message)

  function Apply(v: View, e: Event): View {
    match e
    case Ticked(now) => Tick(v, now)
    case Handled(m) => Handle(v, m)
  }

  function After(v: View, events: seq<Event>): View
    decreases |events|
  {
    if events == [] then v else Apply(After(v, events[..|events| - 1]), events[|events| - 1])
  }

  // ----- Status -----

  /** Every other server is Ready exactly when one of its channels is online. */
  predicate StatusRight(v: View) {
    forall i :: 0 <= i < |v.servers| && i + 1 != v.self.server ==> v.servers[i].status == StatusOf(v.servers[i].channels)
  }

  /** The start: nothing but our own channel is online, and only our own server is Ready. */
  ghost predicate Fresh(v: View) {
    && (forall i :: 0 <= i < |v.servers| && i + 1 != v.self.server ==> v.servers[i].status == NotReady)
    && (forall p: Place :: v.Has(p) && p != v.self ==> v.At(p) == Silent)
  }

  lemma FreshStatusRight(v: View)
    requires Fresh(v)
    ensures StatusRight(v)
  {
    forall i | 0 <= i < |v.servers| && i + 1 != v.self.server
      ensures !AnyOnline(v.servers[i].channels)
    {
      forall j | 0 <= j < |v.servers[i].channels| ensures !v.servers[i].channels[j].isOnline {
        assert v.At(Place(i + 1, j + 1)) == v.servers[i].channels[j];
      }
    }
  }

  lemma TickStatusRight(v: View, now: nat)
    requires StatusRight(v)
    ensures StatusRight(Tick(v, now))
  {
    var v1 := if v.now + UDP_SERVER_HEARTBEAT_TIMEOUT < now then Reset(v) else v;
    ResetStatusRight(v);
    var v2 := Tick(v, now);
    forall i | 0 <= i < |v2.servers| && i + 1 != v.self.server
      ensures v2.servers[i].status == StatusOf(v2.servers[i].channels)
    {
      assert v2.servers[i] == ExpireServer(v.self, i, v1.servers[i], now);
    }
  }

  lemma ResetStatusRight(v: View)
    ensures StatusRight(Reset(v))
  {
  }

  lemma HandleStatusRight(v: View, m: Message)
    requires StatusRight(v)
    ensures StatusRight(Handle(v, m))
  {
    if v.Has(m.from) {
      var i, j := m.from.server - 1, m.from.channel - 1;
      var before, after := v.servers[i].channels, Handle(v, m).servers[i].channels;
      if m.kind == HELLO || m.kind == HELLO_ANSWER {
        assert after[j].isOnline;
      } else if m.kind == HEARTBEAT || m.kind == NUMPLAYERS {
        assert forall k :: 0 <= k < |after| ==> after[k].isOnline == before[k].isOnline;
        if AnyOnline(before) {
          var k :| 0 <= k < |before| && before[k].isOnline;
          assert after[k].isOnline;
        }
      }
    }
  }

  lemma {:induction false} AlwaysStatusRight(v: View, events: seq<Event>)
    requires Fresh(v)
    ensures StatusRight(After(v, events))
    decreases |events|
  {
    if events == [] {
      FreshStatusRight(v);
    } else {
      var n := |events| - 1;
      AlwaysStatusRight(v, events[..n]);
      match events[n]
      case Ticked(now) => TickStatusRight(After(v, events[..n]), now);
      case Handled(m) => HandleStatusRight(After(v, events[..n]), m);
    }
  }

  // ----- Freshness -----

  predicate SignOfLife(e: Event, p: Place) {
    e.Handled? && e.m.from == p && (e.m.kind == HELLO || e.m.kind == HELLO_ANSWER || e.m.kind == HEARTBEAT)
  }

  lemma ResetAt(v: View, p: Place)
    requires v.Has(p) && p != v.self
    ensures Reset(v).Has(p) && Reset(v).At(p) == Silent
  {
    var i, j := p.server - 1, p.channel - 1;
    assert Reset(v).servers[i] == ResetServer(v.self, i, v.servers[i]);
    assert Place(i + 1, j + 1) == p;
  }

  lemma TickAt(v: View, now: nat, p: Place)
    requires v.Has(p) && p != v.self
    ensures Tick(v, now).Has(p) && Tick(v, now).self == v.self && Tick(v, now).now == now
    ensures Tick(v, now).At(p) == Expire(if v.now + UDP_SERVER_HEARTBEAT_TIMEOUT < now then Silent else v.At(p), now)
  {
    ResetAt(v, p);
    var v1 := if v.now + UDP_SERVER_HEARTBEAT_TIMEOUT < now then Reset(v) else v;
    var i, j := p.server - 1, p.channel - 1;
    assert Tick(v, now).servers[i] == ExpireServer(v.self, i, v1.servers[i], now);
    assert Place(i + 1, j + 1) == p;
  }

  lemma HandleAt(v: View, m: Message, p: Place)
    requires v.Has(p)
    ensures Handle(v, m).Has(p) && Handle(v, m).now == v.now && Handle(v, m).self == v.self
    ensures m.from != p || m.kind > NUMPLAYERS ==> Handle(v, m).At(p) == v.At(p)
    ensures m.from == p && SignOfLife(Handled(m), p) ==> Handle(v, m).At(p).lastHeartbeat == v.now
    ensures m.from == p && (m.kind == HELLO || m.kind == HELLO_ANSWER) ==> Handle(v, m).At(p).isOnline
    ensures m.from == p && m.kind == GOODBYE ==> Handle(v, m).At(p) == Silent
    ensures m.from == p && m.kind == HEARTBEAT ==> Handle(v, m).At(p).isOnline == v.At(p).isOnline
    ensures m.from == p && m.kind == NUMPLAYERS ==> Handle(v, m).At(p) == v.At(p).(numPlayers := m.players)
  {
  }

  /** What a message does to the entries, in literal terms: 0 is HELLO, 1 HELLO_ANSWER, 2 GOODBYE, 3 HEARTBEAT, 4 NUMPLAYERS.
      Only the sender's entry changes; a sender that is not in the list changes nothing. */
  lemma HandleOutcome(v: View, m: Message, p: Place)
    requires v.Has(p)
    ensures Handle(v, m).Has(p) && Handle(v, m).now == v.now && Handle(v, m).self == v.self
    ensures !v.Has(m.from) ==> Handle(v, m) == v
    ensures Handle(v, m).At(p)
         == if p != m.from then v.At(p)
            else if m.kind <= 1 then Channel(true, v.now, m.players)
            else if m.kind == 2 then Channel(false, 0, 0)
            else if m.kind == 3 then Channel(v.At(p).isOnline, v.now, v.At(p).numPlayers)
            else if m.kind == 4 then Channel(v.At(p).isOnline, v.At(p).lastHeartbeat, m.players)
            else v.At(p)
  {
  }

  /** And to the status of server i, counted from 0: our own never changes. */
  lemma HandleStatus(v: View, m: Message, i: nat)
    requires i < |v.servers| && v.Has(m.from)
    ensures |Handle(v, m).servers| == |v.servers|
    ensures var s := Handle(v, m).servers[i];
            s.status == if i + 1 == v.self.server || i + 1 != m.from.server || m.kind > 2 then v.servers[i].status
                        else if m.kind <= 1 || exists j :: 0 <= j < |s.channels| && s.channels[j].isOnline then Ready
                        else NotReady
  {
  }

  /** What a tick does to the entries: our own stays; after more than three time units without a tick every other is
      forgotten; else those that were heard of more than three time units ago are. */
  lemma TickOutcome(v: View, now: nat, p: Place)
    requires v.Has(p)
    ensures Tick(v, now).Has(p) && Tick(v, now).now == now && Tick(v, now).self == v.self
    ensures Tick(v, now).At(p)
         == if p == v.self then v.At(p)
            else if v.now + 3 < now || (v.At(p).isOnline && v.At(p).lastHeartbeat + 3 < now) then Channel(false, 0, 0)
            else v.At(p)
    ensures p.server == v.self.server ==> Tick(v, now).servers[p.server - 1].status == v.servers[p.server - 1].status
  {
    var v1 := if v.now + UDP_SERVER_HEARTBEAT_TIMEOUT < now then Reset(v) else v;
    var i := p.server - 1;
    KeepsShape(v, now, p);
    assert Reset(v).servers[i] == ResetServer(v.self, i, v.servers[i]);
    assert Tick(v, now).servers[i] == ExpireServer(v.self, i, v1.servers[i], now);
    assert Place(i + 1, p.channel - 1 + 1) == p;
  }

  lemma KeepsShape(v: View, now: nat, p: Place)
    requires v.Has(p)
    ensures Tick(v, now).Has(p) && Tick(v, now).self == v.self
  {
    var i := p.server - 1;
    assert Reset(v).servers[i] == ResetServer(v.self, i, v.servers[i]);
    var v1 := if v.now + UDP_SERVER_HEARTBEAT_TIMEOUT < now then Reset(v) else v;
    assert Tick(v, now).servers[i] == ExpireServer(v.self, i, v1.servers[i], now);
  }

  lemma {:induction false} AfterKeepsShape(v: View, events: seq<Event>, p: Place)
    requires v.Has(p)
    ensures After(v, events).Has(p) && After(v, events).self == v.self
    decreases |events|
  {
    if events != [] {
      var n := |events| - 1;
      AfterKeepsShape(v, events[..n], p);
      match events[n]
      case Ticked(now) => KeepsShape(After(v, events[..n]), now, p);
      case Handled(m) => HandleAt(After(v, events[..n]), m, p);
    }
  }

  /** The channel was heard of when the clock showed its recorded heartbeat. */
  ghost predicate HeardAt(v: View, events: seq<Event>, p: Place, time: nat) {
    exists k :: 0 <= k < |events| && SignOfLife(events[k], p) && After(v, events[..k]).now == time
  }

  lemma HeardEarlier(v: View, events: seq<Event>, n: nat, p: Place, time: nat)
    requires n <= |events| && HeardAt(v, events[..n], p, time)
    ensures HeardAt(v, events, p, time)
  {
    var k :| 0 <= k < n && SignOfLife(events[..n][k], p) && After(v, events[..n][..k]).now == time;
    assert events[..n][..k] == events[..k] && events[..n][k] == events[k];
  }

  /** Whatever happens, a channel believed online was heard of at its recorded heartbeat time. */
  lemma {:induction false} OnlineWasHeard(v: View, events: seq<Event>, p: Place)
    requires Fresh(v) && v.Has(p) && p != v.self && After(v, events).Online(p)
    ensures HeardAt(v, events, p, After(v, events).At(p).lastHeartbeat)
    decreases |events|
  {
    if events != [] {
      var n := |events| - 1;
      var before := After(v, events[..n]);
      AfterKeepsShape(v, events[..n], p);
      match events[n] {
        case Ticked(now) =>
          TickAt(before, now, p);
          OnlineWasHeard(v, events[..n], p);
          HeardEarlier(v, events, n, p, before.At(p).lastHeartbeat);
        case Handled(m) =>
          HandleAt(before, m, p);
          if !SignOfLife(events[n], p) {
            OnlineWasHeard(v, events[..n], p);
            HeardEarlier(v, events, n, p, before.At(p).lastHeartbeat);
          }
      }
    }
  }

  /** After every tick, each other channel believed online was heard of at most three time units before it. */
  lemma OnlineIsFresh(v: View, events: seq<Event>, now: nat, p: Place)
    requires Fresh(v) && v.Has(p) && p != v.self && After(v, events + [Ticked(now)]).Online(p)
    ensures exists time: nat :: HeardAt(v, events + [Ticked(now)], p, time) && now <= time + UDP_SERVER_HEARTBEAT_TIMEOUT
  {
    var all := events + [Ticked(now)];
    assert all[..|events|] == events;
    AfterKeepsShape(v, events, p);
    TickAt(After(v, events), now, p);
    OnlineWasHeard(v, all, p);
    assert HeardAt(v, all, p, After(v, all).At(p).lastHeartbeat);
  }

  /** A channel that stays silent for more than the timeout is offline after the next tick. */
  lemma SilenceIsNoticed(v: View, now: nat, p: Place)
    requires v.Has(p) && p != v.self && v.At(p).lastHeartbeat + UDP_SERVER_HEARTBEAT_TIMEOUT < now
    ensures !Tick(v, now).Online(p)
  {
    TickAt(v, now, p);
  }

  // ----- No false suspicion -----

  function Ticks(events: seq<Event>): nat {
    if events == [] then 0 else Ticks(events[..|events| - 1]) + if events[|events| - 1].Ticked? then 1 else 0
  }

  predicate Hears(events: seq<Event>, p: Place) {
    exists k :: 0 <= k < |events| && SignOfLife(events[k], p)
  }

  /** Every window of three tick intervals, that is from one tick to the third tick after it, contains a sign of life. */
  predicate Attentive(events: seq<Event>, p: Place) {
    forall a, b :: 0 <= a <= b <= |events| && Ticks(events[a..b]) >= 4 ==> Hears(events[a..b], p)
  }

  /** Each tick moves the clock forward by at most one. */
  predicate SteadyClock(start: nat, events: seq<Event>)
    decreases |events|
  {
    events == [] ||
    var n := |events| - 1;
    && SteadyClock(start, events[..n])
    && (events[n].Ticked? ==> Clock(start, events[..n]) <= events[n].now <= Clock(start, events[..n]) + 1)
  }

  function Clock(start: nat, events: seq<Event>): nat
    decreases |events|
  {
    if events == [] then start
    else if events[|events| - 1].Ticked? then events[|events| - 1].now
    else Clock(start, events[..|events| - 1])
  }

  predicate NoGoodbye(events: seq<Event>, p: Place) {
    forall k :: 0 <= k < |events| && events[k].Handled? && events[k].m.from == p ==> events[k].m.kind != GOODBYE
  }

  lemma {:induction false} ClockIsNow(v: View, events: seq<Event>)
    ensures After(v, events).now == Clock(v.now, events)
    decreases |events|
  {
    if events != [] {
      ClockIsNow(v, events[..|events| - 1]);
    }
  }

  /** Where the stretch without a sign of life that ends here begins. */
  function SilentSince(events: seq<Event>, p: Place): (a: nat)
    ensures a <= |events| && !Hears(events[a..], p)
    decreases |events|
  {
    if events == [] then 0
    else
      var n := |events| - 1;
      if SignOfLife(events[n], p) then |events|
      else
        var a := SilentSince(events[..n], p);
        StillSilent(events, a, p);
        a
  }

  lemma StillSilent(events: seq<Event>, a: nat, p: Place)
    requires a < |events| && !SignOfLife(events[|events| - 1], p) && !Hears(events[..|events| - 1][a..], p)
    ensures !Hears(events[a..], p)
  {
    assert events[a..][..|events| - 1 - a] == events[..|events| - 1][a..];
    assert forall k :: 0 <= k < |events| - 1 - a ==> events[a..][k] == events[..|events| - 1][a..][k];
  }

  lemma TicksSnoc(events: seq<Event>, a: nat)
    requires events != [] && a < |events|
    ensures Ticks(events[a..]) == Ticks(events[..|events| - 1][a..]) + if events[|events| - 1].Ticked? then 1 else 0
  {
    assert events[a..][..|events| - a - 1] == events[..|events| - 1][a..];
  }

  lemma AttentivePrefix(events: seq<Event>, n: nat, p: Place)
    requires n <= |events| && Attentive(events, p)
    ensures Attentive(events[..n], p)
  {
    forall a, b | 0 <= a <= b <= n && Ticks(events[..n][a..b]) >= 4
      ensures Hears(events[..n][a..b], p)
    {
      assert events[..n][a..b] == events[a..b];
    }
  }

  /** The recorded heartbeat lags the clock by at most the ticks since the last sign of life. */
  predicate LagBounded(v: View, events: seq<Event>, p: Place) {
    v.Online(p) && v.now <= v.At(p).lastHeartbeat + Ticks(events[SilentSince(events, p)..])
  }

  lemma LagAfterTick(before: View, events: seq<Event>, now: nat, p: Place)
    requires p != before.self && LagBounded(before, events, p)
    requires before.now <= now <= before.now + 1 && Attentive(events + [Ticked(now)], p)
    ensures LagBounded(Tick(before, now), events + [Ticked(now)], p)
  {
    var all := events + [Ticked(now)];
    assert all[..|events|] == events;
    var a := SilentSince(all, p);
    TicksSnoc(all, a);
    assert all[a..] == all[a..|all|];
    assert Ticks(all[a..]) <= 3;
    TickAt(before, now, p);
  }

  lemma LagAfterMessage(before: View, events: seq<Event>, m: Message, p: Place)
    requires LagBounded(before, events, p) && (m.from == p ==> m.kind != GOODBYE)
    ensures LagBounded(Handle(before, m), events + [Handled(m)], p)
  {
    var all := events + [Handled(m)];
    assert all[..|events|] == events;
    HandleAt(before, m, p);
    if !SignOfLife(Handled(m), p) {
      TicksSnoc(all, SilentSince(all, p));
    }
  }

  lemma {:induction false} LagIsBounded(v: View, events: seq<Event>, p: Place)
    requires v.Has(p) && p != v.self && v.At(p).isOnline && v.At(p).lastHeartbeat == v.now
    requires SteadyClock(v.now, events) && Attentive(events, p) && NoGoodbye(events, p)
    ensures LagBounded(After(v, events), events, p)
    decreases |events|
  {
    if events == [] {
      assert After(v, events) == v;
    } else {
      var n := |events| - 1;
      var earlier := events[..n];
      assert events == earlier + [events[n]];
      AttentivePrefix(events, n, p);
      LagIsBounded(v, earlier, p);
      AfterKeepsShape(v, earlier, p);
      ClockIsNow(v, earlier);
      match events[n]
      case Ticked(now) => LagAfterTick(After(v, earlier), earlier, now, p);
      case Handled(m) => LagAfterMessage(After(v, earlier), earlier, m, p);
    }
  }

  /** If each tick moves the clock by at most one and every window of three tick intervals contains a sign of life of a
      peer, no tick ever marks that peer offline. */
  lemma NoFalseSuspicion(v: View, events: seq<Event>, p: Place, n: nat)
    requires v.Has(p) && p != v.self && v.At(p).isOnline && v.At(p).lastHeartbeat == v.now
    requires SteadyClock(v.now, events) && Attentive(events, p) && NoGoodbye(events, p) && n <= |events|
    ensures After(v, events[..n]).Online(p)
  {
    AttentivePrefix(events, n, p);
    SteadyPrefix(v.now, events, n);
    LagIsBounded(v, events[..n], p);
  }

  lemma {:induction false} SteadyPrefix(start: nat, events: seq<Event>, n: nat)
    requires SteadyClock(start, events) && n <= |events|
    ensures SteadyClock(start, events[..n])
    decreases |events|
  {
    if n < |events| {
      SteadyPrefix(start, events[..|events| - 1], n);
      assert events[..|events| - 1][..n] == events[..n];
    } else {
      assert events[..n] == events;
    }
  }

  /** Three intervals is the most: with four silent unit ticks the peer is marked offline. */
  lemma FourSilentTicks(v: View, p: Place)
    requires v.Has(p) && p != v.self && v.At(p).lastHeartbeat == v.now
    ensures var v3 := Tick(Tick(Tick(v, v.now + 1), v.now + 2), v.now + 3);
            (v.Online(p) ==> v3.Online(p)) && !Tick(v3, v.now + 4).Online(p)
  {
    var v1 := Tick(v, v.now + 1);
    var v2 := Tick(v1, v.now + 2);
    var v3 := Tick(v2, v.now + 3);
    TickAt(v, v.now + 1, p);
    TickAt(v1, v.now + 2, p);
    TickAt(v2, v.now + 3, p);
    SilenceIsNoticed(v3, v.now + 4, p);
  }
}
