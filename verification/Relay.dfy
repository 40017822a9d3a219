/** The relay branch of the UDP server: short reads give zero and do not move the cursor, and zero is never relayed. */
module Relay {
  import opened Bytes
  import opened Packets

  const UDP_RELAY_PACKET_SIGNATURE: u8 := 89
  const RELAY_HEADER_SIZE := 10
  const GUEST: u8 := 0
  const HOST: u8 := 1

  datatype Option<T> = None | Some(value: T)

  datatype Peer = Peer(loggedIn: bool, ip: u32, hostPort: u16, guestPort: u16, roomID: u16)

  /** The users by id, and the ids of the existing rooms. */
  datatype World = World(users: map<nat, Peer>, rooms: set<nat>) {
    function UserByID(id: nat): Option<Peer> {
      if id != 0 && id in users then Some(users[id]) else None
    }

    predicate LoggedIn(user: Option<Peer>) {
      user.Some? && user.value.loggedIn
    }

    /** The room with that id; id 0 is no room. */
    function RoomByID(id: nat): Option<nat> {
      if id != 0 && id in rooms then Some(id) else None
    }
  }

  datatype Forward = Forward(ip: u32, port: u16, payload: seq<u8>)

  /** When a datagram is relayed, in terms of its bytes: signature 89, 4-byte sender id, port type 0 or 1, 4-byte target id,
      payload. Both users are logged in and in the same existing room, and the datagram comes from the sender's address and
      one of its two ports. */
  predicate Relayed(w: World, ip: u32, port: u16, datagram: seq<u8>) {
    && |datagram| >= 10
    && datagram[0] == 89
    && (datagram[5] == 0 || datagram[5] == 1)
    && var s, t := FromLE(datagram[1..5]), FromLE(datagram[6..10]);
    && s != 0 && s in w.users && w.users[s].loggedIn
    && t != 0 && t in w.users && w.users[t].loggedIn
    && ip == w.users[s].ip
    && (port == w.users[s].hostPort || port == w.users[s].guestPort)
    && w.users[s].roomID != 0 && w.users[s].roomID in w.rooms && w.users[t].roomID == w.users[s].roomID
  }

  /** Drops the first ten bytes, which must be there. */
  function SendRelayPacket(ip: u32, port: u16, buffer: seq<u8>): (f: Forward)
    requires |buffer| >= RELAY_HEADER_SIZE
    ensures buffer == buffer[..RELAY_HEADER_SIZE] + f.payload
  {
    Forward(ip, port, buffer[RELAY_HEADER_SIZE..])
  }

  /** The signature read on arrival, then the relay branch, with its reads in order. */
  method HandleRelay(w: World, ip: u32, port: u16, datagram: seq<u8>) returns (sent: Option<Forward>, packet: Packet)
    ensures sent.Some? <==> Relayed(w, ip, port, datagram)
    ensures sent.Some? ==>
              var target := w.users[FromLE(datagram[6..10])];
              && packet.readOffset == 10
              && sent.value.ip == target.ip
              && sent.value.port == (if datagram[5] == 1 then target.hostPort else target.guestPort)
              && sent.value.payload == datagram[10..]
  {
    packet := new Packet(datagram);
    sent := None;
    var signature := packet.ReadUInt8();
    if signature != UDP_RELAY_PACKET_SIGNATURE { return; }

    var userID := packet.ReadBytes(4, true);
    var user := w.UserByID(userID);
    if !w.LoggedIn(user) { return; }
    assert packet.readOffset == 5;
    if ip != user.value.ip { return; }
    if port != user.value.hostPort && port != user.value.guestPort { return; }
    var room := w.RoomByID(user.value.roomID);
    if room.None? { return; }

    var portType := packet.ReadUInt8();
    if portType != GUEST && portType != HOST { return; }

    var targetUserID := packet.ReadBytes(4, true);
    if targetUserID == 0 { return; }
    assert packet.readOffset == 10;
    var targetUser := w.UserByID(targetUserID);
    if !w.LoggedIn(targetUser) { return; }
    if w.RoomByID(targetUser.value.roomID) != room { return; }

    var f := SendRelayPacket(targetUser.value.ip,
                             if portType == HOST then targetUser.value.hostPort else targetUser.value.guestPort,
                             packet.buffer);
    sent := Some(f);
  }
}
