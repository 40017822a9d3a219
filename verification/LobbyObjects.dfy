/** The user and room managers with their handlers, on User, Room and GameMatch objects; each handler refines its step on values. */
module LobbyObjects {
  import opened Bytes
  import opened Rooms
  import L = Lobby
  import Safety = LobbySafety
  import O = RoomObjects
  import S = SettingsCodec
  import R = SettingsReplication
  import P = RoomPackets
  import Limits = LobbyLimits
  import Packets

  ghost function Matches(rooms: seq<O.Room>): set<O.GameMatch>
    reads rooms
  {
    set r | r in rooms && r.gameMatch != null :: r.gameMatch
  }

  /** No two rooms are one object, and no two share a match. */
  ghost predicate Apart(rooms: seq<O.Room>)
    reads rooms
  {
    && (forall i, j :: 0 <= i < j < |rooms| ==> rooms[i] != rooms[j])
    && (forall i, j :: 0 <= i < j < |rooms| ==> rooms[i].gameMatch == null || rooms[i].gameMatch != rooms[j].gameMatch)
  }

  ghost function Values(rooms: seq<O.Room>): (vs: seq<Room>)
    reads rooms, Matches(rooms)
    ensures |vs| == |rooms| && forall i :: 0 <= i < |rooms| ==> vs[i] == rooms[i].Value()
  {
    seq(|rooms|, i requires 0 <= i < |rooms| reads rooms, Matches(rooms) => rooms[i].Value())
  }

  ghost function Places(users: seq<User>): map<User, L.Place>
    reads users
  {
    map u | u in users :: L.Place(u.status, u.currentRoomID)
  }

  class Managers {
    var users: seq<User>
    var rooms: seq<O.Room>
    /** The rows of the rooms table that belong to this channel. */
    var table: map<nat, L.Row>
    var numPlayers: nat
    const maxPlayers: nat
    /** What was sent to clients so far. */
    var sent: seq<Sent>

    ghost function Value(): L.State
      reads this, users, rooms, Matches(rooms)
    {
      L.State(users, Places(users), Values(rooms), table, numPlayers, maxPlayers)
    }

    ghost predicate Valid()
      reads this, users, rooms, Matches(rooms)
    {
      Apart(rooms) && L.Inv(Value())
    }

    constructor (maxPlayers: nat)
      requires maxPlayers < 0x1_0000
      ensures Valid() && Safety.Initial(Value()) && table == map[] && sent == []
    {
      users, rooms, table, numPlayers, sent := [], [], map[], 0, [];
      this.maxPlayers := maxPlayers;
      new;
      Safety.InitialInv(Value());
    }

    // ----- Lookups -----

    /** GetRoomByRoomID, as an index, or -1. */
    method GetRoomByRoomID(roomID: nat) returns (k: int)
      ensures k == L.GetRoom(Values(rooms), roomID)
    {
      if roomID == 0 { return -1; }
      k := 0;
      while k < |rooms|
        invariant 0 <= k <= |rooms|
        invariant forall i :: 0 <= i < k ==> rooms[i].roomID != roomID
      {
        if rooms[k].roomID == roomID {
          FirstWith(Values(rooms), roomID, k);
          return;
        }
        k := k + 1;
      }
      k := -1;
    }

    /** GetFreeRoomID. */
    method GetFreeRoomID() returns (roomID: nat)
      ensures roomID == L.FreeID(Values(rooms), 1)
    {
      hide L.Find, L.FreeID;
      ghost var values := Values(rooms);
      roomID := 1;
      while roomID < 0xFFFF
        invariant 1 <= roomID <= 0xFFFF && values == Values(rooms)
        invariant L.FreeID(values, 1) == L.FreeID(values, roomID)
      {
        var k := GetRoomByRoomID(roomID);
        NextID(values, roomID);
        assert values == Values(rooms);
        if k < 0 { return; }
        roomID := roomID + 1;
      }
      NextID(values, roomID);
      roomID := 0;
    }

    // ----- The rooms table -----

    method UpdateRoom(room: O.Room, ok: bool)
      modifies this`table
      ensures table == L.UpdateRow(old(table), room.Value(), ok)
      ensures ok && room.roomID in table && |room.roomUsers| <= 255 ==> L.Describes(table[room.roomID], room.Value())
    {
      hide L.Describes, L.RowOf;
      if |room.roomUsers| <= 255 { L.RowDescribes(room.Value()); }
      if ok && room.roomID in table {
        table := table[room.roomID := Image(room)];
      }
    }

    function Image(room: O.Room): (row: L.Row)
      reads room
      ensures row == L.RowOf(room.Value())
    {
      L.Row(room.roomSettings[S.Password].s != [], room.roomSettings[S.LevelLimit].n, room.roomSettings[S.GameModeID].n,
            room.roomSettings[S.MapID].n, |room.roomUsers| % 256, MaxPlayers(room.roomSettings))
    }

    method InsertRoom(room: O.Room, ok: bool) returns (result: int)
      modifies this`table
      ensures (result, table) == L.InsertRow(old(table), room.Value(), ok)
      ensures result == if !ok then -1 else if room.roomID in old(table) then 0 else 1
      ensures result == 1 && |room.roomUsers| <= 255 ==> L.Describes(table[room.roomID], room.Value())
    {
      hide L.Describes, L.RowOf;
      if |room.roomUsers| <= 255 { L.RowDescribes(room.Value()); }
      if !ok { return -1; }
      if room.roomID in table { return 0; }
      table := table[room.roomID := Image(room)];
      result := 1;
    }

    method DeleteRoom(roomID: nat, ok: bool)
      modifies this`table
      ensures table == L.DeleteRow(old(table), roomID, ok)
    {
      if ok {
        table := table - {roomID};
      }
    }

    // ----- Joining -----

    method AddTo(k: nat, u: User)
      requires Apart(rooms) && k < |rooms| && u in users && u !in rooms[k].roomUsers
      modifies u, rooms[k]
      ensures Apart(rooms) && Places(users) == old(Places(users))[u := L.Place(InRoom, rooms[k].roomID)]
      ensures var r := old(rooms[k].Value());
              Values(rooms) == old(Values(rooms))[k := r.(members := r.members + [u])]
    {
      var _ := rooms[k].AddRoomUser(u);
    }

    method Admit(k: nat, u: User, infos: seq<seq<u8>>, ok: bool)
      requires Apart(rooms) && k < |rooms| && u in users && u !in rooms[k].roomUsers
      modifies this`table, this`sent, u, rooms[k]
      ensures Apart(rooms)
      ensures var e := L.Admit(old(Value()), k, u, infos, ok);
              Value() == e.state && sent == old(sent) + e.out
    {
      hide L.UpdateRow, Apart, Places, Values, L.Describes;
      AddTo(k, u);
      UpdateRoom(rooms[k], ok);
      sent := sent + [Sent(u, Full(P.Reply(rooms[k].roomHostUser.userID, rooms[k].roomID, rooms[k].roomSettings, infos)))];
    }

    /** parsePacket_Room_JoinRoom. A user in game is let through; the lobby is in order afterwards exactly when
        that does not move it out of a room. */
    method JoinRoom(u: User, packet: Packets.Packet, infos: seq<seq<u8>>, characterOk: bool, ok: bool)
      requires Valid() && packet.Valid()
      modifies this, users, rooms, packet`readOffset
      ensures var (roomID, password) := P.JoinRequest(packet.buffer, old(packet.readOffset));
              var e := L.Join(old(Value()), u, roomID, password, infos, characterOk, ok);
              && Apart(rooms) && Value() == e.state && sent == old(sent) + e.out
              && (Valid() <==> Limits.JoinIsOrderly(old(Value()), u, roomID, password, characterOk))
    {
      hide L.Inv, L.Find, L.Admit, MaxPlayers, Limits.JoinIsOrderly, Packets.ReadNum, Packets.ReadStr;
      ghost var l := Value();
      ghost var request := P.JoinRequest(packet.buffer, packet.readOffset);
      Limits.JoinKeepsInvIff(l, u, request.0, request.1, infos, characterOk, ok);
      assert sent + [] == sent;
      if u !in users || u.status == InLogin || u.status == InRoom { return; }
      var roomID, password := P.ParseJoinRoom(packet);
      var k := GetRoomByRoomID(roomID);
      assert Value() == l;
      if k < 0 { return; }
      var room := rooms[k];
      var wanted := room.roomSettings[S.Password].s;
      if wanted != [] && password != wanted { return; }
      if |room.roomUsers| >= MaxPlayers(room.roomSettings) { return; }
      if !characterOk { return; }
      if u in room.roomUsers { return; }
      Admit(k, u, infos, ok);
    }

    // ----- Creating -----

    method NewRoom(roomID: nat, u: User, vals: S.Values) returns (room: O.Room)
      requires Apart(rooms) && u in users
      modifies u
      ensures fresh(room) && room.gameMatch == null
      ensures room.Value() == Room(roomID, u, vals, [u], None, Max(1, MaxPlayers(vals)))
      ensures Apart(rooms) && Values(rooms) == old(Values(rooms)) && Places(users) == old(Places(users))[u := L.Place(InRoom, roomID)]
    {
      room := new O.Room(roomID, u, vals);
      var _ := room.AddRoomUser(u);
      assert [] + [u] == [u];
    }

    method ToLobby(u: User)
      requires Apart(rooms) && u in users
      modifies u
      ensures Apart(rooms) && Values(rooms) == old(Values(rooms)) && Places(users) == old(Places(users))[u := L.LOBBY]
    {
      u.status := InLobby;
      u.currentRoomID := 0;
    }

    method AppendRoom(room: O.Room)
      requires Apart(rooms) && room !in rooms && room.gameMatch == null
      modifies this`rooms
      ensures Apart(rooms) && Values(rooms) == old(Values(rooms)) + [room.Value()]
    {
      rooms := rooms + [room];
    }

    method OpenRoom(roomID: nat, u: User, vals: S.Values, info: seq<u8>, ok: bool)
      requires Apart(rooms) && u in users
      modifies this`rooms, this`table, this`sent, u
      ensures Apart(rooms)
      ensures var e := L.Open(old(Value()), roomID, u, vals, info, ok);
              Value() == e.state && sent == old(sent) + e.out
    {
      hide L.InsertRow, MaxPlayers, Apart, Values, Places, L.Describes;
      ghost var l := Value();
      assert sent + [] == sent;
      var room := NewRoom(roomID, u, vals);
      var result := InsertRoom(room, ok);
      assert Values(rooms) == l.rooms && Places(users) == l.at[u := L.Place(InRoom, roomID)];
      if result <= 0 {
        ToLobby(u);
        assert Places(users) == l.at[u := L.LOBBY];
      } else {
        AppendRoom(room);
        sent := sent + [Sent(u, Full(P.Reply(u.userID, roomID, vals, [info])))];
        assert Values(rooms) == l.rooms + [room.Value()];
      }
      assert Value() == L.Open(l, roomID, u, vals, info, ok).state;
    }

    /** parsePacket_Room_CreateRoom, which reads the packet only after its guards. The lobby is in order afterwards exactly
        when the user is not in game or is refused. */
    method CreateRoom(u: User, packet: Packets.Packet, info: seq<u8>, characterOk: bool, ok: bool)
      requires Valid() && packet.Valid()
      modifies this, users, packet`readOffset
      ensures var vals := P.CreateSettings(packet.buffer, old(packet.readOffset));
              var e := L.Create(old(Value()), u, vals, info, characterOk, ok);
              Apart(rooms) && Value() == e.state && sent == old(sent) + e.out
      ensures Valid() <==> Limits.CreateIsOrderly(old(Value()), u, characterOk)
    {
      hide L.Inv, L.Open, L.FreeID, P.CreateSettings, Limits.CreateIsOrderly;
      ghost var l := Value();
      Limits.CreateKeepsInvIff(l, u, P.CreateSettings(packet.buffer, packet.readOffset), info, characterOk, ok);
      assert sent + [] == sent;
      if u !in users || u.status == InLogin || u.status == InRoom { return; }
      var roomID := GetFreeRoomID();
      assert Value() == l;
      if roomID == 0 { return; }
      if !characterOk { return; }
      var vals := P.ParseCreateRoom(packet);
      assert Value() == l;
      OpenRoom(roomID, u, vals, info, ok);
    }

    // ----- Leaving -----

    method TakeOut(k: nat, u: User)
      requires Apart(rooms) && k < |rooms| && u in users && u in rooms[k].roomUsers
      modifies u, rooms[k], rooms[k].gameMatch
      ensures Apart(rooms) && Places(users) == old(Places(users))[u := L.LOBBY]
      ensures Values(rooms) == old(Values(rooms))[k := Vacated(old(rooms[k].Value()), u)]
      ensures rooms[k].gameMatch == old(rooms[k].gameMatch)
    {
      rooms[k].TakeOut(u);
    }

    method ReplaceHost(k: nat) returns (out: seq<Sent>)
      requires Apart(rooms) && k < |rooms| && rooms[k].roomUsers != []
      modifies rooms[k], rooms[k].gameMatch
      ensures Apart(rooms) && Places(users) == old(Places(users))
      ensures var (q, sent) := HostLeft(old(rooms[k].Value()));
              Values(rooms) == old(Values(rooms))[k := q] && out == sent
    {
      out := rooms[k].ReplaceHost();
    }

    /** RoomManager::RemoveRoom. */
    method RemoveRoom(k: nat, ok: bool)
      requires Apart(rooms) && k < |rooms|
      modifies this`rooms, this`table
      ensures Apart(rooms) && Values(rooms) == L.Without(old(Values(rooms)), k)
      ensures table == L.DeleteRow(old(table), old(rooms[k].roomID), ok)
    {
      DeleteRoom(rooms[k].roomID, ok);
      rooms := rooms[..k] + rooms[k + 1..];
    }

    /** What RemoveRoomUser does for the members that stay. */
    method SettleRoom(k: nat, u: User, ok: bool)
      requires Apart(rooms) && k < |rooms| && rooms[k].roomUsers != []
      modifies this`table, this`sent, rooms[k], rooms[k].gameMatch
      ensures Apart(rooms) && Places(users) == old(Places(users))
      ensures var v := old(rooms[k].Value());
              var (q, out) := if v.host == u then HostLeft(v) else (v, []);
              Values(rooms) == old(Values(rooms))[k := q] && sent == old(sent) + out && table == L.UpdateRow(old(table), v, ok)
    {
      hide HostLeft, L.UpdateRow, Apart, Places, L.Describes;
      UpdateRoom(rooms[k], ok);
      if rooms[k].roomHostUser == u {
        var out := ReplaceHost(k);
        sent := sent + out;
      } else {
        assert sent + [] == sent;
      }
    }

    /** Room::RemoveRoomUser. */
    method RemoveRoomUser(k: nat, u: User, ok: bool)
      requires Apart(rooms) && k < |rooms| && u in users && u in rooms[k].roomUsers
      modifies this`rooms, this`table, this`sent, u, rooms[k], rooms[k].gameMatch
      ensures Apart(rooms)
      ensures var e := L.RemoveRoomUser(old(Value()), k, u, ok);
              Value() == e.state && sent == old(sent) + e.out
    {
      hide HostLeft, L.UpdateRow, Vacated, Apart, Places, Values, L.Without, L.RemoveRoomUser;
      ghost var l := Value();
      LeaveByCases(l, k, u, ok);
      TakeOut(k, u);
      ghost var v := Vacated(l.rooms[k], u);
      if rooms[k].roomUsers == [] {
        RemoveRoom(k, ok);
        assert sent + [] == sent;
        WithoutReplaced(l.rooms, k, v);
      } else {
        SettleRoom(k, u, ok);
        ReplacedTwice(l.rooms, k, v, if v.host == u then HostLeft(v).0 else v);
      }
    }

    /** parsePacket_Room_LeaveRoom. */
    method LeaveRoom(u: User, ok: bool)
      requires Valid()
      modifies this, users, rooms, Matches(rooms)
      ensures L.LeaveHits(old(Value()), u)
      ensures var e := L.Leave(old(Value()), u, ok);
              Valid() && Value() == e.state && sent == old(sent) + e.out
    {
      hide L.Inv, L.Find, L.RemoveRoomUser;
      ghost var l := Value();
      Safety.LeaveKeepsInv(l, u, ok);
      assert sent + [] == sent;
      if u !in users || (u.status != InRoom && u.status != InGame) { return; }
      var k := GetRoomByRoomID(u.currentRoomID);
      assert Value() == l;
      if k < 0 { return; }
      RemoveRoomUser(k, u, ok);
    }

    method ForgetUser(u: User)
      requires NoDup(users) && u in users
      modifies this`users, this`numPlayers
      ensures users == Erase(old(users), u) && numPlayers == |users| % 0x1_0000
      ensures Places(users) == old(Places(users)) - {u}
    {
      hide Erase;
      ErasedFrom(users, u);
      var k := O.IndexOf(users, u);
      EraseAt(users, u, k);
      users := users[..k] + users[k + 1..];
      numPlayers := |users| % 0x1_0000;
    }

    method OutOfRoom(u: User, ok: bool)
      requires Apart(rooms) && u in users && L.RemoveUserHits(Value(), u)
      modifies this`rooms, this`table, this`sent, users, rooms, Matches(rooms)
      ensures Apart(rooms)
      ensures var e := L.OutOfRoom(old(Value()), u, ok);
              Value() == e.state && sent == old(sent) + e.out
    {
      hide L.Find, L.RemoveRoomUser;
      ghost var l := Value();
      var k := GetRoomByRoomID(u.currentRoomID);
      assert Value() == l;
      if k >= 0 {
        RemoveRoomUser(k, u, ok);
      } else {
        assert sent + [] == sent;
      }
    }

    /** UserManager::RemoveUser, when the connection is lost. */
    method RemoveUser(u: User, ok: bool)
      requires Valid()
      modifies this, users, rooms, Matches(rooms)
      ensures L.RemoveUserHits(old(Value()), u)
      ensures var e := L.RemoveUser(old(Value()), u, ok);
              Valid() && Value() == e.state && sent == old(sent) + e.out
    {
      hide L.Inv, L.OutOfRoom, L.RemoveUserHits, Erase, Apart, Values, Places, NoDup;
      ghost var l := Value();
      HasPlace(users, u);
      Safety.RemoveUserKeepsInv(l, u, ok);
      assert sent + [] == sent;
      if u !in users { return; }
      L.NoDuplicates(l);
      OutOfRoom(u, ok);
      SameUsers(l, u, ok);
      ForgetUser(u);
      assert Value() == L.RemoveUser(l, u, ok).state;
    }

    // ----- Hosting -----

    /** The room that u may act on as its host, or -1. */
    method Hosted(u: User) returns (k: int)
      ensures k == L.Hosted(Value(), u)
      ensures k >= 0 ==> u in users && k < |rooms|
    {
      hide L.Find;
      ghost var l := Value();
      if u !in users { return -1; }
      k := GetRoomByRoomID(u.currentRoomID);
      assert Value() == l;
      if k >= 0 && rooms[k].roomHostUser != u { k := -1; }
    }

    method ChangeRoom(k: nat, d: S.Settings)
      requires Apart(rooms) && k < |rooms|
      modifies rooms[k]
      ensures Apart(rooms) && Places(users) == old(Places(users))
      ensures Values(rooms) == old(Values(rooms))[k := Updated(old(rooms[k].Value()), d)]
      ensures rooms[k].roomUsers == old(rooms[k].roomUsers)
    {
      hide R.Update;
      rooms[k].UpdateRoomSettings(d);
    }

    method Change(k: nat, d: S.Settings, ok: bool)
      requires Apart(rooms) && k < |rooms|
      modifies this`table, this`sent, rooms[k]
      ensures Apart(rooms)
      ensures var e := L.Changed(old(Value()), k, d, ok);
              Value() == e.state && sent == old(sent) + e.out
    {
      hide Updated, L.UpdateRow, Broadcast, Apart, Values, Places, L.Describes;
      UpdatedSame(rooms[k].Value(), d);
      ChangeRoom(k, d);
      UpdateRoom(rooms[k], ok);
      var out := rooms[k].SendToAll(Delta(d));
      sent := sent + out;
    }

    /** parsePacket_Room_UpdateRoomSettings, which reads the packet only after its guards. */
    method UpdateRoomSettings(u: User, packet: Packets.Packet, ok: bool)
      requires Valid() && packet.Valid()
      modifies this`table, this`sent, rooms, packet`readOffset
      ensures var d := S.Parse(packet.buffer, old(packet.readOffset)).0;
              var e := L.Change(old(Value()), u, d, ok);
              Valid() && Value() == e.state && sent == old(sent) + e.out
    {
      hide L.Inv, L.Hosted, L.Changed, Apart, Values, S.Parse;
      ghost var l := Value();
      Safety.ChangeKeepsInv(l, u, S.Parse(packet.buffer, packet.readOffset).0, ok);
      assert sent + [] == sent;
      var k := Hosted(u);
      assert Value() == l;
      if k < 0 || u.status != InRoom { return; }
      var d := S.ParseRoomSettings(packet);
      assert Value() == l;
      Change(k, d, ok);
    }

    method StartMatch(k: nat) returns (out: seq<Sent>)
      requires Apart(rooms) && k < |rooms| && rooms[k].gameMatch == null
      modifies rooms[k]
      ensures Apart(rooms) && Places(users) == old(Places(users))
      ensures var q := Updated(old(rooms[k].Value()).(game := Some(Match([], []))), R.StateDelta(PLAYING));
              Values(rooms) == old(Values(rooms))[k := q]
      ensures out == Broadcast(old(rooms[k].roomUsers), Delta(R.StateDelta(PLAYING)))
    {
      hide Updated, Broadcast, R.StateDelta;
      out := rooms[k].StartMatch();
    }

    /** parsePacket_Host_ServerIsActivated. */
    method ServerIsActivated(u: User)
      requires Valid()
      modifies this`sent, rooms
      ensures var e := L.Activate(old(Value()), u);
              Valid() && Value() == e.state && sent == old(sent) + e.out
    {
      hide L.Inv, L.Hosted, Updated, Broadcast, R.StateDelta, Apart, Values;
      ghost var l := Value();
      Safety.ActivateKeepsInv(l, u);
      assert sent + [] == sent;
      var k := Hosted(u);
      assert Value() == l;
      if k < 0 || (u.status != InRoom && u.status != InGame) || rooms[k].gameMatch != null { return; }
      UpdatedSame(l.rooms[k].(game := Some(Match([], []))), R.StateDelta(PLAYING));
      var out := StartMatch(k);
      sent := sent + out;
      assert Value() == L.Activate(l, u).state;
    }

    /** parsePacket_Host_SaveData; `data` is what ReadArray_UInt8 returns for the announced size. */
    method SaveData(u: User, size: nat, data: seq<u8>)
      requires Valid()
      modifies Matches(rooms)
      ensures Valid() && Value() == L.SaveData(old(Value()), u, size, data)
    {
      hide L.Inv, L.Hosted;
      ghost var l := Value();
      Safety.SaveDataKeepsInv(l, u, size, data);
      var k := Hosted(u);
      assert Value() == l;
      if k < 0 || u.status != InGame || rooms[k].gameMatch == null { return; }
      if size == 0 || size > L.SAVEDATA_MAX_SIZE { return; }
      rooms[k].gameMatch.SetSaveData(data);
      assert Values(rooms) == l.rooms[k := rooms[k].Value()];
    }

    method AddPlayer(k: nat, t: User)
      requires Apart(rooms) && k < |rooms| && rooms[k].gameMatch != null && t in users
      modifies rooms[k].gameMatch, t
      ensures Apart(rooms) && Places(users) == old(Places(users))[t := L.Place(InGame, old(t.currentRoomID))]
      ensures var r := old(rooms[k].Value());
              Values(rooms) == old(Values(rooms))[k := r.(game := Some(r.game.value.(players := r.game.value.players + [t])))]
    {
      rooms[k].gameMatch.AddGameMatchUser(t);
      t.status := InGame;
    }

    /** parsePacket_Host_SendUserStatus; `target` is what GetUserByUserID finds. */
    method SendUserStatus(u: User, target: Option<User>, status: u8)
      requires Valid()
      modifies Matches(rooms), users
      ensures Valid() && Value() == L.SendUserStatus(old(Value()), u, target, status)
    {
      hide L.Inv, L.Hosted, L.Find;
      ghost var l := Value();
      Safety.SendUserStatusKeepsInv(l, u, target, status);
      var k := Hosted(u);
      assert Value() == l;
      if k < 0 || (u.status != InRoom && u.status != InGame) || rooms[k].gameMatch == null { return; }
      if target.None? || target.value !in users { return; }
      var t := target.value;
      if t.status != InRoom && t.status != InGame { return; }
      var j := GetRoomByRoomID(t.currentRoomID);
      assert Value() == l;
      if j != k || status != L.USERSTATUS_INGAME { return; }
      var p := rooms[k].gameMatch.Find(t);
      assert Value() == l;
      if p >= 0 { return; }
      AddPlayer(k, t);
    }

    /** Sets the status of every player of the room's match. */
    method SetPlayersInRoom(k: nat)
      requires Apart(rooms) && k < |rooms| && rooms[k].gameMatch != null
      requires forall p :: p in rooms[k].gameMatch.gameMatchUsers ==> p in users && p.currentRoomID == rooms[k].roomID
      modifies users
      ensures Apart(rooms) && Values(rooms) == old(Values(rooms))
      ensures Places(users) == L.MoveAll(old(Places(users)), rooms[k].gameMatch.gameMatchUsers, L.Place(InRoom, rooms[k].roomID))
    {
      var players := rooms[k].gameMatch.gameMatchUsers;
      for i := 0 to |players|
        invariant Apart(rooms) && Values(rooms) == old(Values(rooms))
        invariant forall u :: u in users ==> u.currentRoomID == old(u.currentRoomID)
        invariant forall u :: u in users ==> u.status == if u in players[..i] then InRoom else old(u.status)
      {
        assert players[i] in players;
        players[i].status := InRoom;
      }
      assert players[..|players|] == players;
    }

    method EndMatch(k: nat) returns (out: seq<Sent>)
      requires Apart(rooms) && k < |rooms|
      modifies rooms[k]
      ensures Apart(rooms) && Places(users) == old(Places(users))
      ensures var (q, sent) := Waiting(old(rooms[k].Value()));
              Values(rooms) == old(Values(rooms))[k := q] && out == sent
    {
      hide Waiting;
      out := rooms[k].EndMatch();
    }

    method FinishMatch(k: nat)
      requires Apart(rooms) && k < |rooms| && rooms[k].gameMatch != null
      requires forall p :: p in rooms[k].gameMatch.gameMatchUsers ==> p in users && p.currentRoomID == rooms[k].roomID
      modifies this`sent, rooms[k], users
      ensures Apart(rooms)
      ensures var e := L.Ended(old(Value()), k);
              Value() == e.state && sent == old(sent) + e.out
    {
      hide Waiting, Apart, Values, Places, L.MoveAll;
      SetPlayersInRoom(k);
      var out := EndMatch(k);
      sent := sent + out;
    }

    /** parsePacket_Host_EndGame. */
    method EndGame(u: User)
      requires Valid()
      modifies this`sent, rooms, users
      ensures var e := L.EndGame(old(Value()), u);
              Valid() && Value() == e.state && sent == old(sent) + e.out
    {
      hide L.Inv, L.Hosted, L.Ended, Apart;
      ghost var l := Value();
      Safety.EndGameKeepsInv(l, u);
      assert sent + [] == sent;
      var k := Hosted(u);
      assert Value() == l;
      if k < 0 || u.status != InGame || rooms[k].gameMatch == null { return; }
      PlayersKnow(l, u);
      FinishMatch(k);
    }

    method TakeBack(k: nat, u: User) returns (out: seq<Sent>)
      requires Apart(rooms) && k < |rooms| && rooms[k].gameMatch != null && u in users
      modifies rooms[k], rooms[k].gameMatch, u
      ensures Apart(rooms) && Places(users) == old(Places(users))[u := L.Place(InRoom, old(u.currentRoomID))]
      ensures var (q, sent) := AfterReturn(old(rooms[k].Value()), u);
              Values(rooms) == old(Values(rooms))[k := q] && out == sent
    {
      hide AfterReturn;
      out := rooms[k].TakeBack(u);
    }

    method Return(k: nat, u: User)
      requires Apart(rooms) && k < |rooms| && rooms[k].gameMatch != null && u in users
      modifies this`sent, rooms[k], rooms[k].gameMatch, u
      ensures Apart(rooms)
      ensures var e := L.Returned(old(Value()), k, u);
              Value() == e.state && sent == old(sent) + e.out
    {
      hide AfterReturn, Apart, Values;
      var out := TakeBack(k, u);
      sent := sent + out;
    }

    /** parsePacket_Room_ReturnToRoom. */
    method ReturnToRoom(u: User)
      requires Valid()
      modifies this`sent, rooms, Matches(rooms), users
      ensures var e := L.ReturnToRoom(old(Value()), u);
              Valid() && Value() == e.state && sent == old(sent) + e.out
    {
      hide L.Inv, L.Find, L.Returned, Apart, Values;
      ghost var l := Value();
      Safety.ReturnToRoomKeepsInv(l, u);
      assert sent + [] == sent;
      if u !in users || (u.status != InRoom && u.status != InGame) { return; }
      var k := GetRoomByRoomID(u.currentRoomID);
      assert Value() == l;
      if k < 0 || rooms[k].gameMatch == null { return; }
      Return(k, u);
    }

    // ----- Users -----

    /** UserManager::AddUser for the User object of a new connection; `session` is what AddUserSession returns. */
    method AddUser(u: User, session: int)
      requires Valid() && u !in users && u.status == InLogin && u.currentRoomID == 0
      modifies this`users, this`numPlayers
      ensures Valid() && Value() == L.AddUser(old(Value()), u, session)
    {
      hide L.Inv;
      ghost var l := Value();
      Safety.AddUserKeepsInv(l, u, session);
      if |users| >= maxPlayers { return; }
      if session > 0 {
        users := users + [u];
        numPlayers := |users| % 0x1_0000;
        assert Places(users) == l.at[u := L.Place(InLogin, 0)];
      } else {
        assert Value() == l;
      }
      assert Value() == L.AddUser(l, u, session);
      assert Apart(rooms);
    }

    /** The status changes outside rooms: the end of the login, RequestServerList and RequestTransfer. */
    method SetStatus(u: User, from: Status, status: Status)
      requires Valid() && from !in {InRoom, InGame} && status !in {InRoom, InGame}
      modifies users
      ensures Valid() && Value() == L.SetStatus(old(Value()), u, from, status)
    {
      hide L.Inv;
      ghost var l := Value();
      Safety.SetStatusKeepsInv(l, u, from, status);
      if u in users && u.status == from {
        u.status := status;
        assert Places(users) == l.at[u := L.Place(status, l.at[u].roomID)];
      } else {
        assert Value() == l;
      }
      assert Apart(rooms);
      assert Value() == L.SetStatus(l, u, from, status);
    }

    // ----- All rooms at once -----

    /** What Room's destructor does to the members. */
    method SendMembersToLobby(members: seq<User>)
      requires Apart(rooms) && forall u :: u in members ==> u in users
      modifies users
      ensures Apart(rooms) && Values(rooms) == old(Values(rooms))
      ensures Places(users) == L.MoveAll(old(Places(users)), members, L.LOBBY)
    {
      for i := 0 to |members|
        invariant Apart(rooms) && Values(rooms) == old(Values(rooms))
        invariant forall u :: u in users ==> u.currentRoomID == if u in members[..i] then 0 else old(u.currentRoomID)
        invariant forall u :: u in users ==> u.status == if u in members[..i] then InLobby else old(u.status)
      {
        assert members[i] in members;
        members[i].status := InLobby;
        members[i].currentRoomID := 0;
      }
      assert members[..|members|] == members;
    }

    /** The console command: RoomManager::RemoveAllRooms and the query of the same name. */
    method RemoveAllRooms(ok: bool)
      requires Valid()
      modifies this`rooms, this`table, users
      ensures Valid() && Value() == L.RemoveAllRooms(old(Value()), ok)
    {
      hide L.Inv, L.MoveAll, Apart;
      ghost var l := Value();
      Safety.RemoveAllRoomsKeepsInv(l, ok);
      if rooms == [] { return; }
      MembersAreUsers(l);
      var all := rooms;
      rooms := [];
      NoRooms();
      for i := 0 to |all|
        invariant rooms == [] && Apart(rooms) && table == l.table
        invariant forall k :: 0 <= k < |all| ==> all[k].roomUsers == l.rooms[k].members
        invariant L.MoveMembers(Places(users), l.rooms[i..]) == L.MoveMembers(l.at, l.rooms)
      {
        assert l.rooms[i..][0] == l.rooms[i] && l.rooms[i..][1..] == l.rooms[i + 1..];
        SendMembersToLobby(all[i].roomUsers);
      }
      assert l.rooms[|all|..] == [];
      if ok {
        table := map[];
      }
      NoRooms();
      assert Value() == L.RemoveAllRooms(l, ok);
    }

    /** One turn of the clock-gap loop: the row is inserted again, or the room is removed. */
    method ResyncRoom(k: nat, addOk: bool, deleteOk: bool)
      requires Valid() && k < |rooms|
      modifies this`rooms, this`table, users
      ensures Valid() && Value() == L.ResyncRoom(old(Value()), k, addOk, deleteOk)
    {
      hide L.Inv, L.MoveAll, L.InsertRow, L.DeleteRow, L.Without, Apart, Values, Places, L.Describes;
      ghost var l := Value();
      Safety.ResyncRoomKeepsInv(l, k, addOk, deleteOk);
      MembersAreUsers(l);
      HavePlaces(users);
      var result := InsertRoom(rooms[k], addOk);
      if result <= 0 {
        var members := rooms[k].roomUsers;
        assert Values(rooms) == l.rooms;
        RemoveRoom(k, deleteOk);
        assert Values(rooms) == L.Without(l.rooms, k);
        SendMembersToLobby(members);
      } else {
        assert Values(rooms) == l.rooms;
      }
      assert Value() == L.ResyncRoom(l, k, addOk, deleteOk);
    }

    method ClearTable(ok: bool)
      requires Valid()
      modifies this`table
      ensures Valid() && Value() == old(Value()).(table := if ok then map[] else old(table))
    {
      hide L.Inv;
      ghost var l := Value();
      Safety.TableIsFree(l, if ok then map[] else l.table);
      if ok {
        table := map[];
      }
      assert Value() == l.(table := if ok then map[] else l.table);
    }

    /** The end of OnSecondTick after a clock gap. The source walks a copy of the list, from which nothing is removed. */
    method Resync(clearOk: bool, addFails: set<nat>, deleteFails: set<nat>)
      requires Valid()
      modifies this`rooms, this`table, users
      ensures Valid() && Value() == L.Resync(old(Value()), clearOk, addFails, deleteFails)
    {
      hide L.Inv, Apart, Values, Places, L.ResyncRoom;
      ghost var cleared := Value().(table := if clearOk then map[] else Value().table);
      ClearTable(clearOk);
      var from := 0;
      while from < |rooms|
        invariant from <= |rooms| && Valid()
        invariant L.ResyncRooms(Value(), from, addFails, deleteFails) == L.ResyncRooms(cleared, 0, addFails, deleteFails)
        decreases |rooms| - from
      {
        ghost var s := Value();
        var id, n := rooms[from].roomID, |rooms|;
        Safety.RoomsLeft(s, from, id !in addFails, id !in deleteFails);
        ResyncRoom(from, id !in addFails, id !in deleteFails);
        if |rooms| == n {
          from := from + 1;
        }
      }
    }

    lemma NoRooms()
      requires rooms == []
      ensures Apart(rooms) && Values(rooms) == []
    {
    }
  }

  lemma HavePlaces(users: seq<User>)
    ensures forall u :: u in Places(users) ==> u in users
  {
  }

  lemma MembersAreUsers(l: L.State)
    requires L.Inv(l)
    ensures forall k :: 0 <= k < |l.rooms| ==> forall u :: u in l.rooms[k].members ==> u in l.users
  {
    hide L.Find, L.Known, RoomOk;
    forall k | 0 <= k < |l.rooms| ensures forall u :: u in l.rooms[k].members ==> u in l.users {
      assert L.Seats(l.at, l.rooms[k]);
    }
  }

  lemma PlayersKnow(l: L.State, u: User)
    requires L.Inv(l) && L.Hosted(l, u) >= 0 && l.rooms[L.Hosted(l, u)].game.Some?
    ensures var r := l.rooms[L.Hosted(l, u)];
            forall p :: p in r.game.value.players ==> p in l.users && p in l.at && l.at[p].roomID == r.id
  {
    hide L.Find, L.Known, RoomOk;
    var r := l.rooms[L.Hosted(l, u)];
    Safety.HostedRoom(l, u);
    L.PlayersAreMembers(r);
  }

  lemma HasPlace(users: seq<User>, u: User)
    ensures u in Places(users) <==> u in users
  {
  }

  lemma SameUsers(l: L.State, u: User, ok: bool)
    requires L.RemoveUserHits(l, u) && u in l.at
    ensures L.OutOfRoom(l, u, ok).state.users == l.users
  {
  }

  lemma ReplacedTwice(rooms: seq<Room>, k: nat, v: Room, q: Room)
    requires k < |rooms|
    ensures rooms[k := v][k := q] == rooms[k := q]
  {
  }

  lemma LeaveByCases(l: L.State, k: nat, u: User, ok: bool)
    requires k < |l.rooms| && u in l.rooms[k].members
    ensures var v, e := Vacated(l.rooms[k], u), L.RemoveRoomUser(l, k, u, ok);
            && v.host == l.rooms[k].host && v.id == l.rooms[k].id
            && (if v.members == [] then
                  e == L.Effect(l.(rooms := L.Without(l.rooms, k), at := l.at[u := L.LOBBY], table := L.DeleteRow(l.table, v.id, ok)), [])
                else if v.host == u then
                  e == L.Effect(l.(rooms := l.rooms[k := HostLeft(v).0], at := l.at[u := L.LOBBY], table := L.UpdateRow(l.table, v, ok)), HostLeft(v).1)
                else
                  e == L.Effect(l.(rooms := l.rooms[k := v], at := l.at[u := L.LOBBY], table := L.UpdateRow(l.table, v, ok)), []))
  {
    hide HostLeft, L.UpdateRow, L.DeleteRow, L.Without, DropPlayer;
  }

  lemma WithoutReplaced(rooms: seq<Room>, k: nat, v: Room)
    requires k < |rooms|
    ensures L.Without(rooms[k := v], k) == L.Without(rooms, k)
  {
  }

  lemma {:induction false} FirstWith(rooms: seq<Room>, id: nat, k: nat)
    requires k < |rooms| && rooms[k].id == id && forall i :: 0 <= i < k ==> rooms[i].id != id
    ensures L.Find(rooms, id) == k
  {
    if k > 0 {
      FirstWith(rooms[1..], id, k - 1);
    }
  }

  lemma NextID(rooms: seq<Room>, id: nat)
    requires 1 <= id <= 0xFFFF
    ensures L.FreeID(rooms, id)
         == if id == 0xFFFF then 0 else if L.Find(rooms, id) < 0 then id else L.FreeID(rooms, id + 1)
  {
  }
}
