/** What a handler does not touch: other rooms, and users elsewhere. */
module LobbyFrame {
  import opened Bytes
  import opened Rooms
  import opened Lobby
  import opened LobbySafety
  import opened LobbyOutcomes
  import S = SettingsCodec
  import R = SettingsReplication

  /** The rooms differ at most in the room with that id, which may be there or not. */
  ghost predicate OnlyID(rooms: seq<Room>, id: nat, after: seq<Room>) {
    forall i :: i != id ==> RoomAt(after, i) == RoomAt(rooms, i)
  }

  lemma ReplaceIsLocal(rooms: seq<Room>, k: nat, q: Room)
    requires DistinctIds(rooms) && k < |rooms| && q.id == rooms[k].id
    ensures OnlyID(rooms, q.id, rooms[k := q])
  {
    hide Find;
    forall i | i != q.id ensures RoomAt(rooms[k := q], i) == RoomAt(rooms, i) {
      FindAfterReplace(rooms, k, q, i);
    }
  }

  lemma WithoutIsLocal(rooms: seq<Room>, k: nat)
    requires DistinctIds(rooms) && k < |rooms|
    ensures OnlyID(rooms, rooms[k].id, Without(rooms, k))
  {
    hide Find, Without;
    FindAt(rooms, k);
    forall i | i != rooms[k].id ensures RoomAt(Without(rooms, k), i) == RoomAt(rooms, i) {
      FindAfterWithout(rooms, k, i);
    }
  }

  lemma AppendIsLocal(rooms: seq<Room>, r: Room)
    requires DistinctIds(rooms) && Find(rooms, r.id) < 0
    ensures OnlyID(rooms, r.id, rooms + [r])
  {
    hide Find;
    forall i | i != r.id ensures RoomAt(rooms + [r], i) == RoomAt(rooms, i) {
      FindAfterAppend(rooms, r, i);
    }
  }

  lemma RemovalIsLocal(l: State, k: nat, u: User, ok: bool)
    requires Inv(l) && k < |l.rooms| && u in l.rooms[k].members
    ensures OnlyID(l.rooms, l.rooms[k].id, RemoveRoomUser(l, k, u, ok).state.rooms)
  {
    hide RoomOk, Seats, Known, Find, Without, AfterLeave, OnlyID, Vacated;
    NoDuplicates(l);
    assert RoomOk(l.rooms[k]);
    if |l.rooms[k].members| == 1 {
      WithoutIsLocal(l.rooms, k);
    } else {
      LeaveKeepsRoom(l.rooms[k], u);
      ReplaceIsLocal(l.rooms, k, AfterLeave(l.rooms[k], u).0);
    }
  }

  /** The room that the handler works on: the one it creates or is asked to join, or the one its sender is in. */
  function Concerned(l: State, e: Event): nat
    requires !e.ClearRooms? && !e.ClockGap?
  {
    if e.CreateRoom? then FreeID(l.rooms, 1)
    else if e.JoinRoom? then e.roomID
    else if e.u in l.at then l.at[e.u].roomID
    else 0
  }

  /** Except when all rooms are cleared or resynced, a step changes no room but the one it works on. */
  lemma StepIsLocal(l: State, e: Event)
    requires Inv(l) && Legal(l, e) && !e.ClearRooms? && !e.ClockGap?
    ensures Hits(l, e) && OnlyID(l.rooms, Concerned(l, e), Step(l, e).state.rooms)
  {
    hide Inv, OnlyID, AddUser, Create, Join, LeaveHits, Leave, Change, Activate, SaveData, SendUserStatus, EndGame, ReturnToRoom,
      RemoveUserHits, RemoveUser, FreeID;
    StepKeepsInv(l, e);
    if Step(l, e).state.rooms == l.rooms {
      Untouched(l.rooms, Concerned(l, e));
    } else if e.u !in l.at && !e.Connect? {
      StrangersDoNothing(l, e);
    } else {
      match e
      case Connect(u, session) => AddUserOutcome(l, u, session);
      case FinishLogin(u, transferred) =>
      case RequestServerList(u) =>
      case RequestTransfer(u) =>
      case CreateRoom(u, vals, info, characterOk, ok) => CreateIsLocal(l, u, vals, info, characterOk, ok);
      case JoinRoom(u, roomID, password, infos, characterOk, ok) => JoinIsLocal(l, u, roomID, password, infos, characterOk, ok);
      case LeaveRoom(u, ok) => LeaveIsLocal(l, u, ok);
      case UpdateSettings(u, d, ok) => ChangeIsLocal(l, u, d, ok);
      case ServerIsActivated(u) => ActivateIsLocal(l, u);
      case HostSaveData(u, size, data) => SaveDataIsLocal(l, u, size, data);
      case HostSendUserStatus(u, target, status) => SendUserStatusIsLocal(l, u, target, status);
      case HostEndGame(u) => EndGameIsLocal(l, u);
      case ReturnTo(u) => ReturnIsLocal(l, u);
      case Disconnect(u, ok) => RemoveUserIsLocal(l, u, ok);
    }
  }

  /** Packets of somebody who is no user do nothing. */
  lemma StrangersDoNothing(l: State, e: Event)
    requires !e.Connect? && !e.ClearRooms? && !e.ClockGap? && e.u !in l.at
    ensures Hits(l, e) && Step(l, e) == Effect(l, [])
  {
    hide Find, FreeID, Open, Admit, Changed, Ended, Returned, RemoveRoomUser, Waiting;
  }

  lemma Untouched(rooms: seq<Room>, id: nat)
    ensures OnlyID(rooms, id, rooms)
  {
  }

  lemma CreateIsLocal(l: State, u: User, vals: S.Values, info: seq<u8>, characterOk: bool, ok: bool)
    requires Inv(l)
    ensures OnlyID(l.rooms, FreeID(l.rooms, 1), Create(l, u, vals, info, characterOk, ok).state.rooms)
  {
    hide RoomOk, Seats, Known, Find, OnlyID, FreeID, InsertRow, MaxPlayers;
    var id := FreeID(l.rooms, 1);
    NoDuplicates(l);
    Untouched(l.rooms, id);
    if id != 0 {
      FreeIDIsFree(l.rooms);
      AppendIsLocal(l.rooms, Room(id, u, vals, [u], None, Max(1, MaxPlayers(vals))));
    }
  }

  lemma JoinIsLocal(l: State, u: User, roomID: nat, password: seq<u8>, infos: seq<seq<u8>>, characterOk: bool, ok: bool)
    requires Inv(l)
    ensures OnlyID(l.rooms, roomID, Join(l, u, roomID, password, infos, characterOk, ok).state.rooms)
  {
    hide RoomOk, Seats, Known, Find, OnlyID, MaxPlayers, UpdateRow;
    NoDuplicates(l);
    Untouched(l.rooms, roomID);
    var k := GetRoom(l.rooms, roomID);
    if k >= 0 { ReplaceIsLocal(l.rooms, k, l.rooms[k].(members := l.rooms[k].members + [u])); }
  }

  lemma LeaveIsLocal(l: State, u: User, ok: bool)
    requires Inv(l) && u in l.at && LeaveHits(l, u)
    ensures OnlyID(l.rooms, l.at[u].roomID, Leave(l, u, ok).state.rooms)
  {
    hide RoomOk, Seats, Known, Find, OnlyID, RemoveRoomUser;
    Untouched(l.rooms, l.at[u].roomID);
    var k := GetRoom(l.rooms, l.at[u].roomID);
    if InARoom(l, u) && k >= 0 { RemovalIsLocal(l, k, u, ok); }
  }

  lemma RemoveUserIsLocal(l: State, u: User, ok: bool)
    requires Inv(l) && u in l.at && RemoveUserHits(l, u)
    ensures OnlyID(l.rooms, l.at[u].roomID, RemoveUser(l, u, ok).state.rooms)
  {
    hide RoomOk, Seats, Known, Find, OnlyID, RemoveRoomUser;
    Untouched(l.rooms, l.at[u].roomID);
    var k := GetRoom(l.rooms, l.at[u].roomID);
    if k >= 0 { RemovalIsLocal(l, k, u, ok); }
  }

  lemma HostedIsLocal(l: State, u: User, q: Room)
    requires Inv(l) && Hosted(l, u) >= 0 && q.id == l.rooms[Hosted(l, u)].id
    ensures q.id == l.at[u].roomID && OnlyID(l.rooms, q.id, l.rooms[Hosted(l, u) := q])
  {
    hide RoomOk, Seats, Known, Find, OnlyID;
    NoDuplicates(l);
    HostedRoom(l, u);
    ReplaceIsLocal(l.rooms, Hosted(l, u), q);
  }

  lemma ChangeIsLocal(l: State, u: User, d: S.Settings, ok: bool)
    requires Inv(l) && u in l.at
    ensures OnlyID(l.rooms, l.at[u].roomID, Change(l, u, d, ok).state.rooms)
  {
    hide Inv, Hosted, OnlyID, Updated, UpdateRow;
    Untouched(l.rooms, l.at[u].roomID);
    var k := Hosted(l, u);
    if k >= 0 {
      HostedIndex(l, u);
      UpdatedSame(l.rooms[k], d);
      HostedIsLocal(l, u, Updated(l.rooms[k], d));
    }
  }

  lemma HostedIndex(l: State, u: User)
    requires Hosted(l, u) >= 0
    ensures u in l.at && Hosted(l, u) < |l.rooms|
  {
  }

  lemma ActivateIsLocal(l: State, u: User)
    requires Inv(l) && u in l.at
    ensures OnlyID(l.rooms, l.at[u].roomID, Activate(l, u).state.rooms)
  {
    hide Inv, Hosted, OnlyID, Updated, R.StateDelta;
    Untouched(l.rooms, l.at[u].roomID);
    var k := Hosted(l, u);
    if k >= 0 {
      HostedIndex(l, u);
      var r := l.rooms[k].(game := Some(Match([], [])));
      UpdatedSame(r, R.StateDelta(PLAYING));
      HostedIsLocal(l, u, Updated(r, R.StateDelta(PLAYING)));
    }
  }

  lemma SaveDataIsLocal(l: State, u: User, size: nat, data: seq<u8>)
    requires Inv(l) && u in l.at
    ensures OnlyID(l.rooms, l.at[u].roomID, SaveData(l, u, size, data).rooms)
  {
    hide Inv, Hosted, OnlyID;
    Untouched(l.rooms, l.at[u].roomID);
    var k := Hosted(l, u);
    if k >= 0 {
      HostedIndex(l, u);
      if l.rooms[k].game.Some? { HostedIsLocal(l, u, l.rooms[k].(game := Some(l.rooms[k].game.value.(saveData := data)))); }
    }
  }

  lemma SendUserStatusIsLocal(l: State, u: User, target: Option<User>, status: u8)
    requires Inv(l) && u in l.at
    ensures OnlyID(l.rooms, l.at[u].roomID, SendUserStatus(l, u, target, status).rooms)
  {
    hide Inv, Hosted, OnlyID, Find;
    Untouched(l.rooms, l.at[u].roomID);
    var k := Hosted(l, u);
    if k >= 0 {
      HostedIndex(l, u);
      var g := l.rooms[k].game;
      if g.Some? && target.Some? {
        HostedIsLocal(l, u, l.rooms[k].(game := Some(g.value.(players := g.value.players + [target.value]))));
      }
    }
  }

  lemma EndGameIsLocal(l: State, u: User)
    requires Inv(l) && u in l.at
    ensures OnlyID(l.rooms, l.at[u].roomID, EndGame(l, u).state.rooms)
  {
    hide Inv, Hosted, OnlyID, Updated, R.StateDelta, MoveAll;
    Untouched(l.rooms, l.at[u].roomID);
    var k := Hosted(l, u);
    if k >= 0 {
      HostedIndex(l, u);
      UpdatedSame(l.rooms[k].(game := None), R.StateDelta(WAITING));
      HostedIsLocal(l, u, Waiting(l.rooms[k]).0);
    }
  }

  lemma ReturnIsLocal(l: State, u: User)
    requires Inv(l) && u in l.at
    ensures OnlyID(l.rooms, l.at[u].roomID, ReturnToRoom(l, u).state.rooms)
  {
    hide RoomOk, Seats, Known, Find, OnlyID, AfterReturn;
    NoDuplicates(l);
    Untouched(l.rooms, l.at[u].roomID);
    var k := GetRoom(l.rooms, l.at[u].roomID);
    if k >= 0 && l.rooms[k].game.Some? {
      assert RoomOk(l.rooms[k]);
      ReturnKeepsRoom(l.rooms[k], u);
      ReplaceIsLocal(l.rooms, k, AfterReturn(l.rooms[k], u).0);
    }
  }

  // ----- Places -----

  /** x is not in the room with that id. */
  predicate Elsewhere(l: State, id: nat, x: User) {
    x in l.at && l.at[x].roomID != id
  }

  /** Nobody changes its place but the sender and, when the host ends the game or reports a player, members of its room. */
  lemma PlacesStay(l: State, e: Event, x: User)
    requires Inv(l) && Legal(l, e) && !e.ClearRooms? && !e.ClockGap? && x != e.u
    requires (e.HostEndGame? || e.HostSendUserStatus?) && e.u in l.at ==> Elsewhere(l, l.at[e.u].roomID, x) || x !in l.at
    ensures Hits(l, e)
    ensures x in l.at <==> x in Step(l, e).state.at
    ensures x in l.at ==> Step(l, e).state.at[x] == l.at[x]
  {
    hide RoomOk, Seats, Known, Find, AfterLeave, AfterReturn, Waiting, Updated, R.StateDelta, FreeID, InsertRow, UpdateRow,
      MaxPlayers, Inv, Without;
    StepKeepsInv(l, e);
    if e.HostEndGame? && Hosted(l, e.u) >= 0 && l.rooms[Hosted(l, e.u)].game.Some? {
      PlayersElsewhere(l, e.u, x);
    } else if e.HostSendUserStatus? && Hosted(l, e.u) >= 0 {
      HostedRoom(l, e.u);
      if x in l.at { OutsideRooms(l, x); }
    }
  }

  lemma PlayersElsewhere(l: State, u: User, x: User)
    requires Inv(l) && Hosted(l, u) >= 0 && l.rooms[Hosted(l, u)].game.Some?
    requires Elsewhere(l, l.at[u].roomID, x) || x !in l.at
    ensures x !in l.rooms[Hosted(l, u)].game.value.players
  {
    hide RoomOk, Known, Find;
    HostedRoom(l, u);
    PlayersAreMembers(l.rooms[Hosted(l, u)]);
  }
}
