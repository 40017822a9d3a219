/** Every handler keeps the lobby invariant, so it holds in every reachable state; Create and Join by a user in game are the exception. */
module LobbySafety {
  import opened Bytes
  import opened Rooms
  import opened Lobby
  import S = SettingsCodec
  import R = SettingsReplication

  // ----- Users come, move and go -----

  lemma AddUserKeepsInv(l: State, u: User, session: int)
    requires Inv(l) && u !in l.at
    ensures Inv(AddUser(l, u, session))
  {
    hide RoomOk, Find;
    var q := AddUser(l, u, session);
    if q != l {
      forall x | x in q.at
        ensures x in q.users && Known(q.rooms, x, q.at[x])
      {
        if x != u { assert Known(l.rooms, x, l.at[x]); }
      }
      forall i | 0 <= i < |q.rooms|
        ensures RoomOk(q.rooms[i]) && Seats(q.at, q.rooms[i])
      {
        assert Seats(l.at, l.rooms[i]);
        PlayersAreMembers(l.rooms[i]);
      }
    }
  }

  lemma SetStatusKeepsInv(l: State, u: User, from: Status, status: Status)
    requires Inv(l) && from !in {InRoom, InGame} && status !in {InRoom, InGame}
    ensures Inv(SetStatus(l, u, from, status))
  {
    hide RoomOk, Find, Seats;
    if u in l.at && l.at[u].status == from {
      assert Known(l.rooms, u, l.at[u]);
      PlaceKeepsInv(l, u, Place(status, 0));
    }
  }

  lemma OutsideRooms(l: State, u: User)
    requires Inv(l) && u in l.at
    ensures l.at[u].status !in {InRoom, InGame} <==> l.at[u].roomID == 0
    ensures l.at[u].roomID != 0 ==>
              var k := Find(l.rooms, l.at[u].roomID);
              k >= 0 && GetRoom(l.rooms, l.at[u].roomID) == k && u in l.rooms[k].members
              && l.rooms[k].id == l.at[u].roomID && RoomOk(l.rooms[k]) && Seats(l.at, l.rooms[k])
  {
    hide RoomOk, Seats;
    assert Known(l.rooms, u, l.at[u]);
  }

  // ----- Create and join -----

  lemma CreateKeepsInv(l: State, u: User, vals: S.Values, info: seq<u8>, characterOk: bool, ok: bool)
    requires Inv(l) && (u in l.at ==> l.at[u].status != InGame)
    ensures Inv(Create(l, u, vals, info, characterOk, ok).state)
  {
    hide RoomOk, Find, Seats, Known, InsertRow, MaxPlayers;
    var id := FreeID(l.rooms, 1);
    if LoggedIn(l, u) && l.at[u].status != InRoom && id != 0 && characterOk {
      OutsideRooms(l, u);
      var r := Room(id, u, vals, [u], None, Max(1, MaxPlayers(vals)));
      NewRoomOk(r, u);
      AppendKeepsInv(l, r, u);
      PlaceKeepsInv(l, u, LOBBY);
      TableIsFree(Appended(l, r, u), InsertRow(l.table, r, ok).1);
      TableIsFree(l.(at := l.at[u := LOBBY]), InsertRow(l.table, r, ok).1);
    }
  }

  lemma NewRoomOk(r: Room, u: User)
    requires 1 <= r.id < 0xFFFF && r.host == u && r.members == [u] && r.game.None?
    requires r.peak == Max(1, MaxPlayers(r.settings))
    ensures RoomOk(r)
  {
    ByteSized(r.settings);
  }

  /** The invariant says nothing about the table. */
  lemma TableIsFree(l: State, table: map<nat, Row>)
    requires Inv(l)
    ensures Inv(l.(table := table))
  {
    hide RoomOk, Find, Seats, Known;
  }

  lemma JoinKeepsInv(l: State, u: User, roomID: nat, password: seq<u8>, infos: seq<seq<u8>>, characterOk: bool, ok: bool)
    requires Inv(l) && (u in l.at ==> l.at[u].status != InGame)
    ensures Inv(Join(l, u, roomID, password, infos, characterOk, ok).state)
  {
    hide RoomOk, Find, Known, MaxPlayers;
    var e := Join(l, u, roomID, password, infos, characterOk, ok).state;
    if e != l {
      OutsideRooms(l, u);
      var k := GetRoom(l.rooms, roomID);
      var r := l.rooms[k];
      var q := r.(members := r.members + [u]);
      MemberAdded(r, u);
      assert Seats(l.at, r);
      PlayersAreMembers(r);
      var at := l.at[u := Place(InRoom, r.id)];
      assert Seats(at, q);
      ReplaceKeepsInv(l, k, q, at);
      TableIsFree(Replace(l, k, q).(at := at), e.table);
    }
  }

  lemma MemberAdded(r: Room, u: User)
    requires RoomOk(r) && u !in r.members && |r.members| < MaxPlayers(r.settings)
    ensures RoomOk(r.(members := r.members + [u]))
    ensures r.id != 0
  {
  }

  // ----- Leaving -----

  lemma SeatsAfterLeave(at: map<User, Place>, r: Room, q: Room, u: User)
    requires Seats(at, r) && q.id == r.id && u !in q.members && RoomOk(q)
    requires forall x :: x in q.members ==> x in r.members
    requires q.game.Some? ==> r.game.Some? && forall p :: p in q.game.value.players ==> p in r.game.value.players
    ensures Seats(at[u := LOBBY], q)
  {
    PlayersAreMembers(q);
  }

  lemma LastOneLeaves(l: State, k: nat, u: User)
    requires Inv(l) && k < |l.rooms| && l.rooms[k].members == [u]
    ensures Inv(l.(rooms := Without(l.rooms, k), at := l.at[u := LOBBY]))
  {
    hide RoomOk, Find, Known, Without;
    DropKeepsInv(l, k);
    assert Seats(l.at, l.rooms[k]) && u in l.at;
    assert MoveAll(l.at, [u], LOBBY) == l.at[u := LOBBY];
  }

  lemma OthersStay(l: State, k: nat, u: User)
    requires Inv(l) && k < |l.rooms| && u in l.rooms[k].members && |l.rooms[k].members| > 1
    ensures u in l.at && Inv(Replace(l, k, AfterLeave(l.rooms[k], u).0).(at := l.at[u := LOBBY]))
  {
    hide RoomOk, Find, Known, AfterLeave, Vacated;
    var r := l.rooms[k];
    var q := AfterLeave(r, u).0;
    assert Seats(l.at, r) && RoomOk(r);
    LeaveKeepsRoom(r, u);
    MembersErased(r, u);
    SeatsAfterLeave(l.at, r, q, u);
    ReplaceKeepsInv(l, k, q, l.at[u := LOBBY]);
  }

  lemma RemoveRoomUserKeepsInv(l: State, k: nat, u: User, ok: bool)
    requires Inv(l) && k < |l.rooms| && u in l.rooms[k].members
    ensures var q := RemoveRoomUser(l, k, u, ok).state;
            Inv(q) && q.users == l.users && u in q.at && q.at[u] == LOBBY && q.at.Keys == l.at.Keys
  {
    hide RoomOk, Find, Known, Without, AfterLeave, Vacated, UpdateRow, DeleteRow;
    var r := l.rooms[k];
    var e := RemoveRoomUser(l, k, u, ok).state;
    assert Seats(l.at, r) && RoomOk(r);
    if |r.members| == 1 {
      assert r.members == [u];
      LastOneLeaves(l, k, u);
      TableIsFree(l.(rooms := Without(l.rooms, k), at := l.at[u := LOBBY]), e.table);
    } else {
      var q := AfterLeave(r, u).0;
      OthersStay(l, k, u);
      TableIsFree(Replace(l, k, q).(at := l.at[u := LOBBY]), e.table);
    }
  }

  lemma MembersErased(r: Room, u: User)
    requires RoomOk(r) && u in r.members
    ensures forall x :: x in Erase(r.members, u) ==> x in r.members && x != u
    ensures forall x :: x in r.members && x != u ==> x in Erase(r.members, u)
  {
    ErasedFrom(r.members, u);
  }

  lemma LeaveKeepsInv(l: State, u: User, ok: bool)
    requires Inv(l)
    ensures LeaveHits(l, u) && Inv(Leave(l, u, ok).state)
  {
    hide RoomOk, Find, Known, RemoveRoomUser, Seats;
    if InARoom(l, u) {
      OutsideRooms(l, u);
      RemoveRoomUserKeepsInv(l, Find(l.rooms, l.at[u].roomID), u, ok);
    }
  }

  lemma ForgetKeepsInv(l: State, u: User)
    requires Inv(l) && u in l.at && l.at[u].roomID == 0
    ensures var users := Erase(l.users, u);
            Inv(l.(users := users, at := l.at - {u}, numPlayers := |users| % 0x1_0000))
  {
    hide RoomOk, Find, Erase;
    ErasedFrom(l.users, u);
    forall i | 0 <= i < |l.rooms|
      ensures RoomOk(l.rooms[i]) && Seats(l.at - {u}, l.rooms[i])
    {
      assert Seats(l.at, l.rooms[i]);
      PlayersAreMembers(l.rooms[i]);
    }
    forall x | x in l.at - {u} ensures Known(l.rooms, x, l.at[x]) {
      assert x in l.at;
    }
  }

  lemma RemoveUserKeepsInv(l: State, u: User, ok: bool)
    requires Inv(l)
    ensures RemoveUserHits(l, u) && Inv(RemoveUser(l, u, ok).state)
  {
    hide RoomOk, Find, Known, RemoveRoomUser, Seats, Erase;
    if u in l.at {
      OutsideRooms(l, u);
      if l.at[u].roomID == 0 {
        ForgetKeepsInv(l, u);
      } else {
        var k := Find(l.rooms, l.at[u].roomID);
        RemoveRoomUserKeepsInv(l, k, u, ok);
        ForgetKeepsInv(RemoveRoomUser(l, k, u, ok).state, u);
      }
    }
  }

  // ----- Hosting -----

  lemma HostedRoom(l: State, u: User)
    requires Inv(l) && Hosted(l, u) >= 0
    ensures var k := Hosted(l, u);
            && RoomOk(l.rooms[k]) && Seats(l.at, l.rooms[k]) && l.rooms[k].host == u && u in l.rooms[k].members
            && l.at[u].roomID == l.rooms[k].id && k == Find(l.rooms, l.at[u].roomID)
  {
    hide RoomOk, Find, Known, Seats;
    OutsideRooms(l, u);
  }

  lemma UpdatedKeepsRoom(r: Room, d: S.Settings)
    requires RoomOk(r)
    ensures RoomOk(Updated(r, d))
  {
    hide R.Update;
    ByteSized(R.Update(r.settings, d));
  }

  /** A room whose members and players stay the same. */
  lemma SameSeats(l: State, k: nat, q: Room)
    requires Inv(l) && k < |l.rooms| && q.id == l.rooms[k].id && q.members == l.rooms[k].members && RoomOk(q)
    requires q.game.Some? ==> q.game.value.players == [] || (l.rooms[k].game.Some? && q.game.value.players == l.rooms[k].game.value.players)
    ensures Inv(Replace(l, k, q))
  {
    hide RoomOk, Find, Known;
    assert Seats(l.at, l.rooms[k]);
    assert Seats(l.at, q);
    ReplaceKeepsInv(l, k, q, l.at);
    assert l.(at := l.at) == l;
  }

  lemma ChangeKeepsInv(l: State, u: User, d: S.Settings, ok: bool)
    requires Inv(l)
    ensures Inv(Change(l, u, d, ok).state)
  {
    hide RoomOk, Find, Known, Seats, R.Update;
    var k := Hosted(l, u);
    if k >= 0 && l.at[u].status == InRoom {
      HostedRoom(l, u);
      var q := Updated(l.rooms[k], d);
      UpdatedKeepsRoom(l.rooms[k], d);
      SameSeats(l, k, q);
      TableIsFree(Replace(l, k, q), UpdateRow(l.table, q, ok));
    }
  }

  lemma MatchOpened(r: Room)
    requires RoomOk(r)
    ensures RoomOk(r.(game := Some(Match([], []))))
  {
  }

  lemma ActivateKeepsInv(l: State, u: User)
    requires Inv(l)
    ensures Inv(Activate(l, u).state)
  {
    hide RoomOk, Find, Known, Seats, R.Update, R.StateDelta;
    var k := Hosted(l, u);
    if k >= 0 && InARoom(l, u) && l.rooms[k].game.None? {
      HostedRoom(l, u);
      MatchOpened(l.rooms[k]);
      var q := Updated(l.rooms[k].(game := Some(Match([], []))), R.StateDelta(PLAYING));
      UpdatedKeepsRoom(l.rooms[k].(game := Some(Match([], []))), R.StateDelta(PLAYING));
      SameSeats(l, k, q);
    }
  }

  lemma DataSaved(r: Room, data: seq<u8>)
    requires RoomOk(r) && r.game.Some?
    ensures RoomOk(r.(game := Some(r.game.value.(saveData := data))))
  {
  }

  lemma SaveDataKeepsInv(l: State, u: User, size: nat, data: seq<u8>)
    requires Inv(l)
    ensures Inv(SaveData(l, u, size, data))
  {
    hide RoomOk, Find, Known, Seats;
    if SaveData(l, u, size, data) != l {
      var k := Hosted(l, u);
      HostedRoom(l, u);
      DataSaved(l.rooms[k], data);
      SameSeats(l, k, l.rooms[k].(game := Some(l.rooms[k].game.value.(saveData := data))));
    }
  }

  lemma PlayerAdded(r: Room, t: User)
    requires RoomOk(r) && r.game.Some? && t in r.members && t !in r.game.value.players
    ensures RoomOk(r.(game := Some(r.game.value.(players := r.game.value.players + [t]))))
  {
  }

  lemma SendUserStatusKeepsInv(l: State, u: User, target: Option<User>, status: u8)
    requires Inv(l)
    ensures Inv(SendUserStatus(l, u, target, status))
  {
    hide RoomOk, Find, Known;
    if SendUserStatus(l, u, target, status) != l {
      var k, t := Hosted(l, u), target.value;
      HostedRoom(l, u);
      OutsideRooms(l, t);
      var r := l.rooms[k];
      PlayerAdded(r, t);
      var q := r.(game := Some(r.game.value.(players := r.game.value.players + [t])));
      var at := l.at[t := Place(InGame, l.at[t].roomID)];
      assert Seats(at, q);
      ReplaceKeepsInv(l, k, q, at);
    }
  }

  lemma EndGameKeepsInv(l: State, u: User)
    requires Inv(l)
    ensures Inv(EndGame(l, u).state)
  {
    hide RoomOk, Find, Known, Waiting;
    if EndGame(l, u).state != l {
      var k := Hosted(l, u);
      HostedRoom(l, u);
      var r := l.rooms[k];
      var q := Waiting(r).0;
      WaitingRoom(r);
      PlayersAreMembers(r);
      var at := MoveAll(l.at, r.game.value.players, Place(InRoom, q.id));
      assert Seats(at, q);
      ReplaceKeepsInv(l, k, q, at);
    }
  }

  lemma WaitingRoom(r: Room)
    requires RoomOk(r)
    ensures var q := Waiting(r).0;
            RoomOk(q) && PlayingOk(q) && q.id == r.id && q.members == r.members && q.host == r.host && q.game.None?
  {
    hide Waiting;
    WaitingKeepsSeats(r);
  }

  lemma ReturnToRoomKeepsInv(l: State, u: User)
    requires Inv(l)
    ensures Inv(ReturnToRoom(l, u).state)
  {
    hide RoomOk, Find, Known, AfterReturn;
    if ReturnToRoom(l, u).state != l {
      OutsideRooms(l, u);
      var k := Find(l.rooms, l.at[u].roomID);
      var r := l.rooms[k];
      var q := AfterReturn(r, u).0;
      ReturnKeepsRoom(r, u);
      PlayersAreMembers(q);
      var at := l.at[u := Place(InRoom, l.at[u].roomID)];
      assert Seats(at, q);
      ReplaceKeepsInv(l, k, q, at);
    }
  }

  // ----- All rooms at once -----

  lemma {:induction false} RemoveAllKeepsInv(l: State)
    requires Inv(l)
    ensures Inv(l.(rooms := [], at := MoveMembers(l.at, l.rooms)))
    decreases |l.rooms|
  {
    hide RoomOk, Find, Known, Seats, Without;
    if l.rooms == [] {
      assert l.(rooms := [], at := MoveMembers(l.at, l.rooms)) == l;
    } else {
      DropKeepsInv(l, 0);
      FirstOut(l.rooms);
      RemoveAllKeepsInv(Dropped(l, 0));
    }
  }

  lemma FirstOut(rooms: seq<Room>)
    requires rooms != []
    ensures Without(rooms, 0) == rooms[1..]
  {
  }

  lemma RemoveAllRoomsKeepsInv(l: State, ok: bool)
    requires Inv(l)
    ensures Inv(RemoveAllRooms(l, ok))
  {
    hide RoomOk, Find, Known, Seats, MoveMembers;
    RemoveAllKeepsInv(l);
    TableIsFree(l.(rooms := [], at := MoveMembers(l.at, l.rooms)), RemoveAllRooms(l, ok).table);
  }

  lemma ResyncRoomKeepsInv(l: State, k: nat, addOk: bool, deleteOk: bool)
    requires Inv(l) && k < |l.rooms|
    ensures Inv(ResyncRoom(l, k, addOk, deleteOk))
  {
    hide RoomOk, Find, Known, Seats, Without, InsertRow, MoveAll;
    var q := ResyncRoom(l, k, addOk, deleteOk);
    DropKeepsInv(l, k);
    TableIsFree(l, q.table);
    TableIsFree(Dropped(l, k), q.table);
  }

  lemma {:induction false} ResyncRoomsKeepsInv(l: State, from: nat, addFails: set<nat>, deleteFails: set<nat>)
    requires Inv(l) && from <= |l.rooms|
    ensures Inv(ResyncRooms(l, from, addFails, deleteFails))
    decreases |l.rooms| - from
  {
    hide Inv, ResyncRoom;
    if from < |l.rooms| {
      var id := l.rooms[from].id;
      ResyncRoomKeepsInv(l, from, id !in addFails, id !in deleteFails);
      var q := ResyncRoom(l, from, id !in addFails, id !in deleteFails);
      RoomsLeft(l, from, id !in addFails, id !in deleteFails);
      ResyncRoomsKeepsInv(q, if |q.rooms| == |l.rooms| then from + 1 else from, addFails, deleteFails);
    }
  }

  lemma RoomsLeft(l: State, k: nat, addOk: bool, deleteOk: bool)
    requires k < |l.rooms|
    ensures var q := ResyncRoom(l, k, addOk, deleteOk);
            q.rooms == l.rooms || (q.rooms == Without(l.rooms, k) && |q.rooms| == |l.rooms| - 1)
  {
  }

  lemma ResyncKeepsInv(l: State, clearOk: bool, addFails: set<nat>, deleteFails: set<nat>)
    requires Inv(l)
    ensures Inv(Resync(l, clearOk, addFails, deleteFails))
  {
    hide Inv, ResyncRooms;
    var table := if clearOk then map[] else l.table;
    TableIsFree(l, table);
    ResyncRoomsKeepsInv(l.(table := table), 0, addFails, deleteFails);
  }

  // ----- Steps and runs -----

  /** One handler with everything it reads from outside: packet fields, and whether its queries succeed. */
  datatype Event =
    | Connect(u: User, session: int)
    | FinishLogin(u: User, transferred: bool)
    | RequestServerList(u: User)
    | RequestTransfer(u: User)
    | CreateRoom(u: User, vals: S.Values, info: seq<u8>, characterOk: bool, ok: bool)
    | JoinRoom(u: User, roomID: nat, password: seq<u8>, infos: seq<seq<u8>>, characterOk: bool, ok: bool)
    | LeaveRoom(u: User, ok: bool)
    | UpdateSettings(u: User, d: S.Settings, ok: bool)
    | ServerIsActivated(u: User)
    | HostSaveData(u: User, size: nat, data: seq<u8>)
    | HostSendUserStatus(u: User, target: Option<User>, status: u8)
    | HostEndGame(u: User)
    | ReturnTo(u: User)
    | Disconnect(u: User, ok: bool)
    | ClearRooms(ok: bool)
    | ClockGap(clearOk: bool, addFails: set<nat>, deleteFails: set<nat>)

  /** Every `erase(find(...))` the handler reaches hits an element. */
  predicate Hits(l: State, e: Event) {
    match e
    case LeaveRoom(u, _) => LeaveHits(l, u)
    case Disconnect(u, _) => RemoveUserHits(l, u)
    case _ => true
  }

  /** A connection's User object is new when it is added, and a user in game does not send Create or Join. */
  predicate Legal(l: State, e: Event) {
    match e
    case Connect(u, _) => u !in l.at
    case CreateRoom(u, _, _, _, _) => u in l.at ==> l.at[u].status != InGame
    case JoinRoom(u, _, _, _, _, _) => u in l.at ==> l.at[u].status != InGame
    case _ => true
  }

  function Step(l: State, e: Event): Effect
    requires Hits(l, e) && (e.Connect? ==> e.u !in l.at)
  {
    match e
    case Connect(u, session) => Effect(AddUser(l, u, session), [])
    case FinishLogin(u, transferred) => Effect(SetStatus(l, u, InLogin, if transferred then InLobby else InServerList), [])
    case RequestServerList(u) => Effect(SetStatus(l, u, InLobby, InServerList), [])
    case RequestTransfer(u) => Effect(SetStatus(l, u, InServerList, InLobby), [])
    case CreateRoom(u, vals, info, characterOk, ok) => Create(l, u, vals, info, characterOk, ok)
    case JoinRoom(u, roomID, password, infos, characterOk, ok) => Join(l, u, roomID, password, infos, characterOk, ok)
    case LeaveRoom(u, ok) => Leave(l, u, ok)
    case UpdateSettings(u, d, ok) => Change(l, u, d, ok)
    case ServerIsActivated(u) => Activate(l, u)
    case HostSaveData(u, size, data) => Effect(SaveData(l, u, size, data), [])
    case HostSendUserStatus(u, target, status) => Effect(SendUserStatus(l, u, target, status), [])
    case HostEndGame(u) => EndGame(l, u)
    case ReturnTo(u) => ReturnToRoom(l, u)
    case Disconnect(u, ok) => RemoveUser(l, u, ok)
    case ClearRooms(ok) => Effect(RemoveAllRooms(l, ok), [])
    case ClockGap(clearOk, addFails, deleteFails) => Effect(Resync(l, clearOk, addFails, deleteFails), [])
  }

  /** Every legal step from a state in order is well defined and leads to a state in order. */
  lemma StepKeepsInv(l: State, e: Event)
    requires Inv(l) && Legal(l, e)
    ensures Hits(l, e) && Inv(Step(l, e).state)
  {
    hide Inv, AddUser, SetStatus, Create, Join, LeaveHits, Leave, Change, Activate, SaveData, SendUserStatus, EndGame,
      ReturnToRoom, RemoveUserHits, RemoveUser, RemoveAllRooms, Resync;
    match e
    case Connect(u, session) => AddUserKeepsInv(l, u, session);
    case FinishLogin(u, transferred) => SetStatusKeepsInv(l, u, InLogin, if transferred then InLobby else InServerList);
    case RequestServerList(u) => SetStatusKeepsInv(l, u, InLobby, InServerList);
    case RequestTransfer(u) => SetStatusKeepsInv(l, u, InServerList, InLobby);
    case CreateRoom(u, vals, info, characterOk, ok) => CreateKeepsInv(l, u, vals, info, characterOk, ok);
    case JoinRoom(u, roomID, password, infos, characterOk, ok) => JoinKeepsInv(l, u, roomID, password, infos, characterOk, ok);
    case LeaveRoom(u, ok) => LeaveKeepsInv(l, u, ok);
    case UpdateSettings(u, d, ok) => ChangeKeepsInv(l, u, d, ok);
    case ServerIsActivated(u) => ActivateKeepsInv(l, u);
    case HostSaveData(u, size, data) => SaveDataKeepsInv(l, u, size, data);
    case HostSendUserStatus(u, target, status) => SendUserStatusKeepsInv(l, u, target, status);
    case HostEndGame(u) => EndGameKeepsInv(l, u);
    case ReturnTo(u) => ReturnToRoomKeepsInv(l, u);
    case Disconnect(u, ok) => RemoveUserKeepsInv(l, u, ok);
    case ClearRooms(ok) => RemoveAllRoomsKeepsInv(l, ok);
    case ClockGap(clearOk, addFails, deleteFails) => ResyncKeepsInv(l, clearOk, addFails, deleteFails);
  }

  ghost predicate Initial(l: State) {
    l.users == [] && l.at == map[] && l.rooms == [] && l.numPlayers == 0 && l.cap < 0x1_0000
  }

  /** A run of legal events. After an erase that misses, anything may happen. */
  ghost predicate Run(states: seq<State>, es: seq<Event>) {
    && |states| == |es| + 1 && Initial(states[0])
    && forall i :: 0 <= i < |es| ==>
         && Legal(states[i], es[i])
         && (Hits(states[i], es[i]) ==> states[i + 1] == Step(states[i], es[i]).state)
  }

  /** In every run every state is in order, and so no erase ever misses. */
  lemma {:induction false} RunsAreSafe(states: seq<State>, es: seq<Event>, i: nat)
    requires Run(states, es) && i < |states|
    ensures Inv(states[i]) && (i < |es| ==> Hits(states[i], es[i]))
  {
    if i > 0 {
      RunsAreSafe(states, es, i - 1);
      StepKeepsInv(states[i - 1], es[i - 1]);
    } else {
      InitialInv(states[0]);
    }
    if i < |es| {
      StepKeepsInv(states[i], es[i]);
    }
  }

  lemma InitialInv(l: State)
    requires Initial(l)
    ensures Inv(l)
  {
  }
}
