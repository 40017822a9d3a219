/** The lobby of one channel: users, rooms, and the rows of the rooms table, with the handlers as steps. */
module Lobby {
  import opened Bytes
  import opened Rooms
  import S = SettingsCodec
  import R = SettingsReplication
  import P = RoomPackets

  /** What a User object holds: its status and the room it is in, 0 for none. */
  datatype Place = Place(status: Status, roomID: nat)

  /** A row of the rooms table, without the channel's own ids and the clan-battle flag, which is always false. */
  datatype Row = Row(passworded: bool, levelLimit: nat, gameModeID: nat, mapID: nat, currentPlayers: nat, maxPlayers: nat)

  datatype State = State(users: seq<User>, at: map<User, Place>, rooms: seq<Room>, table: map<nat, Row>,
                         numPlayers: nat, cap: nat)

  datatype Effect = Effect(state: State, out: seq<Sent>)

  // ----- Invariant -----

  /** GetRoomByRoomID: the index of the room with that id, or -1. */
  function Find(rooms: seq<Room>, id: nat): (k: int)
    ensures -1 <= k < |rooms|
    ensures k >= 0 ==> rooms[k].id == id
    ensures k < 0 ==> forall i :: 0 <= i < |rooms| ==> rooms[i].id != id
  {
    if rooms == [] then -1
    else if rooms[0].id == id then 0
    else
      var k := Find(rooms[1..], id);
      if k < 0 then -1 else k + 1
  }

  ghost predicate DistinctIds(rooms: seq<Room>) {
    forall i, j :: 0 <= i < j < |rooms| ==> rooms[i].id != rooms[j].id
  }

  /** The members of a room know that they are in it, and its players are in game. */
  ghost predicate Seats(at: map<User, Place>, r: Room) {
    && (forall u :: u in r.members ==> u in at && at[u].roomID == r.id && at[u].status in {InRoom, InGame})
    && (r.game.Some? ==> forall p :: p in r.game.value.players ==> p in at && at[p].status == InGame)
  }

  /** A user that thinks it is in a room is a member of that room. */
  ghost predicate Known(rooms: seq<Room>, u: User, p: Place) {
    && (p.status in {InRoom, InGame} <==> p.roomID != 0)
    && (p.roomID != 0 ==> var k := Find(rooms, p.roomID); k >= 0 && u in rooms[k].members)
  }

  ghost predicate Inv(l: State) {
    && NoDup(l.users)
    && (forall u :: u in l.users ==> u in l.at)
    && (forall u :: u in l.at ==> u in l.users && Known(l.rooms, u, l.at[u]))
    && DistinctIds(l.rooms)
    && (forall k :: 0 <= k < |l.rooms| ==> RoomOk(l.rooms[k]) && Seats(l.at, l.rooms[k]))
    && l.numPlayers == |l.users| <= l.cap < 0x1_0000
  }

  /** The table holds exactly one row per room, and it is that room's image. */
  function RowOf(r: Room): Row {
    Row(r.settings[S.Password].s != [], r.settings[S.LevelLimit].n, r.settings[S.GameModeID].n, r.settings[S.MapID].n,
        |r.members| % 256, MaxPlayers(r.settings))
  }

  /** What another channel may conclude from a row. */
  predicate Describes(row: Row, r: Room) {
    && (row.passworded <==> r.settings[S.Password] != S.Text([]))
    && row.levelLimit == r.settings[S.LevelLimit].n
    && row.gameModeID == r.settings[S.GameModeID].n
    && row.mapID == r.settings[S.MapID].n
    && row.currentPlayers == |r.members|
    && row.maxPlayers == r.settings[S.MaxPlayers].n
  }

  ghost predicate Image(rooms: seq<Room>, table: map<nat, Row>) {
    && (forall k :: 0 <= k < |rooms| ==> rooms[k].id in table && table[rooms[k].id] == RowOf(rooms[k]))
    && (forall id :: id in table ==> Find(rooms, id) >= 0)
  }

  ghost predicate Mirrored(l: State) {
    Image(l.rooms, l.table)
  }

  ghost predicate Playing(l: State) {
    forall k :: 0 <= k < |l.rooms| ==> PlayingOk(l.rooms[k])
  }

  // ----- Queries on the rooms table -----

  /** UPDATE: no row, no effect. */
  function UpdateRow(table: map<nat, Row>, r: Room, ok: bool): map<nat, Row> {
    if ok && r.id in table then table[r.id := RowOf(r)] else table
  }

  function DeleteRow(table: map<nat, Row>, id: nat, ok: bool): map<nat, Row> {
    if ok then table - {id} else table
  }

  /** The result of DatabaseManager::AddRoom: the SELECT finds a row, or the INSERT adds one, or a query fails. */
  function InsertRow(table: map<nat, Row>, r: Room, ok: bool): (int, map<nat, Row>) {
    if !ok then (-1, table)
    else if r.id in table then (0, table)
    else (1, table[r.id := RowOf(r)])
  }

  // ----- Local changes -----

  function Replace(l: State, k: nat, r: Room): State
    requires k < |l.rooms|
  {
    l.(rooms := l.rooms[k := r])
  }

  function Without(rooms: seq<Room>, k: nat): seq<Room>
    requires k < |rooms|
  {
    rooms[..k] + rooms[k + 1..]
  }

  /** Every user of `us` is put at p. */
  function MoveAll(at: map<User, Place>, us: seq<User>, p: Place): map<User, Place> {
    map u | u in at :: if u in us then p else at[u]
  }

  const LOBBY: Place := Place(InLobby, 0)

  lemma FindAt(rooms: seq<Room>, k: nat)
    requires DistinctIds(rooms) && k < |rooms|
    ensures Find(rooms, rooms[k].id) == k
  {
  }

  lemma FindAfterReplace(rooms: seq<Room>, k: nat, r: Room, id: nat)
    requires DistinctIds(rooms) && k < |rooms| && r.id == rooms[k].id
    ensures DistinctIds(rooms[k := r]) && Find(rooms[k := r], id) == Find(rooms, id)
  {
    var f := Find(rooms, id);
    if f >= 0 {
      assert rooms[k := r][f].id == id;
      FindAt(rooms[k := r], f);
    } else {
      assert forall i :: 0 <= i < |rooms| ==> rooms[k := r][i].id == rooms[i].id;
    }
  }

  lemma FindAfterWithout(rooms: seq<Room>, k: nat, id: nat)
    requires DistinctIds(rooms) && k < |rooms|
    ensures DistinctIds(Without(rooms, k))
    ensures var f, g := Find(rooms, id), Find(Without(rooms, k), id);
            if f < 0 || f == k then g < 0 else g >= 0 && Without(rooms, k)[g] == rooms[f]
  {
    hide Find, Without;
    var rest := Without(rooms, k);
    WithoutAt(rooms, k);
    var f := Find(rooms, id);
    if f >= 0 && f != k {
      var i := if f < k then f else f - 1;
      assert rest[i] == rooms[f];
      FindAt(rest, i);
    } else {
      forall i | 0 <= i < |rest| ensures rest[i].id != id {
        var j := if i < k then i else i + 1;
        assert rest[i] == rooms[j] && j != k;
      }
    }
  }

  lemma WithoutAt(rooms: seq<Room>, k: nat)
    requires k < |rooms|
    ensures |Without(rooms, k)| == |rooms| - 1
    ensures forall i :: 0 <= i < |rooms| - 1 ==> Without(rooms, k)[i] == rooms[if i < k then i else i + 1]
  {
  }

  // ----- Three ways to change the rooms -----

  /** One room changes, along with the places of users of that room. */
  lemma ReplaceKeepsInv(l: State, k: nat, r: Room, at: map<User, Place>)
    requires Inv(l) && k < |l.rooms| && r.id == l.rooms[k].id
    requires at.Keys == l.at.Keys
    requires forall u :: u in at && u !in l.rooms[k].members && u !in r.members ==> at[u] == l.at[u]
    requires forall u :: u in r.members && u !in l.rooms[k].members ==> u in l.at && l.at[u].roomID == 0
    requires forall u :: u in l.rooms[k].members && u !in r.members ==> at[u] == LOBBY
    requires RoomOk(r) && Seats(at, r)
    ensures Inv(Replace(l, k, r).(at := at))
  {
    var q := Replace(l, k, r).(at := at);
    FindAfterReplace(l.rooms, k, r, 0);
    forall u | u in q.at
      ensures u in q.users && Known(q.rooms, u, q.at[u])
    {
      FindAfterReplace(l.rooms, k, r, q.at[u].roomID);
      FindAt(l.rooms, k);
      if u in r.members {
      } else if u in l.rooms[k].members {
      } else {
        assert Known(l.rooms, u, l.at[u]);
      }
    }
    forall i | 0 <= i < |q.rooms|
      ensures RoomOk(q.rooms[i]) && Seats(q.at, q.rooms[i])
    {
      if i != k {
        OtherRoomsMembers(l, k, i);
        assert Seats(l.at, l.rooms[i]);
        assert forall u :: u in l.rooms[i].members ==> q.at[u] == l.at[u];
      }
    }
  }

  /** No user is in two rooms. */
  lemma OtherRoomsMembers(l: State, i: nat, j: nat)
    requires Inv(l) && i < |l.rooms| && j < |l.rooms| && i != j
    ensures forall u :: u in l.rooms[i].members ==> u !in l.rooms[j].members
  {
    forall u | u in l.rooms[i].members
      ensures u !in l.rooms[j].members
    {
      assert Seats(l.at, l.rooms[i]) && Seats(l.at, l.rooms[j]);
    }
  }

  function Dropped(l: State, k: nat): State
    requires k < |l.rooms|
  {
    l.(rooms := Without(l.rooms, k), at := MoveAll(l.at, l.rooms[k].members, LOBBY))
  }

  lemma DropKeepsUsers(l: State, k: nat, u: User)
    requires Inv(l) && k < |l.rooms| && u in l.at
    ensures Known(Dropped(l, k).rooms, u, Dropped(l, k).at[u])
  {
    hide RoomOk, Without, Find;
    FindAfterWithout(l.rooms, k, l.at[u].roomID);
    assert Known(l.rooms, u, l.at[u]);
  }

  lemma DropKeepsRoom(l: State, k: nat, i: nat)
    requires Inv(l) && k < |l.rooms| && i < |l.rooms| && i != k
    ensures RoomOk(l.rooms[i]) && Seats(Dropped(l, k).at, l.rooms[i])
  {
    hide RoomOk, Without, Find;
    OtherRoomsMembers(l, i, k);
    assert Seats(l.at, l.rooms[i]);
    assert RoomOk(l.rooms[i]);
    PlayersAreMembers(l.rooms[i]);
  }

  lemma PlayersAreMembers(r: Room)
    requires RoomOk(r)
    ensures r.game.Some? ==> forall p :: p in r.game.value.players ==> p in r.members
  {
  }

  /** A room goes, and its members go to the lobby. */
  lemma DropKeepsInv(l: State, k: nat)
    requires Inv(l) && k < |l.rooms|
    ensures Inv(Dropped(l, k))
  {
    hide RoomOk, Without, Find, Seats, Known;
    var q := Dropped(l, k);
    WithoutAt(l.rooms, k);
    FindAfterWithout(l.rooms, k, 0);
    forall u | u in q.at
      ensures u in q.users && Known(q.rooms, u, q.at[u])
    {
      DropKeepsUsers(l, k, u);
    }
    forall i | 0 <= i < |q.rooms|
      ensures RoomOk(q.rooms[i]) && Seats(q.at, q.rooms[i])
    {
      DropKeepsRoom(l, k, if i < k then i else i + 1);
    }
  }

  function Appended(l: State, r: Room, u: User): State {
    l.(rooms := l.rooms + [r], at := l.at[u := Place(InRoom, r.id)])
  }

  lemma FindAfterAppend(rooms: seq<Room>, r: Room, id: nat)
    requires DistinctIds(rooms) && Find(rooms, r.id) < 0
    ensures DistinctIds(rooms + [r])
    ensures Find(rooms + [r], id) == if id == r.id then |rooms| else Find(rooms, id)
  {
    assert DistinctIds(rooms + [r]);
    if id == r.id {
      FindAt(rooms + [r], |rooms|);
    } else if Find(rooms, id) >= 0 {
      FindAt(rooms + [r], Find(rooms, id));
    }
  }

  lemma AppendKeepsUsers(l: State, r: Room, u: User, x: User)
    requires Inv(l) && u in l.at && l.at[u].roomID == 0
    requires r.id != 0 && r.members == [u] && Find(l.rooms, r.id) < 0 && x in l.at
    ensures Known(Appended(l, r, u).rooms, x, Appended(l, r, u).at[x])
  {
    hide RoomOk, Find;
    FindAfterAppend(l.rooms, r, r.id);
    FindAfterAppend(l.rooms, r, l.at[x].roomID);
    assert Known(l.rooms, x, l.at[x]);
  }

  lemma UntouchedSeats(l: State, u: User, p: Place, i: nat)
    requires Inv(l) && u in l.at && l.at[u].roomID == 0 && i < |l.rooms|
    ensures RoomOk(l.rooms[i]) && Seats(l.at[u := p], l.rooms[i])
  {
    hide RoomOk, Find;
    assert Seats(l.at, l.rooms[i]);
    assert RoomOk(l.rooms[i]);
    PlayersAreMembers(l.rooms[i]);
  }

  lemma FirstSeat(at: map<User, Place>, r: Room, u: User)
    requires RoomOk(r) && r.members == [u] && r.game.None?
    ensures r.id != 0 && Seats(at[u := Place(InRoom, r.id)], r)
  {
  }

  /** A new room with one member that was in no room. */
  lemma AppendKeepsInv(l: State, r: Room, u: User)
    requires Inv(l) && u in l.at && l.at[u].roomID == 0
    requires RoomOk(r) && r.members == [u] && r.game.None? && Find(l.rooms, r.id) < 0
    ensures Inv(Appended(l, r, u))
  {
    hide RoomOk, Find, Seats, Known;
    var q := Appended(l, r, u);
    FirstSeat(l.at, r, u);
    FindAfterAppend(l.rooms, r, 0);
    forall x | x in q.at
      ensures x in q.users && Known(q.rooms, x, q.at[x])
    {
      AppendKeepsUsers(l, r, u, x);
    }
    forall i | 0 <= i < |q.rooms|
      ensures RoomOk(q.rooms[i]) && Seats(q.at, q.rooms[i])
    {
      if i < |l.rooms| {
        UntouchedSeats(l, u, Place(InRoom, r.id), i);
      }
    }
  }

  /** A user outside all rooms changes its status. */
  lemma PlaceKeepsInv(l: State, u: User, p: Place)
    requires Inv(l) && u in l.at && l.at[u].roomID == 0
    requires p.roomID == 0 && p.status !in {InRoom, InGame}
    ensures Inv(l.(at := l.at[u := p]))
  {
    hide RoomOk, Find, Seats;
    forall i | 0 <= i < |l.rooms|
      ensures RoomOk(l.rooms[i]) && Seats(l.at[u := p], l.rooms[i])
    {
      UntouchedSeats(l, u, p, i);
    }
  }

  // ----- The handlers -----

  /** GetRoomByRoomID, for which 0 is no room. */
  function GetRoom(rooms: seq<Room>, id: nat): int {
    if id == 0 then -1 else Find(rooms, id)
  }

  /** GetFreeRoomID: the smallest id from `id` on that no room has, or 0. */
  function FreeID(rooms: seq<Room>, id: nat): (r: nat)
    requires 1 <= id <= 0xFFFF
    ensures r != 0 ==> id <= r < 0xFFFF && Find(rooms, r) < 0
    ensures r != 0 ==> forall i :: id <= i < r ==> Find(rooms, i) >= 0
    ensures r == 0 ==> forall i :: id <= i < 0xFFFF ==> Find(rooms, i) >= 0
    decreases 0xFFFF - id
  {
    if id == 0xFFFF then 0
    else if Find(rooms, id) < 0 then id
    else FreeID(rooms, id + 1)
  }

  /** UserManager::AddUser; `session` is what AddUserSession would return. */
  function AddUser(l: State, u: User, session: int): State
    requires u !in l.at
  {
    if |l.users| >= l.cap || session <= 0 then l
    else l.(users := l.users + [u], at := l.at[u := Place(InLogin, 0)], numPlayers := (|l.users| + 1) % 0x1_0000)
  }

  function SetStatus(l: State, u: User, from: Status, status: Status): State {
    if u in l.at && l.at[u].status == from then l.(at := l.at[u := Place(status, l.at[u].roomID)]) else l
  }

  predicate LoggedIn(l: State, u: User) {
    u in l.at && l.at[u].status != InLogin
  }

  /** A new room with u in it, or u back in the lobby if the table does not take the row. */
  function Open(l: State, id: nat, u: User, vals: S.Values, info: seq<u8>, ok: bool): Effect {
    var r := Room(id, u, vals, [u], None, Max(1, MaxPlayers(vals)));
    var (result, table) := InsertRow(l.table, r, ok);
    if result <= 0 then Effect(l.(at := l.at[u := LOBBY], table := table), [])
    else
      Effect(l.(rooms := l.rooms + [r], at := l.at[u := Place(InRoom, id)], table := table),
             [Sent(u, Full(P.Reply(u.userID, id, vals, [info])))])
  }

  /** parsePacket_Room_CreateRoom; `vals` are the settings the packet and the presets make, `info` is the user's entry in
      the reply. */
  function Create(l: State, u: User, vals: S.Values, info: seq<u8>, characterOk: bool, ok: bool): Effect {
    if !LoggedIn(l, u) || l.at[u].status == InRoom then Effect(l, [])
    else
      var id := FreeID(l.rooms, 1);
      if id == 0 || !characterOk then Effect(l, [])
      else Open(l, id, u, vals, info, ok)
  }

  /** The room takes a user in that it does not have yet. */
  function Admit(l: State, k: nat, u: User, infos: seq<seq<u8>>, ok: bool): Effect
    requires k < |l.rooms|
  {
    var r := l.rooms[k];
    var q := r.(members := r.members + [u]);
    Effect(Replace(l, k, q).(at := l.at[u := Place(InRoom, r.id)], table := UpdateRow(l.table, q, ok)),
           [Sent(u, Full(P.Reply(r.host.userID, r.id, r.settings, infos)))])
  }

  /** parsePacket_Room_JoinRoom; `infos` are the entries of the members in the reply. */
  function Join(l: State, u: User, roomID: nat, password: seq<u8>, infos: seq<seq<u8>>, characterOk: bool, ok: bool): Effect {
    if !LoggedIn(l, u) || l.at[u].status == InRoom then Effect(l, [])
    else
      var k := GetRoom(l.rooms, roomID);
      if k < 0 then Effect(l, [])
      else
        var r := l.rooms[k];
        var wanted := r.settings[S.Password].s;
        if wanted != [] && password != wanted then Effect(l, [])
        else if |r.members| >= MaxPlayers(r.settings) || !characterOk || u in r.members then Effect(l, [])
        else Admit(l, k, u, infos, ok)
  }

  predicate InARoom(l: State, u: User) {
    u in l.at && (l.at[u].status == InRoom || l.at[u].status == InGame)
  }

  /** Room::RemoveRoomUser, with RemoveRoom when nobody is left. */
  function RemoveRoomUser(l: State, k: nat, u: User, ok: bool): Effect
    requires k < |l.rooms| && u in l.rooms[k].members
  {
    var r := l.rooms[k];
    if |r.members| == 1 then
      Effect(l.(rooms := Without(l.rooms, k), at := l.at[u := LOBBY], table := DeleteRow(l.table, r.id, ok)), [])
    else
      var (q, out) := AfterLeave(r, u);
      Effect(Replace(l, k, q).(at := l.at[u := LOBBY], table := UpdateRow(l.table, Vacated(r, u), ok)), out)
  }

  /** The `erase(find(...))` of RemoveRoomUser hits: the user is in the list of the room it is said to be in. */
  predicate LeaveHits(l: State, u: User) {
    InARoom(l, u) ==> var k := GetRoom(l.rooms, l.at[u].roomID); k >= 0 ==> u in l.rooms[k].members
  }

  /** parsePacket_Room_LeaveRoom. */
  function Leave(l: State, u: User, ok: bool): Effect
    requires LeaveHits(l, u)
  {
    if !InARoom(l, u) then Effect(l, [])
    else
      var k := GetRoom(l.rooms, l.at[u].roomID);
      if k < 0 then Effect(l, []) else RemoveRoomUser(l, k, u, ok)
  }

  /** The two `erase(find(...))` of a disconnect hit: in the user list and in the room's list. */
  predicate RemoveUserHits(l: State, u: User) {
    u in l.at ==>
      && u in l.users
      && var k := GetRoom(l.rooms, l.at[u].roomID); k >= 0 ==> u in l.rooms[k].members
  }

  /** The user leaves the room it is in, if it is in one. */
  function OutOfRoom(l: State, u: User, ok: bool): Effect
    requires RemoveUserHits(l, u) && u in l.at
  {
    var k := GetRoom(l.rooms, l.at[u].roomID);
    if k < 0 then Effect(l, []) else RemoveRoomUser(l, k, u, ok)
  }

  /** UserManager::RemoveUser, on disconnect. */
  function RemoveUser(l: State, u: User, ok: bool): Effect
    requires RemoveUserHits(l, u)
  {
    if u !in l.at then Effect(l, [])
    else
      var e := OutOfRoom(l, u, ok);
      var users := Erase(l.users, u);
      Effect(e.state.(users := users, at := e.state.at - {u}, numPlayers := |users| % 0x1_0000), e.out)
  }

  /** The room a user may act on as its host, if any. */
  function Hosted(l: State, u: User): int {
    if u !in l.at then -1
    else
      var k := GetRoom(l.rooms, l.at[u].roomID);
      if k >= 0 && l.rooms[k].host == u then k else -1
  }

  /** Room k takes the delta, its row follows, and its members are told. */
  function Changed(l: State, k: nat, d: S.Settings, ok: bool): Effect
    requires k < |l.rooms|
  {
    var q := Updated(l.rooms[k], d);
    Effect(Replace(l, k, q).(table := UpdateRow(l.table, q, ok)), Broadcast(q.members, Delta(d)))
  }

  /** parsePacket_Room_UpdateRoomSettings. */
  function Change(l: State, u: User, d: S.Settings, ok: bool): Effect {
    var k := Hosted(l, u);
    if k < 0 || l.at[u].status != InRoom then Effect(l, [])
    else Changed(l, k, d, ok)
  }

  /** parsePacket_Host_ServerIsActivated. */
  function Activate(l: State, u: User): Effect {
    var k := Hosted(l, u);
    if k < 0 || !InARoom(l, u) || l.rooms[k].game.Some? then Effect(l, [])
    else
      var d := R.StateDelta(PLAYING);
      var q := Updated(l.rooms[k].(game := Some(Match([], []))), d);
      Effect(Replace(l, k, q), Broadcast(q.members, Delta(d)))
  }

  const SAVEDATA_MAX_SIZE := 51200

  /** parsePacket_Host_SaveData: a size of 0 or above the limit is refused; `data` are the bytes the packet has. */
  function SaveData(l: State, u: User, size: nat, data: seq<u8>): State {
    var k := Hosted(l, u);
    if k < 0 || l.at[u].status != InGame || l.rooms[k].game.None? || size == 0 || size > SAVEDATA_MAX_SIZE then l
    else Replace(l, k, l.rooms[k].(game := Some(l.rooms[k].game.value.(saveData := data))))
  }

  const USERSTATUS_INGAME: u8 := 1

  /** parsePacket_Host_SendUserStatus; `target` is what GetUserByUserID finds. */
  function SendUserStatus(l: State, u: User, target: Option<User>, status: u8): State {
    var k := Hosted(l, u);
    if k < 0 || !InARoom(l, u) || l.rooms[k].game.None? || target.None? || !InARoom(l, target.value) then l
    else
      var g, t := l.rooms[k].game.value, target.value;
      if GetRoom(l.rooms, l.at[t].roomID) != k || status != USERSTATUS_INGAME || t in g.players then l
      else
        Replace(l, k, l.rooms[k].(game := Some(g.(players := g.players + [t]))))
        .(at := l.at[t := Place(InGame, l.at[t].roomID)])
  }

  /** The players of room k are back in the room, and its match ends. */
  function Ended(l: State, k: nat): Effect
    requires k < |l.rooms| && l.rooms[k].game.Some?
  {
    var (q, out) := Waiting(l.rooms[k]);
    Effect(Replace(l, k, q).(at := MoveAll(l.at, l.rooms[k].game.value.players, Place(InRoom, l.rooms[k].id))), out)
  }

  /** parsePacket_Host_EndGame. */
  function EndGame(l: State, u: User): Effect {
    var k := Hosted(l, u);
    if k < 0 || l.at[u].status != InGame || l.rooms[k].game.None? then Effect(l, [])
    else Ended(l, k)
  }

  /** u leaves the match of room k and is in the room again. */
  function Returned(l: State, k: nat, u: User): Effect
    requires k < |l.rooms| && l.rooms[k].game.Some? && u in l.at
  {
    var (q, out) := AfterReturn(l.rooms[k], u);
    Effect(Replace(l, k, q).(at := l.at[u := Place(InRoom, l.at[u].roomID)]), out)
  }

  /** parsePacket_Room_ReturnToRoom. */
  function ReturnToRoom(l: State, u: User): Effect {
    if !InARoom(l, u) then Effect(l, [])
    else
      var k := GetRoom(l.rooms, l.at[u].roomID);
      if k < 0 || l.rooms[k].game.None? then Effect(l, [])
      else Returned(l, k, u)
  }

  /** The rooms are deleted one after another; each destructor sends its members to the lobby. */
  function MoveMembers(at: map<User, Place>, rooms: seq<Room>): map<User, Place> {
    if rooms == [] then at else MoveMembers(MoveAll(at, rooms[0].members, LOBBY), rooms[1..])
  }

  /** The console command: nothing if there are no rooms, else all rooms go, in memory and in the table. */
  function RemoveAllRooms(l: State, ok: bool): State {
    if l.rooms == [] then l
    else l.(rooms := [], at := MoveMembers(l.at, l.rooms), table := if ok then map[] else l.table)
  }

  /** One room of the clock-gap resync: its row is inserted again, or the room goes. */
  function ResyncRoom(l: State, k: nat, addOk: bool, deleteOk: bool): State
    requires k < |l.rooms|
  {
    var r := l.rooms[k];
    var (result, table) := InsertRow(l.table, r, addOk);
    if result > 0 then l.(table := table)
    else
      l.(rooms := Without(l.rooms, k), at := MoveAll(l.at, r.members, LOBBY), table := DeleteRow(table, r.id, deleteOk))
  }

  /** Rooms `from` on are still to do; `addFails` and `deleteFails` are the ids whose queries fail. */
  function ResyncRooms(l: State, from: nat, addFails: set<nat>, deleteFails: set<nat>): State
    requires from <= |l.rooms|
    decreases |l.rooms| - from
  {
    if from == |l.rooms| then l
    else
      var id := l.rooms[from].id;
      var q := ResyncRoom(l, from, id !in addFails, id !in deleteFails);
      ResyncRooms(q, if |q.rooms| == |l.rooms| then from + 1 else from, addFails, deleteFails)
  }

  function Resync(l: State, clearOk: bool, addFails: set<nat>, deleteFails: set<nat>): State {
    ResyncRooms(l.(table := if clearOk then map[] else l.table), 0, addFails, deleteFails)
  }

  /** Rooms at other places in the list are not touched. */
  ghost predicate OnlyRoom(rooms: seq<Room>, k: nat, after: seq<Room>) {
    |after| == |rooms| && forall i :: 0 <= i < |rooms| && i != k ==> after[i] == rooms[i]
  }

  // ----- Facts for those who do not look inside -----

  /** A row that is written describes its room, field by field, as long as the room has at most 255 members. */
  lemma RowDescribes(r: Room)
    requires |r.members| <= 255
    ensures Describes(RowOf(r), r)
  {
    assert S.Fits(S.KindOf(S.Password), r.settings[S.Password]);
  }

  lemma NoDuplicates(l: State)
    requires Inv(l)
    ensures DistinctIds(l.rooms) && NoDup(l.users) && forall u :: u in l.at ==> u in l.users
  {
  }

  lemma FreeIDIsFree(rooms: seq<Room>)
    requires FreeID(rooms, 1) != 0
    ensures Find(rooms, FreeID(rooms, 1)) < 0
  {
  }
}
