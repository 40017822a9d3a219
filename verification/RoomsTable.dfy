/** The rooms table mirrors the rooms in memory, as long as queries succeed. */
module RoomsTable {
  import opened Bytes
  import opened Rooms
  import opened Lobby
  import opened LobbySafety
  import opened LobbyOutcomes
  import opened HostOutcomes
  import S = SettingsCodec
  import R = SettingsReplication

  predicate QueriesSucceed(e: Event) {
    match e
    case CreateRoom(_, _, _, _, ok) => ok
    case JoinRoom(_, _, _, _, _, ok) => ok
    case LeaveRoom(_, ok) => ok
    case UpdateSettings(_, _, ok) => ok
    case Disconnect(_, ok) => ok
    case ClearRooms(ok) => ok
    case ClockGap(clearOk, addFails, deleteFails) => clearOk && addFails == {} && deleteFails == {}
    case _ => true
  }

  // ----- Local changes -----

  lemma ImageReplace(rooms: seq<Room>, k: nat, q: Room, table: map<nat, Row>)
    requires DistinctIds(rooms) && k < |rooms| && q.id == rooms[k].id && Image(rooms, table)
    ensures Image(rooms[k := q], table[q.id := RowOf(q)])
  {
    hide RowOf, Find;
    var t := table[q.id := RowOf(q)];
    forall id | id in t ensures Find(rooms[k := q], id) >= 0 {
      FindAfterReplace(rooms, k, q, id);
      FindAt(rooms, k);
    }
  }

  lemma ImageSameRow(rooms: seq<Room>, k: nat, q: Room, table: map<nat, Row>)
    requires DistinctIds(rooms) && k < |rooms| && q.id == rooms[k].id && RowOf(q) == RowOf(rooms[k]) && Image(rooms, table)
    ensures Image(rooms[k := q], table)
  {
    hide RowOf, Find;
    ImageReplace(rooms, k, q, table);
    assert table[q.id := RowOf(q)] == table;
  }

  lemma ImageWithout(rooms: seq<Room>, k: nat, table: map<nat, Row>)
    requires DistinctIds(rooms) && k < |rooms| && Image(rooms, table)
    ensures Image(Without(rooms, k), table - {rooms[k].id})
  {
    hide RowOf, Find, Without;
    var id := rooms[k].id;
    WithoutAt(rooms, k);
    forall x | x in table - {id} ensures Find(Without(rooms, k), x) >= 0 {
      assert x in table;
      FindAfterWithout(rooms, k, x);
    }
  }

  lemma ImageAppend(rooms: seq<Room>, r: Room, table: map<nat, Row>)
    requires DistinctIds(rooms) && Find(rooms, r.id) < 0 && Image(rooms, table)
    ensures r.id !in table && Image(rooms + [r], table[r.id := RowOf(r)])
  {
    hide RowOf, Find;
    var t := table[r.id := RowOf(r)];
    forall id | id in t ensures Find(rooms + [r], id) >= 0 {
      FindAfterAppend(rooms, r, id);
    }
  }

  // ----- Rows that do not notice -----

  lemma StateIsNotInTheRow(r: Room, state: u8)
    ensures RowOf(Updated(r, R.StateDelta(state))) == RowOf(r)
  {
    hide R.Update, R.StateDelta;
    R.StateDeltaChanges(r.settings, state, S.Password);
    R.StateDeltaChanges(r.settings, state, S.LevelLimit);
    R.StateDeltaChanges(r.settings, state, S.GameModeID);
    R.StateDeltaChanges(r.settings, state, S.MapID);
    R.StateDeltaChanges(r.settings, state, S.MaxPlayers);
  }

  lemma HostIsNotInTheRow(r: Room)
    requires r.members != []
    ensures RowOf(HostLeft(r).0) == RowOf(r)
  {
    hide R.Update, R.StateDelta, Updated;
    if r.game.Some? {
      StateIsNotInTheRow(r.(game := None), WAITING);
    }
  }

  /** The row written before the host migrates is also right afterwards. */
  lemma LeaveRow(r: Room, u: User)
    requires u in r.members && |r.members| > 1
    ensures RowOf(AfterLeave(r, u).0) == RowOf(Vacated(r, u)) && AfterLeave(r, u).0.id == r.id && Vacated(r, u).id == r.id
  {
    hide RowOf, R.Update, R.StateDelta;
    if r.host == u {
      HostIsNotInTheRow(Vacated(r, u));
    }
  }

  lemma ReturnRow(r: Room, u: User)
    requires r.game.Some?
    ensures RowOf(AfterReturn(r, u).0) == RowOf(r) && AfterReturn(r, u).0.id == r.id
  {
    hide R.Update, R.StateDelta, Updated;
    var v := r.(game := DropPlayer(r.game, u));
    StateIsNotInTheRow(v.(game := None), WAITING);
    assert Updated(v.(game := None), R.StateDelta(WAITING)).id == r.id by { UpdatedSame(v.(game := None), R.StateDelta(WAITING)); }
  }

  // ----- The handlers -----

  lemma CreateMirrors(l: State, u: User, vals: S.Values, info: seq<u8>, characterOk: bool)
    requires Inv(l) && Mirrored(l)
    ensures Mirrored(Create(l, u, vals, info, characterOk, true).state)
  {
    hide RowOf, Find, RoomOk, Seats, Known, MaxPlayers, Image;
    var id := FreeID(l.rooms, 1);
    if LoggedIn(l, u) && l.at[u].status != InRoom && id != 0 && characterOk {
      var r := Room(id, u, vals, [u], None, Max(1, MaxPlayers(vals)));
      ImageAppend(l.rooms, r, l.table);
    }
  }

  lemma JoinMirrors(l: State, u: User, roomID: nat, password: seq<u8>, infos: seq<seq<u8>>, characterOk: bool)
    requires Inv(l) && Mirrored(l)
    ensures Mirrored(Join(l, u, roomID, password, infos, characterOk, true).state)
  {
    hide RowOf, Find, RoomOk, Seats, Known, MaxPlayers;
    var q := Join(l, u, roomID, password, infos, characterOk, true).state;
    if q != l {
      var k := GetRoom(l.rooms, roomID);
      ImageReplace(l.rooms, k, q.rooms[k], l.table);
    }
  }

  lemma RemoveRoomUserMirrors(l: State, k: nat, u: User)
    requires Inv(l) && Mirrored(l) && k < |l.rooms| && u in l.rooms[k].members
    ensures Mirrored(RemoveRoomUser(l, k, u, true).state)
  {
    hide RowOf, Find, RoomOk, Seats, Known, Without, AfterLeave, Vacated;
    if |l.rooms[k].members| == 1 {
      ImageWithout(l.rooms, k, l.table);
    } else {
      LeaveRow(l.rooms[k], u);
      ImageReplace(l.rooms, k, AfterLeave(l.rooms[k], u).0, l.table);
    }
  }

  lemma ChangeMirrors(l: State, u: User, d: S.Settings)
    requires Inv(l) && Mirrored(l)
    ensures Mirrored(Change(l, u, d, true).state)
  {
    hide RowOf, Find, RoomOk, Seats, Known, Updated;
    var k := Hosted(l, u);
    if k >= 0 && l.at[u].status == InRoom {
      UpdatedSame(l.rooms[k], d);
      ImageReplace(l.rooms, k, Updated(l.rooms[k], d), l.table);
    }
  }

  lemma ActivateMirrors(l: State, u: User)
    requires Inv(l) && Mirrored(l)
    ensures Mirrored(Activate(l, u).state)
  {
    hide Find, RoomOk, Seats, Known, Updated, R.StateDelta, Image;
    var k := Hosted(l, u);
    if k >= 0 && InARoom(l, u) && l.rooms[k].game.None? {
      var r := l.rooms[k].(game := Some(Match([], [])));
      StateIsNotInTheRow(r, PLAYING);
      UpdatedSame(r, R.StateDelta(PLAYING));
      ImageSameRow(l.rooms, k, Updated(r, R.StateDelta(PLAYING)), l.table);
    }
  }

  lemma EndGameMirrors(l: State, u: User)
    requires Inv(l) && Mirrored(l)
    ensures Mirrored(EndGame(l, u).state)
  {
    hide Find, RoomOk, Seats, Known, Updated, R.StateDelta, Image;
    var k := Hosted(l, u);
    if k >= 0 && l.at[u].status == InGame && l.rooms[k].game.Some? {
      var r := l.rooms[k].(game := None);
      StateIsNotInTheRow(r, WAITING);
      UpdatedSame(r, R.StateDelta(WAITING));
      ImageSameRow(l.rooms, k, Updated(r, R.StateDelta(WAITING)), l.table);
    }
  }

  lemma ReturnMirrors(l: State, u: User)
    requires Inv(l) && Mirrored(l)
    ensures Mirrored(ReturnToRoom(l, u).state)
  {
    hide Find, RoomOk, Seats, Known, AfterReturn, Image;
    if InARoom(l, u) {
      var k := GetRoom(l.rooms, l.at[u].roomID);
      if k >= 0 && l.rooms[k].game.Some? {
        ReturnRow(l.rooms[k], u);
        ImageSameRow(l.rooms, k, AfterReturn(l.rooms[k], u).0, l.table);
      }
    }
  }

  lemma SaveDataMirrors(l: State, u: User, size: nat, data: seq<u8>)
    requires Inv(l) && Mirrored(l)
    ensures Mirrored(SaveData(l, u, size, data))
  {
    hide Find, RoomOk, Seats, Known, Image;
    var q := SaveData(l, u, size, data);
    if q != l {
      var k := Hosted(l, u);
      ImageSameRow(l.rooms, k, q.rooms[k], l.table);
    }
  }

  lemma SendUserStatusMirrors(l: State, u: User, target: Option<User>, status: u8)
    requires Inv(l) && Mirrored(l)
    ensures Mirrored(SendUserStatus(l, u, target, status))
  {
    hide Find, RoomOk, Seats, Known, Image;
    var q := SendUserStatus(l, u, target, status);
    if q != l {
      var k := Hosted(l, u);
      ImageSameRow(l.rooms, k, q.rooms[k], l.table);
    }
  }

  lemma LeaveMirrors(l: State, u: User)
    requires Inv(l) && Mirrored(l) && LeaveHits(l, u)
    ensures Mirrored(Leave(l, u, true).state)
  {
    hide Find, RoomOk, Seats, Known, Image, RemoveRoomUser;
    if InARoom(l, u) {
      var k := GetRoom(l.rooms, l.at[u].roomID);
      if k >= 0 { RemoveRoomUserMirrors(l, k, u); }
    }
  }

  lemma RemoveUserMirrors(l: State, u: User)
    requires Inv(l) && Mirrored(l) && RemoveUserHits(l, u)
    ensures Mirrored(RemoveUser(l, u, true).state)
  {
    hide Find, RoomOk, Seats, Known, Image, RemoveRoomUser;
    if u in l.at {
      var k := GetRoom(l.rooms, l.at[u].roomID);
      if k >= 0 { RemoveRoomUserMirrors(l, k, u); }
    }
  }

  // ----- The clock-gap resync -----

  lemma {:induction false} ResyncInserts(l: State, from: nat)
    requires DistinctIds(l.rooms) && from <= |l.rooms| && Image(l.rooms[..from], l.table)
    ensures var q := ResyncRooms(l, from, {}, {});
            q.rooms == l.rooms && q.at == l.at && Image(l.rooms, q.table)
    decreases |l.rooms| - from
  {
    hide RowOf, Find, Image;
    if from == |l.rooms| {
      assert l.rooms[..from] == l.rooms;
    } else {
      var r := l.rooms[from];
      assert l.rooms[..from + 1] == l.rooms[..from] + [r];
      ImageAppend(l.rooms[..from], r, l.table);
      ResyncInserts(l.(table := l.table[r.id := RowOf(r)]), from + 1);
    }
  }

  /** Whatever the table held before: if the queries succeed, every room survives and the table is the mirror image again. */
  lemma ResyncRestoresMirror(l: State)
    requires DistinctIds(l.rooms)
    ensures var q := Resync(l, true, {}, {});
            q.rooms == l.rooms && q.at == l.at && Mirrored(q)
  {
    assert Image(l.rooms[..0], map[]);
    ResyncInserts(l.(table := map[]), 0);
  }

  /** After every completed step with succeeding queries the rows are exactly the image of the rooms. */
  lemma StepKeepsMirror(l: State, e: Event)
    requires Inv(l) && Legal(l, e) && Mirrored(l) && QueriesSucceed(e)
    ensures Hits(l, e) && Mirrored(Step(l, e).state)
  {
    hide Inv, Create, Join, LeaveHits, Leave, Change, Activate, SaveData, SendUserStatus, EndGame,
      ReturnToRoom, RemoveUserHits, RemoveUser, Resync;
    StepKeepsInv(l, e);
    match e
    case Connect(u, session) =>
    case FinishLogin(u, transferred) =>
    case RequestServerList(u) =>
    case RequestTransfer(u) =>
    case CreateRoom(u, vals, info, characterOk, ok) => CreateMirrors(l, u, vals, info, characterOk);
    case JoinRoom(u, roomID, password, infos, characterOk, ok) => JoinMirrors(l, u, roomID, password, infos, characterOk);
    case LeaveRoom(u, ok) => LeaveMirrors(l, u);
    case UpdateSettings(u, d, ok) => ChangeMirrors(l, u, d);
    case ServerIsActivated(u) => ActivateMirrors(l, u);
    case HostSaveData(u, size, data) => SaveDataMirrors(l, u, size, data);
    case HostSendUserStatus(u, target, status) => SendUserStatusMirrors(l, u, target, status);
    case HostEndGame(u) => EndGameMirrors(l, u);
    case ReturnTo(u) => ReturnMirrors(l, u);
    case Disconnect(u, ok) => RemoveUserMirrors(l, u);
    case ClearRooms(ok) =>
    case ClockGap(clearOk, addFails, deleteFails) => NoDuplicates(l); ResyncRestoresMirror(l);
  }

  /** In every run whose queries succeed, from an empty table on. */
  lemma {:induction false} RunsMirror(states: seq<State>, es: seq<Event>, i: nat)
    requires Run(states, es) && i < |states| && states[0].table == map[]
    requires forall j :: 0 <= j < |es| ==> QueriesSucceed(es[j])
    ensures Mirrored(states[i])
  {
    hide Inv, Step, Mirrored, Hits, Legal;
    if i == 0 {
      EmptyMirror(states[0]);
    } else {
      RunsMirror(states, es, i - 1);
      RunsAreSafe(states, es, i - 1);
      StepKeepsMirror(states[i - 1], es[i - 1]);
    }
  }

  lemma EmptyMirror(l: State)
    requires l.rooms == [] && l.table == map[]
    ensures Mirrored(l)
  {
  }

  // ----- What the rows say -----

  /** In the mirror there is a row for each room and for nothing else, and each describes its room. */
  lemma MirrorDescribes(l: State, k: nat)
    requires Inv(l) && Mirrored(l) && k < |l.rooms|
    ensures l.rooms[k].id in l.table && Describes(l.table[l.rooms[k].id], l.rooms[k])
    ensures forall id :: id in l.table ==> exists i :: 0 <= i < |l.rooms| && l.rooms[i].id == id
  {
    hide RowOf, Seats, Known, Describes;
    var r := l.rooms[k];
    assert RoomOk(r);
    AtMost255(r);
    RowDescribes(r);
    forall id | id in l.table ensures exists i :: 0 <= i < |l.rooms| && l.rooms[i].id == id {
      assert l.rooms[Find(l.rooms, id)].id == id;
    }
  }

  lemma AtMost255(r: Room)
    requires RoomOk(r)
    ensures |r.members| <= 255
  {
  }

  /** One row is written, and it describes r; the others stay. */
  ghost predicate RowWritten(before: map<nat, Row>, after: map<nat, Row>, r: Room) {
    && after.Keys == before.Keys + {r.id}
    && Describes(after[r.id], r)
    && forall id :: id in before && id != r.id ==> after[id] == before[id]
  }

  lemma UpdatedRow(table: map<nat, Row>, r: Room, ok: bool)
    requires |r.members| <= 255
    ensures if ok && r.id in table then RowWritten(table, UpdateRow(table, r, ok), r) else UpdateRow(table, r, ok) == table
  {
    hide RowOf, Describes;
    RowDescribes(r);
  }

  /** The row that Create writes, if its INSERT succeeds. */
  lemma CreatedRow(l: State, u: User, vals: S.Values, info: seq<u8>, ok: bool)
    requires Inv(l) && MayCreate(l, u)
    ensures var free, q := FreeID(l.rooms, 1), Create(l, u, vals, info, true, ok).state;
            if ok && free !in l.table then q.rooms != [] && RowWritten(l.table, q.table, q.rooms[|q.rooms| - 1]) else q.table == l.table
  {
    hide RowOf, Find, RoomOk, Seats, Known, Describes, FreeID, MaxPlayers;
    var r := Room(FreeID(l.rooms, 1), u, vals, [u], None, Max(1, MaxPlayers(vals)));
    RowDescribes(r);
  }

  /** The row that Join writes, if its UPDATE succeeds and the row is there. */
  lemma JoinedRow(l: State, u: User, roomID: nat, password: seq<u8>, infos: seq<seq<u8>>, ok: bool)
    requires Inv(l) && MayJoin(l, u, roomID, password)
    ensures var k, q := Find(l.rooms, roomID), Join(l, u, roomID, password, infos, true, ok).state;
            |q.rooms| == |l.rooms| && q.rooms[k].id == roomID &&
            if ok && roomID in l.table then RowWritten(l.table, q.table, q.rooms[k]) else q.table == l.table
  {
    hide RowOf, Find, Seats, Known, Describes, UpdateRow;
    var k, q := Find(l.rooms, roomID), Join(l, u, roomID, password, infos, true, ok).state;
    JoinOutcome(l, u, roomID, password, infos, true, ok, roomID);
    assert RoomOk(l.rooms[k]);
    UpdatedRow(l.table, q.rooms[k], ok);
  }

  /** The row that a settings update writes. */
  lemma ChangedRow(l: State, u: User, d: S.Settings, ok: bool, k: nat)
    requires Inv(l) && k < |l.rooms| && l.rooms[k].host == u && u in l.at && l.at[u].status == InRoom
    ensures var q := Change(l, u, d, ok).state;
            |q.rooms| == |l.rooms| && q.rooms[k].id == l.rooms[k].id &&
            if ok && l.rooms[k].id in l.table then RowWritten(l.table, q.table, q.rooms[k]) else q.table == l.table
  {
    hide RowOf, Find, Seats, Known, Describes, UpdateRow, R.Update, RoomOk, Hosted;
    HostedIff(l, u, k);
    assert RoomOk(l.rooms[k]);
    AtMost255(l.rooms[k]);
    UpdatedRow(l.table, Updated(l.rooms[k], d), ok);
  }

  /** What becomes of the row when a member goes: it goes with the last one, and otherwise describes who stays. */
  lemma LeftRow(l: State, k: nat, u: User, ok: bool)
    requires Inv(l) && k < |l.rooms| && u in l.rooms[k].members
    ensures var r, q := l.rooms[k], RemoveRoomUser(l, k, u, ok).state;
            if |r.members| == 1 then q.table == (if ok then l.table - {r.id} else l.table)
            else
              |q.rooms| == |l.rooms| && q.rooms[k].id == r.id &&
              if ok && r.id in l.table then RowWritten(l.table, q.table, q.rooms[k]) else q.table == l.table
  {
    hide RowOf, Find, Seats, Known, UpdateRow, RoomOk, AfterLeave, Vacated, Without, Describes;
    var r := l.rooms[k];
    assert RoomOk(r);
    if |r.members| > 1 {
      AtMost255(r);
      LeaveRow(r, u);
      LeaveKeepsRoom(r, u);
      SameRow(AfterLeave(r, u).0, Vacated(r, u));
      AtMost255(AfterLeave(r, u).0);
      UpdatedRow(l.table, AfterLeave(r, u).0, ok);
    }
  }

  lemma SameRow(q: Room, v: Room)
    requires q.id == v.id && RowOf(q) == RowOf(v)
    ensures forall table, ok :: UpdateRow(table, v, ok) == UpdateRow(table, q, ok)
  {
  }
}
