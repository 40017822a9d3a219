/** Where the lobby's promises end: matches and the Playing state, Create and Join in game, and the one-byte counts. */
module LobbyLimits {
  import opened Bytes
  import opened Rooms
  import opened Lobby
  import opened LobbySafety
  import opened LobbyOutcomes
  import S = SettingsCodec
  import R = SettingsReplication

  // ----- A match exists only while the state is Playing -----

  lemma ReplacePlaying(l: State, k: nat, q: Room)
    requires Playing(l) && k < |l.rooms| && PlayingOk(q)
    ensures Playing(Replace(l, k, q))
  {
  }

  lemma WithoutPlaying(l: State, k: nat)
    requires Playing(l) && k < |l.rooms|
    ensures forall i :: 0 <= i < |Without(l.rooms, k)| ==> PlayingOk(Without(l.rooms, k)[i])
  {
    WithoutAt(l.rooms, k);
  }

  lemma RemoveRoomUserPlaying(l: State, k: nat, u: User, ok: bool)
    requires Inv(l) && Playing(l) && k < |l.rooms| && u in l.rooms[k].members
    ensures Playing(RemoveRoomUser(l, k, u, ok).state)
  {
    hide Find, RoomOk, Seats, Known, Without, AfterLeave, PlayingOk, UpdateRow, DeleteRow, Vacated;
    if |l.rooms[k].members| == 1 {
      WithoutPlaying(l, k);
    } else {
      assert RoomOk(l.rooms[k]) && PlayingOk(l.rooms[k]);
      LeaveKeepsRoom(l.rooms[k], u);
      ReplacePlaying(l, k, AfterLeave(l.rooms[k], u).0);
    }
  }

  lemma ActivatePlaying(l: State, u: User)
    requires Playing(l)
    ensures Playing(Activate(l, u).state)
  {
    hide Find, R.Update, R.StateDelta, PlayingOk;
    var k := Hosted(l, u);
    if k >= 0 && InARoom(l, u) && l.rooms[k].game.None? {
      var r := l.rooms[k].(game := Some(Match([], [])));
      NowPlaying(r);
      ReplacePlaying(l, k, Updated(r, R.StateDelta(PLAYING)));
    }
  }

  lemma NowPlaying(r: Room)
    ensures PlayingOk(Updated(r, R.StateDelta(PLAYING)))
  {
    hide R.Update, R.StateDelta;
    StateIs(r, PLAYING);
  }

  lemma EndGamePlaying(l: State, u: User)
    requires Inv(l) && Playing(l)
    ensures Playing(EndGame(l, u).state)
  {
    hide Find, RoomOk, Seats, Known, Waiting, PlayingOk;
    var k := Hosted(l, u);
    if k >= 0 && l.at[u].status == InGame && l.rooms[k].game.Some? {
      WaitingRoom(l.rooms[k]);
      ReplacePlaying(l, k, Waiting(l.rooms[k]).0);
    }
  }

  lemma ReturnPlaying(l: State, u: User)
    requires Inv(l) && Playing(l)
    ensures Playing(ReturnToRoom(l, u).state)
  {
    hide Find, RoomOk, Seats, Known, AfterReturn, PlayingOk;
    if InARoom(l, u) {
      var k := GetRoom(l.rooms, l.at[u].roomID);
      if k >= 0 && l.rooms[k].game.Some? {
        assert RoomOk(l.rooms[k]) && PlayingOk(l.rooms[k]);
        ReturnKeepsRoom(l.rooms[k], u);
        ReplacePlaying(l, k, AfterReturn(l.rooms[k], u).0);
      }
    }
  }

  lemma SamePlaying(l: State, k: nat, q: Room)
    requires Playing(l) && k < |l.rooms| && q.settings == l.rooms[k].settings && (q.game.Some? <==> l.rooms[k].game.Some?)
    ensures Playing(Replace(l, k, q))
  {
    assert PlayingOk(l.rooms[k]);
    ReplacePlaying(l, k, q);
  }

  /** The delta the host sends takes the state of a room with a match away from Playing. */
  predicate Interferes(l: State, u: User, d: S.Settings) {
    var k := Hosted(l, u);
    && k >= 0 && l.at[u].status == InRoom && l.rooms[k].game.Some?
    && R.Carries(d, S.RoomState) && d.vals[S.RoomState] != S.Num(PLAYING as int)
  }

  /** A settings update keeps "a match exists only while Playing" exactly when it does not carry another room state
      into a room with a match. */
  lemma ChangeKeepsPlayingIff(l: State, u: User, d: S.Settings, ok: bool)
    requires Playing(l)
    ensures Playing(Change(l, u, d, ok).state) <==> !Interferes(l, u, d)
  {
    hide Find, R.Update, R.Carries, UpdateRow;
    var k := Hosted(l, u);
    if k >= 0 && l.at[u].status == InRoom {
      var r := l.rooms[k];
      var q := Updated(r, d);
      R.UpdateAt(r.settings, d, S.RoomState);
      NumState(d.vals);
      assert PlayingOk(r);
      var e := Change(l, u, d, ok).state;
      assert e.rooms[k] == q;
      if PlayingOk(q) {
        ReplacePlaying(l, k, q);
      }
    }
  }

  lemma NumState(vals: S.Values)
    ensures vals[S.RoomState].Num?
  {
    assert S.Fits(S.KindOf(S.RoomState), vals[S.RoomState]);
  }

  lemma StepKeepsPlaying(l: State, e: Event)
    requires Inv(l) && Legal(l, e) && Playing(l)
    requires e.UpdateSettings? ==> !Interferes(l, e.u, e.d)
    ensures Hits(l, e) && Playing(Step(l, e).state)
  {
    hide Inv, PlayingOk, LeaveHits, RemoveUserHits, Interferes, RemoveRoomUser, Change, Activate, EndGame, ReturnToRoom,
      MoveMembers, Find, InsertRow, ResyncRooms;
    StepKeepsInv(l, e);
    match e
    case Connect(u, session) =>
    case FinishLogin(u, transferred) =>
    case RequestServerList(u) =>
    case RequestTransfer(u) =>
    case CreateRoom(u, vals, info, characterOk, ok) => CreatePlaying(l, u, vals, info, characterOk, ok);
    case JoinRoom(u, roomID, password, infos, characterOk, ok) => JoinPlaying(l, u, roomID, password, infos, characterOk, ok);
    case LeaveRoom(u, ok) => LeavePlaying(l, u, ok);
    case UpdateSettings(u, d, ok) => ChangeKeepsPlayingIff(l, u, d, ok);
    case ServerIsActivated(u) => ActivatePlaying(l, u);
    case HostSaveData(u, size, data) => SaveDataPlaying(l, u, size, data);
    case HostSendUserStatus(u, target, status) => SendUserStatusPlaying(l, u, target, status);
    case HostEndGame(u) => EndGamePlaying(l, u);
    case ReturnTo(u) => ReturnPlaying(l, u);
    case Disconnect(u, ok) => RemoveUserPlaying(l, u, ok);
    case ClearRooms(ok) =>
    case ClockGap(clearOk, addFails, deleteFails) =>
      ResyncPlaying(l.(table := if clearOk then map[] else l.table), 0, addFails, deleteFails);
  }

  lemma CreatePlaying(l: State, u: User, vals: S.Values, info: seq<u8>, characterOk: bool, ok: bool)
    requires Playing(l)
    ensures Playing(Create(l, u, vals, info, characterOk, ok).state)
  {
    hide Find, InsertRow, MaxPlayers;
  }

  lemma JoinPlaying(l: State, u: User, roomID: nat, password: seq<u8>, infos: seq<seq<u8>>, characterOk: bool, ok: bool)
    requires Playing(l)
    ensures Playing(Join(l, u, roomID, password, infos, characterOk, ok).state)
  {
    hide Find, UpdateRow, MaxPlayers, PlayingOk;
    var q := Join(l, u, roomID, password, infos, characterOk, ok).state;
    if q != l {
      var k := GetRoom(l.rooms, roomID);
      SamePlaying(l, k, q.rooms[k]);
    }
  }

  lemma SaveDataPlaying(l: State, u: User, size: nat, data: seq<u8>)
    requires Playing(l)
    ensures Playing(SaveData(l, u, size, data))
  {
    hide Find, PlayingOk;
    var q := SaveData(l, u, size, data);
    if q != l {
      var k := Hosted(l, u);
      SamePlaying(l, k, q.rooms[k]);
    }
  }

  lemma SendUserStatusPlaying(l: State, u: User, target: Option<User>, status: u8)
    requires Playing(l)
    ensures Playing(SendUserStatus(l, u, target, status))
  {
    hide Find, PlayingOk;
    var q := SendUserStatus(l, u, target, status);
    if q != l {
      var k := Hosted(l, u);
      SamePlaying(l, k, q.rooms[k]);
    }
  }

  lemma LeavePlaying(l: State, u: User, ok: bool)
    requires Inv(l) && Playing(l) && LeaveHits(l, u)
    ensures Playing(Leave(l, u, ok).state)
  {
    hide Find, RoomOk, Seats, Known, PlayingOk, RemoveRoomUser;
    if InARoom(l, u) {
      var k := GetRoom(l.rooms, l.at[u].roomID);
      if k >= 0 { RemoveRoomUserPlaying(l, k, u, ok); }
    }
  }

  lemma RemoveUserPlaying(l: State, u: User, ok: bool)
    requires Inv(l) && Playing(l) && RemoveUserHits(l, u)
    ensures Playing(RemoveUser(l, u, ok).state)
  {
    hide Find, RoomOk, Seats, Known, PlayingOk, RemoveRoomUser;
    if u in l.at {
      var k := GetRoom(l.rooms, l.at[u].roomID);
      if k >= 0 { RemoveRoomUserPlaying(l, k, u, ok); }
    }
  }

  lemma {:induction false} ResyncPlaying(l: State, from: nat, addFails: set<nat>, deleteFails: set<nat>)
    requires Playing(l) && from <= |l.rooms|
    ensures Playing(ResyncRooms(l, from, addFails, deleteFails))
    decreases |l.rooms| - from
  {
    hide ResyncRoom, PlayingOk;
    if from < |l.rooms| {
      var id := l.rooms[from].id;
      var q := ResyncRoom(l, from, id !in addFails, id !in deleteFails);
      RoomsLeft(l, from, id !in addFails, id !in deleteFails);
      WithoutPlaying(l, from);
      ResyncPlaying(q, if |q.rooms| == |l.rooms| then from + 1 else from, addFails, deleteFails);
    }
  }

  /** If no update interferes, a match exists only in rooms that are Playing, in every state of every run. */
  lemma {:induction false} RunsKeepPlaying(states: seq<State>, es: seq<Event>, i: nat)
    requires Run(states, es) && i < |states|
    requires forall j :: 0 <= j < |es| && es[j].UpdateSettings? ==> !Interferes(states[j], es[j].u, es[j].d)
    ensures Playing(states[i])
  {
    hide Inv, Step, Hits, Legal, Interferes;
    if i > 0 {
      RunsKeepPlaying(states, es, i - 1);
      RunsAreSafe(states, es, i - 1);
      StepKeepsPlaying(states[i - 1], es[i - 1]);
    }
  }

  // ----- Create and Join by a user in game -----

  /** A user in game sits in a room that does not change; moving it elsewhere breaks the lobby. */
  lemma MovedAway(l: State, u: User, q: State)
    requires Inv(l) && u in l.at && l.at[u].status == InGame
    requires var k := Find(l.rooms, l.at[u].roomID);
             0 <= k < |q.rooms| && k < |l.rooms| && q.rooms[k] == l.rooms[k]
    requires u in q.at && q.at[u].roomID != l.at[u].roomID
    ensures !Inv(q)
  {
    hide RoomOk, Known, Find;
    OutsideRooms(l, u);
    var k := Find(l.rooms, l.at[u].roomID);
    assert u in q.rooms[k].members;
    assert !Seats(q.at, q.rooms[k]);
  }

  /** CreateRoom is refused, or the user is not in game. */
  predicate CreateIsOrderly(l: State, u: User, characterOk: bool) {
    u in l.at ==> l.at[u].status != InGame || FreeID(l.rooms, 1) == 0 || !characterOk
  }

  /** JoinRoom does not let the user into another room, or the user is not in game. */
  predicate JoinIsOrderly(l: State, u: User, roomID: nat, password: seq<u8>, characterOk: bool) {
    u in l.at ==> l.at[u].status != InGame || roomID == l.at[u].roomID || !characterOk || !RoomTakes(l, roomID, password)
  }

  /** CreateRoom keeps the lobby in order exactly when the user is not in game or the request is refused. */
  lemma CreateKeepsInvIff(l: State, u: User, vals: S.Values, info: seq<u8>, characterOk: bool, ok: bool)
    requires Inv(l)
    ensures Inv(Create(l, u, vals, info, characterOk, ok).state) <==> CreateIsOrderly(l, u, characterOk)
  {
    hide RoomOk, Known, Find, Inv, FreeID, InsertRow, MaxPlayers;
    var q := Create(l, u, vals, info, characterOk, ok).state;
    if u !in l.at || l.at[u].status != InGame {
      CreateKeepsInv(l, u, vals, info, characterOk, ok);
    } else if FreeID(l.rooms, 1) != 0 && characterOk {
      OutsideRooms(l, u);
      FreeIDIsFree(l.rooms);
      MovedAway(l, u, q);
    }
  }

  /** JoinRoom keeps the lobby in order exactly when the user is not in game or is not let into another room. */
  lemma JoinKeepsInvIff(l: State, u: User, roomID: nat, password: seq<u8>, infos: seq<seq<u8>>, characterOk: bool, ok: bool)
    requires Inv(l)
    ensures Inv(Join(l, u, roomID, password, infos, characterOk, ok).state) <==> JoinIsOrderly(l, u, roomID, password, characterOk)
  {
    hide RoomOk, Known, Find, Seats, UpdateRow, NoDup;
    var q := Join(l, u, roomID, password, infos, characterOk, ok).state;
    if u !in l.at || l.at[u].status != InGame {
      JoinKeepsInv(l, u, roomID, password, infos, characterOk, ok);
    } else {
      OutsideRooms(l, u);
      MemberKnows(l, roomID, u);
      if Find(l.rooms, roomID) >= 0 { RoomIdsArePositive(l, roomID); }
      if RoomTakes(l, roomID, password) && characterOk && roomID != l.at[u].roomID {
        NoDuplicates(l);
        FindAt(l.rooms, Find(l.rooms, roomID));
        MovedAway(l, u, q);
      }
    }
  }

  /** Everything but such a Create or Join is orderly. */
  predicate Orderly(l: State, e: Event) {
    match e
    case CreateRoom(u, _, _, characterOk, _) => CreateIsOrderly(l, u, characterOk)
    case JoinRoom(u, roomID, password, _, characterOk, _) => JoinIsOrderly(l, u, roomID, password, characterOk)
    case _ => true
  }

  /** Every step from a state in order is well defined, and it leads to a state in order exactly when it is orderly. */
  lemma StepKeepsInvIff(l: State, e: Event)
    requires Inv(l) && (e.Connect? ==> e.u !in l.at)
    ensures Hits(l, e) && (Inv(Step(l, e).state) <==> Orderly(l, e))
  {
    hide Inv, Create, Join, Step, CreateIsOrderly, JoinIsOrderly, LeaveHits, RemoveUserHits;
    match e
    case CreateRoom(u, vals, info, characterOk, ok) =>
      CreateKeepsInvIff(l, u, vals, info, characterOk, ok);
      StepIsCreate(l, e);
    case JoinRoom(u, roomID, password, infos, characterOk, ok) =>
      JoinKeepsInvIff(l, u, roomID, password, infos, characterOk, ok);
      StepIsJoin(l, e);
    case _ => StepKeepsInv(l, e);
  }

  lemma StepIsCreate(l: State, e: Event)
    requires e.CreateRoom?
    ensures Step(l, e) == Create(l, e.u, e.vals, e.info, e.characterOk, e.ok)
  {
    hide Create;
  }

  lemma StepIsJoin(l: State, e: Event)
    requires e.JoinRoom?
    ensures Step(l, e) == Join(l, e.u, e.roomID, e.password, e.infos, e.characterOk, e.ok)
  {
    hide Join;
  }

  /** A run in which users in game may send Create and Join. After an erase that misses, anything may happen. */
  ghost predicate AnyRun(states: seq<State>, es: seq<Event>) {
    && |states| == |es| + 1 && Initial(states[0])
    && forall i :: 0 <= i < |es| ==>
         && (es[i].Connect? ==> es[i].u !in states[i].at)
         && (Hits(states[i], es[i]) ==> states[i + 1] == Step(states[i], es[i]).state)
  }

  /** In every run all states are in order exactly when all events are orderly. */
  lemma {:induction false} RunsAreSafeIff(states: seq<State>, es: seq<Event>, n: nat)
    requires AnyRun(states, es) && n <= |es|
    ensures (forall i :: 0 <= i <= n ==> Inv(states[i])) <==> (forall j :: 0 <= j < n ==> Orderly(states[j], es[j]))
  {
    hide Inv, Step, Hits, Orderly;
    if n == 0 {
      InitialInv(states[0]);
    } else {
      RunsAreSafeIff(states, es, n - 1);
      if Inv(states[n - 1]) {
        StepKeepsInvIff(states[n - 1], es[n - 1]);
        assert states[n] == Step(states[n - 1], es[n - 1]).state;
      }
    }
  }

  lemma RoomIdsArePositive(l: State, id: nat)
    requires Inv(l) && Find(l.rooms, id) >= 0
    ensures id >= 1 && GetRoom(l.rooms, id) == Find(l.rooms, id)
  {
    hide Find;
    assert RoomOk(l.rooms[Find(l.rooms, id)]);
  }

  /** What goes wrong: a user in game creates a room and disconnects. Its first room still lists it, although it is no user any more. */
  lemma DanglingMember(l: State, u: User, vals: S.Values, info: seq<u8>)
    requires Inv(l) && u in l.at && l.at[u].status == InGame
    requires FreeID(l.rooms, 1) != 0 && FreeID(l.rooms, 1) !in l.table
    ensures var q := Create(l, u, vals, info, true, true).state;
            RemoveUserHits(q, u) &&
            var d := RemoveUser(q, u, true).state;
            var k := Find(l.rooms, l.at[u].roomID);
            && u !in d.users && 0 <= k < |d.rooms| && u in d.rooms[k].members
  {
    hide RoomOk, Known, Seats, MaxPlayers, RowOf, FreeID;
    OutsideRooms(l, u);
    var id := FreeID(l.rooms, 1);
    var q := Create(l, u, vals, info, true, true).state;
    assert q.rooms == l.rooms + [Room(id, u, vals, [u], None, Max(1, MaxPlayers(vals)))];
    NoDuplicates(l);
    FreeIDIsFree(l.rooms);
    NewRoomIsLast(l.rooms, id, q.rooms);
    ErasedFrom(l.users, u);
    WithoutAt(q.rooms, |l.rooms|);
  }

  lemma NewRoomIsLast(rooms: seq<Room>, id: nat, q: seq<Room>)
    requires DistinctIds(rooms) && id != 0 && Find(rooms, id) < 0
    requires |q| == |rooms| + 1 && q[..|rooms|] == rooms && q[|rooms|].id == id
    ensures GetRoom(q, id) == |rooms|
  {
    FindAfterAppend(rooms, q[|rooms|], id);
    assert q == rooms + [q[|rooms|]];
  }

  // ----- Counts -----

  function Members(s: seq<User>): set<User> {
    set u | u in s
  }

  lemma {:induction false} DistinctCount(s: seq<User>)
    requires NoDup(s)
    ensures |Members(s)| == |s|
  {
    if s != [] {
      var rest := s[1..];
      DistinctCount(rest);
      assert s[0] !in rest;
      assert Members(s) == {s[0]} + Members(rest);
    }
  }

  lemma NoMoreThan(a: seq<User>, b: seq<User>)
    requires NoDup(a) && forall u :: u in a ==> u in b
    ensures |a| <= |Members(b)| && (NoDup(b) ==> |a| <= |b|)
  {
    DistinctCount(a);
    assert Members(a) <= Members(b);
    SubsetCount(Members(a), Members(b));
    if NoDup(b) { DistinctCount(b); }
  }

  lemma {:induction false} SubsetCount(a: set<User>, b: set<User>)
    requires a <= b
    ensures |a| <= |b|
  {
    assert b == a + (b - a);
  }

  /** The counts that are cast to one byte, or to two, equal the true sizes; the sizes are bounded by the largest
      maxPlayers the room ever had, and by the channel's limit. */
  lemma CountsAreExact(l: State, k: nat)
    requires Inv(l) && k < |l.rooms|
    ensures var r := l.rooms[k];
            && |r.members| <= r.peak <= 255 && RowOf(r).currentPlayers == |r.members|
            && (r.game.Some? ==> |r.game.value.players| <= |r.members|)
            && l.numPlayers == |l.users| <= l.cap && |l.users| % 0x1_0000 == |l.users|
  {
    hide Find, Known, Seats, RowOf, RoomOk;
    var r := l.rooms[k];
    assert RoomOk(r);
    RoomCounts(r);
  }

  lemma RoomCounts(r: Room)
    requires RoomOk(r)
    ensures |r.members| <= r.peak <= 255 && RowOf(r).currentPlayers == |r.members|
    ensures r.game.Some? ==> |r.game.value.players| <= |r.members|
  {
    hide MaxPlayers;
    if r.game.Some? {
      NoMoreThan(r.game.value.players, r.members);
    }
  }

  /** `peak` is what it is said to be: max(1, maxPlayers) when the room is created, raised by each update. */
  lemma PeakIsLargestMaxPlayers(r: Room, d: S.Settings)
    ensures Updated(r, d).peak == Max(r.peak, MaxPlayers(Updated(r, d).settings))
    ensures MaxPlayers(Updated(r, d).settings)
            == if R.Carries(d, S.MaxPlayers) then MaxPlayers(d.vals) else MaxPlayers(r.settings)
  {
    hide R.Update, R.Carries;
    R.UpdateAt(r.settings, d, S.MaxPlayers);
  }
}
