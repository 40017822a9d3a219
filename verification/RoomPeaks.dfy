/** How large a room can get: never more members than the largest maxPlayers it ever had, or one. */
module RoomPeaks {
  import opened Bytes
  import opened Rooms
  import opened Lobby
  import opened LobbySafety
  import S = SettingsCodec
  import R = SettingsReplication

  /** The settings of room r now allow for at most its peak, which is what the peak was or what they allow now. */
  predicate Raised(peak: nat, r: Room) {
    r.peak == Max(peak, MaxPlayers(r.settings))
  }

  /** Rooms that were there before have their peak raised to their present maxPlayers; new rooms start from 1. */
  ghost predicate PeaksFollow(before: seq<Room>, after: seq<Room>) {
    forall i :: 0 <= i < |after| ==> Raised(PeakBefore(before, after[i].id), after[i])
  }

  function PeakBefore(before: seq<Room>, id: nat): nat {
    var f := Find(before, id);
    if f >= 0 then before[f].peak else 1
  }

  lemma Unchanged(r: Room)
    requires RoomOk(r)
    ensures Raised(r.peak, r)
  {
  }

  lemma SameRooms(l: State)
    requires Inv(l)
    ensures PeaksFollow(l.rooms, l.rooms)
  {
    hide RoomOk, Find, Seats, Known, Raised;
    forall i | 0 <= i < |l.rooms| ensures Raised(PeakBefore(l.rooms, l.rooms[i].id), l.rooms[i]) {
      FindAt(l.rooms, i);
      assert RoomOk(l.rooms[i]);
      Unchanged(l.rooms[i]);
    }
  }

  lemma OneRoom(l: State, k: nat, q: Room)
    requires Inv(l) && k < |l.rooms| && q.id == l.rooms[k].id && Raised(l.rooms[k].peak, q)
    ensures PeaksFollow(l.rooms, l.rooms[k := q])
  {
    hide RoomOk, Find, Seats, Known, Raised;
    SameRooms(l);
    FindAt(l.rooms, k);
    var rooms := l.rooms[k := q];
    forall i | 0 <= i < |rooms|
      ensures Raised(PeakBefore(l.rooms, rooms[i].id), rooms[i])
    {
      if i != k { assert rooms[i] == l.rooms[i]; }
    }
  }

  lemma FewerRooms(l: State, k: nat)
    requires Inv(l) && k < |l.rooms|
    ensures PeaksFollow(l.rooms, Without(l.rooms, k))
  {
    hide RoomOk, Find, Seats, Known, Raised, Without;
    SameRooms(l);
    WithoutAt(l.rooms, k);
  }

  lemma MoreRooms(l: State, r: Room)
    requires Inv(l) && Find(l.rooms, r.id) < 0 && Raised(1, r)
    ensures PeaksFollow(l.rooms, l.rooms + [r])
  {
    hide RoomOk, Find, Seats, Known, Raised;
    SameRooms(l);
  }

  // ----- What happens to one room -----

  lemma StateKeepsPeak(r: Room, state: u8)
    requires MaxPlayers(r.settings) <= r.peak
    ensures var q := Updated(r, R.StateDelta(state));
            q.peak == r.peak && MaxPlayers(q.settings) == MaxPlayers(r.settings) && Raised(r.peak, q)
  {
    hide R.Update, R.StateDelta;
    StateIs(r, state);
  }

  lemma HostLeftKeepsPeak(r: Room)
    requires r.members != [] && MaxPlayers(r.settings) <= r.peak
    ensures Raised(r.peak, HostLeft(r).0)
  {
    hide R.Update, R.StateDelta, Updated;
    StateKeepsPeak(r.(game := None), WAITING);
  }

  lemma LeaveKeepsPeak(r: Room, u: User)
    requires RoomOk(r) && u in r.members && |r.members| > 1
    ensures Raised(r.peak, AfterLeave(r, u).0)
  {
    hide HostLeft;
    HostLeftKeepsPeak(Vacated(r, u));
  }

  lemma ReturnKeepsPeak(r: Room, u: User)
    requires RoomOk(r) && r.game.Some?
    ensures Raised(r.peak, AfterReturn(r, u).0)
  {
    hide R.Update, R.StateDelta, Updated;
    StateKeepsPeak(r.(game := None), WAITING);
  }

  // ----- The handlers -----

  lemma RemoveRoomUserPeaks(l: State, k: nat, u: User, ok: bool)
    requires Inv(l) && k < |l.rooms| && u in l.rooms[k].members
    ensures PeaksFollow(l.rooms, RemoveRoomUser(l, k, u, ok).state.rooms)
  {
    hide RoomOk, Find, Seats, Known, Raised, Without, AfterLeave, Vacated, PeaksFollow;
    assert RoomOk(l.rooms[k]);
    if |l.rooms[k].members| == 1 {
      FewerRooms(l, k);
    } else {
      LeaveKeepsPeak(l.rooms[k], u);
      LeaveKeepsRoom(l.rooms[k], u);
      OneRoom(l, k, AfterLeave(l.rooms[k], u).0);
    }
  }

  lemma CreatePeaks(l: State, u: User, vals: S.Values, info: seq<u8>, characterOk: bool, ok: bool)
    requires Inv(l)
    ensures PeaksFollow(l.rooms, Create(l, u, vals, info, characterOk, ok).state.rooms)
  {
    hide RoomOk, Find, Seats, Known, PeaksFollow, InsertRow, FreeID;
    SameRooms(l);
    var id := FreeID(l.rooms, 1);
    if id != 0 {
      FreeIDIsFree(l.rooms);
      MoreRooms(l, Room(id, u, vals, [u], None, Max(1, MaxPlayers(vals))));
    }
  }

  lemma JoinPeaks(l: State, u: User, roomID: nat, password: seq<u8>, infos: seq<seq<u8>>, characterOk: bool, ok: bool)
    requires Inv(l)
    ensures PeaksFollow(l.rooms, Join(l, u, roomID, password, infos, characterOk, ok).state.rooms)
  {
    hide RoomOk, Find, Seats, Known, PeaksFollow, UpdateRow, MaxPlayers;
    SameRooms(l);
    var k := GetRoom(l.rooms, roomID);
    if k >= 0 {
      assert RoomOk(l.rooms[k]);
      Unchanged(l.rooms[k]);
      OneRoom(l, k, l.rooms[k].(members := l.rooms[k].members + [u]));
    }
  }

  lemma ChangePeaks(l: State, u: User, d: S.Settings, ok: bool)
    requires Inv(l)
    ensures PeaksFollow(l.rooms, Change(l, u, d, ok).state.rooms)
  {
    hide RoomOk, Find, Seats, Known, PeaksFollow, Changed;
    SameRooms(l);
    var k := Hosted(l, u);
    if k >= 0 { ChangedPeaks(l, k, d, ok); }
  }

  lemma ActivatePeaks(l: State, u: User)
    requires Inv(l)
    ensures PeaksFollow(l.rooms, Activate(l, u).state.rooms)
  {
    hide RoomOk, Find, Seats, Known, PeaksFollow, Updated, R.StateDelta;
    SameRooms(l);
    var k := Hosted(l, u);
    if k >= 0 { HostedRoomPeaks(l, k); }
  }

  lemma EndGamePeaks(l: State, u: User)
    requires Inv(l)
    ensures PeaksFollow(l.rooms, EndGame(l, u).state.rooms)
  {
    hide RoomOk, Find, Seats, Known, PeaksFollow, Updated, R.StateDelta;
    SameRooms(l);
    var k := Hosted(l, u);
    if k >= 0 { HostedRoomPeaks(l, k); }
  }

  lemma SaveDataPeaks(l: State, u: User, size: nat, data: seq<u8>)
    requires Inv(l)
    ensures PeaksFollow(l.rooms, SaveData(l, u, size, data).rooms)
  {
    hide RoomOk, Find, Seats, Known, PeaksFollow, Updated, R.StateDelta;
    SameRooms(l);
    var k := Hosted(l, u);
    if k >= 0 { HostedRoomPeaks(l, k); }
  }

  lemma SendUserStatusPeaks(l: State, u: User, target: Option<User>, status: u8)
    requires Inv(l)
    ensures PeaksFollow(l.rooms, SendUserStatus(l, u, target, status).rooms)
  {
    hide RoomOk, Find, Seats, Known, PeaksFollow, Updated, R.StateDelta;
    SameRooms(l);
    var k := Hosted(l, u);
    if k >= 0 { HostedRoomPeaks(l, k); }
  }

  lemma ReturnPeaks(l: State, u: User)
    requires Inv(l)
    ensures PeaksFollow(l.rooms, ReturnToRoom(l, u).state.rooms)
  {
    hide RoomOk, Find, Seats, Known, PeaksFollow, AfterReturn;
    SameRooms(l);
    if InARoom(l, u) {
      var k := GetRoom(l.rooms, l.at[u].roomID);
      if k >= 0 && l.rooms[k].game.Some? {
        assert RoomOk(l.rooms[k]);
        ReturnKeepsPeak(l.rooms[k], u);
        ReturnKeepsRoom(l.rooms[k], u);
        OneRoom(l, k, AfterReturn(l.rooms[k], u).0);
      }
    }
  }

  lemma LeavePeaks(l: State, u: User, ok: bool)
    requires Inv(l) && LeaveHits(l, u)
    ensures PeaksFollow(l.rooms, Leave(l, u, ok).state.rooms)
  {
    hide Inv, Find, PeaksFollow, RemoveRoomUser;
    SameRooms(l);
    if InARoom(l, u) {
      var k := GetRoom(l.rooms, l.at[u].roomID);
      if k >= 0 { RemoveRoomUserPeaks(l, k, u, ok); }
    }
  }

  lemma RemoveUserPeaks(l: State, u: User, ok: bool)
    requires Inv(l) && RemoveUserHits(l, u)
    ensures PeaksFollow(l.rooms, RemoveUser(l, u, ok).state.rooms)
  {
    hide Inv, Find, PeaksFollow, RemoveRoomUser;
    SameRooms(l);
    if u in l.at {
      var k := GetRoom(l.rooms, l.at[u].roomID);
      if k >= 0 { RemoveRoomUserPeaks(l, k, u, ok); }
    }
  }

  /** Every room left by the resync was there before. */
  lemma {:induction false} ResyncPeaks(l: State, from: nat, addFails: set<nat>, deleteFails: set<nat>)
    requires from <= |l.rooms|
    ensures forall r :: r in ResyncRooms(l, from, addFails, deleteFails).rooms ==> r in l.rooms
    decreases |l.rooms| - from
  {
    hide ResyncRoom;
    if from < |l.rooms| {
      var id := l.rooms[from].id;
      var q := ResyncRoom(l, from, id !in addFails, id !in deleteFails);
      RoomsLeft(l, from, id !in addFails, id !in deleteFails);
      ResyncPeaks(q, if |q.rooms| == |l.rooms| then from + 1 else from, addFails, deleteFails);
    }
  }

  lemma SomeRooms(l: State, rooms: seq<Room>)
    requires Inv(l) && forall r :: r in rooms ==> r in l.rooms
    ensures PeaksFollow(l.rooms, rooms)
  {
    hide RoomOk, Find, Seats, Known, Raised;
    SameRooms(l);
    forall i | 0 <= i < |rooms| ensures Raised(PeakBefore(l.rooms, rooms[i].id), rooms[i]) {
      assert rooms[i] in rooms;
      var j :| 0 <= j < |l.rooms| && l.rooms[j] == rooms[i];
    }
  }

  /** In every step the peak of a room is raised to its present maxPlayers and otherwise stays; a new room starts with
      max(1, maxPlayers). So the peak, which bounds the members, is the largest maxPlayers the room ever had, or 1. */
  lemma StepPeaks(l: State, e: Event)
    requires Inv(l) && Legal(l, e)
    ensures Hits(l, e) && PeaksFollow(l.rooms, Step(l, e).state.rooms)
  {
    hide Inv, Create, Join, LeaveHits, Leave, Change, Activate, SaveData, SendUserStatus, EndGame,
      ReturnToRoom, RemoveUserHits, RemoveUser, MoveMembers, ResyncRooms, PeaksFollow;
    StepKeepsInv(l, e);
    SameRooms(l);
    match e
    case Connect(u, session) =>
    case FinishLogin(u, transferred) =>
    case RequestServerList(u) =>
    case RequestTransfer(u) =>
    case CreateRoom(u, vals, info, characterOk, ok) => CreatePeaks(l, u, vals, info, characterOk, ok);
    case JoinRoom(u, roomID, password, infos, characterOk, ok) => JoinPeaks(l, u, roomID, password, infos, characterOk, ok);
    case LeaveRoom(u, ok) => LeavePeaks(l, u, ok);
    case UpdateSettings(u, d, ok) => ChangePeaks(l, u, d, ok);
    case ServerIsActivated(u) => ActivatePeaks(l, u);
    case HostSaveData(u, size, data) => SaveDataPeaks(l, u, size, data);
    case HostSendUserStatus(u, target, status) => SendUserStatusPeaks(l, u, target, status);
    case HostEndGame(u) => EndGamePeaks(l, u);
    case ReturnTo(u) => ReturnPeaks(l, u);
    case Disconnect(u, ok) => RemoveUserPeaks(l, u, ok);
    case ClearRooms(ok) => SomeRooms(l, RemoveAllRooms(l, ok).rooms);
    case ClockGap(clearOk, addFails, deleteFails) =>
      ResyncPeaks(l.(table := if clearOk then map[] else l.table), 0, addFails, deleteFails);
      SomeRooms(l, Resync(l, clearOk, addFails, deleteFails).rooms);
  }

  lemma ChangedPeaks(l: State, k: nat, d: S.Settings, ok: bool)
    requires Inv(l) && k < |l.rooms|
    ensures PeaksFollow(l.rooms, Changed(l, k, d, ok).state.rooms)
  {
    hide RoomOk, Find, Seats, Known, PeaksFollow, UpdateRow, R.Update;
    OneRoom(l, k, Updated(l.rooms[k], d));
  }

  lemma HostedRoomPeaks(l: State, k: nat)
    requires Inv(l) && k < |l.rooms|
    ensures PeaksFollow(l.rooms, l.rooms[k := Updated(l.rooms[k].(game := Some(Match([], []))), R.StateDelta(PLAYING))])
    ensures PeaksFollow(l.rooms, l.rooms[k := Updated(l.rooms[k].(game := None), R.StateDelta(WAITING))])
    ensures forall g :: PeaksFollow(l.rooms, l.rooms[k := l.rooms[k].(game := g)])
  {
    hide Find, Seats, Known, PeaksFollow, Updated, R.StateDelta;
    var r := l.rooms[k];
    assert RoomOk(r);
    StateKeepsPeak(r.(game := Some(Match([], []))), PLAYING);
    StateKeepsPeak(r.(game := None), WAITING);
    UpdatedSame(r.(game := Some(Match([], []))), R.StateDelta(PLAYING));
    UpdatedSame(r.(game := None), R.StateDelta(WAITING));
    OneRoom(l, k, Updated(r.(game := Some(Match([], []))), R.StateDelta(PLAYING)));
    OneRoom(l, k, Updated(r.(game := None), R.StateDelta(WAITING)));
    forall g ensures PeaksFollow(l.rooms, l.rooms[k := r.(game := g)]) {
      OneRoom(l, k, r.(game := g));
    }
  }
}
