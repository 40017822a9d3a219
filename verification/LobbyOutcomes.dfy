/** What the room handlers achieve, told by membership lists: who is in which room before and after. */
module LobbyOutcomes {
  import opened Bytes
  import opened Rooms
  import opened Lobby
  import opened LobbySafety
  import S = SettingsCodec
  import R = SettingsReplication
  import P = RoomPackets

  /** The members of the room with that id, in order; nobody if there is no such room. */
  function MembersOf(rooms: seq<Room>, id: nat): seq<User> {
    var k := Find(rooms, id);
    if k >= 0 then rooms[k].members else []
  }

  function RoomAt(rooms: seq<Room>, id: nat): Option<Room> {
    var k := Find(rooms, id);
    if k >= 0 then Some(rooms[k]) else None
  }

  lemma MembersAfterReplace(rooms: seq<Room>, k: nat, q: Room, id: nat)
    requires DistinctIds(rooms) && k < |rooms| && q.id == rooms[k].id
    ensures MembersOf(rooms[k := q], id) == if id == q.id then q.members else MembersOf(rooms, id)
  {
    hide Find;
    FindAfterReplace(rooms, k, q, id);
    FindAt(rooms, k);
  }

  lemma MembersAfterWithout(rooms: seq<Room>, k: nat, id: nat)
    requires DistinctIds(rooms) && k < |rooms|
    ensures MembersOf(Without(rooms, k), id) == if id == rooms[k].id then [] else MembersOf(rooms, id)
  {
    hide Find, Without;
    FindAfterWithout(rooms, k, id);
    FindAt(rooms, k);
  }

  lemma MembersAfterAppend(rooms: seq<Room>, r: Room, id: nat)
    requires DistinctIds(rooms) && Find(rooms, r.id) < 0
    ensures MembersOf(rooms + [r], id) == if id == r.id then r.members else MembersOf(rooms, id)
  {
    hide Find;
    FindAfterAppend(rooms, r, id);
  }

  // ----- Leaving -----

  lemma RemovedFrom(l: State, k: nat, u: User, ok: bool, id: nat)
    requires Inv(l) && k < |l.rooms| && u in l.rooms[k].members
    ensures var q := RemoveRoomUser(l, k, u, ok).state;
            && q.at == l.at[u := LOBBY]
            && MembersOf(q.rooms, id) == if id == l.rooms[k].id then Erase(l.rooms[k].members, u) else MembersOf(l.rooms, id)
  {
    hide RoomOk, Find, Seats, Known, Without, AfterLeave, Vacated;
    assert RoomOk(l.rooms[k]);
    if |l.rooms[k].members| == 1 {
      MembersAfterWithout(l.rooms, k, id);
      assert Erase(l.rooms[k].members, u) == [];
    } else {
      LeaveKeepsRoom(l.rooms[k], u);
      MembersAfterReplace(l.rooms, k, AfterLeave(l.rooms[k], u).0, id);
    }
  }

  /** A user in a room that leaves is in the lobby and out of that room's list; nobody else moves, in that room or any
      other, and the order of those who stay is kept. */
  lemma LeaveOutcome(l: State, u: User, ok: bool, id: nat)
    requires Inv(l) && u in l.at && l.at[u].roomID != 0
    ensures LeaveHits(l, u)
    ensures var q := Leave(l, u, ok).state;
            && q.at == l.at[u := Place(InLobby, 0)] && q.users == l.users
            && u in MembersOf(l.rooms, l.at[u].roomID)
            && MembersOf(q.rooms, id) == if id == l.at[u].roomID then Erase(MembersOf(l.rooms, id), u) else MembersOf(l.rooms, id)
  {
    hide RoomOk, Find, Seats, Known, RemoveRoomUser;
    LeaveKeepsInv(l, u, ok);
    OutsideRooms(l, u);
    var k := Find(l.rooms, l.at[u].roomID);
    RemovedFrom(l, k, u, ok, id);
    RemoveRoomUserKeepsInv(l, k, u, ok);
  }

  /** Outside rooms there is nothing to leave or to return to, and without a match nothing to return from. */
  lemma NothingToLeave(l: State, u: User, ok: bool)
    requires Inv(l) && u in l.at
    requires l.at[u].roomID == 0 || l.rooms[Find(l.rooms, l.at[u].roomID)].game.None?
    ensures ReturnToRoom(l, u) == Effect(l, [])
    ensures l.at[u].roomID == 0 ==> LeaveHits(l, u) && Leave(l, u, ok) == Effect(l, [])
  {
    hide RoomOk, Find, Seats, Known;
    OutsideRooms(l, u);
  }

  /** A user that disconnects is no user any more and in no room; nobody else moves. */
  lemma DisconnectOutcome(l: State, u: User, ok: bool, id: nat)
    requires Inv(l) && u in l.at
    ensures RemoveUserHits(l, u)
    ensures var q := RemoveUser(l, u, ok).state;
            && q.at == l.at - {u} && q.users == Erase(l.users, u) && q.numPlayers == |l.users| - 1
            && MembersOf(q.rooms, id) == if u in MembersOf(l.rooms, id) then Erase(MembersOf(l.rooms, id), u) else MembersOf(l.rooms, id)
  {
    hide RoomOk, Find, Seats, Known, RemoveRoomUser, Erase;
    RemoveUserKeepsInv(l, u, ok);
    OutsideRooms(l, u);
    MemberKnows(l, id, u);
    if l.at[u].roomID != 0 {
      var k := Find(l.rooms, l.at[u].roomID);
      RemovedFrom(l, k, u, ok, id);
      RemoveRoomUserKeepsInv(l, k, u, ok);
      assert l.at[u := LOBBY] - {u} == l.at - {u};
    }
  }

  lemma MemberKnows(l: State, id: nat, u: User)
    requires Inv(l) && u in l.at
    ensures u in MembersOf(l.rooms, id) ==> id == l.at[u].roomID != 0
    ensures l.at[u].roomID != 0 ==> u in MembersOf(l.rooms, l.at[u].roomID)
  {
    hide RoomOk, Find, Known;
    OutsideRooms(l, u);
    var k := Find(l.rooms, id);
    if k >= 0 {
      assert Seats(l.at, l.rooms[k]);
      assert RoomOk(l.rooms[k]);
      RoomFacts(l.rooms[k]);
    }
  }

  // ----- Joining and creating -----

  /** A room exists, has a place left, and asks for no password or for this one. */
  predicate RoomTakes(l: State, roomID: nat, password: seq<u8>) {
    var k := Find(l.rooms, roomID);
    && k >= 0 && |l.rooms[k].members| < l.rooms[k].settings[S.MaxPlayers].n
    && l.rooms[k].settings[S.Password].s in {[], password}
  }

  /** Who may join: a user that is logged in, not in the room's waiting area, and no member of that room. */
  predicate MayJoin(l: State, u: User, roomID: nat, password: seq<u8>) {
    u in l.at && l.at[u].status !in {InLogin, InRoom} && roomID != l.at[u].roomID && RoomTakes(l, roomID, password)
  }

  /** Join either lets the user in, as the last member, and tells it the settings, or changes nothing and tells it
      nothing; and it lets it in exactly when it may join and its character can be read. */
  lemma JoinOutcome(l: State, u: User, roomID: nat, password: seq<u8>, infos: seq<seq<u8>>, characterOk: bool, ok: bool, id: nat)
    requires Inv(l)
    ensures var e := Join(l, u, roomID, password, infos, characterOk, ok);
            if MayJoin(l, u, roomID, password) && characterOk then
              var r := l.rooms[Find(l.rooms, roomID)];
              && e.state.at == l.at[u := Place(InRoom, roomID)]
              && OnlyRoom(l.rooms, Find(l.rooms, roomID), e.state.rooms)
              && e.state.rooms[Find(l.rooms, roomID)] == Room(roomID, r.host, r.settings, r.members + [u], r.game, r.peak)
              && MembersOf(e.state.rooms, id) == (if id == roomID then MembersOf(l.rooms, id) + [u] else MembersOf(l.rooms, id))
              && e.out == [Sent(u, Full(P.Reply(r.host.userID, roomID, r.settings, infos)))]
            else e == Effect(l, [])
  {
    hide RoomOk, Find, Seats, Known, UpdateRow;
    NoDuplicates(l);
    var k := Find(l.rooms, roomID);
    if k >= 0 {
      assert RoomOk(l.rooms[k]);
      RoomFacts(l.rooms[k]);
      var q := l.rooms[k].(members := l.rooms[k].members + [u]);
      MembersAfterReplace(l.rooms, k, q, id);
      FindAt(l.rooms, k);
    }
    if u in l.at {
      OutsideRooms(l, u);
      MemberKnows(l, roomID, u);
    }
  }

  /** Who may create a room: a user that is logged in and not in a room's waiting area, if an id is left. */
  predicate MayCreate(l: State, u: User) {
    u in l.at && l.at[u].status !in {InLogin, InRoom} && FreeID(l.rooms, 1) != 0
  }

  /** Create opens a room with the smallest free id, with the user as its host and only member, and tells it the
      settings; or, if the table does not take the row, puts the user in the lobby and leaves the rooms alone; or, if the
      user may not or its character cannot be read, changes nothing. */
  lemma CreateOutcome(l: State, u: User, vals: S.Values, info: seq<u8>, characterOk: bool, ok: bool, id: nat)
    requires Inv(l)
    ensures var e := Create(l, u, vals, info, characterOk, ok);
            var free := FreeID(l.rooms, 1);
            if !MayCreate(l, u) || !characterOk then e == Effect(l, [])
            else if ok && free !in l.table then
              var k := Find(e.state.rooms, free);
              && k >= 0 && e.state.rooms[k].host == u && e.state.rooms[k].settings == vals && e.state.rooms[k].game.None?
              && e.state.at == l.at[u := Place(InRoom, free)]
              && MembersOf(e.state.rooms, id) == (if id == free then [u] else MembersOf(l.rooms, id))
              && e.out == [Sent(u, Full(P.Reply(u.userID, free, vals, [info])))]
            else e == Effect(l.(at := l.at[u := Place(InLobby, 0)]), [])
  {
    hide RoomOk, Find, Seats, Known, RowOf, MaxPlayers, FreeID;
    NoDuplicates(l);
    var free := FreeID(l.rooms, 1);
    if free != 0 {
      FreeIDIsFree(l.rooms);
      var r := Room(free, u, vals, [u], None, Max(1, MaxPlayers(vals)));
      MembersAfterAppend(l.rooms, r, id);
      FindAfterAppend(l.rooms, r, free);
    }
  }

  // ----- Coming in, changing the status -----

  /** A new user comes in exactly if the channel is not full and its session row is its own; it is last in the list, in
      no room, and has yet to log in. Otherwise nothing changes. */
  lemma AddUserOutcome(l: State, u: User, session: int)
    requires Inv(l) && u !in l.at
    ensures AddUser(l, u, session)
         == if |l.users| < l.cap && session > 0
            then State(l.users + [u], l.at[u := Place(InLogin, 0)], l.rooms, l.table, |l.users| + 1, l.cap)
            else l
  {
    hide RoomOk, Find, Seats, Known;
  }

  /** The status changes outside rooms: the end of the login, with a transfer token or without, and the requests for the
      server list and for a transfer. In any other status they do nothing. */
  lemma StatusOutcome(l: State, u: User, transferred: bool)
    requires Inv(l)
    ensures Step(l, FinishLogin(u, transferred)).state
         == if u in l.at && l.at[u].status == InLogin
            then l.(at := l.at[u := Place(if transferred then InLobby else InServerList, 0)]) else l
    ensures Step(l, RequestServerList(u)).state
         == if u in l.at && l.at[u].status == InLobby then l.(at := l.at[u := Place(InServerList, 0)]) else l
    ensures Step(l, RequestTransfer(u)).state
         == if u in l.at && l.at[u].status == InServerList then l.(at := l.at[u := Place(InLobby, 0)]) else l
  {
    hide RoomOk, Find, Seats, Known;
    if u in l.at { OutsideRooms(l, u); }
  }

  // ----- All rooms at once -----

  lemma {:induction false} MovedMembers(at: map<User, Place>, rooms: seq<Room>, x: User)
    ensures x in MoveMembers(at, rooms) <==> x in at
    ensures x in at ==>
              MoveMembers(at, rooms)[x] == if exists k :: 0 <= k < |rooms| && x in rooms[k].members then LOBBY else at[x]
    decreases |rooms|
  {
    if rooms != [] {
      MovedMembers(MoveAll(at, rooms[0].members, LOBBY), rooms[1..], x);
      if k :| 0 <= k < |rooms| && x in rooms[k].members {
        if k > 0 { assert x in rooms[1..][k - 1].members; }
      }
      if k :| 0 <= k < |rooms[1..]| && x in rooms[1..][k].members {
        assert x in rooms[k + 1].members;
      }
    }
  }

  /** Clearing the rooms leaves no room, and no row if the query succeeds; who was in a room is in the lobby, and nobody
      else moves. With no rooms there is no query. */
  lemma ClearOutcome(l: State, ok: bool, x: User)
    requires Inv(l)
    ensures var q := RemoveAllRooms(l, ok);
            && q.rooms == [] && q.users == l.users && q.numPlayers == l.numPlayers
            && q.table == (if ok && l.rooms != [] then map[] else l.table)
            && (x in q.at <==> x in l.at)
            && (x in l.at ==> q.at[x] == if l.at[x].roomID != 0 then Place(InLobby, 0) else l.at[x])
  {
    hide RoomOk, Find, Known, MoveMembers;
    MovedMembers(l.at, l.rooms, x);
    if x in l.at {
      OutsideRooms(l, x);
      if k :| 0 <= k < |l.rooms| && x in l.rooms[k].members {
        assert Seats(l.at, l.rooms[k]);
        RoomIds(l, k);
      }
    }
  }

  lemma RoomIds(l: State, k: nat)
    requires Inv(l) && k < |l.rooms|
    ensures l.rooms[k].id >= 1
  {
    hide Find, Known, Seats;
    assert RoomOk(l.rooms[k]);
  }

  ghost predicate InSomeRoom(rooms: seq<Room>, x: User) {
    exists k :: 0 <= k < |rooms| && x in rooms[k].members
  }

  /** A room survives the resync if its row can be inserted: the query does not fail, and no row is left of before. */
  predicate Survives(r: Room, table: map<nat, Row>, addFails: set<nat>) {
    r.id !in addFails && r.id !in table
  }

  lemma PositionAfterWithout(rooms: seq<Room>, k: nat, id: nat)
    requires DistinctIds(rooms) && k < |rooms|
    ensures var f, g := Find(rooms, id), Find(Without(rooms, k), id);
            if f < 0 || f == k then g < 0 else g == (if f < k then f else f - 1) && Without(rooms, k)[g] == rooms[f]
  {
    hide Find, Without;
    FindAfterWithout(rooms, k, id);
    WithoutAt(rooms, k);
    var f := Find(rooms, id);
    if f >= 0 && f != k { FindAt(Without(rooms, k), if f < k then f else f - 1); }
  }

  lemma OneResynced(l: State, k: nat, addFails: set<nat>, deleteFails: set<nat>)
    requires DistinctIds(l.rooms) && k < |l.rooms|
    ensures var r := l.rooms[k];
            var q := ResyncRoom(l, k, r.id !in addFails, r.id !in deleteFails);
            && (Survives(r, l.table, addFails) <==> |q.rooms| == |l.rooms|)
            && (forall id :: id != r.id ==> (id in q.table <==> id in l.table))
            && q.users == l.users && q.numPlayers == l.numPlayers
            && q.rooms == (if Survives(r, l.table, addFails) then l.rooms else Without(l.rooms, k))
            && q.at == (if Survives(r, l.table, addFails) then l.at else MoveAll(l.at, r.members, LOBBY))
  {
    hide RowOf, Without, MoveAll;
    WithoutAt(l.rooms, k);
  }

  /** The rooms from `from` on that do not survive go, in whatever state their query leaves the table; those before it and
      the survivors stay as they are. */
  lemma {:induction false} ResyncRoomsOutcome(l: State, from: nat, addFails: set<nat>, deleteFails: set<nat>, id: nat, x: User)
    requires DistinctIds(l.rooms) && from <= |l.rooms|
    ensures var k, q := Find(l.rooms, id), ResyncRooms(l, from, addFails, deleteFails);
            var stays := k >= 0 && (k < from || Survives(l.rooms[k], l.table, addFails));
            && RoomAt(q.rooms, id) == (if stays then Some(l.rooms[k]) else None)
            && q.users == l.users && q.numPlayers == l.numPlayers
            && (x in q.at <==> x in l.at)
            && (x in l.at ==> q.at[x] == l.at[x] || (q.at[x] == LOBBY && InSomeRoom(l.rooms, x)))
    decreases |l.rooms| - from
  {
    hide Find, Without, RowOf, RoomOk, ResyncRoom;
    if from < |l.rooms| {
      var r := l.rooms[from];
      var addOk, deleteOk := r.id !in addFails, r.id !in deleteFails;
      var q := ResyncRoom(l, from, addOk, deleteOk);
      FindAt(l.rooms, from);
      RoomsLeft(l, from, addOk, deleteOk);
      OneResynced(l, from, addFails, deleteFails);
      if |q.rooms| == |l.rooms| {
        ResyncRoomsOutcome(q, from + 1, addFails, deleteFails, id, x);
      } else {
        WithoutAt(l.rooms, from);
        PositionAfterWithout(l.rooms, from, id);
        ResyncRoomsOutcome(q, from, addFails, deleteFails, id, x);
      }
    }
  }

  /** After a clock gap exactly the rooms go whose query fails, or whose old row is still there because clearing failed; the
      other rooms are untouched. Who was in a room that goes is in the lobby, and nobody else moves. */
  lemma ResyncOutcome(l: State, clearOk: bool, addFails: set<nat>, deleteFails: set<nat>, id: nat, x: User)
    requires Inv(l)
    ensures var k, q := Find(l.rooms, id), Resync(l, clearOk, addFails, deleteFails);
            && RoomAt(q.rooms, id)
               == (if k >= 0 && id !in addFails && (clearOk || id !in l.table) then Some(l.rooms[k]) else None)
            && q.users == l.users && q.numPlayers == l.numPlayers
            && (x in q.at <==> x in l.at)
            && (x in l.at ==>
                  q.at[x] == if l.at[x].roomID == 0 || Find(q.rooms, l.at[x].roomID) >= 0 then l.at[x] else Place(InLobby, 0))
  {
    hide RoomOk, Find, Known, Seats, ResyncRooms;
    var q := Resync(l, clearOk, addFails, deleteFails);
    var cleared := l.(table := if clearOk then map[] else l.table);
    NoDuplicates(l);
    ResyncRoomsOutcome(cleared, 0, addFails, deleteFails, id, x);
    ResyncKeepsInv(l, clearOk, addFails, deleteFails);
    if x in l.at {
      ResyncRoomsOutcome(cleared, 0, addFails, deleteFails, l.at[x].roomID, x);
      WhereXIs(l, q, x);
    }
  }

  lemma WhereXIs(l: State, q: State, x: User)
    requires Inv(l) && Inv(q) && x in l.at && x in q.at
    requires q.at[x] == l.at[x] || (q.at[x] == LOBBY && InSomeRoom(l.rooms, x))
    requires RoomAt(q.rooms, l.at[x].roomID) in {None, RoomAt(l.rooms, l.at[x].roomID)}
    ensures q.at[x] == if l.at[x].roomID == 0 || Find(q.rooms, l.at[x].roomID) >= 0 then l.at[x] else LOBBY
  {
    hide RoomOk, Find, Known;
    OutsideRooms(l, x);
    OutsideRooms(q, x);
    if InSomeRoom(l.rooms, x) {
      var k :| 0 <= k < |l.rooms| && x in l.rooms[k].members;
      assert Seats(l.at, l.rooms[k]);
      RoomIds(l, k);
    }
    var j := Find(q.rooms, l.at[x].roomID);
    if l.at[x].roomID != 0 && j >= 0 {
      assert Seats(q.at, q.rooms[j]);
    }
  }
}
