/** Every client in a room holds that room's settings, unless the sender's size guard keeps a message from it. */
module LobbyReplication {
  import opened Bytes
  import opened Rooms
  import opened Lobby
  import opened LobbySafety
  import opened LobbyOutcomes
  import S = SettingsCodec
  import R = SettingsReplication
  import P = RoomPackets

  /** The sender lets the message pass: what carries settings must meet the size guard. */
  predicate Passes(m: Msg) {
    match m
    case Full(r) => P.Deliverable(P.ReplyBody(r))
    case Delta(d) => P.Deliverable(P.DeltaBody(d))
    case _ => true
  }

  /** What a message does to the client's copy, if it passes: the full settings replace it, a delta is merged in. */
  function Apply(copy: S.Values, m: Msg): S.Values {
    match m
    case Full(r) => P.ClientJoin(copy, r)
    case Delta(d) => P.ClientStep(copy, d)
    case _ => copy
  }

  function ApplyAll(copy: S.Values, ms: seq<Msg>): S.Values {
    if ms == [] then copy else ApplyAll(Apply(copy, ms[0]), ms[1..])
  }

  /** What the server means the message to make of the copy. */
  function Wanted(copy: S.Values, m: Msg): S.Values {
    match m
    case Full(r) => r.vals
    case Delta(d) => R.Update(copy, d)
    case _ => copy
  }

  function WantedAll(copy: S.Values, ms: seq<Msg>): S.Values {
    if ms == [] then copy else WantedAll(Wanted(copy, ms[0]), ms[1..])
  }

  /** Each message passes the size guard or would change nothing. */
  predicate Lossless(copy: S.Values, ms: seq<Msg>) {
    forall i :: 0 <= i < |ms| ==> Passes(ms[i]) || Wanted(copy, ms[i]) == copy
  }

  predicate Somewhere(l: State, x: User) {
    x in l.at && l.at[x].roomID != 0
  }

  /** If x is in a room, its copy is that room's settings. */
  predicate Synced(l: State, x: User, copy: S.Values) {
    Somewhere(l, x) ==>
      var k := Find(l.rooms, l.at[x].roomID);
      k >= 0 && copy == l.rooms[k].settings
  }

  // ----- Single messages -----

  lemma NoMessage(copy: S.Values, ms: seq<Msg>)
    requires ms == []
    ensures WantedAll(copy, ms) == copy
  {
  }

  lemma OneMessage(copy: S.Values, m: Msg)
    ensures WantedAll(copy, [m]) == Wanted(copy, m) && ApplyAll(copy, [m]) == Apply(copy, m)
    ensures Lossless(copy, [m]) <==> Passes(m) || Wanted(copy, m) == copy
  {
    hide Wanted, Apply, Passes;
    assert [m][0] == m && [m][1..] == [];
  }

  predicate Quiet(m: Msg) {
    m.HostRestart? || m.HostJoin?
  }

  predicate AllQuiet(ms: seq<Msg>) {
    forall i :: 0 <= i < |ms| ==> Quiet(ms[i])
  }

  /** One message, or none that carries settings. */
  predicate Simple(ms: seq<Msg>) {
    |ms| == 1 || AllQuiet(ms)
  }

  lemma {:induction false} QuietMessages(copy: S.Values, ms: seq<Msg>)
    requires AllQuiet(ms)
    ensures ApplyAll(copy, ms) == WantedAll(copy, ms) == copy && Lossless(copy, ms)
  {
    hide P.ClientJoin, P.ClientStep, R.Update;
    if ms != [] {
      assert Quiet(ms[0]);
      QuietMessages(copy, ms[1..]);
      assert ms == [ms[0]] + ms[1..];
    }
  }

  /** The copy becomes what it is meant to become exactly when nothing is lost. */
  lemma AppliedIff(copy: S.Values, ms: seq<Msg>)
    requires Simple(ms)
    ensures ApplyAll(copy, ms) == WantedAll(copy, ms) <==> Lossless(copy, ms)
  {
    hide ApplyAll, WantedAll, Lossless, R.Update, R.Receive, P.DeltaBody, P.ReplyBody, P.Deliverable;
    if AllQuiet(ms) {
      QuietMessages(copy, ms);
    } else {
      var m := ms[0];
      assert ms == [m];
      OneMessage(copy, m);
      match m
      case Full(r) => P.ReplyArrives(copy, r);
      case Delta(d) => P.DeltaArrives(copy, d);
      case HostRestart(_, _, _, _) =>
      case HostJoin(_) =>
    }
  }

  // ----- One room -----

  /** What `out` is meant to do to member x: if it held r's settings, it is to hold q's; and only who stays is sent settings. */
  ghost predicate Carried(r: Room, q: Room, out: seq<Sent>, x: User) {
    var ms := To(out, x);
    && Simple(ms) && (!AllQuiet(ms) ==> x in q.members)
    && (x !in r.members ==> ms == [])
    && (x in q.members && x in r.members ==> WantedAll(r.settings, ms) == q.settings)
  }

  lemma UpdateCarried(r: Room, q: Room, d: S.Settings, x: User)
    requires NoDup(r.members) && q.settings == R.Update(r.settings, d) && q.members == r.members
    ensures Carried(r, q, Broadcast(r.members, Delta(d)), x)
  {
    hide R.Update, WantedAll, To;
    OneMessage(r.settings, Delta(d));
    BroadcastReaches(r.members, Delta(d), x);
  }

  lemma HandOverIsQuiet(players: seq<User>, saveData: seq<u8>, u: User, copy: S.Values)
    requires players != []
    ensures WantedAll(copy, HandOver(players, saveData, u)) == copy && AllQuiet(HandOver(players, saveData, u))
  {
    QuietMessages(copy, HandOver(players, saveData, u));
  }

  lemma PromoteCarried(r: Room, x: User)
    requires r.game.Some? && r.game.value.players != [] && NoDup(r.game.value.players)
    requires forall p :: p in r.game.value.players ==> p in r.members
    ensures Carried(r, Promote(r).0, Promote(r).1, x)
  {
    hide WantedAll, To, AllQuiet;
    PromoteReaches(r, x);
    HandOverIsQuiet(r.game.value.players, r.game.value.saveData, x, r.settings);
  }

  lemma WaitingCarried(r: Room, x: User)
    requires NoDup(r.members)
    ensures Carried(r, Waiting(r).0, Waiting(r).1, x)
  {
    hide R.Update, R.StateDelta, WantedAll, To, AllQuiet, Simple;
    UpdateCarried(r, Waiting(r).0, R.StateDelta(WAITING), x);
  }

  lemma SilenceCarries(r: Room, q: Room, x: User)
    requires q.settings == r.settings
    ensures Carried(r, q, [], x)
  {
    NothingTo(x);
    NoMessage(r.settings, []);
  }

  lemma HostLeftCarried(r: Room, x: User)
    requires Seated(r) && r.members != []
    ensures Carried(r, HostLeft(r).0, HostLeft(r).1, x)
  {
    hide WantedAll, To, AllQuiet, Simple, R.Update, R.StateDelta;
    if r.game.None? {
      SilenceCarries(r, HostLeft(r).0, x);
    } else if r.game.value.players == [] {
      WaitingCarried(r, x);
      var w := Waiting(r);
      assert HostLeft(r).0 == w.0.(host := r.members[0]);
    } else {
      PromoteCarried(r, x);
    }
  }

  lemma LeaveCarried(r: Room, u: User, x: User)
    requires RoomOk(r) && u in r.members && |r.members| > 1
    ensures Carried(r, AfterLeave(r, u).0, AfterLeave(r, u).1, x)
  {
    hide WantedAll, To, AllQuiet, Simple, HostLeft, Seated, Erase;
    VacatedIsSeated(r, u);
    MembersErased(r, u);
    var v := Vacated(r, u);
    if r.host == u {
      HostLeftKeepsRoom(v);
      HostLeftCarried(v, x);
    } else {
      SilenceCarries(r, v, x);
    }
  }

  lemma ReturnCarried(r: Room, u: User, x: User)
    requires RoomOk(r) && r.game.Some?
    ensures Carried(r, AfterReturn(r, u).0, AfterReturn(r, u).1, x)
  {
    hide WantedAll, To, AllQuiet, Simple, R.Update, R.StateDelta;
    DropsPlayer(r, u);
    var v := r.(game := DropPlayer(r.game, u));
    if r.host != u {
      SilenceCarries(r, v, x);
    } else if v.game.value.players == [] {
      WaitingCarried(v, x);
    } else {
      PromoteCarried(v, x);
    }
  }

  // ----- One step -----

  /** After the step x is in no room, or in the room it was in before. */
  predicate Stays(l: State, after: State, x: User) {
    Somewhere(after, x) ==> x in l.at && after.at[x].roomID == l.at[x].roomID
  }

  /** x is sent at most one message with settings, only if it is in a room afterwards, and meant to make its copy right. */
  ghost predicate Follows(after: State, x: User, copy: S.Values, out: seq<Sent>) {
    var ms := To(out, x);
    Simple(ms) && (!AllQuiet(ms) ==> Somewhere(after, x)) && Synced(after, x, WantedAll(copy, ms))
  }

  lemma Silence(l: State, x: User, copy: S.Values)
    requires Synced(l, x, copy)
    ensures Follows(l, x, copy, [])
  {
    hide Synced;
    NothingTo(x);
    NoMessage(copy, []);
  }

  lemma CopyAfterReplace(l: State, k: nat, q: Room, after: State, out: seq<Sent>, x: User, copy: S.Values)
    requires Inv(l) && Inv(after) && k < |l.rooms| && after.rooms == l.rooms[k := q] && q.id == l.rooms[k].id
    requires Carried(l.rooms[k], q, out, x)
    requires Stays(l, after, x) && Synced(l, x, copy)
    ensures Follows(after, x, copy, out)
  {
    hide RoomOk, Known, Find, WantedAll, To, AllQuiet, Simple;
    assert Seats(after.at, after.rooms[k]) && RoomOk(after.rooms[k]);
    RoomFacts(after.rooms[k]);
    if Somewhere(after, x) {
      OutsideRooms(l, x);
      OutsideRooms(after, x);
      FindAfterReplace(l.rooms, k, q, l.at[x].roomID);
      var f := Find(l.rooms, l.at[x].roomID);
      if f != k {
        OtherRoomsMembers(l, f, k);
        NoMessage(copy, To(out, x));
      }
    }
  }

  lemma CopyAfterWithout(l: State, k: nat, after: State, x: User, copy: S.Values)
    requires Inv(l) && Inv(after) && k < |l.rooms| && after.rooms == Without(l.rooms, k)
    requires Stays(l, after, x) && Synced(l, x, copy)
    ensures Synced(after, x, copy)
  {
    hide RoomOk, Seats, Known, Find, Without;
    if x in after.at && after.at[x].roomID != 0 {
      OutsideRooms(l, x);
      OutsideRooms(after, x);
      FindAfterWithout(l.rooms, k, l.at[x].roomID);
    }
  }

  lemma CopyAfterCreate(l: State, u: User, vals: S.Values, info: seq<u8>, characterOk: bool, ok: bool, x: User, copy: S.Values)
    requires Inv(l) && (u in l.at ==> l.at[u].status != InGame) && Synced(l, x, copy)
    ensures var e := Create(l, u, vals, info, characterOk, ok);
            Follows(e.state, x, copy, e.out)
  {
    hide RoomOk, Seats, Known, Find, WantedAll, FreeID, InsertRow, MaxPlayers, To, R.Update;
    var e := Create(l, u, vals, info, characterOk, ok);
    NoMessage(copy, []);
    NothingTo(x);
    if e.out != [] {
      var id := FreeID(l.rooms, 1);
      var r := Room(id, u, vals, [u], None, Max(1, MaxPlayers(vals)));
      var reply := P.Reply(u.userID, id, vals, [info]);
      FreeIDIsFree(l.rooms);
      NoDuplicates(l);
      ToOne(u, Full(reply), x);
      FindAfterAppend(l.rooms, r, id);
      if x == u {
        OneMessage(copy, Full(reply));
      } else if x in l.at {
        FindAfterAppend(l.rooms, r, l.at[x].roomID);
      }
    }
  }

  lemma CopyAfterJoin(l: State, u: User, roomID: nat, password: seq<u8>, infos: seq<seq<u8>>, characterOk: bool, ok: bool,
                      x: User, copy: S.Values)
    requires Inv(l) && Synced(l, x, copy)
    ensures var e := Join(l, u, roomID, password, infos, characterOk, ok);
            Follows(e.state, x, copy, e.out)
  {
    hide RoomOk, Seats, Known, Find, WantedAll, MaxPlayers, UpdateRow, To, R.Update;
    var e := Join(l, u, roomID, password, infos, characterOk, ok);
    NoMessage(copy, []);
    NothingTo(x);
    if e.out != [] {
      var k := GetRoom(l.rooms, roomID);
      var r := l.rooms[k];
      var reply := P.Reply(r.host.userID, r.id, r.settings, infos);
      NoDuplicates(l);
      FindAt(l.rooms, k);
      ToOne(u, Full(reply), x);
      FindAfterReplace(l.rooms, k, e.state.rooms[k], r.id);
      if x == u {
        OneMessage(copy, Full(reply));
      } else if x in l.at {
        FindAfterReplace(l.rooms, k, e.state.rooms[k], l.at[x].roomID);
      }
    }
  }

  lemma CopyAfterRemoveRoomUser(l: State, k: nat, u: User, ok: bool, x: User, copy: S.Values)
    requires Inv(l) && k < |l.rooms| && u in l.rooms[k].members && Synced(l, x, copy)
    ensures var e := RemoveRoomUser(l, k, u, ok);
            Follows(e.state, x, copy, e.out)
  {
    hide RoomOk, Seats, Known, Find, WantedAll, To, AllQuiet, Simple, AfterLeave, Without, Vacated, Synced;
    var r, e := l.rooms[k], RemoveRoomUser(l, k, u, ok);
    RemoveRoomUserKeepsInv(l, k, u, ok);
    assert RoomOk(r);
    if |r.members| == 1 {
      CopyAfterWithout(l, k, e.state, x, copy);
      Silence(e.state, x, copy);
    } else {
      LeaveKeepsRoom(r, u);
      LeaveCarried(r, u, x);
      CopyAfterReplace(l, k, AfterLeave(r, u).0, e.state, e.out, x, copy);
    }
  }

  lemma CopyAfterLeave(l: State, u: User, ok: bool, x: User, copy: S.Values)
    requires Inv(l) && Synced(l, x, copy) && LeaveHits(l, u)
    ensures var e := Leave(l, u, ok);
            Follows(e.state, x, copy, e.out)
  {
    hide Inv, Find, WantedAll, To, AllQuiet, Simple, RemoveRoomUser, Synced;
    Silence(l, x, copy);
    if InARoom(l, u) {
      var k := GetRoom(l.rooms, l.at[u].roomID);
      if k >= 0 { CopyAfterRemoveRoomUser(l, k, u, ok, x, copy); }
    }
  }

  lemma CopyAfterRemoveUser(l: State, u: User, ok: bool, x: User, copy: S.Values)
    requires Inv(l) && Synced(l, x, copy) && RemoveUserHits(l, u)
    ensures var e := RemoveUser(l, u, ok);
            Follows(e.state, x, copy, e.out)
  {
    hide Inv, Find, WantedAll, To, AllQuiet, Simple, RemoveRoomUser;
    Silence(l, x, copy);
    if u in l.at {
      var k := GetRoom(l.rooms, l.at[u].roomID);
      if k >= 0 {
        RemoveRoomUserKeepsInv(l, k, u, ok);
        CopyAfterRemoveRoomUser(l, k, u, ok, x, copy);
      }
    }
  }

  lemma CopyAfterChange(l: State, u: User, d: S.Settings, ok: bool, x: User, copy: S.Values)
    requires Inv(l) && Synced(l, x, copy)
    ensures var e := Change(l, u, d, ok);
            Follows(e.state, x, copy, e.out)
  {
    hide RoomOk, Seats, Known, Find, WantedAll, To, AllQuiet, Simple, R.Update, UpdateRow, Synced;
    var k := Hosted(l, u);
    Silence(l, x, copy);
    if k >= 0 && l.at[u].status == InRoom {
      var r := l.rooms[k];
      HostedRoom(l, u);
      RoomFacts(r);
      ChangeKeepsInv(l, u, d, ok);
      var e := Change(l, u, d, ok);
      UpdateCarried(r, e.state.rooms[k], d, x);
      CopyAfterReplace(l, k, e.state.rooms[k], e.state, e.out, x, copy);
    }
  }

  lemma CopyAfterActivate(l: State, u: User, x: User, copy: S.Values)
    requires Inv(l) && Synced(l, x, copy)
    ensures var e := Activate(l, u);
            Follows(e.state, x, copy, e.out)
  {
    hide RoomOk, Seats, Known, Find, WantedAll, To, AllQuiet, Simple, R.Update, R.StateDelta, Synced;
    var k := Hosted(l, u);
    Silence(l, x, copy);
    if k >= 0 && InARoom(l, u) && l.rooms[k].game.None? {
      var r := l.rooms[k];
      HostedRoom(l, u);
      RoomFacts(r);
      ActivateKeepsInv(l, u);
      var e := Activate(l, u);
      UpdateCarried(r, e.state.rooms[k], R.StateDelta(PLAYING), x);
      CopyAfterReplace(l, k, e.state.rooms[k], e.state, e.out, x, copy);
    }
  }

  lemma CopyAfterEndGame(l: State, u: User, x: User, copy: S.Values)
    requires Inv(l) && Synced(l, x, copy)
    ensures var e := EndGame(l, u);
            Follows(e.state, x, copy, e.out)
  {
    hide RoomOk, Known, Find, WantedAll, To, AllQuiet, Simple, Waiting, Synced;
    var k := Hosted(l, u);
    Silence(l, x, copy);
    if k >= 0 && l.at[u].status == InGame && l.rooms[k].game.Some? {
      var r := l.rooms[k];
      HostedRoom(l, u);
      RoomFacts(r);
      PlayersAreMembers(r);
      EndGameKeepsInv(l, u);
      WaitingCarried(r, x);
      WaitingRoom(r);
      var e := EndGame(l, u);
      CopyAfterReplace(l, k, Waiting(r).0, e.state, e.out, x, copy);
    }
  }

  lemma CopyAfterReturn(l: State, u: User, x: User, copy: S.Values)
    requires Inv(l) && Synced(l, x, copy)
    ensures var e := ReturnToRoom(l, u);
            Follows(e.state, x, copy, e.out)
  {
    hide RoomOk, Seats, Known, Find, WantedAll, To, AllQuiet, Simple, AfterReturn, Synced;
    Silence(l, x, copy);
    if InARoom(l, u) {
      var k := GetRoom(l.rooms, l.at[u].roomID);
      if k >= 0 && l.rooms[k].game.Some? {
        var r := l.rooms[k];
        assert RoomOk(r);
        ReturnToRoomKeepsInv(l, u);
        ReturnKeepsRoom(r, u);
        ReturnCarried(r, u, x);
        var e := ReturnToRoom(l, u);
        CopyAfterReplace(l, k, AfterReturn(r, u).0, e.state, e.out, x, copy);
      }
    }
  }

  lemma CopyAfterSaveData(l: State, u: User, size: nat, data: seq<u8>, x: User, copy: S.Values)
    requires Inv(l) && Synced(l, x, copy)
    ensures Synced(SaveData(l, u, size, data), x, copy)
  {
    hide RoomOk, Seats, Known, Find, WantedAll, To, Synced;
    var q := SaveData(l, u, size, data);
    if q != l {
      var k := Hosted(l, u);
      SaveDataKeepsInv(l, u, size, data);
      SilenceCarries(l.rooms[k], q.rooms[k], x);
      NothingTo(x);
      NoMessage(copy, []);
      CopyAfterReplace(l, k, q.rooms[k], q, [], x, copy);
    }
  }

  lemma CopyAfterSendUserStatus(l: State, u: User, target: Option<User>, status: u8, x: User, copy: S.Values)
    requires Inv(l) && Synced(l, x, copy)
    ensures Synced(SendUserStatus(l, u, target, status), x, copy)
  {
    hide RoomOk, Seats, Known, Find, WantedAll, To, Synced;
    var q := SendUserStatus(l, u, target, status);
    if q != l {
      var k := Hosted(l, u);
      SendUserStatusKeepsInv(l, u, target, status);
      SilenceCarries(l.rooms[k], q.rooms[k], x);
      NothingTo(x);
      NoMessage(copy, []);
      CopyAfterReplace(l, k, q.rooms[k], q, [], x, copy);
    }
  }

  lemma {:induction false} CopyAfterResync(l: State, from: nat, addFails: set<nat>, deleteFails: set<nat>, x: User, copy: S.Values)
    requires Inv(l) && from <= |l.rooms| && Synced(l, x, copy)
    ensures Synced(ResyncRooms(l, from, addFails, deleteFails), x, copy)
    decreases |l.rooms| - from
  {
    hide Inv, Synced, ResyncRoom;
    if from < |l.rooms| {
      var id := l.rooms[from].id;
      var addOk, deleteOk := id !in addFails, id !in deleteFails;
      ResyncRoomKeepsInv(l, from, addOk, deleteOk);
      RoomsLeft(l, from, addOk, deleteOk);
      CopyAfterResyncRoom(l, from, addOk, deleteOk, x, copy);
      var q := ResyncRoom(l, from, addOk, deleteOk);
      CopyAfterResync(q, if |q.rooms| == |l.rooms| then from + 1 else from, addFails, deleteFails, x, copy);
    }
  }

  lemma CopyAfterResyncRoom(l: State, k: nat, addOk: bool, deleteOk: bool, x: User, copy: S.Values)
    requires Inv(l) && k < |l.rooms| && Synced(l, x, copy)
    ensures Synced(ResyncRoom(l, k, addOk, deleteOk), x, copy)
  {
    hide RoomOk, Seats, Known, Find, Without, InsertRow;
    var q := ResyncRoom(l, k, addOk, deleteOk);
    ResyncRoomKeepsInv(l, k, addOk, deleteOk);
    if q.rooms != l.rooms {
      CopyAfterWithout(l, k, q, x, copy);
    }
  }

  lemma CopyAfterClear(l: State, ok: bool, x: User, copy: S.Values)
    requires Inv(l) && Synced(l, x, copy)
    ensures Synced(RemoveAllRooms(l, ok), x, copy)
  {
    hide RoomOk, Seats, MoveMembers;
    var q := RemoveAllRooms(l, ok);
    RemoveAllRoomsKeepsInv(l, ok);
    if q != l && x in q.at {
      assert Known(q.rooms, x, q.at[x]);
    }
  }

  lemma StepFollows(l: State, e: Event, x: User, copy: S.Values)
    requires Inv(l) && Legal(l, e) && Synced(l, x, copy) && Hits(l, e)
    ensures Follows(Step(l, e).state, x, copy, Step(l, e).out)
  {
    hide Inv, Create, Join, LeaveHits, Leave, Change, Activate, SaveData, SendUserStatus, EndGame,
      ReturnToRoom, RemoveUserHits, RemoveUser, RemoveAllRooms, ResyncRooms, Follows, Find;
    if Step(l, e).out == [] && Synced(Step(l, e).state, x, copy) { Silence(Step(l, e).state, x, copy); }
    match e
    case Connect(u, session) =>
    case FinishLogin(u, transferred) =>
    case RequestServerList(u) =>
    case RequestTransfer(u) =>
    case CreateRoom(u, vals, info, characterOk, ok) => CopyAfterCreate(l, u, vals, info, characterOk, ok, x, copy);
    case JoinRoom(u, roomID, password, infos, characterOk, ok) => CopyAfterJoin(l, u, roomID, password, infos, characterOk, ok, x, copy);
    case LeaveRoom(u, ok) => CopyAfterLeave(l, u, ok, x, copy);
    case UpdateSettings(u, d, ok) => CopyAfterChange(l, u, d, ok, x, copy);
    case ServerIsActivated(u) => CopyAfterActivate(l, u, x, copy);
    case HostSaveData(u, size, data) => CopyAfterSaveData(l, u, size, data, x, copy);
    case HostSendUserStatus(u, target, status) => CopyAfterSendUserStatus(l, u, target, status, x, copy);
    case HostEndGame(u) => CopyAfterEndGame(l, u, x, copy);
    case ReturnTo(u) => CopyAfterReturn(l, u, x, copy);
    case Disconnect(u, ok) => CopyAfterRemoveUser(l, u, ok, x, copy);
    case ClearRooms(ok) => CopyAfterClear(l, ok, x, copy);
    case ClockGap(clearOk, addFails, deleteFails) =>
      TableIsFree(l, if clearOk then map[] else l.table);
      CopyAfterResync(l.(table := if clearOk then map[] else l.table), 0, addFails, deleteFails, x, copy);
  }

  /** After every step of anyone, a client whose copy was right has a right copy exactly when everything it was sent
      passed the size guard or would have changed nothing. */
  lemma StepKeepsCopies(l: State, e: Event, x: User, copy: S.Values)
    requires Inv(l) && Legal(l, e) && Synced(l, x, copy)
    ensures Hits(l, e)
    ensures var after, ms := Step(l, e).state, To(Step(l, e).out, x);
            Synced(after, x, ApplyAll(copy, ms)) <==> Lossless(copy, ms)
  {
    hide Inv, Step, Hits, ApplyAll, WantedAll, Lossless, To, Simple, Find;
    StepKeepsInv(l, e);
    StepFollows(l, e, x, copy);
    var ms := To(Step(l, e).out, x);
    AppliedIff(copy, ms);
    if AllQuiet(ms) { QuietMessages(copy, ms); }
  }

  // ----- Whole runs -----

  /** What x is sent in the j-th event. */
  ghost function Messages(states: seq<State>, es: seq<Event>, x: User, j: nat): seq<Msg>
    requires Run(states, es) && j < |es|
  {
    RunsAreSafe(states, es, j);
    To(Step(states[j], es[j]).out, x)
  }

  /** The copy of client x after i events of a run: what all messages to it have made of the default settings. */
  ghost function CopyAfter(states: seq<State>, es: seq<Event>, x: User, i: nat): S.Values
    requires Run(states, es) && i <= |es|
  {
    if i == 0 then S.Defaults else ApplyAll(CopyAfter(states, es, x, i - 1), Messages(states, es, x, i - 1))
  }

  /** The j-th event loses nothing for x: each message passes the size guard or would change nothing. */
  ghost predicate NothingLost(states: seq<State>, es: seq<Event>, x: User, j: nat)
    requires Run(states, es) && j < |es|
  {
    Lossless(CopyAfter(states, es, x, j), Messages(states, es, x, j))
  }

  lemma InitiallySynced(l: State, x: User)
    requires Initial(l)
    ensures Synced(l, x, S.Defaults)
  {
  }

  lemma EventKeepsCopy(states: seq<State>, es: seq<Event>, x: User, j: nat)
    requires Run(states, es) && j < |es| && Synced(states[j], x, CopyAfter(states, es, x, j))
    ensures Synced(states[j + 1], x, CopyAfter(states, es, x, j + 1)) <==> NothingLost(states, es, x, j)
  {
    hide Inv, Step, Hits, Legal, Synced, ApplyAll, Lossless;
    RunsAreSafe(states, es, j);
    StepKeepsCopies(states[j], es[j], x, CopyAfter(states, es, x, j));
  }

  /** In every run, the copy of client x is its room's settings in every state, exactly when no event loses anything for x:
      each writer of the settings tells every member, and only the size guard can keep it from a member. */
  lemma {:induction false} RunsKeepCopies(states: seq<State>, es: seq<Event>, x: User, n: nat)
    requires Run(states, es) && n <= |es|
    ensures (forall i :: 0 <= i <= n ==> Synced(states[i], x, CopyAfter(states, es, x, i)))
       <==> (forall j :: 0 <= j < n ==> NothingLost(states, es, x, j))
  {
    hide Initial, Legal, Hits, Step, Synced, CopyAfter, NothingLost;
    if n == 0 {
      FirstCopy(states, es, x);
    } else {
      RunsKeepCopies(states, es, x, n - 1);
      if Synced(states[n - 1], x, CopyAfter(states, es, x, n - 1)) {
        EventKeepsCopy(states, es, x, n - 1);
      }
    }
  }

  lemma FirstCopy(states: seq<State>, es: seq<Event>, x: User)
    requires Run(states, es)
    ensures Synced(states[0], x, CopyAfter(states, es, x, 0))
  {
    InitiallySynced(states[0], x);
  }

  // ----- Those who create and join -----

  /** A user that joins has the room's settings exactly when the reply passes the size guard or its copy was right by chance. */
  lemma JoinerIsInStepIff(l: State, u: User, roomID: nat, password: seq<u8>, infos: seq<seq<u8>>, ok: bool, copy: S.Values)
    requires Inv(l) && MayJoin(l, u, roomID, password)
    ensures var e := Join(l, u, roomID, password, infos, true, ok);
            var r := l.rooms[Find(l.rooms, roomID)];
            Synced(e.state, u, ApplyAll(copy, To(e.out, u))) <==>
              P.Deliverable(P.ReplyBody(P.Reply(r.host.userID, roomID, r.settings, infos))) || copy == r.settings
  {
    hide RoomOk, Seats, Known, Find, ApplyAll, MaxPlayers, UpdateRow, To, P.ReplyBody, P.Deliverable, P.ClientJoin, Lossless;
    var e := Join(l, u, roomID, password, infos, true, ok);
    JoinOutcome(l, u, roomID, password, infos, true, ok, roomID);
    var k := Find(l.rooms, roomID);
    var reply := P.Reply(l.rooms[k].host.userID, roomID, l.rooms[k].settings, infos);
    NoDuplicates(l);
    ToOne(u, Full(reply), u);
    FindAfterReplace(l.rooms, k, e.state.rooms[k], roomID);
    OneMessage(copy, Full(reply));
    P.JoinInStep(copy, reply);
  }

  /** A user whose room is opened has its settings exactly when the reply passes, or when its copy was right by chance. */
  lemma CreatorIsInStepIff(l: State, u: User, vals: S.Values, info: seq<u8>, copy: S.Values)
    requires Inv(l) && MayCreate(l, u) && FreeID(l.rooms, 1) !in l.table
    ensures var e, id := Create(l, u, vals, info, true, true), FreeID(l.rooms, 1);
            Synced(e.state, u, ApplyAll(copy, To(e.out, u))) <==>
              P.Deliverable(P.ReplyBody(P.Reply(u.userID, id, vals, [info]))) || copy == vals
  {
    hide RoomOk, Seats, Known, Find, ApplyAll, MaxPlayers, FreeID, To, P.ReplyBody, P.Deliverable, P.ClientJoin, Lossless, RowOf;
    var e, id := Create(l, u, vals, info, true, true), FreeID(l.rooms, 1);
    CreateOutcome(l, u, vals, info, true, true, id);
    var reply := P.Reply(u.userID, id, vals, [info]);
    ToOne(u, Full(reply), u);
    OneMessage(copy, Full(reply));
    P.JoinInStep(copy, reply);
  }

  /** The CreateRoom packet with 65530 letters for a name: its sender is in the new room and never sees its settings. */
  lemma OversizedCreateLeavesStaleCopy(l: State, u: User, info: seq<u8>, copy: S.Values)
    requires Inv(l) && MayCreate(l, u) && FreeID(l.rooms, 1) !in l.table
    requires copy[S.RoomName] != S.Text(P.Letters(65530))
    ensures var vals := P.CreateSettings([P.ROOM_PACKET_ID, P.CREATE_ROOM] + (P.Letters(65530) + [0]), 2);
            var e := Create(l, u, vals, info, true, true);
            && u in e.state.at && e.state.at[u] == Place(InRoom, FreeID(l.rooms, 1))
            && !Synced(e.state, u, ApplyAll(copy, To(e.out, u)))
  {
    hide RoomOk, Seats, Known, Find, ApplyAll, FreeID, Synced, To, P.ReplyBody, P.Deliverable, P.CreateSettings, P.Letters;
    var id := FreeID(l.rooms, 1);
    var vals := P.CreateSettings([P.ROOM_PACKET_ID, P.CREATE_ROOM] + (P.Letters(65530) + [0]), 2);
    CreateOutcome(l, u, vals, info, true, true, id);
    CreatorIsInStepIff(l, u, vals, info, copy);
    P.OversizedCreateIsLost(P.Reply(u.userID, id, vals, [info]), copy);
  }
}
