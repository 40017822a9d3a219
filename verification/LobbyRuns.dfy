/** Runs that reach the states in which promises end: a match whose state the host can still set, a user in game that can
    still create a room, and a creator whose reply is too long. */
module LobbyRuns {
  import opened Bytes
  import opened Rooms
  import opened Lobby
  import opened LobbySafety
  import opened LobbyLimits
  import opened LobbyOutcomes
  import opened LobbyReplication
  import S = SettingsCodec
  import R = SettingsReplication
  import P = RoomPackets

  /** One user connects, logs in, creates a room, starts a match in it and reports itself as playing. */
  function Events(u: User, vals: S.Values, info: seq<u8>): seq<Event> {
    [Connect(u, 1), FinishLogin(u, true), CreateRoom(u, vals, info, true, true), ServerIsActivated(u),
     HostSendUserStatus(u, Some(u), USERSTATUS_INGAME)]
  }

  const EMPTY: State := State([], map[], [], map[], 0, 1)

  function Alone(u: User, p: Place, rooms: seq<Room>, table: map<nat, Row>): State {
    State([u], map[u := p], rooms, table, 1, 1)
  }

  function NewRoom(u: User, vals: S.Values): Room {
    Room(1, u, vals, [u], None, Max(1, MaxPlayers(vals)))
  }

  function MatchRoom(u: User, vals: S.Values, players: seq<User>): Room {
    var r := NewRoom(u, vals);
    Updated(r, R.StateDelta(PLAYING)).(game := Some(Match(players, [])))
  }

  function Table(u: User, vals: S.Values): map<nat, Row> {
    map[1 := RowOf(NewRoom(u, vals))]
  }

  function States(u: User, vals: S.Values): seq<State> {
    [EMPTY,
     Alone(u, Place(InLogin, 0), [], map[]),
     Alone(u, Place(InLobby, 0), [], map[]),
     Alone(u, Place(InRoom, 1), [NewRoom(u, vals)], Table(u, vals)),
     Alone(u, Place(InRoom, 1), [MatchRoom(u, vals, [])], Table(u, vals)),
     Alone(u, Place(InGame, 1), [MatchRoom(u, vals, [u])], Table(u, vals))]
  }

  lemma Arrives(u: User)
    ensures Step(EMPTY, Connect(u, 1)).state == Alone(u, Place(InLogin, 0), [], map[])
    ensures Step(Alone(u, Place(InLogin, 0), [], map[]), FinishLogin(u, true)).state == Alone(u, Place(InLobby, 0), [], map[])
  {
  }

  lemma Creates(u: User, vals: S.Values, info: seq<u8>)
    ensures Step(Alone(u, Place(InLobby, 0), [], map[]), CreateRoom(u, vals, info, true, true)).state
         == Alone(u, Place(InRoom, 1), [NewRoom(u, vals)], Table(u, vals))
  {
    hide RowOf, MaxPlayers;
    assert FreeID([], 1) == 1;
  }

  lemma OnlyRoom(r: Room)
    requires r.id == 1
    ensures GetRoom([r], 1) == 0
  {
  }

  lemma Starts(u: User, vals: S.Values)
    ensures Step(Alone(u, Place(InRoom, 1), [NewRoom(u, vals)], Table(u, vals)), ServerIsActivated(u)).state
         == Alone(u, Place(InRoom, 1), [MatchRoom(u, vals, [])], Table(u, vals))
  {
    hide RowOf, MaxPlayers, R.Update, R.StateDelta, GetRoom, Table;
    OnlyRoom(NewRoom(u, vals));
  }

  lemma Plays(u: User, vals: S.Values)
    ensures Step(Alone(u, Place(InRoom, 1), [MatchRoom(u, vals, [])], Table(u, vals)), HostSendUserStatus(u, Some(u), USERSTATUS_INGAME)).state
         == Alone(u, Place(InGame, 1), [MatchRoom(u, vals, [u])], Table(u, vals))
  {
    hide RowOf, MaxPlayers, R.Update, R.StateDelta, GetRoom, Table;
    OnlyRoom(MatchRoom(u, vals, []));
    assert [] + [u] == [u];
    assert map[u := Place(InRoom, 1)][u := Place(InGame, 1)] == map[u := Place(InGame, 1)];
    assert [MatchRoom(u, vals, [])][0 := MatchRoom(u, vals, [u])] == [MatchRoom(u, vals, [u])];
  }

  /** This is a run. */
  lemma IsRun(u: User, vals: S.Values, info: seq<u8>)
    ensures Run(States(u, vals), Events(u, vals, info))
  {
    hide Step, MatchRoom, NewRoom, Table, Hits;
    Arrives(u);
    Creates(u, vals, info);
    Starts(u, vals);
    Plays(u, vals);
  }

  lemma WaitingDelta()
    ensures R.Carries(R.StateDelta(WAITING), S.RoomState) && R.StateDelta(WAITING).vals[S.RoomState] == S.Num(WAITING as int)
  {
    hide R.Flagged;
    R.StateFlagCarries(S.RoomState);
  }

  /** With the match started, the host is still in the room and may send a delta that sets the state back to Waiting. */
  lemma MatchCanBeInterferedWith(u: User, vals: S.Values, info: seq<u8>, ok: bool)
    ensures Run(States(u, vals), Events(u, vals, info))
    ensures var l := States(u, vals)[4];
            && Playing(l) && Interferes(l, u, R.StateDelta(WAITING))
            && !Playing(Change(l, u, R.StateDelta(WAITING), ok).state)
  {
    hide R.Update, R.StateDelta, Events, Table, R.Carries, GetRoom, Run, MaxPlayers, Change;
    IsRun(u, vals, info);
    var l := States(u, vals)[4];
    OnlyRoom(MatchRoom(u, vals, []));
    StateIs(NewRoom(u, vals), PLAYING);
    WaitingDelta();
    ChangeKeepsPlayingIff(l, u, R.StateDelta(WAITING), ok);
  }

  /** The user is in game, an id is free in memory and in the table: it can create a second room and be left dangling in the first. */
  lemma PlayerCanBeLeftDangling(u: User, vals: S.Values, info: seq<u8>)
    ensures Run(States(u, vals), Events(u, vals, info))
    ensures var l := States(u, vals)[5];
            var q := Create(l, u, vals, info, true, true).state;
            && !Inv(q) && RemoveUserHits(q, u)
            && var d := RemoveUser(q, u, true).state;
            u !in d.users && d.rooms != [] && u in d.rooms[0].members
  {
    IsRun(u, vals, info);
    var l := States(u, vals)[5];
    RunsAreSafe(States(u, vals), Events(u, vals, info), 5);
    CreateKeepsInvIff(l, u, vals, info, true, true);
    DanglingMember(l, u, vals, info);
  }

  /** The settings that the oversized CreateRoom packet makes. */
  function Oversized(): S.Values {
    P.CreateSettings([P.ROOM_PACKET_ID, P.CREATE_ROOM] + (P.Letters(65530) + [0]), 2)
  }

  /** With that packet in this run, its sender is in the room after three events and does not hold the room's settings. */
  lemma CreatorCanBeLeftStale(u: User, info: seq<u8>)
    ensures Run(States(u, Oversized()), Events(u, Oversized(), info))
    ensures var states, es := States(u, Oversized()), Events(u, Oversized(), info);
            && Somewhere(states[3], u)
            && !Synced(states[3], u, CopyAfter(states, es, u, 3))
  {
    hide Run, CopyAfter, Synced, ApplyAll, Oversized, P.Letters, Inv, States, Events, Create, MayCreate, FreeID,
      P.CreateSettings, To;
    var vals := Oversized();
    var states, es := States(u, vals), Events(u, vals, info);
    IsRun(u, vals, info);
    MayCreateNow(u, vals, info);
    NothingReceivedYet(u, vals, info);
    NameIsLong();
    OversizedCreateLeavesStaleCopy(states[2], u, info, S.Defaults);
    ThirdCopy(u, vals, info);
  }

  lemma MayCreateNow(u: User, vals: S.Values, info: seq<u8>)
    requires Run(States(u, vals), Events(u, vals, info))
    ensures |States(u, vals)| == 6 && |Events(u, vals, info)| == 5
    ensures var l := States(u, vals)[2];
            Inv(l) && MayCreate(l, u) && FreeID(l.rooms, 1) == 1 && 1 !in l.table
  {
    hide Run, Table, NewRoom, MatchRoom, Inv;
    RunsAreSafe(States(u, vals), Events(u, vals, info), 2);
    assert FreeID([], 1) == 1;
  }

  lemma NameIsLong()
    ensures Oversized() == P.CreateSettings([P.ROOM_PACKET_ID, P.CREATE_ROOM] + (P.Letters(65530) + [0]), 2)
    ensures S.Defaults[S.RoomName] != S.Text(P.Letters(65530))
  {
    hide P.CreateSettings;
    assert |P.Letters(65530)| == 65530;
  }

  lemma NothingReceivedYet(u: User, vals: S.Values, info: seq<u8>)
    requires Run(States(u, vals), Events(u, vals, info))
    ensures CopyAfter(States(u, vals), Events(u, vals, info), u, 2) == S.Defaults
  {
    hide Run, States, Events, Messages, ApplyAll;
    var states, es := States(u, vals), Events(u, vals, info);
    MayCreateNow(u, vals, info);
    SilentAt(u, vals, info, 0);
    SilentAt(u, vals, info, 1);
    QuietMessages(S.Defaults, []);
    assert CopyAfter(states, es, u, 1) == S.Defaults;
  }

  lemma SilentAt(u: User, vals: S.Values, info: seq<u8>, j: nat)
    requires Run(States(u, vals), Events(u, vals, info)) && j < 2
    ensures Messages(States(u, vals), Events(u, vals, info), u, j) == []
  {
    hide Run, Table, NewRoom, MatchRoom;
    RunsAreSafe(States(u, vals), Events(u, vals, info), j);
    NothingTo(u);
  }

  lemma ThirdCopy(u: User, vals: S.Values, info: seq<u8>)
    requires Run(States(u, vals), Events(u, vals, info))
    requires CopyAfter(States(u, vals), Events(u, vals, info), u, 2) == S.Defaults
    ensures CopyAfter(States(u, vals), Events(u, vals, info), u, 3)
         == ApplyAll(S.Defaults, To(Create(States(u, vals)[2], u, vals, info, true, true).out, u))
    ensures States(u, vals)[3] == Create(States(u, vals)[2], u, vals, info, true, true).state
  {
    hide Run, Create, Table, NewRoom, MatchRoom, ApplyAll, To;
    Creates(u, vals, info);
  }
}
