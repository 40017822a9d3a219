/** What the handlers that only a room's host may use achieve, and what the others who use them get: nothing. */
module HostOutcomes {
  import opened Bytes
  import opened Rooms
  import opened Lobby
  import opened LobbySafety
  import S = SettingsCodec
  import R = SettingsReplication

  /** The handlers find the room that u hosts, whichever it is. */
  lemma HostedIff(l: State, u: User, k: nat)
    requires Inv(l) && k < |l.rooms|
    ensures Hosted(l, u) == k <==> l.rooms[k].host == u
  {
    hide RoomOk, Find, Known, Seats;
    var r := l.rooms[k];
    assert RoomOk(r) && Seats(l.at, r);
    RoomFacts(r);
    if r.host == u {
      NoDuplicates(l);
      FindAt(l.rooms, k);
      MemberIsThere(l.at, r, u);
    }
  }

  lemma MemberIsThere(at: map<User, Place>, r: Room, u: User)
    requires Seats(at, r) && u in r.members
    ensures u in at && at[u].roomID == r.id && at[u].status in {InRoom, InGame}
  {
  }

  /** Somebody who hosts no room can send these packets, and nothing happens. */
  lemma OnlyHostsAct(l: State, u: User, d: S.Settings, ok: bool, size: nat, data: seq<u8>, target: Option<User>, status: u8)
    requires Inv(l) && forall k :: 0 <= k < |l.rooms| ==> l.rooms[k].host != u
    ensures Change(l, u, d, ok) == Activate(l, u) == EndGame(l, u) == Effect(l, [])
    ensures SaveData(l, u, size, data) == SendUserStatus(l, u, target, status) == l
  {
    hide RoomOk, Known, Seats;
  }

  /** The host changes the settings: every field that a set flag carries, and no other, takes the delta's value; nobody
      moves, no other room changes, and every member is sent the delta once. Outside InRoom the host is refused. */
  lemma ChangeOutcome(l: State, u: User, d: S.Settings, ok: bool, k: nat, f: S.Field, x: User)
    requires Inv(l) && k < |l.rooms| && l.rooms[k].host == u
    ensures u in l.at
    ensures var r, e := l.rooms[k], Change(l, u, d, ok);
            if l.at[u].status != InRoom then e == Effect(l, [])
            else
              && OnlyRoom(l.rooms, k, e.state.rooms) && e.state.at == l.at && e.state.users == l.users &&
              var q := e.state.rooms[k];
              && q.id == r.id && q.host == r.host && q.members == r.members && q.game == r.game
              && q.settings[f] == (if R.Carries(d, f) then d.vals[f] else r.settings[f])
              && To(e.out, x) == (if x in r.members then [Delta(d)] else [])
  {
    hide RoomOk, Find, Known, Seats, R.Update, R.Carries, To, Broadcast, UpdateRow;
    HostedIff(l, u, k);
    HostedRoom(l, u);
    RoomFacts(l.rooms[k]);
    R.UpdateAt(l.rooms[k].settings, d, f);
    BroadcastReaches(l.rooms[k].members, Delta(d), x);
    HostIsThere(l, k);
  }

  lemma HostIsThere(l: State, k: nat)
    requires Inv(l) && k < |l.rooms|
    ensures l.rooms[k].host in l.at && l.at[l.rooms[k].host].roomID == l.rooms[k].id
    ensures l.at[l.rooms[k].host].status in {InRoom, InGame}
  {
    hide Find, Known;
    assert RoomOk(l.rooms[k]) && Seats(l.at, l.rooms[k]);
  }

  /** The host reports that its server runs: the room gets a match without players and save data, its state becomes
      Playing, which is 2, every member is told so once, and that is all. With a match there already nothing happens. */
  lemma ActivateOutcome(l: State, u: User, k: nat, f: S.Field, x: User)
    requires Inv(l) && k < |l.rooms| && l.rooms[k].host == u
    ensures var r, e := l.rooms[k], Activate(l, u);
            if r.game.Some? then e == Effect(l, [])
            else
              && OnlyRoom(l.rooms, k, e.state.rooms)
              && e.state.at == l.at && e.state.users == l.users && e.state.table == l.table &&
              var q := e.state.rooms[k];
              && q.id == r.id && q.host == r.host && q.members == r.members && q.game == Some(Match([], []))
              && q.settings[f] == (if f == S.RoomState then S.Num(2) else r.settings[f])
              && To(e.out, x) == (if x in r.members then [Delta(R.StateDelta(2))] else [])
  {
    hide RoomOk, Find, Known, Seats, R.Update, R.StateDelta, To, Broadcast;
    HostedIff(l, u, k);
    HostedRoom(l, u);
    HostIsThere(l, k);
    RoomFacts(l.rooms[k]);
    R.StateDeltaChanges(l.rooms[k].settings, PLAYING, f);
    BroadcastReaches(l.rooms[k].members, Delta(R.StateDelta(PLAYING)), x);
  }

  /** The host stores save data of 1 to 51200 bytes with the match it plays; players and everything else stay. */
  lemma SaveDataOutcome(l: State, u: User, size: nat, data: seq<u8>, k: nat)
    requires Inv(l) && k < |l.rooms| && l.rooms[k].host == u
    ensures u in l.at
    ensures var r, q := l.rooms[k], SaveData(l, u, size, data);
            if l.at[u].status == InGame && r.game.Some? && 1 <= size <= 51200 then
              q == l.(rooms := l.rooms[k := r.(game := Some(Match(r.game.value.players, data)))])
            else q == l
  {
    hide RoomOk, Find, Known, Seats;
    HostedIff(l, u, k);
    HostIsThere(l, k);
  }

  /** The host's report that a user is in game makes it the youngest player exactly if it is in the host's room and no
      player yet; otherwise nothing changes. */
  lemma SendUserStatusOutcome(l: State, u: User, target: Option<User>, status: u8, k: nat)
    requires Inv(l) && k < |l.rooms| && l.rooms[k].host == u
    ensures var r, q := l.rooms[k], SendUserStatus(l, u, target, status);
            if r.game.Some? && target.Some? && target.value in r.members && target.value !in r.game.value.players && status == 1
            then
              var t, g := target.value, r.game.value;
              q == l.(rooms := l.rooms[k := r.(game := Some(Match(g.players + [t], g.saveData)))],
                      at := l.at[t := Place(InGame, r.id)])
            else q == l
  {
    hide RoomOk, Find, Known, Seats;
    HostedIff(l, u, k);
    HostIsThere(l, k);
    NoDuplicates(l);
    FindAt(l.rooms, k);
    if target.Some? { WhereMembersAre(l, k, target.value); }
  }

  lemma WhereMembersAre(l: State, k: nat, t: User)
    requires Inv(l) && k < |l.rooms|
    ensures t in l.rooms[k].members <==> InARoom(l, t) && GetRoom(l.rooms, l.at[t].roomID) == k
    ensures t in l.rooms[k].members ==> l.at[t].roomID == l.rooms[k].id
  {
    hide Find, Known, RoomOk;
    var r := l.rooms[k];
    assert RoomOk(r) && Seats(l.at, r);
    RoomFacts(r);
    NoDuplicates(l);
    FindAt(l.rooms, k);
    if t in l.at { OutsideRooms(l, t); }
  }

  /** The host that plays ends the game: the match is gone, the state is Waiting, which is 0, every member is told so once,
      and that is all that changes about rooms. Otherwise nothing happens. */
  lemma EndGameOutcome(l: State, u: User, k: nat, f: S.Field, x: User)
    requires Inv(l) && k < |l.rooms| && l.rooms[k].host == u
    ensures u in l.at
    ensures var r, e := l.rooms[k], EndGame(l, u);
            if l.at[u].status != InGame || r.game.None? then e == Effect(l, [])
            else
              && OnlyRoom(l.rooms, k, e.state.rooms) && e.state.users == l.users && e.state.table == l.table &&
              var q := e.state.rooms[k];
              && q.id == r.id && q.host == r.host && q.members == r.members && q.game.None?
              && q.settings[f] == (if f == S.RoomState then S.Num(0) else r.settings[f])
              && To(e.out, x) == (if x in r.members then [Delta(R.StateDelta(0))] else [])
  {
    hide RoomOk, Find, Known, R.Update, R.StateDelta, To, Broadcast;
    HostedIff(l, u, k);
    HostIsThere(l, k);
    RoomFacts(l.rooms[k]);
    R.StateDeltaChanges(l.rooms[k].settings, WAITING, f);
    BroadcastReaches(l.rooms[k].members, Delta(R.StateDelta(WAITING)), x);
  }

  /** Exactly the players are put back into the room. */
  lemma EndGamePlaces(l: State, u: User, k: nat, x: User)
    requires Inv(l) && k < |l.rooms| && l.rooms[k].host == u && x in l.at
    ensures var at, r := EndGame(l, u).state.at, l.rooms[k];
            && at.Keys == l.at.Keys && u in l.at
            && at[x] == if l.at[u].status == InGame && r.game.Some? && x in r.game.value.players then Place(InRoom, r.id)
                        else l.at[x]
  {
    hide RoomOk, Find, Known, Waiting;
    HostedIff(l, u, k);
    HostIsThere(l, k);
  }
}
