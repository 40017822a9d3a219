/** What becomes of a room, its match and its players when its host leaves, disconnects or returns. */
module HostMigration {
  import opened Bytes
  import opened Rooms
  import opened Lobby
  import opened LobbySafety
  import S = SettingsCodec
  import R = SettingsReplication

  /** The settings are those of before, with the state Waiting, which is 0. */
  ghost predicate OnlyWaits(before: S.Values, after: S.Values) {
    forall f: S.Field :: after[f] == if f == S.RoomState then S.Num(0) else before[f]
  }

  /** What room r is afterwards, and what x is told, once its host u is gone and others stay. */
  ghost predicate PassedOn(r: Room, u: User, q: Room, out: seq<Sent>, x: User)
    requires u in r.members
  {
    && q.id == r.id && q.members == Erase(r.members, u) && q.host in q.members
    && (if r.game.None? then
          q.host == q.members[0] && q.game.None? && q.settings == r.settings && To(out, x) == []
        else if Remaining(r, u) == [] then
          && q.host == q.members[0] && q.game.None? && OnlyWaits(r.settings, q.settings)
          && To(out, x) == (if x in q.members then [Delta(R.StateDelta(0))] else [])
        else
          && q.host == Remaining(r, u)[0] && q.settings == r.settings
          && (q.game.Some? <==> r.game.value.saveData != [])
          && (q.game.Some? ==> q.game.value == Match(Remaining(r, u), r.game.value.saveData))
          && To(out, x) == HandOver(Remaining(r, u), r.game.value.saveData, x))
  }

  lemma LeavingHost(r: Room, u: User, x: User)
    requires RoomOk(r) && r.host == u && |r.members| > 1
    ensures u in r.members
    ensures PassedOn(r, u, AfterLeave(r, u).0, AfterLeave(r, u).1, x)
  {
    hide R.StateDelta, R.Update, HandOver, To, Erase;
    LeaveKeepsRoom(r, u);
    if r.game.None? {
      ErasedFrom(r.members, u);
      NothingTo(x);
    } else if Remaining(r, u) == [] {
      HostLeavesIdleMatch(r, u, x);
      WaitingSettings(r.settings);
    } else {
      HostMigratesToOldestPlayer(r, u, x);
    }
  }

  /** When a host leaves its room or disconnects, the room is gone if it was alone; otherwise a member that stays is
      host, the match survives exactly if somebody plays on and there is save data, and everybody is told. */
  lemma HostLeavesOrDisconnects(l: State, e: Event, x: User)
    requires Inv(l) && (e.LeaveRoom? || e.Disconnect?) && Hosted(l, e.u) >= 0
    ensures Hits(l, e) && l.rooms[Hosted(l, e.u)].host == e.u
    ensures var r, s := l.rooms[Hosted(l, e.u)], Step(l, e);
            var k := Find(s.state.rooms, r.id);
            if |r.members| == 1 then k < 0
            else k >= 0 && e.u in r.members && PassedOn(r, e.u, s.state.rooms[k], s.out, x)
                 && s.state.rooms[k].host in s.state.users
  {
    hide RoomOk, Seats, Known, PassedOn, Find, AfterLeave, Without, Vacated;
    var u, k := e.u, Hosted(l, e.u);
    HostedRoom(l, u);
    OutsideRooms(l, u);
    StepKeepsInv(l, e);
    NoDuplicates(l);
    var r := l.rooms[k];
    FindAt(l.rooms, k);
    if |r.members| == 1 {
      FindAfterWithout(l.rooms, k, r.id);
    } else {
      var q := AfterLeave(r, u).0;
      LeavingHost(r, u, x);
      LeaveKeepsRoom(r, u);
      FindAfterReplace(l.rooms, k, q, r.id);
      HostIsUser(Step(l, e).state, k);
    }
  }

  lemma HostIsUser(l: State, k: nat)
    requires Inv(l) && k < |l.rooms|
    ensures l.rooms[k].host in l.users
  {
    hide Find, Known;
    assert RoomOk(l.rooms[k]) && Seats(l.at, l.rooms[k]);
  }

  /** When another member leaves or disconnects, it is out of the list and of the match, in which the others go on as
      before under the same host; nothing is sent, and no other room changes. */
  lemma GuestLeavesOrDisconnects(l: State, e: Event, i: nat)
    requires Inv(l) && (e.LeaveRoom? || e.Disconnect?) && InARoom(l, e.u) && Hosted(l, e.u) < 0
    requires var k := Find(l.rooms, l.at[e.u].roomID);
             k >= 0 && i < |l.rooms[k].members| && l.rooms[k].members[i] == e.u && e.u !in l.rooms[k].members[..i]
    ensures Hits(l, e)
    ensures var k, s := Find(l.rooms, l.at[e.u].roomID), Step(l, e);
            && s.out == [] && OnlyRoom(l.rooms, k, s.state.rooms) &&
            var r, q := l.rooms[k], s.state.rooms[k];
            && q.id == r.id && q.host == r.host && q.settings == r.settings && q.peak == r.peak
            && q.members == r.members[..i] + r.members[i + 1..]
            && MatchWithout(r.game, e.u, q.game)
  {
    hide RoomOk, Seats, Known, Find, AfterLeave, Without, Vacated, MatchWithout;
    var u := e.u;
    OutsideRooms(l, u);
    StepKeepsInv(l, e);
    var r := l.rooms[Find(l.rooms, l.at[u].roomID)];
    RoomFacts(r);
    TwoMembers(r.members, r.host, u);
    GuestLeaves(r, u, i);
  }

  lemma TwoMembers(s: seq<User>, a: User, b: User)
    requires a in s && b in s && a != b
    ensures |s| > 1
  {
  }

  /** When a user that is not the host returns to the room, it is in the room and out of the match, in which the others go
      on as before under the same host; nothing is sent, and no other room and nobody else is touched. */
  lemma GuestReturnsToRoom(l: State, u: User)
    requires Inv(l) && InARoom(l, u) && Hosted(l, u) < 0
    requires var k := Find(l.rooms, l.at[u].roomID); k >= 0 && l.rooms[k].game.Some?
    ensures var k, s := Find(l.rooms, l.at[u].roomID), ReturnToRoom(l, u);
            && s.out == [] && OnlyRoom(l.rooms, k, s.state.rooms)
            && s.state.at == l.at[u := Place(InRoom, l.at[u].roomID)] && s.state.users == l.users && s.state.table == l.table &&
            var r, q := l.rooms[k], s.state.rooms[k];
            && q.id == r.id && q.host == r.host && q.settings == r.settings && q.peak == r.peak && q.members == r.members
            && MatchWithout(r.game, u, q.game)
  {
    hide RoomOk, Seats, Known, Find, AfterReturn, MatchWithout;
    OutsideRooms(l, u);
    GuestReturns(l.rooms[Find(l.rooms, l.at[u].roomID)], u);
  }

  /** When the host returns to its room, it stays a member; if others play on, the oldest of them is the new host. */
  lemma HostReturns(l: State, u: User, x: User)
    requires Inv(l) && Hosted(l, u) >= 0 && l.rooms[Hosted(l, u)].game.Some?
    ensures var k := Hosted(l, u);
            var r, s := l.rooms[k], ReturnToRoom(l, u);
            var q := s.state.rooms[k];
            && s.state.at[u] == Place(InRoom, r.id) && q.members == r.members && q.host in q.members
            && (if Remaining(r, u) == [] then
                  && q.host == u && q.game.None? && OnlyWaits(r.settings, q.settings)
                  && To(s.out, x) == (if x in r.members then [Delta(R.StateDelta(0))] else [])
                else
                  && q.host == Remaining(r, u)[0] && q.host != u && q.settings == r.settings
                  && (q.game.Some? <==> r.game.value.saveData != [])
                  && (q.game.Some? ==> q.game.value == Match(Remaining(r, u), r.game.value.saveData))
                  && To(s.out, x) == HandOver(Remaining(r, u), r.game.value.saveData, x))
  {
    hide RoomOk, Seats, Known, Find, AfterReturn, To, HandOver, R.StateDelta;
    HostedRoom(l, u);
    OutsideRooms(l, u);
    var r := l.rooms[Hosted(l, u)];
    ReturnKeepsRoom(r, u);
    RoomFacts(AfterReturn(r, u).0);
    if Remaining(r, u) == [] {
      IdleReturn(r, u, x);
    } else {
      HostReturnsAndHandsOver(r, u, x);
    }
  }

  lemma WaitingSettings(vals: S.Values)
    ensures OnlyWaits(vals, R.Update(vals, R.StateDelta(WAITING)))
  {
    hide R.Update, R.StateDelta;
    forall f: S.Field ensures R.Update(vals, R.StateDelta(WAITING))[f] == if f == S.RoomState then S.Num(0) else vals[f] {
      R.StateDeltaChanges(vals, WAITING, f);
    }
  }

  lemma IdleReturn(r: Room, u: User, x: User)
    requires RoomOk(r) && u == r.host && r.game.Some? && Remaining(r, u) == []
    ensures var (q, out) := AfterReturn(r, u);
            && q.host == u && q.game.None? && OnlyWaits(r.settings, q.settings)
            && To(out, x) == if x in r.members then [Delta(R.StateDelta(0))] else []
  {
    hide R.Update, R.StateDelta;
    DropsPlayer(r, u);
    var v := r.(game := DropPlayer(r.game, u));
    WaitingSettings(r.settings);
    BroadcastReaches(v.members, Delta(R.StateDelta(WAITING)), x);
  }
}
