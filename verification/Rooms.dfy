/** Users, and the value of a room: who is in it, who hosts it, who plays; and what leaving and returning do to it. */
module Rooms {
  import opened Bytes
  import S = SettingsCodec
  import R = SettingsReplication
  import P = RoomPackets

  datatype Status = InLogin | InServerList | InLobby | InRoom | InGame

  /** A connected client. The values below identify a user by this object and never look inside it. */
  class User {
    const userID: u32
    var status: Status
    var currentRoomID: nat

    constructor (userID: u32)
      ensures this.userID == userID && status == InLogin && currentRoomID == 0
    {
      this.userID := userID;
      status := InLogin;
      currentRoomID := 0;
    }
  }

  datatype Option<+T> = None | Some(value: T)

  /** A running match: its players, oldest first, and the save data of its host. */
  datatype Match = Match(players: seq<User>, saveData: seq<u8>)

  /** A room. `peak` is history: the largest maxPlayers it ever had, and at least 1. */
  datatype Room = Room(id: nat, host: User, settings: S.Values, members: seq<User>, game: Option<Match>, peak: nat)

  datatype Msg =
    | Delta(d: S.Settings)
    | Full(reply: P.Reply)
    | HostRestart(isRoomHost: bool, host: User, others: seq<User>, saveData: seq<u8>)
    | HostJoin(host: User)

  datatype Sent = Sent(to: User, msg: Msg)

  // ----- Lists -----

  ghost predicate NoDup(s: seq<User>) {
    forall i, j :: 0 <= i < j < |s| ==> s[i] != s[j]
  }

  /** `v.erase(find(v.begin(), v.end(), x))`, which the source may only call when x is in v. */
  function Erase(s: seq<User>, x: User): (r: seq<User>)
    requires x in s
    ensures |r| == |s| - 1
  {
    if s[0] == x then s[1..] else [s[0]] + Erase(s[1..], x)
  }

  lemma {:induction false} ErasedFrom(s: seq<User>, x: User)
    requires x in s && NoDup(s)
    ensures NoDup(Erase(s, x)) && x !in Erase(s, x)
    ensures forall y :: y in s && y != x ==> y in Erase(s, x)
    ensures forall y :: y in Erase(s, x) ==> y in s
  {
    if s[0] == x {
      assert forall y :: y in s && y != x ==> y in s[1..];
    } else {
      ErasedFrom(s[1..], x);
      assert s[0] !in s[1..];
      assert s == [s[0]] + s[1..];
    }
  }

  // ----- Messages -----

  /** What a user receives, in order. */
  function To(out: seq<Sent>, u: User): seq<Msg> {
    if out == [] then []
    else (if out[0].to == u then [out[0].msg] else []) + To(out[1..], u)
  }

  lemma {:induction false} ToAppend(a: seq<Sent>, b: seq<Sent>, u: User)
    ensures To(a + b, u) == To(a, u) + To(b, u)
  {
    if a == [] {
      assert a + b == b;
    } else {
      ToAppend(a[1..], b, u);
      assert (a + b)[1..] == a[1..] + b;
    }
  }

  function Broadcast(members: seq<User>, msg: Msg): seq<Sent> {
    if members == [] then [] else [Sent(members[0], msg)] + Broadcast(members[1..], msg)
  }

  /** A broadcast reaches every member once and nobody else. */
  lemma {:induction false} BroadcastReaches(members: seq<User>, msg: Msg, u: User)
    requires NoDup(members)
    ensures To(Broadcast(members, msg), u) == if u in members then [msg] else []
  {
    if members != [] {
      BroadcastReaches(members[1..], msg, u);
      assert u in members <==> u == members[0] || u in members[1..];
      assert members[0] !in members[1..];
      ToOne(members[0], msg, u);
      ToAppend([Sent(members[0], msg)], Broadcast(members[1..], msg), u);
    }
  }

  lemma ToOne(to: User, msg: Msg, u: User)
    ensures To([Sent(to, msg)], u) == if u == to then [msg] else []
  {
    assert [Sent(to, msg)][1..] == [];
  }

  /** The packets for the players that do not become host. */
  function Restarts(others: seq<User>, host: User): seq<Sent> {
    if others == [] then []
    else [Sent(others[0], HostRestart(false, host, [], [])), Sent(others[0], HostJoin(host))] + Restarts(others[1..], host)
  }

  lemma {:induction false} RestartsReach(others: seq<User>, host: User, u: User)
    requires NoDup(others)
    ensures To(Restarts(others, host), u)
            == if u in others then [HostRestart(false, host, [], []), HostJoin(host)] else []
  {
    if others != [] {
      RestartsReach(others[1..], host, u);
      assert u in others <==> u == others[0] || u in others[1..];
      assert others[0] !in others[1..];
      var o := others[0];
      var first := [Sent(o, HostRestart(false, host, [], []))];
      var second := [Sent(o, HostJoin(host))];
      ToOne(o, HostRestart(false, host, [], []), u);
      ToOne(o, HostJoin(host), u);
      ToAppend(first, second, u);
      assert first + second == [Sent(o, HostRestart(false, host, [], [])), Sent(o, HostJoin(host))];
      ToAppend(first + second, Restarts(others[1..], host), u);
    }
  }

  // ----- What happens to a room -----

  const WAITING: u8 := 0
  const PLAYING: u8 := 2

  function Max(a: nat, b: nat): nat {
    if a >= b then a else b
  }

  function MaxPlayers(vals: S.Values): nat {
    vals[S.MaxPlayers].n
  }

  function StateOf(r: Room): nat {
    r.settings[S.RoomState].n
  }

  /** Room::UpdateRoomSettings, with the delta broadcast to the members. */
  function Updated(r: Room, d: S.Settings): Room {
    var vals := R.Update(r.settings, d);
    r.(settings := vals, peak := Max(r.peak, MaxPlayers(vals)))
  }

  function DropPlayer(game: Option<Match>, u: User): Option<Match> {
    if game.Some? && u in game.value.players then Some(game.value.(players := Erase(game.value.players, u))) else game
  }

  /** Ends the match: no match, state Waiting, members told. */
  function Waiting(r: Room): (Room, seq<Sent>) {
    (Updated(r.(game := None), R.StateDelta(WAITING)), Broadcast(r.members, Delta(R.StateDelta(WAITING))))
  }

  /** Hands the match over to its oldest player; without save data the match is dropped afterwards. */
  function Promote(r: Room): (Room, seq<Sent>)
    requires r.game.Some? && r.game.value.players != []
  {
    var g := r.game.value;
    var host, others := g.players[0], g.players[1..];
    (r.(host := host, game := if g.saveData == [] then None else r.game),
     [Sent(host, HostRestart(true, host, others, g.saveData))] + Restarts(others, host))
  }

  /** The host has left: the members that remain get a new one. */
  function HostLeft(r: Room): (Room, seq<Sent>)
    requires r.members != []
  {
    if r.game.None? then (r.(host := r.members[0]), [])
    else if r.game.value.players == [] then
      var w := Waiting(r);
      (w.0.(host := r.members[0]), w.1)
    else Promote(r)
  }

  /** r once u is neither member nor player. */
  function Vacated(r: Room, u: User): Room
    requires u in r.members
  {
    r.(members := Erase(r.members, u), game := DropPlayer(r.game, u))
  }

  /** Room::RemoveRoomUser as far as the room itself is concerned, when somebody stays. */
  function AfterLeave(r: Room, u: User): (Room, seq<Sent>)
    requires u in r.members && |r.members| > 1
  {
    var v := Vacated(r, u);
    if r.host == u then HostLeft(v) else (v, [])
  }

  /** ReturnToRoom: the user leaves the match but stays in the room. */
  function AfterReturn(r: Room, u: User): (Room, seq<Sent>)
    requires r.game.Some?
  {
    var v := r.(game := DropPlayer(r.game, u));
    if r.host != u then (v, [])
    else if v.game.value.players == [] then Waiting(v)
    else Promote(v)
  }

  // ----- What every room keeps -----

  /** All of it but the host. */
  ghost predicate Seated(r: Room) {
    && 1 <= r.id < 0xFFFF
    && NoDup(r.members)
    && (r.game.Some? ==> NoDup(r.game.value.players) && forall p :: p in r.game.value.players ==> p in r.members)
    && |r.members| <= r.peak <= 255 && 1 <= r.peak && MaxPlayers(r.settings) <= r.peak
  }

  ghost predicate RoomOk(r: Room) {
    Seated(r) && r.host in r.members
  }

  /** A match exists only in a room whose state is Playing. */
  predicate PlayingOk(r: Room) {
    r.game.Some? ==> StateOf(r) == PLAYING as int
  }

  lemma ByteSized(vals: S.Values)
    ensures MaxPlayers(vals) <= 255
  {
    assert S.Fits(S.KindOf(S.MaxPlayers), vals[S.MaxPlayers]);
    assert Pow256(1) == 256;
  }

  lemma StateIs(r: Room, state: u8)
    ensures var q := Updated(r, R.StateDelta(state));
            && StateOf(q) == state as int && q.settings[S.RoomState] == S.Num(state as int) && q.peak == Max(r.peak, MaxPlayers(r.settings))
            && MaxPlayers(q.settings) == MaxPlayers(r.settings)
  {
    hide R.Update, R.StateDelta;
    R.StateDeltaChanges(r.settings, state, S.RoomState);
    R.StateDeltaChanges(r.settings, state, S.MaxPlayers);
  }

  lemma DropsPlayer(r: Room, u: User)
    requires RoomOk(r)
    ensures var g := DropPlayer(r.game, u);
            && (g.Some? <==> r.game.Some?)
            && (g.Some? ==>
                  && NoDup(g.value.players) && u !in g.value.players && g.value.saveData == r.game.value.saveData
                  && (forall p :: p in g.value.players ==> p in r.game.value.players && p != u)
                  && (forall p :: p in r.game.value.players && p != u ==> p in g.value.players))
  {
    if r.game.Some? && u in r.game.value.players {
      ErasedFrom(r.game.value.players, u);
    }
  }

  lemma WaitingKeepsSeats(r: Room)
    requires Seated(r)
    ensures var q := Waiting(r).0;
            && Seated(q) && PlayingOk(q) && q.id == r.id && q.members == r.members && q.host == r.host && q.game.None?
  {
    hide R.Update, R.StateDelta;
    StateIs(r, WAITING);
  }

  lemma VacatedIsSeated(r: Room, u: User)
    requires RoomOk(r) && u in r.members
    ensures Seated(Vacated(r, u)) && u !in Vacated(r, u).members
  {
    ErasedFrom(r.members, u);
    DropsPlayer(r, u);
    var v := Vacated(r, u);
    if v.game.Some? {
      forall p | p in v.game.value.players ensures p in v.members {
        assert p in r.game.value.players && p != u;
      }
    }
  }

  lemma HostLeftKeepsRoom(r: Room)
    requires Seated(r) && r.members != []
    ensures var q := HostLeft(r).0;
            && RoomOk(q) && q.id == r.id && q.members == r.members
            && (PlayingOk(r) ==> PlayingOk(q))
            && (q.game.Some? ==> q.game == r.game)
  {
    hide R.Update, R.StateDelta;
    WaitingKeepsSeats(r);
    if r.game.Some? && r.game.value.players != [] {
      assert r.game.value.players[0] in r.members;
    }
  }

  /** After anyone leaves a room that others stay in, the room is in order: in particular its host is a member. */
  lemma LeaveKeepsRoom(r: Room, u: User)
    requires RoomOk(r) && u in r.members && |r.members| > 1
    ensures var q := AfterLeave(r, u).0;
            && RoomOk(q) && q.id == r.id && q.members == Erase(r.members, u) && u !in q.members
            && (PlayingOk(r) ==> PlayingOk(q))
            && (q.game.Some? ==> r.game.Some? && forall p :: p in q.game.value.players ==> p in r.game.value.players)
  {
    VacatedIsSeated(r, u);
    DropsPlayer(r, u);
    if r.host == u {
      HostLeftKeepsRoom(Vacated(r, u));
    } else {
      ErasedFrom(r.members, u);
    }
  }

  lemma ReturnKeepsRoom(r: Room, u: User)
    requires RoomOk(r) && r.game.Some?
    ensures var q := AfterReturn(r, u).0;
            && RoomOk(q) && q.id == r.id && q.members == r.members
            && (PlayingOk(r) ==> PlayingOk(q))
            && (q.game.Some? ==> u !in q.game.value.players && forall p :: p in q.game.value.players ==> p in r.game.value.players)
  {
    hide R.Update, R.StateDelta;
    DropsPlayer(r, u);
    var v := r.(game := DropPlayer(r.game, u));
    assert Seated(v);
    if r.host == u {
      WaitingKeepsSeats(v);
      if v.game.value.players != [] {
        assert v.game.value.players[0] in v.members;
      }
    }
  }

  // ----- Host migration -----

  /** The players left once u is gone, oldest first. */
  function Remaining(r: Room, u: User): seq<User>
    requires r.game.Some?
  {
    DropPlayer(r.game, u).value.players
  }

  /** What `u` receives when the match is handed over to the first of `players`. */
  function HandOver(players: seq<User>, saveData: seq<u8>, u: User): seq<Msg>
    requires players != []
  {
    if u == players[0] then [HostRestart(true, players[0], players[1..], saveData)]
    else if u in players then [HostRestart(false, players[0], [], []), HostJoin(players[0])]
    else []
  }

  lemma PromoteReaches(r: Room, x: User)
    requires r.game.Some? && r.game.value.players != [] && NoDup(r.game.value.players)
    ensures To(Promote(r).1, x) == HandOver(r.game.value.players, r.game.value.saveData, x)
  {
    var g := r.game.value;
    var host, others := g.players[0], g.players[1..];
    var first := HostRestart(true, host, others, g.saveData);
    assert host !in others;
    assert x in g.players <==> x == host || x in others;
    ToOne(host, first, x);
    RestartsReach(others, host, x);
    ToAppend([Sent(host, first)], Restarts(others, host), x);
  }

  /** When the host leaves while others play on: the oldest remaining player is the new host, every other player is
      sent exactly one HostRestart and one HostJoin naming it, nobody else anything, and the match survives iff there
      is save data. */
  lemma HostMigratesToOldestPlayer(r: Room, u: User, x: User)
    requires RoomOk(r) && u == r.host && |r.members| > 1
    requires r.game.Some? && Remaining(r, u) != []
    ensures var (q, out) := AfterLeave(r, u);
            && q.host == Remaining(r, u)[0] && q.host in q.members && q.host != u
            && q.settings == r.settings
            && (q.game.Some? <==> r.game.value.saveData != [])
            && (q.game.Some? ==> q.game.value == Match(Remaining(r, u), r.game.value.saveData))
            && To(out, x) == HandOver(Remaining(r, u), r.game.value.saveData, x)
  {
    hide R.Update, R.StateDelta;
    DropsPlayer(r, u);
    ErasedFrom(r.members, u);
    VacatedIsSeated(r, u);
    PromoteReaches(Vacated(r, u), x);
  }

  /** The same when the host returns to its room: it stays a member and is host no more. */
  lemma HostReturnsAndHandsOver(r: Room, u: User, x: User)
    requires RoomOk(r) && u == r.host
    requires r.game.Some? && Remaining(r, u) != []
    ensures var (q, out) := AfterReturn(r, u);
            && q.host == Remaining(r, u)[0] && q.host != u && q.members == r.members && q.settings == r.settings
            && (q.game.Some? <==> r.game.value.saveData != [])
            && (q.game.Some? ==> q.game.value == Match(Remaining(r, u), r.game.value.saveData))
            && To(out, x) == HandOver(Remaining(r, u), r.game.value.saveData, x)
  {
    hide R.Update, R.StateDelta;
    DropsPlayer(r, u);
    PromoteReaches(r.(game := DropPlayer(r.game, u)), x);
  }

  /** When nobody plays on, the oldest member is the new host, the match is gone, the state is Waiting, and every
      member that stays is told so exactly once. */
  lemma HostLeavesIdleMatch(r: Room, u: User, x: User)
    requires RoomOk(r) && u == r.host && |r.members| > 1
    requires r.game.Some? && Remaining(r, u) == []
    ensures var (q, out) := AfterLeave(r, u);
            && q.host == q.members[0] && q.game.None? && q.settings == R.Update(r.settings, R.StateDelta(WAITING))
            && To(out, x) == if x in q.members then [Delta(R.StateDelta(WAITING))] else []
  {
    hide R.Update, R.StateDelta;
    ErasedFrom(r.members, u);
    var v := Vacated(r, u);
    StateIs(v.(game := None), WAITING);
    BroadcastReaches(v.members, Delta(R.StateDelta(WAITING)), x);
  }

  /** What is left of a room's match without u: the other players in their order, and the save data. */
  ghost predicate MatchWithout(before: Option<Match>, u: User, after: Option<Match>) {
    && (after.Some? <==> before.Some?)
    && (before.Some? ==>
          var was, now := before.value.players, after.value.players;
          && after.value.saveData == before.value.saveData
          && (u !in was ==> now == was)
          && (forall k :: 0 <= k < |was| && was[k] == u && u !in was[..k] ==> now == was[..k] + was[k + 1..]))
  }

  lemma {:induction false} EraseAt(s: seq<User>, x: User, k: nat)
    requires k < |s| && s[k] == x && x !in s[..k]
    ensures Erase(s, x) == s[..k] + s[k + 1..]
  {
    if k > 0 {
      assert s[0] == s[..k][0];
      assert s[1..][..k - 1] == s[..k][1..];
      EraseAt(s[1..], x, k - 1);
    }
  }

  lemma PlayerDropped(game: Option<Match>, u: User)
    ensures MatchWithout(game, u, DropPlayer(game, u))
  {
    if game.Some? {
      var was := game.value.players;
      forall k | 0 <= k < |was| && was[k] == u && u !in was[..k]
        ensures DropPlayer(game, u).value.players == was[..k] + was[k + 1..]
      {
        EraseAt(was, u, k);
      }
    }
  }

  /** When a member that is not the host leaves, it is out of the member list and of the match, and that is all. */
  lemma GuestLeaves(r: Room, u: User, k: nat)
    requires u != r.host && k < |r.members| && |r.members| > 1 && r.members[k] == u && u !in r.members[..k]
    ensures var (q, out) := AfterLeave(r, u);
            && out == [] && q.id == r.id && q.host == r.host && q.settings == r.settings && q.peak == r.peak
            && q.members == r.members[..k] + r.members[k + 1..]
            && MatchWithout(r.game, u, q.game)
  {
    EraseAt(r.members, u, k);
    PlayerDropped(r.game, u);
  }

  /** When a player that is not the host returns to the room, it is out of the match, and that is all. */
  lemma GuestReturns(r: Room, u: User)
    requires r.game.Some? && u != r.host
    ensures var (q, out) := AfterReturn(r, u);
            && out == [] && q.id == r.id && q.host == r.host && q.settings == r.settings && q.peak == r.peak
            && q.members == r.members
            && MatchWithout(r.game, u, q.game)
  {
    PlayerDropped(r.game, u);
  }

  // ----- Facts for those who do not look inside -----

  lemma RoomFacts(r: Room)
    requires RoomOk(r)
    ensures r.id >= 1 && NoDup(r.members) && r.members != [] && r.host in r.members
  {
  }

  lemma UpdatedSame(r: Room, d: S.Settings)
    ensures var q := Updated(r, d); q.id == r.id && q.host == r.host && q.members == r.members && q.game == r.game
  {
  }

  lemma NothingTo(x: User)
    ensures To([], x) == []
  {
  }
}
