/** Room and GameMatch as objects that are changed in place; each method is tied to the room values. */
module RoomObjects {
  import opened Bytes
  import V = Rooms
  import opened Users = Rooms
  import S = SettingsCodec
  import R = SettingsReplication

  class GameMatch {
    var gameMatchUsers: seq<User>
    var saveData: seq<u8>

    constructor ()
      ensures gameMatchUsers == [] && saveData == []
    {
      gameMatchUsers, saveData := [], [];
    }

    ghost function Value(): V.Match
      reads this
    {
      V.Match(gameMatchUsers, saveData)
    }

    /** GetGameMatchUserByUser, as an index, or -1. */
    method Find(u: User) returns (k: int)
      ensures -1 <= k < |gameMatchUsers|
      ensures k >= 0 ==> gameMatchUsers[k] == u && u !in gameMatchUsers[..k]
      ensures k < 0 <==> u !in gameMatchUsers
    {
      k := 0;
      while k < |gameMatchUsers|
        invariant 0 <= k <= |gameMatchUsers| && u !in gameMatchUsers[..k]
      {
        if gameMatchUsers[k] == u { return; }
        k := k + 1;
      }
      k := -1;
    }

    method AddGameMatchUser(u: User)
      modifies this`gameMatchUsers
      ensures gameMatchUsers == old(gameMatchUsers) + [u]
    {
      gameMatchUsers := gameMatchUsers + [u];
    }

    /** RemoveGameMatchUser of what GetGameMatchUserByUser finds, if anything. */
    method RemoveGameMatchUser(u: User)
      modifies this`gameMatchUsers
      ensures V.Some(Value()) == V.DropPlayer(V.Some(old(Value())), u)
    {
      var k := Find(u);
      if k >= 0 {
        V.EraseAt(gameMatchUsers, u, k);
        gameMatchUsers := gameMatchUsers[..k] + gameMatchUsers[k + 1..];
      }
    }

    method SetSaveData(data: seq<u8>)
      modifies this`saveData
      ensures saveData == data
    {
      saveData := data;
    }
  }

  class Room {
    const roomID: nat
    var roomHostUser: User
    var roomSettings: S.Values
    var roomUsers: seq<User>
    var gameMatch: GameMatch?
    ghost var peak: nat

    constructor (roomID: nat, roomHostUser: User, roomSettings: S.Values)
      ensures Value() == V.Room(roomID, roomHostUser, roomSettings, [], V.None, V.Max(1, V.MaxPlayers(roomSettings)))
      ensures gameMatch == null
    {
      this.roomID, this.roomHostUser, this.roomSettings := roomID, roomHostUser, roomSettings;
      roomUsers, gameMatch := [], null;
      peak := V.Max(1, V.MaxPlayers(roomSettings));
    }

    ghost function Value(): V.Room
      reads this, gameMatch
    {
      V.Room(roomID, roomHostUser, roomSettings, roomUsers,
             if gameMatch == null then V.None else V.Some(gameMatch.Value()), peak)
    }

    /** AddRoomUser: refuses a user that is in the list already. */
    method AddRoomUser(u: User) returns (added: bool)
      modifies this`roomUsers, u
      ensures added <==> u !in old(roomUsers)
      ensures Value() == if added then old(Value()).(members := old(roomUsers) + [u]) else old(Value())
      ensures if added then u.status == InRoom && u.currentRoomID == roomID
              else u.status == old(u.status) && u.currentRoomID == old(u.currentRoomID)
    {
      if u in roomUsers {
        return false;
      }
      roomUsers := roomUsers + [u];
      u.status := InRoom;
      u.currentRoomID := roomID;
      added := true;
    }

    /** UpdateRoomSettings, field group by field group. */
    method UpdateRoomSettings(d: S.Settings)
      modifies this`roomSettings, this`peak
      ensures Value() == V.Updated(old(Value()), d)
    {
      roomSettings := R.UpdateRoomSettings(roomSettings, d);
      peak := V.Max(peak, V.MaxPlayers(roomSettings));
    }

    method UpdateRoomHostUser(u: User)
      modifies this`roomHostUser
      ensures roomHostUser == u
    {
      roomHostUser := u;
    }

    /** Deletes the match, goes back to Waiting and tells the members. */
    method EndMatch() returns (sent: seq<V.Sent>)
      modifies this`gameMatch, this`roomSettings, this`peak
      ensures (Value(), sent) == V.Waiting(old(Value())) && gameMatch == null
    {
      gameMatch := null;
      var roomSettings := R.StateDelta(V.WAITING);
      UpdateRoomSettings(roomSettings);
      sent := SendToAll(V.Delta(roomSettings));
    }

    method SendToAll(msg: V.Msg) returns (sent: seq<V.Sent>)
      ensures sent == V.Broadcast(roomUsers, msg)
    {
      sent := [];
      var i := 0;
      while i < |roomUsers|
        invariant 0 <= i <= |roomUsers| && sent + V.Broadcast(roomUsers[i..], msg) == V.Broadcast(roomUsers, msg)
      {
        ghost var rest := V.Broadcast(roomUsers[i + 1..], msg);
        assert roomUsers[i..][0] == roomUsers[i] && roomUsers[i..][1..] == roomUsers[i + 1..];
        assert (sent + [V.Sent(roomUsers[i], msg)]) + rest == sent + ([V.Sent(roomUsers[i], msg)] + rest);
        sent := sent + [V.Sent(roomUsers[i], msg)];
        i := i + 1;
      }
    }

    /** The match passes to its oldest player: it becomes host, every other player is told to restart and to join it,
        and without save data the match is deleted. */
    method PassMatchOn() returns (sent: seq<V.Sent>)
      requires gameMatch != null && gameMatch.gameMatchUsers != []
      modifies this`roomHostUser, this`gameMatch
      ensures (Value(), sent) == V.Promote(old(Value()))
      ensures gameMatch == old(gameMatch) || gameMatch == null
    {
      var newHost, others := gameMatch.gameMatchUsers[0], gameMatch.gameMatchUsers[1..];
      UpdateRoomHostUser(newHost);
      var saveData := gameMatch.saveData;
      var toOthers := RestartOthers(others, newHost);
      sent := [V.Sent(newHost, V.HostRestart(true, newHost, others, saveData))] + toOthers;
      if saveData == [] {
        gameMatch := null;
      }
    }

    method RestartOthers(others: seq<User>, host: User) returns (sent: seq<V.Sent>)
      ensures sent == V.Restarts(others, host)
    {
      sent := [];
      var i := 0;
      while i < |others|
        invariant 0 <= i <= |others| && sent + V.Restarts(others[i..], host) == V.Restarts(others, host)
      {
        var two := [V.Sent(others[i], V.HostRestart(false, host, [], [])), V.Sent(others[i], V.HostJoin(host))];
        ghost var rest := V.Restarts(others[i + 1..], host);
        assert others[i..][0] == others[i] && others[i..][1..] == others[i + 1..];
        assert (sent + two) + rest == sent + (two + rest);
        sent := sent + two;
        i := i + 1;
      }
    }

    /** The first half of RemoveRoomUser: out of the match, out of the list, back to the lobby. */
    method TakeOut(u: User)
      requires u in roomUsers
      modifies this`roomUsers, gameMatch, u
      ensures Value() == V.Vacated(old(Value()), u) && gameMatch == old(gameMatch)
      ensures u.status == InLobby && u.currentRoomID == 0
    {
      if gameMatch != null {
        gameMatch.RemoveGameMatchUser(u);
      }
      var k := IndexOf(roomUsers, u);
      V.EraseAt(roomUsers, u, k);
      roomUsers := roomUsers[..k] + roomUsers[k + 1..];
      u.status := InLobby;
      u.currentRoomID := 0;
    }

    /** The second half, when the host is gone and somebody stays. */
    method ReplaceHost() returns (sent: seq<V.Sent>)
      requires roomUsers != []
      modifies this`roomHostUser, this`gameMatch, this`roomSettings, this`peak
      ensures (Value(), sent) == V.HostLeft(old(Value()))
      ensures gameMatch == old(gameMatch) || gameMatch == null
    {
      hide R.Update, R.StateDelta, V.Restarts, V.Broadcast;
      sent := [];
      if gameMatch == null {
        UpdateRoomHostUser(roomUsers[0]);
      } else if gameMatch.gameMatchUsers == [] {
        sent := EndMatch();
        UpdateRoomHostUser(roomUsers[0]);
      } else {
        sent := PassMatchOn();
      }
    }

    /** ReturnToRoom: out of the match, which is ended or passed on if the host returns; back to being in the room. */
    method TakeBack(u: User) returns (sent: seq<V.Sent>)
      requires gameMatch != null
      modifies this`roomHostUser, this`gameMatch, this`roomSettings, this`peak, gameMatch, u
      ensures (Value(), sent) == V.AfterReturn(old(Value()), u)
      ensures gameMatch == old(gameMatch) || gameMatch == null
      ensures u.status == InRoom && u.currentRoomID == old(u.currentRoomID)
    {
      hide R.Update, R.StateDelta, V.Restarts, V.Broadcast;
      gameMatch.RemoveGameMatchUser(u);
      sent := [];
      if u == roomHostUser {
        if gameMatch.gameMatchUsers == [] {
          sent := EndMatch();
        } else {
          sent := PassMatchOn();
        }
      }
      u.status := InRoom;
    }

    /** ServerIsActivated for a room without a match: a new match, state Playing, and the members are told. */
    method StartMatch() returns (sent: seq<V.Sent>)
      requires gameMatch == null
      modifies this`gameMatch, this`roomSettings, this`peak
      ensures Value() == V.Updated(old(Value()).(game := V.Some(V.Match([], []))), R.StateDelta(V.PLAYING))
      ensures sent == V.Broadcast(roomUsers, V.Delta(R.StateDelta(V.PLAYING)))
      ensures fresh(gameMatch)
    {
      gameMatch := new GameMatch();
      var roomSettings := R.StateDelta(V.PLAYING);
      UpdateRoomSettings(roomSettings);
      sent := SendToAll(V.Delta(roomSettings));
    }
  }

  method IndexOf(s: seq<User>, u: User) returns (k: nat)
    requires u in s
    ensures k < |s| && s[k] == u && u !in s[..k]
  {
    k := 0;
    while s[k] != u
      invariant k < |s| && u !in s[..k] && u in s[k..]
      decreases |s| - k
    {
      k := k + 1;
    }
  }
}
