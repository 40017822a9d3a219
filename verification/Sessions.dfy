/** Who owns a user's session row, across channels that log users in concurrently, end and start again. */
module Sessions {
  import opened Bytes

  datatype Option<T> = None | Some(value: T)

  datatype ChannelID = ChannelID(server: u8, channel: u8)

  type UserID = u32

  /** A login under way, after its SELECT. `owner` is whose row it has seen and not deleted yet; without one, its next
      statement is the INSERT. */
  datatype Login = Login(at: ChannelID, user: UserID, owner: Option<ChannelID>)

  /** `users` holds the user list of every running channel; a list may have several entries for one user. */
  datatype State = State(users: map<ChannelID, multiset<UserID>>, rows: map<UserID, ChannelID>, logins: map<nat, Login>)

  /** One SQL statement, with what the channel does next in memory; or the start or the end of a channel. `ok` and
      `cleared` say whether the statement that deletes rows is carried out. */
  datatype Step =
    | StartUp(c: ChannelID, ok: bool)
    | Stop(c: ChannelID, cleared: bool)
    | Select(i: nat, c: ChannelID, u: UserID)
    | Delete(i: nat)
    | Insert(i: nat)
    | GiveUp(i: nat)
    | Logout(c: ChannelID, u: UserID, ok: bool)

  predicate LoggedIn(s: State, c: ChannelID, u: UserID) {
    c in s.users && u in s.users[c]
  }

  predicate Enabled(s: State, step: Step) {
    match step
    case StartUp(c, _) => c !in s.users
    case Stop(c, _) => c in s.users
    case Select(i, c, _) => c in s.users && i !in s.logins
    case Delete(i) => i in s.logins && s.logins[i].owner.Some? && s.logins[i].at in s.users
    case Insert(i) => i in s.logins && s.logins[i].owner.None? && s.logins[i].at in s.users
    case GiveUp(i) => i in s.logins
    case Logout(c, u, _) => LoggedIn(s, c, u)
  }

  function RowsOfOthers(rows: map<UserID, ChannelID>, c: ChannelID): map<UserID, ChannelID> {
    map u | u in rows && rows[u] != c :: rows[u]
  }

  function After(s: State, step: Step): State
    requires Enabled(s, step)
  {
    match step
    // a starting channel deletes the rows it left behind
    case StartUp(c, ok) =>
      s.(users := s.users[c := multiset{}], rows := if ok then RowsOfOthers(s.rows, c) else s.rows)
    // a crash, or a shutdown that deletes the channel's rows
    case Stop(c, cleared) =>
      State(s.users - {c}, if cleared then RowsOfOthers(s.rows, c) else s.rows,
            map i | i in s.logins && s.logins[i].at != c :: s.logins[i])
    case Select(i, c, u) =>
      s.(logins := s.logins[i := Login(c, u, if u in s.rows then Some(s.rows[u]) else None)])
    // DELETE ... WHERE userID = u, whoever owns the row
    case Delete(i) =>
      s.(rows := s.rows - {s.logins[i].user}, logins := s.logins[i := s.logins[i].(owner := None)])
    case Insert(i) =>
      var l := s.logins[i];
      if l.user in s.rows then s.(logins := s.logins - {i})   // duplicate key
      else State(s.users[l.at := s.users[l.at] + multiset{l.user}], s.rows[l.user := l.at], s.logins - {i})
    // the row's owner is online or unknown, or a query fails
    case GiveUp(i) => s.(logins := s.logins - {i})
    case Logout(c, u, ok) =>
      s.(users := s.users[c := s.users[c] - multiset{u}], rows := if ok then s.rows - {u} else s.rows)
  }

  /** If c has user u, then once, and the row names c. */
  predicate OwnedAt(s: State, c: ChannelID, u: UserID) {
    LoggedIn(s, c, u) ==> u in s.rows && s.rows[u] == c && s.users[c][u] == 1
  }

  /** A user that is logged in is so once, and its row names the channel that has it. */
  ghost predicate Owned(s: State) {
    forall c, u :: OwnedAt(s, c, u)
  }

  /** The check that a takeover would have to make at its DELETE: the owner of the row does not run, or has lost the user. */
  predicate RowIsFree(s: State, u: UserID) {
    u in s.rows ==> !LoggedIn(s, s.rows[u], u)
  }

  predicate Safe(s: State, step: Step)
    requires Enabled(s, step)
  {
    step.Delete? ==> RowIsFree(s, s.logins[step.i].user)
  }

  lemma StepOwnedAt(s: State, step: Step, c: ChannelID, u: UserID)
    requires Owned(s) && Enabled(s, step) && Safe(s, step)
    ensures OwnedAt(After(s, step), c, u)
  {
    assert OwnedAt(s, c, u);
    if step.Insert? {
      InsertOwnedAt(s, step.i, c, u);
    } else if step.Logout? {
      assert OwnedAt(s, step.c, step.u);
    }
  }

  lemma InsertOwnedAt(s: State, i: nat, c: ChannelID, u: UserID)
    requires Owned(s) && Enabled(s, Insert(i))
    ensures OwnedAt(After(s, Insert(i)), c, u)
  {
    var l := s.logins[i];
    assert OwnedAt(s, c, u);
    if l.user !in s.rows {
      var had := s.users[l.at];
      assert OwnedAt(s, l.at, l.user) && l.user !in had;
      assert (had + multiset{l.user})[l.user] == 1;
    }
  }

  /** Every statement keeps ownership exclusive, except the DELETE of a takeover when the row's owner has the user by then;
      and that DELETE always breaks it. */
  lemma StepOwned(s: State, step: Step)
    requires Owned(s) && Enabled(s, step)
    ensures Owned(After(s, step)) <==> Safe(s, step)
  {
    hide OwnedAt, After;
    if Safe(s, step) {
      forall c, u ensures OwnedAt(After(s, step), c, u) {
        StepOwnedAt(s, step, c, u);
      }
    } else {
      UnsafeDelete(s, step.i);
    }
  }

  lemma UnsafeDelete(s: State, i: nat)
    requires Enabled(s, Delete(i)) && !RowIsFree(s, s.logins[i].user)
    ensures !Owned(After(s, Delete(i)))
  {
    var u := s.logins[i].user;
    assert !OwnedAt(After(s, Delete(i)), s.rows[u], u);
  }

  lemma OnePlace(s: State, c: ChannelID, c': ChannelID, u: UserID)
    requires Owned(s) && LoggedIn(s, c, u) && LoggedIn(s, c', u)
    ensures c == c' && s.users[c][u] == 1
  {
    assert OwnedAt(s, c, u) && OwnedAt(s, c', u);
  }

  /** Logging out deletes the channel's own row, never another channel's, and the user is logged in nowhere. */
  lemma LogoutDeletesOwnRow(s: State, c: ChannelID, u: UserID)
    requires Owned(s) && LoggedIn(s, c, u)
    ensures u in s.rows && s.rows[u] == c
    ensures var q := After(s, Logout(c, u, true));
            u !in q.rows && (forall v :: v in s.rows && v != u ==> v in q.rows && q.rows[v] == s.rows[v]) && Nowhere(q, u)
  {
    var q := After(s, Logout(c, u, true));
    assert OwnedAt(s, c, u);
    forall d | d in q.users ensures u !in q.users[d] {
      if LoggedIn(s, d, u) { OnePlace(s, c, d, u); }
    }
  }

  /** Whose row and list entries a statement may touch. */
  function UserOf(s: State, step: Step): UserID
    requires Enabled(s, step) && !step.StartUp? && !step.Stop?
  {
    match step
    case Select(_, _, u) => u
    case Logout(_, u, _) => u
    case Delete(i) => s.logins[i].user
    case Insert(i) => s.logins[i].user
    case GiveUp(i) => s.logins[i].user
  }

  /** A statement leaves the rows and the list entries of all other users alone. */
  lemma StepIsLocal(s: State, step: Step, v: UserID, d: ChannelID)
    requires Enabled(s, step) && !step.StartUp? && !step.Stop? && v != UserOf(s, step)
    ensures var q := After(s, step);
            && q.users.Keys == s.users.Keys
            && (v in q.rows <==> v in s.rows) && (v in s.rows ==> q.rows[v] == s.rows[v])
            && (d in s.users ==> q.users[d][v] == s.users[d][v])
  {
  }

  /** A channel that starts has no users, and no rows if its query succeeds; one that ends has no users, no logins under
      way, and no rows if it deletes them. Other channels' rows, lists and logins stay. */
  lemma ChannelsComeAndGo(s: State, c: ChannelID, deletes: bool, u: UserID, d: ChannelID, i: nat)
    ensures c !in s.users ==>
              var q := After(s, StartUp(c, deletes));
              && q.users.Keys == s.users.Keys + {c} && q.users[c] == multiset{} && (d in s.users ==> q.users[d] == s.users[d])
              && (u in q.rows <==> u in s.rows && (deletes ==> s.rows[u] != c)) && (u in q.rows ==> q.rows[u] == s.rows[u])
              && q.logins == s.logins
    ensures c in s.users ==>
              var q := After(s, Stop(c, deletes));
              && q.users.Keys == s.users.Keys - {c} && (d in q.users ==> q.users[d] == s.users[d])
              && (u in q.rows <==> u in s.rows && (deletes ==> s.rows[u] != c)) && (u in q.rows ==> q.rows[u] == s.rows[u])
              && (i in q.logins <==> i in s.logins && s.logins[i].at != c) && (i in q.logins ==> q.logins[i] == s.logins[i])
  {
  }

  // ----- Whole runs -----

  predicate Run(s: State, steps: seq<Step>)
    decreases |steps|
  {
    steps != [] ==> Enabled(s, steps[0]) && Run(After(s, steps[0]), steps[1..])
  }

  function End(s: State, steps: seq<Step>): State
    requires Run(s, steps)
    decreases |steps|
  {
    if steps == [] then s else End(After(s, steps[0]), steps[1..])
  }

  /** A property of every state that the run passes through. */
  ghost predicate Always(s: State, steps: seq<Step>)
    requires Run(s, steps)
    decreases |steps|
  {
    Owned(s) && (steps != [] ==> Always(After(s, steps[0]), steps[1..]))
  }

  predicate AllSafe(s: State, steps: seq<Step>)
    requires Run(s, steps)
    decreases |steps|
  {
    steps != [] ==> Safe(s, steps[0]) && AllSafe(After(s, steps[0]), steps[1..])
  }

  /** Over any interleaving of the statements of any channels' logins and logouts, with channels ending and starting and
      queries failing, every user is logged in at most once and where its row says, in every state, exactly when every
      DELETE of a takeover finds the row free. */
  lemma {:induction false} ExclusiveExactlyWhenSafe(s: State, steps: seq<Step>)
    requires Owned(s) && Run(s, steps)
    ensures Always(s, steps) <==> AllSafe(s, steps)
    decreases |steps|
  {
    hide Owned, After, Safe;
    if steps != [] {
      StepOwned(s, steps[0]);
      var next := After(s, steps[0]);
      if Owned(next) {
        ExclusiveExactlyWhenSafe(next, steps[1..]);
      }
    }
  }

  // ----- When a takeover is safe -----

  predicate Nowhere(s: State, u: UserID) {
    forall c :: c in s.users ==> u !in s.users[c]
  }

  /** The step logs u in. */
  predicate LogsIn(s: State, step: Step, u: UserID)
    requires Enabled(s, step)
  {
    step.Insert? && s.logins[step.i].user == u && u !in s.rows
  }

  predicate NobodyLogsIn(s: State, steps: seq<Step>, u: UserID)
    requires Run(s, steps)
    decreases |steps|
  {
    steps != [] ==> !LogsIn(s, steps[0], u) && NobodyLogsIn(After(s, steps[0]), steps[1..], u)
  }

  lemma FreeMeansNowhere(s: State, u: UserID)
    requires Owned(s)
    ensures RowIsFree(s, u) <==> Nowhere(s, u)
  {
    if RowIsFree(s, u) {
      forall c | c in s.users ensures u !in s.users[c] {
        assert OwnedAt(s, c, u);
      }
    }
  }

  lemma StaysNowhere(s: State, step: Step, u: UserID)
    requires Enabled(s, step) && Nowhere(s, u) && !LogsIn(s, step, u)
    ensures Nowhere(After(s, step), u)
  {
  }

  /** A takeover that found the row free at its SELECT still finds it free at its DELETE, whatever happens in between,
      unless somebody logs that user in meanwhile. */
  lemma {:induction false} SafeUnlessOvertaken(s: State, steps: seq<Step>, u: UserID)
    requires Owned(s) && RowIsFree(s, u) && Run(s, steps) && NobodyLogsIn(s, steps, u)
    ensures RowIsFree(End(s, steps), u)
  {
    FreeMeansNowhere(s, u);
    NowhereAtEnd(s, steps, u);
  }

  lemma {:induction false} NowhereAtEnd(s: State, steps: seq<Step>, u: UserID)
    requires Nowhere(s, u) && Run(s, steps) && NobodyLogsIn(s, steps, u)
    ensures Nowhere(End(s, steps), u) && RowIsFree(End(s, steps), u)
    decreases |steps|
  {
    hide After, LogsIn;
    if steps != [] {
      StaysNowhere(s, steps[0], u);
      NowhereAtEnd(After(s, steps[0]), steps[1..], u);
    }
  }

  /** A login that nothing interleaves with, of a user whose row is free, succeeds and keeps sessions exclusive. */
  lemma UninterruptedLogin(s: State, i: nat, c: ChannelID, u: UserID)
    requires Owned(s) && c in s.users && i !in s.logins && RowIsFree(s, u)
    ensures var s1 := After(s, Select(i, c, u));
            Enabled(s1, if u in s.rows then Delete(i) else Insert(i)) &&
            var s2 := if u in s.rows then After(s1, Delete(i)) else s1;
            Enabled(s2, Insert(i)) &&
            var s3 := After(s2, Insert(i));
            && s3 == State(s.users[c := s.users[c] + multiset{u}], s.rows[u := c], s.logins)
            && Owned(s1) && Owned(s2) && Owned(s3)
  {
    var s1 := After(s, Select(i, c, u));
    StepOwned(s, Select(i, c, u));
    var s2 := if u in s.rows then After(s1, Delete(i)) else s1;
    if u in s.rows { StepOwned(s1, Delete(i)); }
    StepOwned(s2, Insert(i));
    var s3 := After(s2, Insert(i));
    assert s3.logins == s.logins;
    assert s3.rows == s.rows[u := c];
  }

  // ----- Races -----

  /** Two first logins of one user race between SELECT and INSERT: the key lets only the first in. */
  lemma FirstLoginsRace(s: State, i: nat, j: nat)
    requires i != j && Enabled(s, Insert(i)) && Enabled(s, Insert(j))
    requires s.logins[i].user == s.logins[j].user && s.logins[i].user !in s.rows
    ensures var first := After(s, Insert(i));
            Enabled(first, Insert(j)) &&
            var both := After(first, Insert(j));
            && first.rows[s.logins[i].user] == s.logins[i].at && LoggedIn(first, s.logins[i].at, s.logins[i].user)
            && both.rows == first.rows && both.users == first.users
  {
  }

  /** Two channels have seen the row of a dead owner. */
  function BothSaw(a: ChannelID, b: ChannelID, dead: ChannelID, u: UserID): State {
    State(map[a := multiset{}, b := multiset{}], map[u := dead], map[0 := Login(a, u, Some(dead)), 1 := Login(b, u, Some(dead))])
  }

  lemma BothSelect(a: ChannelID, b: ChannelID, dead: ChannelID, u: UserID)
    requires a != b && a != dead && b != dead
    ensures var s := State(map[a := multiset{}, b := multiset{}], map[u := dead], map[]);
            Owned(s) && Run(s, [Select(0, a, u), Select(1, b, u)]) &&
            End(s, [Select(0, a, u), Select(1, b, u)]) == BothSaw(a, b, dead, u) && Owned(BothSaw(a, b, dead, u))
  {
    var s := State(map[a := multiset{}, b := multiset{}], map[u := dead], map[]);
    var s1 := After(s, Select(0, a, u));
    assert After(s1, Select(1, b, u)) == BothSaw(a, b, dead, u);
    RunCons(s1, Select(1, b, u), []);
    RunCons(s, Select(0, a, u), [Select(1, b, u)] + []);
    assert [Select(0, a, u)] + ([Select(1, b, u)] + []) == [Select(0, a, u), Select(1, b, u)];
  }

  /** If the first finishes before the second deletes, both succeed: the user is logged in at both channels although the
      second owns the row, and the second DELETE was not safe. */
  lemma TakeOversRace(a: ChannelID, b: ChannelID, dead: ChannelID, u: UserID)
    requires a != b && a != dead && b != dead
    ensures var s := BothSaw(a, b, dead, u);
            var steps := [Delete(0), Insert(0), Delete(1), Insert(1)];
            Run(s, steps) && !Always(s, steps) &&
            var end := End(s, steps);
            LoggedIn(end, a, u) && LoggedIn(end, b, u) && end.rows == map[u := b]
  {
    var s := BothSaw(a, b, dead, u);
    var s1 := After(s, Delete(0));
    var s2 := After(s1, Insert(0));
    assert s1.rows == map[] && s2.rows == map[u := a];
    var s3 := After(s2, Delete(1));
    var s4 := After(s3, Insert(1));
    assert s3.rows == map[] && s4.rows == map[u := b];
    assert !OwnedAt(s3, a, u);
    FourSteps(s, Delete(0), Insert(0), Delete(1), Insert(1));
  }

  /** If both delete before either inserts, the key lets only the first in, and sessions stay exclusive throughout. */
  lemma DeletesFirst(a: ChannelID, b: ChannelID, dead: ChannelID, u: UserID)
    requires a != b && a != dead && b != dead
    ensures var s := BothSaw(a, b, dead, u);
            var steps := [Delete(0), Delete(1), Insert(0), Insert(1)];
            Run(s, steps) && Always(s, steps) &&
            var end := End(s, steps);
            LoggedIn(end, a, u) && !LoggedIn(end, b, u) && end.rows == map[u := a] && end.logins == map[]
  {
    var s := BothSaw(a, b, dead, u);
    var s1 := After(s, Delete(0));
    var s2 := After(s1, Delete(1));
    assert s1.rows == map[] && s2.rows == map[];
    var s3 := After(s2, Insert(0));
    var s4 := After(s3, Insert(1));
    assert s3.rows == s4.rows == map[u := a];
    FourSteps(s, Delete(0), Delete(1), Insert(0), Insert(1));
  }

  lemma RunCons(s: State, step: Step, steps: seq<Step>)
    requires Enabled(s, step) && Run(After(s, step), steps)
    ensures Run(s, [step] + steps) && End(s, [step] + steps) == End(After(s, step), steps)
    ensures Always(s, [step] + steps) <==> Owned(s) && Always(After(s, step), steps)
  {
    assert ([step] + steps)[1..] == steps;
  }

  lemma FourSteps(s: State, a: Step, b: Step, c: Step, d: Step)
    requires Enabled(s, a) && Enabled(After(s, a), b) && Enabled(After(After(s, a), b), c)
    requires Enabled(After(After(After(s, a), b), c), d)
    ensures Run(s, [a, b, c, d])
    ensures var s1 := After(s, a);
            var s2 := After(s1, b);
            var s3 := After(s2, c);
            var s4 := After(s3, d);
            && End(s, [a, b, c, d]) == s4
            && (Always(s, [a, b, c, d]) <==> Owned(s) && Owned(s1) && Owned(s2) && Owned(s3) && Owned(s4))
  {
    hide After, Enabled, Owned;
    var s1 := After(s, a);
    var s2 := After(s1, b);
    var s3 := After(s2, c);
    RunCons(s3, d, []);
    RunCons(s2, c, [d]);
    RunCons(s1, b, [c, d]);
    RunCons(s, a, [b, c, d]);
    assert [d] + [] == [d];
    assert [c] + [d] == [c, d];
    assert [b] + [c, d] == [b, c, d];
    assert [a] + [b, c, d] == [a, b, c, d];
  }

  // ----- The statements and the methods that issue them -----

  /** The user_sessions table; userID is its primary key. */
  class SessionTable {
    var rows: map<UserID, ChannelID>

    constructor ()
      ensures rows == map[]
    {
      rows := map[];
    }

    method SelectRow(u: UserID) returns (row: Option<ChannelID>)
      ensures row == if u in rows then Some(rows[u]) else None
    {
      row := if u in rows then Some(rows[u]) else None;
    }

    method InsertRow(u: UserID, c: ChannelID) returns (duplicate: bool)
      modifies this
      ensures duplicate <==> u in old(rows)
      ensures rows == if duplicate then old(rows) else old(rows)[u := c]
    {
      duplicate := u in rows;
      if !duplicate {
        rows := rows[u := c];
      }
    }

    method DeleteRow(u: UserID)
      modifies this
      ensures rows == old(rows) - {u}
    {
      rows := rows - {u};
    }

    method DeleteRowsOf(c: ChannelID)
      modifies this
      ensures rows == RowsOfOthers(old(rows), c)
    {
      rows := RowsOfOthers(rows, c);
    }
  }

  /** The server list, which counts channels per server, has that channel; both are counted from 1. */
  predicate Listed(c: ChannelID, channels: seq<nat>) {
    exists i :: 0 <= i < |channels| && i + 1 == c.server as int && 1 <= c.channel as int <= channels[i]
  }

  /** One channel's database manager, with its view of the server list. Each query succeeds or fails. */
  class DatabaseManager {
    const self: ChannelID
    const channels: seq<nat>
    const table: SessionTable
    var online: set<ChannelID>

    constructor (self: ChannelID, channels: seq<nat>, table: SessionTable)
      ensures this.self == self && this.channels == channels && this.table == table && online == {}
    {
      this.self, this.channels, this.table := self, channels, table;
      online := {};
    }

    predicate Known(c: ChannelID) {
      0 < c.server as int <= |channels| && 0 < c.channel as int <= channels[c.server as int - 1]
    }

    /** The row is nobody's, or of a known channel that is not online. */
    predicate Takable(u: UserID)
      reads this, table
    {
      u in table.rows ==> Known(table.rows[u]) && table.rows[u] !in online
    }

    /** SELECT, then INSERT, or DELETE and INSERT when the owner is a known channel that is not online.
        1: the row is ours; 0: somebody else's; -1: query error, which may leave no row behind. */
    method AddUserSession(u: UserID, selectOk: bool, deleteOk: bool, insertOk: bool) returns (result: int)
      modifies table
      ensures result == if !selectOk then -1
                        else if !old(Takable(u)) then 0
                        else if (u in old(table.rows) && !deleteOk) || !insertOk then -1
                        else 1
      ensures table.rows == if result == 1 then old(table.rows)[u := self]
                            else if selectOk && old(Takable(u)) && deleteOk then old(table.rows) - {u}
                            else old(table.rows)
      ensures selectOk && u in old(table.rows) && old(table.rows)[u] in online ==> result == 0 && table.rows == old(table.rows)
      ensures selectOk && u in old(table.rows) && !Listed(old(table.rows)[u], channels) ==>
                result == 0 && table.rows == old(table.rows)
      ensures selectOk && deleteOk && insertOk
              && (u in old(table.rows) ==> old(table.rows)[u] !in online && Listed(old(table.rows)[u], channels))
              ==> result == 1 && table.rows == old(table.rows)[u := self]
    {
      if !selectOk { return -1; }
      var row := table.SelectRow(u);
      if row.None? {
        if !insertOk { return -1; }
        var duplicate := table.InsertRow(u, self);
        if duplicate { return 0; }
      } else {
        if !Known(row.value) { return 0; }
        if row.value in online { return 0; }
        if !deleteOk { return -1; }
        table.DeleteRow(u);
        if !insertOk { return -1; }
        var duplicate := table.InsertRow(u, self);
        if duplicate { return 0; }
      }
      result := 1;
    }

    method RemoveUserSession(u: UserID, ok: bool)
      modifies table
      ensures table.rows == if ok then old(table.rows) - {u} else old(table.rows)
    {
      if ok {
        table.DeleteRow(u);
      }
    }

    /** At the start of the channel and at its end. */
    method RemoveAllUserSessions(ok: bool)
      modifies table
      ensures forall u :: u in table.rows <==> u in old(table.rows) && (ok ==> old(table.rows)[u] != self)
      ensures forall u :: u in table.rows ==> table.rows[u] == old(table.rows)[u]
    {
      if ok {
        table.DeleteRowsOf(self);
      }
    }

    /** 1: ours; 2: another channel's or unknown; 0: no row; -1: query error. */
    method IsUserSessionAdded(u: UserID, ok: bool) returns (result: int)
      ensures result == if !ok then -1
                        else if u !in table.rows then 0
                        else if Listed(self, channels) && table.rows[u] == self then 1 else 2
    {
      if !ok { return -1; }
      var row := table.SelectRow(u);
      if row.None? { return 0; }
      if !Known(row.value) { return 2; }
      if row.value != self { return 2; }
      result := 1;
    }
  }
}
