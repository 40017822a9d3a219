/** The packets that carry room settings: the delta broadcast, the full reply on create and join, the create request;
    their sizes, and the sender's size guard. */
module RoomPackets {
  import opened Bytes
  import opened Packets
  import opened SettingsCodec
  import opened SettingsReplication
  import W = SettingsWire

  const ROOM_PACKET_ID: u8 := 65
  const CREATE_ROOM: u8 := 0
  const REPLY_CREATE_AND_JOIN: u8 := 0
  const REPLY_UPDATE_ROOM_SETTINGS: u8 := 4

  /** The sender's size guard: with its header the packet must not exceed TCP_PACKET_MAX_SIZE. */
  predicate Deliverable(body: seq<u8>) {
    PACKET_HEADER_SIZE + |body| <= TCP_PACKET_MAX_SIZE
  }

  // ----- The delta broadcast -----

  /** The body of a ReplyUpdateRoomSettings packet. */
  function DeltaBody(d: Settings): seq<u8> {
    [ROOM_PACKET_ID, REPLY_UPDATE_ROOM_SETTINGS] + Build(d)
  }

  /** One broadcast: the client sees the delta unless the sender drops the packet for its size. */
  function ClientStep(copy: Values, d: Settings): Values {
    if Deliverable(DeltaBody(d)) then Receive(copy, DeltaBody(d), 2) else copy
  }

  /** What a delta that arrives does to a copy is what it does to the server's settings. */
  lemma DeltaArrives(copy: Values, d: Settings)
    ensures Receive(copy, DeltaBody(d), 2) == Update(copy, d)
  {
    hide Receive, Update, Build;
    DeltaReplicates(copy, [ROOM_PACKET_ID, REPLY_UPDATE_ROOM_SETTINGS], d, []);
    assert DeltaBody(d) + [] == DeltaBody(d);
  }

  /** A client in step with the server stays in step after a broadcast exactly when the packet passes
      the size guard or the delta changes nothing. */
  lemma StepInStep(vals: Values, d: Settings)
    ensures ClientStep(vals, d) == Update(vals, d) <==> |DeltaBody(d)| <= 65532 || Update(vals, d) == vals
    ensures Deliverable(DeltaBody(d)) <==> |DeltaBody(d)| <= 65532
  {
    hide Receive, Update, DeltaBody;
    DeltaArrives(vals, d);
  }

  // ----- The full reply -----

  /** The reply to Create and Join: the host's id, the room's id, a zero, all settings, and one entry per user,
      whose encoding is a parameter. */
  datatype Reply = Reply(hostID: u32, roomID: nat, vals: Values, infos: seq<seq<u8>>)

  function ReplyPrefix(r: Reply): (pre: seq<u8>)
    ensures |pre| == 9
  {
    [ROOM_PACKET_ID, REPLY_CREATE_AND_JOIN] + EncodeNum(r.hostID, 4, true) + EncodeNum(r.roomID, 2, true) + [0]
  }

  function ReplySuffix(r: Reply): seq<u8> {
    [|r.infos| % 256] + Flatten(r.infos)
  }

  /** The body of a ReplyCreateAndJoin packet. */
  function ReplyBody(r: Reply): seq<u8> {
    ReplyPrefix(r) + Build(FullSettings(r.vals)) + ReplySuffix(r)
  }

  /** What the reply does to the copy of the client that created or joined. */
  function ClientJoin(copy: Values, r: Reply): Values {
    if Deliverable(ReplyBody(r)) then Receive(copy, ReplyBody(r), 9) else copy
  }

  lemma ReplyArrives(copy: Values, r: Reply)
    ensures Receive(copy, ReplyBody(r), 9) == r.vals
  {
    hide Receive, Build, ReplyPrefix, ReplySuffix;
    FullReplicates(copy, ReplyPrefix(r), r.vals, ReplySuffix(r));
  }

  /** A client that creates or joins has the room's settings exactly when the reply passes the size guard, or when its
      copy happened to be right already. */
  lemma JoinInStep(copy: Values, r: Reply)
    ensures ClientJoin(copy, r) == r.vals <==> |ReplyBody(r)| <= 65532 || copy == r.vals
    ensures Deliverable(ReplyBody(r)) <==> |ReplyBody(r)| <= 65532
  {
    hide Receive, ReplyBody;
    ReplyArrives(copy, r);
  }

  // ----- Sizes -----

  /** The bytes of a field apart from the characters of a string. */
  function Width(f: Field): nat {
    if KindOf(f) == Str then 1 else SizeOf(KindOf(f))
  }

  /** The characters of a string field. */
  function Chars(f: Field, vals: Values): nat {
    if vals[f].Text? then |vals[f].s| else 0
  }

  function FieldSize(f: Field, vals: Values): nat {
    Width(f) + if KindOf(f) == Str then Chars(f, vals) else 0
  }

  /** The characters of all strings. */
  function TextSize(vals: Values): nat {
    Chars(RoomName, vals) + Chars(Password, vals) + Chars(UnkH1_2, vals)
  }

  function FieldsSize(fields: seq<Field>, i: nat, vals: Values): nat
    requires i <= |fields|
    decreases |fields| - i
  {
    if i == |fields| then 0 else FieldSize(fields[i], vals) + FieldsSize(fields, i + 1, vals)
  }

  lemma EncodedFieldSize(f: Field, vals: Values)
    ensures |EncodeField(KindOf(f), vals[f])| == FieldSize(f, vals)
  {
    hide KindOf;
    assert Fits(KindOf(f), vals[f]);
  }

  lemma {:induction false} EncodedFieldsSize(fields: seq<Field>, i: nat, vals: Values)
    requires i <= |fields|
    ensures |EncodeFields(fields[i..], vals)| == FieldsSize(fields, i, vals)
    decreases |fields| - i
  {
    if i < |fields| {
      assert fields[i..][1..] == fields[i + 1..];
      EncodedFieldSize(fields[i], vals);
      EncodedFieldsSize(fields, i + 1, vals);
    }
  }

  /** The bytes of group k apart from the characters of its strings. */
  function FixedSize(k: nat): nat {
    match k
    case 2 => 7 case 10 => 2 case 31 => 33 case 32 => 8 case _ => 1
  }

  function GroupText(k: nat, vals: Values): nat {
    match k
    case 0 => Chars(RoomName, vals) case 3 => Chars(Password, vals) case 32 => Chars(UnkH1_2, vals) case _ => 0
  }

  lemma NextSize(fields: seq<Field>, i: nat, vals: Values)
    requires i < |fields|
    ensures FieldsSize(fields, i, vals) == FieldSize(fields[i], vals) + FieldsSize(fields, i + 1, vals)
    ensures FieldsSize(fields, |fields|, vals) == 0
  {
  }

  ghost predicate IsSingle(k: nat)
    requires k < GROUPS
  {
    var fields := GroupAt(k).fields;
    && |fields| == 1 && Width(fields[0]) == FixedSize(k)
    && (KindOf(fields[0]) == Str <==> k == 0 || k == 3)
    && (k == 0 ==> fields[0] == RoomName) && (k == 3 ==> fields[0] == Password)
  }

  lemma EarlySingle(k: nat)
    requires k < 16 && k != 2
    ensures IsSingle(k)
  {
  }

  lemma LateSingle(k: nat)
    requires 16 <= k < GROUPS && k != 31 && k != 32
    ensures IsSingle(k)
  {
  }

  lemma GroupSize(k: nat, vals: Values)
    requires k < GROUPS
    ensures FieldsSize(GroupAt(k).fields, 0, vals) == FixedSize(k) + GroupText(k, vals)
  {
    if k == 2 {
      FourFields(vals);
    } else if k == 31 {
      Vectors(vals);
    } else if k == 32 {
      FiveFields(vals);
    } else {
      hide GroupAt, FieldsSize, Width, KindOf, FixedSize;
      if k < 16 { EarlySingle(k); } else { LateSingle(k); }
      NextSize(GroupAt(k).fields, 0, vals);
    }
  }

  lemma FourWidths()
    ensures GroupAt(2).fields == [Unk4_1, Unk4_2, Unk4_3, Unk4_4]
    ensures Width(Unk4_1) == Width(Unk4_2) == Width(Unk4_3) == 1 && Width(Unk4_4) == 4
    ensures KindOf(Unk4_1) != Str && KindOf(Unk4_2) != Str && KindOf(Unk4_3) != Str && KindOf(Unk4_4) != Str
  {
  }

  lemma FourFields(vals: Values)
    ensures FieldsSize(GroupAt(2).fields, 0, vals) == 7
  {
    hide FieldsSize, Chars, GroupAt, Width, KindOf;
    FourWidths();
    var fields := GroupAt(2).fields;
    NextSize(fields, 0, vals);
    NextSize(fields, 1, vals);
    NextSize(fields, 2, vals);
    NextSize(fields, 3, vals);
  }

  lemma FiveWidths()
    ensures GroupAt(32).fields == [UnkH1_1, UnkH1_2, UnkH1_3, UnkH1_4, UnkH1_5]
    ensures Width(UnkH1_1) == 4 && Width(UnkH1_2) == Width(UnkH1_3) == Width(UnkH1_4) == Width(UnkH1_5) == 1
    ensures KindOf(UnkH1_2) == Str && KindOf(UnkH1_1) != Str
    ensures KindOf(UnkH1_3) != Str && KindOf(UnkH1_4) != Str && KindOf(UnkH1_5) != Str
  {
  }

  lemma FiveFields(vals: Values)
    ensures FieldsSize(GroupAt(32).fields, 0, vals) == 8 + Chars(UnkH1_2, vals)
  {
    hide FieldsSize, Chars, GroupAt, Width, KindOf;
    FiveWidths();
    var fields := GroupAt(32).fields;
    NextSize(fields, 0, vals);
    NextSize(fields, 1, vals);
    NextSize(fields, 2, vals);
    NextSize(fields, 3, vals);
    NextSize(fields, 4, vals);
  }

  lemma FirstVector()
    ensures Width(Vec0_1) == 4 && KindOf(Vec0_1) != Str
    ensures Width(Vec0_2) == 4 && KindOf(Vec0_2) != Str
    ensures Width(Vec0_3) == 1 && KindOf(Vec0_3) != Str
    ensures Width(Vec0_4) == 1 && KindOf(Vec0_4) != Str
    ensures Width(Vec0_5) == 1 && KindOf(Vec0_5) != Str
    ensures Width(Vec0_6) == 1 && KindOf(Vec0_6) != Str
    ensures Width(Vec0_7) == 2 && KindOf(Vec0_7) != Str
    ensures Width(Vec0_8) == 1 && KindOf(Vec0_8) != Str
    ensures Width(Vec0_9) == 1 && KindOf(Vec0_9) != Str
  {
  }

  lemma SecondVector()
    ensures Width(Vec1_1) == 4 && KindOf(Vec1_1) != Str
    ensures Width(Vec1_2) == 4 && KindOf(Vec1_2) != Str
    ensures Width(Vec1_3) == 1 && KindOf(Vec1_3) != Str
    ensures Width(Vec1_4) == 1 && KindOf(Vec1_4) != Str
    ensures Width(Vec1_5) == 1 && KindOf(Vec1_5) != Str
    ensures Width(Vec1_6) == 1 && KindOf(Vec1_6) != Str
    ensures Width(Vec1_7) == 2 && KindOf(Vec1_7) != Str
    ensures Width(Vec1_8) == 1 && KindOf(Vec1_8) != Str
    ensures Width(Vec1_9) == 1 && KindOf(Vec1_9) != Str
  {
  }

  lemma FirstVectorSize(vals: Values)
    ensures FieldsSize([Vec0_1, Vec0_2, Vec0_3, Vec0_4, Vec0_5, Vec0_6, Vec0_7, Vec0_8, Vec0_9], 0, vals) == 16
  {
    hide FieldsSize, Width, KindOf, Chars;
    FirstVector();
    var fields := [Vec0_1, Vec0_2, Vec0_3, Vec0_4, Vec0_5, Vec0_6, Vec0_7, Vec0_8, Vec0_9];
    NextSize(fields, 0, vals);
    NextSize(fields, 1, vals);
    NextSize(fields, 2, vals);
    NextSize(fields, 3, vals);
    NextSize(fields, 4, vals);
    NextSize(fields, 5, vals);
    NextSize(fields, 6, vals);
    NextSize(fields, 7, vals);
    NextSize(fields, 8, vals);
  }

  lemma SecondVectorSize(vals: Values)
    ensures FieldsSize([Vec1_1, Vec1_2, Vec1_3, Vec1_4, Vec1_5, Vec1_6, Vec1_7, Vec1_8, Vec1_9], 0, vals) == 16
  {
    hide FieldsSize, Width, KindOf, Chars;
    SecondVector();
    var fields := [Vec1_1, Vec1_2, Vec1_3, Vec1_4, Vec1_5, Vec1_6, Vec1_7, Vec1_8, Vec1_9];
    NextSize(fields, 0, vals);
    NextSize(fields, 1, vals);
    NextSize(fields, 2, vals);
    NextSize(fields, 3, vals);
    NextSize(fields, 4, vals);
    NextSize(fields, 5, vals);
    NextSize(fields, 6, vals);
    NextSize(fields, 7, vals);
    NextSize(fields, 8, vals);
  }

  lemma {:induction false} SizeAppend(a: seq<Field>, b: seq<Field>, i: nat, vals: Values)
    requires i <= |a|
    ensures FieldsSize(a + b, i, vals) == FieldsSize(a, i, vals) + FieldsSize(b, 0, vals)
    decreases |a| - i
  {
    if i == |a| {
      SizeDrop(a, b, 0, vals);
    } else {
      SizeAppend(a, b, i + 1, vals);
    }
  }

  lemma {:induction false} SizeDrop(a: seq<Field>, b: seq<Field>, i: nat, vals: Values)
    requires i <= |b|
    ensures FieldsSize(a + b, |a| + i, vals) == FieldsSize(b, i, vals)
    decreases |b| - i
  {
    if i < |b| {
      SizeDrop(a, b, i + 1, vals);
    }
  }

  lemma VectorFields()
    ensures var v0 := [Vec0_1, Vec0_2, Vec0_3, Vec0_4, Vec0_5, Vec0_6, Vec0_7, Vec0_8, Vec0_9];
            var v1 := [Vec1_1, Vec1_2, Vec1_3, Vec1_4, Vec1_5, Vec1_6, Vec1_7, Vec1_8, Vec1_9];
            GroupAt(31).fields == [Unk80000000] + v0 + v1
    ensures Width(Unk80000000) == 1 && KindOf(Unk80000000) != Str
  {
  }

  lemma Vectors(vals: Values)
    ensures FieldsSize(GroupAt(31).fields, 0, vals) == 33
  {
    hide FieldsSize, GroupAt, Width, KindOf, Chars;
    var v0 := [Vec0_1, Vec0_2, Vec0_3, Vec0_4, Vec0_5, Vec0_6, Vec0_7, Vec0_8, Vec0_9];
    var v1 := [Vec1_1, Vec1_2, Vec1_3, Vec1_4, Vec1_5, Vec1_6, Vec1_7, Vec1_8, Vec1_9];
    VectorFields();
    FirstVectorSize(vals);
    SecondVectorSize(vals);
    SizeAppend([Unk80000000] + v0, v1, 0, vals);
    SizeAppend([Unk80000000], v0, 0, vals);
    NextSize([Unk80000000], 0, vals);
  }

  /** The size of groups k and on when all of them are written. */
  function SizeFrom(k: nat, vals: Values): nat
    requires k <= GROUPS
    decreases GROUPS - k
  {
    if k == GROUPS then 0 else FixedSize(k) + GroupText(k, vals) + SizeFrom(k + 1, vals)
  }

  /** All fields but the strings take 80 bytes with the terminators of the strings. */
  lemma {:induction false} SizeFromIs(k: nat, vals: Values)
    requires k <= GROUPS
    ensures SizeFrom(k, vals)
         == GROUPS - k + (if k <= 2 then 6 else 0) + (if k <= 10 then 1 else 0) + (if k <= 31 then 32 else 0)
            + (if k <= 32 then 7 + Chars(UnkH1_2, vals) else 0)
            + (if k <= 0 then Chars(RoomName, vals) else 0) + (if k <= 3 then Chars(Password, vals) else 0)
    decreases GROUPS - k
  {
    hide Chars;
    if k < GROUPS {
      SizeFromIs(k + 1, vals);
    }
  }

  lemma {:induction false} GroupsSize(k: nat, low: u32, high: u8, vals: Values)
    requires k <= GROUPS
    ensures |EncodeGroups(Layout()[k..], low, high, vals)| <= SizeFrom(k, vals)
    ensures (forall j :: k <= j < GROUPS ==> GroupAt(j).In(low, high)) ==>
              |EncodeGroups(Layout()[k..], low, high, vals)| == SizeFrom(k, vals)
    decreases GROUPS - k
  {
    hide GroupAt, Bit, FixedSize, GroupText, EncodeFields, FieldsSize;
    if k < GROUPS {
      var rest, g := Layout()[k..], GroupAt(k);
      assert rest[0] == g && rest[1..] == Layout()[k + 1..];
      assert g.fields[0..] == g.fields;
      EncodedFieldsSize(g.fields, 0, vals);
      GroupSize(k, vals);
      GroupsSize(k + 1, low, high, vals);
    }
  }

  lemma AllGroupsIn(k: nat)
    requires k < GROUPS
    ensures GroupAt(k).In(LFLAG_ALL, HFLAG_ALL)
  {
    hide GroupAt, Bit;
    FlagConstants();
    GroupBits(k);
    if k < 32 { BitOfAllOnes(32, k); } else { BitOfAllOnes(8, k - 32); }
  }

  /** Built settings take at most 85 bytes besides the characters of their strings, and exactly that when all are written. */
  lemma BuildSize(d: Settings)
    ensures |Build(d)| <= 85 + TextSize(d.vals)
    ensures |Build(FullSettings(d.vals))| == 85 + TextSize(d.vals)
  {
    hide GroupAt, Bit, EncodeGroups, SizeFrom, Chars;
    assert Layout()[0..] == Layout();
    GroupsSize(0, d.lowFlag, d.highFlag, d.vals);
    GroupsSize(0, LFLAG_ALL, HFLAG_ALL, d.vals);
    SizeFromIs(0, d.vals);
    forall j | 0 <= j < GROUPS ensures GroupAt(j).In(LFLAG_ALL, HFLAG_ALL) {
      AllGroupsIn(j);
    }
  }

  /** The size guard lets the full reply pass exactly when the strings and the user entries leave room for the 99 other bytes. */
  lemma ReplyDeliverableIff(r: Reply)
    ensures Deliverable(ReplyBody(r)) <==> TextSize(r.vals) + |Flatten(r.infos)| <= 65437
  {
    hide Build, TextSize, ReplyPrefix, Flatten;
    BuildSize(FullSettings(r.vals));
  }

  lemma ShortDeltaIsDeliverable(d: Settings)
    requires TextSize(d.vals) <= TCP_PACKET_MAX_SIZE - 91
    ensures Deliverable(DeltaBody(d))
  {
    hide Build, TextSize;
    BuildSize(d);
  }

  // ----- Runs of one room -----

  function ServerRun(vals: Values, ds: seq<Settings>): Values
    decreases |ds|
  {
    if ds == [] then vals else ServerRun(Update(vals, ds[0]), ds[1..])
  }

  function ClientRun(copy: Values, ds: seq<Settings>): Values
    decreases |ds|
  {
    if ds == [] then copy else ClientRun(ClientStep(copy, ds[0]), ds[1..])
  }

  /** After any deliverable deltas a copy that was right is right. */
  lemma {:induction false} RunsAgree(vals: Values, ds: seq<Settings>)
    requires forall i :: 0 <= i < |ds| ==> Deliverable(DeltaBody(ds[i]))
    ensures ClientRun(vals, ds) == ServerRun(vals, ds)
    decreases |ds|
  {
    hide Update, ClientStep, DeltaBody, Deliverable;
    if ds != [] {
      StepInStep(vals, ds[0]);
      RunsAgree(Update(vals, ds[0]), ds[1..]);
    }
  }

  /** A client whose reply passed the size guard follows the server from whatever copy it had before. */
  lemma JoinedClientAgrees(before: Values, r: Reply, ds: seq<Settings>)
    requires Deliverable(ReplyBody(r))
    requires forall i :: 0 <= i < |ds| ==> Deliverable(DeltaBody(ds[i]))
    ensures ClientRun(ClientJoin(before, r), ds) == ServerRun(r.vals, ds)
  {
    hide ClientJoin, ClientRun, ServerRun, ReplyBody, DeltaBody, Deliverable;
    JoinInStep(before, r);
    RunsAgree(r.vals, ds);
  }

  // ----- Where the guard bites -----

  /** A string of n letters A. */
  function Letters(n: nat): (s: seq<u8>)
    ensures |s| == n && 0 !in s
  {
    seq(n, _ => 65)
  }

  function Rename(n: nat): Settings {
    Settings(1, 0, Defaults[RoomName := Text(Letters(n))])
  }

  function NewPassword(n: nat): Settings {
    Settings(8, 0, Defaults[Password := Text(Letters(n))])
  }

  lemma RenameChanges(vals: Values, n: nat, f: Field)
    ensures Update(vals, Rename(n))[f] == if f == RoomName then Text(Letters(n)) else vals[f]
  {
    hide Update, Flagged;
    assert GroupAt(0).fields == [RoomName];
    OneField(0, 1, RoomName, f);
    UpdateAt(vals, Rename(n), f);
  }

  lemma PasswordChanges(vals: Values, n: nat, f: Field)
    ensures Update(vals, NewPassword(n))[f] == if f == Password then Text(Letters(n)) else vals[f]
  {
    hide Update, Flagged;
    assert GroupAt(3).fields == [Password];
    OneField(3, 8, Password, f);
    UpdateAt(vals, NewPassword(n), f);
  }

  lemma RenameSize(n: nat)
    ensures |Build(Rename(n))| == 6 + n
  {
    var layout, vals := Layout(), Rename(n).vals;
    assert layout[0] == GroupAt(0) == Low(0, [RoomName]);
    OneGroup(0, 1, 0);
    forall k | 0 <= k < |layout[1..]| ensures !layout[1..][k].In(1, 0) {
      OneGroup(0, 1, k + 1);
    }
    NothingElse(layout[1..], vals);
    assert EncodeFields([RoomName][1..], vals) == [];
  }

  lemma {:induction false} NothingElse(layout: seq<Group>, vals: Values)
    requires forall k :: 0 <= k < |layout| ==> !layout[k].In(1, 0)
    ensures EncodeGroups(layout, 1, 0, vals) == []
  {
    hide Bit;
    if layout != [] {
      assert layout[1..] == [] || layout[1..][0] == layout[1];
      NothingElse(layout[1..], vals);
    }
  }

  /** A room name that a client can still send makes the broadcast too long: the server renames the room,
      and no client learns it. */
  lemma OversizedDeltaIsLost(vals: Values)
    requires vals[RoomName] != Text(Letters(65526))
    ensures var d := Rename(65526);
            && |DeltaBody(d)| < 0x1_0000
            && !Deliverable(DeltaBody(d))
            && ClientStep(vals, d)[RoomName] == vals[RoomName]
            && Update(vals, d)[RoomName] == Text(Letters(65526))
  {
    hide Update, Build, Receive;
    RenameSize(65526);
    RenameChanges(vals, 65526, RoomName);
  }

  lemma TextsAfterBoth(vals: Values, n: nat)
    ensures var after := Update(Update(vals, Rename(n)), NewPassword(n));
            TextSize(after) >= 2 * n
  {
    hide Update;
    var once := Update(vals, Rename(n));
    RenameChanges(vals, n, RoomName);
    PasswordChanges(once, n, RoomName);
    PasswordChanges(once, n, Password);
  }

  lemma TextsOf(n: nat)
    ensures TextSize(Rename(n).vals) == TextSize(NewPassword(n).vals) == n
  {
    assert Defaults[Password] == Defaults[UnkH1_2] == Defaults[RoomName] == Text([]);
  }

  /** Two deltas that every member receives, and nobody that joins afterwards receives the room's settings. */
  lemma OversizedJoinIsLost(vals: Values, r: Reply, copy: Values)
    requires r.vals == Update(Update(vals, Rename(40000)), NewPassword(40000)) && copy != r.vals
    ensures Deliverable(DeltaBody(Rename(40000))) && Deliverable(DeltaBody(NewPassword(40000)))
    ensures !Deliverable(ReplyBody(r)) && ClientJoin(copy, r) == copy
  {
    hide Update, Build, Receive, TextSize, DeltaBody, ReplyBody, Rename, NewPassword, Flatten;
    TextsOf(40000);
    ShortDeltaIsDeliverable(Rename(40000));
    ShortDeltaIsDeliverable(NewPassword(40000));
    TextsAfterBoth(vals, 40000);
    ReplyDeliverableIff(r);
  }

  // ----- The create request -----

  function CreateFields(): seq<Field> {
    [MaxPlayers, GameModeID, MapID, WinLimit, KillLimit, TimeLimit, RoundTime, Password]
  }

  /** The settings that a CreateRoom packet asks for, read from `off`: a name, a byte that is ignored, and eight fields. */
  function Requested(buf: seq<u8>, off: nat): Values
    requires off <= |buf|
  {
    var (named, off1) := DecodeFields([RoomName], buf, off, Defaults);
    var (_, off2) := ReadNum(buf, off1, 1, true);
    DecodeFields(CreateFields(), buf, off2, named).0
  }

  /** What the server puts into a field: some values are fixed, some depend on the game mode, the others stay. */
  function Preset(f: Field, mode: Value, v: Value): (r: Value)
    requires Fits(KindOf(f), v)
    ensures Fits(KindOf(f), r)
  {
    assert Pow256(1) == 256;
    if f == HostagePenalty then Num(3)
    else if f == FreezeTime && mode in {Num(0), Num(3), Num(6), Num(7)} then Num(6)
    else if f == BuyTime then Num(90)
    else if f == NickNameDisplay then Num(1)
    else if f == FriendlyFire && mode in {Num(1), Num(4)} then Num(1)
    else if f == FlashLight || f == FootSteps || f == VoiceChat then Num(1)
    else v
  }

  function WithPresets(vals: Values): Values {
    map f: Field :: Preset(f, vals[GameModeID], vals[f])
  }

  /** The settings of the room that a CreateRoom packet creates. */
  function CreateSettings(buf: seq<u8>, off: nat): Values
    requires off <= |buf|
  {
    WithPresets(Requested(buf, off))
  }

  method ParseCreateRoom(packet: Packet) returns (vals: Values)
    requires packet.Valid()
    modifies packet`readOffset
    ensures packet.Valid()
    ensures vals == CreateSettings(packet.buffer, old(packet.readOffset))
  {
    hide WithPresets, CreateFields, DecodeFields;
    vals := ReadFields(packet, [RoomName], Defaults);
    var _ := packet.ReadBytes(1, true);
    vals := ReadFields(packet, CreateFields(), vals);
    vals := WithPresets(vals);
  }

  /** A request with these fields, whatever the byte between them. */
  function CreateRequest(vals: Values, unk: u8): seq<u8> {
    EncodeFields([RoomName], vals) + [unk] + EncodeFields(CreateFields(), vals)
  }

  function AskedFor(vals: Values): Values {
    map f: Field :: if f == RoomName || f in CreateFields() then vals[f] else DefaultOf(f)
  }

  lemma BothMerges(vals: Values)
    ensures MergeFields(CreateFields(), vals, MergeFields([RoomName], vals, Defaults)) == AskedFor(vals)
  {
    hide MergeFields;
    var named := MergeFields([RoomName], vals, Defaults);
    var asked := MergeFields(CreateFields(), vals, named);
    forall f: Field ensures asked[f] == AskedFor(vals)[f] {
      MergeFieldsAt([RoomName], vals, Defaults, f);
      MergeFieldsAt(CreateFields(), vals, named, f);
    }
  }

  /** The room that is created has the name and the eight fields of the request, the presets, and zeros elsewhere. */
  lemma CreateRoundTrip(pre: seq<u8>, vals: Values, unk: u8, post: seq<u8>)
    ensures CreateSettings(pre + CreateRequest(vals, unk) + post, |pre|) == WithPresets(AskedFor(vals))
  {
    hide DecodeFields, EncodeFields, MergeFields, WithPresets, CreateFields, ReadNum, CreateRequest, AskedFor, Requested;
    var buf, end := pre + CreateRequest(vals, unk) + post, |pre| + |EncodeFields([RoomName], vals)|;
    ReadName(pre, vals, unk, post);
    ReadRest(pre, vals, unk, post);
    BothMerges(vals);
    RequestedIs(buf, |pre|, MergeFields([RoomName], vals, Defaults), unk, end);
  }

  lemma RequestedIs(buf: seq<u8>, off: nat, named: Values, unk: nat, end: nat)
    requires off <= |buf| && end + 1 <= |buf|
    requires DecodeFields([RoomName], buf, off, Defaults) == (named, end) && ReadNum(buf, end, 1, true) == (unk, end + 1)
    ensures Requested(buf, off) == DecodeFields(CreateFields(), buf, end + 1, named).0
  {
    hide DecodeFields, CreateFields, ReadNum;
  }

  lemma ReadName(pre: seq<u8>, vals: Values, unk: u8, post: seq<u8>)
    ensures var buf, end := pre + CreateRequest(vals, unk) + post, |pre| + |EncodeFields([RoomName], vals)|;
            && DecodeFields([RoomName], buf, |pre|, Defaults) == (MergeFields([RoomName], vals, Defaults), end)
            && ReadNum(buf, end, 1, true) == (unk, end + 1)
  {
    hide DecodeFields, EncodeFields, MergeFields, CreateFields, ReadNum;
    var name, rest := EncodeFields([RoomName], vals), EncodeFields(CreateFields(), vals);
    CreateParts(pre, name, unk, rest, post);
    FieldsRoundTrip([RoomName], vals, pre, [unk] + rest + post, Defaults);
  }

  lemma ReadRest(pre: seq<u8>, vals: Values, unk: u8, post: seq<u8>)
    ensures var buf, end := pre + CreateRequest(vals, unk) + post, |pre| + |EncodeFields([RoomName], vals)|;
            var named := MergeFields([RoomName], vals, Defaults);
            DecodeFields(CreateFields(), buf, end + 1, named).0 == MergeFields(CreateFields(), vals, named)
  {
    hide DecodeFields, EncodeFields, MergeFields, CreateFields, ReadNum;
    var name, rest := EncodeFields([RoomName], vals), EncodeFields(CreateFields(), vals);
    CreateParts(pre, name, unk, rest, post);
    FieldsRoundTrip(CreateFields(), vals, pre + name + [unk], post, MergeFields([RoomName], vals, Defaults));
  }

  lemma CreateParts(pre: seq<u8>, name: seq<u8>, unk: u8, rest: seq<u8>, post: seq<u8>)
    ensures var buf := pre + (name + [unk] + rest) + post;
            && buf == pre + name + ([unk] + rest + post)
            && ReadNum(buf, |pre| + |name|, 1, true) == (unk, |pre| + |name| + 1)
            && buf == (pre + name + [unk]) + rest + post
  {
    assert EncodeNum(unk, 1, true) == [unk];
    var buf := pre + (name + [unk] + rest) + post;
    assert buf == (pre + name) + [unk] + (rest + post);
    assert Pow256(1) == 256;
    NumRoundTrip(pre + name, unk, 1, true, rest + post);
  }

  lemma {:induction false} OthersAreKept(fields: seq<Field>, buf: seq<u8>, off: nat, vals: Values, f: Field)
    requires off <= |buf| && f !in fields
    ensures DecodeFields(fields, buf, off, vals).0[f] == vals[f]
    decreases |fields|
  {
    hide DecodeField, KindOf;
    if fields != [] {
      var (v, end) := DecodeField(KindOf(fields[0]), buf, off);
      OthersAreKept(fields[1..], buf, end, vals[fields[0] := v], f);
    }
  }

  lemma NameFirst(buf: seq<u8>, off: nat)
    requires off <= |buf|
    ensures DecodeFields([RoomName], buf, off, Defaults).0[RoomName] == Text(ReadStr(buf, off).0)
  {
    assert [RoomName][1..] == [];
  }

  lemma OtherFields()
    ensures RoomName !in CreateFields()
  {
  }

  lemma NameIsRead(buf: seq<u8>, off: nat)
    requires off <= |buf|
    ensures CreateSettings(buf, off)[RoomName] == Text(ReadStr(buf, off).0)
  {
    hide DecodeFields, CreateFields;
    var (named, off1) := DecodeFields([RoomName], buf, off, Defaults);
    NameFirst(buf, off);
    OtherFields();
    OthersAreKept(CreateFields(), buf, ReadNum(buf, off1, 1, true).1, named, RoomName);
  }

  /** A CreateRoom packet with a room name of 65530 letters and nothing after it: it can be received, the room is
      created with that name, and whatever reply carries its settings is too long to be sent. */
  lemma OversizedCreateIsLost(r: Reply, copy: Values)
    requires r.vals == CreateSettings([ROOM_PACKET_ID, CREATE_ROOM] + (Letters(65530) + [0]), 2)
    ensures |[ROOM_PACKET_ID, CREATE_ROOM] + (Letters(65530) + [0])| < 0x1_0000
    ensures r.vals[RoomName] == Text(Letters(65530))
    ensures !Deliverable(ReplyBody(r)) && ClientJoin(copy, r) == copy
  {
    hide CreateSettings, ReplyBody, Deliverable, Letters, Flatten, Receive;
    var pre, name := [ROOM_PACKET_ID, CREATE_ROOM], Letters(65530);
    var buf := pre + (name + [0]);
    assert buf == pre + (name + [0]) + [];
    StrRoundTrip(pre, name, []);
    NameIsRead(buf, 2);
    ReplyDeliverableIff(r);
  }

  // ----- The join request -----

  /** The room id and the password that a JoinRoom packet carries from `off` on. */
  function JoinRequest(buf: seq<u8>, off: nat): (nat, seq<u8>)
    requires off <= |buf|
  {
    var (roomID, off1) := ReadNum(buf, off, 2, true);
    (roomID, ReadStr(buf, off1).0)
  }

  method ParseJoinRoom(packet: Packet) returns (roomID: nat, password: seq<u8>)
    requires packet.Valid()
    modifies packet`readOffset
    ensures packet.Valid()
    ensures (roomID, password) == JoinRequest(packet.buffer, old(packet.readOffset))
  {
    roomID := packet.ReadBytes(2, true);
    password := packet.ReadString();
  }

  lemma JoinRoundTrip(pre: seq<u8>, roomID: u16, password: seq<u8>, post: seq<u8>)
    requires 0 !in password
    ensures JoinRequest(pre + EncodeNum(roomID, 2, true) + (password + [0]) + post, |pre|) == (roomID, password)
  {
    var id := EncodeNum(roomID, 2, true);
    var buf := pre + id + (password + [0]) + post;
    assert buf == pre + id + ((password + [0]) + post);
    assert Pow256(2) == 0x1_0000;
    NumRoundTrip(pre, roomID, 2, true, (password + [0]) + post);
    StrRoundTrip(pre + id, password, post);
  }

  // ----- Building the packets -----

  method WriteAll(packet: Packet, bytes: seq<u8>)
    requires packet.Unsent() && packet.writeOffset == |packet.buffer|
    modifies packet`buffer, packet`writeOffset, packet`length
    ensures packet.Unsent() && packet.writeOffset == |packet.buffer|
    ensures packet.buffer == old(packet.buffer) + bytes
  {
    for i := 0 to |bytes|
      invariant packet.Unsent() && packet.writeOffset == |packet.buffer|
      invariant packet.buffer == old(packet.buffer) + bytes[..i]
    {
      packet.WriteUInt8(bytes[i]);
      assert bytes[..i + 1] == bytes[..i] + [bytes[i]];
    }
    assert bytes[..|bytes|] == bytes;
  }

  method WriteInfos(packet: Packet, infos: seq<seq<u8>>)
    requires packet.Unsent() && packet.writeOffset == |packet.buffer|
    modifies packet`buffer, packet`writeOffset, packet`length
    ensures packet.Unsent() && packet.writeOffset == |packet.buffer|
    ensures packet.buffer == old(packet.buffer) + Flatten(infos)
  {
    ghost var done: seq<u8> := [];
    for i := 0 to |infos|
      invariant packet.Unsent() && packet.writeOffset == |packet.buffer|
      invariant packet.buffer == old(packet.buffer) + done
      invariant done + Flatten(infos[i..]) == Flatten(infos)
    {
      assert infos[i..][0] == infos[i] && infos[i..][1..] == infos[i + 1..];
      WriteAll(packet, infos[i]);
      done := done + infos[i];
    }
    assert done + [] == done;
  }

  method BuildReplyUpdateRoomSettings(d: Settings) returns (packet: Packet)
    ensures fresh(packet) && packet.Unsent() && packet.buffer == DeltaBody(d)
  {
    hide Build;
    packet := new Packet([ROOM_PACKET_ID]);
    packet.WriteUInt8(REPLY_UPDATE_ROOM_SETTINGS);
    BuildRoomSettings(packet, d);
    assert packet.buffer == [ROOM_PACKET_ID] + [REPLY_UPDATE_ROOM_SETTINGS] + Build(d);
  }

  method BuildReplyCreateAndJoin(r: Reply) returns (packet: Packet)
    ensures fresh(packet) && packet.Unsent() && packet.buffer == ReplyBody(r)
  {
    hide Build, EncodeNum, Flatten;
    packet := new Packet([ROOM_PACKET_ID]);
    packet.WriteUInt8(REPLY_CREATE_AND_JOIN);
    packet.WriteBytes(r.hostID, 4, true);
    packet.WriteBytes(r.roomID, 2, true);
    packet.WriteUInt8(0);
    assert packet.buffer == ReplyPrefix(r);
    BuildRoomSettings(packet, FullSettings(r.vals));
    assert packet.buffer == ReplyPrefix(r) + Build(FullSettings(r.vals));
    packet.WriteUInt8(|r.infos| % 256);
    WriteInfos(packet, r.infos);
  }

  // ----- The packets byte by byte -----

  /** The nine bytes before the settings of a reply: packet 65, type 0, host and room with the low byte first, a zero. */
  lemma ReplyPrefixIs(r: Reply)
    requires r.roomID < 0x1_0000
    ensures var id := r.hostID;
            ReplyBody(r)
            == [65, 0, id % 256, id / 256 % 256, id / 256 / 256 % 256, id / 256 / 256 / 256, r.roomID % 256, r.roomID / 256, 0]
               + Build(FullSettings(r.vals)) + [|r.infos| % 256] + Flatten(r.infos)
  {
    hide Build, Flatten, LE;
    W.FourBytes(r.hostID);
    W.TwoBytesOf(r.roomID);
    Regroup(ReplyPrefix(r) + Build(FullSettings(r.vals)), [|r.infos| % 256], Flatten(r.infos), []);
  }

  lemma OnlyStateFlag(f: Field)
    ensures W.FlagSet(0x4000_0000, 0, f) <==> f == RoomState
  {
    hide W.FlagSet, Flagged;
    W.CarriesIff(StateDelta(0), f);
    StateFlagCarries(f);
  }

  /** The room-state delta that is broadcast: packet 65, type 4, the flag words 0x40000000 and 0, and the state. */
  lemma StateDeltaIs(state: u8)
    ensures DeltaBody(StateDelta(state)) == [65, 4, 0, 0, 0, 0x40, 0, state]
  {
    hide Build, W.FlaggedBytes, KindOf, EncodeField;
    var d := StateDelta(state);
    W.BuildIs(d);
    W.FieldBytes(RoomState, d.vals);
    StateBytes(d.vals);
  }

  lemma StateBytes(vals: Values)
    ensures W.FlaggedBytes(W.WireOrder(), 0x4000_0000, 0, vals) == EncodeField(KindOf(RoomState), vals[RoomState])
  {
    hide W.FlaggedBytes, EncodeField, KindOf, W.FlagSet, W.WireOrder;
    StateStands();
    forall f: Field ensures W.FlagSet(0x4000_0000, 0, f) <==> f == RoomState {
      OnlyStateFlag(f);
    }
    W.OneFlagged(W.WireOrder()[..33], RoomState, W.WireOrder()[34..], 0x4000_0000, 0, vals);
  }

  lemma StateStands()
    ensures |W.WireOrder()| == 59
    ensures W.WireOrder() == W.WireOrder()[..33] + [RoomState] + W.WireOrder()[34..]
    ensures RoomState !in W.WireOrder()[..33] && RoomState !in W.WireOrder()[34..]
  {
  }

  /** What a CreateRoom packet asks for. */
  datatype Request = Request(name: seq<u8>, maxPlayers: u8, mode: u8, map_: u8, wins: u8, kills: u16, time: u8, rounds: u8,
                             password: seq<u8>)
  {
    predicate Valid() {
      0 !in name && 0 !in password
    }

    function ValueOf(f: Field): (v: Value)
      requires Valid()
      ensures Fits(KindOf(f), v)
    {
      assert Pow256(1) == 256 && Pow256(2) == 0x1_0000;
      if f == RoomName then Text(name)
      else if f == Password then Text(password)
      else if f == MaxPlayers then Num(maxPlayers)
      else if f == GameModeID then Num(mode)
      else if f == MapID then Num(map_)
      else if f == WinLimit then Num(wins)
      else if f == KillLimit then Num(kills)
      else if f == TimeLimit then Num(time)
      else if f == RoundTime then Num(rounds)
      else DefaultOf(f)
    }

    function Values(): Values
      requires Valid()
    {
      map f: Field :: ValueOf(f)
    }

    /** The packet, with the byte that is ignored. */
    function Bytes(unk: u8): seq<u8> {
      (name + [0]) + [unk] + ([maxPlayers, mode, map_, wins, kills % 256, kills / 256, time, rounds] + (password + [0]))
    }
  }

  lemma NextField(fields: seq<Field>, vals: Values)
    ensures fields != [] ==>
              EncodeFields(fields, vals) == EncodeField(KindOf(fields[0]), vals[fields[0]]) + EncodeFields(fields[1..], vals)
    ensures fields == [] ==> EncodeFields(fields, vals) == []
  {
  }

  lemma RequestValues(q: Request)
    requires q.Valid()
    ensures var v := q.Values();
            && v[RoomName] == Text(q.name) && v[Password] == Text(q.password) && v[MaxPlayers] == Num(q.maxPlayers)
            && v[GameModeID] == Num(q.mode) && v[MapID] == Num(q.map_) && v[WinLimit] == Num(q.wins)
            && v[KillLimit] == Num(q.kills) && v[TimeLimit] == Num(q.time) && v[RoundTime] == Num(q.rounds)
  {
    hide KindOf, DefaultOf, Fits, q.Values, q.Valid;
    ValuesAt(q, RoomName);
    ValuesAt(q, Password);
    ValuesAt(q, MaxPlayers);
    ValuesAt(q, GameModeID);
    ValuesAt(q, MapID);
    ValuesAt(q, WinLimit);
    ValuesAt(q, KillLimit);
    ValuesAt(q, TimeLimit);
    ValuesAt(q, RoundTime);
  }

  lemma ValuesAt(q: Request, f: Field)
    requires q.Valid()
    ensures q.Values()[f] == q.ValueOf(f)
  {
    hide q.ValueOf;
  }

  lemma EightFields(vals: Values)
    ensures EncodeFields(CreateFields(), vals)
         == EncodeField(KindOf(MaxPlayers), vals[MaxPlayers]) + (EncodeField(KindOf(GameModeID), vals[GameModeID])
            + (EncodeField(KindOf(MapID), vals[MapID]) + (EncodeField(KindOf(WinLimit), vals[WinLimit])
            + (EncodeField(KindOf(KillLimit), vals[KillLimit]) + (EncodeField(KindOf(TimeLimit), vals[TimeLimit])
            + (EncodeField(KindOf(RoundTime), vals[RoundTime]) + EncodeField(KindOf(Password), vals[Password])))))))
  {
    hide EncodeFields, EncodeField, KindOf;
    var fields := CreateFields();
    NextField(fields, vals);
    NextField(fields[1..], vals);
    NextField(fields[2..], vals);
    NextField(fields[3..], vals);
    NextField(fields[4..], vals);
    NextField(fields[5..], vals);
    NextField(fields[6..], vals);
    NextField(fields[7..], vals);
    NextField(fields[8..], vals);
    assert fields[1..][1..] == fields[2..] && fields[2..][1..] == fields[3..] && fields[3..][1..] == fields[4..];
    assert fields[4..][1..] == fields[5..] && fields[5..][1..] == fields[6..] && fields[6..][1..] == fields[7..];
    assert fields[7..][1..] == fields[8..] == [];
    assert EncodeField(KindOf(Password), vals[Password]) + [] == EncodeField(KindOf(Password), vals[Password]);
  }

  lemma RequestBytes(q: Request, unk: u8)
    requires q.Valid()
    ensures CreateRequest(q.Values(), unk) == q.Bytes(unk)
  {
    hide EncodeFields, EncodeField, KindOf, CreateFields, q.Values;
    var vals := q.Values();
    RequestValues(q);
    W.JustOne(RoomName, vals);
    EightFields(vals);
    W.FieldBytes(RoomName, vals);
    W.FieldBytes(MaxPlayers, vals);
    W.FieldBytes(GameModeID, vals);
    W.FieldBytes(MapID, vals);
    W.FieldBytes(WinLimit, vals);
    W.FieldBytes(KillLimit, vals);
    W.FieldBytes(TimeLimit, vals);
    W.FieldBytes(RoundTime, vals);
    W.FieldBytes(Password, vals);
  }

  /** The room that a request makes, field by field: what it asks for, what the server presets, and nothing elsewhere. Modes
      0, 3, 6 and 7 have a freeze time; modes 1 and 4 have friendly fire. */
  lemma CreatedRoom(pre: seq<u8>, q: Request, unk: u8, post: seq<u8>, f: Field)
    requires q.Valid()
    ensures CreateSettings(pre + q.Bytes(unk) + post, |pre|)[f]
         == if f == RoomName then Text(q.name)
            else if f == Password then Text(q.password)
            else if f == MaxPlayers then Num(q.maxPlayers)
            else if f == GameModeID then Num(q.mode)
            else if f == MapID then Num(q.map_)
            else if f == WinLimit then Num(q.wins)
            else if f == KillLimit then Num(q.kills)
            else if f == TimeLimit then Num(q.time)
            else if f == RoundTime then Num(q.rounds)
            else if f == HostagePenalty then Num(3)
            else if f == FreezeTime then Num(if q.mode == 0 || q.mode == 3 || q.mode == 6 || q.mode == 7 then 6 else 0)
            else if f == BuyTime then Num(90)
            else if f == FriendlyFire then Num(if q.mode == 1 || q.mode == 4 then 1 else 0)
            else if f == NickNameDisplay || f == FlashLight || f == FootSteps || f == VoiceChat then Num(1)
            else if f == UnkH1_2 then Text([])
            else Num(0)
  {
    hide CreateSettings, CreateRequest, q.Bytes, WithPresets, AskedFor, KindOf, DefaultOf, Fits, q.Values;
    CreateRoundTrip(pre, q.Values(), unk, post);
    RequestBytes(q, unk);
    PresetAt(q, f);
    DefaultIs(f);
  }

  lemma DefaultIs(f: Field)
    ensures DefaultOf(f) == if f == RoomName || f == Password || f == UnkH1_2 then Text([]) else Num(0)
  {
  }

  lemma AskedAt(q: Request, f: Field)
    requires q.Valid()
    ensures AskedFor(q.Values())[f] == q.ValueOf(f)
  {
    hide KindOf, DefaultOf, Fits;
    ValuesAt(q, f);
  }

  lemma PresetAt(q: Request, f: Field)
    requires q.Valid()
    ensures WithPresets(AskedFor(q.Values()))[f] == Preset(f, Num(q.mode), q.ValueOf(f))
  {
    hide Preset, AskedFor, q.Values, KindOf, DefaultOf, Fits;
    AskedAt(q, f);
    AskedAt(q, GameModeID);
  }
}
