/** Round trips of room settings, and clients whose copy of the settings follows the server's. */
module SettingsReplication {
  import opened Bytes
  import opened Packets
  import opened SettingsCodec

  /** Whether the flags of a delta carry the field. */
  predicate Flagged(layout: seq<Group>, low: u32, high: u8, f: Field) {
    exists k :: 0 <= k < |layout| && layout[k].In(low, high) && f in layout[k].fields
  }

  predicate Carries(d: Settings, f: Field) {
    Flagged(Layout(), d.lowFlag, d.highFlag, f)
  }

  /** `into` with every flagged field replaced from `vals`. */
  function MergeFields(fields: seq<Field>, vals: Values, into: Values): Values
    decreases |fields|
  {
    if fields == [] then into else MergeFields(fields[1..], vals, into[fields[0] := vals[fields[0]]])
  }

  function MergeGroups(layout: seq<Group>, low: u32, high: u8, vals: Values, into: Values): Values
    decreases |layout|
  {
    if layout == [] then into
    else MergeGroups(layout[1..], low, high, vals,
                     if layout[0].In(low, high) then MergeFields(layout[0].fields, vals, into) else into)
  }

  /** What a room's settings become when it takes over the flagged fields of `d`. */
  function Update(vals: Values, d: Settings): Values {
    MergeGroups(Layout(), d.lowFlag, d.highFlag, d.vals, vals)
  }

  method UpdateRoomSettings(vals: Values, d: Settings) returns (r: Values)
    ensures r == Update(vals, d)
    ensures forall f: Field :: r[f] == if Carries(d, f) then d.vals[f] else vals[f]
  {
    r := UpdateGroups(Layout(), d.lowFlag, d.highFlag, d.vals, vals);
    forall f: Field ensures r[f] == if Carries(d, f) then d.vals[f] else vals[f] {
      UpdateAt(vals, d, f);
    }
  }

  method UpdateGroups(layout: seq<Group>, low: u32, high: u8, vals: Values, into: Values) returns (r: Values)
    ensures r == MergeGroups(layout, low, high, vals, into)
  {
    r := into;
    for k := 0 to |layout|
      invariant MergeGroups(layout, low, high, vals, into) == MergeGroups(layout[k..], low, high, vals, r)
    {
      assert layout[k..][0] == layout[k] && layout[k..][1..] == layout[k + 1..];
      if layout[k].In(low, high) {
        r := CopyFields(layout[k].fields, vals, r);
      }
    }
  }

  method CopyFields(fields: seq<Field>, vals: Values, into: Values) returns (r: Values)
    ensures r == MergeFields(fields, vals, into)
  {
    r := into;
    for i := 0 to |fields|
      invariant MergeFields(fields, vals, into) == MergeFields(fields[i..], vals, r)
    {
      assert fields[i..][0] == fields[i] && fields[i..][1..] == fields[i + 1..];
      r := r[fields[i] := vals[fields[i]]];
    }
  }

  // ----- What a merge does to one field -----

  lemma {:induction false} MergeFieldsAt(fields: seq<Field>, vals: Values, into: Values, f: Field)
    ensures MergeFields(fields, vals, into)[f] == if f in fields then vals[f] else into[f]
    decreases |fields|
  {
    if fields != [] {
      MergeFieldsAt(fields[1..], vals, into[fields[0] := vals[fields[0]]], f);
      assert fields == [fields[0]] + fields[1..];
    }
  }

  lemma {:induction false} MergeGroupsAt(layout: seq<Group>, low: u32, high: u8, vals: Values, into: Values, f: Field)
    ensures MergeGroups(layout, low, high, vals, into)[f]
         == if Flagged(layout, low, high, f) then vals[f] else into[f]
    decreases |layout|
  {
    if layout != [] {
      var g, tail := layout[0], layout[1..];
      var next := if g.In(low, high) then MergeFields(g.fields, vals, into) else into;
      MergeFieldsAt(g.fields, vals, into, f);
      MergeGroupsAt(tail, low, high, vals, next, f);
      FlaggedSplit(layout, low, high, f);
    }
  }

  lemma FlaggedSplit(layout: seq<Group>, low: u32, high: u8, f: Field)
    requires layout != []
    ensures Flagged(layout, low, high, f)
       <==> (layout[0].In(low, high) && f in layout[0].fields) || Flagged(layout[1..], low, high, f)
  {
    hide Bit;
    var g := layout[0];
    if Flagged(layout[1..], low, high, f) {
      var k :| 0 <= k < |layout[1..]| && layout[1..][k].In(low, high) && f in layout[1..][k].fields;
      assert layout[k + 1] == layout[1..][k];
    }
    if Flagged(layout, low, high, f) {
      var k :| 0 <= k < |layout| && layout[k].In(low, high) && f in layout[k].fields;
      if k > 0 { assert layout[1..][k - 1] == layout[k]; }
    }
  }

  lemma UpdateAt(vals: Values, d: Settings, f: Field)
    ensures Update(vals, d)[f] == if Carries(d, f) then d.vals[f] else vals[f]
  {
    MergeGroupsAt(Layout(), d.lowFlag, d.highFlag, d.vals, vals, f);
  }

  // ----- Parsing what was built -----

  lemma FieldRoundTrip(k: Kind, v: Value, pre: seq<u8>, post: seq<u8>)
    requires Fits(k, v)
    ensures DecodeField(k, pre + EncodeField(k, v) + post, |pre|) == (v, |pre| + |EncodeField(k, v)|)
  {
    if k == Str {
      StrRoundTrip(pre, v.s, post);
    } else {
      if k == Bool { assert Pow256(1) == 256; }
      NumRoundTrip(pre, v.n, SizeOf(k), true, post);
    }
  }

  lemma Regroup(pre: seq<u8>, a: seq<u8>, b: seq<u8>, post: seq<u8>)
    ensures pre + (a + b) + post == pre + a + (b + post)
    ensures pre + (a + b) + post == (pre + a) + b + post
  {
  }

  lemma ReadOneField(fields: seq<Field>, vals: Values, pre: seq<u8>, post: seq<u8>, acc: Values)
    requires fields != []
    ensures var f := fields[0];
            var head, tail := EncodeField(KindOf(f), vals[f]), EncodeFields(fields[1..], vals);
            DecodeFields(fields, pre + EncodeFields(fields, vals) + post, |pre|, acc)
            == DecodeFields(fields[1..], (pre + head) + tail + post, |pre + head|, acc[f := vals[f]])
  {
    var f := fields[0];
    var head, tail := EncodeField(KindOf(f), vals[f]), EncodeFields(fields[1..], vals);
    Regroup(pre, head, tail, post);
    FieldRoundTrip(KindOf(f), vals[f], pre, tail + post);
  }

  lemma {:induction false} FieldsRoundTrip(fields: seq<Field>, vals: Values, pre: seq<u8>, post: seq<u8>, acc: Values)
    ensures DecodeFields(fields, pre + EncodeFields(fields, vals) + post, |pre|, acc)
         == (MergeFields(fields, vals, acc), |pre| + |EncodeFields(fields, vals)|)
    decreases |fields|
  {
    hide KindOf, EncodeField, DecodeField;
    if fields != [] {
      var f := fields[0];
      ReadOneField(fields, vals, pre, post, acc);
      FieldsRoundTrip(fields[1..], vals, pre + EncodeField(KindOf(f), vals[f]), post, acc[f := vals[f]]);
    }
  }

  lemma ReadOneGroup(layout: seq<Group>, low: u32, high: u8, vals: Values, pre: seq<u8>, post: seq<u8>, acc: Values)
    requires layout != [] && layout[0].In(low, high)
    ensures var g := layout[0];
            var head, tail := EncodeFields(g.fields, vals), EncodeGroups(layout[1..], low, high, vals);
            DecodeGroups(layout, low, high, pre + EncodeGroups(layout, low, high, vals) + post, |pre|, acc)
            == DecodeGroups(layout[1..], low, high, (pre + head) + tail + post, |pre + head|,
                            MergeFields(g.fields, vals, acc))
  {
    var g := layout[0];
    var head, tail := EncodeFields(g.fields, vals), EncodeGroups(layout[1..], low, high, vals);
    Regroup(pre, head, tail, post);
    FieldsRoundTrip(g.fields, vals, pre, tail + post, acc);
  }

  lemma {:induction false} GroupsRoundTrip(layout: seq<Group>, low: u32, high: u8, vals: Values,
                                           pre: seq<u8>, post: seq<u8>, acc: Values)
    ensures DecodeGroups(layout, low, high, pre + EncodeGroups(layout, low, high, vals) + post, |pre|, acc)
         == (MergeGroups(layout, low, high, vals, acc), |pre| + |EncodeGroups(layout, low, high, vals)|)
    decreases |layout|
  {
    if layout == [] {
    } else if layout[0].In(low, high) {
      var fields := layout[0].fields;
      ReadOneGroup(layout, low, high, vals, pre, post, acc);
      GroupsRoundTrip(layout[1..], low, high, vals, pre + EncodeFields(fields, vals), post, MergeFields(fields, vals, acc));
    } else {
      assert EncodeGroups(layout, low, high, vals) == EncodeGroups(layout[1..], low, high, vals);
      GroupsRoundTrip(layout[1..], low, high, vals, pre, post, acc);
    }
  }

  /** Parsing built settings, anywhere in a buffer, consumes exactly the built bytes and returns
      the flags, the flagged fields, and defaults elsewhere. */
  lemma SettingsRoundTrip(pre: seq<u8>, s: Settings, post: seq<u8>)
    ensures var (r, end) := Parse(pre + Build(s) + post, |pre|);
            && end == |pre| + |Build(s)|
            && r.lowFlag == s.lowFlag && r.highFlag == s.highFlag
            && r.vals == Update(Defaults, s)
            && forall f: Field :: r.vals[f] == if Carries(s, f) then s.vals[f] else DefaultOf(f)
  {
    var low, high := EncodeNum(s.lowFlag, 4, true), [s.highFlag];
    var groups := EncodeGroups(Layout(), s.lowFlag, s.highFlag, s.vals);
    var whole := pre + Build(s) + post;
    assert Pow256(4) == 0x1_0000_0000 && Pow256(1) == 256 by { assert Pow256(2) == 0x1_0000; }
    assert whole == pre + low + (high + groups + post);
    NumRoundTrip(pre, s.lowFlag, 4, true, high + groups + post);
    assert EncodeNum(s.highFlag, 1, true) == high;
    assert whole == (pre + low) + high + (groups + post);
    NumRoundTrip(pre + low, s.highFlag, 1, true, groups + post);
    assert whole == (pre + low + high) + groups + post;
    GroupsRoundTrip(Layout(), s.lowFlag, s.highFlag, s.vals, pre + low + high, post, Defaults);
    forall f: Field ensures Update(Defaults, s)[f] == if Carries(s, f) then s.vals[f] else DefaultOf(f) {
      UpdateAt(Defaults, s, f);
    }
  }

  // ----- Replication -----

  /** A client takes the settings that start at `off` in a message: it parses them and merges the flagged fields into its copy. */
  function Receive(mirror: Values, message: seq<u8>, off: nat): Values
    requires off <= |message|
  {
    Update(mirror, Parse(message, off).0)
  }

  /** Settings received anywhere in a message act as the settings that were sent, whatever the copy was before. */
  lemma DeltaReplicates(mirror: Values, pre: seq<u8>, d: Settings, post: seq<u8>)
    ensures Receive(mirror, pre + Build(d) + post, |pre|) == Update(mirror, d)
  {
    hide Build, Parse;
    SettingsRoundTrip(pre, d, post);
    var r := Parse(pre + Build(d) + post, |pre|).0;
    forall f: Field ensures Update(mirror, r)[f] == Update(mirror, d)[f] {
      UpdateAt(mirror, r, f);
      UpdateAt(mirror, d, f);
    }
    assert Update(mirror, r) == Update(mirror, d);
  }

  function Position(f: Field): (k: nat)
    ensures k < 34
  {
    match f
    case RoomName => 0
    case Unk2 => 1
    case Unk4_1 | Unk4_2 | Unk4_3 | Unk4_4 => 2
    case Password => 3
    case LevelLimit => 4
    case Unk20 => 5
    case GameModeID => 6
    case MapID => 7
    case MaxPlayers => 8
    case WinLimit => 9
    case KillLimit => 10
    case TimeLimit => 11
    case RoundTime => 12
    case WeaponLimit => 13
    case HostagePenalty => 14
    case FreezeTime => 15
    case BuyTime => 16
    case NickNameDisplay => 17
    case Unk40000 => 18
    case Unk80000 => 19
    case FriendlyFire => 20
    case FlashLight => 21
    case FootSteps => 22
    case Unk800000 => 23
    case Unk1000000 => 24
    case Unk2000000 => 25
    case Unk4000000 => 26
    case Unk8000000 => 27
    case DeathCameraType => 28
    case VoiceChat => 29
    case RoomState => 30
    case UnkH1_1 | UnkH1_2 | UnkH1_3 | UnkH1_4 | UnkH1_5 => 32
    case UnkH2 => 33
    case _ => 31
  }

  lemma EarlyField(f: Field)
    requires Position(f) < 16
    ensures f in GroupAt(Position(f)).fields
  {
  }

  lemma MiddleField(f: Field)
    requires 16 <= Position(f) < 31
    ensures f in GroupAt(Position(f)).fields
  {
  }

  lemma LateField(f: Field)
    requires 31 <= Position(f)
    ensures f in GroupAt(Position(f)).fields
  {
  }

  lemma EveryFieldIsInAGroup(f: Field)
    ensures f in Layout()[Position(f)].fields
  {
    hide GroupAt, Position;
    if Position(f) < 16 {
      EarlyField(f);
    } else if Position(f) < 31 {
      MiddleField(f);
    } else {
      LateField(f);
    }
  }

  lemma {:induction false} BitOfAllOnes(n: nat, k: nat)
    requires k < n
    ensures Bit(Pow2(n) - 1, k)
  {
    if k > 0 {
      BitOfAllOnes(n - 1, k - 1);
      assert (Pow2(n) - 1) / 2 == Pow2(n - 1) - 1;
    }
  }

  lemma {:induction false} BitOfZero(k: nat)
    ensures !Bit(0, k)
  {
    if k > 0 {
      BitOfZero(k - 1);
    }
  }

  lemma {:induction false} BitOfPow2(n: nat, k: nat)
    ensures Bit(Pow2(n), k) <==> k == n
  {
    if n == 0 && k > 0 {
      BitOfZero(k - 1);
    } else if n > 0 && k > 0 {
      BitOfPow2(n - 1, k - 1);
    }
  }

  lemma FlagConstants()
    ensures Pow2(32) - 1 == LFLAG_ALL && Pow2(8) - 1 == HFLAG_ALL && Pow2(30) == LFLAG_ROOMSTATE
  {
    assert Pow2(8) == 256 by { assert Pow2(4) == 16; }
    assert Pow2(16) == 0x1_0000 by { assert Pow2(12) == 0x1000; }
    assert Pow2(24) == 0x100_0000 by { assert Pow2(20) == 0x10_0000; }
    assert Pow2(30) == 0x4000_0000 by { assert Pow2(28) == 0x1000_0000; }
  }

  lemma GroupBits(k: nat)
    requires k < GROUPS
    ensures if k < 32 then GroupAt(k).Low? && GroupAt(k).bit == k else GroupAt(k).High? && GroupAt(k).bit == k - 32
  {
  }

  lemma AllFlagsCarry(f: Field, vals: Values)
    ensures Carries(Settings(LFLAG_ALL, HFLAG_ALL, vals), f)
  {
    var k := Position(f);
    EveryFieldIsInAGroup(f);
    FlagConstants();
    GroupBits(k);
    if k < 32 { BitOfAllOnes(32, k); } else { BitOfAllOnes(8, k - 32); }
    assert Layout()[k].In(LFLAG_ALL, HFLAG_ALL);
  }

  /** Settings with every flag set. */
  function FullSettings(vals: Values): Settings {
    Settings(LFLAG_ALL, HFLAG_ALL, vals)
  }

  /** They overwrite every field of a copy. */
  lemma FullReplicates(mirror: Values, pre: seq<u8>, vals: Values, post: seq<u8>)
    ensures Receive(mirror, pre + Build(FullSettings(vals)) + post, |pre|) == vals
  {
    hide Receive, Update, Build, Carries;
    var full := FullSettings(vals);
    DeltaReplicates(mirror, pre, full, post);
    forall f: Field ensures Update(mirror, full)[f] == vals[f] {
      AllFlagsCarry(f, vals);
      UpdateAt(mirror, full, f);
    }
    assert Update(mirror, full) == vals;
  }

  function StateDelta(state: u8): Settings {
    assert Pow256(1) == 256;
    Settings(LFLAG_ROOMSTATE, 0, Defaults[RoomState := Num(state)])
  }

  /** With one bit of lowFlag set, one group is written. */
  lemma OneGroup(n: nat, flag: u32, k: nat)
    requires n < 32 && flag == Pow2(n) && k < GROUPS
    ensures Layout()[k].In(flag, 0) <==> k == n
  {
    hide GroupAt;
    GroupBits(k);
    if k < 32 { BitOfPow2(n, k); } else { BitOfZero(k - 32); }
  }

  lemma OneField(n: nat, flag: u32, f: Field, g: Field)
    requires n < 32 && flag == Pow2(n) && GroupAt(n).fields == [f]
    ensures Flagged(Layout(), flag, 0, g) <==> g == f
  {
    hide GroupAt, Bit;
    var layout := Layout();
    OneGroup(n, flag, n);
    forall k | 0 <= k < |layout| && layout[k].In(flag, 0) ensures layout[k].fields == [f] {
      OneGroup(n, flag, k);
    }
  }

  lemma StateFlagCarries(f: Field)
    ensures Flagged(Layout(), LFLAG_ROOMSTATE, 0, f) <==> f == RoomState
  {
    hide Flagged, Bit;
    FlagConstants();
    assert GroupAt(30).fields == [RoomState];
    OneField(30, LFLAG_ROOMSTATE, RoomState, f);
  }

  /** A room-state delta changes the room state and no other field. */
  lemma StateDeltaChanges(vals: Values, state: u8, f: Field)
    ensures Update(vals, StateDelta(state))[f] == if f == RoomState then Num(state) else vals[f]
  {
    StateFlagCarries(f);
    UpdateAt(vals, StateDelta(state), f);
  }
}
