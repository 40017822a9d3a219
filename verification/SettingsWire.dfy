/** Room settings byte by byte: the order of the fields on the wire, the flag bit of each, and its bytes. */
module SettingsWire {
  import opened Bytes
  import opened Packets
  import opened SettingsCodec
  import opened SettingsReplication

  /** The fields in the order in which they are written and read. */
  function WireOrder(): seq<Field> {
    [RoomName, Unk2, Unk4_1, Unk4_2, Unk4_3, Unk4_4, Password, LevelLimit, Unk20, GameModeID, MapID, MaxPlayers]
    + ([WinLimit, KillLimit, TimeLimit, RoundTime, WeaponLimit, HostagePenalty, FreezeTime, BuyTime]
    + ([NickNameDisplay, Unk40000, Unk80000, FriendlyFire, FlashLight, FootSteps, Unk800000, Unk1000000]
    + ([Unk2000000, Unk4000000, Unk8000000, DeathCameraType, VoiceChat, RoomState]
    + [Unk80000000,
       Vec0_1, Vec0_2, Vec0_3, Vec0_4, Vec0_5, Vec0_6, Vec0_7, Vec0_8, Vec0_9,
       Vec1_1, Vec1_2, Vec1_3, Vec1_4, Vec1_5, Vec1_6, Vec1_7, Vec1_8, Vec1_9,
       UnkH1_1, UnkH1_2, UnkH1_3, UnkH1_4, UnkH1_5, UnkH2])))
  }

  // ----- Which flag carries a field -----

  lemma {:induction false} BitIs(flags: nat, k: nat)
    ensures Bit(flags, k) <==> flags / Pow2(k) % 2 == 1
  {
    if k > 0 {
      BitIs(flags / 2, k - 1);
      DivideTwice(flags, Pow2(k - 1));
    }
  }

  lemma EarlyGroup(k: nat, f: Field)
    requires k < 16 && f in GroupAt(k).fields
    ensures Position(f) == k
  {
  }

  lemma MiddleGroup(k: nat, f: Field)
    requires 16 <= k < 31 && f in GroupAt(k).fields
    ensures Position(f) == k
  {
  }

  lemma LateGroup(k: nat, f: Field)
    requires 32 <= k < GROUPS && f in GroupAt(k).fields
    ensures Position(f) == k
  {
  }

  lemma VectorGroup(f: Field)
    requires f in GroupAt(31).fields
    ensures Position(f) == 31
  {
    var fields := GroupAt(31).fields;
    var i :| 0 <= i < |fields| && fields[i] == f;
    if i < 10 { FirstVector(i); } else { SecondVector(i); }
  }

  lemma FirstVector(i: nat)
    requires i < 10
    ensures Position(GroupAt(31).fields[i]) == 31
  {
  }

  lemma SecondVector(i: nat)
    requires 10 <= i < 19
    ensures Position(GroupAt(31).fields[i]) == 31
  {
  }

  lemma GroupOf(k: nat, f: Field)
    requires k < GROUPS
    ensures f in GroupAt(k).fields <==> Position(f) == k
  {
    hide GroupAt, Position;
    EveryFieldIsInAGroup(f);
    if f in GroupAt(k).fields {
      if k < 16 { EarlyGroup(k, f); } else if k < 31 { MiddleGroup(k, f); } else if k == 31 { VectorGroup(f); } else { LateGroup(k, f); }
    }
  }

  /** Whether bit `Position(f)` of the low flag word is set, or bit `Position(f) - 32` of the high one. */
  predicate FlagSet(low: u32, high: u8, f: Field) {
    if Position(f) < 32 then low / Pow2(Position(f)) % 2 == 1 else high / Pow2(Position(f) - 32) % 2 == 1
  }

  lemma GroupIn(k: nat, low: u32, high: u8)
    requires k < GROUPS
    ensures GroupAt(k).In(low, high) <==> if k < 32 then low / Pow2(k) % 2 == 1 else high / Pow2(k - 32) % 2 == 1
  {
    hide GroupAt, Bit;
    GroupBits(k);
    if k < 32 { BitIs(low, k); } else { BitIs(high, k - 32); }
  }

  /** A delta carries a field exactly if the field's own bit is set. */
  lemma CarriesIff(d: Settings, f: Field)
    ensures Carries(d, f) <==> FlagSet(d.lowFlag, d.highFlag, f)
  {
    hide GroupAt, Bit, Position;
    var layout := Layout();
    GroupOf(Position(f), f);
    GroupIn(Position(f), d.lowFlag, d.highFlag);
    assert layout[Position(f)] == GroupAt(Position(f));
    if k :| 0 <= k < |layout| && layout[k].In(d.lowFlag, d.highFlag) && f in layout[k].fields {
      GroupOf(k, f);
    }
  }

  // ----- The order -----

  function WireFrom(k: nat): seq<Field>
    requires k <= GROUPS
    decreases GROUPS - k
  {
    if k == GROUPS then [] else GroupAt(k).fields + WireFrom(k + 1)
  }

  lemma WireStep(k: nat)
    requires k < GROUPS
    ensures WireFrom(k) == GroupAt(k).fields + WireFrom(k + 1)
  {
    hide GroupAt;
  }

  lemma SingleGroup(k: nat, f: Field)
    requires k < GROUPS && GroupAt(k).fields == [f]
    ensures WireFrom(k) == [f] + WireFrom(k + 1)
  {
    hide GroupAt;
    WireStep(k);
  }

  lemma EarlyFields()
    ensures GroupAt(0).fields == [RoomName] && GroupAt(1).fields == [Unk2]
    ensures GroupAt(2).fields == [Unk4_1, Unk4_2, Unk4_3, Unk4_4]
    ensures GroupAt(3).fields == [Password] && GroupAt(4).fields == [LevelLimit] && GroupAt(5).fields == [Unk20]
    ensures GroupAt(6).fields == [GameModeID] && GroupAt(7).fields == [MapID] && GroupAt(8).fields == [MaxPlayers]
  {
  }

  lemma WireTo9()
    ensures WireFrom(0)
         == [RoomName, Unk2, Unk4_1, Unk4_2, Unk4_3, Unk4_4, Password, LevelLimit, Unk20, GameModeID, MapID, MaxPlayers]
            + WireFrom(9)
  {
    hide GroupAt, WireFrom;
    EarlyFields();
    SingleGroup(8, MaxPlayers);
    SingleGroup(7, MapID);
    SingleGroup(6, GameModeID);
    SingleGroup(5, Unk20);
    SingleGroup(4, LevelLimit);
    SingleGroup(3, Password);
    WireStep(2);
    SingleGroup(1, Unk2);
    SingleGroup(0, RoomName);
  }

  lemma LimitFields()
    ensures GroupAt(9).fields == [WinLimit] && GroupAt(10).fields == [KillLimit] && GroupAt(11).fields == [TimeLimit]
    ensures GroupAt(12).fields == [RoundTime] && GroupAt(13).fields == [WeaponLimit] && GroupAt(14).fields == [HostagePenalty]
    ensures GroupAt(15).fields == [FreezeTime] && GroupAt(16).fields == [BuyTime]
  {
  }

  lemma WireTo17()
    ensures WireFrom(9)
         == [WinLimit, KillLimit, TimeLimit, RoundTime, WeaponLimit, HostagePenalty, FreezeTime, BuyTime] + WireFrom(17)
  {
    hide GroupAt, WireFrom;
    LimitFields();
    SingleGroup(16, BuyTime);
    SingleGroup(15, FreezeTime);
    SingleGroup(14, HostagePenalty);
    SingleGroup(13, WeaponLimit);
    SingleGroup(12, RoundTime);
    SingleGroup(11, TimeLimit);
    SingleGroup(10, KillLimit);
    SingleGroup(9, WinLimit);
  }

  lemma DisplayFields()
    ensures GroupAt(17).fields == [NickNameDisplay] && GroupAt(18).fields == [Unk40000] && GroupAt(19).fields == [Unk80000]
    ensures GroupAt(20).fields == [FriendlyFire] && GroupAt(21).fields == [FlashLight] && GroupAt(22).fields == [FootSteps]
    ensures GroupAt(23).fields == [Unk800000] && GroupAt(24).fields == [Unk1000000]
  {
  }

  lemma WireTo25()
    ensures WireFrom(17)
         == [NickNameDisplay, Unk40000, Unk80000, FriendlyFire, FlashLight, FootSteps, Unk800000, Unk1000000] + WireFrom(25)
  {
    hide GroupAt, WireFrom;
    DisplayFields();
    SingleGroup(24, Unk1000000);
    SingleGroup(23, Unk800000);
    SingleGroup(22, FootSteps);
    SingleGroup(21, FlashLight);
    SingleGroup(20, FriendlyFire);
    SingleGroup(19, Unk80000);
    SingleGroup(18, Unk40000);
    SingleGroup(17, NickNameDisplay);
  }

  lemma LateFields()
    ensures GroupAt(25).fields == [Unk2000000] && GroupAt(26).fields == [Unk4000000] && GroupAt(27).fields == [Unk8000000]
    ensures GroupAt(28).fields == [DeathCameraType] && GroupAt(29).fields == [VoiceChat] && GroupAt(30).fields == [RoomState]
    ensures GroupAt(31).fields
         == [Unk80000000, Vec0_1, Vec0_2, Vec0_3, Vec0_4, Vec0_5, Vec0_6, Vec0_7, Vec0_8, Vec0_9,
             Vec1_1, Vec1_2, Vec1_3, Vec1_4, Vec1_5, Vec1_6, Vec1_7, Vec1_8, Vec1_9]
    ensures GroupAt(32).fields == [UnkH1_1, UnkH1_2, UnkH1_3, UnkH1_4, UnkH1_5] && GroupAt(33).fields == [UnkH2]
  {
  }

  lemma WireTo31()
    ensures WireFrom(25)
         == [Unk2000000, Unk4000000, Unk8000000, DeathCameraType, VoiceChat, RoomState] + WireFrom(31)
  {
    hide GroupAt, WireFrom;
    LateFields();
    SingleGroup(30, RoomState);
    SingleGroup(29, VoiceChat);
    SingleGroup(28, DeathCameraType);
    SingleGroup(27, Unk8000000);
    SingleGroup(26, Unk4000000);
    SingleGroup(25, Unk2000000);
  }

  lemma WireTo34()
    ensures WireFrom(31)
         == [Unk80000000, Vec0_1, Vec0_2, Vec0_3, Vec0_4, Vec0_5, Vec0_6, Vec0_7, Vec0_8, Vec0_9,
             Vec1_1, Vec1_2, Vec1_3, Vec1_4, Vec1_5, Vec1_6, Vec1_7, Vec1_8, Vec1_9,
             UnkH1_1, UnkH1_2, UnkH1_3, UnkH1_4, UnkH1_5, UnkH2]
  {
    hide GroupAt, WireFrom;
    LateFields();
    WireEnds();
    SingleGroup(33, UnkH2);
    WireStep(32);
    WireStep(31);
  }

  lemma WireEnds()
    ensures WireFrom(GROUPS) == []
  {
  }

  lemma WireIs()
    ensures WireFrom(0) == WireOrder()
  {
    hide WireFrom;
    WireTo9();
    WireTo17();
    WireTo25();
    WireTo31();
    WireTo34();
  }

  /** The bytes of the fields whose bit is set, in order. */
  function FlaggedBytes(fields: seq<Field>, low: u32, high: u8, vals: Values): seq<u8> {
    if fields == [] then []
    else (if FlagSet(low, high, fields[0]) then EncodeField(KindOf(fields[0]), vals[fields[0]]) else [])
         + FlaggedBytes(fields[1..], low, high, vals)
  }

  lemma {:induction false} FlaggedAppend(a: seq<Field>, b: seq<Field>, low: u32, high: u8, vals: Values)
    ensures FlaggedBytes(a + b, low, high, vals) == FlaggedBytes(a, low, high, vals) + FlaggedBytes(b, low, high, vals)
  {
    hide FlagSet, EncodeField, KindOf;
    if a == [] {
      assert a + b == b;
    } else {
      FlaggedAppend(a[1..], b, low, high, vals);
      assert (a + b)[1..] == a[1..] + b;
    }
  }

  lemma {:induction false} OneGroupsBytes(fields: seq<Field>, low: u32, high: u8, vals: Values, on: bool)
    requires forall f :: f in fields ==> (FlagSet(low, high, f) <==> on)
    ensures FlaggedBytes(fields, low, high, vals) == if on then EncodeFields(fields, vals) else []
  {
    hide FlagSet, EncodeField, KindOf;
    if fields != [] {
      assert fields[0] in fields;
      OneGroupsBytes(fields[1..], low, high, vals, on);
    }
  }

  /** With the bit of one field set, its bytes are all there is. */
  lemma OneFlagged(a: seq<Field>, f: Field, b: seq<Field>, low: u32, high: u8, vals: Values)
    requires f !in a && f !in b && forall g: Field :: FlagSet(low, high, g) <==> g == f
    ensures FlaggedBytes(a + [f] + b, low, high, vals) == EncodeField(KindOf(f), vals[f])
  {
    hide FlagSet, EncodeField, KindOf, FlaggedBytes;
    FlaggedAppend(a + [f], b, low, high, vals);
    FlaggedAppend(a, [f], low, high, vals);
    OneGroupsBytes(a, low, high, vals, false);
    OneGroupsBytes(b, low, high, vals, false);
    OneGroupsBytes([f], low, high, vals, true);
    JustOne(f, vals);
  }

  lemma JustOne(f: Field, vals: Values)
    ensures EncodeFields([f], vals) == EncodeField(KindOf(f), vals[f])
  {
    hide EncodeField, KindOf;
    assert EncodeFields([f][1..], vals) == [];
  }

  lemma {:induction false} GroupsAreFlagged(k: nat, low: u32, high: u8, vals: Values)
    requires k <= GROUPS
    ensures EncodeGroups(Layout()[k..], low, high, vals) == FlaggedBytes(WireFrom(k), low, high, vals)
    decreases GROUPS - k
  {
    hide GroupAt, Bit, EncodeFields, FlaggedBytes, Position;
    if k == GROUPS {
      NoFields(low, high, vals);
    } else {
      var rest, g := Layout()[k..], GroupAt(k);
      assert rest[0] == g && rest[1..] == Layout()[k + 1..];
      GroupIn(k, low, high);
      forall f | f in g.fields ensures FlagSet(low, high, f) <==> g.In(low, high) {
        GroupOf(k, f);
      }
      OneGroupsBytes(g.fields, low, high, vals, g.In(low, high));
      GroupsAreFlagged(k + 1, low, high, vals);
      WireStep(k);
      FlaggedAppend(g.fields, WireFrom(k + 1), low, high, vals);
    }
  }

  lemma NoFields(low: u32, high: u8, vals: Values)
    ensures FlaggedBytes([], low, high, vals) == []
  {
  }

  /** Built settings are the two flag words, the low one first and low byte first, and then the flagged fields in wire order. */
  lemma BuildIs(d: Settings)
    ensures var low := d.lowFlag;
            Build(d) == [low % 256, low / 256 % 256, low / 256 / 256 % 256, low / 256 / 256 / 256, d.highFlag]
                        + FlaggedBytes(WireOrder(), low, d.highFlag, d.vals)
  {
    hide GroupAt, Bit, EncodeGroups, FlaggedBytes, LE;
    var low := d.lowFlag;
    assert Layout()[0..] == Layout();
    GroupsAreFlagged(0, low, d.highFlag, d.vals);
    WireIs();
    FourBytes(low);
  }

  lemma FourBytes(n: u32)
    ensures LE(n, 4) == [n % 256, n / 256 % 256, n / 256 / 256 % 256, n / 256 / 256 / 256]
  {
    var n1, n2, n3 := n / 256, n / 256 / 256, n / 256 / 256 / 256;
    assert LE(n, 4) == [n % 256] + LE(n1, 3);
    assert LE(n1, 3) == [n1 % 256] + LE(n2, 2);
    assert LE(n2, 2) == [n2 % 256] + LE(n3, 1);
    assert LE(n3, 1) == [n3];
  }

  lemma TwoBytesOf(n: u16)
    ensures LE(n, 2) == [n % 256, n / 256]
  {
    ByteOrder(n % 256, n / 256, 0, 0);
  }

  // ----- The bytes of a field -----

  predicate IsText(f: Field) {
    f in {RoomName, Password, UnkH1_2}
  }

  predicate IsTwoBytes(f: Field) {
    f in {KillLimit, Vec0_7, Vec1_7}
  }

  predicate IsFourBytes(f: Field) {
    f in {Unk4_4, Vec0_1, Vec0_2, Vec1_1, Vec1_2, UnkH1_1}
  }

  /** Three fields are strings with a terminator, three take two bytes and six take four, low byte first; the rest one byte. */
  lemma FieldBytes(f: Field, vals: Values)
    ensures var bytes, v := EncodeField(KindOf(f), vals[f]), vals[f];
            if IsText(f) then v.Text? && bytes == v.s + [0]
            else if IsTwoBytes(f) then v.Num? && v.n < 0x1_0000 && bytes == [v.n % 256, v.n / 256]
            else if IsFourBytes(f) then
              && v.Num? && v.n < 0x1_0000_0000
              && bytes == [v.n % 256, v.n / 256 % 256, v.n / 256 / 256 % 256, v.n / 256 / 256 / 256]
            else v.Num? && v.n < 256 && bytes == [v.n]
  {
    var v := vals[f];
    assert Fits(KindOf(f), v);
    assert Pow256(1) == 256 && Pow256(2) == 0x1_0000 && Pow256(4) == 0x1_0000_0000 by { assert Pow256(2) == 0x1_0000; }
    KindIs(f);
    hide KindOf, IsText, IsTwoBytes, IsFourBytes, LE;
    if KindOf(f) == UInt16 {
      TwoBytesOf(v.n);
    } else if KindOf(f) == UInt32 {
      FourBytes(v.n);
    } else if KindOf(f) != Str {
      OneByteOf(v.n);
    }
  }

  lemma OneByteOf(n: u8)
    ensures LE(n, 1) == [n]
  {
  }

  lemma KindIs(f: Field)
    ensures KindOf(f) == Str <==> IsText(f)
    ensures KindOf(f) == UInt16 <==> IsTwoBytes(f)
    ensures KindOf(f) == UInt32 <==> IsFourBytes(f)
    ensures KindOf(f) == Bool <==> f in {FriendlyFire, FlashLight, FootSteps, VoiceChat}
  {
  }
}
