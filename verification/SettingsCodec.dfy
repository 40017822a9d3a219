/** Room settings: which flag bit carries which fields, in wire order; writing, reading and merging them. */
module SettingsCodec {
  import opened Bytes
  import opened Packets

  datatype Field =
    | RoomName | Unk2 | Unk4_1 | Unk4_2 | Unk4_3 | Unk4_4 | Password | LevelLimit | Unk20 | GameModeID | MapID
    | MaxPlayers | WinLimit | KillLimit | TimeLimit | RoundTime | WeaponLimit | HostagePenalty | FreezeTime
    | BuyTime | NickNameDisplay | Unk40000 | Unk80000 | FriendlyFire | FlashLight | FootSteps | Unk800000
    | Unk1000000 | Unk2000000 | Unk4000000 | Unk8000000 | DeathCameraType | VoiceChat | RoomState | Unk80000000
    | Vec0_1 | Vec0_2 | Vec0_3 | Vec0_4 | Vec0_5 | Vec0_6 | Vec0_7 | Vec0_8 | Vec0_9
    | Vec1_1 | Vec1_2 | Vec1_3 | Vec1_4 | Vec1_5 | Vec1_6 | Vec1_7 | Vec1_8 | Vec1_9
    | UnkH1_1 | UnkH1_2 | UnkH1_3 | UnkH1_4 | UnkH1_5 | UnkH2

  datatype Kind = UInt8 | UInt16 | UInt32 | Bool | Str

  datatype Value = Num(n: nat) | Text(s: seq<u8>)

  function KindOf(f: Field): Kind {
    if f.RoomName? || f.Password? || f.UnkH1_2? then Str
    else if f.KillLimit? || f.Vec0_7? || f.Vec1_7? then UInt16
    else if f.Unk4_4? || f.Vec0_1? || f.Vec0_2? || f.Vec1_1? || f.Vec1_2? || f.UnkH1_1? then UInt32
    else if f.FriendlyFire? || f.FlashLight? || f.FootSteps? || f.VoiceChat? then Bool
    else UInt8
  }

  function SizeOf(k: Kind): nat {
    match k
    case UInt16 => 2
    case UInt32 => 4
    case _ => 1
  }

  predicate Fits(k: Kind, v: Value) {
    match k
    case Str => v.Text? && 0 !in v.s
    case Bool => v.Num? && v.n < 2
    case _ => v.Num? && v.n < Pow256(SizeOf(k))
  }

  function DefaultOf(f: Field): (v: Value)
    ensures Fits(KindOf(f), v)
  {
    if KindOf(f) == Str then Text([]) else Num(0)
  }

  /** One value of the right kind for every field. */
  predicate IsValues(m: map<Field, Value>) {
    forall f: Field :: f in m && Fits(KindOf(f), m[f])
  }

  type Values = m: map<Field, Value> | IsValues(m) witness (map f: Field :: DefaultOf(f))

  const Defaults: Values := map f: Field :: DefaultOf(f)

  datatype Settings = Settings(lowFlag: u32, highFlag: u8, vals: Values)

  const LFLAG_ALL: u32 := 0xFFFF_FFFF
  const HFLAG_ALL: u8 := 0xFF
  const LFLAG_ROOMSTATE: u32 := 0x4000_0000

  /** Whether `flags & (1 << k)` is non-zero. */
  predicate Bit(flags: nat, k: nat) {
    if k == 0 then flags % 2 == 1 else Bit(flags / 2, k - 1)
  }

  /** Fields that travel together, guarded by one bit of lowFlag or of highFlag. */
  datatype Group = Low(bit: nat, fields: seq<Field>) | High(bit: nat, fields: seq<Field>) {
    predicate In(lowFlag: u32, highFlag: u8) {
      Bit(if Low? then lowFlag else highFlag, bit)
    }
  }

  const GROUPS := 34

  /** The flag bit and the fields of the k-th group on the wire. */
  function GroupAt(k: nat): Group
    requires k < GROUPS
  {
    match k
    case 0 => Low(0, [RoomName])
    case 1 => Low(1, [Unk2])
    case 2 => Low(2, [Unk4_1, Unk4_2, Unk4_3, Unk4_4])
    case 3 => Low(3, [Password])
    case 4 => Low(4, [LevelLimit])
    case 5 => Low(5, [Unk20])
    case 6 => Low(6, [GameModeID])
    case 7 => Low(7, [MapID])
    case 8 => Low(8, [MaxPlayers])
    case 9 => Low(9, [WinLimit])
    case 10 => Low(10, [KillLimit])
    case 11 => Low(11, [TimeLimit])
    case 12 => Low(12, [RoundTime])
    case 13 => Low(13, [WeaponLimit])
    case 14 => Low(14, [HostagePenalty])
    case 15 => Low(15, [FreezeTime])
    case 16 => Low(16, [BuyTime])
    case 17 => Low(17, [NickNameDisplay])
    case 18 => Low(18, [Unk40000])
    case 19 => Low(19, [Unk80000])
    case 20 => Low(20, [FriendlyFire])
    case 21 => Low(21, [FlashLight])
    case 22 => Low(22, [FootSteps])
    case 23 => Low(23, [Unk800000])
    case 24 => Low(24, [Unk1000000])
    case 25 => Low(25, [Unk2000000])
    case 26 => Low(26, [Unk4000000])
    case 27 => Low(27, [Unk8000000])
    case 28 => Low(28, [DeathCameraType])
    case 29 => Low(29, [VoiceChat])
    case 30 => Low(30, [RoomState])
    case 31 => Low(31, [Unk80000000,
                    Vec0_1, Vec0_2, Vec0_3, Vec0_4, Vec0_5, Vec0_6, Vec0_7, Vec0_8, Vec0_9,
                    Vec1_1, Vec1_2, Vec1_3, Vec1_4, Vec1_5, Vec1_6, Vec1_7, Vec1_8, Vec1_9])
    case 32 => High(0, [UnkH1_1, UnkH1_2, UnkH1_3, UnkH1_4, UnkH1_5])
    case _ => High(1, [UnkH2])
  }

  function Layout(): (layout: seq<Group>)
    ensures |layout| == GROUPS
    ensures forall k :: 0 <= k < GROUPS ==> layout[k] == GroupAt(k)
  {
    seq(GROUPS, k requires 0 <= k < GROUPS => GroupAt(k))
  }

  // ----- Writing -----

  function EncodeField(k: Kind, v: Value): seq<u8>
    requires Fits(k, v)
  {
    if k == Str then v.s + [0] else EncodeNum(v.n, SizeOf(k), true)
  }

  function EncodeFields(fields: seq<Field>, vals: Values): seq<u8> {
    if fields == [] then []
    else EncodeField(KindOf(fields[0]), vals[fields[0]]) + EncodeFields(fields[1..], vals)
  }

  function EncodeGroups(layout: seq<Group>, low: u32, high: u8, vals: Values): seq<u8> {
    if layout == [] then []
    else (if layout[0].In(low, high) then EncodeFields(layout[0].fields, vals) else [])
         + EncodeGroups(layout[1..], low, high, vals)
  }

  function Build(s: Settings): seq<u8> {
    EncodeNum(s.lowFlag, 4, true) + [s.highFlag] + EncodeGroups(Layout(), s.lowFlag, s.highFlag, s.vals)
  }

  method BuildRoomSettings(packet: Packet, s: Settings)
    requires packet.Valid()
    modifies packet`buffer, packet`writeOffset, packet`length
    ensures packet.Valid()
    ensures packet.buffer == Insert(old(packet.buffer), old(packet.writeOffset), Build(s))
    ensures packet.writeOffset == old(packet.writeOffset) + |Build(s)|
    ensures old(packet.Unsent()) ==> packet.Unsent()
  {
    ghost var buf, at := packet.buffer, packet.writeOffset;
    ghost var low := EncodeNum(s.lowFlag, 4, true);
    packet.WriteBytes(s.lowFlag, 4, true);
    packet.WriteUInt8(s.highFlag);
    InsertTwice(buf, at, low, [s.highFlag]);
    InsertTwice(buf, at, low + [s.highFlag], EncodeGroups(Layout(), s.lowFlag, s.highFlag, s.vals));
    WriteGroups(packet, Layout(), s.lowFlag, s.highFlag, s.vals);
  }

  /** One row of the layout after the other: the fields of every flagged group. */
  method WriteGroups(packet: Packet, layout: seq<Group>, low: u32, high: u8, vals: Values)
    requires packet.Valid()
    modifies packet`buffer, packet`writeOffset, packet`length
    ensures packet.Valid()
    ensures packet.buffer == Insert(old(packet.buffer), old(packet.writeOffset), EncodeGroups(layout, low, high, vals))
    ensures packet.writeOffset == old(packet.writeOffset) + |EncodeGroups(layout, low, high, vals)|
    ensures old(packet.Unsent()) ==> packet.Unsent()
  {
    ghost var buf, at := packet.buffer, packet.writeOffset;
    ghost var done: seq<u8> := [];
    InsertNothing(buf, at);
    for k := 0 to |layout|
      invariant packet.Valid() && (old(packet.Unsent()) ==> packet.Unsent())
      invariant packet.buffer == Insert(buf, at, done) && packet.writeOffset == at + |done|
      invariant done + EncodeGroups(layout[k..], low, high, vals) == EncodeGroups(layout, low, high, vals)
    {
      GroupsStep(layout, k, low, high, vals, done);
      if layout[k].In(low, high) {
        ghost var piece := EncodeFields(layout[k].fields, vals);
        InsertTwice(buf, at, done, piece);
        WriteFields(packet, layout[k].fields, vals);
        done := done + piece;
      }
    }
    assert done + [] == done;
  }

  lemma GroupsStep(layout: seq<Group>, k: nat, low: u32, high: u8, vals: Values, done: seq<u8>)
    requires k < |layout|
    ensures done + EncodeGroups(layout[k..], low, high, vals)
         == (if layout[k].In(low, high) then done + EncodeFields(layout[k].fields, vals) else done)
            + EncodeGroups(layout[k + 1..], low, high, vals)
  {
    assert layout[k..][1..] == layout[k + 1..];
  }

  method WriteFields(packet: Packet, fields: seq<Field>, vals: Values)
    requires packet.Valid()
    modifies packet`buffer, packet`writeOffset, packet`length
    ensures packet.Valid()
    ensures packet.buffer == Insert(old(packet.buffer), old(packet.writeOffset), EncodeFields(fields, vals))
    ensures packet.writeOffset == old(packet.writeOffset) + |EncodeFields(fields, vals)|
    ensures old(packet.Unsent()) ==> packet.Unsent()
  {
    ghost var buf, at := packet.buffer, packet.writeOffset;
    ghost var done: seq<u8> := [];
    InsertNothing(buf, at);
    for i := 0 to |fields|
      invariant packet.Valid() && (old(packet.Unsent()) ==> packet.Unsent())
      invariant packet.buffer == Insert(buf, at, done) && packet.writeOffset == at + |done|
      invariant done + EncodeFields(fields[i..], vals) == EncodeFields(fields, vals)
    {
      FieldsStep(fields, i, vals, done);
      ghost var piece := EncodeField(KindOf(fields[i]), vals[fields[i]]);
      InsertTwice(buf, at, done, piece);
      WriteField(packet, KindOf(fields[i]), vals[fields[i]]);
      done := done + piece;
    }
    assert done + [] == done;
  }

  lemma FieldsStep(fields: seq<Field>, i: nat, vals: Values, done: seq<u8>)
    requires i < |fields|
    ensures done + EncodeFields(fields[i..], vals)
         == (done + EncodeField(KindOf(fields[i]), vals[fields[i]])) + EncodeFields(fields[i + 1..], vals)
  {
    assert fields[i..][1..] == fields[i + 1..];
  }

  method WriteField(packet: Packet, k: Kind, v: Value)
    requires packet.Valid() && Fits(k, v)
    modifies packet`buffer, packet`writeOffset, packet`length
    ensures packet.Valid()
    ensures packet.buffer == Insert(old(packet.buffer), old(packet.writeOffset), EncodeField(k, v))
    ensures packet.writeOffset == old(packet.writeOffset) + |EncodeField(k, v)|
    ensures old(packet.Unsent()) ==> packet.Unsent()
  {
    if k == Str {
      packet.WriteString(v.s);
    } else {
      packet.WriteBytes(v.n, SizeOf(k), true);
    }
  }

  // ----- Reading -----

  function DecodeField(k: Kind, buf: seq<u8>, off: nat): (r: (Value, nat))
    requires off <= |buf|
    ensures off <= r.1 <= |buf| && Fits(k, r.0)
  {
    if k == Str then
      var (s, end) := ReadStr(buf, off);
      (Text(s), end)
    else
      var (n, end) := ReadNum(buf, off, SizeOf(k), true);
      assert n < Pow256(SizeOf(k)) by {
        if end > off { FromLEBound(buf[off..end]); }
      }
      (Num(if k == Bool && n != 0 then 1 else n), end)
  }

  function DecodeFields(fields: seq<Field>, buf: seq<u8>, off: nat, vals: Values): (r: (Values, nat))
    requires off <= |buf|
    ensures off <= r.1 <= |buf|
    decreases |fields|
  {
    if fields == [] then (vals, off)
    else
      var (v, end) := DecodeField(KindOf(fields[0]), buf, off);
      DecodeFields(fields[1..], buf, end, vals[fields[0] := v])
  }

  function DecodeGroups(layout: seq<Group>, low: u32, high: u8, buf: seq<u8>, off: nat, vals: Values): (r: (Values, nat))
    requires off <= |buf|
    ensures off <= r.1 <= |buf|
    decreases |layout|
  {
    if layout == [] then (vals, off)
    else
      var (vals', end) :=
        if layout[0].In(low, high) then DecodeFields(layout[0].fields, buf, off, vals) else (vals, off);
      DecodeGroups(layout[1..], low, high, buf, end, vals')
  }

  function Parse(buf: seq<u8>, off: nat): (r: (Settings, nat))
    requires off <= |buf|
    ensures off <= r.1 <= |buf|
  {
    var (low, off1) := ReadNum(buf, off, 4, true);
    var (high, off2) := ReadNum(buf, off1, 1, true);
    assert low < Pow256(4) by { if off1 > off { FromLEBound(buf[off..off1]); } }
    assert high < Pow256(1) by { if off2 > off1 { FromLEBound(buf[off1..off2]); } }
    assert Pow256(4) == 0x1_0000_0000 && Pow256(1) == 256 by { assert Pow256(2) == 0x1_0000; }
    var (vals, end) := DecodeGroups(Layout(), low, high, buf, off2, Defaults);
    (Settings(low, high, vals), end)
  }

  method ParseRoomSettings(packet: Packet) returns (s: Settings)
    requires packet.Valid()
    modifies packet`readOffset
    ensures packet.Valid()
    ensures (s, packet.readOffset) == Parse(packet.buffer, old(packet.readOffset))
  {
    ghost var whole := Parse(packet.buffer, packet.readOffset);
    var low := packet.ReadBytes(4, true);
    var high := packet.ReadBytes(1, true);
    assert low == whole.0.lowFlag && high == whole.0.highFlag;
    var vals := ReadGroups(packet, Layout(), low, high, Defaults);
    s := Settings(low, high, vals);
  }

  method ReadGroups(packet: Packet, layout: seq<Group>, low: u32, high: u8, start: Values) returns (vals: Values)
    requires packet.Valid()
    modifies packet`readOffset
    ensures packet.Valid()
    ensures (vals, packet.readOffset) == DecodeGroups(layout, low, high, packet.buffer, old(packet.readOffset), start)
  {
    vals := start;
    for k := 0 to |layout|
      invariant packet.Valid()
      invariant DecodeGroups(layout, low, high, packet.buffer, old(packet.readOffset), start)
             == DecodeGroups(layout[k..], low, high, packet.buffer, packet.readOffset, vals)
    {
      assert layout[k..][0] == layout[k] && layout[k..][1..] == layout[k + 1..];
      if layout[k].In(low, high) {
        vals := ReadFields(packet, layout[k].fields, vals);
      }
    }
  }

  method ReadFields(packet: Packet, fields: seq<Field>, start: Values) returns (vals: Values)
    requires packet.Valid()
    modifies packet`readOffset
    ensures packet.Valid()
    ensures (vals, packet.readOffset) == DecodeFields(fields, packet.buffer, old(packet.readOffset), start)
  {
    vals := start;
    for i := 0 to |fields|
      invariant packet.Valid()
      invariant DecodeFields(fields, packet.buffer, old(packet.readOffset), start)
             == DecodeFields(fields[i..], packet.buffer, packet.readOffset, vals)
    {
      assert fields[i..][0] == fields[i] && fields[i..][1..] == fields[i + 1..];
      var v := ReadField(packet, KindOf(fields[i]));
      vals := vals[fields[i] := v];
    }
  }

  method ReadField(packet: Packet, k: Kind) returns (v: Value)
    requires packet.Valid()
    modifies packet`readOffset
    ensures packet.Valid() && Fits(k, v)
    ensures (v, packet.readOffset) == DecodeField(k, packet.buffer, old(packet.readOffset))
  {
    ghost var expected := DecodeField(k, packet.buffer, packet.readOffset);
    if k == Str {
      var s := packet.ReadString();
      v := Text(s);
    } else {
      var n := packet.ReadBytes(SizeOf(k), true);
      v := Num(if k == Bool && n != 0 then 1 else n);
    }
    assert v == expected.0;
  }
}
