# A verified model of the game server's core

The server runs one *channel* of a multi-player game. Clients talk to it over a framed, optionally enciphered TCP
stream, meet in a lobby, open rooms and play matches that one of them hosts; several channels share a MySQL database
and watch each other over UDP; passwords and transfer tokens are bcrypt hashes. This project models these parts in
Dafny 4.11 and proves what they promise.

| files | what they model |
|---|---|
| `Bytes`, `Packet` | the growing packet buffer: little- and big-endian numbers, strings, header, cursors |
| `Outgoing` | the mutex-guarded outgoing queue as a transition system over its lock sections, and its methods |
| `Stream` | framing, sequence numbers, the one-way switch to the cipher; sender and receiver |
| `SettingsCodec`, `SettingsReplication` | the room-settings codec, `UpdateRoomSettings`, and what receiving settings does to a client's copy |
| `SettingsWire` | the settings byte by byte: flag bit, place and bytes of every field |
| `RoomPackets` | the packets that carry settings (delta broadcast, full reply, create and join requests), their exact sizes, and the sender's size guard |
| `Rooms`, `Lobby`, `LobbySafety` | users, rooms and matches as values; every handler as a step; the invariant of every run |
| `LobbyOutcomes`, `HostOutcomes`, `LobbyFrame`, `HostMigration`, `RoomsTable`, `RoomPeaks`, `LobbyLimits`, `LobbyReplication`, `LobbyRuns` | theorems about that transition system, and concrete runs of it |
| `RoomObjects`, `LobbyObjects` | `User`, `GameMatch`, `Room` and the managers as objects on the heap; every handler method refines its step |
| `Sessions` | the session row of a user across concurrently running channels |
| `Liveness`, `MutualLiveness`, `UdpServer` | the view a channel keeps of the others, its timeouts, and the UDP server's methods |
| `Relay`, `Nickname` | the UDP relay branch and the nickname checks |
| `Base64`, `KeySchedule`, `BCrypt` | bcrypt's setting, key and output handling around an opaque Eksblowfish core |

Conventions:

- Values that the source keeps in fixed-width integers are bounded or wrapped explicitly: `u8`, `u16`, `u32`, the 16-bit
  packet length (`% 0x1_0000`), the 8-bit sequence numbers (`% 256`), the one-byte counts. The bcrypt files use bit
  vectors, because there the bit operations are the point.
- What the source gets from outside (packet fields, clock readings, whether a query succeeds, random bytes) is a
  parameter. A query that fails leaves the table as it is.
- The 34 flag tests of the settings writer, reader and merger are the rows of one table, `SettingsCodec.GroupAt`, which
  the loops walk in wire order. `ReadBool` is taken to yield 1 for every non-zero byte.
- A user's connection is never null while the `User` object lives, so the `GetConnection() == NULL` filters in the room
  code remove nobody and do not appear.
- The UDP server's packets have the same read routines as the TCP packets; `Packets.Packet` stands for both.
- `Rooms.Room.peak` is a history variable: the largest `maxPlayers` a room ever had, and at least 1.
- The bcrypt buffers are the 64 bytes of `bcrypt.h`; both byte orders of the machine are modelled.

Where a promise does not hold of the code as it is, the model keeps the code and proves exactly when it holds:

- The sender drops a packet that exceeds the size limit after the server has changed the room. That holds of the delta
  broadcast and of the full reply to Create and Join alike. `RunsKeepCopies` is exact: a client's copy is its room's
  settings in every state of a run iff every message it is sent passes the guard or would change nothing;
  `JoinerIsInStepIff` and `CreatorIsInStepIff` say it of the reply, and `ReplyDeliverableIff` says which replies pass. A
  rename to 65526 letters is lost (`OversizedDeltaIsLost`), so is the reply to a CreateRoom packet with a name of 65530
  letters (`OversizedCreateIsLost`, and `CreatorCanBeLeftStale` as a run), and so is every reply of a room whose name and
  password were set to 40000 letters each by two broadcasts that everybody received (`OversizedJoinIsLost`).
- A user in game may send Create or Join, since the guards reject only `InRoom`. `CreateKeepsInvIff` and
  `JoinKeepsInvIff` say exactly when the lobby stays in order; `DanglingMember` shows a room that lists a
  user who is gone, and `PlayerCanBeLeftDangling` a run that gets there.
- The host may send a delta that carries the room state while a match exists; `ChangeKeepsPlayingIff` is exact, and
  `MatchCanBeInterferedWith` is a run that gets there.
- Session takeover is a DELETE and an INSERT after an earlier SELECT. If two channels saw a dead owner and the second
  deletes after the first has inserted, both have the user (`TakeOversRace`); if both delete first, the duplicate key
  keeps the second out (`DeletesFirst`). `ExclusiveExactlyWhenSafe` says when a run keeps sessions exclusive: every
  DELETE of a takeover must find the row free. `SafeUnlessOvertaken` says when it does.
- When a host migrates without save data the match is deleted, but its players stay `InGame` and the room stays
  `Playing`. So the lobby invariant says that players are in game, and not the converse.

Run assumptions of the lobby theorems are in `LobbySafety.Legal`: a `User` object is new when it is added, and a user in
game sends no Create or Join; `RunsAreSafeIff` drops the second and says which runs stay in order. The liveness theorems speak of the entries of other channels; what a message that claims the
server's own ids does to the server's own entry is modelled but not constrained.

## Model

| member | source | states |
|---|---|---|
| Packets.NumRoundTrip | networking/tcp_connection.h:203-333 | a number written anywhere in a buffer, in either byte order, is read back, and the cursor moves by exactly its size |
| Packets.StrRoundTrip | networking/tcp_connection.h:228-348 | a zero-free string written with its terminator is read back, consuming exactly that |
| Packets.UnterminatedString | networking/tcp_connection.h:338-348 | a string without a terminator is everything that is left of the buffer |
| Packets.ShortRead | networking/tcp_connection.h:312-317 | a number that is not all there reads as zero and consumes nothing |
| Packets.InsertedAt | networking/tcp_connection.h:203-216 | byte by byte, what stood before the write cursor stays and what stood after it moves behind the new bytes |
| Bytes.ByteOrder | networking/tcp_connection.h:203-333 | the two-byte and four-byte forms literally, in both orders, and the numbers that they read as |
| Bytes.XorBits | networking/tcp_connection.cpp:396-401 | enciphering flips exactly the bits that are set in the keystream |
| Packets.Packet.WriteBytes | networking/tcp_connection.h:203-216 | the byte-wise insertion loop inserts the encoded number at the write cursor and adds its size to the wrapping 16-bit length |
| Packets.Packet.ReadBytes | networking/tcp_connection.h:312-333 | the read loop yields the number at the cursor; a short read yields 0 and does not move the cursor |
| Packets.Packet.WriteString | networking/tcp_connection.h:228-231 | inserts the characters and the terminator |
| Packets.Packet.ReadString | networking/tcp_connection.h:338-348 | terminates on every buffer, measured by size minus offset, and yields the characters up to a zero or the end |
| Packets.Packet.ReadArray | networking/tcp_connection.h:418-426 | yields as many bytes as asked for, zeros past the end, and stops the cursor at the end |
| Packets.Packet.WriteHeader | networking/tcp_connection.h:157-162 | puts signature, sequence and length in front, in that order |
| Outgoing.StepKeepsInv | networking/tcp_connection.cpp:94-126 | every lock section of writer, asyncWrite and onWrite, and every failure, keeps: numbers, order, one writer token iff the queue is non-empty, wire contents |
| Outgoing.ExactlyOnceInOrder | networking/tcp_connection.cpp:94-126 | in every interleaving exactly the bodies of 1 to 65532 bytes are accepted, in lock order; frame k is the bytes 85, k + 1 mod 256, its own length with the low byte first, and the body; each is handed to the socket once, and all of them when the queue is empty |
| Outgoing.OfferedAre | networking/tcp_connection.cpp:110-115 | the accepted bodies, one by one: those of 1 to 65532 bytes |
| Outgoing.WireIsClearThenEnciphered | networking/tcp_connection.cpp:388-412 | in every interleaving, if a cipher was set up, the socket has got the frames up to the first whose body begins with the marker in clear, and after them exactly the rest, enciphered with the keystream from its beginning; without a cipher, everything in clear |
| Outgoing.PeerReadsInOrder | networking/tcp_connection.cpp:375-440 | the peer that reads what the socket has got so far reads exactly the first accepted bodies in order, across the cipher switch |
| Outgoing.NeverStuck | networking/tcp_connection.cpp:375-440 | without a failure, some activity can move iff a frame is queued |
| Outgoing.QueueDrains | networking/tcp_connection.cpp:415-440 | with no further writes, after exactly Remaining sections, however scheduled, everything accepted is on the socket |
| Outgoing.Writer.WritePacket | networking/tcp_connection.cpp:94-126 | the lock section on a real packet: numbered, framed, dropped without using a number if too long; a queued packet's 16-bit length equals its body size |
| Outgoing.Writer.CopyFront | networking/tcp_connection.cpp:375-386 | copies the front frame, if there is one, and changes nothing else |
| Outgoing.Writer.Encipher | networking/tcp_connection.cpp:388-412 | appends to the wire the frame, enciphered exactly if a cipher is ready and the switch is past, and switches exactly on a fifth byte equal to the marker |
| Outgoing.Writer.PopFront | networking/tcp_connection.cpp:430-439 | pops the front, and the handler stops exactly when no writer token is left |
| Stream.StreamRoundTrip | networking/tcp_connection.cpp:235-319 | whatever list of bodies is emitted, the header/body reader reads the same list with every check passing, keystream and sequence in step, across the one-way switch |
| Stream.ClearThenEnciphered | networking/tcp_connection.cpp:388-412 | what leaves for any list of frames once a cipher is ready: up to the first marked frame in clear, then all bytes through the keystream from offset 0 |
| Stream.AllClear | networking/tcp_connection.cpp:388-412 | before a cipher is ready everything leaves in clear |
| Stream.HeaderIsRefusedIff | networking/tcp_connection.cpp:255-279 | reading stops exactly at a deciphered header without signature 85, without the next number, or with length 0; an unfinished packet is left alone |
| Stream.FrameBytes | networking/tcp_connection.h:157-162 | a frame literally: signature, number, length with the low byte first, body |
| Stream.OnlyEmittedIsReceived | networking/tcp_connection.cpp:235-319 | conversely, a stream read without leftover is byte for byte what a sender emits for those bodies |
| Stream.PassSplit | networking/tcp_connection.cpp:245-312 | deciphering header and body separately is deciphering them at once |
| Stream.FramesAppend | networking/tcp_connection.cpp:103-120 | one more packet is one more frame with the next number mod 256 |
| Stream.Reader.OnReadHeader | networking/tcp_connection.cpp:235-279 | counts, deciphers and checks signature, sequence and non-zero length |
| Stream.Reader.OnReadBody | networking/tcp_connection.cpp:295-319 | queues the body, deciphered exactly if a cipher is ready and the switch is past, and switches exactly on a first byte equal to the marker |
| Stream.Reader.ReadAll | networking/tcp_connection.cpp:235-328 | the read loop computes the specification of a received stream |
| SettingsCodec.BuildRoomSettings | managers/packet_roommanager.cpp:906-1034 | the packet writer appends exactly the built bytes, group by group |
| SettingsCodec.ParseRoomSettings | managers/packet_roommanager.cpp:573-706 | the packet reader yields the parsed settings and cursor, on any buffer |
| SettingsWire.BuildIs | managers/packet_roommanager.cpp:906-1034 | built settings literally: the two flag words, then the bytes of the flagged fields in one fixed order of all 59 |
| SettingsWire.CarriesIff | room/room.cpp:174-294 | a delta carries a field iff the field's own bit of the low or the high flag word is set |
| SettingsWire.FieldBytes | managers/packet_roommanager.cpp:906-1034 | the bytes of each field: three strings with terminator, three numbers of two bytes, six of four, the rest of one |
| SettingsReplication.SettingsRoundTrip | managers/packet_roommanager.cpp:573-706 | parsing built settings anywhere in a buffer returns flags, flagged fields and defaults elsewhere, and consumes exactly the built bytes |
| SettingsReplication.UpdateRoomSettings | room/room.cpp:174-294 | the in-place merge computes the specified merge |
| SettingsReplication.UpdateAt | room/room.cpp:174-294 | after a merge a field has the delta's value iff a set flag carries it, and its old value otherwise |
| SettingsReplication.EveryFieldIsInAGroup | room/room.cpp:174-294 | every field of the settings is carried by some flag |
| SettingsReplication.DeltaReplicates | managers/packet_roommanager.cpp:573-721 | building, parsing and merging a delta is merging it |
| SettingsReplication.FullReplicates | managers/packet_roommanager.cpp:1072-1077 | a full settings packet overwrites every field of the client's copy |
| SettingsReplication.StateDeltaChanges | room/room.cpp:112-114 | a room-state delta changes the room state and nothing else |
| RoomPackets.StepInStep | networking/tcp_connection.cpp:103-115 | a copy in step stays in step iff the broadcast passes the size guard or changes nothing |
| RoomPackets.JoinInStep | managers/packet_roommanager.cpp:1057-1085 | after the full reply a copy, whatever it was, equals the settings iff the reply passes the size guard or the copy was right already |
| RoomPackets.ReplyDeliverableIff | networking/tcp_connection.cpp:103-115 | the reply passes the guard iff strings and user entries take at most 65437 bytes, the other 99 being fixed |
| RoomPackets.BuildSize | managers/packet_roommanager.cpp:906-1034 | built settings take at most 85 bytes besides their characters, and exactly that with all flags set |
| RoomPackets.RunsAgree | managers/packet_roommanager.cpp:708-721 | after any sequence of deliverable deltas the copy equals the server's settings |
| RoomPackets.JoinedClientAgrees | managers/packet_roommanager.cpp:1072-1077 | the same from a deliverable reply on, whatever copy the client had before |
| RoomPackets.OversizedDeltaIsLost | networking/tcp_connection.cpp:110-115 | concrete rename that the server makes and no client learns of |
| RoomPackets.OversizedCreateIsLost | managers/packet_roommanager.cpp:328-389 | concrete CreateRoom packet that fits a packet and makes a room whose settings its creator never receives |
| RoomPackets.OversizedJoinIsLost | managers/packet_roommanager.cpp:470-470 | two deltas that pass the guard and after which no reply to a joining client does |
| RoomPackets.CreateRoundTrip | managers/packet_roommanager.cpp:328-375 | the settings of the created room are the name and eight fields of the request, the presets by game mode, and zeros elsewhere |
| RoomPackets.JoinRoundTrip | managers/packet_roommanager.cpp:411-412 | a JoinRoom request is read back as its room id and password |
| RoomPackets.CreatedRoom | managers/packet_roommanager.cpp:328-375 | for a CreateRoom request given byte by byte, every field of the created room: what was asked for, hostage penalty 3, buy time 90, freeze time 6 in modes 0, 3, 6 and 7, friendly fire in modes 1 and 4, and so on |
| RoomPackets.ReplyPrefixIs | managers/packet_roommanager.cpp:1062-1083 | the reply literally: 65, 0, host id, room id, 0, settings, count, entries |
| RoomPackets.StateDeltaIs | room/room.cpp:112-122 | the eight bytes of the broadcast that changes the room state |
| RoomPackets.ParseCreateRoom | managers/packet_roommanager.cpp:328-375 | reading the packet field by field and presetting the rest computes those settings, on any buffer |
| RoomPackets.BuildReplyCreateAndJoin | managers/packet_roommanager.cpp:1057-1085 | the packet built is the reply body, its 16-bit length in step |
| RoomPackets.BuildReplyUpdateRoomSettings | managers/packet_roommanager.cpp:156-170 | the packet built is the delta body, its 16-bit length in step |
| Rooms.ErasedFrom | room/room.cpp:74-74 | erasing one occurrence from a duplicate-free list removes that element and only it |
| Rooms.BroadcastReaches | managers/packet_roommanager.cpp:713-721 | a broadcast reaches each member once and nobody else |
| Rooms.HostMigratesToOldestPlayer | room/room.cpp:99-152 | the oldest remaining player becomes host, every other player is sent one HostRestart and one HostJoin naming it, nobody else anything, and the match survives iff there is save data |
| Rooms.HostReturnsAndHandsOver | managers/packet_roommanager.cpp:781-840 | the same when the host returns to the room and stays a member |
| Rooms.HostLeavesIdleMatch | room/room.cpp:100-124 | with nobody playing on, the oldest member is host, the match is gone, the state is Waiting and every member is told once |
| Rooms.LeaveKeepsRoom | room/room.cpp:62-154 | after anyone leaves a room where others stay, lists are duplicate-free, players are members, the host is a member |
| Rooms.ReturnKeepsRoom | managers/packet_roommanager.cpp:752-841 | the same after a return to the room |
| Rooms.GuestLeaves | room/room.cpp:62-98 | a member that is not the host leaves: it is out of list and match, order, host, settings and save data stay, and nothing is sent |
| Rooms.GuestReturns | managers/packet_roommanager.cpp:781-841 | a player that is not the host returns: it is out of the match, in which the others go on in their order with the save data, and nothing is sent |
| Rooms.PlayerDropped | room/gamematch.cpp:28-35 | a match without a player: the others in their order, and the save data |
| Lobby.FreeID | managers/roommanager.cpp:91-101 | yields the smallest id from 1 to 65534 that no room has, and 0 only if all are taken |
| Lobby.Find | managers/roommanager.cpp:78-89 | yields a room with that id, or tells that there is none |
| LobbySafety.StepKeepsInv | managers/packet_roommanager.cpp:293-841 | every handler keeps the lobby invariant: ids distinct and non-zero, rooms non-empty and duplicate-free, room membership, currentRoomID and status equivalent, players in game, hosts members, counts exact; and its erases hit |
| LobbySafety.RunsAreSafe | managers/usermanager.cpp:40-59 | in every run every state satisfies the invariant, so no erase of a searched element ever misses |
| LobbySafety.RemoveRoomUserKeepsInv | room/room.cpp:62-154 | removing a member keeps the invariant and puts it in the lobby, whether or not the room survives |
| LobbySafety.RemoveUserKeepsInv | managers/usermanager.cpp:40-59 | a disconnect keeps the invariant, and both erases hit |
| LobbySafety.SendUserStatusKeepsInv | managers/packet_hostmanager.cpp:252-317 | adding a player keeps the invariant |
| LobbySafety.EndGameKeepsInv | managers/packet_hostmanager.cpp:373-438 | ending a game keeps the invariant |
| LobbySafety.RemoveAllKeepsInv | room/room.cpp:18-41 | deleting all rooms leaves nobody in a room |
| LobbySafety.ResyncRoomsKeepsInv | networking/udp_server.cpp:131-145 | the clock-gap resync keeps the invariant, whichever queries fail |
| LobbyOutcomes.JoinOutcome | managers/packet_roommanager.cpp:396-471 | a user is let in, as the last member and told the settings, exactly if it is logged in, not `InRoom` and no member of that room, the room exists and has a place left, the password fits and its character can be read; otherwise nothing changes; nobody else moves |
| LobbyOutcomes.CreateOutcome | managers/packet_roommanager.cpp:293-394 | for every user, in game or not: a new room has the smallest free id, its creator as host and only member, and no match; if the table refuses the row the creator is in the lobby and the rooms are as before; and what is refused changes nothing |
| LobbyOutcomes.LeaveOutcome | managers/packet_roommanager.cpp:474-506 | a leaving user is in the lobby and out of exactly its room's list, and the order of the others is kept |
| LobbyOutcomes.DisconnectOutcome | managers/usermanager.cpp:40-59 | a disconnected user is in no list, and nobody else moves |
| LobbyOutcomes.NothingToLeave | managers/packet_roommanager.cpp:484-493 | outside rooms a LeaveRoom does nothing, and outside rooms or without a match a ReturnToRoom does nothing |
| LobbyOutcomes.AddUserOutcome | managers/usermanager.cpp:20-38 | a user comes in iff the channel is not full and the session result is positive; last in the list, in no room, not logged in yet |
| LobbyOutcomes.StatusOutcome | managers/usermanager.cpp:172-199 | a login ends in the server list, or in the lobby with a transfer; the requests for the server list and for this channel move between the two; in any other status they do nothing |
| LobbyOutcomes.ClearOutcome | managers/roommanager.cpp:64-76 | clearing leaves no room and, if its query succeeds, no row; exactly who was in a room is put in the lobby |
| LobbyOutcomes.ResyncOutcome | networking/udp_server.cpp:131-145 | whichever queries fail, exactly the rooms go whose INSERT fails or finds an old row; the others are untouched, and exactly who was in a room that goes is put in the lobby |
| HostOutcomes.OnlyHostsAct | managers/packet_hostmanager.cpp:161-438 | the packets of a host, sent by somebody who hosts no room, do nothing |
| HostOutcomes.ChangeOutcome | managers/packet_roommanager.cpp:550-721 | each field takes the delta's value iff a set flag carries it, nobody moves, no other room changes, every member is sent the delta once; outside InRoom the host is refused |
| HostOutcomes.ActivateOutcome | managers/packet_hostmanager.cpp:161-210 | the room gets an empty match and state 2, every member is told once, and that is all; with a match there, nothing |
| HostOutcomes.SaveDataOutcome | managers/packet_hostmanager.cpp:212-250 | save data of 1 to 51200 bytes is stored iff the host is in game with a match; nothing else changes |
| HostOutcomes.SendUserStatusOutcome | managers/packet_hostmanager.cpp:252-317 | the target becomes the youngest player and in game iff it is a member of the host's room, no player yet, and the status byte is 1; otherwise nothing changes |
| HostOutcomes.EndGameOutcome | managers/packet_hostmanager.cpp:373-438 | if the host is in game with a match, the match is gone, the state is 0, every member is told once, and no other room changes; otherwise nothing happens |
| HostOutcomes.EndGamePlaces | managers/packet_hostmanager.cpp:404-414 | exactly the players are put back into the room |
| LobbyFrame.StepIsLocal | managers/packet_roommanager.cpp:293-841 | every handler but the two that treat all rooms changes no room except the one its sender is in, asks for, or creates |
| LobbyFrame.PlacesStay | managers/packet_roommanager.cpp:293-841 | and moves nobody but its sender, save that EndGame and SendUserStatus move members of the sender's room |
| LobbyFrame.StrangersDoNothing | managers/packet_roommanager.cpp:293-302 | packets of somebody who is no user change nothing and are answered with nothing |
| HostMigration.HostLeavesOrDisconnects | room/room.cpp:99-152 | over the whole lobby: after a leave or disconnect of the host the room is gone if it was alone, and otherwise passed on as promised, to a member that is still a user |
| HostMigration.HostReturns | managers/packet_roommanager.cpp:781-840 | over the whole lobby: the returning host is in the room, and the match ends or passes on with players and save data |
| HostMigration.GuestLeavesOrDisconnects | room/room.cpp:62-98 | over the whole lobby: when another member leaves or disconnects only its list and match entries go; no other room changes and nothing is sent |
| HostMigration.GuestReturnsToRoom | managers/packet_roommanager.cpp:781-841 | over the whole lobby: a returning player that is not the host is in the room and out of the match, in which the others go on under the same host; nothing else changes |
| RoomsTable.StepKeepsMirror | managers/roommanager.cpp:13-62 | with queries succeeding, after every step the rows are exactly the image of the rooms |
| RoomsTable.RunsMirror | managers/databasemanager.cpp:754-846 | the same for every run that starts with an empty table |
| RoomsTable.ResyncRestoresMirror | networking/udp_server.cpp:131-145 | from any table contents a successful resync keeps every room and restores the mirror |
| RoomsTable.LeaveRow | room/room.cpp:84-152 | the row written before host migration is also right after it |
| RoomsTable.MirrorDescribes | managers/roommanager.cpp:13-32 | in the mirror each room has a row that says, column by column, whether it has a password, its level limit, mode, map, member count and limit; and there are no other rows |
| RoomsTable.CreatedRow | managers/databasemanager.cpp:754-780 | the row that a successful INSERT of Create leaves describes the new room column by column; a failed one leaves the table alone |
| RoomsTable.JoinedRow | managers/databasemanager.cpp:782-792 | the same of the UPDATE of Join |
| RoomsTable.ChangedRow | managers/databasemanager.cpp:782-792 | the same of the UPDATE of a settings change |
| RoomsTable.LeftRow | room/room.cpp:80-97 | the row goes with the last member, and otherwise describes who stays |
| LobbyLimits.StepKeepsPlaying | managers/packet_hostmanager.cpp:184-209 | a match exists only in a room that is Playing, kept by every step unless an update interferes |
| LobbyLimits.ChangeKeepsPlayingIff | managers/packet_roommanager.cpp:708-709 | an update keeps it iff it does not carry another room state into a room with a match |
| LobbyLimits.RunsKeepPlaying | managers/packet_hostmanager.cpp:161-210 | the same for every run |
| LobbyLimits.CreateKeepsInvIff | managers/packet_roommanager.cpp:303-386 | Create keeps the lobby in order iff the user is not in game or the request is refused |
| LobbyLimits.JoinKeepsInvIff | managers/packet_roommanager.cpp:406-442 | Join keeps the lobby in order iff the user is not in game or is not let into another room |
| LobbyLimits.StepKeepsInvIff | managers/packet_roommanager.cpp:293-841 | every handler, sent by anyone in any status, leads from a lobby in order to one in order iff it is orderly: no Create or Join moves a user in game out of its room; and its erases hit |
| LobbyLimits.RunsAreSafeIff | managers/packet_roommanager.cpp:303-442 | in every run, with users in game sending what they like, all states are in order iff all events are orderly |
| LobbyLimits.DanglingMember | managers/packet_roommanager.cpp:303-386 | a user in game that creates a room and disconnects stays listed in its old room |
| LobbyLimits.CountsAreExact | managers/packet_roommanager.cpp:873-873 | one-byte member counts and the 16-bit player count equal the true sizes; players at most members at most peak at most 255 |
| LobbyLimits.PeakIsLargestMaxPlayers | room/room.cpp:202-204 | an update raises a room's peak to its new maxPlayers, which is the delta's iff a set flag carries it |
| LobbyRuns.MatchCanBeInterferedWith | managers/packet_hostmanager.cpp:161-210 | a run of four events after which the host can take a running match out of the Playing state |
| LobbyRuns.PlayerCanBeLeftDangling | managers/packet_hostmanager.cpp:252-317 | a run of five events after which a user in game can create a second room and be left listed in the first |
| LobbyRuns.CreatorCanBeLeftStale | managers/packet_roommanager.cpp:293-389 | a run of three events after which the creator of a room does not hold its settings |
| RoomPeaks.StepPeaks | managers/packet_roommanager.cpp:428-428 | in every step a room's peak is raised to its present maxPlayers and otherwise stays, starting from max(1, maxPlayers) |
| LobbyReplication.StepKeepsCopies | managers/packet_roommanager.cpp:708-721 | after every step of anyone, a client's copy that was right is right iff every message it was sent passes the size guard or would change nothing |
| LobbyReplication.RunsKeepCopies | managers/packet_hostmanager.cpp:192-208 | in every run the copy of a client is its room's settings in all states iff no event loses it a message: each writer of the settings tells every member, and full replies and deltas are lost only to the size guard |
| LobbyReplication.JoinerIsInStepIff | managers/packet_roommanager.cpp:442-471 | a user that joins has the room's settings iff its reply passes the guard or its copy was right by chance |
| LobbyReplication.CreatorIsInStepIff | managers/packet_roommanager.cpp:375-389 | the same for a user that creates a room |
| LobbyReplication.OversizedCreateLeavesStaleCopy | managers/packet_roommanager.cpp:328-389 | the oversized CreateRoom packet puts its sender into the room without the room's settings, in every lobby that lets it create one |
| Rooms.EraseAt | room/gamematch.cpp:28-35 | removing the first occurrence by index is the specified erase, the order kept |
| RoomObjects.GameMatch.Find | room/gamematch.cpp:37-48 | finds the first entry of a user, or none |
| RoomObjects.GameMatch.RemoveGameMatchUser | room/gamematch.cpp:28-35 | removes what is found, as specified |
| RoomObjects.Room.AddRoomUser | room/room.cpp:44-60 | refuses a present user, else appends it and sets its status and room |
| RoomObjects.Room.TakeOut | room/room.cpp:62-79 | removes match entry and member, and puts the user in the lobby |
| RoomObjects.Room.ReplaceHost | room/room.cpp:99-152 | refines the host migration on values, messages included |
| RoomObjects.Room.PassMatchOn | room/room.cpp:126-147 | refines the hand-over of the match |
| RoomObjects.Room.EndMatch | room/room.cpp:108-122 | deletes the match, goes back to Waiting, tells the members |
| RoomObjects.Room.TakeBack | managers/packet_roommanager.cpp:781-840 | refines the return to the room |
| RoomObjects.Room.UpdateRoomSettings | room/room.cpp:174-294 | merges the delta in place |
| LobbyObjects.Managers.CreateRoom | managers/packet_roommanager.cpp:293-394 | on the heap, refines the Create step for the settings read from the packet: guards, new room, row, place, reply; for every user, with the exact condition for the lobby to stay in order |
| LobbyObjects.Managers.JoinRoom | managers/packet_roommanager.cpp:396-471 | refines the Join step for the id and password read from the packet, with every refusal; for every user, with the exact condition for the lobby to stay in order |
| LobbyObjects.Managers.LeaveRoom | managers/packet_roommanager.cpp:474-506 | refines the Leave step, and its erase hits |
| LobbyObjects.Managers.RemoveRoomUser | room/room.cpp:62-154 | refines removal of a member, with RemoveRoom for the last one |
| LobbyObjects.Managers.RemoveUser | managers/usermanager.cpp:40-59 | refines the disconnect step, and its erases hit |
| LobbyObjects.Managers.AddUser | managers/usermanager.cpp:20-38 | refines admission: capacity, session result, player count |
| LobbyObjects.Managers.UpdateRoomSettings | managers/packet_roommanager.cpp:550-721 | refines the settings update: guards, parsing of the packet, merge, row, broadcast |
| LobbyObjects.Managers.ServerIsActivated | managers/packet_hostmanager.cpp:161-210 | refines the start of a match |
| LobbyObjects.Managers.SaveData | managers/packet_hostmanager.cpp:212-250 | refines storing save data, with the size limits |
| LobbyObjects.Managers.SendUserStatus | managers/packet_hostmanager.cpp:252-317 | refines adding a player, with every refusal |
| LobbyObjects.Managers.EndGame | managers/packet_hostmanager.cpp:373-438 | refines the end of a game |
| LobbyObjects.Managers.ReturnToRoom | managers/packet_roommanager.cpp:752-841 | refines the return to the room |
| LobbyObjects.Managers.RemoveAllRooms | managers/roommanager.cpp:64-76 | refines the console command |
| LobbyObjects.Managers.Resync | networking/udp_server.cpp:131-145 | refines the end of the clock-gap branch |
| LobbyObjects.Managers.GetFreeRoomID | managers/roommanager.cpp:91-101 | the search loop yields the smallest free id |
| LobbyObjects.Managers.GetRoomByRoomID | managers/roommanager.cpp:78-89 | the search loop yields the room with that id |
| LobbyObjects.Managers.InsertRoom | managers/databasemanager.cpp:754-780 | SELECT then INSERT: -1, 0 or 1, and a new row that describes the room column by column |
| Sessions.StepOwned | managers/databasemanager.cpp:354-426 | a statement keeps sessions exclusive iff it is no takeover's DELETE of a row whose owner has the user |
| Sessions.ExclusiveExactlyWhenSafe | managers/databasemanager.cpp:354-426 | over every interleaving of statements of any channels, with restarts and failing queries, every user is logged in at most once and where its row says iff every DELETE of a takeover finds the row free |
| Sessions.StepIsLocal | managers/databasemanager.cpp:354-426 | a statement of a login or logout leaves all other users' rows and list entries alone |
| Sessions.ChannelsComeAndGo | main.cpp:52-61 | a channel starts without users and, if its query succeeds, without rows; it ends without users, logins under way and, after a shutdown, rows; other channels keep theirs |
| Sessions.SafeUnlessOvertaken | managers/databasemanager.cpp:379-397 | a row that is free at the SELECT is free at the DELETE, whatever runs in between, unless that user is logged in meanwhile |
| Sessions.OnePlace | managers/usermanager.cpp:29-33 | then no user is logged in at two channels, or twice at one |
| Sessions.LogoutDeletesOwnRow | managers/databasemanager.cpp:419-426 | and logging out deletes the channel's own row, and only that, and leaves the user logged in nowhere |
| Sessions.FirstLoginsRace | managers/databasemanager.cpp:365-378 | two first logins racing between SELECT and INSERT: the duplicate key lets only the first in |
| Sessions.TakeOversRace | managers/databasemanager.cpp:379-414 | two takeovers of one dead owner's row, the second deleting after the first inserted: both succeed |
| Sessions.BothSelect | managers/databasemanager.cpp:354-363 | two SELECTs of a fresh table lead to the state in which that race starts |
| Sessions.DeletesFirst | managers/databasemanager.cpp:397-414 | both deleting before either inserts: the duplicate key lets only the first in, and sessions stay exclusive |
| Sessions.UninterruptedLogin | managers/databasemanager.cpp:354-417 | an uninterrupted login of a user whose row is free gives it the row and keeps sessions exclusive |
| Sessions.DatabaseManager.AddUserSession | managers/databasemanager.cpp:354-417 | result and new row for every case: an owner that is online or not in the server list makes it 0 and leaves the table alone; each of the three queries may fail |
| Sessions.DatabaseManager.RemoveUserSession | managers/databasemanager.cpp:419-426 | deletes the user's row whoever owns it |
| Sessions.DatabaseManager.RemoveAllUserSessions | managers/databasemanager.cpp:466-473 | at start and shutdown, deletes exactly the channel's own rows |
| Sessions.DatabaseManager.IsUserSessionAdded | managers/databasemanager.cpp:428-464 | tells own, foreign, missing and failed apart |
| Liveness.AlwaysStatusRight | networking/udp_server.cpp:549-584 | in every run another server is Ready iff one of its channels is online |
| Liveness.OnlineWasHeard | networking/udp_server.cpp:549-584 | a channel believed online sent a HELLO, HELLO_ANSWER or HEARTBEAT at its recorded time |
| Liveness.MessageRoundTrip | networking/udp_server.cpp:529-554 | the bytes of a server datagram one by one: key, server, channel, type and player count are read as exactly that, and it is authorised iff the key is ours |
| Liveness.HandleOutcome | networking/udp_server.cpp:549-590 | what each of the five types does to the sender's entry, literally, and that no other entry changes |
| Liveness.HandleStatus | networking/udp_server.cpp:555-581 | and to the server's status; our own never changes |
| Liveness.TickOutcome | networking/udp_server.cpp:99-190 | what a tick does to every entry, literally, with and without a clock gap |
| Liveness.OnlineIsFresh | networking/udp_server.cpp:163-190 | after every tick that time is at most three before now |
| Liveness.SilenceIsNoticed | networking/udp_server.cpp:170-184 | a channel silent for longer is offline after the next tick |
| Liveness.NoFalseSuspicion | networking/udp_server.cpp:163-190 | with unit clock steps and a sign of life in every window of three tick intervals, no tick marks a peer offline |
| Liveness.FourSilentTicks | networking/udp_server.cpp:170-173 | three intervals is the most: the fourth silent tick marks it offline |
| MutualLiveness.StayMutuallyOnline | networking/udp_server.cpp:163-190 | two ends whose ticks and deliveries keep pace, with heartbeats delivered one by one or together, or lost, stay mutually online in every run until a goodbye |
| MutualLiveness.HandshakeIsMutual | networking/udp_server.cpp:549-563 | a HELLO and its answer make such a start, whatever player counts they carry and heartbeats are under way |
| UdpServer.UDPServer.OnSecondTick | networking/udp_server.cpp:99-190 | the nested loops compute the tick, and heartbeats go to exactly the channels that stay online |
| UdpServer.UDPServer.HandleIncomingServerPacket | networking/udp_server.cpp:515-600 | reading and checking a packet applies exactly its message; with another key nothing changes; a HELLO and only a HELLO is to be answered |
| UdpServer.TargetsAreOnline | networking/udp_server.cpp:163-187 | a heartbeat target is another channel that is online, and each such channel is one |
| UdpServer.TargetsAscend | networking/udp_server.cpp:163-187 | and each gets one heartbeat |
| Relay.HandleRelay | networking/udp_server.cpp:392-456 | a datagram is relayed iff its bytes, users and rooms qualify; then it goes to the target's address, to its host port iff byte 5 is 1 and else to its guest port, and carries exactly the bytes after the first ten |
| Nickname.CheckNickname | managers/packet_charactermanager.cpp:45-84 | accepted iff 4 to 16 characters, no symbol, letters then digits, no character more than three times, nothing prohibited; every reply exactly when its check is the first to fail |
| Nickname.PositionTest | managers/packet_charactermanager.cpp:60-66 | the npos comparison accepts exactly non-digits followed by digits |
| Nickname.ProhibitedIff | managers/packet_charactermanager.cpp:70-84 | a name is prohibited iff a listed name reads in it once capitals are made small |
| Nickname.SymbolsAre | managers/packet_charactermanager.cpp:45-59 | the forbidden characters are the printable ones of ASCII that are neither letters nor digits |
| Nickname.CountIsMultiplicity | managers/packet_charactermanager.cpp:60-69 | what is counted is how often the character occurs |
| Base64.DecodeOfEncode | thirdparty/libbcrypt/crypt_blowfish.c:389-443 | decoding an encoding gives the bytes back for every length, tails included, wherever it stands |
| Base64.CanonicalDecodesTheSame | thirdparty/libbcrypt/crypt_blowfish.c:773-774 | clearing the unused bits of the last salt character does not change what is decoded |
| Base64.EncodeIsCanonical | thirdparty/libbcrypt/crypt_blowfish.c:413-443 | the last character of such an encoding is canonical already |
| Base64.AlphabetIs | thirdparty/libbcrypt/crypt_blowfish.c:389-443 | the alphabet: ./ then A to Z, a to z, 0 to 9 |
| Base64.GroupIsTheBits | thirdparty/libbcrypt/crypt_blowfish.c:413-443 | four characters are the 24 bits of three bytes, highest first |
| Base64.DecodeSucceedsIff | thirdparty/libbcrypt/crypt_blowfish.c:389-411 | decoding succeeds iff every character it needs is in the alphabet |
| Base64.DecodeReads | thirdparty/libbcrypt/crypt_blowfish.c:389-411 | decoding succeeds only if every character it needs is there |
| Base64.BFEncode | thirdparty/libbcrypt/crypt_blowfish.c:413-443 | the pointer-walking loop writes the specified encoding |
| Base64.BFDecode | thirdparty/libbcrypt/crypt_blowfish.c:389-411 | the loop decodes or fails as specified |
| KeySchedule.CycledIsCyclic | thirdparty/libbcrypt/crypt_blowfish.c:609-612 | the pointer reads byte n of the key and its terminator repeated cyclically |
| KeySchedule.ExpandedKeyIsCyclic | thirdparty/libbcrypt/crypt_blowfish.c:594-618 | without the bug, word i is chars 4i to 4i+3 of the key and its terminator, repeated cyclically, shifted together with the first as the highest |
| KeySchedule.BuggyKeyIsCyclic | thirdparty/libbcrypt/crypt_blowfish.c:594-618 | with the bug, the same chars sign-extended before they are shifted in |
| KeySchedule.ExtendIs | thirdparty/libbcrypt/crypt_blowfish.c:600-604 | what sign extension makes of a char |
| KeySchedule.OverwriteIff | thirdparty/libbcrypt/crypt_blowfish.c:605-607 | sign extension strikes iff one of the 72 chars, not the first of its word, is 0x80 or more |
| KeySchedule.SelfTestHolds | thirdparty/libbcrypt/crypt_blowfish.c:865-877 | the library's own test of the schedule: for its key, undoing the safety of $2a$ gives the schedule of $2y$, first word 0xDB9C59BC, last 0x33343500 |
| KeySchedule.BFSetKey | thirdparty/libbcrypt/crypt_blowfish.c:547-647 | the loops fill the expanded key as specified, and the initial P-box with P xor the expanded key, bit 16 of the first word flipped iff the key deviates |
| KeySchedule.InitialDeviates | thirdparty/libbcrypt/crypt_blowfish.c:617-646 | in the machine's own xor: word i of the initial P-box is P[i] ^ expanded[i], and word 0 differs from that exactly in bit 16, iff safety is asked for, both versions agree on all words and sign extension struck |
| KeySchedule.DeviationIsBit16 | thirdparty/libbcrypt/crypt_blowfish.c:629-633 | the branch-free bit trick computes that decision |
| KeySchedule.WordAgreesIff | thirdparty/libbcrypt/crypt_blowfish.c:595-614 | sign extension leaves a word alone iff every char it would overwrite is 0xFF |
| KeySchedule.DeviationNeedsFF | thirdparty/libbcrypt/crypt_blowfish.c:562-566 | only passwords with a 0xFF byte are deviated from |
| KeySchedule.SevenBitKeysAreUntouched | thirdparty/libbcrypt/crypt_blowfish.c:562-566 | seven-bit passwords are unaffected by bug and safety measure |
| BCrypt.SaltIsPortable | thirdparty/libbcrypt/crypt_blowfish.c:445-457 | the salt words do not depend on the machine's byte order |
| BCrypt.OutputIsPortable | thirdparty/libbcrypt/crypt_blowfish.c:776-779 | nor do the output bytes |
| BCrypt.SaltWordsAre | thirdparty/libbcrypt/crypt_blowfish.c:679-684 | salt word i is salt bytes 4i to 4i+3, the first as the highest |
| BCrypt.OutputBytesAre | thirdparty/libbcrypt/crypt_blowfish.c:766-779 | the output bytes are those of the six words in order |
| BCrypt.WordOfBytes | thirdparty/libbcrypt/crypt_blowfish.c:445-457 | the bytes of a word make the word again, the first as the highest |
| BCrypt.AcceptedIff | thirdparty/libbcrypt/crypt_blowfish.c:653-684 | which settings are accepted, character by character |
| BCrypt.CryptIs | thirdparty/libbcrypt/crypt_blowfish.c:679-783 | what the core is given (flags 2, 1 or 4 by subtype, key schedule, salt, cost) and what the hash is made of |
| BCrypt.BFSwap | thirdparty/libbcrypt/crypt_blowfish.c:445-457 | swaps every word on a little-endian machine, none otherwise |
| BCrypt.BFCrypt | thirdparty/libbcrypt/crypt_blowfish.c:653-783 | setting checks, decoding, swapping, key setup and output assembly compute the specification |
| BCrypt.HashCarriesItsSetting | thirdparty/libbcrypt/crypt_blowfish.c:772-780 | hashing any password with a produced hash as setting is hashing it with the original setting |
| BCrypt.HashIsText | thirdparty/libbcrypt/crypt_blowfish.c:772-780 | a produced hash has no zero byte before its terminator, so it is a C string like the setting |
| BCrypt.HashIsFixpoint | thirdparty/libbcrypt/crypt_blowfish.c:679-780 | hashing again with the produced hash gives the same hash |
| BCrypt.CheckPw | thirdparty/libbcrypt/bcrypt.c:170-180 | 0 iff hashing with the stored hash gives the stored hash, -1 iff it is no valid setting |
| BCrypt.TimingSafeStrcmp | thirdparty/libbcrypt/bcrypt.c:90-114 | 0 iff the strings are equal |
| BCrypt.CheckComparesUnderTheSetting | thirdparty/libbcrypt/bcrypt.c:163-180 | a password passes against another's hash iff both hash alike under the original setting |
| BCrypt.GenSaltIsValid | thirdparty/libbcrypt/crypt_blowfish.c:885-911 | a generated salt is $2a$, the two digits of the asked cost, or of 12 if that is not between 4 and 31, $, and a valid setting that decodes to the random bytes |
| BCrypt.GeneratedSaltsWork | thirdparty/libbcrypt/bcrypt.c:116-168 | every password hashed with a generated salt gets a hash that begins with the salt and that the check accepts |

## Left out

- TCP and TLS sockets, OpenSSL and the MySQL client: only their success or failure, an abstract keystream, and tables are modelled.
- Blowfish's boxes, the cost loop and the self-test: the core is an arbitrary function of expanded key, P-box, salt and cost.
- Base64.BFEncode: returns the characters it writes through `dst` as a sequence instead of storing them in the caller's buffer.
- Base64.BFDecode: likewise returns the decoded bytes.
- The order of list packets and of all messages other than settings, HostRestart and HostJoin; room-list flags (an 8-bit variable loses two of them).
- RoomPackets.ParseCreateRoom: stops after the password; of the rest of the packet only `fastStart`, which makes the client start a server, has an effect.
- RoomPackets.BuildReplyCreateAndJoin: takes the users' entries (addresses and characters) as bytes; only their size matters here.
- Teams, kills and deaths in match entries; a match entry is its user.
- Shared objects that the C++ code deletes are dropped from the lists; memory is not freed in the model.
- Re-adding sessions and dropping users after a clock gap, the client heartbeat timeout and the ping requests in `OnSecondTick`.
- The UDP outgoing queues: pop and the emptiness test are separate lock sections there, so one drainer at a time is not assured.
- `processPacket`: the queue of received packets is only appended to.
- `SearchRoom`: the local and the SQL search treat the wildcard mode differently.
- Chat, shop, report and item packets, floating-point accessors, shutdown, and unsynchronised access from console, TCP and UDP threads.
