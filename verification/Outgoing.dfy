/** The outgoing queue of a connection: writers, one write in flight, completions, in every interleaving. */
module Outgoing {
  import opened Bytes
  import opened Packets
  import opened Stream

  datatype Option<T> = None | Some(value: T)

  /** What the activity that owes the next write is doing. Each token is one thread of control.
      Start: about to enter asyncWrite; Holding: has copied the front frame and left the lock;
      InFlight: the socket write is issued and its completion handler is pending. */
  datatype Token = Start | Holding(frame: seq<u8>) | InFlight(frame: seq<u8>)

  /** The connection's shared state, the running activities, and what has happened so far:
      the bodies accepted for sending, the frames given to the socket, the bytes given to the socket,
      and whether an activity has failed, before (false) or after (true) it issued its frame. */
  datatype State = State(
    queue: seq<seq<u8>>, sequence: u8, cipher: Cipher,
    tokens: seq<Token>,
    accepted: seq<seq<u8>>, issued: seq<seq<u8>>, wire: seq<u8>, failed: Option<bool>)

  datatype Step =
    | Setup
    | Write(body: seq<u8>)
    | Enter(token: nat)
    | Issue(token: nat)
    | Complete(token: nat)
    | Fail(token: nat)

  const Initial := State([], 0, Cipher(false, false, 0), [], [], [], [], None)

  function Without<T>(s: seq<T>, i: nat): (r: seq<T>)
    requires i < |s|
    ensures |r| == |s| - 1
  {
    s[..i] + s[i + 1..]
  }

  // ----- The atomic sections -----

  /** The lock section of WritePacket: number, frame, drop if too long, otherwise queue; a writer that found the
      queue empty goes on to asyncWrite. The 16-bit length in the header is the body size wrapped. */
  function AfterWrite(s: State, body: seq<u8>): State {
    var sequence := Next(s.sequence);
    var frame := Frame(sequence, body);
    if |frame| > TCP_PACKET_MAX_SIZE then s
    else s.(sequence := sequence,
            tokens := if s.queue == [] then s.tokens + [Start] else s.tokens,
            queue := s.queue + [frame],
            accepted := s.accepted + [body])
  }

  /** The lock section of asyncWrite. */
  function AfterEnter(s: State, i: nat): State
    requires i < |s.tokens|
  {
    if s.queue == [] then s.(tokens := Without(s.tokens, i))
    else s.(tokens := s.tokens[i := Holding(s.queue[0])])
  }

  /** The rest of asyncWrite: encipher or switch, and hand the bytes to the socket. */
  function AfterIssue(ks: Keystream, marker: u8, s: State, i: nat): State
    requires i < |s.tokens| && s.tokens[i].Holding? && |s.tokens[i].frame| > PACKET_HEADER_SIZE
  {
    var frame := s.tokens[i].frame;
    var (cipher, bytes) := Transmit(ks, marker, s.cipher, frame);
    s.(tokens := s.tokens[i := InFlight(frame)], cipher := cipher,
       issued := s.issued + [frame], wire := s.wire + bytes)
  }

  /** The lock section of onWrite: pop, and go on to asyncWrite if something is left. */
  function AfterComplete(s: State, i: nat): State
    requires i < |s.tokens| && s.queue != []
  {
    s.(queue := s.queue[1..],
       tokens := if s.queue[1..] == [] then Without(s.tokens, i) else s.tokens[i := Start])
  }

  /** A cipher or write error: the activity ends without popping. */
  function AfterFail(s: State, i: nat): State
    requires i < |s.tokens|
  {
    s.(tokens := Without(s.tokens, i), failed := Some(s.tokens[i].InFlight?))
  }

  /** Setting up the encrypt cipher, which happens before any switch packet is sent. */
  function AfterSetup(s: State): State {
    s.(cipher := s.cipher.(ready := true))
  }

  /** Which steps a state allows: any writer may write, any activity may take its next section. */
  predicate Enabled(marker: u8, s: State, step: Step) {
    match step
    case Setup => !s.cipher.ready && NoSwitch(marker, s.accepted)
    case Write(body) => |body| > 0
    case Enter(i) => i < |s.tokens| && s.tokens[i].Start?
    case Issue(i) => i < |s.tokens| && s.tokens[i].Holding?
    case Complete(i) => i < |s.tokens| && s.tokens[i].InFlight?
    case Fail(i) => i < |s.tokens| && !s.tokens[i].Start?
  }

  function After(ks: Keystream, marker: u8, s: State, step: Step): State
    requires Inv(ks, marker, s) && Enabled(marker, s, step)
  {
    hide Inv;
    match step
    case Setup => AfterSetup(s)
    case Write(body) => AfterWrite(s, body)
    case Enter(i) => AfterEnter(s, i)
    case Issue(i) => TokenIsFront(ks, marker, s, i); AfterIssue(ks, marker, s, i)
    case Complete(i) => TokenIsFront(ks, marker, s, i); AfterComplete(s, i)
    case Fail(i) => AfterFail(s, i)
  }

  // ----- What every interleaving keeps -----

  predicate Sendable(body: seq<u8>) {
    1 <= |body| <= TCP_PACKET_MAX_SIZE - PACKET_HEADER_SIZE
  }

  predicate NoSwitch(marker: u8, bodies: seq<seq<u8>>) {
    forall i :: 0 <= i < |bodies| && |bodies[i]| > 0 ==> bodies[i][0] != marker
  }

  predicate Numbered(s: State) {
    && (forall i :: 0 <= i < |s.accepted| ==> Sendable(s.accepted[i]))
    && s.sequence == |s.accepted| % 256
  }

  /** The queue holds the last accepted frames, and the socket has got the first ones. */
  predicate Ordered(s: State, frames: seq<seq<u8>>) {
    && |s.queue| <= |frames| && s.queue == frames[|frames| - |s.queue|..]
    && |s.issued| <= |frames| && s.issued == frames[..|s.issued|]
    && |s.issued| == |frames| - |s.queue| + (if FrontIssued(s) then 1 else 0)
  }

  /** There is one activity exactly when something is queued, until one fails; and it carries the front frame. */
  predicate OneWriter(s: State) {
    && |s.tokens| == (if s.queue == [] || s.failed.Some? then 0 else 1)
    && (s.failed.Some? ==> s.queue != [])
    && (forall i :: 0 <= i < |s.tokens| && !s.tokens[i].Start? ==> s.tokens[i].frame == s.queue[0])
  }

  /** Whether the front of the queue has been given to the socket. */
  predicate FrontIssued(s: State) {
    (|s.tokens| == 1 && s.tokens[0].InFlight?) || s.failed == Some(true)
  }

  predicate OnTheWire(ks: Keystream, marker: u8, s: State) {
    && AreFrames(s.issued)
    && (s.cipher, s.wire) == TransmitAll(ks, marker, Cipher(s.cipher.ready, false, 0), s.issued)
  }

  predicate Inv(ks: Keystream, marker: u8, s: State) {
    && Numbered(s)
    && Ordered(s, Frames(0, s.accepted))
    && OneWriter(s)
    && OnTheWire(ks, marker, s)
  }

  lemma InitInv(ks: Keystream, marker: u8)
    ensures Inv(ks, marker, Initial)
  {
  }

  /** An activity that is past the lock carries the front of the queue. */
  lemma TokenIsFront(ks: Keystream, marker: u8, s: State, i: nat)
    requires Inv(ks, marker, s) && i < |s.tokens| && !s.tokens[i].Start?
    ensures s.queue != [] && s.tokens[i].frame == s.queue[0] && |s.queue[0]| > PACKET_HEADER_SIZE
  {
    hide Frames, OnTheWire;
    FrontIsFrame(s);
  }

  lemma FrontIsFrame(s: State)
    requires Numbered(s) && Ordered(s, Frames(0, s.accepted)) && s.queue != []
    ensures |s.queue[0]| > PACKET_HEADER_SIZE
  {
    FramesAreFrames(0, s.accepted);
  }

  lemma WriteKeepsInv(ks: Keystream, marker: u8, s: State, body: seq<u8>)
    requires Inv(ks, marker, s) && |body| > 0
    ensures Inv(ks, marker, AfterWrite(s, body))
    ensures AfterWrite(s, body) != s <==> Sendable(body)
  {
    hide Frames, Frame, TransmitAll, Ordered;
    if Sendable(body) {
      SequenceStep(|s.accepted|);
      WriteKeepsOrder(s, body);
    }
  }

  lemma WriteKeepsOrder(s: State, body: seq<u8>)
    requires Numbered(s) && OneWriter(s) && Ordered(s, Frames(0, s.accepted)) && Sendable(body)
    ensures Ordered(AfterWrite(s, body), Frames(0, s.accepted + [body]))
  {
    hide Frame;
    FramesAppend(0, s.accepted, body);
    NextPlus(0, |s.accepted|);
    OneMoreFrame(Frames(0, s.accepted), s.queue, s.issued, Frame(Next(s.sequence), body));
  }

  lemma OneMoreFrame(frames: seq<seq<u8>>, queue: seq<seq<u8>>, issued: seq<seq<u8>>, frame: seq<u8>)
    requires |queue| <= |frames| && queue == frames[|frames| - |queue|..]
    requires |issued| <= |frames| && issued == frames[..|issued|]
    ensures queue + [frame] == (frames + [frame])[|frames| - |queue|..]
    ensures issued == (frames + [frame])[..|issued|]
  {
  }

  lemma SequenceStep(n: nat)
    ensures Next(n % 256) == (n + 1) % 256
  {
  }

  lemma IssueKeepsInv(ks: Keystream, marker: u8, s: State, i: nat)
    requires Inv(ks, marker, s) && Enabled(marker, s, Issue(i))
    ensures |s.tokens[i].frame| > PACKET_HEADER_SIZE
    ensures Inv(ks, marker, AfterIssue(ks, marker, s, i))
  {
    hide TransmitAll, Frame, Frames;
    FrontIsFrame(s);
    var frames := Frames(0, s.accepted);
    TransmitAppend(ks, marker, Cipher(s.cipher.ready, false, 0), s.issued, s.queue[0]);
    assert s.queue[0] == frames[|s.issued|];
    assert s.issued + [s.queue[0]] == frames[..|s.issued| + 1];
  }

  lemma CompleteKeepsInv(ks: Keystream, marker: u8, s: State, i: nat)
    requires Inv(ks, marker, s) && Enabled(marker, s, Complete(i))
    ensures Inv(ks, marker, AfterComplete(s, i))
  {
  }

  /** Without a switch packet the cipher never turns on, so setting it up changes nothing that went out. */
  lemma {:induction false} SetupIsSilent(ks: Keystream, marker: u8, frames: seq<seq<u8>>)
    requires AreFrames(frames) && forall i :: 0 <= i < |frames| ==> frames[i][4] != marker
    ensures var (c, out) := TransmitAll(ks, marker, Cipher(false, false, 0), frames);
            c == Cipher(false, false, 0) && TransmitAll(ks, marker, Cipher(true, false, 0), frames) == (Cipher(true, false, 0), out)
    decreases |frames|
  {
    if frames != [] {
      SetupIsSilent(ks, marker, frames[1..]);
    }
  }

  lemma {:induction false} FrameAt(sequence: u8, bodies: seq<seq<u8>>, i: nat)
    requires i < |bodies|
    ensures Frames(sequence, bodies)[i] == Frame((sequence + i + 1) % 256, bodies[i])
    decreases |bodies|
  {
    if i > 0 {
      FrameAt(Next(sequence), bodies[1..], i - 1);
      NextPlus(sequence, i);
    }
  }

  lemma SetupKeepsInv(ks: Keystream, marker: u8, s: State)
    requires Inv(ks, marker, s) && Enabled(marker, s, Setup)
    ensures Inv(ks, marker, AfterSetup(s))
  {
    forall i | 0 <= i < |s.issued| ensures s.issued[i][4] != marker {
      FrameAt(0, s.accepted, i);
    }
    SetupIsSilent(ks, marker, s.issued);
  }

  lemma StepKeepsInv(ks: Keystream, marker: u8, s: State, step: Step)
    requires Inv(ks, marker, s) && Enabled(marker, s, step)
    ensures Inv(ks, marker, After(ks, marker, s, step))
  {
    match step
    case Setup => SetupKeepsInv(ks, marker, s);
    case Write(body) => WriteKeepsInv(ks, marker, s, body);
    case Enter(i) =>
    case Issue(i) => IssueKeepsInv(ks, marker, s, i);
    case Complete(i) => CompleteKeepsInv(ks, marker, s, i);
    case Fail(i) =>
  }

  // ----- Whole runs -----

  predicate Run(ks: Keystream, marker: u8, s: State, steps: seq<Step>, end: State)
    requires Inv(ks, marker, s)
    decreases |steps|
  {
    if steps == [] then end == s
    else
      && Enabled(marker, s, steps[0])
      && (StepKeepsInv(ks, marker, s, steps[0]); Run(ks, marker, After(ks, marker, s, steps[0]), steps[1..], end))
  }

  /** A run of a fresh connection. */
  predicate RunFromStart(ks: Keystream, marker: u8, steps: seq<Step>, end: State) {
    InitInv(ks, marker);
    Run(ks, marker, Initial, steps, end)
  }

  /** The bodies that the run's writers hand over and that are not too long, in order. */
  function Offered(steps: seq<Step>): seq<seq<u8>>
    decreases |steps|
  {
    if steps == [] then []
    else (if steps[0].Write? && Sendable(steps[0].body) then [steps[0].body] else []) + Offered(steps[1..])
  }

  lemma AcceptedStep(ks: Keystream, marker: u8, s: State, step: Step)
    requires Inv(ks, marker, s) && Enabled(marker, s, step)
    ensures After(ks, marker, s, step).accepted
         == s.accepted + if step.Write? && Sendable(step.body) then [step.body] else []
  {
  }

  lemma {:induction false} RunKeepsInv(ks: Keystream, marker: u8, s: State, steps: seq<Step>, end: State)
    requires Inv(ks, marker, s) && Run(ks, marker, s, steps, end)
    ensures Inv(ks, marker, end)
    ensures end.accepted == s.accepted + Offered(steps)
    decreases |steps|
  {
    hide Inv, Enabled, After;
    if steps == [] {
      assert s.accepted + Offered(steps) == s.accepted;
    } else {
      StepKeepsInv(ks, marker, s, steps[0]);
      AcceptedStep(ks, marker, s, steps[0]);
      RunKeepsInv(ks, marker, After(ks, marker, s, steps[0]), steps[1..], end);
      var first := if steps[0].Write? && Sendable(steps[0].body) then [steps[0].body] else [];
      assert (s.accepted + first) + Offered(steps[1..]) == s.accepted + (first + Offered(steps[1..]));
    }
  }

  lemma IssuedAt(ks: Keystream, marker: u8, s: State, k: nat)
    requires Inv(ks, marker, s) && k < |s.issued|
    ensures k < |s.accepted| && 1 <= |s.accepted[k]| <= 65532
    ensures var body := s.accepted[k];
            s.issued[k] == [85, (k + 1) % 256, |body| % 256, |body| / 256] + body
  {
    FrameAt(0, s.accepted, k);
    FrameBytes((k + 1) % 256, s.accepted[k]);
  }

  /** The bodies from 1 to 65532 bytes that the writers hand over, in order. */
  lemma {:induction false} OfferedAre(steps: seq<Step>)
    ensures forall k :: 0 <= k < |Offered(steps)| ==> 1 <= |Offered(steps)[k]| <= 65532
    ensures steps != [] ==>
              var first := steps[0];
              Offered(steps) == (if first.Write? && 1 <= |first.body| <= 65532 then [first.body] else []) + Offered(steps[1..])
    decreases |steps|
  {
    if steps != [] {
      OfferedAre(steps[1..]);
    }
  }

  /** In every interleaving, exactly the packets that are not too long are accepted, in the order of the writers'
      lock sections; frame k carries sequence number k + 1 mod 256 and its own length; what the socket has got is a
      prefix of these frames, each once; and it is all of them when nothing is queued. */
  lemma ExactlyOnceInOrder(ks: Keystream, marker: u8, steps: seq<Step>, end: State)
    requires RunFromStart(ks, marker, steps, end)
    ensures end.accepted == Offered(steps)
    ensures forall k :: 0 <= k < |end.issued| ==>
              k < |end.accepted| && 1 <= |end.accepted[k]| <= 65532 &&
              var body := end.accepted[k];
              end.issued[k] == [85, (k + 1) % 256, |body| % 256, |body| / 256] + body
    ensures |end.issued| <= |end.accepted|
    ensures end.queue == [] ==> |end.issued| == |end.accepted|
  {
    InitInv(ks, marker);
    RunKeepsInv(ks, marker, Initial, steps, end);
    assert [] + Offered(steps) == Offered(steps);
    forall k | 0 <= k < |end.issued|
      ensures k < |end.accepted| && 1 <= |end.accepted[k]| <= 65532
      ensures end.issued[k] == [85, (k + 1) % 256, |end.accepted[k]| % 256, |end.accepted[k]| / 256] + end.accepted[k]
    {
      IssuedAt(ks, marker, end, k);
    }
  }

  lemma {:induction false} FramesPrefix(sequence: u8, bodies: seq<seq<u8>>, n: nat)
    requires n <= |bodies|
    ensures Frames(sequence, bodies[..n]) == Frames(sequence, bodies)[..n]
    decreases n
  {
    if n > 0 {
      FramesPrefix(Next(sequence), bodies[1..], n - 1);
      assert bodies[..n][1..] == bodies[1..][..n - 1];
    }
  }

  /** The peer, reading the bytes that the socket has got so far, reads exactly the first accepted bodies, in order. */
  lemma PeerReadsInOrder(ks: Keystream, marker: u8, steps: seq<Step>, end: State)
    requires RunFromStart(ks, marker, steps, end)
    ensures |end.issued| <= |Offered(steps)|
    ensures var o := Receive(ks, marker, Receiver(0, Cipher(end.cipher.ready, false, 0)), end.wire);
            o.Received? && o.rest == 0 && o.bodies == Offered(steps)[..|end.issued|]
  {
    hide Receive, TransmitAll, Frames;
    InitInv(ks, marker);
    ExactlyOnceInOrder(ks, marker, steps, end);
    RunKeepsInv(ks, marker, Initial, steps, end);
    var sent := end.accepted[..|end.issued|];
    FramesPrefix(0, end.accepted, |end.issued|);
    StreamRoundTrip(ks, marker, Cipher(end.cipher.ready, false, 0), 0, sent);
  }

  lemma {:induction false} ReadyAfterSetup(ks: Keystream, marker: u8, s: State, steps: seq<Step>, end: State)
    requires Inv(ks, marker, s) && Run(ks, marker, s, steps, end)
    ensures end.cipher.ready <==> s.cipher.ready || exists i :: 0 <= i < |steps| && steps[i].Setup?
    decreases |steps|
  {
    hide Inv, Enabled;
    if steps != [] {
      StepKeepsInv(ks, marker, s, steps[0]);
      ReadyAfterSetup(ks, marker, After(ks, marker, s, steps[0]), steps[1..], end);
      ReadyStep(ks, marker, s, steps[0]);
      if i :| 0 <= i < |steps[1..]| && steps[1..][i].Setup? {
        assert steps[i + 1].Setup?;
      }
      if i :| 0 <= i < |steps| && steps[i].Setup? {
        if i > 0 { assert steps[1..][i - 1].Setup?; }
      }
    }
  }

  lemma ReadyStep(ks: Keystream, marker: u8, s: State, step: Step)
    requires Inv(ks, marker, s) && Enabled(marker, s, step)
    ensures After(ks, marker, s, step).cipher.ready == (s.cipher.ready || step.Setup?)
  {
  }

  /** What the socket has got in any interleaving: with a cipher set up, the frames up to the first whose body begins with
      the marker in clear, and everything after them enciphered with the keystream from its beginning; without one,
      everything in clear. */
  lemma WireIsClearThenEnciphered(ks: Keystream, marker: u8, steps: seq<Step>, end: State, k: nat)
    requires RunFromStart(ks, marker, steps, end)
    requires k <= |end.issued| && AreFrames(end.issued) && UpToMarker(marker, end.issued, k)
    ensures if exists i :: 0 <= i < |steps| && steps[i].Setup?
            then end.wire == Flatten(end.issued[..k]) + Crypt(ks, 0, Flatten(end.issued[k..]))
            else end.wire == Flatten(end.issued)
  {
    hide TransmitAll, Frames, Crypt;
    InitInv(ks, marker);
    RunKeepsInv(ks, marker, Initial, steps, end);
    ReadyAfterSetup(ks, marker, Initial, steps, end);
    if end.cipher.ready {
      ClearThenEnciphered(ks, marker, end.issued, k);
    } else {
      AllClear(ks, marker, end.issued);
    }
  }

  // ----- Progress -----

  predicate Activity(step: Step) {
    step.Enter? || step.Issue? || step.Complete?
  }

  /** How many sections the activities still have to run before the queue is empty. */
  function Remaining(s: State): int {
    3 * |s.queue| - (if s.tokens == [] || s.tokens[0].Start? then 0 else if s.tokens[0].Holding? then 1 else 2)
  }

  lemma ActivityCountsDown(ks: Keystream, marker: u8, s: State, step: Step)
    requires Inv(ks, marker, s) && Enabled(marker, s, step) && Activity(step)
    ensures Remaining(After(ks, marker, s, step)) == Remaining(s) - 1
    ensures After(ks, marker, s, step).failed == s.failed && After(ks, marker, s, step).accepted == s.accepted
  {
  }

  /** Unless an activity failed, some activity can move whenever a frame is queued. */
  lemma NeverStuck(ks: Keystream, marker: u8, s: State)
    requires Inv(ks, marker, s) && s.failed.None?
    ensures s.queue != [] <==> exists step :: Activity(step) && Enabled(marker, s, step)
    ensures s.queue != [] <==> Remaining(s) > 0
  {
    if s.queue != [] {
      var step := if s.tokens[0].Start? then Enter(0) else if s.tokens[0].Holding? then Issue(0) else Complete(0);
      assert Activity(step) && Enabled(marker, s, step);
    }
  }

  /** With no further writes and no failure, however the activities are scheduled, after Remaining(s) of their
      sections every accepted frame has been given to the socket. */
  lemma {:induction false} QueueDrains(ks: Keystream, marker: u8, s: State, steps: seq<Step>, end: State)
    requires Inv(ks, marker, s) && s.failed.None?
    requires Run(ks, marker, s, steps, end) && forall i :: 0 <= i < |steps| ==> Activity(steps[i])
    ensures |steps| <= Remaining(s)
    ensures |steps| == Remaining(s) ==> end.queue == [] && end.issued == Frames(0, s.accepted)
    decreases |steps|
  {
    if steps == [] {
      NeverStuck(ks, marker, s);
    } else {
      StepKeepsInv(ks, marker, s, steps[0]);
      ActivityCountsDown(ks, marker, s, steps[0]);
      QueueDrains(ks, marker, After(ks, marker, s, steps[0]), steps[1..], end);
    }
  }

  // ----- The sending half of a connection: one method per atomic section -----

  class Writer {
    const ks: Keystream
    const marker: u8
    var outgoingPackets: seq<seq<u8>>
    var outgoingSequence: u8
    var cipherReady: bool
    var encrypting: bool
    var offset: nat
    ghost var state: State

    ghost predicate Valid()
      reads this
    {
      && Inv(ks, marker, state)
      && outgoingPackets == state.queue
      && outgoingSequence == state.sequence
      && Cipher(cipherReady, encrypting, offset) == state.cipher
    }

    constructor (ks: Keystream, marker: u8)
      ensures Valid() && state == Initial && this.ks == ks && this.marker == marker
    {
      hide Inv;
      InitInv(ks, marker);
      this.ks, this.marker := ks, marker;
      outgoingPackets, outgoingSequence := [], 0;
      cipherReady, encrypting, offset := false, false, 0;
      state := Initial;
    }

    /** The lock section of WritePacket; the caller goes on to asyncWrite when the queue was idle.
        The length in the header is the packet's 16-bit counter, and the packet's own size decides the drop. */
    method WritePacket(packet: Packet) returns (queueIdle: bool)
      requires Valid() && packet.Unsent() && packet.buffer != []
      modifies this`outgoingPackets, this`outgoingSequence, this`state, packet`sequence, packet`buffer
      ensures Valid() && state == AfterWrite(old(state), old(packet.buffer))
      ensures queueIdle <==> |state.tokens| > |old(state.tokens)|
      ensures state != old(state) ==> outgoingPackets == old(outgoingPackets) + [packet.buffer]
      ensures state != old(state) ==> packet.length == |old(packet.buffer)|
      ensures state != old(state) <==> |old(packet.buffer)| <= 65532
      ensures state != old(state) ==> outgoingSequence == (old(outgoingSequence) + 1) % 256
    {
      hide Inv;
      queueIdle := false;
      ghost var body := packet.buffer;
      WriteKeepsInv(ks, marker, state, body);
      var sequence := (outgoingSequence + 1) % 256;
      packet.SetSequence(sequence);
      packet.WriteHeader();
      assert packet.buffer == Frame(sequence, body);
      if |packet.buffer| > TCP_PACKET_MAX_SIZE {
        return;
      }
      outgoingSequence := sequence;
      queueIdle := outgoingPackets == [];
      outgoingPackets := outgoingPackets + [packet.buffer];
      state := AfterWrite(state, body);
    }

    /** The lock section of asyncWrite: a copy of the front frame, if there is one. */
    method CopyFront(ghost i: nat) returns (front: Option<seq<u8>>)
      requires Valid() && Enabled(marker, state, Enter(i))
      modifies this`state
      ensures Valid() && state == AfterEnter(old(state), i)
      ensures front == if outgoingPackets == [] then None else Some(outgoingPackets[0])
    {
      StepKeepsInv(ks, marker, state, Enter(i));
      front := if outgoingPackets == [] then None else Some(outgoingPackets[0]);
      state := AfterEnter(state, i);
    }

    /** The rest of asyncWrite: the bytes for the socket. */
    method Encipher(ghost i: nat, original: seq<u8>) returns (buffer: seq<u8>)
      requires Valid() && Enabled(marker, state, Issue(i)) && state.tokens[i].frame == original
      modifies this`encrypting, this`offset, this`state
      ensures |original| > PACKET_HEADER_SIZE
      ensures Valid() && state == AfterIssue(ks, marker, old(state), i)
      ensures state.wire == old(state.wire) + buffer
      ensures buffer == if cipherReady && old(encrypting) then Crypt(ks, old(offset), original) else original
      ensures offset == old(offset) + if cipherReady && old(encrypting) then |original| else 0
      ensures encrypting == (old(encrypting) || (cipherReady && original[4] == marker))
    {
      IssueKeepsInv(ks, marker, state, i);
      state := AfterIssue(ks, marker, state, i);
      buffer := original;
      if cipherReady {
        if encrypting {
          buffer := Crypt(ks, offset, buffer);
          offset := offset + |buffer|;
        } else if buffer[4] == marker {
          encrypting := true;
        }
      }
    }

    /** The lock section of onWrite; the handler goes on to asyncWrite unless the queue is now idle. */
    method PopFront(ghost i: nat) returns (queueIdle: bool)
      requires Valid() && Enabled(marker, state, Complete(i))
      modifies this`outgoingPackets, this`state
      ensures Valid() && state == AfterComplete(old(state), i)
      ensures outgoingPackets == old(outgoingPackets)[1..]
      ensures queueIdle <==> state.tokens == []
    {
      CompleteKeepsInv(ks, marker, state, i);
      state := AfterComplete(state, i);
      outgoingPackets := outgoingPackets[1..];
      queueIdle := outgoingPackets == [];
    }
  }
}
