/** Framing of packets on the byte stream, and the one-way switch to a stream cipher. */
module Stream {
  import opened Bytes
  import opened Packets

  /** The cipher is an exclusive or with a keystream, indexed by how many bytes it has processed. */
  type Keystream = nat -> u8

  /** One direction of one endpoint: is a cipher set up, has the switch happened, how much keystream is used. */
  datatype Cipher = Cipher(ready: bool, on: bool, offset: nat) {
    predicate Active() {
      ready && on
    }

    /** The bytes as they leave: through the keystream once the cipher is active. */
    function Pass(ks: Keystream, bytes: seq<u8>): (r: seq<u8>)
      ensures |r| == |bytes|
    {
      if Active() then Crypt(ks, offset, bytes) else bytes
    }

    function Advance(n: nat): Cipher {
      if Active() then this.(offset := offset + n) else this
    }

    /** The switch: a clear body that starts with the marker turns the cipher on for what follows it. */
    function Watch(marker: u8, first: u8): Cipher {
      if ready && !on && first == marker then this.(on := true) else this
    }
  }

  function Crypt(ks: Keystream, offset: nat, bytes: seq<u8>): (r: seq<u8>)
    ensures |r| == |bytes|
    ensures forall i :: 0 <= i < |bytes| ==> r[i] == XorByte(bytes[i], ks(offset + i))
  {
    seq(|bytes|, i requires 0 <= i < |bytes| => XorByte(bytes[i], ks(offset + i)))
  }

  lemma CryptTwice(ks: Keystream, offset: nat, bytes: seq<u8>)
    ensures Crypt(ks, offset, Crypt(ks, offset, bytes)) == bytes
  {
    var once := Crypt(ks, offset, bytes);
    forall i | 0 <= i < |bytes| ensures Crypt(ks, offset, once)[i] == bytes[i] {
      XorSelfInverse(bytes[i], ks(offset + i));
    }
  }

  lemma PassTwice(ks: Keystream, c: Cipher, bytes: seq<u8>)
    ensures c.Pass(ks, c.Pass(ks, bytes)) == bytes
  {
    CryptTwice(ks, c.offset, bytes);
  }

  /** Processing header and body one after the other is processing them at once. */
  lemma PassSplit(ks: Keystream, c: Cipher, a: seq<u8>, b: seq<u8>)
    ensures c.Pass(ks, a + b) == c.Pass(ks, a) + c.Advance(|a|).Pass(ks, b)
    ensures c.Advance(|a + b|) == c.Advance(|a|).Advance(|b|)
  {
  }

  // ----- Sending -----

  predicate IsBody(body: seq<u8>) {
    1 <= |body| < 0x1_0000
  }

  function Next(sequence: u8): u8 {
    (sequence + 1) % 256
  }

  lemma NextPlus(sequence: u8, n: nat)
    ensures (Next(sequence) + n) % 256 == (sequence + n + 1) % 256
  {
    if sequence == 255 {
      assert (255 + n + 1) % 256 == n % 256;
    }
  }

  function Frame(sequence: u8, body: seq<u8>): (frame: seq<u8>)
    ensures |frame| == PACKET_HEADER_SIZE + |body|
  {
    Header(sequence, |body| % 0x1_0000) + body
  }

  /** The frames of consecutive packets after the one numbered `sequence`. */
  function Frames(sequence: u8, bodies: seq<seq<u8>>): (fs: seq<seq<u8>>)
    ensures |fs| == |bodies|
    decreases |bodies|
  {
    if bodies == [] then [] else [Frame(Next(sequence), bodies[0])] + Frames(Next(sequence), bodies[1..])
  }

  /** What goes out for one frame. The frame whose body starts with the marker is the last clear one. */
  function Transmit(ks: Keystream, marker: u8, c: Cipher, frame: seq<u8>): (Cipher, seq<u8>)
    requires |frame| > PACKET_HEADER_SIZE
  {
    (c.Advance(|frame|).Watch(marker, frame[4]), c.Pass(ks, frame))
  }

  predicate AreFrames(frames: seq<seq<u8>>) {
    forall i :: 0 <= i < |frames| ==> |frames[i]| > PACKET_HEADER_SIZE
  }

  function TransmitAll(ks: Keystream, marker: u8, c: Cipher, frames: seq<seq<u8>>): (Cipher, seq<u8>)
    requires AreFrames(frames)
    decreases |frames|
  {
    if frames == [] then (c, [])
    else
      var (c1, out) := Transmit(ks, marker, c, frames[0]);
      var (c2, outs) := TransmitAll(ks, marker, c1, frames[1..]);
      (c2, out + outs)
  }

  lemma {:induction false} FramesAreFrames(sequence: u8, bodies: seq<seq<u8>>)
    requires forall i :: 0 <= i < |bodies| ==> IsBody(bodies[i])
    ensures AreFrames(Frames(sequence, bodies))
    decreases |bodies|
  {
    if bodies != [] {
      FramesAreFrames(Next(sequence), bodies[1..]);
    }
  }

  /** The bytes that consecutive packets put on the wire. */
  function Emit(ks: Keystream, marker: u8, c: Cipher, sequence: u8, bodies: seq<seq<u8>>): seq<u8>
    requires forall i :: 0 <= i < |bodies| ==> IsBody(bodies[i])
  {
    FramesAreFrames(sequence, bodies);
    TransmitAll(ks, marker, c, Frames(sequence, bodies)).1
  }

  /** The sender's cipher state after them. */
  function CipherAfter(ks: Keystream, marker: u8, c: Cipher, sequence: u8, bodies: seq<seq<u8>>): Cipher
    requires forall i :: 0 <= i < |bodies| ==> IsBody(bodies[i])
  {
    FramesAreFrames(sequence, bodies);
    TransmitAll(ks, marker, c, Frames(sequence, bodies)).0
  }

  lemma {:induction false} TransmitAppend(ks: Keystream, marker: u8, c: Cipher, frames: seq<seq<u8>>, frame: seq<u8>)
    requires AreFrames(frames) && |frame| > PACKET_HEADER_SIZE
    ensures var (c1, out) := TransmitAll(ks, marker, c, frames);
            var (c2, last) := Transmit(ks, marker, c1, frame);
            TransmitAll(ks, marker, c, frames + [frame]) == (c2, out + last)
    decreases |frames|
  {
    if frames == [] {
      var (c2, last) := Transmit(ks, marker, c, frame);
      assert [] + [frame] == [frame] && [frame][1..] == [];
      assert last + [] == last && [] + last == last;
    } else {
      var (c1, out) := Transmit(ks, marker, c, frames[0]);
      var (c2, outs) := TransmitAll(ks, marker, c1, frames[1..]);
      var (_, last) := Transmit(ks, marker, c2, frame);
      TransmitAppend(ks, marker, c1, frames[1..], frame);
      assert (frames + [frame])[1..] == frames[1..] + [frame];
      assert out + (outs + last) == (out + outs) + last;
    }
  }

  /** A frame byte by byte: the signature, the number, the length with its low byte first, the body. */
  lemma FrameBytes(sequence: u8, body: seq<u8>)
    requires |body| < 0x1_0000
    ensures Frame(sequence, body) == [85, sequence, |body| % 256, |body| / 256] + body
  {
  }

  // ----- What leaves in clear and what does not -----

  lemma CryptAppend(ks: Keystream, offset: nat, a: seq<u8>, b: seq<u8>)
    ensures Crypt(ks, offset, a + b) == Crypt(ks, offset, a) + Crypt(ks, offset + |a|, b)
  {
    hide XorByte;
  }

  /** Before a cipher is set up everything leaves in clear. */
  lemma {:induction false} AllClear(ks: Keystream, marker: u8, frames: seq<seq<u8>>)
    requires AreFrames(frames)
    ensures TransmitAll(ks, marker, Cipher(false, false, 0), frames) == (Cipher(false, false, 0), Flatten(frames))
    decreases |frames|
  {
    if frames != [] {
      AllClear(ks, marker, frames[1..]);
    }
  }

  /** After the switch everything goes through the keystream, which is never reused. */
  lemma {:induction false} AllEnciphered(ks: Keystream, marker: u8, offset: nat, frames: seq<seq<u8>>)
    requires AreFrames(frames)
    ensures TransmitAll(ks, marker, Cipher(true, true, offset), frames)
         == (Cipher(true, true, offset + |Flatten(frames)|), Crypt(ks, offset, Flatten(frames)))
    decreases |frames|
  {
    hide Crypt;
    if frames == [] {
      assert Crypt(ks, offset, []) == [];
    } else {
      AllEnciphered(ks, marker, offset + |frames[0]|, frames[1..]);
      CryptAppend(ks, offset, frames[0], Flatten(frames[1..]));
    }
  }

  /** The first k frames are those up to and including the first whose body begins with the marker, or all of them. */
  predicate UpToMarker(marker: u8, frames: seq<seq<u8>>, k: nat)
    requires AreFrames(frames) && k <= |frames|
  {
    && (forall i :: 0 <= i < k - 1 ==> frames[i][4] != marker)
    && (k < |frames| ==> k > 0 && frames[k - 1][4] == marker)
  }

  /** With a cipher set up, the frames up to the marker leave in clear, and all bytes after them are enciphered with the
      keystream from its beginning. */
  lemma {:induction false} ClearThenEnciphered(ks: Keystream, marker: u8, frames: seq<seq<u8>>, k: nat)
    requires AreFrames(frames) && k <= |frames| && UpToMarker(marker, frames, k)
    ensures TransmitAll(ks, marker, Cipher(true, false, 0), frames).1
         == Flatten(frames[..k]) + Crypt(ks, 0, Flatten(frames[k..]))
    decreases |frames|
  {
    hide Crypt;
    if frames == [] {
      assert Crypt(ks, 0, []) == [];
    } else {
      var rest := frames[1..];
      assert frames[..k][1..] == rest[..k - 1] && frames[k..] == rest[k - 1..];
      if frames[0][4] == marker {
        assert k == 1;
        AllEnciphered(ks, marker, 0, rest);
        assert Flatten(frames[..1]) == frames[0] by { assert frames[..1][1..] == []; }
      } else {
        forall i | 0 <= i < k - 2 ensures rest[i][4] != marker {
          assert rest[i] == frames[i + 1];
        }
        ClearThenEnciphered(ks, marker, rest, k - 1);
        assert Flatten(frames[..k]) == frames[0] + Flatten(rest[..k - 1]);
      }
    }
  }

  lemma {:induction false} FramesAppend(sequence: u8, bodies: seq<seq<u8>>, body: seq<u8>)
    ensures Frames(sequence, bodies + [body])
         == Frames(sequence, bodies) + [Frame(Next((sequence + |bodies|) % 256), body)]
    decreases |bodies|
  {
    hide Frame, Next;
    if bodies == [] {
      assert [] + [body] == [body] && [body][1..] == [];
      assert Frames(sequence, [body]) == [Frame(Next(sequence), body)] + Frames(Next(sequence), [body][1..]);
      assert (sequence + 0) % 256 == sequence;
    } else {
      NextPlus(sequence, |bodies| - 1);
      FramesAppend(Next(sequence), bodies[1..], body);
      assert (bodies + [body])[1..] == bodies[1..] + [body];
    }
  }

  // ----- Receiving -----

  datatype Receiver = Receiver(sequence: u8, cipher: Cipher)

  /** A header is accepted with the body length it announces, or the connection is dropped. */
  datatype HeaderResult = Accept(length: u16) | Drop

  /** The receiver with its counter advanced and the header's keystream used, and its verdict. */
  function TakeHeader(ks: Keystream, r: Receiver, bytes: seq<u8>): (Receiver, HeaderResult)
    requires |bytes| == PACKET_HEADER_SIZE
  {
    var h := r.cipher.Pass(ks, bytes);
    var r1 := Receiver(Next(r.sequence), r.cipher.Advance(|bytes|));
    var length: u16 := h[2] as int + 256 * (h[3] as int);
    (r1, if h[0] == TCP_PACKET_SIGNATURE && h[1] == r1.sequence && length != 0 then Accept(length) else Drop)
  }

  function TakeBody(ks: Keystream, marker: u8, r: Receiver, bytes: seq<u8>): (r': (Receiver, seq<u8>))
    requires |bytes| > 0
    ensures |r'.1| == |bytes|
  {
    var body := r.cipher.Pass(ks, bytes);
    (r.(cipher := r.cipher.Advance(|bytes|).Watch(marker, body[0])), body)
  }

  /** Everything read off a stream: the packet bodies, then either unread bytes of an unfinished packet or a dropped connection. */
  datatype Outcome = Received(bodies: seq<seq<u8>>, rest: nat, after: Receiver) | Dropped(bodies: seq<seq<u8>>)

  function Prepend(body: seq<u8>, o: Outcome): Outcome {
    o.(bodies := [body] + o.bodies)
  }

  function Receive(ks: Keystream, marker: u8, r: Receiver, bytes: seq<u8>): Outcome
    decreases |bytes|
  {
    if |bytes| < PACKET_HEADER_SIZE then Received([], |bytes|, r)
    else
      var (r1, verdict) := TakeHeader(ks, r, bytes[..4]);
      if verdict.Drop? then Dropped([])
      else if |bytes| < 4 + verdict.length then Received([], |bytes|, r)
      else
        var (r2, body) := TakeBody(ks, marker, r1, bytes[4..4 + verdict.length]);
        Prepend(body, Receive(ks, marker, r2, bytes[4 + verdict.length..]))
  }

  lemma HeaderAccepted(ks: Keystream, c: Cipher, sequence: u8, length: u16)
    requires length > 0
    ensures TakeHeader(ks, Receiver(sequence, c), c.Pass(ks, Header(Next(sequence), length)))
         == (Receiver(Next(sequence), c.Advance(4)), Accept(length))
  {
    PassTwice(ks, c, Header(Next(sequence), length));
  }

  /** Reading one packet that is complete on the stream. */
  lemma ReceiveOne(ks: Keystream, marker: u8, r: Receiver, head: seq<u8>, tail: seq<u8>, rest: seq<u8>)
    requires |head| == PACKET_HEADER_SIZE && IsBody(tail)
    requires TakeHeader(ks, r, head).1 == Accept(|tail|)
    ensures var (r1, _) := TakeHeader(ks, r, head);
            var (r2, body) := TakeBody(ks, marker, r1, tail);
            Receive(ks, marker, r, head + tail + rest) == Prepend(body, Receive(ks, marker, r2, rest))
  {
    var bytes := head + tail + rest;
    assert bytes[..4] == head && bytes[4..4 + |tail|] == tail && bytes[4 + |tail|..] == rest;
  }

  /** When reading stops: the stream is too short for a header or for its body, or the header is refused. */
  lemma StopsReading(ks: Keystream, marker: u8, r: Receiver, bytes: seq<u8>)
    ensures |bytes| < PACKET_HEADER_SIZE ==> Receive(ks, marker, r, bytes) == Received([], |bytes|, r)
    ensures |bytes| >= PACKET_HEADER_SIZE ==>
              var verdict := TakeHeader(ks, r, bytes[..4]).1;
              && (verdict.Drop? ==> Receive(ks, marker, r, bytes) == Dropped([]))
              && (verdict.Accept? && |bytes| < 4 + verdict.length ==> Receive(ks, marker, r, bytes) == Received([], |bytes|, r))
              && (verdict.Accept? ==> verdict.length > 0)
  {
  }

  /** Reading ends the connection exactly at a header with another signature than 85, a number that is not the next one, or
      length 0; and a packet that is not all there yet is left alone. The header is deciphered first if the switch is past. */
  lemma HeaderIsRefusedIff(ks: Keystream, marker: u8, r: Receiver, bytes: seq<u8>)
    requires |bytes| >= 4
    ensures var h := if r.cipher.ready && r.cipher.on then Crypt(ks, r.cipher.offset, bytes[..4]) else bytes[..4];
            var refused := h[0] != 85 || h[1] != (r.sequence + 1) % 256 || (h[2] == 0 && h[3] == 0);
            && (Receive(ks, marker, r, bytes) == Dropped([]) <==> refused)
            && (!refused && |bytes| < 4 + (h[2] as int) + 256 * (h[3] as int) ==> Receive(ks, marker, r, bytes) == Received([], |bytes|, r))
  {
    hide Crypt, XorByte;
  }

  /** One transmitted frame is taken off the front of the stream, and both ends keep the same cipher state. */
  lemma FrameReceived(ks: Keystream, marker: u8, c: Cipher, sequence: u8, body: seq<u8>, rest: seq<u8>)
    requires IsBody(body)
    ensures var (c1, out) := Transmit(ks, marker, c, Frame(Next(sequence), body));
            Receive(ks, marker, Receiver(sequence, c), out + rest)
            == Prepend(body, Receive(ks, marker, Receiver(Next(sequence), c1), rest))
  {
    hide Receive, TakeHeader, Crypt, XorByte;
    var h := Header(Next(sequence), |body|);
    var head, tail := c.Pass(ks, h), c.Advance(4).Pass(ks, body);
    PassSplit(ks, c, h, body);
    HeaderAccepted(ks, c, sequence, |body|);
    PassTwice(ks, c.Advance(4), body);
    ReceiveOne(ks, marker, Receiver(sequence, c), head, tail, rest);
    assert Frame(Next(sequence), body)[4] == body[0];
  }

  /** Whatever is sent, the receiver reads back the same bodies and ends in step, with nothing left over:
      every signature, sequence and length check passes across the switch to the cipher. */
  lemma {:induction false} StreamRoundTrip(ks: Keystream, marker: u8, c: Cipher, sequence: u8, bodies: seq<seq<u8>>)
    requires forall i :: 0 <= i < |bodies| ==> IsBody(bodies[i])
    ensures Receive(ks, marker, Receiver(sequence, c), Emit(ks, marker, c, sequence, bodies))
         == Received(bodies, 0, Receiver((sequence + |bodies|) % 256, CipherAfter(ks, marker, c, sequence, bodies)))
    decreases |bodies|
  {
    hide Receive, Emit, CipherAfter, Transmit, Next;
    if bodies == [] {
      NothingSent(ks, marker, Receiver(sequence, c));
    } else {
      var body, tail := bodies[0], bodies[1..];
      assert bodies == [body] + tail;
      NextPlus(sequence, |tail|);
      RoundTripStep(ks, marker, c, sequence, body, tail);
      StreamRoundTrip(ks, marker, Transmit(ks, marker, c, Frame(Next(sequence), body)).0, Next(sequence), tail);
    }
  }

  lemma NothingSent(ks: Keystream, marker: u8, r: Receiver)
    ensures Emit(ks, marker, r.cipher, r.sequence, []) == []
    ensures CipherAfter(ks, marker, r.cipher, r.sequence, []) == r.cipher
    ensures Receive(ks, marker, r, []) == Received([], 0, r)
  {
  }

  lemma RoundTripStep(ks: Keystream, marker: u8, c: Cipher, sequence: u8, body: seq<u8>, tail: seq<seq<u8>>)
    requires IsBody(body) && forall i :: 0 <= i < |tail| ==> IsBody(tail[i])
    ensures forall i :: 0 <= i < |[body] + tail| ==> IsBody(([body] + tail)[i])
    ensures var c1 := Transmit(ks, marker, c, Frame(Next(sequence), body)).0;
            && Receive(ks, marker, Receiver(sequence, c), Emit(ks, marker, c, sequence, [body] + tail))
               == Prepend(body, Receive(ks, marker, Receiver(Next(sequence), c1), Emit(ks, marker, c1, Next(sequence), tail)))
            && CipherAfter(ks, marker, c, sequence, [body] + tail) == CipherAfter(ks, marker, c1, Next(sequence), tail)
  {
    var c1 := Transmit(ks, marker, c, Frame(Next(sequence), body)).0;
    EmitCons(ks, marker, c, sequence, body, tail);
    FrameReceived(ks, marker, c, sequence, body, Emit(ks, marker, c1, Next(sequence), tail));
  }

  /** A header that is accepted is the one the sender writes for that sequence and length. */
  lemma AcceptedHeader(ks: Keystream, r: Receiver, bytes: seq<u8>)
    requires |bytes| == PACKET_HEADER_SIZE
    requires TakeHeader(ks, r, bytes).1.Accept?
    ensures bytes == r.cipher.Pass(ks, Header(Next(r.sequence), TakeHeader(ks, r, bytes).1.length))
  {
    var h := Header(Next(r.sequence), TakeHeader(ks, r, bytes).1.length);
    assert r.cipher.Pass(ks, bytes) == h;
    PassTwice(ks, r.cipher, bytes);
  }

  lemma OneFrameBack(ks: Keystream, marker: u8, r: Receiver, head: seq<u8>, tail: seq<u8>)
    requires |head| == PACKET_HEADER_SIZE && IsBody(tail)
    requires TakeHeader(ks, r, head).1 == Accept(|tail|)
    ensures var (r1, _) := TakeHeader(ks, r, head);
            var (r2, body) := TakeBody(ks, marker, r1, tail);
            && r2.sequence == Next(r.sequence)
            && Transmit(ks, marker, r.cipher, Frame(Next(r.sequence), body)) == (r2.cipher, head + tail)
  {
    var (r1, _) := TakeHeader(ks, r, head);
    var (r2, body) := TakeBody(ks, marker, r1, tail);
    AcceptedHeader(ks, r, head);
    PassTwice(ks, r1.cipher, tail);
    PassSplit(ks, r.cipher, Header(Next(r.sequence), |body|), body);
    assert Frame(Next(r.sequence), body)[4] == body[0];
  }

  /** The converse: a stream that is read without leftover is byte for byte what the sender emits for those bodies. */
  lemma {:induction false} OnlyEmittedIsReceived(ks: Keystream, marker: u8, r: Receiver, bytes: seq<u8>)
    requires var o := Receive(ks, marker, r, bytes); o.Received? && o.rest == 0
    ensures var bodies := Receive(ks, marker, r, bytes).bodies;
            && (forall i :: 0 <= i < |bodies| ==> IsBody(bodies[i]))
            && bytes == Emit(ks, marker, r.cipher, r.sequence, bodies)
    decreases |bytes|
  {
    hide Receive, TakeHeader, TakeBody, Emit;
    StopsReading(ks, marker, r, bytes);
    if |bytes| < PACKET_HEADER_SIZE {
      NothingSent(ks, marker, r);
    } else {
      var (r1, verdict) := TakeHeader(ks, r, bytes[..4]);
      var head, tail, rest := bytes[..4], bytes[4..4 + verdict.length], bytes[4 + verdict.length..];
      assert bytes == head + tail + rest;
      ReceiveOne(ks, marker, r, head, tail, rest);
      OnlyEmittedIsReceived(ks, marker, TakeBody(ks, marker, r1, tail).0, rest);
      EmittedStep(ks, marker, r, head, tail, rest);
    }
  }

  lemma EmittedStep(ks: Keystream, marker: u8, r: Receiver, head: seq<u8>, tail: seq<u8>, rest: seq<u8>)
    requires |head| == PACKET_HEADER_SIZE && IsBody(tail)
    requires TakeHeader(ks, r, head).1 == Accept(|tail|)
    requires var r2 := TakeBody(ks, marker, TakeHeader(ks, r, head).0, tail).0;
             var bodies := Receive(ks, marker, r2, rest).bodies;
             && (forall i :: 0 <= i < |bodies| ==> IsBody(bodies[i]))
             && rest == Emit(ks, marker, r2.cipher, r2.sequence, bodies)
    ensures var bodies := Receive(ks, marker, r, head + tail + rest).bodies;
            && (forall i :: 0 <= i < |bodies| ==> IsBody(bodies[i]))
            && head + tail + rest == Emit(ks, marker, r.cipher, r.sequence, bodies)
  {
    var (r2, body) := TakeBody(ks, marker, TakeHeader(ks, r, head).0, tail);
    ReceiveOne(ks, marker, r, head, tail, rest);
    OneFrameBack(ks, marker, r, head, tail);
    EmitCons(ks, marker, r.cipher, r.sequence, body, Receive(ks, marker, r2, rest).bodies);
  }

  lemma EmitCons(ks: Keystream, marker: u8, c: Cipher, sequence: u8, body: seq<u8>, bodies: seq<seq<u8>>)
    requires IsBody(body) && forall i :: 0 <= i < |bodies| ==> IsBody(bodies[i])
    ensures forall i :: 0 <= i < |[body] + bodies| ==> IsBody(([body] + bodies)[i])
    ensures var (c1, out) := Transmit(ks, marker, c, Frame(Next(sequence), body));
            && Emit(ks, marker, c, sequence, [body] + bodies) == out + Emit(ks, marker, c1, Next(sequence), bodies)
            && CipherAfter(ks, marker, c, sequence, [body] + bodies) == CipherAfter(ks, marker, c1, Next(sequence), bodies)
  {
    assert ([body] + bodies)[1..] == bodies;
    FramesAreFrames(sequence, [body] + bodies);
    FramesAreFrames(Next(sequence), bodies);
  }

  // ----- The receiving half of a connection -----

  class Reader {
    const ks: Keystream
    const marker: u8
    var incomingSequence: u8
    var cipherReady: bool
    var decrypting: bool
    var offset: nat
    var incomingPackets: seq<seq<u8>>

    constructor (ks: Keystream, marker: u8)
      ensures this.ks == ks && this.marker == marker
      ensures State() == Receiver(0, Cipher(false, false, 0)) && incomingPackets == []
    {
      this.ks, this.marker := ks, marker;
      incomingSequence, cipherReady, decrypting, offset, incomingPackets := 0, false, false, 0, [];
    }

    ghost function State(): Receiver
      reads this
    {
      Receiver(incomingSequence, Cipher(cipherReady, decrypting, offset))
    }

    method Decrypt(bytes: seq<u8>) returns (plain: seq<u8>)
      modifies this`offset
      ensures plain == Crypt(ks, old(offset), bytes) && offset == old(offset) + |bytes|
    {
      plain := Crypt(ks, offset, bytes);
      offset := offset + |bytes|;
    }

    method OnReadHeader(bytes: seq<u8>) returns (verdict: HeaderResult)
      requires |bytes| == PACKET_HEADER_SIZE
      modifies this`incomingSequence, this`offset
      ensures (State(), verdict) == TakeHeader(ks, old(State()), bytes)
      ensures incomingSequence == (old(incomingSequence) + 1) % 256
      ensures offset == old(offset) + if cipherReady && decrypting then 4 else 0
    {
      var header := bytes;
      if cipherReady {
        if decrypting {
          header := Decrypt(header);
        }
      }
      incomingSequence := (incomingSequence + 1) % 256;
      var signature, sequence := header[0], header[1];
      var length: u16 := header[2] as int + 256 * (header[3] as int);
      if signature != TCP_PACKET_SIGNATURE { return Drop; }
      if sequence != incomingSequence { return Drop; }
      if length == 0 { return Drop; }
      verdict := Accept(length);
    }

    method OnReadBody(bytes: seq<u8>)
      requires |bytes| > 0
      modifies this`decrypting, this`offset, this`incomingPackets
      ensures State() == TakeBody(ks, marker, old(State()), bytes).0
      ensures incomingPackets == old(incomingPackets) + [TakeBody(ks, marker, old(State()), bytes).1]
      ensures incomingPackets == old(incomingPackets)
                                 + [if cipherReady && old(decrypting) then Crypt(ks, old(offset), bytes) else bytes]
      ensures decrypting == (old(decrypting) || (cipherReady && bytes[0] == marker))
    {
      var body := bytes;
      if cipherReady {
        if decrypting {
          body := Decrypt(body);
        } else if body[0] == marker {
          decrypting := true;
        }
      }
      incomingPackets := incomingPackets + [body];
    }

    /** Reads header and body in turn until the stream runs out or a header is refused. */
    method ReadAll(bytes: seq<u8>) returns (dropped: bool)
      modifies this
      ensures var o := Receive(ks, marker, old(State()), bytes);
              && incomingPackets == old(incomingPackets) + o.bodies
              && dropped == o.Dropped?
    {
      hide Receive, TakeHeader, TakeBody, XorByte;
      ghost var whole := Receive(ks, marker, State(), bytes);
      var left := bytes;
      while PACKET_HEADER_SIZE <= |left|
        invariant ghost var o := Receive(ks, marker, State(), left);
                  && o.Dropped? == whole.Dropped?
                  && incomingPackets + o.bodies == old(incomingPackets) + whole.bodies
        decreases |left|
      {
        ghost var r, packets := State(), incomingPackets;
        StopsReading(ks, marker, r, left);
        var verdict := OnReadHeader(left[..4]);
        if verdict.Drop? {
          return true;
        }
        if |left| < 4 + verdict.length {
          return false;
        }
        var tail, rest := left[4..4 + verdict.length], left[4 + verdict.length..];
        OnReadBody(tail);
        assert left == left[..4] + tail + rest;
        ReceiveOne(ks, marker, r, left[..4], tail, rest);
        Associative(packets, incomingPackets[|packets|], Receive(ks, marker, State(), rest).bodies);
        left := rest;
      }
      StopsReading(ks, marker, State(), left);
      dropped := false;
    }
  }

  lemma Associative(a: seq<seq<u8>>, b: seq<u8>, c: seq<seq<u8>>)
    ensures (a + [b]) + c == a + ([b] + c)
  {
  }
}
