/** The growing packet buffer of the TCP layer, with its read and write cursors. */
module Packets {
  import opened Bytes

  const TCP_PACKET_SIGNATURE: u8 := 85
  const PACKET_HEADER_SIZE := 4
  const TCP_PACKET_MAX_SIZE := 0x10000

  /** What a fixed-size read at `off` yields: the value and the new cursor. A short read yields 0 and stays put. */
  function ReadNum(buf: seq<u8>, off: nat, size: nat, le: bool): (nat, nat)
    requires off <= |buf|
  {
    if off + size > |buf| then (0, off)
    else
      var bs := buf[off..off + size];
      (FromLE(if le then bs else Reverse(bs)), off + size)
  }

  /** What a string read at `off` yields. The string ends at a zero byte, which is consumed, or at the end of the buffer. */
  function ReadStr(buf: seq<u8>, off: nat): (r: (seq<u8>, nat))
    requires off <= |buf|
    ensures off <= r.1 <= |buf|
    ensures 0 !in r.0
    decreases |buf| - off
  {
    if off == |buf| then ([], off)
    else if buf[off] == 0 then ([], off + 1)
    else
      var (s, end) := ReadStr(buf, off + 1);
      ([buf[off]] + s, end)
  }

  function EncodeNum(val: nat, size: nat, le: bool): (bs: seq<u8>)
    ensures |bs| == size
  {
    if le then LE(val, size) else Reverse(LE(val, size))
  }

  /** The buffer with `bs` inserted at `at`. */
  function Insert(buf: seq<u8>, at: nat, bs: seq<u8>): (r: seq<u8>)
    requires at <= |buf|
    ensures |r| == |buf| + |bs|
  {
    buf[..at] + bs + buf[at..]
  }

  /** What stood before the cursor stays, what stood after it moves behind the new bytes. */
  lemma InsertedAt(buf: seq<u8>, at: nat, bs: seq<u8>, i: nat)
    requires at <= |buf| && i < |buf| + |bs|
    ensures Insert(buf, at, bs)[i] == if i < at then buf[i] else if i < at + |bs| then bs[i - at] else buf[i - |bs|]
  {
  }

  /** A number that is not all there reads as zero, and nothing is consumed. */
  lemma ShortRead(buf: seq<u8>, off: nat, size: nat, le: bool)
    requires off <= |buf| < off + size
    ensures ReadNum(buf, off, size, le) == (0, off)
  {
  }

  /** A string without a terminator is everything that is left. */
  lemma {:induction false} UnterminatedString(buf: seq<u8>, off: nat)
    requires off <= |buf| && 0 !in buf[off..]
    ensures ReadStr(buf, off) == (buf[off..], |buf|)
    decreases |buf| - off
  {
    if off < |buf| {
      var rest := buf[off..];
      assert rest[0] in rest && rest[0] == buf[off] && rest[1..] == buf[off + 1..] && rest == [buf[off]] + rest[1..];
      UnterminatedString(buf, off + 1);
    } else {
      assert buf[off..] == [];
    }
  }

  lemma InsertNothing(buf: seq<u8>, at: nat)
    requires at <= |buf|
    ensures Insert(buf, at, []) == buf
  {
  }

  /** Two insertions at a cursor that moves with them are one insertion of both pieces in order. */
  lemma InsertTwice(buf: seq<u8>, at: nat, bs: seq<u8>, cs: seq<u8>)
    requires at <= |buf|
    ensures Insert(Insert(buf, at, bs), at + |bs|, cs) == Insert(buf, at, bs + cs)
  {
  }

  lemma InsertNext(buf: seq<u8>, at: nat, bs: seq<u8>, i: nat)
    requires at <= |buf| && i < |bs|
    ensures Insert(Insert(buf, at, bs[..i]), at + i, [bs[i]]) == Insert(buf, at, bs[..i + 1])
  {
    InsertTwice(buf, at, bs[..i], [bs[i]]);
    assert bs[..i + 1] == bs[..i] + [bs[i]];
  }

  lemma EncodedAt(val: nat, size: nat, i: nat)
    requires i < size
    ensures EncodeNum(val, size, true)[i] == ShiftRight(val, i) % 256
    ensures |LE(val, size)| == size && EncodeNum(val, size, false)[i] == LE(val, size)[size - 1 - i]
  {
    hide LE, ShiftRight, Reverse;
    LEAt(val, size, i);
  }

  lemma NoBytes(src: seq<u8>)
    ensures FromLE(src[..0]) == 0 && Pow256(0) == 1
  {
  }

  lemma TakeByte(src: seq<u8>, i: nat, b: u8, result: nat, weight: nat)
    requires i < |src| && b == src[i] && result == FromLE(src[..i]) && weight == Pow256(i)
    ensures result + b * weight == FromLE(src[..i + 1]) && 256 * weight == Pow256(i + 1)
  {
    FromLEAppend(src[..i], src[i]);
    assert src[..i + 1] == src[..i] + [src[i]];
  }

  function Header(sequence: u8, length: u16): (h: seq<u8>)
    ensures |h| == PACKET_HEADER_SIZE
  {
    [TCP_PACKET_SIGNATURE, sequence, length % 256, length / 256]
  }

  /** A number written anywhere in a buffer is read back from there, and nothing more is consumed. */
  lemma NumRoundTrip(pre: seq<u8>, val: nat, size: nat, le: bool, post: seq<u8>)
    requires val < Pow256(size)
    ensures ReadNum(pre + EncodeNum(val, size, le) + post, |pre|, size, le) == (val, |pre| + size)
  {
    var bs := EncodeNum(val, size, le);
    var buf := pre + bs + post;
    assert buf[|pre|..|pre| + size] == bs;
    FromLEOfLE(val, size);
    ReverseTwice(LE(val, size));
  }

  /** A zero-free string written with its terminator is read back, and exactly the terminator is consumed with it. */
  lemma {:induction false} StrRoundTrip(pre: seq<u8>, s: seq<u8>, post: seq<u8>)
    requires 0 !in s
    ensures ReadStr(pre + (s + [0]) + post, |pre|) == (s, |pre| + |s| + 1)
    decreases |s|
  {
    var buf := pre + (s + [0]) + post;
    if s != [] {
      var pre', s' := pre + [s[0]], s[1..];
      assert buf == pre' + (s' + [0]) + post;
      assert 0 !in s';
      StrRoundTrip(pre', s', post);
      assert buf[|pre|] == s[0];
      assert s == [s[0]] + s';
    } else {
      assert buf[|pre|] == 0;
    }
  }

  class Packet {
    var buffer: seq<u8>
    var sequence: u8
    var length: u16
    var readOffset: nat
    var writeOffset: nat

    ghost predicate Valid()
      reads this
    {
      readOffset <= |buffer| && writeOffset <= |buffer|
    }

    /** No header yet: the 16-bit length counter is the body size, wrapped. */
    ghost predicate Unsent()
      reads this
    {
      Valid() && length == |buffer| % 0x1_0000
    }

    /** A packet that the server builds. */
    constructor (initial: seq<u8>)
      ensures Unsent() && buffer == initial && readOffset == 0 && writeOffset == |initial|
    {
      buffer := initial;
      sequence := 0;
      length := |initial| % 0x1_0000;
      readOffset := 0;
      writeOffset := |initial|;
    }

    /** Inserts the bytes of `val` one by one at the write cursor. */
    method WriteBytes(val: nat, size: nat, le: bool)
      requires Valid()
      modifies this`buffer, this`writeOffset, this`length
      ensures Valid()
      ensures buffer == Insert(old(buffer), old(writeOffset), EncodeNum(val, size, le))
      ensures writeOffset == old(writeOffset) + size
      ensures length == (old(length) + size) % 0x1_0000
      ensures old(Unsent()) ==> Unsent()
    {
      hide Insert, EncodeNum, LE, ShiftRight;
      ghost var buf, at, enc := buffer, writeOffset, EncodeNum(val, size, le);
      InsertNothing(buf, at);
      assert enc[..0] == [];
      var i := 0;
      if le {
        while i < size
          invariant i <= size && writeOffset == at + i && length == old(length)
          invariant buffer == Insert(buf, at, enc[..i])
        {
          EncodedAt(val, size, i);
          InsertNext(buf, at, enc, i);
          buffer := Insert(buffer, writeOffset, [ShiftRight(val, i) % 256]);
          writeOffset := writeOffset + 1;
          i := i + 1;
        }
      } else {
        var bytes := LE(val, size);
        while i < size
          invariant i <= size && writeOffset == at + i && length == old(length)
          invariant buffer == Insert(buf, at, enc[..i])
        {
          EncodedAt(val, size, i);
          InsertNext(buf, at, enc, i);
          buffer := Insert(buffer, writeOffset, [bytes[size - i - 1]]);
          writeOffset := writeOffset + 1;
          i := i + 1;
        }
      }
      length := (length + size) % 0x1_0000;
      assert enc[..size] == enc;
    }

    /** Reads `size` bytes at the read cursor; a short read gives 0 and does not move it. */
    method ReadBytes(size: nat, le: bool) returns (result: nat)
      requires Valid()
      modifies this`readOffset
      ensures Valid()
      ensures (result, readOffset) == ReadNum(buffer, old(readOffset), size, le)
    {
      result := 0;
      if readOffset + size > |buffer| {
        return;
      }
      hide FromLE, Pow256, Reverse;
      ghost var bs := buffer[readOffset..readOffset + size];
      ghost var src := if le then bs else Reverse(bs);
      NoBytes(src);
      var i: nat, weight: nat := 0, 1;
      while i < size
        invariant i <= size && readOffset == old(readOffset) && weight == Pow256(i)
        invariant result == FromLE(src[..i])
      {
        var byte := if le then buffer[readOffset + i] else buffer[readOffset + size - i - 1];
        TakeByte(src, i, byte, result, weight);
        result := result + byte * weight;
        weight := 256 * weight;
        i := i + 1;
      }
      assert src[..size] == src;
      readOffset := readOffset + size;
    }

    method WriteUInt8(val: u8)
      requires Valid()
      modifies this`buffer, this`writeOffset, this`length
      ensures Valid()
      ensures buffer == Insert(old(buffer), old(writeOffset), [val])
      ensures writeOffset == old(writeOffset) + 1
      ensures old(Unsent()) ==> Unsent()
    {
      assert LE(val, 1) == [val];
      WriteBytes(val, 1, true);
    }

    method ReadUInt8() returns (result: u8)
      requires Valid()
      modifies this`readOffset
      ensures Valid()
      ensures if old(readOffset) < |buffer|
              then result == buffer[old(readOffset)] && readOffset == old(readOffset) + 1
              else result == 0 && readOffset == old(readOffset)
    {
      if readOffset < |buffer| {
        assert buffer[readOffset..readOffset + 1] == [buffer[readOffset]];
        assert FromLE([buffer[readOffset]]) == buffer[readOffset] by {
          assert [buffer[readOffset]][1..] == [];
        }
      }
      result := ReadBytes(1, true);
    }

    method WriteString(str: seq<u8>)
      requires Valid()
      modifies this`buffer, this`writeOffset, this`length
      ensures Valid()
      ensures buffer == Insert(old(buffer), old(writeOffset), str + [0])
      ensures writeOffset == old(writeOffset) + |str| + 1
      ensures old(Unsent()) ==> Unsent()
    {
      for i := 0 to |str|
        invariant Valid() && writeOffset == old(writeOffset) + i
        invariant buffer == Insert(old(buffer), old(writeOffset), str[..i])
        invariant old(Unsent()) ==> Unsent()
      {
        InsertTwice(old(buffer), old(writeOffset), str[..i], [str[i]]);
        assert str[..i + 1] == str[..i] + [str[i]];
        WriteUInt8(str[i]);
      }
      assert str[..|str|] == str;
      InsertTwice(old(buffer), old(writeOffset), str, [0]);
      WriteUInt8(0);
    }

    /** Terminates on every buffer: each non-zero character moves the cursor, and the end of the buffer reads as zero. */
    method ReadString() returns (result: seq<u8>)
      requires Valid()
      modifies this`readOffset
      ensures Valid()
      ensures (result, readOffset) == ReadStr(buffer, old(readOffset))
    {
      result := [];
      var curChar := ReadUInt8();
      while curChar != 0
        invariant Valid()
        invariant ReadStr(buffer, old(readOffset)).0
               == result + if curChar == 0 then [] else [curChar] + ReadStr(buffer, readOffset).0
        invariant ReadStr(buffer, old(readOffset)).1
               == if curChar == 0 then readOffset else ReadStr(buffer, readOffset).1
        decreases |buffer| - readOffset, curChar
      {
        result := result + [curChar];
        curChar := ReadUInt8();
      }
      assert result + [] == result;
    }

    method ReadArray(len: nat) returns (result: seq<u8>)
      requires Valid()
      modifies this`readOffset
      ensures Valid() && |result| == len
      ensures forall i :: 0 <= i < len ==>
                result[i] == if old(readOffset) + i < |buffer| then buffer[old(readOffset) + i] else 0
      ensures readOffset == if old(readOffset) + len <= |buffer| then old(readOffset) + len else |buffer|
    {
      result := [];
      var left: nat := len;
      while left != 0
        invariant left <= len && Valid() && |result| == len - left
        invariant forall i :: 0 <= i < |result| ==>
                    result[i] == if old(readOffset) + i < |buffer| then buffer[old(readOffset) + i] else 0
        invariant readOffset == if old(readOffset) + |result| <= |buffer| then old(readOffset) + |result| else |buffer|
      {
        var byte := ReadUInt8();
        result := result + [byte];
        left := left - 1;
      }
    }

    method SetSequence(newSequence: u8)
      modifies this`sequence
      ensures sequence == newSequence
    {
      sequence := newSequence;
    }

    /** Inserts signature, sequence and length in front, last byte first. */
    method WriteHeader()
      modifies this`buffer
      ensures buffer == Header(sequence, length) + old(buffer)
    {
      buffer := [length / 256] + buffer;
      buffer := [length % 256] + buffer;
      buffer := [sequence] + buffer;
      buffer := [TCP_PACKET_SIGNATURE] + buffer;
    }
  }
}
