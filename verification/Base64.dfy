/** bcrypt's base-64: three bytes as four characters, with tails of one and two bytes. */
module Base64 {
  type byte = bv8

  datatype Option<+T> = None | Some(value: T)

  /** The character of a 6-bit value: './', then A to Z, a to z, 0 to 9. */
  function Itoa64(c: byte): byte
    requires c < 64
  {
    if c < 2 then c + 46
    else if c < 28 then c - 2 + 65
    else if c < 54 then c - 28 + 97
    else c - 54 + 48
  }

  /** The value of a character, or 64 if it is none of them. */
  function Atoi64(ch: byte): byte {
    if 46 <= ch <= 47 then ch - 46
    else if 48 <= ch <= 57 then ch - 48 + 54
    else if 65 <= ch <= 90 then ch - 65 + 2
    else if 97 <= ch <= 122 then ch - 97 + 28
    else 64
  }

  lemma AtoiOfItoa(c: byte)
    requires c < 64
    ensures Atoi64(Itoa64(c)) == c
    ensures Itoa64(c) != 0
  {
  }

  /** The alphabet: the values 0 to 63 are ./ then A to Z, a to z, 0 to 9, each range in order. */
  lemma AlphabetIs(c: byte)
    requires c < 64
    ensures Itoa64(0) == 46 && Itoa64(1) == 47 && Itoa64(2) == 65 && Itoa64(27) == 90
    ensures Itoa64(28) == 97 && Itoa64(53) == 122 && Itoa64(54) == 48 && Itoa64(63) == 57
    ensures c != 1 && c != 27 && c != 53 && c != 63 ==> Itoa64(c + 1) == Itoa64(c) + 1
  {
  }

  function EncodedSize(size: nat): nat {
    size / 3 * 4 + (if size % 3 == 0 then 0 else size % 3 + 1)
  }

  // The 6-bit groups of up to three bytes.
  function Six0(b0: byte): (c: byte) ensures c < 64 { b0 >> 2 }
  function Six1(b0: byte, b1: byte): (c: byte) ensures c < 64 { ((b0 & 0x03) << 4) | (b1 >> 4) }
  function Six2(b1: byte, b2: byte): (c: byte) ensures c < 64 { ((b1 & 0x0f) << 2) | (b2 >> 6) }
  function Six3(b2: byte): (c: byte) ensures c < 64 { b2 & 0x3f }

  // The bytes of up to four 6-bit groups.
  function Byte0(c1: byte, c2: byte): byte { (c1 << 2) | ((c2 & 0x30) >> 4) }
  function Byte1(c2: byte, c3: byte): byte { ((c2 & 0x0F) << 4) | ((c3 & 0x3C) >> 2) }
  function Byte2(c3: byte, c4: byte): byte { ((c3 & 0x03) << 6) | c4 }

  lemma GroupRoundTrip(b0: byte, b1: byte, b2: byte)
    ensures Byte0(Six0(b0), Six1(b0, b1)) == b0
    ensures Byte1(Six1(b0, b1), Six2(b1, b2)) == b1
    ensures Byte2(Six2(b1, b2), Six3(b2)) == b2
  {
  }

  /** The four groups are the 24 bits of the three bytes, highest first. */
  lemma GroupIsTheBits(b0: byte, b1: byte, b2: byte)
    ensures ((Six0(b0) as bv24) << 18) | ((Six1(b0, b1) as bv24) << 12) | ((Six2(b1, b2) as bv24) << 6) | (Six3(b2) as bv24)
         == ((b0 as bv24) << 16) | ((b1 as bv24) << 8) | (b2 as bv24)
  {
  }

  function Encode(bytes: seq<byte>): (r: seq<byte>)
    ensures |r| == EncodedSize(|bytes|)
  {
    if |bytes| == 0 then []
    else if |bytes| == 1 then [Itoa64(Six0(bytes[0])), Itoa64(Six1(bytes[0], 0))]
    else if |bytes| == 2 then
      [Itoa64(Six0(bytes[0])), Itoa64(Six1(bytes[0], bytes[1])), Itoa64(Six2(bytes[1], 0))]
    else
      [Itoa64(Six0(bytes[0])), Itoa64(Six1(bytes[0], bytes[1])), Itoa64(Six2(bytes[1], bytes[2])), Itoa64(Six3(bytes[2]))]
      + Encode(bytes[3..])
  }

  /** Character i of a C string; reading on past the terminator finds the terminator. */
  function CharAt(s: seq<byte>, i: nat): byte {
    if i < |s| then s[i] else 0
  }

  /** `size` bytes decoded from s at `at`, or nothing if a character that is needed is not in the alphabet. */
  function Decode(s: seq<byte>, at: nat, size: nat): (r: Option<seq<byte>>)
    ensures r.Some? ==> |r.value| == size
    decreases size
  {
    if size == 0 then Some([])
    else
      var c1, c2, c3, c4 := Atoi64(CharAt(s, at)), Atoi64(CharAt(s, at + 1)), Atoi64(CharAt(s, at + 2)), Atoi64(CharAt(s, at + 3));
      if c1 > 63 || c2 > 63 then None
      else if size == 1 then Some([Byte0(c1, c2)])
      else if c3 > 63 then None
      else if size == 2 then Some([Byte0(c1, c2), Byte1(c2, c3)])
      else if c4 > 63 then None
      else
        var rest := Decode(s, at + 4, size - 3);
        if rest.None? then None else Some([Byte0(c1, c2), Byte1(c2, c3), Byte2(c3, c4)] + rest.value)
  }

  /** Decoding an encoding gives the bytes back, whatever the length and wherever it stands. */
  lemma {:induction false} DecodeOfEncode(pre: seq<byte>, bytes: seq<byte>, post: seq<byte>)
    ensures Decode(pre + Encode(bytes) + post, |pre|, |bytes|) == Some(bytes)
    decreases |bytes|
  {
    var s := pre + Encode(bytes) + post;
    forall i | 0 <= i < |Encode(bytes)|
      ensures CharAt(s, |pre| + i) == Encode(bytes)[i]
    {
    }
    SixesRoundTrip(bytes);
    if |bytes| >= 3 {
      var group := Encode(bytes)[..4];
      assert s == (pre + group) + Encode(bytes[3..]) + post;
      DecodeOfEncode(pre + group, bytes[3..], post);
      assert bytes == [bytes[0], bytes[1], bytes[2]] + bytes[3..];
      assert CharAt(s, |pre| + 0) == Encode(bytes)[0];
      assert CharAt(s, |pre| + 1) == Encode(bytes)[1];
      assert CharAt(s, |pre| + 2) == Encode(bytes)[2];
      assert CharAt(s, |pre| + 3) == Encode(bytes)[3];
    } else if |bytes| == 2 {
      assert CharAt(s, |pre| + 0) == Encode(bytes)[0];
      assert CharAt(s, |pre| + 1) == Encode(bytes)[1];
      assert CharAt(s, |pre| + 2) == Encode(bytes)[2];
      assert bytes == [bytes[0], bytes[1]];
    } else if |bytes| == 1 {
      assert CharAt(s, |pre| + 0) == Encode(bytes)[0];
      assert CharAt(s, |pre| + 1) == Encode(bytes)[1];
      assert bytes == [bytes[0]];
    }
  }

  /** The first group of an encoding holds its first three bytes. */
  lemma SixesRoundTrip(bytes: seq<byte>)
    ensures |bytes| > 0 ==>
              && Atoi64(Encode(bytes)[0]) < 64 && Atoi64(Encode(bytes)[1]) < 64
              && Byte0(Atoi64(Encode(bytes)[0]), Atoi64(Encode(bytes)[1])) == bytes[0]
    ensures |bytes| > 1 ==>
              && Atoi64(Encode(bytes)[2]) < 64
              && Byte1(Atoi64(Encode(bytes)[1]), Atoi64(Encode(bytes)[2])) == bytes[1]
    ensures |bytes| > 2 ==>
              && Atoi64(Encode(bytes)[3]) < 64
              && Byte2(Atoi64(Encode(bytes)[2]), Atoi64(Encode(bytes)[3])) == bytes[2]
  {
    if bytes != [] {
      var b0, b1, b2 := bytes[0], if |bytes| > 1 then bytes[1] else 0, if |bytes| > 2 then bytes[2] else 0;
      GroupRoundTrip(b0, b1, b2);
      AtoiOfItoa(Six0(b0));
      AtoiOfItoa(Six1(b0, b1));
      AtoiOfItoa(Six2(b1, b2));
      AtoiOfItoa(Six3(b2));
    }
  }

  /** The last character of a 3k+1-byte encoding with the bits cleared that no byte uses. */
  function Canonical(ch: byte): byte
    requires Atoi64(ch) < 64
  {
    Itoa64(Atoi64(ch) & 0x30)
  }

  lemma CanonicalChar(ch: byte)
    requires Atoi64(ch) < 64
    ensures Atoi64(Canonical(ch)) == Atoi64(ch) & 0x30 && Atoi64(Canonical(ch)) < 64
    ensures Canonical(Canonical(ch)) == Canonical(ch)
    ensures Canonical(ch) != 0
  {
    AtoiOfItoa(Atoi64(ch) & 0x30);
  }

  lemma UnusedBits(c1: byte, c2: byte)
    ensures Byte0(c1, c2 & 0x30) == Byte0(c1, c2)
  {
  }

  /** Clearing the unused bits of the last character does not change what is decoded. */
  lemma {:induction false} CanonicalDecodesTheSame(s: seq<byte>, t: seq<byte>, at: nat, size: nat)
    requires size % 3 == 1
    requires var last := at + EncodedSize(size) - 1;
             && (forall i :: at <= i < last ==> CharAt(s, i) == CharAt(t, i))
             && Atoi64(CharAt(s, last)) < 64 && CharAt(t, last) == Canonical(CharAt(s, last))
    ensures Decode(s, at, size) == Decode(t, at, size)
    decreases size
  {
    hide Atoi64, Canonical, Byte0, Byte1, Byte2;
    if size == 1 {
      CanonicalChar(CharAt(s, at + 1));
      UnusedBits(Atoi64(CharAt(s, at)), Atoi64(CharAt(s, at + 1)));
      assert CharAt(t, at) == CharAt(s, at);
    } else {
      NextGroupSize(size);
      assert CharAt(s, at) == CharAt(t, at) && CharAt(s, at + 1) == CharAt(t, at + 1);
      assert CharAt(s, at + 2) == CharAt(t, at + 2) && CharAt(s, at + 3) == CharAt(t, at + 3);
      hide EncodedSize, CharAt;
      CanonicalDecodesTheSame(s, t, at + 4, size - 3);
    }
  }

  lemma NextGroupSize(size: nat)
    requires size >= 3
    ensures EncodedSize(size) == 4 + EncodedSize(size - 3)
    ensures size % 3 == 1 ==> EncodedSize(size) >= 6
  {
  }

  /** Decoding succeeds only if the last character it needs is there. */
  lemma {:induction false} DecodeReads(s: seq<byte>, at: nat, size: nat)
    requires size > 0 && Decode(s, at, size).Some?
    ensures at + EncodedSize(size) <= |s|
    ensures Atoi64(s[at + EncodedSize(size) - 1]) < 64
    decreases size
  {
    if size > 3 {
      DecodeReads(s, at + 4, size - 3);
    }
  }

  /** And it succeeds if every character it needs is in the alphabet. */
  lemma {:induction false} DecodeSucceedsIff(s: seq<byte>, at: nat, size: nat)
    ensures Decode(s, at, size).Some? <==> forall i :: at <= i < at + EncodedSize(size) ==> Atoi64(CharAt(s, i)) < 64
    decreases size
  {
    hide Atoi64, CharAt, Byte0, Byte1, Byte2;
    if size >= 3 {
      DecodeSucceedsIff(s, at + 4, size - 3);
      NextGroupSize(size);
    }
  }

  lemma {:induction false} EncodeIsText(bytes: seq<byte>)
    ensures 0 !in Encode(bytes)
    decreases |bytes|
  {
    if bytes != [] {
      var b0, b1, b2 := bytes[0], if |bytes| > 1 then bytes[1] else 0, if |bytes| > 2 then bytes[2] else 0;
      AtoiOfItoa(Six0(b0));
      AtoiOfItoa(Six1(b0, b1));
      AtoiOfItoa(Six2(b1, b2));
      AtoiOfItoa(Six3(b2));
      if |bytes| >= 3 {
        EncodeIsText(bytes[3..]);
      }
    }
  }

  /** Each character but the last is canonical as it stands; the last one of a 3k+1-byte encoding is its own canonical form. */
  lemma {:induction false} EncodeIsCanonical(bytes: seq<byte>)
    requires |bytes| % 3 == 1
    ensures var last := Encode(bytes)[EncodedSize(|bytes|) - 1];
            Atoi64(last) < 64 && Canonical(last) == last
    decreases |bytes|
  {
    if |bytes| == 1 {
      AtoiOfItoa(Six1(bytes[0], 0));
      LowBitsClear(bytes[0]);
    } else {
      EncodeIsCanonical(bytes[3..]);
    }
  }

  lemma LowBitsClear(b: byte)
    ensures Six1(b, 0) & 0x30 == Six1(b, 0)
  {
  }

  // ----- The loops -----

  lemma TailOfOne(before: seq<byte>, rest: seq<byte>, g0: byte, g1: byte)
    requires |rest| == 1 && g0 == Itoa64(Six0(rest[0])) && g1 == Itoa64(Six1(rest[0], 0))
    ensures before + [g0] + [g1] == before + Encode(rest)
  {
  }

  lemma TailOfTwo(before: seq<byte>, rest: seq<byte>, g0: byte, g1: byte, g2: byte)
    requires |rest| == 2
    requires g0 == Itoa64(Six0(rest[0])) && g1 == Itoa64(Six1(rest[0], rest[1])) && g2 == Itoa64(Six2(rest[1], 0))
    ensures before + [g0] + [g1] + [g2] == before + Encode(rest)
  {
  }

  lemma WholeGroup(before: seq<byte>, rest: seq<byte>, g0: byte, g1: byte, g2: byte, g3: byte)
    requires |rest| >= 3
    requires g0 == Itoa64(Six0(rest[0])) && g1 == Itoa64(Six1(rest[0], rest[1]))
    requires g2 == Itoa64(Six2(rest[1], rest[2])) && g3 == Itoa64(Six3(rest[2]))
    ensures before + [g0] + [g1] + [g2] + [g3] + Encode(rest[3..]) == before + Encode(rest)
  {
    var tail := Encode(rest[3..]);
    assert Encode(rest) == [g0, g1, g2, g3] + tail;
    hide *;
    Regroup(before, g0, g1, g2, g3, tail);
  }

  lemma Regroup(before: seq<byte>, g0: byte, g1: byte, g2: byte, g3: byte, tail: seq<byte>)
    ensures before + [g0] + [g1] + [g2] + [g3] + tail == before + ([g0, g1, g2, g3] + tail)
  {
  }

  /** BF_encode: the characters written through dst, in order. */
  method BFEncode(src: seq<byte>) returns (dst: seq<byte>)
    requires |src| > 0
    ensures dst == Encode(src)
  {
    dst := [];
    var sptr := 0;
    assert dst + Encode(src[sptr..]) == Encode(src) by { assert src[0..] == src; }
    while true
      invariant sptr < |src|
      invariant dst + Encode(src[sptr..]) == Encode(src)
      decreases |src| - sptr
    {
      ghost var rest, before := src[sptr..], dst;
      var c1 := src[sptr];
      sptr := sptr + 1;
      var g0 := Itoa64(c1 >> 2);
      dst := dst + [g0];
      c1 := (c1 & 0x03) << 4;
      if sptr >= |src| {
        var g1 := Itoa64(c1);
        dst := dst + [g1];
        TailOfOne(before, rest, g0, g1);
        break;
      }
      var c2 := src[sptr];
      sptr := sptr + 1;
      c1 := c1 | (c2 >> 4);
      var g1 := Itoa64(c1);
      dst := dst + [g1];
      c1 := (c2 & 0x0f) << 2;
      if sptr >= |src| {
        var g2 := Itoa64(c1);
        dst := dst + [g2];
        TailOfTwo(before, rest, g0, g1, g2);
        break;
      }
      c2 := src[sptr];
      sptr := sptr + 1;
      c1 := c1 | (c2 >> 6);
      var g2 := Itoa64(c1);
      var g3 := Itoa64(c2 & 0x3f);
      dst := dst + [g2] + [g3];
      WholeGroup(before, rest, g0, g1, g2, g3);
      assert rest[3..] == src[sptr..];
      if sptr >= |src| {
        assert dst + Encode(src[sptr..]) == dst;
        break;
      }
    }
  }

  /** What decoding gives once `done` is decoded and `rest` is what the remaining characters decode to. */
  function Prepend(done: seq<byte>, rest: Option<seq<byte>>): Option<seq<byte>> {
    if rest.None? then None else Some(done + rest.value)
  }

  lemma DecodeStep(s: seq<byte>, at: nat, size: nat, done: seq<byte>, c1: byte, c2: byte, c3: byte, c4: byte)
    requires size >= 3
    requires c1 == Atoi64(CharAt(s, at)) <= 63 && c2 == Atoi64(CharAt(s, at + 1)) <= 63
    requires c3 == Atoi64(CharAt(s, at + 2)) <= 63 && c4 == Atoi64(CharAt(s, at + 3)) <= 63
    ensures Prepend(done, Decode(s, at, size))
            == Prepend(done + [Byte0(c1, c2)] + [Byte1(c2, c3)] + [Byte2(c3, c4)], Decode(s, at + 4, size - 3))
  {
    var rest := Decode(s, at + 4, size - 3);
    if rest.Some? {
      assert done + ([Byte0(c1, c2), Byte1(c2, c3), Byte2(c3, c4)] + rest.value)
          == done + [Byte0(c1, c2)] + [Byte1(c2, c3)] + [Byte2(c3, c4)] + rest.value;
    }
  }

  /** BF_decode: the bytes written through dst, or failure at the first character outside the alphabet. */
  method BFDecode(src: seq<byte>, at: nat, size: nat) returns (dst: Option<seq<byte>>)
    requires size > 0
    ensures dst == Decode(src, at, size)
  {
    hide Atoi64, Byte0, Byte1, Byte2;
    var out: seq<byte> := [];
    var sptr := at;
    assert Decode(src, at, size) == Prepend(out, Decode(src, sptr, size)) by {
      if Decode(src, at, size).Some? { assert [] + Decode(src, at, size).value == Decode(src, at, size).value; }
    }
    while true
      invariant |out| < size
      invariant Decode(src, at, size) == Prepend(out, Decode(src, sptr, size - |out|))
      decreases size - |out|
    {
      ghost var before := out;
      var c1 := Atoi64(CharAt(src, sptr));
      if c1 > 63 { return None; }
      var c2 := Atoi64(CharAt(src, sptr + 1));
      if c2 > 63 { return None; }
      out := out + [Byte0(c1, c2)];
      if |out| >= size { break; }
      var c3 := Atoi64(CharAt(src, sptr + 2));
      if c3 > 63 { return None; }
      out := out + [Byte1(c2, c3)];
      if |out| >= size {
        assert before + [Byte0(c1, c2), Byte1(c2, c3)] == out;
        break;
      }
      var c4 := Atoi64(CharAt(src, sptr + 3));
      if c4 > 63 { return None; }
      DecodeStep(src, sptr, size - |before|, before, c1, c2, c3, c4);
      out := out + [Byte2(c3, c4)];
      sptr := sptr + 4;
      if |out| >= size {
        assert out + [] == out;
        break;
      }
    }
    return Some(out);
  }
}
