/** bcrypt's BF_set_key: the password, repeated with its terminator, becomes the 18 words of the expanded key. */
module KeySchedule {
  import Bytes

  type byte = bv8
  type word = bv32

  /** BF_N + 2. */
  const WORDS: nat := 18

  /** Where the n-th char is read: one place on each time, and back to the start after the terminator. */
  function Place(key: seq<byte>, n: nat): (p: nat)
    ensures p <= |key|
  {
    if n == 0 || Place(key, n - 1) == |key| then 0 else Place(key, n - 1) + 1
  }

  function Cycled(key: seq<byte>, n: nat): byte {
    if Place(key, n) < |key| then key[Place(key, n)] else 0
  }

  /** The four chars that go into word i. */
  datatype Quad = Quad(b0: byte, b1: byte, b2: byte, b3: byte)

  function QuadAt(key: seq<byte>, i: nat): Quad {
    Quad(Cycled(key, 4 * i), Cycled(key, 4 * i + 1), Cycled(key, 4 * i + 2), Cycled(key, 4 * i + 3))
  }

  predicate High(b: byte) {
    b & 0x80 != 0
  }

  /** How a char enters a word: zero-extended, or sign-extended as older versions did. */
  function Extend(bug: bool, b: byte): word {
    if bug && High(b) then 0xFFFFFF00 | (b as word) else b as word
  }

  function Push(w: word, e: word): word {
    (w << 8) | e
  }

  /** The word under construction after the first `count` of its chars. */
  function Partial(bug: bool, q: Quad, count: nat): word {
    if count == 0 then 0
    else if count == 1 then Push(0, Extend(bug, q.b0))
    else if count == 2 then Push(Push(0, Extend(bug, q.b0)), Extend(bug, q.b1))
    else if count == 3 then Push(Push(Push(0, Extend(bug, q.b0)), Extend(bug, q.b1)), Extend(bug, q.b2))
    else Push(Push(Push(Push(0, Extend(bug, q.b0)), Extend(bug, q.b1)), Extend(bug, q.b2)), Extend(bug, q.b3))
  }

  function Word(key: seq<byte>, bug: bool, i: nat): word {
    Partial(bug, QuadAt(key, i), 4)
  }

  function BigEndian(q: Quad): word {
    ((q.b0 as word) << 24) | ((q.b1 as word) << 16) | ((q.b2 as word) << 8) | (q.b3 as word)
  }

  /** Without the bug, word i is the big-endian word of bytes 4i to 4i+3 of the cycled key. */
  lemma CorrectWordIsBigEndian(q: Quad)
    ensures Partial(false, q, 4) == BigEndian(q)
  {
  }

  // The buggy word, by the last char of it that is sign-extended over earlier ones.

  lemma BuggyWord3(q: Quad)
    requires High(q.b3)
    ensures Partial(true, q, 4) == 0xFFFFFF00 | (q.b3 as word)
    ensures BigEndian(q) == 0xFFFFFF00 | (q.b3 as word) <==> q.b0 == 0xFF && q.b1 == 0xFF && q.b2 == 0xFF
  {
  }

  lemma BuggyWord2(q: Quad)
    requires !High(q.b3) && High(q.b2)
    ensures Partial(true, q, 4) == 0xFFFF0000 | ((q.b2 as word) << 8) | (q.b3 as word)
    ensures BigEndian(q) == 0xFFFF0000 | ((q.b2 as word) << 8) | (q.b3 as word) <==> q.b0 == 0xFF && q.b1 == 0xFF
  {
  }

  lemma BuggyWord1(q: Quad)
    requires !High(q.b3) && !High(q.b2) && High(q.b1)
    ensures Partial(true, q, 4) == 0xFF000000 | ((q.b1 as word) << 16) | ((q.b2 as word) << 8) | (q.b3 as word)
    ensures BigEndian(q) == 0xFF000000 | ((q.b1 as word) << 16) | ((q.b2 as word) << 8) | (q.b3 as word) <==> q.b0 == 0xFF
  {
  }

  lemma BuggyWord0(q: Quad)
    requires !High(q.b3) && !High(q.b2) && !High(q.b1) && High(q.b0)
    ensures Partial(true, q, 4) == BigEndian(q)
  {
  }

  lemma AsciiWord(q: Quad)
    requires !High(q.b3) && !High(q.b2) && !High(q.b1) && !High(q.b0)
    ensures Partial(true, q, 4) == BigEndian(q)
  {
    CorrectWordIsBigEndian(q);
  }

  /** Sign extension leaves a word alone exactly when every char it would overwrite is 0xFF already. */
  lemma WordAgreesIff(q: Quad)
    ensures BigEndian(q) == Partial(true, q, 4)
            <==>
            && (High(q.b1) ==> q.b0 == 0xFF)
            && (High(q.b2) ==> q.b0 == 0xFF && q.b1 == 0xFF)
            && (High(q.b3) ==> q.b0 == 0xFF && q.b1 == 0xFF && q.b2 == 0xFF)
  {
    var correct, buggy := BigEndian(q), Partial(true, q, 4);
    if High(q.b3) {
      BuggyWord3(q);
    } else if High(q.b2) {
      BuggyWord2(q);
    } else if High(q.b1) {
      BuggyWord1(q);
    } else if High(q.b0) {
      BuggyWord0(q);
    } else {
      AsciiWord(q);
    }
  }

  /** The fixed-cost bit operations that decide whether the safety measure applies. */
  function Deviation(diff: word, sign: word, safety: word): word {
    var d := diff | (diff >> 16);
    var d := d & 0xffff;
    var d := d + 0xffff;
    (sign << 9) & (!d & safety)
  }

  lemma DeviationIsBit16(diff: word, sign: word, safety: word)
    requires (sign == 0 || sign == 0x80) && (safety == 0 || safety == 0x10000)
    ensures Deviation(diff, sign, safety) == if diff == 0 && sign != 0 && safety != 0 then 0x10000 else 0
  {
  }

  // ----- Walking the key -----

  lemma SameRemainder(m: nat, q: nat, r: nat, q': nat, r': nat)
    requires r < m && r' < m && q * m + r == q' * m + r'
    ensures r == r'
  {
    if q > q' {
      Bytes.OneMore(m, q, q');
    } else if q < q' {
      Bytes.OneMore(m, q', q);
    }
  }

  /** The n-th char read is byte n of the key and its terminator repeated cyclically. */
  lemma {:induction false} CycledIsCyclic(key: seq<byte>, n: nat)
    ensures Place(key, n) == n % (|key| + 1)
    ensures Cycled(key, n) == (key + [0])[n % (|key| + 1)]
  {
    if n > 0 {
      CycledIsCyclic(key, n - 1);
      NextRemainder(n - 1, |key| + 1);
    }
  }

  lemma NextRemainder(n: nat, m: nat)
    requires m > 0
    ensures (n + 1) % m == if n % m == m - 1 then 0 else n % m + 1
  {
    var q, r, q', r' := n / m, n % m, (n + 1) / m, (n + 1) % m;
    assert n == q * m + r && n + 1 == q' * m + r';
    if r == m - 1 {
      assert (q + 1) * m == q * m + m;
      SameRemainder(m, q', r', q + 1, 0);
    } else {
      SameRemainder(m, q', r', q, r + 1);
    }
  }

  function CharOf(q: Quad, j: nat): byte
    requires j < 4
  {
    if j == 0 then q.b0 else if j == 1 then q.b1 else if j == 2 then q.b2 else q.b3
  }

  /** Among the first `count` chars of a word, one that is sign-extended over earlier ones. */
  predicate Overwrites(q: Quad, count: nat) {
    (count > 1 && High(q.b1)) || (count > 2 && High(q.b2)) || (count > 3 && High(q.b3))
  }

  lemma PushChar(bug: bool, q: Quad, j: nat)
    requires j < 4
    ensures Push(Partial(bug, q, j), Extend(bug, CharOf(q, j))) == Partial(bug, q, j + 1)
  {
  }

  lemma LowBitsOfExtension(tmp: word, b: byte, sign: word, before: bool)
    requires sign == if before then 0x80 else 0
    ensures sign | (Push(tmp, Extend(true, b)) & 0x80) == if before || High(b) then 0x80 else 0
  {
  }

  lemma DiffGrows(diff: word, a: word, b: word)
    ensures diff | (a ^ b) == 0 <==> diff == 0 && a == b
  {
  }

  /** One char: both versions of the word take it, and the pointer moves on. */
  lemma TakeChar(key: seq<byte>, i: nat, j: nat, ch: byte)
    requires 0 !in key && j < 4
    requires ch == if Place(key, 4 * i + j) < |key| then key[Place(key, 4 * i + j)] else 0
    ensures ch == CharOf(QuadAt(key, i), j)
    ensures Place(key, 4 * i + j + 1) == if ch == 0 then 0 else Place(key, 4 * i + j) + 1
  {
  }

  /** The inner loop: both versions of word i, and the collected sign. */
  method KeyWord(key: seq<byte>, ptr: nat, i: nat, sign: word, ghost before: bool)
    returns (tmp0: word, tmp1: word, ptr': nat, sign': word)
    requires 0 !in key && ptr == Place(key, 4 * i)
    requires sign == if before then 0x80 else 0
    ensures tmp0 == Word(key, false, i) && tmp1 == Word(key, true, i)
    ensures ptr' == Place(key, 4 * (i + 1))
    ensures sign' == if before || Overwrites(QuadAt(key, i), 4) then 0x80 else 0
  {
    hide Place, QuadAt, Extend, Push;
    tmp0, tmp1, ptr', sign' := 0, 0, ptr, sign;
    ghost var q := QuadAt(key, i);
    var j := 0;
    while j < 4
      invariant 0 <= j <= 4 && ptr' == Place(key, 4 * i + j)
      invariant tmp0 == Partial(false, q, j) && tmp1 == Partial(true, q, j)
      invariant sign' == if before || Overwrites(q, j) then 0x80 else 0
    {
      var ch: byte := if ptr' < |key| then key[ptr'] else 0;
      TakeChar(key, i, j, ch);
      PushChar(false, q, j);
      PushChar(true, q, j);
      LowBitsOfExtension(tmp1, ch, sign', before || Overwrites(q, j));
      tmp0 := Push(tmp0, Extend(false, ch));
      tmp1 := Push(tmp1, Extend(true, ch));
      if j != 0 {
        sign' := sign' | (tmp1 & 0x80);
      }
      if ch == 0 {
        ptr' := 0;
      } else {
        ptr' := ptr' + 1;
      }
      j := j + 1;
    }
  }

  // ----- The whole schedule -----

  predicate WordsAgree(key: seq<byte>, n: nat) {
    forall i :: 0 <= i < n ==> Word(key, false, i) == Word(key, true, i)
  }

  predicate SomeOverwrite(key: seq<byte>, n: nat) {
    exists i :: 0 <= i < n && Overwrites(QuadAt(key, i), 4)
  }

  /** When the initial key is made to deviate: both versions expand this key alike, although sign extension struck. */
  predicate Collides(key: seq<byte>) {
    WordsAgree(key, WORDS) && SomeOverwrite(key, WORDS)
  }

  function BugFlag(flags: byte): bool { flags & 1 != 0 }

  function SafetyFlag(flags: byte): bool { flags & 2 != 0 }

  lemma SafetyBit(flags: byte)
    ensures (((flags & 2) as word) << 15) == if SafetyFlag(flags) then 0x10000 else 0
  {
  }

  lemma StartsAtTheStart(key: seq<byte>)
    ensures Place(key, 4 * 0) == 0
  {
  }

  function Mix(p: word, w: word): word {
    p ^ w
  }

  /** The outer loop, up to the correction of initial[0]. */
  method FillWords(key: seq<byte>, P: seq<word>, bug: bool, expanded: array<word>, initial: array<word>)
    returns (sign: word, diff: word)
    requires 0 !in key && |P| == WORDS
    requires expanded.Length == WORDS && initial.Length == WORDS && expanded != initial
    modifies expanded, initial
    ensures forall i :: 0 <= i < WORDS ==> expanded[i] == Word(key, bug, i)
    ensures forall i :: 0 <= i < WORDS ==> initial[i] == Mix(P[i], expanded[i])
    ensures sign == if SomeOverwrite(key, WORDS) then 0x80 else 0
    ensures diff == 0 <==> WordsAgree(key, WORDS)
  {
    hide Word, Overwrites, Place, Mix;
    sign, diff := 0, 0;
    var ptr := 0;
    var i := 0;
    StartsAtTheStart(key);
    while i < WORDS
      invariant 0 <= i <= WORDS && ptr == Place(key, 4 * i)
      invariant sign == if SomeOverwrite(key, i) then 0x80 else 0
      invariant diff == 0 <==> WordsAgree(key, i)
      invariant forall k :: 0 <= k < i ==> expanded[k] == Word(key, bug, k)
      invariant forall k :: 0 <= k < i ==> initial[k] == Mix(P[k], expanded[k])
    {
      var tmp0, tmp1;
      tmp0, tmp1, ptr, sign := KeyWord(key, ptr, i, sign, SomeOverwrite(key, i));
      DiffGrows(diff, tmp0, tmp1);
      diff := diff | (tmp0 ^ tmp1);
      var w := if bug then tmp1 else tmp0;
      expanded[i] := w;
      initial[i] := Mix(P[i], w);
      i := i + 1;
    }
  }

  /** The expanded key. */
  function Expanded(key: seq<byte>, flags: byte): seq<word> {
    seq(WORDS, i => if i >= 0 then Word(key, BugFlag(flags), i) else 0)
  }

  /** Bit 16, for a colliding key if the safety measure is asked for. */
  function Correction(key: seq<byte>, flags: byte): word {
    if SafetyFlag(flags) && Collides(key) then 0x10000 else 0
  }

  /** The initial P-box: P mixed with the expanded key, and the first word corrected. */
  function Initial(key: seq<byte>, P: seq<word>, flags: byte): seq<word>
    requires |P| == WORDS
  {
    var mixed := seq(WORDS, i requires 0 <= i < WORDS => Mix(P[i], Word(key, BugFlag(flags), i)));
    mixed[0 := Mix(mixed[0], Correction(key, flags))]
  }

  lemma CorrectionIsDeviation(key: seq<byte>, flags: byte, sign: word, diff: word)
    requires sign == if SomeOverwrite(key, WORDS) then 0x80 else 0
    requires diff == 0 <==> WordsAgree(key, WORDS)
    ensures Deviation(diff, sign, ((flags & 2) as word) << 15) == Correction(key, flags)
  {
    hide SomeOverwrite, WordsAgree;
    SafetyBit(flags);
    DeviationIsBit16(diff, sign, ((flags & 2) as word) << 15);
  }

  /** Both versions of every word agree although some char was sign-extended over another: then, if flag 2 asks for safety,
      the first word of the initial P-box has bit 16 flipped. */
  predicate Deviates(key: seq<byte>, flags: byte) {
    flags & 2 != 0 && WordsAgree(key, WORDS) && SomeOverwrite(key, WORDS)
  }

  /** Word by word, with the machine's own operation: P xor the expanded key, with bit 16 of the first word flipped or not. */
  predicate IsInitial(P: seq<word>, expanded: seq<word>, initial: seq<word>, flipped: bool) {
    && |P| == |expanded| == |initial| == 18
    && (forall i :: 0 < i < 18 ==> initial[i] == P[i] ^ expanded[i])
    && initial[0] ^ P[0] ^ expanded[0] == if flipped then 0x10000 else 0
  }

  /** The initial P-box is P xor the expanded key, and its first word differs from that exactly in bit 16, iff the key deviates. */
  lemma InitialDeviates(key: seq<byte>, P: seq<word>, flags: byte)
    requires |P| == WORDS
    ensures IsInitial(P, Expanded(key, flags), Initial(key, P, flags), Deviates(key, flags))
  {
    hide Word, WordsAgree, SomeOverwrite, Initial, Expanded, Mix;
    InitialWords(key, P, flags);
    forall i | 0 < i < 18 ensures Initial(key, P, flags)[i] == P[i] ^ Expanded(key, flags)[i] {
      MixIsXor(P[i], Expanded(key, flags)[i]);
    }
    MixCancels(P[0], Expanded(key, flags)[0], Correction(key, flags));
  }

  lemma InitialWords(key: seq<byte>, P: seq<word>, flags: byte)
    requires |P| == WORDS
    ensures |Initial(key, P, flags)| == |Expanded(key, flags)| == WORDS
    ensures Initial(key, P, flags)[0] == Mix(Mix(P[0], Expanded(key, flags)[0]), Correction(key, flags))
    ensures forall i :: 0 < i < WORDS ==> Initial(key, P, flags)[i] == Mix(P[i], Expanded(key, flags)[i])
  {
    hide Word, Mix, Correction, BugFlag;
  }

  lemma MixIsXor(p: word, e: word)
    ensures Mix(p, e) == p ^ e
  {
  }

  lemma MixCancels(p: word, e: word, c: word)
    ensures Mix(Mix(p, e), c) ^ p ^ e == c
  {
  }

  /** BF_set_key: fills the expanded key and the initial P-box, with P the constant initial P-box. */
  method BFSetKey(key: seq<byte>, P: seq<word>, flags: byte, expanded: array<word>, initial: array<word>)
    requires 0 !in key && |P| == WORDS
    requires expanded.Length == WORDS && initial.Length == WORDS && expanded != initial
    modifies expanded, initial
    ensures expanded[..] == Expanded(key, flags)
    ensures initial[..] == Initial(key, P, flags)
    ensures IsInitial(P, expanded[..], initial[..], Deviates(key, flags))
  {
    hide Word, Correction, Mix, Deviation, Deviates, SomeOverwrite, WordsAgree, BugFlag, IsInitial;
    var safety: word := ((flags & 2) as word) << 15;
    var sign, diff := FillWords(key, P, BugFlag(flags), expanded, initial);
    CorrectionIsDeviation(key, flags, sign, diff);
    initial[0] := Mix(initial[0], Deviation(diff, sign, safety));
    InitialDeviates(key, P, flags);
  }

  // ----- The words, char by char -----

  lemma ExpandedWord(key: seq<byte>, flags: byte, i: nat)
    requires i < 18
    ensures |Expanded(key, flags)| == 18 && Expanded(key, flags)[i] == Word(key, BugFlag(flags), i)
    ensures BugFlag(flags) <==> flags & 1 != 0
  {
    hide Word;
  }

  /** Char n of the key with its terminator, repeated cyclically. */
  function TextAt(key: seq<byte>, n: nat): byte {
    (key + [0])[n % (|key| + 1)]
  }

  lemma QuadIsText(key: seq<byte>, i: nat)
    ensures QuadAt(key, i)
         == Quad(TextAt(key, 4 * i), TextAt(key, 4 * i + 1), TextAt(key, 4 * i + 2), TextAt(key, 4 * i + 3))
  {
    hide Place, Cycled;
    CycledIsCyclic(key, 4 * i);
    CycledIsCyclic(key, 4 * i + 1);
    CycledIsCyclic(key, 4 * i + 2);
    CycledIsCyclic(key, 4 * i + 3);
  }

  lemma ShiftedTogether(b0: byte, b1: byte, b2: byte, b3: byte)
    ensures Partial(false, Quad(b0, b1, b2, b3), 4)
         == ((b0 as word) << 24) | ((b1 as word) << 16) | ((b2 as word) << 8) | (b3 as word)
  {
  }

  /** Without the bug, which a flag of 1 asks for, word i is the big-endian word of chars 4i to 4i+3. */
  lemma ExpandedKeyIsCyclic(key: seq<byte>, flags: byte, i: nat, b0: byte, b1: byte, b2: byte, b3: byte)
    requires i < 18 && flags & 1 == 0
    requires b0 == TextAt(key, 4 * i) && b1 == TextAt(key, 4 * i + 1)
    requires b2 == TextAt(key, 4 * i + 2) && b3 == TextAt(key, 4 * i + 3)
    ensures |Expanded(key, flags)| == 18
    ensures Expanded(key, flags)[i] == ((b0 as word) << 24) | ((b1 as word) << 16) | ((b2 as word) << 8) | (b3 as word)
  {
    hide Partial, QuadAt, TextAt, Expanded, BugFlag;
    ExpandedWord(key, flags, i);
    QuadIsText(key, i);
    ShiftedTogether(b0, b1, b2, b3);
  }

  lemma PushedTogether(q: Quad, e0: word, e1: word, e2: word, e3: word)
    requires e0 == Extend(true, q.b0) && e1 == Extend(true, q.b1) && e2 == Extend(true, q.b2) && e3 == Extend(true, q.b3)
    ensures Partial(true, q, 4) == (((((e0 << 8) | e1) << 8) | e2) << 8) | e3
  {
    hide Extend;
  }

  /** What a char becomes when it is sign-extended. */
  lemma ExtendIs(b: byte)
    ensures Extend(true, b) == if b >= 0x80 then 0xFFFFFF00 | (b as word) else b as word
  {
  }

  /** With the bug, the chars are sign-extended before they are shifted in. */
  lemma BuggyKeyIsCyclic(key: seq<byte>, flags: byte, i: nat, e0: word, e1: word, e2: word, e3: word)
    requires i < 18 && flags & 1 != 0
    requires e0 == Extend(true, TextAt(key, 4 * i)) && e1 == Extend(true, TextAt(key, 4 * i + 1))
    requires e2 == Extend(true, TextAt(key, 4 * i + 2)) && e3 == Extend(true, TextAt(key, 4 * i + 3))
    ensures |Expanded(key, flags)| == 18
    ensures Expanded(key, flags)[i] == (((((e0 << 8) | e1) << 8) | e2) << 8) | e3
  {
    hide Partial, QuadAt, TextAt, Extend, Expanded, BugFlag;
    ExpandedWord(key, flags, i);
    QuadIsText(key, i);
    PushedTogether(QuadAt(key, i), e0, e1, e2, e3);
  }

  lemma HighIsAbove(b: byte)
    ensures High(b) <==> b >= 0x80
  {
  }

  /** Sign extension strikes exactly if one of the 72 chars, not the first of its word, is 0x80 or more. */
  lemma OverwriteIff(key: seq<byte>)
    ensures SomeOverwrite(key, 18) <==> exists n: nat :: n < 72 && n % 4 != 0 && TextAt(key, n) >= 0x80
  {
    hide QuadAt, TextAt, High;
    if SomeOverwrite(key, 18) {
      var i :| 0 <= i < 18 && Overwrites(QuadAt(key, i), 4);
      CharsAreHigh(key, i);
    }
    if n: nat :| n < 72 && n % 4 != 0 && TextAt(key, n) >= 0x80 {
      CharsAreHigh(key, n / 4);
      assert n == 4 * (n / 4) + n % 4;
      assert Overwrites(QuadAt(key, n / 4), 4);
    }
  }

  lemma CharsAreHigh(key: seq<byte>, i: nat)
    ensures QuadAt(key, i).b1 == TextAt(key, 4 * i + 1) && (High(QuadAt(key, i).b1) <==> TextAt(key, 4 * i + 1) >= 0x80)
    ensures QuadAt(key, i).b2 == TextAt(key, 4 * i + 2) && (High(QuadAt(key, i).b2) <==> TextAt(key, 4 * i + 2) >= 0x80)
    ensures QuadAt(key, i).b3 == TextAt(key, 4 * i + 3) && (High(QuadAt(key, i).b3) <==> TextAt(key, 4 * i + 3) >= 0x80)
  {
    hide QuadAt, TextAt, High;
    QuadIsText(key, i);
    HighIsAbove(TextAt(key, 4 * i + 1));
    HighIsAbove(TextAt(key, 4 * i + 2));
    HighIsAbove(TextAt(key, 4 * i + 3));
  }

  /** The password of the library's self-test: FF A3 '3' '4' FF FF FF A3 '3' '4' '5'. */
  const SELF_TEST_KEY: seq<byte> := [0xFF, 0xA3, 0x33, 0x34, 0xFF, 0xFF, 0xFF, 0xA3, 0x33, 0x34, 0x35]

  lemma Twelfth(i: nat, j: nat)
    requires j < 4
    ensures (4 * i + j) % 12 == 4 * (i % 3) + j
  {
    var q, r := i / 3, i % 3;
    assert 4 * i + j == 12 * q + (4 * r + j);
  }

  lemma SelfTestChar(i: nat, j: nat)
    requires j < 4
    ensures TextAt(SELF_TEST_KEY, 4 * i + j) == (SELF_TEST_KEY + [0])[4 * (i % 3) + j]
  {
    Twelfth(i, j);
  }

  lemma SelfTestText(i: nat)
    ensures QuadAt(SELF_TEST_KEY, i)
         == if i % 3 == 0 then Quad(0xFF, 0xA3, 0x33, 0x34)
            else if i % 3 == 1 then Quad(0xFF, 0xFF, 0xFF, 0xA3)
            else Quad(0x33, 0x34, 0x35, 0)
  {
    hide QuadAt, TextAt;
    QuadIsText(SELF_TEST_KEY, i);
    assert 4 * i + 0 == 4 * i;
    SelfTestChar(i, 0);
    SelfTestChar(i, 1);
    SelfTestChar(i, 2);
    SelfTestChar(i, 3);
  }

  lemma SelfTestQuads()
    ensures var a, b, c := Quad(0xFF, 0xA3, 0x33, 0x34), Quad(0xFF, 0xFF, 0xFF, 0xA3), Quad(0x33, 0x34, 0x35, 0);
            && Partial(false, a, 4) == Partial(true, a, 4) == 0xFFA33334
            && Partial(false, b, 4) == Partial(true, b, 4)
            && Partial(false, c, 4) == Partial(true, c, 4) == 0x33343500
            && Overwrites(a, 4)
  {
  }

  /** What the self-test expects: the safety measure of $2a$ strikes this key, and undoing it gives the schedule of $2y$. */
  lemma SelfTestHolds(P: seq<word>)
    requires |P| == 18 && P[0] == 0x243F6A88
    ensures Deviates(SELF_TEST_KEY, 2) && !Deviates(SELF_TEST_KEY, 4)
    ensures Expanded(SELF_TEST_KEY, 2) == Expanded(SELF_TEST_KEY, 4)
    ensures |Expanded(SELF_TEST_KEY, 4)| == 18 && Expanded(SELF_TEST_KEY, 4)[17] == 0x33343500
    ensures var a, y := Initial(SELF_TEST_KEY, P, 2), Initial(SELF_TEST_KEY, P, 4);
            && |a| == |y| == 18 && a[0] ^ 0x10000 == 0xDB9C59BC && y[0] == 0xDB9C59BC
            && forall i :: 0 < i < 18 ==> a[i] == y[i]
  {
    hide QuadAt, Initial, Partial, Overwrites, SELF_TEST_KEY, Expanded;
    var k := SELF_TEST_KEY;
    SelfTestQuads();
    forall i: nat | i < 18 ensures Word(k, false, i) == Word(k, true, i) {
      SelfTestText(i);
    }
    SelfTestText(0);
    SelfTestText(17);
    assert Overwrites(QuadAt(k, 0), 4);
    assert SomeOverwrite(k, 18) && WordsAgree(k, 18);
    SameExpanded(k);
    InitialDeviates(k, P, 2);
    InitialDeviates(k, P, 4);
    ExpandedWord(k, 4, 0);
    ExpandedWord(k, 4, 17);
    FirstWords(Initial(k, P, 2)[0], Initial(k, P, 4)[0], P[0], Expanded(k, 4)[0]);
  }

  lemma SameExpanded(key: seq<byte>)
    ensures Expanded(key, 2) == Expanded(key, 4)
  {
    hide Word;
    assert BugFlag(2) == BugFlag(4);
  }

  lemma FirstWords(a: word, y: word, p: word, e: word)
    requires p == 0x243F6A88 && e == 0xFFA33334 && a ^ p ^ e == 0x10000 && y ^ p ^ e == 0
    ensures a ^ 0x10000 == 0xDB9C59BC && y == 0xDB9C59BC
  {
  }

  // ----- Which keys are touched -----

  lemma WordAgrees(key: seq<byte>, i: nat)
    ensures var q := QuadAt(key, i);
            Word(key, false, i) == Word(key, true, i)
            <==>
            && (High(q.b1) ==> q.b0 == 0xFF)
            && (High(q.b2) ==> q.b0 == 0xFF && q.b1 == 0xFF)
            && (High(q.b3) ==> q.b0 == 0xFF && q.b1 == 0xFF && q.b2 == 0xFF)
  {
    hide Place, Extend, Push, BigEndian, Cycled, Partial;
    CorrectWordIsBigEndian(QuadAt(key, i));
    WordAgreesIff(QuadAt(key, i));
  }

  /** The safety measure only ever touches passwords that contain the byte 0xFF. */
  lemma DeviationNeedsFF(key: seq<byte>)
    requires Collides(key)
    ensures 0xFF in key
  {
    hide Place, Word;
    var i :| 0 <= i < WORDS && Overwrites(QuadAt(key, i), 4);
    WordAgrees(key, i);
    assert Cycled(key, 4 * i) == 0xFF;
  }

  /** Seven-bit passwords come out the same with and without the bug, and are never deviated from. */
  lemma SevenBitKeysAreUntouched(key: seq<byte>)
    requires forall b :: b in key ==> !High(b)
    ensures WordsAgree(key, WORDS) && !Collides(key)
  {
    hide Place, Word;
    forall i | 0 <= i < WORDS
      ensures Word(key, false, i) == Word(key, true, i) && !Overwrites(QuadAt(key, i), 4)
    {
      WordAgrees(key, i);
    }
  }
}
