/** BF_crypt's handling of settings and output, and the hash-then-check wrapper, around an opaque Eksblowfish core. */
module BCrypt {
  import opened Base64
  import K = KeySchedule

  type word = bv32

  /** The six words the core computes. */
  datatype Six = Six(w0: word, w1: word, w2: word, w3: word, w4: word, w5: word)

  /** The four words of a salt. */
  datatype Salt = Salt(s0: word, s1: word, s2: word, s3: word)

  /** The cost loop and the final encryption: a function of expanded key, initial P-box, salt and cost. */
  type Core = (seq<word>, seq<word>, Salt, byte) -> Six

  /** The constants of BF_init_state that reach this model, and the opaque core. */
  datatype Cipher = Cipher(P: seq<word>, core: Core) {
    ghost predicate Valid() { |P| == K.WORDS }
  }

  // ----- Words in memory -----

  /** BF_swap on one word. */
  function Swapped(x: word): word {
    var tmp := (x << 16) | (x >> 16);
    ((tmp & 0x00FF00FF) << 8) | ((tmp >> 8) & 0x00FF00FF)
  }

  /** The word that four bytes of memory hold. */
  function Load(little: bool, b0: byte, b1: byte, b2: byte, b3: byte): word {
    if little then ((b3 as word) << 24) | ((b2 as word) << 16) | ((b1 as word) << 8) | (b0 as word)
    else ((b0 as word) << 24) | ((b1 as word) << 16) | ((b2 as word) << 8) | (b3 as word)
  }

  /** The bytes of a word, most significant first. */
  function BigEndianBytes(w: word): (r: seq<byte>)
    ensures |r| == 4
  {
    [(w >> 24) as byte, ((w >> 16) & 0xFF) as byte, ((w >> 8) & 0xFF) as byte, (w & 0xFF) as byte]
  }

  /** The bytes a word leaves in memory. */
  function Store(little: bool, w: word): (r: seq<byte>)
    ensures |r| == 4
  {
    var b := BigEndianBytes(w);
    if little then [b[3], b[2], b[1], b[0]] else b
  }

  /** On either kind of machine, BF_swap turns bytes in memory into the big-endian word. */
  lemma SwapReadsBigEndian(b0: byte, b1: byte, b2: byte, b3: byte)
    ensures Swapped(Load(true, b0, b1, b2, b3)) == Load(false, b0, b1, b2, b3)
  {
  }

  /** And what it leaves in memory are the big-endian bytes of the word. */
  lemma SwapWritesBigEndian(w: word)
    ensures Store(true, Swapped(w)) == BigEndianBytes(w)
  {
  }

  /** BF_swap on the words of a salt. */
  function SwapSalt(little: bool, s: Salt): Salt {
    if little then Salt(Swapped(s.s0), Swapped(s.s1), Swapped(s.s2), Swapped(s.s3)) else s
  }

  function LoadSalt(little: bool, b: seq<byte>): Salt
    requires |b| == 16
  {
    Salt(Load(little, b[0], b[1], b[2], b[3]), Load(little, b[4], b[5], b[6], b[7]),
         Load(little, b[8], b[9], b[10], b[11]), Load(little, b[12], b[13], b[14], b[15]))
  }

  /** The salt words the core sees do not depend on the machine. */
  lemma SaltIsPortable(b: seq<byte>)
    requires |b| == 16
    ensures SwapSalt(true, LoadSalt(true, b)) == LoadSalt(false, b)
  {
    hide Swapped, Load;
    SwapReadsBigEndian(b[0], b[1], b[2], b[3]);
    SwapReadsBigEndian(b[4], b[5], b[6], b[7]);
    SwapReadsBigEndian(b[8], b[9], b[10], b[11]);
    SwapReadsBigEndian(b[12], b[13], b[14], b[15]);
  }

  function SwapIf(little: bool, w: word): word {
    if little then Swapped(w) else w
  }

  /** The bytes of the output words as BF_encode reads them from memory. */
  function OutputBytes(little: bool, o: Six): (r: seq<byte>)
    ensures |r| == 24
  {
    Store(little, SwapIf(little, o.w0)) + Store(little, SwapIf(little, o.w1)) + Store(little, SwapIf(little, o.w2))
    + Store(little, SwapIf(little, o.w3)) + Store(little, SwapIf(little, o.w4)) + Store(little, SwapIf(little, o.w5))
  }

  /** Salt word i holds bytes 4i to 4i+3, most significant first. */
  lemma SaltWordsAre(b: seq<byte>, i: nat)
    requires |b| == 16 && i < 4
    ensures var s := LoadSalt(false, b);
            [s.s0, s.s1, s.s2, s.s3][i]
            == ((b[4 * i] as word) << 24) | ((b[4 * i + 1] as word) << 16) | ((b[4 * i + 2] as word) << 8) | (b[4 * i + 3] as word)
  {
    if i == 0 {
    } else if i == 1 {
    } else if i == 2 {
    }
  }

  /** The output bytes are those of the six words in order. */
  lemma OutputBytesAre(o: Six)
    ensures OutputBytes(false, o) == BigEndianBytes(o.w0) + BigEndianBytes(o.w1) + BigEndianBytes(o.w2)
                                     + BigEndianBytes(o.w3) + BigEndianBytes(o.w4) + BigEndianBytes(o.w5)
  {
    hide BigEndianBytes;
  }

  /** The bytes of a word make the word again, the first of them as the highest. */
  lemma WordOfBytes(w: word)
    ensures var b := BigEndianBytes(w);
            w == ((b[0] as word) << 24) | ((b[1] as word) << 16) | ((b[2] as word) << 8) | (b[3] as word)
  {
  }

  lemma OutputIsPortable(o: Six)
    ensures OutputBytes(true, o) == OutputBytes(false, o)
  {
    hide Swapped, BigEndianBytes;
    SwapWritesBigEndian(o.w0);
    SwapWritesBigEndian(o.w1);
    SwapWritesBigEndian(o.w2);
    SwapWritesBigEndian(o.w3);
    SwapWritesBigEndian(o.w4);
    SwapWritesBigEndian(o.w5);
  }

  // ----- Settings -----

  // '$', '2' and the other ASCII characters of a setting.
  const DOLLAR: byte := 36
  const TWO: byte := 50

  /** flags_by_subtype: 'a' asks for safety, 'x' for the bug, 'b' and 'y' for neither; 0 means no such subtype. */
  function FlagsBySubtype(ch: byte): byte {
    if ch == 97 then 2 else if ch == 98 || ch == 121 then 4 else if ch == 120 then 1 else 0
  }

  /** The fixed part: $2<subtype>$<two digits up to 31>$. */
  predicate PrefixOk(s: seq<byte>) {
    && CharAt(s, 0) == DOLLAR && CharAt(s, 1) == TWO && FlagsBySubtype(CharAt(s, 2)) != 0 && CharAt(s, 3) == DOLLAR
    && 48 <= CharAt(s, 4) <= 51 && 48 <= CharAt(s, 5) <= 57 && !(CharAt(s, 4) == 51 && CharAt(s, 5) > 49)
    && CharAt(s, 6) == DOLLAR
  }

  function Cost(s: seq<byte>): byte {
    (CharAt(s, 4) - 48) * 10 + (CharAt(s, 5) - 48)
  }

  /** The length of a setting, and of a hash. */
  const SETTING: nat := 29
  const HASH: nat := 60

  /** BF_crypt with min = 16, on a C string without its terminator. */
  function Crypt(c: Cipher, key: seq<byte>, setting: seq<byte>): (r: Option<seq<byte>>)
    requires c.Valid()
    ensures r.Some? ==> |r.value| == HASH
  {
    if !PrefixOk(setting) || Cost(setting) < 4 then None
    else
      var salt := Decode(setting, 7, 16);
      if salt.None? then None
      else
        DecodeReads(setting, 7, 16);
        var flags := FlagsBySubtype(CharAt(setting, 2));
        var o := c.core(K.Expanded(key, flags), K.Initial(key, c.P, flags), LoadSalt(false, salt.value), Cost(setting));
        Some(setting[..28] + [Canonical(setting[28])] + Encode(OutputBytes(false, o)[..23]))
  }

  /** Which settings are accepted: $2, one of a b x y, $, a cost from 04 to 31, $, and 22 characters of the alphabet. */
  lemma AcceptedIff(c: Cipher, key: seq<byte>, s: seq<byte>)
    requires c.Valid()
    ensures Crypt(c, key, s).Some?
       <==> (&& |s| >= 29 && s[0] == 36 && s[1] == 50 && (s[2] == 97 || s[2] == 98 || s[2] == 120 || s[2] == 121)
             && s[3] == 36 && s[6] == 36
             && 48 <= s[4] <= 51 && 48 <= s[5] <= 57 && (s[4] == 48 ==> s[5] >= 52) && (s[4] == 51 ==> s[5] <= 49)
             && (forall i :: 7 <= i < 29 ==> Atoi64(s[i]) < 64))
  {
    hide Encode, OutputBytes, LoadSalt, Canonical, K.Expanded, K.Initial, Decode, Atoi64;
    DecodeSucceedsIff(s, 7, 16);
    PrefixAndCost(s);
    TerminatorIsNoDigit();
    assert forall i :: 7 <= i < 29 ==> (i < |s| ==> CharAt(s, i) == s[i]) && (i >= |s| ==> CharAt(s, i) == 0);
    if |s| < 29 { assert CharAt(s, if |s| < 7 then 7 else |s|) == 0; }
  }

  lemma TerminatorIsNoDigit()
    ensures Atoi64(0) == 64
  {
  }

  lemma PrefixAndCost(s: seq<byte>)
    ensures PrefixOk(s) && Cost(s) >= 4
       <==> (&& |s| >= 7 && s[0] == 36 && s[1] == 50 && (s[2] == 97 || s[2] == 98 || s[2] == 120 || s[2] == 121)
             && s[3] == 36 && s[6] == 36
             && 48 <= s[4] <= 51 && 48 <= s[5] <= 57 && (s[4] == 48 ==> s[5] >= 52) && (s[4] == 51 ==> s[5] <= 49))
  {
  }

  /** What the core is given, and what becomes of its words: flags 2 for $2a$, 1 for $2x$ and 4 for $2b$ and $2y$, the cost
      of the two digits; and the hash is the setting with its 22nd salt character made canonical, then 31 characters. */
  lemma CryptIs(c: Cipher, key: seq<byte>, s: seq<byte>)
    requires c.Valid() && Crypt(c, key, s).Some?
    ensures |s| >= 29 && Decode(s, 7, 16).Some? && Atoi64(s[28]) < 64
    ensures var flags: byte := if s[2] == 97 then 2 else if s[2] == 120 then 1 else 4;
            var o := c.core(K.Expanded(key, flags), K.Initial(key, c.P, flags), LoadSalt(false, Decode(s, 7, 16).value),
                            (s[4] - 48) * 10 + (s[5] - 48));
            Crypt(c, key, s) == Some(s[..28] + [Canonical(s[28])] + Encode(OutputBytes(false, o)[..23]))
  {
    hide Encode, OutputBytes, LoadSalt, Canonical, K.Expanded, K.Initial, Decode, Atoi64;
    DecodeReads(s, 7, 16);
  }

  // ----- Hash, then check -----

  /** A hash carries its setting: whatever password is hashed with it, the result is the same as with the setting itself. */
  lemma HashCarriesItsSetting(c: Cipher, key: seq<byte>, setting: seq<byte>, other: seq<byte>)
    requires c.Valid() && Crypt(c, key, setting).Some?
    ensures Crypt(c, other, Crypt(c, key, setting).value) == Crypt(c, other, setting)
  {
    hide Crypt, Encode, OutputBytes, LoadSalt, Canonical, K.Expanded, K.Initial, Decode, Atoi64;
    var hash := Crypt(c, key, setting).value;
    CryptIs(c, key, setting);
    CanonicalChar(setting[28]);
    AcceptedIff(c, key, setting);
    AcceptedIff(c, other, setting);
    AcceptedIff(c, other, hash);
    assert forall i :: 0 <= i < 28 ==> hash[i] == setting[i] == CharAt(setting, i) == CharAt(hash, i);
    CanonicalDecodesTheSame(setting, hash, 7, 16);
    CryptIs(c, other, setting);
    CryptIs(c, other, hash);
    assert hash[..28] == setting[..28];
  }

  /** Hashing again with the produced hash as setting gives the same hash. */
  lemma HashIsFixpoint(c: Cipher, key: seq<byte>, setting: seq<byte>)
    requires c.Valid() && Crypt(c, key, setting).Some?
    ensures Crypt(c, key, Crypt(c, key, setting).value) == Crypt(c, key, setting)
  {
    HashCarriesItsSetting(c, key, setting, key);
  }

  // ----- The procedures -----

  /** BF_swap: every word of x, on a little-endian machine. */
  method BFSwap(x: array<word>, little: bool)
    modifies x
    ensures forall i :: 0 <= i < x.Length ==> x[i] == SwapIf(little, old(x[i]))
  {
    hide Swapped;
    if little {
      var i := 0;
      while i < x.Length
        invariant 0 <= i <= x.Length
        invariant forall k :: 0 <= k < i ==> x[k] == SwapIf(little, old(x[k]))
        invariant forall k :: i <= k < x.Length ==> x[k] == old(x[k])
      {
        x[i] := Swapped(x[i]);
        i := i + 1;
      }
    }
  }

  lemma CountBelowMin(cost: byte)
    requires cost <= 31
    ensures (1 as word) << cost < 16 <==> cost < 4
  {
  }

  lemma CostAtMost31(s: seq<byte>)
    requires PrefixOk(s)
    ensures Cost(s) <= 31
  {
  }

  /** The salt words: decoded into memory, then swapped. */
  method ReadSalt(setting: seq<byte>, little: bool) returns (r: Option<Salt>)
    ensures r.Some? <==> Decode(setting, 7, 16).Some?
    ensures r.Some? ==> r.value == LoadSalt(false, Decode(setting, 7, 16).value)
  {
    hide Swapped, Load, Decode;
    var bytes := BFDecode(setting, 7, 16);
    if bytes.None? { return None; }
    var loaded := LoadSalt(little, bytes.value);
    var words := new word[] [loaded.s0, loaded.s1, loaded.s2, loaded.s3];
    BFSwap(words, little);
    if little { SaltIsPortable(bytes.value); }
    return Some(Salt(words[0], words[1], words[2], words[3]));
  }

  /** The last 31 characters: the output words swapped, then 23 of the 24 bytes they leave in memory encoded. */
  method WriteOutput(o: Six, little: bool) returns (text: seq<byte>)
    ensures text == Encode(OutputBytes(false, o)[..23])
  {
    hide Swapped, Store, Encode;
    var words := new word[] [o.w0, o.w1, o.w2, o.w3, o.w4, o.w5];
    BFSwap(words, little);
    var bytes := Store(little, words[0]) + Store(little, words[1]) + Store(little, words[2])
               + Store(little, words[3]) + Store(little, words[4]) + Store(little, words[5]);
    if little { OutputIsPortable(o); }
    text := BFEncode(bytes[..23]);
  }

  /** BF_crypt, on a little-endian or a big-endian machine. */
  method BFCrypt(c: Cipher, key: seq<byte>, setting: seq<byte>, little: bool) returns (output: Option<seq<byte>>)
    requires c.Valid() && 0 !in key
    ensures output == Crypt(c, key, setting)
  {
    hide Encode, Decode, Load, Store, Swapped, K.Word, Cost, Canonical;
    if !PrefixOk(setting) { return None; }
    CostAtMost31(setting);
    var count: word := (1 as word) << Cost(setting);
    CountBelowMin(Cost(setting));
    if count < 16 { return None; }
    var salt := ReadSalt(setting, little);
    if salt.None? { return None; }
    DecodeReads(setting, 7, 16);
    var flags := FlagsBySubtype(CharAt(setting, 2));
    var expanded := new word[K.WORDS];
    var initial := new word[K.WORDS];
    K.BFSetKey(key, c.P, flags, expanded, initial);
    var o := c.core(expanded[..], initial[..], salt.value, Cost(setting));
    var text := WriteOutput(o, little);
    return Some(setting[..28] + [Canonical(setting[28])] + text);
  }

  lemma OrIsZero(ret: byte, a: byte, b: byte)
    ensures ret | (a ^ b) == 0 <==> ret == 0 && a == b
  {
  }

  /** timing_safe_strcmp: zero exactly for equal strings. */
  method TimingSafeStrcmp(str1: seq<byte>, str2: seq<byte>) returns (ret: byte)
    ensures ret == 0 <==> str1 == str2
  {
    if |str1| != |str2| { return 1; }
    ret := 0;
    var i := 0;
    while i < |str1|
      invariant 0 <= i <= |str1|
      invariant ret == 0 <==> str1[..i] == str2[..i]
    {
      OrIsZero(ret, str1[i], str2[i]);
      ret := ret | (str1[i] ^ str2[i]);
      assert str1[..i + 1] == str1[..i] + [str1[i]] && str2[..i + 1] == str2[..i] + [str2[i]];
      i := i + 1;
    }
    assert str1[..i] == str1 && str2[..i] == str2;
  }

  /** bcrypt_checkpw: -1 if the hash is no valid setting, 0 on a match, and positive otherwise. */
  method CheckPw(c: Cipher, passwd: seq<byte>, hash: seq<byte>, little: bool) returns (ret: int)
    requires c.Valid() && 0 !in passwd
    ensures ret == -1 <==> Crypt(c, passwd, hash).None?
    ensures ret == 0 <==> Crypt(c, passwd, hash) == Some(hash)
    ensures ret >= -1
  {
    hide Crypt;
    var outhash := BFCrypt(c, passwd, hash, little);
    if outhash.None? { return -1; }
    var differs := TimingSafeStrcmp(hash, outhash.value);
    ret := if differs == 0 then 0 else differs as int;
  }

  // ----- Salts -----

  /** '0' + n. */
  function Digit(n: nat): byte
    requires n <= 9
  {
    match n
    case 0 => 48 case 1 => 49 case 2 => 50 case 3 => 51 case 4 => 52
    case 5 => 53 case 6 => 54 case 7 => 55 case 8 => 56 case _ => 57
  }

  function WorkFactor(factor: int): nat {
    if factor < 4 || factor > 31 then 12 else factor
  }

  /** bcrypt_gensalt with the random bytes as a parameter. */
  function GenSalt(factor: int, input: seq<byte>): seq<byte>
    requires |input| == 16
  {
    var w := WorkFactor(factor);
    [DOLLAR, TWO, 97, DOLLAR, Digit(w / 10), Digit(w % 10), DOLLAR] + Encode(input)
  }

  lemma DigitsMakeTheCost(w: nat)
    requires 4 <= w <= 31
    ensures 48 <= Digit(w / 10) <= 51 && 48 <= Digit(w % 10) <= 57
    ensures Digit(w / 10) == 51 ==> Digit(w % 10) <= 49
    ensures 4 <= (Digit(w / 10) - 48) * 10 + (Digit(w % 10) - 48) <= 31
    ensures ((Digit(w / 10) - 48) * 10 + (Digit(w % 10) - 48)) as int == w
    ensures Digit(w / 10) as int == 48 + w / 10 && Digit(w % 10) as int == 48 + w % 10
  {
  }

  /** A generated salt is a valid setting that decodes to the random bytes, and the last of its characters is canonical already. */
  lemma GenSaltIsValid(factor: int, input: seq<byte>)
    requires |input| == 16
    ensures var salt := GenSalt(factor, input);
            var w := if factor < 4 || factor > 31 then 12 else factor;
            && |salt| == SETTING && PrefixOk(salt) && Cost(salt) >= 4 && Cost(salt) as int == w
            && salt[..4] == [36, 50, 97, 36] && salt[4] as int == 48 + w / 10 && salt[5] as int == 48 + w % 10
            && Decode(salt, 7, 16) == Some(input)
            && Atoi64(salt[28]) < 64 && Canonical(salt[28]) == salt[28]
  {
    hide Encode, Decode, Digit, Canonical;
    var salt := GenSalt(factor, input);
    DigitsMakeTheCost(WorkFactor(factor));
    var prefix := salt[..7];
    DecodeOfEncode(prefix, input, []);
    assert prefix + Encode(input) + [] == salt;
    EncodeIsCanonical(input);
    assert salt[28] == Encode(input)[21];
  }

  /** Every password hashed with a generated salt gets a hash that begins with the salt and that the check accepts. */
  lemma GeneratedSaltsWork(c: Cipher, key: seq<byte>, factor: int, input: seq<byte>)
    requires c.Valid() && |input| == 16
    ensures var h := Crypt(c, key, GenSalt(factor, input));
            h.Some? && h.value[..SETTING] == GenSalt(factor, input) && Crypt(c, key, h.value) == h
  {
    hide Encode, Decode, Cost, Canonical, PrefixOk, LoadSalt, GenSalt;
    var salt := GenSalt(factor, input);
    GenSaltIsValid(factor, input);
    assert salt == salt[..28] + [salt[28]];
    HashIsFixpoint(c, key, salt);
  }

  /** Checking a password against the hash of another succeeds exactly when both hash alike under the original setting. */
  lemma CheckComparesUnderTheSetting(c: Cipher, key: seq<byte>, other: seq<byte>, setting: seq<byte>)
    requires c.Valid() && Crypt(c, key, setting).Some?
    ensures var hash := Crypt(c, key, setting).value;
            Crypt(c, other, hash) == Some(hash) <==> Crypt(c, other, setting) == Crypt(c, key, setting)
  {
    hide Crypt;
    HashCarriesItsSetting(c, key, setting, other);
  }

  /** A hash is again a C string. */
  lemma HashIsText(c: Cipher, key: seq<byte>, setting: seq<byte>)
    requires c.Valid() && 0 !in setting && Crypt(c, key, setting).Some?
    ensures 0 !in Crypt(c, key, setting).value
  {
    hide Encode, Decode, Cost, Canonical, PrefixOk, LoadSalt, OutputBytes, K.Expanded, K.Initial;
    DecodeReads(setting, 7, 16);
    CanonicalChar(setting[28]);
    var flags := FlagsBySubtype(CharAt(setting, 2));
    var o := c.core(K.Expanded(key, flags), K.Initial(key, c.P, flags),
                    LoadSalt(false, Decode(setting, 7, 16).value), Cost(setting));
    EncodeIsText(OutputBytes(false, o)[..23]);
  }
}
