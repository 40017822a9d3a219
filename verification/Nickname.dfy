/** Which nicknames a new character may take. */
module Nickname {
  const NICKNAME_MIN_SIZE := 4
  const NICKNAME_MAX_SIZE := 16
  const NICKNAME_MAX_CHAR_COUNT := 3
  const Symbols := "!@#$%^&*()_+-=[]{}|;':\",.<>\\/?`~ "
  const Digits := "0123456789"

  datatype Reply = Accepted | TooShort | TooLong | InvalidChar | DigitBeforeChar | ExceedCharCount | Prohibited

  /** std::string::npos: greater than every position. */
  const NPOS: nat := 0xFFFF_FFFF_FFFF_FFFF

  function Count(s: string, c: char): nat {
    if s == "" then 0 else (if s[0] == c then 1 else 0) + Count(s[1..], c)
  }

  /** One or more characters that are no digits, then zero or more digits. */
  predicate LettersThenDigits(s: string) {
    exists k :: 1 <= k <= |s| && SplitAt(s, k)
  }

  predicate SplitAt(s: string, k: nat)
    requires k <= |s|
  {
    (forall i :: 0 <= i < k ==> !('0' <= s[i] <= '9')) && (forall i :: k <= i < |s| ==> '0' <= s[i] <= '9')
  }

  predicate HasSymbol(s: string) {
    exists i :: 0 <= i < |s| && s[i] in Symbols
  }

  predicate HasFrequentChar(s: string) {
    exists i :: 0 <= i < |s| && Count(s, s[i]) > 3
  }

  predicate OccursAt(name: string, s: string, i: nat) {
    i + |name| <= |s| && s[i..i + |name|] == name
  }

  ghost predicate Contains(s: string, name: string) {
    exists i: nat :: OccursAt(name, s, i)
  }

  function ToLower(c: char): char {
    if 'A' <= c <= 'Z' then c - 'A' + 'a' else c
  }

  function Lower(s: string): (r: string)
    ensures |r| == |s|
  {
    seq(|s|, i requires 0 <= i < |s| => ToLower(s[i]))
  }

  /** From place i on, s reads as the name once its capitals are made small. */
  predicate ReadsAs(s: string, i: nat, name: string) {
    && i + |name| <= |s|
    && forall j :: 0 <= j < |name| ==>
         name[j] == if 'A' <= s[i + j] <= 'Z' then (s[i + j] as int + 32) as char else s[i + j]
  }

  ghost predicate IsProhibited(s: string, prohibitedNames: seq<string>) {
    exists n, i: nat :: n in prohibitedNames && ReadsAs(s, i, n)
  }

  lemma LowerReads(s: string, i: nat, name: string)
    ensures ReadsAs(s, i, name) <==> OccursAt(name, Lower(s), i)
  {
    if ReadsAs(s, i, name) {
      forall j | 0 <= j < |name| ensures Lower(s)[i..i + |name|][j] == name[j] {
        assert Lower(s)[i + j] == ToLower(s[i + j]);
      }
      assert Lower(s)[i..i + |name|] == name;
    }
    if OccursAt(name, Lower(s), i) {
      forall j | 0 <= j < |name|
        ensures name[j] == if 'A' <= s[i + j] <= 'Z' then (s[i + j] as int + 32) as char else s[i + j]
      {
        assert Lower(s)[i..i + |name|][j] == Lower(s)[i + j];
      }
    }
  }

  lemma ProhibitedIff(s: string, prohibitedNames: seq<string>)
    ensures IsProhibited(s, prohibitedNames) <==> exists k :: 0 <= k < |prohibitedNames| && Contains(Lower(s), prohibitedNames[k])
  {
    hide ReadsAs, OccursAt, Lower;
    if IsProhibited(s, prohibitedNames) {
      var n, i: nat :| n in prohibitedNames && ReadsAs(s, i, n);
      LowerReads(s, i, n);
      var k :| 0 <= k < |prohibitedNames| && prohibitedNames[k] == n;
      assert Contains(Lower(s), prohibitedNames[k]);
    }
    if k :| 0 <= k < |prohibitedNames| && Contains(Lower(s), prohibitedNames[k]) {
      var i: nat :| OccursAt(prohibitedNames[k], Lower(s), i);
      LowerReads(s, i, prohibitedNames[k]);
    }
  }

  /** The forbidden characters are the printable ones of ASCII that are neither letters nor digits, the space included. */
  lemma SymbolsAre(c: char)
    ensures c in Symbols <==> ' ' <= c <= '~' && !('0' <= c <= '9') && !('A' <= c <= 'Z') && !('a' <= c <= 'z')
  {
  }

  lemma DigitsAre(c: char)
    ensures c in Digits <==> '0' <= c <= '9'
  {
  }

  lemma {:induction false} CountIsMultiplicity(s: string, c: char)
    ensures Count(s, c) == multiset(s)[c]
  {
    if s != "" {
      CountIsMultiplicity(s[1..], c);
      assert s == [s[0]] + s[1..];
    }
  }

  /** The accepted nicknames. */
  ghost predicate Allowed(s: string, prohibitedNames: seq<string>) {
    && 4 <= |s| <= 16
    && !HasSymbol(s)
    && LettersThenDigits(s)
    && !HasFrequentChar(s)
    && !IsProhibited(s, prohibitedNames)
  }

  method FindFirstOf(s: string, chars: string) returns (pos: nat)
    requires |s| < NPOS
    ensures pos == NPOS <==> forall i :: 0 <= i < |s| ==> s[i] !in chars
    ensures pos != NPOS ==> pos < |s| && s[pos] in chars && forall i :: 0 <= i < pos ==> s[i] !in chars
  {
    pos := 0;
    while pos < |s|
      invariant pos <= |s|
      invariant forall i :: 0 <= i < pos ==> s[i] !in chars
    {
      if s[pos] in chars { return; }
      pos := pos + 1;
    }
    pos := NPOS;
  }

  method FindLastNotOf(s: string, chars: string) returns (pos: nat)
    requires |s| < NPOS
    ensures pos == NPOS <==> forall i :: 0 <= i < |s| ==> s[i] in chars
    ensures pos != NPOS ==> pos < |s| && s[pos] !in chars && forall i :: pos < i < |s| ==> s[i] in chars
  {
    pos := |s|;
    while pos > 0
      invariant pos <= |s|
      invariant forall i :: pos <= i < |s| ==> s[i] in chars
    {
      pos := pos - 1;
      if s[pos] !in chars { return; }
    }
    pos := NPOS;
  }

  method CountChar(s: string, c: char) returns (n: nat)
    ensures n == Count(s, c)
  {
    n := 0;
    for i := 0 to |s|
      invariant Count(s, c) == n + Count(s[i..], c)
    {
      if s[i] == c { n := n + 1; }
    }
  }

  method Find(s: string, name: string) returns (found: bool)
    ensures found <==> Contains(s, name)
  {
    var i: nat := 0;
    while i + |name| <= |s|
      invariant forall k: nat :: k < i ==> !OccursAt(name, s, k)
    {
      if s[i..i + |name|] == name {
        assert OccursAt(name, s, i);
        return true;
      }
      i := i + 1;
    }
    found := false;
  }

  /** The position test of the source accepts exactly the names with a letter part and then a digit part:
      an all-digit name has no last non-digit, and npos is greater than its first digit. */
  lemma PositionTest(s: string, firstDigit: nat, lastOther: nat)
    requires 0 < |s| < NPOS
    requires firstDigit == NPOS <==> forall i :: 0 <= i < |s| ==> s[i] !in Digits
    requires firstDigit != NPOS ==>
               firstDigit < |s| && s[firstDigit] in Digits && forall i :: 0 <= i < firstDigit ==> s[i] !in Digits
    requires lastOther == NPOS <==> forall i :: 0 <= i < |s| ==> s[i] in Digits
    requires lastOther != NPOS ==>
               lastOther < |s| && s[lastOther] !in Digits && forall i :: lastOther < i < |s| ==> s[i] in Digits
    ensures firstDigit != NPOS && lastOther > firstDigit <==> !LettersThenDigits(s)
  {
    forall i | 0 <= i < |s| ensures s[i] in Digits <==> '0' <= s[i] <= '9' {
      DigitsAre(s[i]);
    }
    if firstDigit == NPOS {
      assert SplitAt(s, |s|);
    } else if lastOther < firstDigit {
      if lastOther + 1 < firstDigit { assert s[lastOther + 1] in Digits; }
      assert SplitAt(s, firstDigit);
    } else {
      assert s[firstDigit] in Digits;
      assert lastOther == NPOS ==> s[0] in Digits;
      assert lastOther != NPOS ==> s[lastOther] !in Digits;
    }
  }

  method FindFrequentChar(s: string) returns (found: bool)
    ensures found <==> HasFrequentChar(s)
  {
    for i := 0 to |s|
      invariant forall k :: 0 <= k < i ==> Count(s, s[k]) <= NICKNAME_MAX_CHAR_COUNT
    {
      var n := CountChar(s, s[i]);
      if n > NICKNAME_MAX_CHAR_COUNT { return true; }
    }
    found := false;
  }

  method FindProhibited(s: string, prohibitedNames: seq<string>) returns (found: bool)
    ensures found <==> IsProhibited(s, prohibitedNames)
  {
    var lower := Lower(s);
    ProhibitedIff(s, prohibitedNames);
    for j := 0 to |prohibitedNames|
      invariant forall k :: 0 <= k < j ==> !Contains(lower, prohibitedNames[k])
    {
      found := Find(lower, prohibitedNames[j]);
      if found { return; }
    }
    found := false;
  }

  /** The checks in their order; the reply names the first one that fails. */
  method CheckNickname(s: string, prohibitedNames: seq<string>) returns (reply: Reply)
    ensures reply == Accepted <==> Allowed(s, prohibitedNames)
    ensures reply == TooShort <==> |s| < 4
    ensures reply == TooLong <==> |s| > 16
    ensures reply == InvalidChar <==> 4 <= |s| <= 16 && HasSymbol(s)
    ensures reply == DigitBeforeChar
       <==> 4 <= |s| <= 16 && !HasSymbol(s) && !LettersThenDigits(s)
    ensures reply == ExceedCharCount
       <==> 4 <= |s| <= 16 && !HasSymbol(s) && LettersThenDigits(s) && HasFrequentChar(s)
    ensures reply == Prohibited
       <==> (4 <= |s| <= 16 && !HasSymbol(s) && LettersThenDigits(s)
             && !HasFrequentChar(s) && IsProhibited(s, prohibitedNames))
  {
    if |s| < NICKNAME_MIN_SIZE { return TooShort; }
    if |s| > NICKNAME_MAX_SIZE { return TooLong; }
    var symbol := FindFirstOf(s, Symbols);
    if symbol != NPOS { return InvalidChar; }
    var firstDigit := FindFirstOf(s, Digits);
    var lastOther := FindLastNotOf(s, Digits);
    PositionTest(s, firstDigit, lastOther);
    if firstDigit != NPOS && lastOther > firstDigit { return DigitBeforeChar; }
    var frequent := FindFrequentChar(s);
    if frequent { return ExceedCharCount; }
    var prohibited := FindProhibited(s, prohibitedNames);
    if prohibited { return Prohibited; }
    reply := Accepted;
  }
}
