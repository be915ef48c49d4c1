/** The string operations the parser and the printer use, with the behaviour of the
    source language's standard library. */
module Text {
  import opened Results

  const MAX_INT64: nat := 0x7FFF_FFFF_FFFF_FFFF

  function IndexOf(s: string, c: char): (n: nat)
    ensures n <= |s| && (forall i | 0 <= i < n :: s[i] != c) && (n < |s| ==> s[n] == c)
  {
    if s == "" || s[0] == c then 0 else 1 + IndexOf(s[1..], c)
  }

  /** Pieces between occurrences of `c`: always at least one, possibly empty. */
  function Split(s: string, c: char): (pieces: seq<string>)
    ensures |pieces| >= 1
    decreases |s|
  {
    var n := IndexOf(s, c);
    if n == |s| then [s] else [s[..n]] + Split(s[n + 1..], c)
  }

  function Join(parts: seq<string>, sep: string): string {
    if parts == [] then ""
    else if |parts| == 1 then parts[0]
    else parts[0] + sep + Join(parts[1..], sep)
  }

  /** How many characters there are before the first separator. */
  function TokenLength(s: string, isSep: char -> bool): (n: nat)
    ensures n <= |s|
    ensures forall i | 0 <= i < n :: !isSep(s[i])
    ensures n < |s| ==> isSep(s[n])
  {
    if s == "" || isSep(s[0]) then 0 else 1 + TokenLength(s[1..], isSep)
  }

  /** Maximal runs of non-separators: never empty. */
  function Tokens(s: string, isSep: char -> bool): seq<string>
    decreases |s|
  {
    if s == "" then []
    else if isSep(s[0]) then Tokens(s[1..], isSep)
    else
      var n := TokenLength(s, isSep);
      [s[..n]] + Tokens(s[n..], isSep)
  }

  function IsComma(c: char): bool { c == ',' }

  /** White space as Unicode defines it. */
  function IsSpace(c: char): bool {
    '\t' <= c <= '\r' || c == ' ' || c == '\U{0085}' || c == '\U{00A0}' || c == '\U{1680}' ||
    '\U{2000}' <= c <= '\U{200A}' || c == '\U{2028}' || c == '\U{2029}' || c == '\U{202F}' ||
    c == '\U{205F}' || c == '\U{3000}'
  }

  /** Lower case, exact for every character whose lower case is an ASCII letter. */
  function LowerChar(c: char): char {
    if 'A' <= c <= 'Z' then c + 32 as char
    else if c == '\U{0130}' then 'i'
    else if c == '\U{212A}' then 'k'
    else c
  }

  function ToLower(s: string): string {
    if s == "" then "" else [LowerChar(s[0])] + ToLower(s[1..])
  }

  predicate IsDigit(c: char) { '0' <= c <= '9' }

  predicate AllDigits(s: string) { forall i | 0 <= i < |s| :: IsDigit(s[i]) }

  function DigitsValue(s: string): nat
    requires AllDigits(s)
  {
    if s == "" then 0 else 10 * DigitsValue(s[..|s| - 1]) + (s[|s| - 1] - '0') as nat
  }

  /** A decimal integer with an optional sign that fits 64 bits. */
  function Atoi(s: string): Option<int> {
    var digits := if s != "" && (s[0] == '-' || s[0] == '+') then s[1..] else s;
    if digits == "" || !AllDigits(digits) then None
    else
      var n := DigitsValue(digits);
      if s[0] == '-' then (if n <= MAX_INT64 + 1 then Some(0 - n as int) else None)
      else if n <= MAX_INT64 then Some(n)
      else None
  }

  function FormatUint(n: nat): (s: string)
    ensures s != "" && AllDigits(s)
  {
    var digit := [('0' as int + n % 10) as char];
    if n < 10 then digit else FormatUint(n / 10) + digit
  }

  // ---------- laws ----------

  lemma {:induction false} FormatThenValue(n: nat)
    ensures DigitsValue(FormatUint(n)) == n
  {
    if n >= 10 {
      FormatThenValue(n / 10);
      var s := FormatUint(n);
      assert s[..|s| - 1] == FormatUint(n / 10);
    }
  }

  /** Reading back a printed number gives the number. */
  lemma FormatThenAtoi(n: nat)
    requires n <= MAX_INT64
    ensures Atoi(FormatUint(n)) == Some(n)
  {
    FormatThenValue(n);
    assert IsDigit(FormatUint(n)[0]);
  }

  /** A printed number starts with a zero only if it is zero. */
  lemma {:induction false} NoLeadingZero(n: nat)
    ensures FormatUint(n)[0] == '0' <==> n == 0
    ensures |FormatUint(n)| == 1 <==> n < 10
  {
    if n >= 10 { NoLeadingZero(n / 10); }
  }

  lemma {:induction false} ValueOfJoined(a: string, b: string)
    requires AllDigits(a) && AllDigits(b)
    ensures AllDigits(a + b) && (DigitsValue(a) == 0 ==> DigitsValue(a + b) == DigitsValue(b))
  {
    if b == "" {
      assert a + b == a;
    } else {
      var n := |b| - 1;
      ValueOfJoined(a, b[..n]);
      assert (a + b)[..|a + b| - 1] == a + b[..n];
    }
  }

  /** What a decimal number may look like: a printed number with a sign or not, and with leading
      zeros or not. Only those that fit 64 bits are read, and a minus sign gives the negative. */
  lemma SignedAtoi(zeros: string, n: nat)
    requires forall i | 0 <= i < |zeros| :: zeros[i] == '0'
    ensures var digits := zeros + FormatUint(n);
            && Atoi(digits) == Atoi("+" + digits) == (if n < 0x8000_0000_0000_0000 then Some(n as int) else None)
            && Atoi("-" + digits) == (if n <= 0x8000_0000_0000_0000 then Some(0 - n as int) else None)
  {
    FormatThenValue(n);
    ZerosAreZero(zeros);
    ValueOfJoined(zeros, FormatUint(n));
    hide FormatUint, DigitsValue, Atoi;
    AtoiOfDigits(zeros + FormatUint(n));
  }

  lemma AtoiOfDigits(digits: string)
    requires digits != "" && AllDigits(digits)
    ensures var n := DigitsValue(digits);
            && Atoi(digits) == Atoi("+" + digits) == (if n < 0x8000_0000_0000_0000 then Some(n as int) else None)
            && Atoi("-" + digits) == (if n <= 0x8000_0000_0000_0000 then Some(0 - n as int) else None)
  {
    hide DigitsValue;
    assert IsDigit(digits[0]);
    assert ("+" + digits)[1..] == digits && ("-" + digits)[1..] == digits;
  }

  lemma {:induction false} ZerosAreZero(zeros: string)
    requires forall i | 0 <= i < |zeros| :: zeros[i] == '0'
    ensures AllDigits(zeros) && DigitsValue(zeros) == 0
  {
    if zeros != "" { ZerosAreZero(zeros[..|zeros| - 1]); }
  }

  /** The same text but for the case of ASCII letters. */
  predicate SameButCase(s: string, lower: string) {
    |s| == |lower| && forall i | 0 <= i < |s| ::
      s[i] == lower[i] || ('a' <= lower[i] <= 'z' && s[i] as int == lower[i] as int - 32)
  }

  /** Lowering keeps the length, takes each capital to its letter and leaves the others. */
  lemma {:induction false} LowerLetters(s: string)
    ensures |ToLower(s)| == |s|
    ensures forall i | 0 <= i < |s| && 'A' <= s[i] <= 'Z' :: ToLower(s)[i] as int == s[i] as int + 32
    ensures forall i | 0 <= i < |s| && s[i] < '\U{0080}' && !('A' <= s[i] <= 'Z') :: ToLower(s)[i] == s[i]
  {
    if s != "" { LowerLetters(s[1..]); }
  }

  /** A text in lower case is what lowering makes of it in any case. */
  lemma LowerInAnyCase(s: string, lower: string)
    requires SameButCase(s, lower) && forall i | 0 <= i < |lower| :: 'a' <= lower[i] <= 'z'
    ensures ToLower(s) == lower
  {
    LowerLetters(s);
  }

  lemma {:induction false} SplitJoin(s: string, c: char)
    ensures Join(Split(s, c), [c]) == s
    ensures forall k | 0 <= k < |Split(s, c)| :: c !in Split(s, c)[k]
    decreases |s|
  {
    var n := IndexOf(s, c);
    if n < |s| {
      SplitJoin(s[n + 1..], c);
      assert Split(s, c)[1..] == Split(s[n + 1..], c);
      assert s == s[..n] + [c] + s[n + 1..];
    }
  }

  lemma SplitNone(s: string, c: char)
    requires c !in s
    ensures Split(s, c) == [s]
  {
  }

  lemma SplitFirst(a: string, c: char, b: string)
    requires c !in a
    ensures Split(a + [c] + b, c) == [a] + Split(b, c)
  {
    var s := a + [c] + b;
    assert s[|a|] == c;
    assert forall i | 0 <= i < |a| :: s[i] == a[i];
    assert IndexOf(s, c) == |a|;
    assert s[..|a|] == a && s[|a| + 1..] == b;
  }

  predicate IsToken(s: string, isSep: char -> bool) {
    s != "" && forall i | 0 <= i < |s| :: !isSep(s[i])
  }

  /** Tokens joined by a separator character are found again. */
  lemma {:induction false} JoinThenTokens(parts: seq<string>, sep: char, isSep: char -> bool)
    requires isSep(sep) && forall k | 0 <= k < |parts| :: IsToken(parts[k], isSep)
    ensures Tokens(Join(parts, [sep]), isSep) == parts
  {
    if |parts| == 1 {
      TokenFirst(parts[0], "", isSep);
      assert parts[0] + "" == parts[0];
    } else if |parts| > 1 {
      var rest := Join(parts[1..], [sep]);
      JoinThenTokens(parts[1..], sep, isSep);
      TokenFirst(parts[0], [sep] + rest, isSep);
      assert ([sep] + rest)[1..] == rest;
      assert Join(parts, [sep]) == parts[0] + ([sep] + rest);
    }
  }

  lemma TokenFirst(a: string, b: string, isSep: char -> bool)
    requires IsToken(a, isSep) && (b != "" ==> isSep(b[0]))
    ensures Tokens(a + b, isSep) == [a] + Tokens(b, isSep)
  {
    var n := TokenLength(a + b, isSep);
    assert forall i | 0 <= i < |a| :: (a + b)[i] == a[i];
    assert b != "" ==> (a + b)[|a|] == b[0];
    assert n == |a|;
    assert (a + b)[..|a|] == a && (a + b)[|a|..] == b;
  }

  /** Text on the two sides of a separator is read apart, however many separators there are. */
  lemma {:induction false} TokensApart(a: string, sep: char, b: string, isSep: char -> bool)
    requires isSep(sep)
    ensures Tokens(a + [sep] + b, isSep) == Tokens(a, isSep) + Tokens(b, isSep)
    decreases |a|
  {
    var s := a + [sep] + b;
    if a == "" {
      assert s[1..] == b;
    } else if isSep(a[0]) {
      TokensApart(a[1..], sep, b, isSep);
      assert s[1..] == a[1..] + [sep] + b;
    } else {
      var n := TokenLength(a, isSep);
      TokensApart(a[n..], sep, b, isSep);
      assert s == a[..n] + (a[n..] + [sep] + b);
      TokenFirst(a[..n], a[n..] + [sep] + b, isSep);
    }
  }

  /** White space, by code points. */
  lemma WhiteSpace(c: char)
    ensures IsSpace(c) <==>
            (c as int in {9, 10, 11, 12, 13, 32, 133, 160, 5760, 8232, 8233, 8239, 8287, 12288}
             || 8192 <= c as int <= 8202)
  {
  }

  lemma {:induction false} TokensAreTokens(s: string, isSep: char -> bool)
    ensures forall k | 0 <= k < |Tokens(s, isSep)| :: IsToken(Tokens(s, isSep)[k], isSep)
    decreases |s|
  {
    if s != "" {
      if isSep(s[0]) {
        TokensAreTokens(s[1..], isSep);
      } else {
        TokensAreTokens(s[TokenLength(s, isSep)..], isSep);
      }
    }
  }
}
