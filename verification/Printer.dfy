/** A schedule printed as six fields, and what reading it back restores (spec.go). */
module Printer {
  import opened Bits
  import opened Fields
  import opened Parser
  import opened Results
  import opened Spec
  import opened Text

  /** The set positions from `idx` up to `max`, in decimal. */
  function Positions(w: Word, idx: nat, max: nat): seq<string>
    requires max < 64
    decreases max + 1 - idx
  {
    if idx > max then []
    else (if w[idx] then [FormatUint(idx)] else []) + Positions(w, idx + 1, max)
  }

  method EnumerateBits(w: Word, b: Bounds) returns (text: string)
    requires ValidBounds(b)
    ensures text == Join(Positions(w, b.min, b.max), ",")
  {
    hide HasBit, FormatUint, Join;
    var parts := [];
    var idx := b.min;
    while idx <= b.max
      invariant idx <= b.max + 1
      invariant Positions(w, b.min, b.max) == parts + Positions(w, idx, b.max)
    {
      HasBitReads(w, idx);
      if HasBit(w, idx) {
        parts := parts + [FormatUint(idx)];
      }
      idx := idx + 1;
    }
    assert parts + [] == parts;
    text := Join(parts, ",");
  }

  /** A number in decimal, without a sign or a leading zero. */
  predicate IsDecimal(text: string, n: nat) {
    Atoi(text) == Some(n) && text != "" && AllDigits(text) && (text[0] == '0' ==> n == 0 && |text| == 1)
  }

  /** The set positions from `min` up to `max`, each once and in increasing order. */
  ghost predicate AreSetIn(numbers: seq<nat>, w: Word, min: nat, max: nat)
    requires max < 64
  {
    && (forall j, k | 0 <= j < k < |numbers| :: numbers[j] < numbers[k])
    && (forall i: nat :: i in numbers <==> min <= i <= max && w[i])
  }

  predicate AreDecimal(texts: seq<string>, numbers: seq<nat>) {
    |texts| == |numbers| && forall k | 0 <= k < |numbers| :: IsDecimal(texts[k], numbers[k])
  }

  lemma OneMoreIsSet(w: Word, min: nat, max: nat, rest: seq<nat>)
    requires min <= max < 64 && AreSetIn(rest, w, min + 1, max)
    ensures AreSetIn(if w[min] then [min] + rest else rest, w, min, max)
  {
    assert forall k | 0 <= k < |rest| :: rest[k] in rest;
  }

  lemma DecimalOf(n: nat)
    requires n <= MAX_INT64
    ensures IsDecimal(FormatUint(n), n)
  {
    FormatThenAtoi(n);
    NoLeadingZero(n);
    hide FormatUint, Atoi;
  }

  /** The printed positions are exactly the set ones, in increasing order. */
  lemma {:induction false} PositionsIncrease(w: Word, min: nat, max: nat) returns (numbers: seq<nat>)
    requires max < 64
    ensures AreSetIn(numbers, w, min, max) && AreDecimal(Positions(w, min, max), numbers)
    decreases max + 1 - min
  {
    if min > max { return []; }
    var rest := PositionsIncrease(w, min + 1, max);
    numbers := if w[min] then [min] + rest else rest;
    DecimalOf(min);
    OneMoreIsSet(w, min, max, rest);
    hide FormatUint, IsDecimal, AreSetIn;
  }

  predicate PrintsStar(w: Word, b: Bounds) {
    And(w, Not(STAR_BIT)) == Run(b.min, b.max, 1)
  }

  function FieldText(w: Word, b: Bounds): string
    requires ValidBounds(b)
  {
    if PrintsStar(w, b) then "*" else Join(Positions(w, b.min, b.max), ",")
  }

  method FieldString(w: Word, b: Bounds) returns (text: string)
    requires ValidBounds(b)
    ensures text == FieldText(w, b)
  {
    var allBits := GetBits(b.min, b.max, 1);
    if And(w, Not(STAR_BIT)) == allBits {
      return "*";
    }
    text := EnumerateBits(w, b);
  }

  function FieldTexts(s: SpecSchedule): (texts: seq<string>)
    ensures |texts| == 6
  {
    [FieldText(s.second, SECOND_BOUNDS), FieldText(s.minute, MINUTE_BOUNDS), FieldText(s.hour, HOUR_BOUNDS),
     FieldText(s.dom, DOM_BOUNDS), FieldText(s.month, MONTH_BOUNDS), FieldText(s.dow, DOW_BOUNDS)]
  }

  function ScheduleText(s: SpecSchedule): string {
    Join(FieldTexts(s), " ")
  }

  method String(s: SpecSchedule) returns (text: string)
    ensures text == ScheduleText(s)
  {
    var second := FieldString(s.second, SECOND_BOUNDS);
    var minute := FieldString(s.minute, MINUTE_BOUNDS);
    var hour := FieldString(s.hour, HOUR_BOUNDS);
    var dom := FieldString(s.dom, DOM_BOUNDS);
    var month := FieldString(s.month, MONTH_BOUNDS);
    var dow := FieldString(s.dow, DOW_BOUNDS);
    text := Join([second, minute, hour, dom, month, dow], " ");
  }

  // ---------- reading one printed field back ----------

  /** No name could be taken for a number. */
  predicate NamesAreWords(b: Bounds) {
    forall name | name in b.names :: !AllDigits(name)
  }

  lemma FixedBounds()
    ensures forall b | b in {SECOND_BOUNDS, MINUTE_BOUNDS, HOUR_BOUNDS, DOM_BOUNDS, MONTH_BOUNDS, DOW_BOUNDS} ::
              ValidBounds(b) && NamesAreWords(b)
  {
    forall name | name in MONTH_BOUNDS.names || name in DOW_BOUNDS.names ensures !AllDigits(name) {
      assert !IsDigit(name[0]);
    }
  }

  lemma {:induction false} DigitsStayLower(s: string)
    requires AllDigits(s)
    ensures ToLower(s) == s
  {
    if s != "" { DigitsStayLower(s[1..]); }
  }

  lemma PositionIsNumber(n: nat, b: Bounds)
    requires n <= 59 && NamesAreWords(b)
    ensures Number(FormatUint(n), b.names) == Some(n)
    ensures WellFormed(Item(One(FormatUint(n)), None))
  {
    hide FormatUint, Atoi;
    var text := FormatUint(n);
    DigitsStayLower(text);
    FormatThenAtoi(n);
    assert IsDigit(text[0]);
  }

  /** A printed position is read as that one bit. */
  lemma PositionIsRead(n: nat, b: Bounds)
    requires ValidBounds(b) && NamesAreWords(b) && b.min <= n <= b.max
    ensures RangeWord(FormatUint(n), b).Ok?
    ensures forall i | 0 <= i < 64 :: RangeWord(FormatUint(n), b).value[i] <==> i == n
  {
    hide RangeWord, FormatUint, Number, WellFormed;
    var text := FormatUint(n);
    var item := Item(One(text), None);
    PositionIsNumber(n, b);
    ItemIsReadAsMeant(item, b);
    var w := RangeWord(text, b).value;
    forall i | 0 <= i < 64 ensures w[i] <==> i == n {
      if i < STAR_POSITION { assert InRun(i, n, n, 1) <==> i == n; }
    }
  }

  lemma {:induction false} PositionsAreRead(w: Word, idx: nat, b: Bounds)
    requires ValidBounds(b) && NamesAreWords(b) && b.min <= idx <= b.max + 1
    ensures FieldWord(Positions(w, idx, b.max), b).Ok?
    ensures forall i | 0 <= i < 64 ::
              FieldWord(Positions(w, idx, b.max), b).value[i] <==> w[i] && idx <= i <= b.max
    decreases b.max + 1 - idx
  {
    hide RangeWord, FormatUint;
    if idx <= b.max {
      PositionsAreRead(w, idx + 1, b);
      if w[idx] {
        PositionIsRead(idx, b);
        FieldWordCons(FormatUint(idx), Positions(w, idx + 1, b.max), b);
      } else {
        assert Positions(w, idx, b.max) == Positions(w, idx + 1, b.max);
      }
    }
  }

  lemma FieldWordCons(item: string, rest: seq<string>, b: Bounds)
    requires RangeWord(item, b).Ok? && FieldWord(rest, b).Ok?
    ensures FieldWord([item] + rest, b) == Ok(Or(RangeWord(item, b).value, FieldWord(rest, b).value))
  {
    hide RangeWord, Or;
    assert ([item] + rest)[1..] == rest;
  }

  lemma {:induction false} PositionsAreTokens(w: Word, idx: nat, max: nat)
    requires max < 64
    ensures forall k | 0 <= k < |Positions(w, idx, max)| ::
              IsToken(Positions(w, idx, max)[k], IsComma) && AllDigits(Positions(w, idx, max)[k])
    ensures Positions(w, idx, max) == [] <==> forall i | idx <= i <= max :: !w[i]
    decreases max + 1 - idx
  {
    if idx <= max {
      PositionsAreTokens(w, idx + 1, max);
      assert IsToken(FormatUint(idx), IsComma) by {
        assert forall i | 0 <= i < |FormatUint(idx)| :: IsDigit(FormatUint(idx)[i]);
      }
    }
  }

  /** What reading a printed field gives: a full field gains its star. */
  function Reread(w: Word, b: Bounds): Word {
    if Full(w, b) then Or(w, STAR_BIT) else w
  }

  lemma PrintsStarWhenFull(w: Word, b: Bounds)
    requires ValidBounds(b) && InBounds(w, b)
    ensures PrintsStar(w, b) <==> Full(w, b)
  {
    forall i: nat | i < 64 ensures STAR_BIT[i] <==> i == STAR_POSITION { StarBitAlone(i); }
    var masked, all := And(w, Not(STAR_BIT)), Run(b.min, b.max, 1);
    if Full(w, b) {
      assert masked == all;
    }
    if masked == all {
      forall i | 0 <= i < STAR_POSITION && b.min <= i <= b.max ensures w[i] { assert masked[i] == all[i]; }
    }
  }

  lemma StarIsRead(b: Bounds)
    requires ValidBounds(b)
    ensures RangeWord("*", b).Ok?
    ensures Holds(RangeWord("*", b).value, Progression(b.min, b.max, 1, true))
  {
    var item := Item(Star('*', None), None);
    assert Show(item) == "*";
    ItemIsReadAsMeant(item, b);
  }

  lemma FullRoundTrip(w: Word, b: Bounds)
    requires ValidBounds(b) && InBounds(w, b) && Full(w, b)
    ensures FieldOf("*", b) == Ok(Or(w, STAR_BIT))
  {
    hide RangeWord;
    StarIsRead(b);
    forall i: nat | i < 64 ensures STAR_BIT[i] <==> i == STAR_POSITION { StarBitAlone(i); }
    var star := RangeWord("*", b).value;
    var r := Or(w, STAR_BIT);
    forall i | 0 <= i < 64 ensures star[i] == r[i] {
      if i < STAR_POSITION { assert InRun(i, b.min, b.max, 1) <==> b.min <= i <= b.max; }
    }
    assert star == r;
    OneStarToken();
    FieldWordCons("*", [], b);
    assert ["*"] + [] == ["*"];
    assert Or(star, ZERO) == star;
  }

  lemma OneStarToken()
    ensures Tokens("*", IsComma) == ["*"]
  {
    assert "*" + "" == "*";
    TokenFirst("*", "", IsComma);
  }

  /** Reading a printed field restores its bits, up to the star of a full one. */
  lemma FieldRoundTrip(w: Word, b: Bounds)
    requires ValidBounds(b) && NamesAreWords(b) && ParsedField(w, b)
    ensures FieldOf(FieldText(w, b), b) == Ok(Reread(w, b))
  {
    hide RangeWord, Tokens, Positions, FieldWord, PrintsStar, Or, STAR_BIT;
    PrintsStarWhenFull(w, b);
    if Full(w, b) {
      FullRoundTrip(w, b);
    } else {
      var parts := Positions(w, b.min, b.max);
      PositionsAreTokens(w, b.min, b.max);
      JoinThenTokens(parts, ',', IsComma);
      PositionsAreRead(w, b.min, b);
      assert FieldWord(parts, b).value == w;
    }
  }

  lemma {:induction false} JoinKeepsChars(parts: seq<string>, sep: char)
    ensures forall i | 0 <= i < |Join(parts, [sep])| ::
              Join(parts, [sep])[i] == sep || exists k :: 0 <= k < |parts| && Join(parts, [sep])[i] in parts[k]
  {
    if |parts| > 1 {
      var rest := Join(parts[1..], [sep]);
      JoinKeepsChars(parts[1..], sep);
      var whole := Join(parts, [sep]);
      forall i | 0 <= i < |whole|
        ensures whole[i] == sep || exists k :: 0 <= k < |parts| && whole[i] in parts[k]
      {
        var n := |parts[0]|;
        if i < n {
          assert whole[i] in parts[0];
        } else if i > n {
          assert whole[i] == rest[i - n - 1];
          if rest[i - n - 1] != sep {
            var k :| 0 <= k < |parts[1..]| && rest[i - n - 1] in parts[1..][k];
            assert whole[i] in parts[k + 1];
          }
        }
      }
    }
  }

  predicate IsFieldChar(c: char) { IsDigit(c) || c == ',' || c == '*' }

  /** A printed field is made of digits, commas and stars, and is empty only if nothing is selected. */
  lemma FieldTextShape(w: Word, b: Bounds)
    requires ValidBounds(b) && ParsedField(w, b)
    ensures forall i | 0 <= i < |FieldText(w, b)| :: IsFieldChar(FieldText(w, b)[i])
    ensures FieldText(w, b) != "" <==> NonEmpty(w, b)
  {
    PrintsStarWhenFull(w, b);
    if !Full(w, b) {
      var parts := Positions(w, b.min, b.max);
      var text := Join(parts, ",");
      PositionsAreTokens(w, b.min, b.max);
      JoinKeepsChars(parts, ',');
      forall i | 0 <= i < |text| ensures IsFieldChar(text[i]) {
        if text[i] != ',' {
          var k :| 0 <= k < |parts| && text[i] in parts[k];
        }
      }
      if parts != [] { assert parts[0] != ""; }
    } else {
      assert w[b.min];
    }
  }

  // ---------- reading a whole schedule back ----------

  const SECONDS_PARSER := Options(true, false, true, true, true, true, true, false, false)

  function RereadSchedule(s: SpecSchedule, location: Location): SpecSchedule {
    SpecSchedule(
      Reread(s.second, SECOND_BOUNDS), Reread(s.minute, MINUTE_BOUNDS), Reread(s.hour, HOUR_BOUNDS),
      Reread(s.dom, DOM_BOUNDS), Reread(s.month, MONTH_BOUNDS), Reread(s.dow, DOW_BOUNDS), location)
  }

  function DropEmpty(parts: seq<string>): seq<string> {
    if parts == [] then []
    else (if parts[0] == "" then [] else [parts[0]]) + DropEmpty(parts[1..])
  }

  /** White space is a separator whatever stands between: empty parts disappear. */
  lemma {:induction false} JoinSpacesThenTokens(parts: seq<string>)
    requires forall k | 0 <= k < |parts| :: parts[k] == "" || IsToken(parts[k], IsSpace)
    ensures Tokens(Join(parts, " "), IsSpace) == DropEmpty(parts)
  {
    if |parts| == 1 {
      assert parts[0] + "" == parts[0];
      assert parts[1..] == [];
      if parts[0] != "" { TokenFirst(parts[0], "", IsSpace); }
    } else if |parts| > 1 {
      JoinSpacesThenTokens(parts[1..]);
      var rest := Join(parts[1..], " ");
      var tail := " " + rest;
      assert tail[1..] == rest;
      assert Join(parts, " ") == parts[0] + tail;
      if parts[0] != "" { TokenFirst(parts[0], tail, IsSpace); } else { assert parts[0] + tail == tail; }
    }
  }

  lemma {:induction false} DropEmptyCount(parts: seq<string>)
    ensures |DropEmpty(parts)| <= |parts|
    ensures |DropEmpty(parts)| == |parts| <==> forall k | 0 <= k < |parts| :: parts[k] != ""
    ensures |DropEmpty(parts)| == |parts| ==> DropEmpty(parts) == parts
  {
    if parts != [] {
      DropEmptyCount(parts[1..]);
      assert forall k | 1 <= k < |parts| :: parts[k] == parts[1..][k - 1];
      if parts[0] != "" && forall k | 0 <= k < |parts[1..]| :: parts[1..][k] != "" {
        assert forall k | 0 <= k < |parts| :: parts[k] != "";
      }
    }
  }

  lemma FieldCharIsToken(s: string)
    requires s != "" && forall i | 0 <= i < |s| :: IsFieldChar(s[i])
    ensures IsToken(s, IsSpace)
  {
  }

  lemma TextsShape(s: SpecSchedule)
    requires ParsedSchedule(s)
    ensures forall k | 0 <= k < 6 :: FieldTexts(s)[k] == "" || IsToken(FieldTexts(s)[k], IsSpace)
    ensures forall k | 0 <= k < 6 :: forall i | 0 <= i < |FieldTexts(s)[k]| :: IsFieldChar(FieldTexts(s)[k][i])
    ensures (forall k | 0 <= k < 6 :: FieldTexts(s)[k] != "") <==> AllFieldsNonEmpty(s)
  {
    hide FieldText, ParsedField, NonEmpty, IsFieldChar;
    FixedBounds();
    FieldTextShape(s.second, SECOND_BOUNDS);
    FieldTextShape(s.minute, MINUTE_BOUNDS);
    FieldTextShape(s.hour, HOUR_BOUNDS);
    FieldTextShape(s.dom, DOM_BOUNDS);
    FieldTextShape(s.month, MONTH_BOUNDS);
    FieldTextShape(s.dow, DOW_BOUNDS);
    var texts := FieldTexts(s);
    assert texts[0] != "" && texts[1] != "" && texts[2] != "" && texts[3] != "" && texts[4] != "" && texts[5] != ""
      <==> AllFieldsNonEmpty(s);
    forall k | 0 <= k < 6 ensures texts[k] == "" || IsToken(texts[k], IsSpace) {
      if texts[k] != "" { FieldCharIsToken(texts[k]); }
    }
  }

  /** The printed text has no zone prefix and no descriptor mark. */
  lemma TextIsPlain(s: SpecSchedule, load: string -> Option<Location>)
    requires ParsedSchedule(s)
    ensures var text := ScheduleText(s);
            text != "" && ExtractLocation(text, load) == Ok((text, Local)) && !("@" <= text)
  {
    hide FieldText, ParsedField, NonEmpty, FieldTexts;
    TextsShape(s);
    var text, texts := ScheduleText(s), FieldTexts(s);
    JoinKeepsChars(texts, ' ');
    assert text == texts[0] + " " + Join(texts[1..], " ");
    var c := text[0];
    assert c == ' ' || IsFieldChar(c);
    assert c != 'T' && c != 'C' && c != '@';
  }

  /** Printing a parsed schedule and reading it back with a seconds parser restores all six
      fields up to the star of a full one, provided every field selects something; if one
      selects nothing the text is refused. */
  lemma ScheduleRoundTrip(s: SpecSchedule, load: string -> Option<Location>)
    requires ParsedSchedule(s)
    ensures ParseOf(ScheduleText(s), SECONDS_PARSER, load) ==
            if AllFieldsNonEmpty(s) then Ok(Six(RereadSchedule(s, Local))) else Err(FieldCount)
  {
    hide FieldText, ParsedField, NonEmpty, FieldTexts, Tokens, FieldOf, Reread, ExtractLocation, Join;
    TextIsPlain(s, load);
    TextsShape(s);
    var texts := FieldTexts(s);
    JoinSpacesThenTokens(texts);
    DropEmptyCount(texts);
    AllSixWanted(DropEmpty(texts));
    if AllFieldsNonEmpty(s) {
      FieldsRoundTrip(s);
    }
  }

  lemma AllSixWanted(fields: seq<string>)
    ensures NormalizedFields(fields, SECONDS_PARSER) == if |fields| == 6 then Ok(fields) else Err(FieldCount)
  {
    var places := Enabled(SECONDS_PARSER);
    assert CountTrue(places) == 6 by {
      assert CountTrue(places[5..]) == 1;
      assert places[4..][1..] == places[5..];
      assert places[3..][1..] == places[4..];
      assert places[2..][1..] == places[3..];
      assert places[1..][1..] == places[2..];
    }
    if |fields| == 6 { ExpandAll(fields, places, DEFAULTS); }
  }

  lemma {:induction false} ExpandAll(fields: seq<string>, places: seq<bool>, defaults: seq<string>)
    requires |fields| == |places| == |defaults| == CountTrue(places)
    ensures Expand(fields, places, defaults) == fields
  {
    if places != [] { ExpandAll(fields[1..], places[1..], defaults[1..]); }
  }

  lemma FieldsRoundTrip(s: SpecSchedule)
    requires ParsedSchedule(s)
    ensures ScheduleOf(FieldTexts(s), Local) == Ok(RereadSchedule(s, Local))
  {
    hide FieldText, ParsedField, FieldOf, Reread;
    FixedBounds();
    FieldRoundTrip(s.second, SECOND_BOUNDS);
    FieldRoundTrip(s.minute, MINUTE_BOUNDS);
    FieldRoundTrip(s.hour, HOUR_BOUNDS);
    FieldRoundTrip(s.dom, DOM_BOUNDS);
    FieldRoundTrip(s.month, MONTH_BOUNDS);
    FieldRoundTrip(s.dow, DOW_BOUNDS);
  }

  lemma RereadKeepsText(w: Word, b: Bounds)
    requires ValidBounds(b) && ParsedField(w, b)
    ensures FieldText(Reread(w, b), b) == FieldText(w, b)
    ensures ParsedField(Reread(w, b), b) && Reread(Reread(w, b), b) == Reread(w, b)
  {
    forall i: nat | i < 64 ensures STAR_BIT[i] <==> i == STAR_POSITION { StarBitAlone(i); }
    var r := Reread(w, b);
    assert forall i | 0 <= i < STAR_POSITION :: r[i] <==> w[i];
    PrintsStarWhenFull(w, b);
    PrintsStarWhenFull(r, b);
    if Full(w, b) { assert Or(r, STAR_BIT) == r; }
  }

  /** Printing what was read back gives the same text again. */
  lemma TextIsStable(s: SpecSchedule, location: Location)
    requires ParsedSchedule(s)
    ensures ScheduleText(RereadSchedule(s, location)) == ScheduleText(s)
    ensures ParsedSchedule(RereadSchedule(s, location))
    ensures RereadSchedule(RereadSchedule(s, location), location) == RereadSchedule(s, location)
  {
    hide FieldText, ParsedField, Reread, Join;
    FixedBounds();
    RereadKeepsText(s.second, SECOND_BOUNDS);
    RereadKeepsText(s.minute, MINUTE_BOUNDS);
    RereadKeepsText(s.hour, HOUR_BOUNDS);
    RereadKeepsText(s.dom, DOM_BOUNDS);
    RereadKeepsText(s.month, MONTH_BOUNDS);
    RereadKeepsText(s.dow, DOW_BOUNDS);
  }
}
