/** How specifications are read, in plain terms: names in any case, ranges and steps, the places of
    the standard parser, a zone in front (parser.go). */
module Readings {
  import opened Bits
  import opened Fields
  import opened Parser
  import opened Results
  import opened Spec
  import opened Text

  // ---------- names ----------

  const MONTHS: seq<string> :=
    ["jan", "feb", "mar", "apr", "may", "jun", "jul", "aug", "sep", "oct", "nov", "dec"]
  const WEEKDAYS: seq<string> := ["sun", "mon", "tue", "wed", "thu", "fri", "sat"]

  lemma MonthsAreNamed()
    ensures forall k | 0 <= k < 12 :: MONTHS[k] in MONTH_BOUNDS.names && MONTH_BOUNDS.names[MONTHS[k]] == k + 1
    ensures forall k, i | 0 <= k < 12 && 0 <= i < |MONTHS[k]| :: 'a' <= MONTHS[k][i] <= 'z'
  {
  }

  lemma WeekdaysAreNamed()
    ensures forall k | 0 <= k < 7 :: WEEKDAYS[k] in DOW_BOUNDS.names && DOW_BOUNDS.names[WEEKDAYS[k]] == k
    ensures forall k, i | 0 <= k < 7 && 0 <= i < |WEEKDAYS[k]| :: 'a' <= WEEKDAYS[k][i] <= 'z'
  {
  }

  /** January is 1 and Sunday 0, in capitals, in small letters or mixed. */
  lemma NamesInAnyCase(s: string, k: nat)
    ensures k < 12 && SameButCase(s, MONTHS[k]) ==> ParseIntOrName(s, MONTH_BOUNDS.names) == Ok(k + 1)
    ensures k < 7 && SameButCase(s, WEEKDAYS[k]) ==> ParseIntOrName(s, DOW_BOUNDS.names) == Ok(k)
  {
    hide ToLower, SameButCase;
    if k < 12 && SameButCase(s, MONTHS[k]) {
      MonthsAreNamed();
      LowerInAnyCase(s, MONTHS[k]);
    }
    if k < 7 && SameButCase(s, WEEKDAYS[k]) {
      WeekdaysAreNamed();
      LowerInAnyCase(s, WEEKDAYS[k]);
    }
  }

  /** A number may have leading zeros and must fit 64 bits; names are no numbers. */
  lemma NumbersAreRead(zeros: string, n: nat, b: Bounds)
    requires forall i | 0 <= i < |zeros| :: zeros[i] == '0'
    requires b.names == map[] || b.names == MONTH_BOUNDS.names || b.names == DOW_BOUNDS.names
    ensures ParseIntOrName(zeros + FormatUint(n), b.names) ==
            if n < 0x8000_0000_0000_0000 then Ok(n) else Err(NotANumber)
  {
    var digits := zeros + FormatUint(n);
    assert IsDigit(digits[0]);
    SignedAtoi(zeros, n);
    hide Atoi, FormatUint, ToLower, IsDigit, ParseIntOrName;
    NoNumberIsAName(digits, b);
  }

  /** And it must not be negative. */
  lemma NegativesAreRefused(zeros: string, n: nat, b: Bounds)
    requires n > 0 && forall i | 0 <= i < |zeros| :: zeros[i] == '0'
    requires b.names == map[] || b.names == MONTH_BOUNDS.names || b.names == DOW_BOUNDS.names
    ensures ParseIntOrName("-" + (zeros + FormatUint(n)), b.names) ==
            Err(if n > 0x8000_0000_0000_0000 then NotANumber else NegativeNumber)
  {
    var text := "-" + (zeros + FormatUint(n));
    SignedAtoi(zeros, n);
    hide Atoi, FormatUint, ToLower, IsDigit, ParseIntOrName;
    NoNumberIsAName(text, b);
  }

  lemma NoNumberIsAName(s: string, b: Bounds)
    requires s != "" && (IsDigit(s[0]) || s[0] == '-')
    requires b.names == map[] || b.names == MONTH_BOUNDS.names || b.names == DOW_BOUNDS.names
    ensures ParseIntOrName(s, b.names) == MustParseInt(s)
  {
    LowerLetters(s);
    hide ToLower, MustParseInt;
    forall name | name in b.names ensures ToLower(s) != name { assert 'a' <= name[0] <= 'z'; }
  }

  // ---------- ranges and steps ----------

  /** A text that is read as the number n; it has no hyphen or slash in it and is no star. */
  predicate Spells(s: string, names: map<string, nat>, n: nat) {
    ParseIntOrName(s, names) == Ok(n) && '-' !in s && '/' !in s && s != "*" && s != "?"
  }

  /** What is wrong with the range that a step and two ends give. */
  function Fault(low: int, high: int, step: int, b: Bounds): Option<ParseError> {
    if low < b.min then Some(BelowMinimum) else if high > b.max then Some(AboveMaximum)
    else if low > high then Some(StartBeyondEnd) else if step < 1 then Some(StepNotPositive) else None
  }

  /** The positions from `low` up to `high` by `step`, with the star bit or without; or what is
      wrong with them: out of bounds, out of order, or a step of zero. */
  predicate ReadAs(r: Result<Word, ParseError>, b: Bounds, low: int, high: int, step: int, star: bool) {
    if b.min <= low <= high <= b.max && step >= 1 then
      r.Ok? && (forall i | 0 <= i < 63 :: r.value[i] <==> low <= i <= high && (i - low) % step == 0) &&
      (r.value[63] <==> star)
    else r.Err? && Fault(low, high, step, b) == Some(r.error)
  }

  lemma ItemIsReadAs(item: Item, b: Bounds, low: nat, high: nat, step: nat)
    requires ValidBounds(b) && WellFormed(item) && StepOf(item) == Some(step) && EndsOf(item, b) == Some((low, high))
    ensures ReadAs(RangeWord(Show(item), b), b, low, high, step, item.range.Star? && step == 1)
  {
    hide RangeWord, Show, WellFormed, StepOf, EndsOf, ValidBounds;
    if b.min <= low <= high <= b.max && step >= 1 {
      ItemIsReadAsMeant(item, b);
    } else {
      InvalidItem(item, b, low, high, step);
    }
  }

  lemma InvalidItem(item: Item, b: Bounds, low: nat, high: nat, step: nat)
    requires WellFormed(item) && StepOf(item) == Some(step) && EndsOf(item, b) == Some((low, high))
    requires Fault(low, high, step, b).Some?
    ensures RangeWord(Show(item), b) == Err(Fault(low, high, step, b).value)
  {
    StepIsRead(item);
    StepIsParsed(item, step);
    hide Show, ShowRange, WellFormed, EndsOf, ParseStep, ParseRangeExpr, StepOf, MustParseInt, Fault;
    EndsAreRead(item, b);
    var (range, single) := ParseRangeExpr(ShowRange(item.range), b).value;
    InvalidRange(Show(item), b, StepResult(ShowRange(item.range), step, item.step.Some?), range, single);
  }

  lemma StepIsParsed(item: Item, step: nat)
    requires StepOf(item) == Some(step)
    ensures if item.step.None? then step == 1 else MustParseInt(item.step.value) == Ok(step)
  {
    hide Atoi, ToLower;
  }

  lemma InvalidRange(expr: string, b: Bounds, st: StepResult, range: RangeBits, single: bool)
    requires ParseStep(expr) == Ok(st) && ParseRangeExpr(st.rangeExpr, b) == Ok((range, single))
    requires Fault(range.start, if st.hasStep && single then b.max else range.end, st.step, b).Some?
    ensures RangeWord(expr, b) ==
            Err(Fault(range.start, if st.hasStep && single then b.max else range.end, st.step, b).value)
  {
    hide ParseStep, ParseRangeExpr;
  }

  lemma SpelledNumber(s: string, names: map<string, nat>, n: nat)
    requires Spells(s, names, n)
    ensures Number(s, names) == Some(n) && WellFormed(Item(One(s), None))
  {
    hide ToLower, Atoi;
  }

  /** The forms of one expression without a step. */
  lemma RangesAreRead(a: string, c: string, low: nat, high: nat, b: Bounds)
    requires ValidBounds(b) && Spells(a, b.names, low) && Spells(c, b.names, high)
    ensures ReadAs(RangeWord("*", b), b, b.min, b.max, 1, true)
    ensures ReadAs(RangeWord("?", b), b, b.min, b.max, 1, true)
    ensures ReadAs(RangeWord(a, b), b, low, low, 1, false)
    ensures ReadAs(RangeWord(a + "-" + c, b), b, low, high, 1, false)
  {
    SpelledNumber(a, b.names, low);
    SpelledNumber(c, b.names, high);
    hide RangeWord, Number, Spells, ReadAs;
    ItemIsReadAs(Item(Star('*', None), None), b, b.min, b.max, 1);
    ItemIsReadAs(Item(Star('?', None), None), b, b.min, b.max, 1);
    ItemIsReadAs(Item(One(a), None), b, low, low, 1);
    ItemIsReadAs(Item(Two(a, c), None), b, low, high, 1);
  }

  /** And with one: a single value then stands for all from it on, and a star bit stays only
      with a step of one. */
  lemma StepsAreRead(a: string, c: string, e: string, low: nat, high: nat, step: nat, b: Bounds)
    requires ValidBounds(b) && Spells(a, b.names, low) && Spells(c, b.names, high) && Spells(e, map[], step)
    ensures ReadAs(RangeWord("*/" + e, b), b, b.min, b.max, step, step == 1)
    ensures ReadAs(RangeWord(a + "/" + e, b), b, low, b.max, step, false)
    ensures ReadAs(RangeWord(a + "-" + c + "/" + e, b), b, low, high, step, false)
  {
    SpelledNumber(a, b.names, low);
    SpelledNumber(c, b.names, high);
    SpelledNumber(e, map[], step);
    ShownForms(a, c, e);
    FormsAreItems(a, c, e, low, high, b);
    hide RangeWord, Number, Spells, ReadAs, Show, WellFormed, EndsOf;
    ItemIsReadAs(Item(Star('*', None), Some(e)), b, b.min, b.max, step);
    ItemIsReadAs(Item(One(a), Some(e)), b, low, b.max, step);
    ItemIsReadAs(Item(Two(a, c), Some(e)), b, low, high, step);
  }

  lemma ShownForms(a: string, c: string, e: string)
    ensures Show(Item(Star('*', None), Some(e))) == "*/" + e
    ensures Show(Item(One(a), Some(e))) == a + "/" + e
    ensures Show(Item(Two(a, c), Some(e))) == a + "-" + c + "/" + e
  {
    assert "*" + "/" + e == "*/" + e;
  }

  lemma FormsAreItems(a: string, c: string, e: string, low: nat, high: nat, b: Bounds)
    requires Spells(a, b.names, low) && Spells(c, b.names, high) && '/' !in e
    ensures WellFormed(Item(Star('*', None), Some(e)))
    ensures WellFormed(Item(One(a), Some(e))) && WellFormed(Item(Two(a, c), Some(e)))
    ensures EndsOf(Item(Star('*', None), Some(e)), b) == Some((b.min, b.max))
    ensures EndsOf(Item(One(a), Some(e)), b) == Some((low, b.max))
    ensures EndsOf(Item(Two(a, c), Some(e)), b) == Some((low, high))
  {
    hide Atoi, ToLower;
  }

  /** A negative step is refused, whatever it is a step of. */
  lemma NegativeStepIsRefused(range: string, n: nat, b: Bounds)
    requires '/' !in range && n > 0
    ensures RangeWord(range + "/-" + FormatUint(n), b).Err?
  {
    var text := "-" + FormatUint(n);
    assert range + "/-" + FormatUint(n) == range + "/" + text;
    NegativeText(n);
    hide FormatUint, MustParseInt;
    RefusedStep(range, text, b);
  }

  lemma NegativeText(n: nat)
    requires n > 0
    ensures var text := "-" + FormatUint(n); '/' !in text && MustParseInt(text).Err?
  {
    SignedAtoi("", n);
    assert "" + FormatUint(n) == FormatUint(n);
    NoSlash(FormatUint(n));
    hide FormatUint, Atoi, AllDigits;
  }

  lemma NoSlash(digits: string)
    requires AllDigits(digits)
    ensures '/' !in "-" + digits
  {
  }

  lemma RefusedStep(range: string, text: string, b: Bounds)
    requires '/' !in range && '/' !in text && MustParseInt(text).Err?
    ensures RangeWord(range + "/" + text, b).Err?
  {
    SplitFirst(range, '/', text);
    SplitNone(text, '/');
    hide Split, MustParseInt, ParseRangeExpr;
  }

  /** More than one slash or hyphen is refused as such, unless a star comes before the hyphens. */
  lemma TooManyPieces(a: string, c: string, e: string, n: nat, b: Bounds)
    requires '/' !in a && '/' !in c && '/' !in e
    ensures RangeWord(a + "/" + (c + "/" + e), b) == Err(TooManySlashes)
    ensures Spells(a, b.names, n) && '-' !in c && '-' !in e ==>
              RangeWord(a + "-" + (c + "-" + e), b) == Err(TooManyHyphens)
  {
    ThreePieces(a, '/', c, e);
    if Spells(a, b.names, n) && '-' !in c && '-' !in e { TooManyEnds(a, c, e, n, b); }
    hide Split;
  }

  lemma TooManyEnds(a: string, c: string, e: string, n: nat, b: Bounds)
    requires Spells(a, b.names, n) && '/' !in c && '/' !in e && '-' !in c && '-' !in e
    ensures RangeWord(a + "-" + (c + "-" + e), b) == Err(TooManyHyphens)
  {
    var expr := a + "-" + (c + "-" + e);
    ThreePieces(a, '-', c, e);
    SplitNone(expr, '/');
    hide Split, ParseIntOrName;
  }

  lemma ThreePieces(a: string, sep: char, c: string, e: string)
    requires sep !in a && sep !in c && sep !in e
    ensures Split(a + [sep] + (c + [sep] + e), sep) == [a, c, e]
  {
    SplitFirst(a, sep, c + [sep] + e);
    SplitFirst(c, sep, e);
    SplitNone(e, sep);
    hide Split;
  }

  /** What each of the six places takes: seconds and minutes 0 to 59, hours 0 to 23, days 1 to 31,
      months 1 to 12, weekdays 0 to 6. */
  lemma PlacesTake(k: nat, n: nat)
    requires k < 6
    ensures var r := RangeWord(FormatUint(n), BoundsAt(k));
            && (r.Ok? <==> [0, 0, 0, 1, 1, 0][k] <= n <= [59, 59, 23, 31, 12, 6][k])
            && (r.Ok? ==> forall i | 0 <= i < 64 :: r.value[i] <==> i == n)
  {
    var b, s := BoundsAt(k), FormatUint(n);
    assert b.min == [0, 0, 0, 1, 1, 0][k] && b.max == [59, 59, 23, 31, 12, 6][k];
    NumbersAreRead("", n, b);
    assert "" + s == s;
    PlainItem(s);
    hide FormatUint, BoundsAt, RangeWord, ParseIntOrName;
    if n < 0x8000_0000_0000_0000 {
      RangesAreRead(s, s, n, n, b);
    } else {
      NotSpelled(s, b);
    }
  }

  lemma PlainItem(s: string)
    requires s != "" && AllDigits(s)
    ensures '-' !in s && '/' !in s && s != "*" && s != "?"
  {
    assert IsDigit(s[0]);
  }

  lemma NotSpelled(s: string, b: Bounds)
    requires ParseIntOrName(s, b.names).Err? && '-' !in s && '/' !in s && s != "*" && s != "?"
    ensures RangeWord(s, b).Err?
  {
    hide ParseIntOrName, Split;
    SplitNone(s, '/');
    SplitNone(s, '-');
  }

  // ---------- the standard parser ----------

  /** Minute, hour, day of the month, month and weekday, with descriptors. */
  const STANDARD_PARSER := Options(false, false, true, true, true, true, true, false, true)

  /** Its five fields are put after a second of zero. */
  lemma StandardFields(fields: seq<string>)
    ensures NormalizedFields(fields, STANDARD_PARSER) ==
            if |fields| == 5 then Ok(["0"] + fields) else Err(FieldCount)
  {
    NormalizeAccepts(fields, STANDARD_PARSER);
    if |fields| == 5 {
      FieldsInPlace(fields, STANDARD_PARSER);
      hide NormalizedFields;
      assert NormalizedFields(fields, STANDARD_PARSER).value == ["0"] + fields;
    }
  }

  /** Each field is read at its own place, and the second is 0 alone. */
  ghost predicate FiveMean(fields: seq<string>, s: SpecSchedule)
    requires |fields| == 5
  {
    && (forall i | 0 <= i < 64 :: s.second[i] <==> i == 0)
    && FieldMeans(fields[0], MINUTE_BOUNDS, s.minute) && FieldMeans(fields[1], HOUR_BOUNDS, s.hour)
    && FieldMeans(fields[2], DOM_BOUNDS, s.dom) && FieldMeans(fields[3], MONTH_BOUNDS, s.month)
    && FieldMeans(fields[4], DOW_BOUNDS, s.dow)
  }

  ghost predicate FiveAccepted(fields: seq<string>)
    requires |fields| == 5
  {
    && FieldAccepted(fields[0], MINUTE_BOUNDS) && FieldAccepted(fields[1], HOUR_BOUNDS)
    && FieldAccepted(fields[2], DOM_BOUNDS) && FieldAccepted(fields[3], MONTH_BOUNDS)
    && FieldAccepted(fields[4], DOW_BOUNDS)
  }

  lemma FiveFields(fields: seq<string>, location: Location)
    requires |fields| == 5
    ensures var r := ScheduleOf(["0"] + fields, location);
            && (r.Ok? <==> FiveAccepted(fields))
            && (r.Ok? ==> FiveMean(fields, r.value) && r.value.location == location)
  {
    hide FieldAccepted, FieldMeans, FieldOf;
    ZeroField();
    FieldOfIsMeant(fields[0], MINUTE_BOUNDS);
    FieldOfIsMeant(fields[1], HOUR_BOUNDS);
    FieldOfIsMeant(fields[2], DOM_BOUNDS);
    FieldOfIsMeant(fields[3], MONTH_BOUNDS);
    FieldOfIsMeant(fields[4], DOW_BOUNDS);
  }

  /** A specification without a zone is read field by field, for the zone of whoever asks. */
  lemma StandardSchedule(spec: string, load: string -> Option<Location>)
    requires !("TZ=" <= spec) && !("CRON_TZ=" <= spec) && !("@" <= spec) && spec != ""
    ensures var fields, r := Tokens(spec, IsSpace), ParseOf(spec, STANDARD_PARSER, load);
            if |fields| != 5 then r == Err(FieldCount)
            else
              && (r.Ok? <==> FiveAccepted(fields))
              && (r.Ok? ==> r.value.Six? && FiveMean(fields, r.value.schedule) && r.value.schedule.location == Local)
  {
    var fields := Tokens(spec, IsSpace);
    assert ExtractLocation(spec, load) == Ok((spec, Local));
    hide Tokens, NormalizedFields, ExtractLocation, ScheduleOf, FiveAccepted, FiveMean;
    StandardFields(fields);
    if |fields| == 5 { FiveFields(fields, Local); }
  }

  lemma FieldOfIsMeant(text: string, b: Bounds)
    requires ValidBounds(b)
    ensures FieldOf(text, b).Ok? <==> FieldAccepted(text, b)
    ensures FieldOf(text, b).Ok? ==> FieldMeans(text, b, FieldOf(text, b).value)
  {
    hide FieldWord, Tokens, FieldAccepted, FieldMeans;
    FieldIsMeant(text, b);
  }

  lemma ZeroField()
    ensures FieldOf("0", SECOND_BOUNDS).Ok?
    ensures forall i | 0 <= i < 64 :: FieldOf("0", SECOND_BOUNDS).value[i] <==> i == 0
  {
    assert FormatUint(0) == "0" && BoundsAt(0) == SECOND_BOUNDS;
    PlacesTake(0, 0);
    hide RangeWord;
    TokenFirst("0", "", IsComma);
    assert "0" + "" == "0" && ["0"] + [] == ["0"];
    assert FieldWord(["0"], SECOND_BOUNDS) == Ok(Or(RangeWord("0", SECOND_BOUNDS).value, ZERO));
  }

  // ---------- a zone in front ----------

  /** What fields mean in a zone: six fields or an error, or a descriptor. */
  function ReadIn(fields: seq<string>, zone: Location, o: Options): Result<Parsed, ParseError>
    requires fields != []
  {
    if "@" <= fields[0] then
      if o.descriptor then Ok(Descriptor(Join(fields, " "), zone)) else Err(DescriptorNotAllowed)
    else
      match NormalizedFields(fields, o)
      case Err(e) => Err(e)
      case Ok(six) =>
        match ScheduleOf(six, zone)
        case Err(e) => Err(e)
        case Ok(schedule) => Ok(Six(schedule))
  }

  lemma ReadInZone(fields: seq<string>, zone: Location, o: Options)
    requires fields != []
    ensures ReadIn(fields, zone, o).Ok? && ReadIn(fields, zone, o).value.Six? ==>
              ReadIn(fields, zone, o).value.schedule.location == zone
  {
    hide ScheduleOf, NormalizedFields;
    if NormalizedFields(fields, o).Ok? { ScheduleOfFields(NormalizedFields(fields, o).value, zone); }
  }

  /** After `TZ=` or `CRON_TZ=` comes the name of a zone; the fields of the rest are read in it. */
  lemma ZoneInFront(prefix: string, name: string, rest: string, o: Options, load: string -> Option<Location>)
    requires prefix == "TZ=" || prefix == "CRON_TZ="
    requires name != "" && forall i | 0 <= i < |name| :: !IsSpace(name[i])
    requires Tokens(rest, IsSpace) != []
    ensures var r := ParseOf(prefix + name + " " + rest, o, load);
            match load(name)
            case None => r == Err(BadLocation)
            case Some(zone) =>
              && r == ReadIn(Tokens(rest, IsSpace), zone, o)
              && (r.Ok? && r.value.Six? ==> r.value.schedule.location == zone)
  {
    var fields := Tokens(rest, IsSpace);
    assert IsSpace(' ');
    ZoneIsExtracted(prefix, name, rest, load);
    hide Tokens, NormalizedFields, ScheduleOf, IsSpace, ExtractLocation;
    TokensAreTokens(rest, IsSpace);
    JoinThenTokens(fields, ' ', IsSpace);
    JoinStart(fields);
    if load(name).Some? { ReadInZone(fields, load(name).value, o); }
  }

  lemma ZoneIsExtracted(prefix: string, name: string, rest: string, load: string -> Option<Location>)
    requires prefix == "TZ=" || prefix == "CRON_TZ="
    requires name != "" && forall i | 0 <= i < |name| :: !IsSpace(name[i])
    requires Tokens(rest, IsSpace) != []
    ensures ExtractLocation(prefix + name + " " + rest, load) ==
            match load(name)
            case None => Err(BadLocation)
            case Some(zone) => Ok((Join(Tokens(rest, IsSpace), " "), zone))
  {
    hide Tokens, Join, IsSpace, IndexOf, ExtractLocation, IsToken;
    PrefixIsNoSpace(prefix, name);
    FirstOfSpec(prefix + name, rest);
    FirstEquals(prefix, name);
    StartsWith(prefix, name, rest);
    TailOf(prefix + name, Tokens(rest, IsSpace));
    ExtractedFrom(prefix + name + " " + rest, name, Tokens(rest, IsSpace), load);
  }

  lemma PrefixIsNoSpace(prefix: string, name: string)
    requires prefix == "TZ=" || prefix == "CRON_TZ="
    requires forall i | 0 <= i < |name| :: !IsSpace(name[i])
    ensures IsToken(prefix + name, IsSpace)
  {
  }

  lemma StartsWith(prefix: string, name: string, rest: string)
    requires prefix == "TZ=" || prefix == "CRON_TZ="
    ensures "TZ=" <= prefix + name + " " + rest || "CRON_TZ=" <= prefix + name + " " + rest
  {
    assert prefix <= prefix + name + " " + rest;
  }

  lemma ExtractedFrom(spec: string, name: string, rest: seq<string>, load: string -> Option<Location>)
    requires "TZ=" <= spec || "CRON_TZ=" <= spec
    requires |Tokens(spec, IsSpace)| >= 2 && Tokens(spec, IsSpace)[1..] == rest && |name| > 0
    requires var first := Tokens(spec, IsSpace)[0];
             IndexOf(first, '=') < |first| && first[IndexOf(first, '=') + 1..] == name
    ensures ExtractLocation(spec, load) ==
            match load(name)
            case None => Err(BadLocation)
            case Some(zone) => Ok((Join(rest, " "), zone))
  {
    hide Tokens, Join, IsSpace, IndexOf;
  }

  lemma TailOf(first: string, rest: seq<string>)
    ensures ([first] + rest)[0] == first && ([first] + rest)[1..] == rest
  {
  }

  lemma FirstOfSpec(first: string, rest: string)
    requires IsToken(first, IsSpace)
    ensures Tokens(first + " " + rest, IsSpace) == [first] + Tokens(rest, IsSpace)
  {
    assert first + " " + rest == first + (" " + rest) && (" " + rest)[1..] == rest;
    assert Tokens(" " + rest, IsSpace) == Tokens(rest, IsSpace);
    hide Tokens;
    TokenFirst(first, " " + rest, IsSpace);
  }

  lemma FirstEquals(prefix: string, name: string)
    requires prefix == "TZ=" || prefix == "CRON_TZ="
    ensures IndexOf(prefix + name, '=') == |prefix| - 1 && (prefix + name)[|prefix|..] == name
  {
    var n := IndexOf(prefix + name, '=');
    assert (prefix + name)[|prefix| - 1] == '=';
    assert forall i | 0 <= i < |prefix| - 1 :: (prefix + name)[i] != '=';
  }

  lemma JoinStart(parts: seq<string>)
    requires parts != [] && parts[0] != ""
    ensures "@" <= Join(parts, " ") <==> "@" <= parts[0]
  {
  }

  /** What is refused before any field is read: nothing at all, and a zone without a name or
      without anything after it. */
  lemma SomethingIsMissing(prefix: string, name: string, rest: string, o: Options, load: string -> Option<Location>)
    requires prefix == "TZ=" || prefix == "CRON_TZ="
    requires name != "" && forall i | 0 <= i < |name| :: !IsSpace(name[i])
    ensures ParseOf("", o, load) == Err(EmptySpec)
    ensures ParseOf(prefix + " " + rest, o, load) == Err(MissingLocationName)
    ensures ParseOf(prefix + name, o, load) == Err(MissingLocationSpec)
  {
    FirstOfSpec(prefix, rest);
    FirstEquals(prefix, "");
    assert prefix + "" == prefix && prefix[|prefix|..] == "";
    FirstEquals(prefix, name);
    TokenFirst(prefix + name, "", IsSpace);
    assert prefix + name + "" == prefix + name;
    hide Tokens, IndexOf, IsSpace;
    assert Tokens(prefix + name, IsSpace) == [prefix + name] + Tokens("", IsSpace);
  }
}
