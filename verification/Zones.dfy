/** A schedule with a zone of its own, printed and parsed again: the text names no zone, so what
    is parsed reads the clock wherever it is asked. When that changes nothing (spec.go, parser.go). */
module Zones {
  import opened Activation
  import opened Bits
  import opened Calendar
  import opened Coverage
  import opened Fields
  import opened Parser
  import opened Printer
  import opened Results
  import opened Spec

  /** Only the second is restricted, if anything is. */
  predicate EveryMinute(s: SpecSchedule) {
    && Full(s.minute, MINUTE_BOUNDS) && Full(s.hour, HOUR_BOUNDS) && Full(s.dom, DOM_BOUNDS)
    && Full(s.month, MONTH_BOUNDS) && Full(s.dow, DOW_BOUNDS)
  }

  predicate DateEver(s: SpecSchedule, month: int, d: int) {
    1 <= month <= 12 && 1 <= d <= DaysInMonth(true, month) && s.month[month] && s.dom[d]
  }

  /** Dow is starred and no selected month ever has a selected day. */
  ghost predicate NoDate(s: SpecSchedule) {
    s.dow[STAR_POSITION] && forall month, d :: !DateEver(s, month, d)
  }

  // ---------- what is parsed again ----------

  lemma ReparsedBits(s: SpecSchedule)
    requires ParsedSchedule(s)
    ensures var r := Reparsed(s);
            && r.location == Local && ParsedSchedule(r)
            && (forall i | 0 <= i < STAR_POSITION ::
                  (r.month[i] <==> s.month[i]) && (r.dom[i] <==> s.dom[i]) && (r.dow[i] <==> s.dow[i]) &&
                  (r.hour[i] <==> s.hour[i]) && (r.minute[i] <==> s.minute[i]) && (r.second[i] <==> s.second[i]))
            && (r.dom[STAR_POSITION] <==> Full(s.dom, DOM_BOUNDS))
            && (r.dow[STAR_POSITION] <==> Full(s.dow, DOW_BOUNDS))
  {
    assert Reparsed(s) == ReadBack(s).(location := Local) by { hide Reread; }
    hide ReadBack, Full, ParsedSchedule;
    ReadBackBits(s);
    TextIsStable(s, Local);
  }

  lemma ReparsedKeepsMinutes(s: SpecSchedule)
    requires ParsedSchedule(s) && EveryMinute(s)
    ensures EveryMinute(Reparsed(s))
  {
    ReparsedBits(s);
    hide Reparsed, ParsedSchedule;
  }

  lemma ReparsedKeepsTime(s: SpecSchedule)
    requires ParsedSchedule(s) && SomeTime(s)
    ensures SomeTime(Reparsed(s))
  {
    ReparsedBits(s);
    var r := Reparsed(s);
    hide Reparsed, ParsedSchedule;
    var h, m, sec := SelectedTime(s);
    assert r.hour[h] && r.minute[m] && r.second[sec];
  }

  lemma ReparsedKeepsNoDate(s: SpecSchedule)
    requires ParsedSchedule(s) && NoDate(s)
    ensures NoDate(Reparsed(s))
  {
    ReparsedBits(s);
    var r := Reparsed(s);
    assert Full(s.dow, DOW_BOUNDS) by { hide Reparsed; }
    hide Reparsed, ParsedSchedule, Full, DaysInMonth;
    forall month, d ensures !DateEver(r, month, d) { assert !DateEver(s, month, d); }
  }

  // ---------- activations at the next instant ----------

  lemma StartsAtNextInstant(s: SpecSchedule, t: Time, u: int)
    requires t.instant == u - 1 && u % NANOS == 0
    ensures StartFor(s, t) == LocalSeconds(u, ZoneFor(s, t))
  {
  }

  /** What is due at the very next nanosecond is the next activation. */
  lemma DueAtOnce(s: SpecSchedule, t: Time, u: int)
    requires t.instant == u - 1 && Due(s, ZoneFor(s, t), u)
    ensures NextActivation(s, t) == Some(u)
  {
    assert u % NANOS == 0;
    hide Due, Year, NextActivation, LocalSeconds, StartFor, ZoneFor;
    StartsAtNextInstant(s, t, u);
    NextIsTheOne(s, t, u);
  }

  lemma OnlyTheDueIsNext(s: SpecSchedule, t: Time, u: int)
    requires NextActivation(s, t) == Some(u)
    ensures Due(s, ZoneFor(s, t), u)
  {
    hide Due, Year, NextActivation, Horizon, LocalSeconds, ZoneFor;
    NextIsLeastDue(s, t);
  }

  // ---------- where the zone makes no difference ----------

  lemma EveryMinuteMatches(s: SpecSchedule, x: int)
    requires EveryMinute(s)
    ensures Matches(s, x) <==> s.second[Second(x)]
  {
    hide Matches, Month, Day, Weekday, Hour, Minute, Second;
    MatchesOnBits(s, x);
  }

  lemma SecondIgnoresZone(instant: int, a: int, b: int)
    ensures Second(LocalSeconds(instant, a)) == Second(LocalSeconds(instant, b))
  {
    var q := instant / NANOS;
    Quotient(q / 60 + a, q % 60, 60);
    Quotient(q / 60 + b, q % 60, 60);
  }

  lemma EveryMinuteDue(s: SpecSchedule, r: SpecSchedule, a: int, b: int, v: int)
    requires EveryMinute(s) && EveryMinute(r) && forall i | 0 <= i < STAR_POSITION :: r.second[i] <==> s.second[i]
    ensures Due(s, a, v) <==> Due(r, b, v)
  {
    hide EveryMinute, Matches, LocalSeconds, Second;
    EveryMinuteMatches(s, LocalSeconds(v, a));
    EveryMinuteMatches(r, LocalSeconds(v, b));
    SecondIgnoresZone(v, a, b);
  }

  lemma EveryMinuteFound(s: SpecSchedule, t: Time)
    requires ParsedSchedule(s) && SomeTime(s) && EveryMinute(s)
    ensures NextActivation(s, t).Some?
  {
    assert DateSelected(s, 1, 1);
    assert s.dow[1] && s.month[1];
    assert NonEmpty(s.dow, DOW_BOUNDS) && NonEmpty(s.month, MONTH_BOUNDS);
    hide ParsedSchedule, SomeTime, NextActivation, EveryMinute, NonEmpty, DateSelected;
    if s.dow[STAR_POSITION] { FoundByDate(s, t, 1, 1); } else { FoundByWeekday(s, t); }
  }

  /** Schedules that are due at the same instants and both find one find the same. */
  lemma SameDueSameNext(s: SpecSchedule, r: SpecSchedule, t: Time)
    requires forall v :: Due(s, ZoneFor(s, t), v) <==> Due(r, ZoneFor(r, t), v)
    requires NextActivation(s, t).Some? && NextActivation(r, t).Some?
    ensures NextActivation(s, t) == NextActivation(r, t)
  {
    hide Due, Year, LocalSeconds, NextActivation, Horizon, ZoneFor;
    NextIsLeastDue(s, t);
    NextIsLeastDue(r, t);
  }

  lemma EveryMinuteKeepsNext(s: SpecSchedule)
    requires ParsedSchedule(s) && AllFieldsNonEmpty(s) && EveryMinute(s)
    ensures SameNext(s, Reparsed(s))
  {
    var r := Reparsed(s);
    assert SomeTime(s);
    ReparsedBits(s);
    ReparsedKeepsMinutes(s);
    ReparsedKeepsTime(s);
    hide ParsedSchedule, SomeTime, EveryMinute, Due, NextActivation, Reparsed, AllFieldsNonEmpty, ZoneFor;
    forall t: Time ensures NextActivation(r, t) == NextActivation(s, t) {
      EveryMinuteFound(s, t);
      EveryMinuteFound(r, t);
      forall v ensures Due(s, ZoneFor(s, t), v) <==> Due(r, ZoneFor(r, t), v) {
        EveryMinuteDue(s, r, ZoneFor(s, t), ZoneFor(r, t), v);
      }
      SameDueSameNext(s, r, t);
    }
  }

  lemma NoDateSelected(s: SpecSchedule)
    requires NoDate(s)
    ensures !SomeWeekday(s) && !CommonDate(s) && !(s.month[2] && s.dom[29])
  {
    assert !DateEver(s, 2, 29);
    forall month, d ensures !DateSelected(s, month, d) { assert !DateEver(s, month, d); }
  }

  lemma NoDateFindsNothing(s: SpecSchedule, t: Time)
    requires NoDate(s)
    ensures NextActivation(s, t).None?
  {
    NoDateSelected(s);
    hide NextActivation, StartFor, SomeTime, NoDate, CommonDate, SomeWeekday;
    if NextActivation(s, t).Some? { FoundShows(s, t); }
  }

  lemma NoDateKeepsNext(s: SpecSchedule)
    requires ParsedSchedule(s) && NoDate(s)
    ensures SameNext(s, Reparsed(s))
  {
    ReparsedKeepsNoDate(s);
    hide NextActivation, Reparsed, NoDate, ParsedSchedule;
    forall t: Time ensures NextActivation(Reparsed(s), t) == NextActivation(s, t) {
      NoDateFindsNothing(s, t);
      NoDateFindsNothing(Reparsed(s), t);
    }
  }

  // ---------- where it does ----------

  /** The same `Next` in a zone and everywhere means matches that repeat from minute to minute. */
  lemma MatchesRepeat(s: SpecSchedule, r: SpecSchedule, x: int, y: int)
    requires s.location.Zone? && r.location == Local && SameNext(s, r) && (y - x) % 60 == 0
    ensures Matches(s, x) <==> Matches(r, y)
  {
    var zone := s.location.minutes;
    var u := InstantOf(x, zone);
    var other := zone + (y - x) / 60;
    var t := Time(u - 1, other);
    InstantReading(x, zone);
    assert u % NANOS == 0 && LocalSeconds(u, zone) == x && LocalSeconds(u, other) == y;
    assert ZoneFor(s, t) == zone && ZoneFor(r, t) == other;
    hide Matches, NextActivation, LocalSeconds, InstantOf, ZoneFor;
    assert Due(s, zone, u) <==> Matches(s, x);
    assert Due(r, other, u) <==> Matches(r, y);
    hide Due;
    assert NextActivation(r, t) == NextActivation(s, t);
    if Due(s, zone, u) { DueAtOnce(s, t, u); OnlyTheDueIsNext(r, t, u); }
    if Due(r, other, u) { DueAtOnce(r, t, u); OnlyTheDueIsNext(s, t, u); }
  }

  /** Whatever matches at one time of day matches at every other with the same second. */
  lemma TimesAreFull(s: SpecSchedule, r: SpecSchedule, x: int, h: int, m: int)
    requires s.location.Zone? && r.location == Local && SameNext(s, r) && Matches(s, x)
    requires 0 <= h <= 23 && 0 <= m <= 59
    ensures r.hour[h] && r.minute[m]
  {
    hide Matches, DayOf, Hour, Minute, Second, SameNext, Month, Day, Weekday, DayRule;
    var y := OtherTime(x, h, m);
    MatchesRepeat(s, r, x, y);
    MatchesOnBits(r, y);
  }

  lemma OtherTime(x: int, h: int, m: int) returns (y: int)
    requires 0 <= h <= 23 && 0 <= m <= 59
    ensures Hour(y) == h && Minute(y) == m && (y - x) % 60 == 0
  {
    hide DayOf, Hour, Minute, Second, DayBegin, HourBegin, MinuteBegin;
    y := DayOf(x) * SECONDS_PER_DAY + h * 3600 + m * 60 + Second(x);
    ClockReading(x);
    ReadingOfClock(DayOf(x), h, m, Second(x));
    var k := (h - Hour(x)) * 60 + (m - Minute(x));
    assert y - x == 60 * k;
    Quotient(k, 0, 60);
  }

  lemma DateKeepsSecond(year: int, month: int, d: int, x: int)
    requires 1 <= month <= 12
    ensures (Date(year, month, d, Hour(x), Minute(x), Second(x)) - x) % 60 == 0
  {
    hide FirstOfMonth, Date, DayOf, Hour, Minute, Second;
    DateInRange(year, month, d, Hour(x), Minute(x), Second(x));
    ClockReading(x);
    var k := (FirstOfMonth(year, month) + d - 1 - DayOf(x)) * 1440;
    Quotient(k, 0, 60);
  }

  /** And on every other date. */
  lemma DatesAreFull(s: SpecSchedule, r: SpecSchedule, x: int, year: int, month: int, d: int)
    requires s.location.Zone? && r.location == Local && SameNext(s, r) && Matches(s, x) && ValidDate(year, month, d)
    ensures r.month[month] && DayRule(r, d, WeekdayOf(FirstOfMonth(year, month) + d - 1))
  {
    var h, m, sec := Hour(x), Minute(x), Second(x);
    hide Matches, SameNext, Date, FirstOfMonth, WeekdayOf, Month, Day, Weekday, Hour, Minute, Second, DayRule, DayOf;
    TimesAreFull(s, r, x, h, m);
    MatchesRepeat(s, r, x, x);
    MatchesOnBits(r, x);
    DateKeepsSecond(year, month, d, x);
    MatchesRepeat(s, r, x, Date(year, month, d, h, m, sec));
    MatchOnDate(r, year, month, d, h, m, sec);
  }

  /** Years whose first days fall on each of the weekdays. */
  function YearStarting(w: int): (year: int)
    requires 0 <= w <= 6
  {
    [6, 1, 2, 3, 4, 10, 5][w]
  }

  lemma YearStartsOn(w: int)
    requires 0 <= w <= 6
    ensures WeekdayOf(FirstOfMonth(YearStarting(w), 1)) == w
  {
    hide DaysBeforeYear, FirstOfMonth;
    var year := YearStarting(w);
    YearEnd(year);
    DaysBeforeYearInClosedForm(year);
    SumStartsOn(w);
  }

  lemma SumStartsOn(w: int)
    requires 0 <= w <= 6
    ensures WeekdayOf(LeapYearSum(YearStarting(w))) == w
  {
    assert LeapYearSum(1) == 0 && LeapYearSum(2) == 365 && LeapYearSum(3) == 730 && LeapYearSum(4) == 1095;
    assert LeapYearSum(5) == 1461 && LeapYearSum(6) == 1826 && LeapYearSum(10) == 3287;
    hide LeapYearSum;
    if w == 0 {
      assert YearStarting(w) == 6;
    } else if w <= 4 {
      assert YearStarting(w) == w;
    } else if w == 5 {
      assert YearStarting(w) == 10;
    } else {
      assert YearStarting(w) == 5;
    }
  }

  lemma WeekdayShift(first: int, w: int, d: int)
    requires 0 <= w <= 6 && 1 <= d <= 31 && WeekdayOf(first) == (w - d + 1) % 7
    ensures WeekdayOf(first + d - 1) == w
  {
  }

  /** Every day of the month falls on every weekday in some January. */
  lemma JanuaryDay(d: int, w: int) returns (year: int)
    requires 1 <= d <= 31 && 0 <= w <= 6
    ensures ValidDate(year, 1, d) && WeekdayOf(FirstOfMonth(year, 1) + d - 1) == w
  {
    hide YearStarting, FirstOfMonth, WeekdayOf, IsLeap;
    var first := (w - d + 1) % 7;
    year := YearStarting(first);
    YearStartsOn(first);
    WeekdayShift(FirstOfMonth(year, 1), w, d);
  }

  lemma DaysAreFull(s: SpecSchedule, r: SpecSchedule, x: int, d: int, w: int)
    requires s.location.Zone? && r.location == Local && SameNext(s, r) && Matches(s, x)
    requires 1 <= d <= 31 && 0 <= w <= 6
    ensures DayRule(r, d, w)
  {
    hide Matches, SameNext, DayRule, FirstOfMonth, WeekdayOf, ValidDate;
    var year := JanuaryDay(d, w);
    DatesAreFull(s, r, x, year, 1, d);
  }

  /** With neither day field full, some day of the month on some weekday does not pass. */
  lemma OpenRule(s: SpecSchedule) returns (d: int, w: int)
    requires ParsedSchedule(s) && !Full(s.dom, DOM_BOUNDS) && !Full(s.dow, DOW_BOUNDS)
    ensures 1 <= d <= 31 && 0 <= w <= 6 && !DayRule(Reparsed(s), d, w)
  {
    ReparsedBits(s);
    hide Reparsed, ParsedSchedule;
    d :| 0 <= d < STAR_POSITION && 1 <= d <= 31 && !s.dom[d];
    w :| 0 <= w < STAR_POSITION && 0 <= w <= 6 && !s.dow[w];
  }

  /** If the day rule lets every day pass on every weekday, both day fields are full. */
  lemma RuleIsFull(s: SpecSchedule)
    requires ParsedSchedule(s) && forall d, w | 1 <= d <= 31 && 0 <= w <= 6 :: DayRule(Reparsed(s), d, w)
    ensures Full(s.dom, DOM_BOUNDS) && Full(s.dow, DOW_BOUNDS)
  {
    if !Full(s.dom, DOM_BOUNDS) && !Full(s.dow, DOW_BOUNDS) {
      var d, w := OpenRule(s);
    } else {
      ReparsedBits(s);
      var r := Reparsed(s);
      hide Reparsed, ParsedSchedule;
      forall i | 0 <= i < STAR_POSITION && 1 <= i <= 31 ensures s.dom[i] { assert DayRule(r, i, 0); }
      forall i | 0 <= i < STAR_POSITION && 0 <= i <= 6 ensures s.dow[i] { assert DayRule(r, 1, i); }
    }
  }

  lemma MatchMeansEveryMinute(s: SpecSchedule, x: int)
    requires ParsedSchedule(s) && s.location.Zone? && SameNext(s, Reparsed(s)) && Matches(s, x)
    ensures EveryMinute(s)
  {
    var r := Reparsed(s);
    ReparsedBits(s);
    hide Reparsed, ParsedSchedule, SameNext, Matches, DayRule, Full;
    forall d, w | 1 <= d <= 31 && 0 <= w <= 6 ensures DayRule(r, d, w) { DaysAreFull(s, r, x, d, w); }
    RuleIsFull(s);
    TheRestIsFull(s, r, x);
  }

  lemma TheRestIsFull(s: SpecSchedule, r: SpecSchedule, x: int)
    requires s.location.Zone? && r.location == Local && SameNext(s, r) && Matches(s, x)
    requires forall i | 0 <= i < STAR_POSITION ::
               (r.month[i] <==> s.month[i]) && (r.hour[i] <==> s.hour[i]) && (r.minute[i] <==> s.minute[i])
    ensures Full(s.minute, MINUTE_BOUNDS) && Full(s.hour, HOUR_BOUNDS) && Full(s.month, MONTH_BOUNDS)
  {
    hide SameNext, Matches, DayRule, FirstOfMonth, WeekdayOf;
    forall i | 0 <= i < STAR_POSITION && 0 <= i <= 59 ensures s.minute[i] { TimesAreFull(s, r, x, 0, i); }
    forall i | 0 <= i < STAR_POSITION && 0 <= i <= 23 ensures s.hour[i] { TimesAreFull(s, r, x, i, 0); }
    forall i | 0 <= i < STAR_POSITION && 1 <= i <= 12 ensures s.month[i] { DatesAreFull(s, r, x, 1, i, 1); }
  }

  /** Without a match there is no date. */
  lemma SomeMatch(s: SpecSchedule) returns (x: int)
    requires ParsedSchedule(s) && AllFieldsNonEmpty(s) && !NoDate(s)
    ensures Matches(s, x)
  {
    hide Matches, NextActivation, Date, FirstOfMonth, WeekdayOf, DayWithWeekday, IsLeap, TimeSelected;
    var h, m, sec := SelectedTime(s);
    var year := LeapYear();
    var month, d;
    if s.dow[STAR_POSITION] {
      month, d :| DateEver(s, month, d);
      assert s.dow[WeekdayOf(FirstOfMonth(year, month) + d - 1)];
    } else {
      month :| 0 <= month < STAR_POSITION && MONTH_BOUNDS.min <= month <= MONTH_BOUNDS.max && s.month[month];
      var w :| 0 <= w < STAR_POSITION && DOW_BOUNDS.min <= w <= DOW_BOUNDS.max && s.dow[w];
      d := DayWithWeekday(year, month, w);
      WeekdayFound(year, month, w);
    }
    x := Date(year, month, d, h, m, sec);
    MatchOnDate(s, year, month, d, h, m, sec);
  }

  // ---------- exactly when printing and parsing keep `Next` ----------

  /** A schedule with a zone of its own keeps its `Next` exactly when it restricts nothing above
      the second, or can never match at all. */
  lemma ZonedSameNextExactly(s: SpecSchedule)
    requires ParsedSchedule(s) && AllFieldsNonEmpty(s) && s.location.Zone?
    ensures SameNext(s, Reparsed(s)) <==> EveryMinute(s) || NoDate(s)
  {
    hide ParsedSchedule, AllFieldsNonEmpty, SameNext, Reparsed, EveryMinute, NoDate, Matches;
    if EveryMinute(s) {
      EveryMinuteKeepsNext(s);
    } else if NoDate(s) {
      NoDateKeepsNext(s);
    } else if SameNext(s, Reparsed(s)) {
      var x := SomeMatch(s);
      MatchMeansEveryMinute(s, x);
    }
  }

  /** For every parsed schedule with six non-empty fields: parsing its printed text gives a schedule
      with the same `Next`, at every time and wherever it is asked, exactly when its day rule does
      not diverge, if it has no zone of its own, and exactly when it restricts nothing above the
      second or can never match, if it has one. */
  lemma PrintAndParseKeepNextExactly(s: SpecSchedule, load: string -> Option<Location>)
    requires ParsedSchedule(s) && AllFieldsNonEmpty(s)
    ensures ParseOf(ScheduleText(s), SECONDS_PARSER, load) == Ok(Six(Reparsed(s)))
    ensures SameNext(s, Reparsed(s)) <==> if s.location.Local? then !Diverges(s) else EveryMinute(s) || NoDate(s)
  {
    hide ParsedSchedule, AllFieldsNonEmpty, SameNext, Reparsed, EveryMinute, NoDate, Diverges, ParseOf, ScheduleText;
    ReparsedSameNextExactly(s, load);
    if s.location.Zone? { ZonedSameNextExactly(s); }
  }

  // ---------- one schedule that loses its zone ----------

  /** Every midnight, in a zone an hour ahead. */
  const MIDNIGHT :=
    EVERY_SECOND.(second := Shl(ONE, 0), minute := Shl(ONE, 0), hour := Shl(ONE, 0), location := Zone(60))

  lemma StarOver(lower: nat, upper: nat, b: Bounds)
    requires ValidBounds(b) && b.min == lower && b.max == upper
    ensures var w := Or(Run(lower, upper, 1), STAR_BIT); ParsedField(w, b) && NonEmpty(w, b) && w[lower]
  {
    var w := Or(Run(lower, upper, 1), STAR_BIT);
    forall i: nat | i < 64 ensures STAR_BIT[i] <==> i == STAR_POSITION { StarBitAlone(i); }
    forall i | 0 <= i < STAR_POSITION ensures w[i] <==> lower <= i <= upper {
      assert InRun(i, lower, upper, 1) <==> lower <= i <= upper;
    }
    hide Run, Or;
    assert w[lower];
  }

  lemma ZeroAlone(b: Bounds)
    requires ValidBounds(b) && b.min == 0 < b.max
    ensures var w := Shl(ONE, 0); ParsedField(w, b) && NonEmpty(w, b) && !w[1]
  {
    var w := Shl(ONE, 0);
    assert w[0] && forall i | 0 <= i < 64 :: w[i] <==> i == 0;
    hide Shl;
  }

  lemma MidnightBits()
    ensures ParsedSchedule(MIDNIGHT) && AllFieldsNonEmpty(MIDNIGHT) && MIDNIGHT.location == Zone(60)
    ensures !MIDNIGHT.hour[1] && MIDNIGHT.dom[1] && MIDNIGHT.month[1]
  {
    hide ParsedField, NonEmpty, Run, Shl, Or;
    ZeroAlone(SECOND_BOUNDS);
    ZeroAlone(MINUTE_BOUNDS);
    ZeroAlone(HOUR_BOUNDS);
    StarOver(1, 31, DOM_BOUNDS);
    StarOver(1, 12, MONTH_BOUNDS);
    StarOver(0, 6, DOW_BOUNDS);
  }

  /** Its printed text is read back as every midnight of wherever it is asked. */
  lemma PrintingLosesTheZone()
    ensures !SameNext(MIDNIGHT, Reparsed(MIDNIGHT))
  {
    MidnightBits();
    hide MIDNIGHT, SameNext, Reparsed, ParsedSchedule, AllFieldsNonEmpty;
    assert DateEver(MIDNIGHT, 1, 1);
    ZonedSameNextExactly(MIDNIGHT);
  }
}
