/** When a parsed schedule has a next activation at all, and when printing it and reading
    it back leaves its activations unchanged (spec.go, parser.go). */
module Coverage {
  import opened Activation
  import opened Bits
  import opened Calendar
  import opened Fields
  import opened Parser
  import opened Printer
  import opened Results
  import Schedules
  import opened Spec
  import opened Text

  // ---------- finding a day ----------

  /** Every weekday falls within the first seven days of a month. */
  function DayWithWeekday(year: int, month: int, w: int): (d: int)
    requires 1 <= month <= 12 && 0 <= w <= 6
    ensures 1 <= d <= 7
  {
    1 + (w - WeekdayOf(FirstOfMonth(year, month))) % 7
  }

  lemma WeekdayFound(year: int, month: int, w: int)
    requires 1 <= month <= 12 && 0 <= w <= 6
    ensures WeekdayOf(FirstOfMonth(year, month) + DayWithWeekday(year, month, w) - 1) == w
  {
    hide FirstOfMonth;
  }

  lemma DayBits(s: SpecSchedule, t: int)
    ensures HasBit(s.month, Month(t)) <==> s.month[Month(t)]
    ensures HasBit(s.dom, Day(t)) <==> s.dom[Day(t)]
    ensures HasBit(s.dow, Weekday(t)) <==> s.dow[Weekday(t)]
    ensures HasBit(s.hour, Hour(t)) <==> s.hour[Hour(t)]
    ensures HasBit(s.minute, Minute(t)) <==> s.minute[Minute(t)]
    ensures HasBit(s.second, Second(t)) <==> s.second[Second(t)]
    ensures Starred(s.dom) <==> s.dom[STAR_POSITION]
    ensures Starred(s.dow) <==> s.dow[STAR_POSITION]
  {
    hide HasBit, Starred, Month, Day, Weekday, Hour, Minute, Second;
    HasBitReads(s.month, Month(t));
    HasBitReads(s.dom, Day(t));
    HasBitReads(s.dow, Weekday(t));
    HasBitReads(s.hour, Hour(t));
    HasBitReads(s.minute, Minute(t));
    HasBitReads(s.second, Second(t));
    StarredIsBit63(s.dom);
    StarredIsBit63(s.dow);
  }

  /** The day rule on bits. */
  predicate DayRule(s: SpecSchedule, d: int, w: int)
    requires 1 <= d <= 31 && 0 <= w <= 6
  {
    if s.dom[STAR_POSITION] || s.dow[STAR_POSITION] then s.dom[d] && s.dow[w] else s.dom[d] || s.dow[w]
  }

  predicate TimeSelected(s: SpecSchedule, h: int, m: int, sec: int) {
    0 <= h <= 23 && 0 <= m <= 59 && 0 <= sec <= 59 && s.hour[h] && s.minute[m] && s.second[sec]
  }

  lemma MatchesOnBits(s: SpecSchedule, t: int)
    ensures Matches(s, t) <==>
            s.month[Month(t)] && DayRule(s, Day(t), Weekday(t)) && TimeSelected(s, Hour(t), Minute(t), Second(t))
  {
    DayBits(s, t);
    hide HasBit, Starred, Month, Day, Weekday, Hour, Minute, Second;
  }

  predicate ValidDate(year: int, month: int, d: int) {
    1 <= month <= 12 && 1 <= d <= DaysInMonth(IsLeap(year), month)
  }

  lemma DateWeekday(year: int, month: int, d: int, h: int, m: int, sec: int)
    requires ValidDate(year, month, d) && 0 <= h <= 23 && 0 <= m <= 59 && 0 <= sec <= 59
    ensures Weekday(Date(year, month, d, h, m, sec)) == WeekdayOf(FirstOfMonth(year, month) + d - 1)
  {
    hide FirstOfMonth, WeekdayOf, Date, DayOf;
    DateInRange(year, month, d, h, m, sec);
    ReadingOfClock(FirstOfMonth(year, month) + d - 1, h, m, sec);
  }

  /** A selected time matches on exactly the dates of selected months that pass the day rule. */
  lemma MatchOnDate(s: SpecSchedule, year: int, month: int, d: int, h: int, m: int, sec: int)
    requires ValidDate(year, month, d) && TimeSelected(s, h, m, sec)
    ensures Matches(s, Date(year, month, d, h, m, sec)) <==>
            s.month[month] && DayRule(s, d, WeekdayOf(FirstOfMonth(year, month) + d - 1))
    ensures Year(Date(year, month, d, h, m, sec)) == year
  {
    hide Date, FirstOfMonth, Matches, DayRule, Year, Month, Day, Weekday, WeekdayOf, Hour, Minute, Second;
    ReadingOfDate(year, month, d, h, m, sec);
    DateWeekday(year, month, d, h, m, sec);
    MatchesOnBits(s, Date(year, month, d, h, m, sec));
  }

  // ---------- a parsed schedule finds an activation ----------

  /** Some selected month has a selected day in a common year. */
  ghost predicate CommonDate(s: SpecSchedule) {
    exists month, d :: DateSelected(s, month, d)
  }

  predicate DateSelected(s: SpecSchedule, month: int, d: int) {
    1 <= month <= 12 && 1 <= d <= DaysInMonth(false, month) && s.month[month] && s.dom[d]
  }

  /** 29 February is selected, and comes up at a selected time from `start` on within the horizon. */
  ghost predicate LeapDayAhead(s: SpecSchedule, start: int) {
    s.month[2] && s.dom[29] && exists year, h, m, sec :: LeapMoment(s, start, year, h, m, sec)
  }

  predicate LeapMoment(s: SpecSchedule, start: int, year: int, h: int, m: int, sec: int) {
    && IsLeap(year) && year <= Year(start) + YEAR_SEARCH_SPAN
    && TimeSelected(s, h, m, sec) && start <= Date(year, 2, 29, h, m, sec)
  }

  lemma FoundIfMatch(s: SpecSchedule, t: Time, u: int)
    requires StartFor(s, t) <= u && Year(u) <= Horizon(s, t) && Matches(s, u)
    ensures NextActivation(s, t).Some?
  {
    var start := StartFor(s, t);
    ScanIsLeast(s, start, SearchEnd(start));
    YearOrder(u, Horizon(s, t) + 1);
    hide Matches, Year, YearBegin, StartFor;
  }

  /** Some hour, minute and second are selected. */
  predicate SomeTime(s: SpecSchedule) {
    NonEmpty(s.second, SECOND_BOUNDS) && NonEmpty(s.minute, MINUTE_BOUNDS) && NonEmpty(s.hour, HOUR_BOUNDS)
  }

  /** Dow restricts, and some weekday and some month are selected. */
  predicate SomeWeekday(s: SpecSchedule) {
    !s.dow[STAR_POSITION] && NonEmpty(s.dow, DOW_BOUNDS) && NonEmpty(s.month, MONTH_BOUNDS)
  }

  /** A selected day of the month is enough: Dow is starred, or neither day field is. */
  predicate DomSuffices(s: SpecSchedule) {
    s.dow[STAR_POSITION] || !s.dom[STAR_POSITION]
  }

  lemma SelectedTime(s: SpecSchedule) returns (h: int, m: int, sec: int)
    requires SomeTime(s)
    ensures TimeSelected(s, h, m, sec)
  {
    h :| 0 <= h < STAR_POSITION && HOUR_BOUNDS.min <= h <= HOUR_BOUNDS.max && s.hour[h];
    m :| 0 <= m < STAR_POSITION && MINUTE_BOUNDS.min <= m <= MINUTE_BOUNDS.max && s.minute[m];
    sec :| 0 <= sec < STAR_POSITION && SECOND_BOUNDS.min <= sec <= SECOND_BOUNDS.max && s.second[sec];
  }

  /** A match in the year after the start is ahead of the start and within the horizon. */
  lemma FoundNextYear(s: SpecSchedule, t: Time, month: int, d: int)
    requires SomeTime(s)
    requires var year := Year(StartFor(s, t)) + 1;
             ValidDate(year, month, d) && s.month[month] &&
             DayRule(s, d, WeekdayOf(FirstOfMonth(year, month) + d - 1))
    ensures NextActivation(s, t).Some?
  {
    hide Matches, Year, YearBegin, StartFor, Date, FirstOfMonth, WeekdayOf, ValidDate, DayRule, TimeSelected;
    hide SomeTime, NextActivation;
    var h, m, sec := SelectedTime(s);
    var start := StartFor(s, t);
    var year := Year(start) + 1;
    MatchOnDate(s, year, month, d, h, m, sec);
    var u := Date(year, month, d, h, m, sec);
    YearOrder(u, year);
    YearOrder(start, year);
    FoundIfMatch(s, t, u);
  }

  /** With Dow not starred, any selected weekday in any selected month will do. */
  lemma FoundByWeekday(s: SpecSchedule, t: Time)
    requires ParsedSchedule(s) && SomeTime(s) && SomeWeekday(s)
    ensures NextActivation(s, t).Some?
  {
    hide Year, StartFor, FirstOfMonth, DayWithWeekday, NextActivation, WeekdayOf, IsLeap, SomeTime;
    var month :| 0 <= month < STAR_POSITION && MONTH_BOUNDS.min <= month <= MONTH_BOUNDS.max && s.month[month];
    var w :| 0 <= w < STAR_POSITION && DOW_BOUNDS.min <= w <= DOW_BOUNDS.max && s.dow[w];
    var year := Year(StartFor(s, t)) + 1;
    var d := DayWithWeekday(year, month, w);
    WeekdayFound(year, month, w);
    FoundNextYear(s, t, month, d);
  }

  lemma FoundByDate(s: SpecSchedule, t: Time, month: int, d: int)
    requires ParsedSchedule(s) && SomeTime(s) && DomSuffices(s)
    requires DateSelected(s, month, d)
    ensures NextActivation(s, t).Some?
  {
    hide Year, StartFor, FirstOfMonth, NextActivation, WeekdayOf, IsLeap, SomeTime;
    var year := Year(StartFor(s, t)) + 1;
    var w := WeekdayOf(FirstOfMonth(year, month) + d - 1);
    assert s.dow[STAR_POSITION] ==> s.dow[w];
    FoundNextYear(s, t, month, d);
  }

  lemma FoundOnLeapDay(s: SpecSchedule, t: Time)
    requires ParsedSchedule(s) && DomSuffices(s) && LeapDayAhead(s, StartFor(s, t))
    ensures NextActivation(s, t).Some?
  {
    hide Matches, Year, YearBegin, StartFor, Date, FirstOfMonth, TimeSelected, NextActivation, WeekdayOf;
    var start := StartFor(s, t);
    var year, h, m, sec :| LeapMoment(s, start, year, h, m, sec);
    assert s.dow[STAR_POSITION] ==> s.dow[WeekdayOf(FirstOfMonth(year, 2) + 28)];
    MatchOnDate(s, year, 2, 29, h, m, sec);
    FoundIfMatch(s, t, Date(year, 2, 29, h, m, sec));
  }

  lemma DayFitsMonth(t: int)
    ensures 1 <= Day(t) <= DaysInMonth(IsLeap(Year(t)), Month(t))
  {
    hide YearOf, MonthOf, DayOfMonth;
  }

  /** What a match shows of the schedule. */
  lemma MatchShows(s: SpecSchedule, start: int, u: int)
    requires Matches(s, u) && start <= u && Year(u) <= Year(start) + YEAR_SEARCH_SPAN
    ensures SomeTime(s)
    ensures SomeWeekday(s) || (DomSuffices(s) && (CommonDate(s) || LeapDayAhead(s, start)))
  {
    hide Matches, Year, FirstOfMonth, Date, Month, Day, Weekday, Hour, Minute, Second, IsLeap;
    MatchesOnBits(s, u);
    DayFitsMonth(u);
    DateOfReading(u);
    var m, d, w := Month(u), Day(u), Weekday(u);
    assert s.month[m] && s.hour[Hour(u)] && s.minute[Minute(u)] && s.second[Second(u)];
    assert NonEmpty(s.month, MONTH_BOUNDS);
    if !SomeWeekday(s) {
      assert s.dow[STAR_POSITION] || !s.dow[w];
      assert s.dom[d] && DomSuffices(s);
      if !CommonDate(s) {
        assert !DateSelected(s, m, d);
        assert LeapMoment(s, start, Year(u), Hour(u), Minute(u), Second(u));
      }
    }
  }

  lemma FoundShows(s: SpecSchedule, t: Time)
    requires NextActivation(s, t).Some?
    ensures SomeTime(s)
    ensures SomeWeekday(s) || (DomSuffices(s) && (CommonDate(s) || LeapDayAhead(s, StartFor(s, t))))
  {
    var start := StartFor(s, t);
    hide Matches, Scan, Year, YearBegin, StartFor, CommonDate, InstantOf, LocalSeconds, LeapDayAhead;
    hide SomeTime, SomeWeekday, DomSuffices;
    ScanIsLeast(s, start, SearchEnd(start));
    var u := Scan(s, start, SearchEnd(start)).value;
    YearOrder(u, Year(start) + YEAR_SEARCH_SPAN + 1);
    MatchShows(s, start, u);
  }

  /** A parsed schedule, empty fields or not, finds a next activation exactly when some time of day
      is selected and either Dow restricts and selects a weekday in a selected month, or a day of
      the month is enough and a selected month has a selected one, in a common year or on the next
      29 February within the horizon. With six non-empty fields only the star in Dow is in doubt. */
  lemma NextFoundExactly(s: SpecSchedule, t: Time)
    requires ParsedSchedule(s)
    ensures NextActivation(s, t).Some? <==>
            SomeTime(s) && (SomeWeekday(s) || (DomSuffices(s) && (CommonDate(s) || LeapDayAhead(s, StartFor(s, t)))))
    ensures AllFieldsNonEmpty(s) ==>
              (NextActivation(s, t).Some? <==> !Starred(s.dow) || CommonDate(s) || LeapDayAhead(s, StartFor(s, t)))
  {
    StarredIsBit63(s.dow);
    assert AllFieldsNonEmpty(s) ==>
             SomeTime(s) && (SomeWeekday(s) || Starred(s.dow)) && (SomeWeekday(s) ==> !Starred(s.dow));
    assert Starred(s.dow) ==> DomSuffices(s);
    hide ParsedSchedule, AllFieldsNonEmpty, NextActivation, StartFor, LeapDayAhead, Starred, DateSelected;
    hide SomeTime, SomeWeekday, DomSuffices;
    if NextActivation(s, t).Some? {
      FoundShows(s, t);
    } else if SomeTime(s) && SomeWeekday(s) {
      FoundByWeekday(s, t);
    } else if SomeTime(s) && DomSuffices(s) && CommonDate(s) {
      var month, d :| DateSelected(s, month, d);
      FoundByDate(s, t, month, d);
    } else if DomSuffices(s) && LeapDayAhead(s, StartFor(s, t)) {
      FoundOnLeapDay(s, t);
    }
  }

  // ---------- printing and reading back ----------

  /** The schedules whose day rule changes when printed and read back: neither day field is
      starred, one of them is full, and the other leaves out a day that a selected month has. */
  ghost predicate Diverges(s: SpecSchedule) {
    && !s.dom[STAR_POSITION] && !s.dow[STAR_POSITION]
    && (|| (Full(s.dom, DOM_BOUNDS) && !Full(s.dow, DOW_BOUNDS))
        || (Full(s.dow, DOW_BOUNDS) && exists month, d :: DateLeftOut(s, month, d)))
  }

  predicate DateLeftOut(s: SpecSchedule, month: int, d: int) {
    1 <= month <= 12 && 1 <= d <= DaysInMonth(true, month) && s.month[month] && !s.dom[d]
  }

  function ReadBack(s: SpecSchedule): SpecSchedule { RereadSchedule(s, s.location) }

  lemma RereadBits(w: Word, b: Bounds)
    requires ParsedField(w, b)
    ensures forall i | 0 <= i < STAR_POSITION :: Reread(w, b)[i] <==> w[i]
    ensures Reread(w, b)[STAR_POSITION] <==> Full(w, b)
  {
    forall i: nat | i < 64 ensures STAR_BIT[i] <==> i == STAR_POSITION { StarBitAlone(i); }
  }

  lemma ReadBackBits(s: SpecSchedule)
    requires ParsedSchedule(s)
    ensures var r := ReadBack(s);
            (forall i | 0 <= i < STAR_POSITION ::
              (r.month[i] <==> s.month[i]) && (r.dom[i] <==> s.dom[i]) && (r.dow[i] <==> s.dow[i]) &&
              (r.hour[i] <==> s.hour[i]) && (r.minute[i] <==> s.minute[i]) && (r.second[i] <==> s.second[i])) &&
            (r.dom[STAR_POSITION] <==> Full(s.dom, DOM_BOUNDS)) &&
            (r.dow[STAR_POSITION] <==> Full(s.dow, DOW_BOUNDS))
  {
    hide Reread, ParsedField, Full;
    RereadBits(s.second, SECOND_BOUNDS);
    RereadBits(s.minute, MINUTE_BOUNDS);
    RereadBits(s.hour, HOUR_BOUNDS);
    RereadBits(s.dom, DOM_BOUNDS);
    RereadBits(s.month, MONTH_BOUNDS);
    RereadBits(s.dow, DOW_BOUNDS);
  }

  /** Read back, the day rule asks for both fields as soon as either is full. */
  lemma ReadBackRule(s: SpecSchedule, d: int, w: int)
    requires ParsedSchedule(s) && 1 <= d <= 31 && 0 <= w <= 6
    ensures DayRule(ReadBack(s), d, w) <==>
            if Full(s.dom, DOM_BOUNDS) || Full(s.dow, DOW_BOUNDS) then s.dom[d] && s.dow[w] else s.dom[d] || s.dow[w]
  {
    ReadBackBits(s);
    hide ReadBack, ParsedSchedule, Full;
  }

  lemma ReadBackKeepsTheRest(s: SpecSchedule, month: int, h: int, m: int, sec: int)
    requires ParsedSchedule(s) && 1 <= month <= 12
    ensures ReadBack(s).month[month] <==> s.month[month]
    ensures TimeSelected(ReadBack(s), h, m, sec) <==> TimeSelected(s, h, m, sec)
  {
    ReadBackBits(s);
    hide ReadBack, ParsedSchedule, Full;
  }

  lemma SameMatches(s: SpecSchedule, t: int)
    requires ParsedSchedule(s) && !Diverges(s)
    ensures Matches(ReadBack(s), t) <==> Matches(s, t)
  {
    hide Matches, ReadBack, Month, Day, Weekday, Hour, Minute, Second, TimeSelected;
    MatchesOnBits(s, t);
    MatchesOnBits(ReadBack(s), t);
    ReadBackRule(s, Day(t), Weekday(t));
    ReadBackKeepsTheRest(s, Month(t), Hour(t), Minute(t), Second(t));
    DayFitsMonth(t);
    if s.month[Month(t)] && !s.dom[Day(t)] {
      assert DateLeftOut(s, Month(t), Day(t));
    }
  }

  predicate LostDate(s: SpecSchedule, year: int, month: int, d: int) {
    1 <= month <= 12 && ValidDate(year, month, d) && s.month[month] &&
    var w := WeekdayOf(FirstOfMonth(year, month) + d - 1);
    DayRule(s, d, w) && !DayRule(ReadBack(s), d, w)
  }

  lemma EarlyDayIsValid(year: int, month: int, d: int)
    requires 1 <= month <= 12 && 1 <= d <= 7
    ensures ValidDate(year, month, d)
  {
  }

  lemma LostWeekday(s: SpecSchedule, year: int, month: int, w: int) returns (d: int)
    requires ParsedSchedule(s) && !s.dom[STAR_POSITION] && !s.dow[STAR_POSITION]
    requires Full(s.dom, DOM_BOUNDS) && 0 <= w <= 6 && !s.dow[w] && 1 <= month <= 12 && s.month[month]
    ensures LostDate(s, year, month, d)
  {
    hide FirstOfMonth, DayWithWeekday, WeekdayOf, ValidDate, ParsedSchedule, ReadBack;
    d := DayWithWeekday(year, month, w);
    EarlyDayIsValid(year, month, d);
    assert s.dom[d];
    WeekdayFound(year, month, w);
    ReadBackRule(s, d, w);
    hide Full;
  }

  lemma LostDayOfMonth(s: SpecSchedule, year: int, month: int, d: int)
    requires ParsedSchedule(s) && !s.dom[STAR_POSITION] && !s.dow[STAR_POSITION]
    requires Full(s.dow, DOW_BOUNDS) && DateLeftOut(s, month, d) && IsLeap(year)
    ensures LostDate(s, year, month, d)
  {
    hide FirstOfMonth, WeekdayOf, ReadBack, ParsedSchedule, IsLeap;
    assert ValidDate(year, month, d);
    var w := WeekdayOf(FirstOfMonth(year, month) + d - 1);
    assert s.dow[w];
    hide Full, ValidDate, DaysInMonth;
    ReadBackRule(s, d, w);
  }

  lemma FindLostDate(s: SpecSchedule, year: int) returns (month: int, d: int)
    requires ParsedSchedule(s) && NonEmpty(s.month, MONTH_BOUNDS) && Diverges(s) && IsLeap(year)
    ensures LostDate(s, year, month, d)
  {
    hide ParsedSchedule, LostDate, DateLeftOut;
    if Full(s.dom, DOM_BOUNDS) && !Full(s.dow, DOW_BOUNDS) {
      month :| 0 <= month < STAR_POSITION && MONTH_BOUNDS.min <= month <= MONTH_BOUNDS.max && s.month[month];
      var w :| 0 <= w < STAR_POSITION && DOW_BOUNDS.min <= w <= DOW_BOUNDS.max && !s.dow[w];
      d := LostWeekday(s, year, month, w);
    } else {
      month, d :| DateLeftOut(s, month, d);
      LostDayOfMonth(s, year, month, d);
    }
  }

  lemma LeapYear() returns (year: int)
    ensures IsLeap(year)
  {
    year := 2000;
  }

  /** A diverging schedule that selects something everywhere matches a moment that is lost. */
  lemma LostMoment(s: SpecSchedule) returns (t: int)
    requires ParsedSchedule(s) && AllFieldsNonEmpty(s) && Diverges(s)
    ensures Matches(s, t) && !Matches(ReadBack(s), t)
  {
    hide Matches, ReadBack, Date, FirstOfMonth, WeekdayOf, ParsedSchedule, Diverges, NonEmpty, DayRule;
    hide ValidDate, TimeSelected;
    var h, m, sec := SelectedTime(s);
    var year := LeapYear();
    var month, d := FindLostDate(s, year);
    ReadBackKeepsTheRest(s, month, h, m, sec);
    t := Date(year, month, d, h, m, sec);
    MatchOnDate(s, year, month, d, h, m, sec);
    MatchOnDate(ReadBack(s), year, month, d, h, m, sec);
  }

  lemma {:induction false} ScanCongruent(s: SpecSchedule, r: SpecSchedule, from: int, end: int)
    requires forall t :: Matches(r, t) <==> Matches(s, t)
    ensures Scan(r, from, end) == Scan(s, from, end)
    decreases end - from
  {
    hide Matches;
    if from < end && !Matches(s, from) { ScanCongruent(s, r, from + 1, end); }
  }

  ghost predicate SameNext(s: SpecSchedule, r: SpecSchedule) {
    forall t: Time :: NextActivation(r, t) == NextActivation(s, t)
  }

  /** Printing a schedule and reading it back restores its `Next`, in the same zone, exactly
      when its day rule does not diverge. */
  lemma ReadBackSameNextExactly(s: SpecSchedule)
    requires ParsedSchedule(s) && AllFieldsNonEmpty(s)
    ensures SameNext(s, ReadBack(s)) <==> !Diverges(s)
  {
    hide Matches, Diverges, Year, YearBegin, AllFieldsNonEmpty, ParsedSchedule, InstantOf, LocalSeconds, Scan;
    var r := ReadBack(s);
    if !Diverges(s) {
      forall t ensures Matches(r, t) <==> Matches(s, t) { SameMatches(s, t); }
      forall t: Time ensures NextActivation(r, t) == NextActivation(s, t) {
        var start := StartFor(s, t);
        ScanCongruent(s, r, start, SearchEnd(start));
      }
    } else {
      var lost := LostMoment(s);
      var t := LostIsSeen(s, lost);
    }
  }

  lemma LostIsSeen(s: SpecSchedule, lost: int) returns (t: Time)
    requires Matches(s, lost) && !Matches(ReadBack(s), lost)
    ensures ZoneFor(s, t) == t.offset && NextActivation(ReadBack(s), t) != NextActivation(s, t)
  {
    hide Matches, Year, InstantOf, LocalSeconds, ReadBack, NextActivation;
    var r := ReadBack(s);
    var zone := if s.location.Local? then 0 else s.location.minutes;
    var u := InstantOf(lost, zone);
    InstantReading(lost, zone);
    t := Time(u - 1, zone);
    NextIsLeastDue(s, t);
    KeepsLocation(s);
    assert ZoneFor(s, t) == zone == ZoneFor(r, t);
    JustBefore(s, lost, zone);
    NextIsTheOne(s, t, u);
    NextIsLeastDue(r, t);
    assert !Due(r, zone, u);
    assert NextActivation(r, t) != NextActivation(s, t);
  }

  lemma KeepsLocation(s: SpecSchedule)
    ensures ReadBack(s).location == s.location
  {
    hide Reread;
  }

  lemma JustBefore(s: SpecSchedule, local: int, zone: int)
    requires ZoneFor(s, Time(InstantOf(local, zone) - 1, zone)) == zone
    ensures Year(local) <= Horizon(s, Time(InstantOf(local, zone) - 1, zone))
  {
    hide Year;
    var t := Time(InstantOf(local, zone) - 1, zone);
    assert StartFor(s, t) == local;
  }

  /** The printed text names no zone: what is read back reads the clock where it is asked. */
  function Reparsed(s: SpecSchedule): SpecSchedule { RereadSchedule(s, Local) }

  ghost predicate SameNextAtHome(s: SpecSchedule, r: SpecSchedule) {
    forall t: Time | ZoneFor(s, t) == t.offset :: NextActivation(r, t) == NextActivation(s, t)
  }

  lemma ZoneAlone(s: SpecSchedule, r: SpecSchedule, t: Time)
    requires r == s.(location := Local) && ZoneFor(s, t) == t.offset
    ensures NextActivation(r, t) == NextActivation(s, t)
  {
    hide Matches, Year, YearBegin, LocalSeconds, InstantOf, Scan;
    var start := StartFor(s, t);
    forall u ensures Matches(r, u) <==> Matches(s, u) { SameFields(s, r, u); }
    ScanCongruent(s, r, start, SearchEnd(start));
  }

  lemma SameFields(s: SpecSchedule, r: SpecSchedule, u: int)
    requires r == s.(location := Local)
    ensures Matches(r, u) <==> Matches(s, u)
  {
    hide HasBit, Starred, Month, Day, Weekday, Hour, Minute, Second;
  }

  /** Parsing the printed text gives a schedule that has the same `Next`, asked in the zone of the
      first, exactly when its day rule does not diverge; for one without a zone of its own that
      is the same `Next` altogether. */
  lemma ReparsedSameNextExactly(s: SpecSchedule, load: string -> Option<Location>)
    requires ParsedSchedule(s) && AllFieldsNonEmpty(s)
    ensures ParseOf(ScheduleText(s), SECONDS_PARSER, load) == Ok(Six(Reparsed(s)))
    ensures SameNextAtHome(s, Reparsed(s)) <==> !Diverges(s)
    ensures s.location == Local ==> (SameNext(s, Reparsed(s)) <==> !Diverges(s))
  {
    ScheduleRoundTrip(s, load);
    assert Reparsed(s) == ReadBack(s).(location := Local) by { hide Reread; }
    KeepsLocation(s);
    hide ParsedSchedule, AllFieldsNonEmpty, Diverges, Reparsed, ReadBack, NextActivation, ParseOf, ScheduleText;
    ReadBackSameNextExactly(s);
    forall t: Time | ZoneFor(s, t) == t.offset
      ensures NextActivation(Reparsed(s), t) == NextActivation(ReadBack(s), t)
    {
      ZoneAlone(ReadBack(s), Reparsed(s), t);
    }
    if Diverges(s) {
      var lost := LostMoment(s);
      var t := LostIsSeen(s, lost);
    }
  }

  // ---------- a specification whose meaning printing changes ----------

  const EVERY_DAY_OR_MONDAY := "0 0 0 1-31 * 1"
  const ITS_FIELDS: seq<string> := ["0", "0", "0", "1-31", "*", "1"]

  lemma OneItemField(text: string, item: Item, p: Progression, b: Bounds)
    requires ValidBounds(b) && WellFormed(item) && Show(item) == text && Meaning(item, b) == Some(p)
    requires text != "" && ',' !in text
    ensures FieldOf(text, b).Ok? && Holds(FieldOf(text, b).value, p)
  {
    hide Meaning, WellFormed, Show, RangeWord, Holds;
    TokenFirst(text, "", IsComma);
    assert text + "" == text;
    ItemIsReadAsMeant(item, b);
    FieldWordCons(text, [], b);
    assert [text] + [] == [text];
    var w := RangeWord(text, b).value;
    assert Or(w, ZERO) == w;
  }

  lemma DigitField(text: string, n: nat, b: Bounds)
    requires ValidBounds(b) && n <= 9 && b.min <= n <= b.max && text == [('0' as int + n) as char]
    requires NamesAreWords(b)
    ensures FieldOf(text, b).Ok? && Holds(FieldOf(text, b).value, Progression(n, n, 1, false))
  {
    hide WellFormed, Number, Atoi;
    assert FormatUint(n) == text;
    PositionIsNumber(n, b);
    OneItemField(text, Item(One(text), None), Progression(n, n, 1, false), b);
  }

  lemma WholeMonthField()
    ensures FieldOf("1-31", DOM_BOUNDS).Ok?
    ensures Holds(FieldOf("1-31", DOM_BOUNDS).value, Progression(1, 31, 1, false))
  {
    var item := Item(Two("1", "31"), None);
    assert Show(item) == "1-31";
    assert DigitsValue("1") == 1;
    assert "31"[..1] == "3" && DigitsValue("3") == 3 && DigitsValue("31") == 31;
    hide ToLower;
    OneItemField("1-31", item, Progression(1, 31, 1, false), DOM_BOUNDS);
  }

  lemma JoinCons(first: string, rest: seq<string>)
    requires rest != []
    ensures Join([first] + rest, " ") == first + " " + Join(rest, " ")
  {
    assert ([first] + rest)[1..] == rest;
  }

  lemma ItsJoin()
    ensures Join(ITS_FIELDS, " ") == EVERY_DAY_OR_MONDAY
  {
    assert Join(["1"], " ") == "1";
    hide Join;
    JoinCons("*", ["1"]);
    assert ["*"] + ["1"] == ["*", "1"];
    JoinCons("1-31", ["*", "1"]);
    assert ["1-31"] + ["*", "1"] == ["1-31", "*", "1"];
    JoinCons("0", ["1-31", "*", "1"]);
    assert ["0"] + ["1-31", "*", "1"] == ["0", "1-31", "*", "1"];
    JoinCons("0", ["0", "1-31", "*", "1"]);
    assert ["0"] + ["0", "1-31", "*", "1"] == ["0", "0", "1-31", "*", "1"];
    JoinCons("0", ["0", "0", "1-31", "*", "1"]);
    assert ["0"] + ["0", "0", "1-31", "*", "1"] == ITS_FIELDS;
  }

  lemma ItsTokens()
    ensures Tokens(EVERY_DAY_OR_MONDAY, IsSpace) == ITS_FIELDS
  {
    var parts := ITS_FIELDS;
    assert forall k | 0 <= k < 6 :: parts[k] != "" && IsToken(parts[k], IsSpace);
    ItsJoin();
    hide Tokens, Join, DropEmpty, IsToken, ITS_FIELDS, EVERY_DAY_OR_MONDAY;
    JoinSpacesThenTokens(parts);
    DropEmptyCount(parts);
  }

  lemma ItIsParsed(load: string -> Option<Location>)
    ensures ParseOf(EVERY_DAY_OR_MONDAY, SECONDS_PARSER, load) ==
            match ScheduleOf(ITS_FIELDS, Local)
            case Err(e) => Err(e)
            case Ok(schedule) => Ok(Six(schedule))
  {
    var text := EVERY_DAY_OR_MONDAY;
    assert text[0] == '0' && !("TZ=" <= text) && !("CRON_TZ=" <= text) && !("@" <= text);
    assert ExtractLocation(text, load) == Ok((text, Local));
    hide Tokens, ScheduleOf, NormalizedFields, ExtractLocation;
    ItsTokens();
    AllSixWanted(ITS_FIELDS);
  }

  /** It selects every day of the month or Mondays, hence every day; what is printed for it
      selects Mondays only, so its next activations change. */
  lemma PrintingCanChangeMeaning(load: string -> Option<Location>)
    ensures var parsed := ParseOf(EVERY_DAY_OR_MONDAY, SECONDS_PARSER, load);
            && parsed.Ok? && parsed.value.Six?
            && !SameNext(parsed.value.schedule, ReadBack(parsed.value.schedule))
  {
    hide ParseOf, ScheduleOf, Diverges, AllFieldsNonEmpty, ParsedSchedule, ReadBack, SameNext;
    hide EVERY_DAY_OR_MONDAY, ITS_FIELDS;
    var s := ItsSchedule();
    ItIsParsed(load);
    ParseGivesParsedSchedule(EVERY_DAY_OR_MONDAY, SECONDS_PARSER, load);
    ReadBackSameNextExactly(s);
  }

  lemma ItsSchedule() returns (s: SpecSchedule)
    ensures ScheduleOf(ITS_FIELDS, Local) == Ok(s) && AllFieldsNonEmpty(s) && Diverges(s)
  {
    hide FieldOf;
    FixedBounds();
    DigitField("0", 0, SECOND_BOUNDS);
    DigitField("0", 0, MINUTE_BOUNDS);
    DigitField("0", 0, HOUR_BOUNDS);
    WholeMonthField();
    OneItemField("*", Item(Star('*', None), None), Progression(1, 12, 1, true), MONTH_BOUNDS);
    DigitField("1", 1, DOW_BOUNDS);
    s := ScheduleOf(ITS_FIELDS, Local).value;
    ItSelects(s);
  }

  lemma ItSelects(s: SpecSchedule)
    requires Holds(s.second, Progression(0, 0, 1, false)) && Holds(s.minute, Progression(0, 0, 1, false))
    requires Holds(s.hour, Progression(0, 0, 1, false)) && Holds(s.dom, Progression(1, 31, 1, false))
    requires Holds(s.month, Progression(1, 12, 1, true)) && Holds(s.dow, Progression(1, 1, 1, false))
    ensures AllFieldsNonEmpty(s) && Diverges(s)
  {
    assert s.second[0] && s.minute[0] && s.hour[0] && s.dom[1] && s.month[1] && s.dow[1];
    assert !s.dow[2];
  }

  // ---------- an activation at the zero instant ----------

  /** Every second: six stars. */
  const EVERY_SECOND := SpecSchedule(
    Or(Run(0, 59, 1), STAR_BIT), Or(Run(0, 59, 1), STAR_BIT), Or(Run(0, 23, 1), STAR_BIT),
    Or(Run(1, 31, 1), STAR_BIT), Or(Run(1, 12, 1), STAR_BIT), Or(Run(0, 6, 1), STAR_BIT), Local)

  lemma EverySecondMatches(t: int)
    ensures Matches(EVERY_SECOND, t)
  {
    StarBitAlone(STAR_POSITION);
    EverySecondBits();
    hide EVERY_SECOND, Matches, Month, Day, Weekday, Hour, Minute, Second;
    MatchesOnBits(EVERY_SECOND, t);
  }

  lemma EverySecondBits()
    ensures forall i | 0 <= i <= 59 :: EVERY_SECOND.second[i] && EVERY_SECOND.minute[i]
    ensures forall i | 0 <= i <= 23 :: EVERY_SECOND.hour[i]
    ensures forall i | 1 <= i <= 31 :: EVERY_SECOND.dom[i]
    ensures forall i | 1 <= i <= 12 :: EVERY_SECOND.month[i]
    ensures forall i | 0 <= i <= 6 :: EVERY_SECOND.dow[i]
    ensures EVERY_SECOND.location == Local
  {
    forall i | 0 <= i <= 59 ensures Run(0, 59, 1)[i] {}
    forall i | 0 <= i <= 23 ensures Run(0, 23, 1)[i] {}
    forall i | 1 <= i <= 31 ensures Run(1, 31, 1)[i] { assert InRun(i, 1, 31, 1); }
    forall i | 1 <= i <= 12 ensures Run(1, 12, 1)[i] { assert InRun(i, 1, 12, 1); }
    forall i | 0 <= i <= 6 ensures Run(0, 6, 1)[i] {}
  }

  /** One nanosecond before the zero instant the next activation of every second is that instant:
      it is returned as the zero time, and so the list of activations is empty. */
  lemma ZeroInstantReadsAsNone()
    ensures NextActivation(EVERY_SECOND, Time(-1, 0)) == Some(0) && IsZero(NextTime(EVERY_SECOND, Time(-1, 0)))
    ensures Schedules.Activations(Schedules.Cron(EVERY_SECOND), Time(-1, 0), 5) == []
  {
    var t := Time(-1, 0);
    EverySecondMatches(0);
    EverySecondBits();
    hide EVERY_SECOND, Matches, Year, NextActivation;
    assert LocalSeconds(-1, 0) == -1 && LocalSeconds(0, 0) == 0 && StartFor(EVERY_SECOND, t) == 0;
    assert ZeroIsNext(EVERY_SECOND, t);
    ZeroTimeExactly(EVERY_SECOND, t);
  }

  // ---------- a horizon that is too short ----------

  /** Midnight of every 29 February. */
  const LEAP_DAY := SpecSchedule(Shl(ONE, 0), Shl(ONE, 0), Shl(ONE, 0), Shl(ONE, 29), Shl(ONE, 2),
                                 Or(Run(0, 6, 1), STAR_BIT), Local)

  /** Asked from 1 March 2096 on, it finds nothing, although 29 February 2104 matches:
      2100 is not a leap year and the search ends with 2101. */
  lemma HorizonMissesLeapDay()
    ensures NextActivation(LEAP_DAY, Time(InstantOf(Date(2096, 3, 1, 0, 0, 0), 0), 0)).None?
    ensures Matches(LEAP_DAY, Date(2104, 2, 29, 0, 0, 0))
  {
    LeapDayMatches();
    NothingFromMarch();
  }

  lemma LeapDayMatches()
    ensures Matches(LEAP_DAY, Date(2104, 2, 29, 0, 0, 0))
  {
    LeapDayBits();
    hide LEAP_DAY, Matches, Date, FirstOfMonth, WeekdayOf;
    MatchOnDate(LEAP_DAY, 2104, 2, 29, 0, 0, 0);
  }

  lemma NothingFromMarch()
    ensures NextActivation(LEAP_DAY, Time(InstantOf(Date(2096, 3, 1, 0, 0, 0), 0), 0)).None?
  {
    LeapDayBits();
    hide LEAP_DAY, Date, InstantOf, LocalSeconds, NextActivation, StartFor, Year, CommonDate, TimeSelected;
    var march := Date(2096, 3, 1, 0, 0, 0);
    var t := Time(InstantOf(march, 0), 0);
    StartInMarch(LEAP_DAY, t, march);
    if NextActivation(LEAP_DAY, t).Some? {
      FoundShows(LEAP_DAY, t);
      var year, h, m, sec :| LeapMoment(LEAP_DAY, march + 1, year, h, m, sec);
      TimeInRange(LEAP_DAY, h, m, sec);
      EarlierLeapDay(year, h, m, sec);
    }
  }

  lemma TimeInRange(s: SpecSchedule, h: int, m: int, sec: int)
    ensures TimeSelected(s, h, m, sec) ==> 0 <= h <= 23 && 0 <= m <= 59 && 0 <= sec <= 59
  {
  }

  lemma LeapDayBits()
    ensures LEAP_DAY.location == Local && LEAP_DAY.month[2] && LEAP_DAY.dom[29]
    ensures forall i | 0 <= i < 64 :: (LEAP_DAY.month[i] <==> i == 2) && (LEAP_DAY.dom[i] <==> i == 29)
    ensures forall i | 0 <= i < 7 :: LEAP_DAY.dow[i]
    ensures LEAP_DAY.dow[STAR_POSITION] && TimeSelected(LEAP_DAY, 0, 0, 0)
    ensures !CommonDate(LEAP_DAY)
  {
    StarBitAlone(STAR_POSITION);
  }

  lemma StartInMarch(s: SpecSchedule, t: Time, march: int)
    requires s.location == Local && t == Time(InstantOf(march, 0), 0) && march == Date(2096, 3, 1, 0, 0, 0)
    ensures StartFor(s, t) == march + 1 && Year(march + 1) == 2096
  {
    hide Date, InstantOf, LocalSeconds, Year;
    InstantReading(march, 0);
    SecondOfMarch();
  }

  lemma SecondOfMarch()
    ensures Date(2096, 3, 1, 0, 0, 0) + 1 == Date(2096, 3, 1, 0, 0, 1)
    ensures Year(Date(2096, 3, 1, 0, 0, 0) + 1) == 2096
  {
    hide FirstOfMonth, Year;
    DateInRange(2096, 3, 1, 0, 0, 0);
    DateInRange(2096, 3, 1, 0, 0, 1);
    ReadingOfDate(2096, 3, 1, 0, 0, 1);
  }

  /** Every leap day up to 2101 is over by March 2096. */
  lemma EarlierLeapDay(year: int, h: int, m: int, sec: int)
    requires IsLeap(year) && year <= 2101 && 0 <= h <= 23 && 0 <= m <= 59 && 0 <= sec <= 59
    ensures Date(year, 2, 29, h, m, sec) <= Date(2096, 3, 1, 0, 0, 0)
  {
    hide FirstOfMonth;
    DateInRange(year, 2, 29, h, m, sec);
    DateInRange(2096, 3, 1, 0, 0, 0);
    assert year <= 2096 by { assert year != 2097 && year != 2098 && year != 2099 && year != 2100 && year != 2101; }
    MonthLength(year, 2);
    if year < 2096 {
      FirstsIncrease(year, 3, 13);
      YearEnd(year);
      YearsIncrease(year + 1, 2096);
      YearEnd(2096);
      FirstsIncrease(2096, 1, 3);
    }
  }
}
