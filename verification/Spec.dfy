/** A cron schedule as six bit sets, and the search for its next activation (spec.go).
    `NextActivationState` keeps the source's form: five loops that move a candidate
    forward and share the mutable flag `added`. */
module Spec {
  import opened Bits
  import opened Calendar

  const YEAR_SEARCH_SPAN: int := 5
  const MIDDAY_HOUR: int := 12
  const HOURS_PER_DAY: int := 24

  /** A schedule's zone: the zone of the time it is asked about, or a fixed offset in minutes. */
  datatype Location = Local | Zone(minutes: int)

  datatype SpecSchedule = SpecSchedule(
    second: Word, minute: Word, hour: Word, dom: Word, month: Word, dow: Word,
    location: Location)

  // ---------- what a schedule matches; times are local seconds ----------

  predicate MonthMatches(s: SpecSchedule, t: int) { HasBit(s.month, Month(t)) }
  predicate HourMatches(s: SpecSchedule, t: int) { HasBit(s.hour, Hour(t)) }
  predicate MinuteMatches(s: SpecSchedule, t: int) { HasBit(s.minute, Minute(t)) }
  predicate SecondMatches(s: SpecSchedule, t: int) { HasBit(s.second, Second(t)) }

  /** Both day fields must match when either carries a star; otherwise one is enough. */
  predicate DayMatches(s: SpecSchedule, t: int) {
    var domMatch := HasBit(s.dom, Day(t));
    var dowMatch := HasBit(s.dow, Weekday(t));
    if Starred(s.dom) || Starred(s.dow) then domMatch && dowMatch else domMatch || dowMatch
  }

  predicate Matches(s: SpecSchedule, t: int) {
    MonthMatches(s, t) && DayMatches(s, t) && HourMatches(s, t) && MinuteMatches(s, t) && SecondMatches(s, t)
  }

  /** No second of [from, to) matches. */
  ghost predicate NoneBetween(s: SpecSchedule, from: int, to: int) {
    forall t :: from <= t < to ==> !Matches(s, t)
  }

  /** Below the highest field that does not match, every field is at its minimum.
      This is what makes it sound to skip the reset once `added` is set. */
  predicate Aligned(s: SpecSchedule, c: int) {
    && (MonthMatches(s, c) || MonthBegin(c) == c)
    && (MonthMatches(s, c) && !DayMatches(s, c) ==> DayBegin(c) == c)
    && (MonthMatches(s, c) && DayMatches(s, c) && !HourMatches(s, c) ==> HourBegin(c) == c)
    && (MonthMatches(s, c) && DayMatches(s, c) && HourMatches(s, c) && !MinuteMatches(s, c) ==>
          MinuteBegin(c) == c)
  }

  lemma AlignedAtMonthBegin(s: SpecSchedule, c: int)
    requires MonthBegin(c) == c
    ensures Aligned(s, c)
  {
    hide HasBit, Year, Month, Day, Weekday, Hour, Minute, Second, DayOf;
    hide MonthBegin, MonthEnd, DayBegin, HourBegin, MinuteBegin, Date, AddDate;
    BeginsNest(c);
  }

  lemma AlignedAtNextDay(s: SpecSchedule, c: int)
    requires MonthMatches(s, c)
    ensures Aligned(s, DayBegin(c) + SECONDS_PER_DAY)
  {
    hide HasBit, Year, Month, Day, Weekday, Hour, Minute, Second, DayOf;
    hide MonthBegin, MonthEnd, DayBegin, HourBegin, MinuteBegin, Date, AddDate;
    DayEndReading(c);
    BeginsNest(DayBegin(c) + SECONDS_PER_DAY);
  }

  lemma AlignedAtNextHour(s: SpecSchedule, c: int)
    requires MonthMatches(s, c) && DayMatches(s, c)
    ensures Aligned(s, HourBegin(c) + 3600)
  {
    hide HasBit, Year, Month, Day, Weekday, Hour, Minute, Second, DayOf;
    hide MonthBegin, MonthEnd, DayBegin, HourBegin, MinuteBegin, Date, AddDate;
    HourEndReading(c);
    BeginsNest(HourBegin(c) + 3600);
    if Hour(HourBegin(c) + 3600) == 0 { AlignedAtNextDay(s, c); } else { SameDay(HourBegin(c) + 3600, c); }
  }

  lemma AlignedAtNextMinute(s: SpecSchedule, c: int)
    requires MonthMatches(s, c) && DayMatches(s, c) && HourMatches(s, c)
    ensures Aligned(s, MinuteBegin(c) + 60)
  {
    hide HasBit, Year, Month, Day, Weekday, Hour, Minute, Second, DayOf;
    hide MonthBegin, MonthEnd, DayBegin, HourBegin, MinuteBegin, Date, AddDate;
    MinuteEndReading(c);
    BeginsNest(MinuteBegin(c) + 60);
    if Minute(MinuteBegin(c) + 60) == 0 { AlignedAtNextHour(s, c); } else { SameDay(MinuteBegin(c) + 60, c); }
  }

  lemma AlignedAtNextSecond(s: SpecSchedule, c: int)
    requires MonthMatches(s, c) && DayMatches(s, c) && HourMatches(s, c) && MinuteMatches(s, c)
    ensures Aligned(s, c + 1)
  {
    hide HasBit, Year, Month, Day, Weekday, Hour, Minute, Second, DayOf;
    hide MonthBegin, MonthEnd, DayBegin, HourBegin, MinuteBegin, Date, AddDate;
    SecondEndReading(c);
    if Second(c + 1) == 0 { AlignedAtNextMinute(s, c); } else { SameDay(c + 1, c); }
  }

  /** spec.go:348-358: moves a day that does not start at midnight to a midnight. */
  function NormalizeMidnight(c: int): int {
    if Hour(c) == 0 then c
    else if Hour(c) > MIDDAY_HOUR then c + (HOURS_PER_DAY - Hour(c)) * 3600
    else c - Hour(c) * 3600
  }

  /** A whole hour after midday is moved on to the next midnight, any other back to its own. In a
      zone with a fixed offset the day already starts at midnight and is left alone. */
  lemma NormalizeMidnightIsNearest(c: int)
    requires HourBegin(c) == c
    ensures NormalizeMidnight(c) == if Hour(c) > 12 then DayBegin(c) + 86400 else DayBegin(c)
  {
    ClockReading(c);
    hide DayOf, HourBegin, DayBegin, MinuteBegin, Hour, Minute, Second;
  }

  /** Rounding down to a multiple of `unit` seconds of absolute time, as `Time.Truncate` does. */
  function Truncate(c: int, unit: int, offsetMinutes: int): int
    requires unit > 0
  {
    var instant := c - 60 * offsetMinutes;
    instant - instant % unit + 60 * offsetMinutes
  }

  lemma TruncateToMinute(c: int, offsetMinutes: int)
    ensures Truncate(c, 60, offsetMinutes) == MinuteBegin(c)
  {
  }

  class NextActivationState {
    const schedule: SpecSchedule
    const location: int
    const yearLimit: int
    var added: bool
    ghost const start: int

    constructor (schedule: SpecSchedule, location: int, yearLimit: int, ghost start: int)
      ensures this.schedule == schedule && this.location == location
      ensures this.yearLimit == yearLimit && this.start == start
      ensures !added
    {
      this.schedule := schedule;
      this.location := location;
      this.yearLimit := yearLimit;
      this.start := start;
      added := false;
    }

    /** What holds of the candidate at every restart of the search. */
    ghost predicate Inv(c: int)
      reads this
    {
      && start <= c
      && NoneBetween(schedule, start, c)
      && (!added ==> c == start)
      && (added ==> Aligned(schedule, c))
    }

    method ResetMonth(c: int) returns (r: int)
      modifies this`added
      ensures added
      ensures r == if old(added) then c else MonthBegin(c)
    {
      if added { return c; }
      added := true;
      MonthBeginReading(c);
      r := Date(Year(c), Month(c), 1, 0, 0, 0);
    }

    method ResetDay(c: int) returns (r: int)
      modifies this`added
      ensures added
      ensures r == if old(added) then c else DayBegin(c)
    {
      if added { return c; }
      added := true;
      DayBeginReading(c);
      r := Date(Year(c), Month(c), Day(c), 0, 0, 0);
    }

    method ResetHour(c: int) returns (r: int)
      modifies this`added
      ensures added
      ensures r == if old(added) then c else HourBegin(c)
    {
      if added { return c; }
      added := true;
      DayBeginReading(c);
      r := Date(Year(c), Month(c), Day(c), Hour(c), 0, 0);
    }

    method TruncateMinute(c: int) returns (r: int)
      modifies this`added
      ensures added
      ensures r == if old(added) then c else MinuteBegin(c)
    {
      if added { return c; }
      added := true;
      TruncateToMinute(c, location);
      r := Truncate(c, 60, location);
    }

    method TruncateSecond(c: int) returns (r: int)
      modifies this`added
      ensures added
      ensures r == c
    {
      if added { return c; }
      added := true;
      r := Truncate(c, 1, location);
    }

    method AdvanceMonth(candidate: int) returns (c: int, wrapped: bool)
      requires Inv(candidate)
      modifies this`added
      ensures Inv(c)
      ensures wrapped ==> candidate < c && MonthBegin(c) == c && Month(c) == 1
      ensures !wrapped ==> candidate <= c && MonthMatches(schedule, c) && Year(c) == Year(candidate)
    {
      hide HasBit, Year, Month, Day, Weekday, Hour, Minute, Second, DayOf;
      hide MonthBegin, MonthEnd, DayBegin, HourBegin, MinuteBegin, Date, AddDate;
      c := candidate;
      while !MonthMatches(schedule, c)
        invariant Inv(c) && candidate <= c && Year(c) == Year(candidate)
        decreases 12 - Month(c)
      {
        MonthSpan(c);
        MonthEndReading(c);
        ghost var end := MonthEnd(c);
        MonthBeginReading(c);
        var first := ResetMonth(c);
        NextMonthFromFirst(first);
        c := AddDate(first, 0, 1, 0);
        assert c == end;
        AlignedAtMonthBegin(schedule, c);
        if Month(c) == 1 {
          return c, true;
        }
      }
      wrapped := false;
    }

    method AdvanceDay(candidate: int) returns (c: int, wrapped: bool)
      requires Inv(candidate) && MonthMatches(schedule, candidate)
      modifies this`added
      ensures Inv(c)
      ensures wrapped ==> candidate < c && MonthBegin(c) == c
      ensures !wrapped ==> candidate <= c && MonthMatches(schedule, c) && DayMatches(schedule, c)
      ensures !wrapped ==> Year(c) == Year(candidate)
    {
      hide HasBit, Year, Month, Day, Weekday, Hour, Minute, Second, DayOf;
      hide MonthBegin, MonthEnd, DayBegin, HourBegin, MinuteBegin, Date, AddDate;
      c := candidate;
      while !DayMatches(schedule, c)
        invariant Inv(c) && candidate <= c && MonthMatches(schedule, c)
        invariant Year(c) == Year(candidate) && MonthEnd(c) == MonthEnd(candidate)
        decreases MonthEnd(candidate) - c
      {
        DaySpan(c);
        forall t | DayBegin(c) <= t < DayBegin(c) + SECONDS_PER_DAY ensures !DayMatches(schedule, t) {
          SameDay(t, c);
        }
        DayEndReading(c);
        MonthSpan(c);
        ghost var end := DayBegin(c) + SECONDS_PER_DAY;
        AlignedAtNextDay(schedule, c);
        BeginsNest(end);
        BeginsAreFixed(c);
        var first := ResetDay(c);
        NextDayFromMidnight(first);
        c := NormalizeMidnight(AddDate(first, 0, 0, 1));
        assert c == end;
        if Day(c) == 1 {
          return c, true;
        }
      }
      wrapped := false;
    }

    method AdvanceHour(candidate: int) returns (c: int, wrapped: bool)
      requires Inv(candidate) && MonthMatches(schedule, candidate) && DayMatches(schedule, candidate)
      modifies this`added
      ensures Inv(c)
      ensures wrapped ==> candidate < c && DayBegin(c) == c
      ensures !wrapped ==> candidate <= c && HourMatches(schedule, c)
      ensures !wrapped ==> DayOf(c) == DayOf(candidate)
    {
      hide HasBit, Year, Month, Day, Weekday, Hour, Minute, Second, DayOf;
      hide MonthBegin, MonthEnd, DayBegin, HourBegin, MinuteBegin, Date, AddDate;
      c := candidate;
      while !HourMatches(schedule, c)
        invariant Inv(c) && candidate <= c && DayOf(c) == DayOf(candidate)
        decreases DayBegin(candidate) + SECONDS_PER_DAY - c
      {
        SameDay(c, candidate);
        DaySpan(c);
        HourSpan(c);
        HourEndReading(c);
        AlignedAtNextHour(schedule, c);
        ghost var end := HourBegin(c) + 3600;
        var first := ResetHour(c);
        c := first + 3600;
        assert c == end;
        if Hour(c) == 0 {
          return c, true;
        }
      }
      wrapped := false;
    }

    method AdvanceMinute(candidate: int) returns (c: int, wrapped: bool)
      requires Inv(candidate) && MonthMatches(schedule, candidate) && DayMatches(schedule, candidate)
      requires HourMatches(schedule, candidate)
      modifies this`added
      ensures Inv(c)
      ensures wrapped ==> candidate < c && HourBegin(c) == c
      ensures !wrapped ==> candidate <= c && MinuteMatches(schedule, c)
      ensures !wrapped ==> DayOf(c) == DayOf(candidate) && Hour(c) == Hour(candidate)
    {
      hide HasBit, Year, Month, Day, Weekday, Hour, Minute, Second, DayOf;
      hide MonthBegin, MonthEnd, DayBegin, HourBegin, MinuteBegin, Date, AddDate;
      c := candidate;
      while !MinuteMatches(schedule, c)
        invariant Inv(c) && candidate <= c && DayOf(c) == DayOf(candidate) && Hour(c) == Hour(candidate)
        decreases HourBegin(candidate) + 3600 - c
      {
        SameDay(c, candidate);
        HourSpan(c);
        MinuteSpan(c);
        MinuteEndReading(c);
        AlignedAtNextMinute(schedule, c);
        ghost var end := MinuteBegin(c) + 60;
        var first := TruncateMinute(c);
        c := first + 60;
        assert c == end;
        if Minute(c) == 0 {
          return c, true;
        }
      }
      wrapped := false;
    }

    method AdvanceSecond(candidate: int) returns (c: int, wrapped: bool)
      requires Inv(candidate) && MonthMatches(schedule, candidate) && DayMatches(schedule, candidate)
      requires HourMatches(schedule, candidate) && MinuteMatches(schedule, candidate)
      modifies this`added
      ensures Inv(c)
      ensures wrapped ==> candidate < c && MinuteBegin(c) == c
      ensures !wrapped ==> candidate <= c && SecondMatches(schedule, c)
      ensures !wrapped ==> DayOf(c) == DayOf(candidate) && Hour(c) == Hour(candidate) && Minute(c) == Minute(candidate)
    {
      hide HasBit, Year, Month, Day, Weekday, Hour, Minute, Second, DayOf;
      hide MonthBegin, MonthEnd, DayBegin, HourBegin, MinuteBegin, Date, AddDate;
      c := candidate;
      while !SecondMatches(schedule, c)
        invariant Inv(c) && candidate <= c
        invariant DayOf(c) == DayOf(candidate) && Hour(c) == Hour(candidate) && Minute(c) == Minute(candidate)
        decreases MinuteBegin(candidate) + 60 - c
      {
        SameDay(c, candidate);
        MinuteSpan(c);
        SecondEndReading(c);
        AlignedAtNextSecond(schedule, c);
        var first := TruncateSecond(c);
        c := first + 1;
        if Second(c) == 0 {
          return c, true;
        }
      }
      wrapped := false;
    }

    /** One pass over the five fields, stopping at the first that wraps. */
    method Advance(candidate: int) returns (c: int, wrapped: bool)
      requires Inv(candidate)
      modifies this`added
      ensures Inv(c)
      ensures wrapped ==> candidate < c
      ensures !wrapped ==> candidate <= c && Matches(schedule, c) && Year(c) == Year(candidate)
    {
      hide HasBit, Year, Month, Day, Weekday, Hour, Minute, Second, DayOf;
      hide MonthBegin, MonthEnd, DayBegin, HourBegin, MinuteBegin, Date, AddDate;
      c, wrapped := AdvanceMonth(candidate);
      if wrapped { return; }
      c, wrapped := AdvanceDay(c);
      if wrapped { return; }
      ghost var d := c;
      c, wrapped := AdvanceHour(c);
      if wrapped { return; }
      SameDay(c, d);
      c, wrapped := AdvanceMinute(c);
      if wrapped { return; }
      SameDay(c, d);
      c, wrapped := AdvanceSecond(c);
      if !wrapped { SameDay(c, d); }
    }

    method Find(candidate: int) returns (c: int, ok: bool)
      requires candidate == start && !added
      modifies this`added
      ensures ok ==> start <= c && Matches(schedule, c) && Year(c) <= yearLimit && NoneBetween(schedule, start, c)
      ensures !ok ==> forall t :: start <= t && Year(t) <= yearLimit ==> !Matches(schedule, t)
    {
      hide HasBit, Year, Month, Day, Weekday, Hour, Minute, Second, DayOf;
      hide MonthBegin, MonthEnd, DayBegin, HourBegin, MinuteBegin, Date, AddDate;
      c := candidate;
      while Year(c) <= yearLimit
        invariant Inv(c)
        decreases YearBegin(yearLimit + 1) - c
      {
        YearOrder(c, yearLimit + 1);
        var wrapped;
        c, wrapped := Advance(c);
        if !wrapped {
          return c, true;
        }
      }
      ok := false;
      forall t | start <= t && Year(t) <= yearLimit ensures !Matches(schedule, t) {
        YearOrder(t, yearLimit + 1);
        YearOrder(c, yearLimit + 1);
      }
    }
  }
}
