/** The proleptic Gregorian calendar. A day is counted from 1 January of year 1 (day 0),
    and an instant on the local clock is a count of whole seconds from that midnight. */
module Calendar {
  const SECONDS_PER_DAY: int := 86400

  predicate IsLeap(year: int) {
    year % 4 == 0 && (year % 100 != 0 || year % 400 == 0)
  }

  function DaysInMonth(leap: bool, month: int): int
    requires 1 <= month <= 12
  {
    if month == 2 then (if leap then 29 else 28)
    else if month == 4 || month == 6 || month == 9 || month == 11 then 30
    else 31
  }

  /** Days of the year before the first of `month`; month 13 stands for the year's end. */
  function DaysBeforeMonth(leap: bool, month: int): (days: int)
    requires 1 <= month <= 13
    ensures 0 <= days <= 31 * (month - 1)
    decreases month
  {
    if month == 1 then 0 else DaysBeforeMonth(leap, month - 1) + DaysInMonth(leap, month - 1)
  }

  lemma MonthTable(leap: bool)
    ensures var k := if leap then 1 else 0;
            DaysBeforeMonth(leap, 2) == 31 && DaysBeforeMonth(leap, 3) == 59 + k &&
            DaysBeforeMonth(leap, 4) == 90 + k && DaysBeforeMonth(leap, 5) == 120 + k &&
            DaysBeforeMonth(leap, 6) == 151 + k && DaysBeforeMonth(leap, 7) == 181 + k &&
            DaysBeforeMonth(leap, 8) == 212 + k && DaysBeforeMonth(leap, 9) == 243 + k &&
            DaysBeforeMonth(leap, 10) == 273 + k && DaysBeforeMonth(leap, 11) == 304 + k &&
            DaysBeforeMonth(leap, 12) == 334 + k && DaysBeforeMonth(leap, 13) == 365 + k
  {
    assert DaysBeforeMonth(leap, 3) == DaysBeforeMonth(leap, 2) + DaysInMonth(leap, 2);
    assert DaysBeforeMonth(leap, 5) == DaysBeforeMonth(leap, 4) + DaysInMonth(leap, 4);
    assert DaysBeforeMonth(leap, 7) == DaysBeforeMonth(leap, 6) + DaysInMonth(leap, 6);
    assert DaysBeforeMonth(leap, 9) == DaysBeforeMonth(leap, 8) + DaysInMonth(leap, 8);
    assert DaysBeforeMonth(leap, 11) == DaysBeforeMonth(leap, 10) + DaysInMonth(leap, 10);
    assert DaysBeforeMonth(leap, 13) == DaysBeforeMonth(leap, 12) + DaysInMonth(leap, 12);
  }

  function YearDays(year: int): (days: int)
    ensures 365 <= days <= 366
  {
    if IsLeap(year) then 366 else 365
  }

  /** The day number of 1 January of `year`: the lengths of the years in between. */
  function DaysBeforeYear(year: int): int
    decreases if year >= 1 then year - 1 else 1 - year
  {
    if year == 1 then 0
    else if year > 1 then DaysBeforeYear(year - 1) + YearDays(year - 1)
    else DaysBeforeYear(year + 1) - YearDays(year)
  }

  /** Euclid's quotient and remainder, for the divisors the calendar uses. */
  lemma Quotient(q: int, r: int, k: int)
    requires k == 4 || k == 60 || k == 100 || k == 400 || k == 3600 || k == 86400
    requires 0 <= r < k
    ensures (k * q + r) / k == q && (k * q + r) % k == r
  {
    if k == 4 { assert (4 * q + r) / 4 == q; }
    else if k == 60 { assert (60 * q + r) / 60 == q; }
    else if k == 100 { assert (100 * q + r) / 100 == q; }
    else if k == 400 { assert (400 * q + r) / 400 == q; }
    else if k == 3600 { assert (3600 * q + r) / 3600 == q; }
    else { assert (86400 * q + r) / 86400 == q; }
  }

  lemma QuotientStep(p: int, k: int)
    requires k == 4 || k == 100 || k == 400
    ensures (p + 1) / k == p / k + (if (p + 1) % k == 0 then 1 else 0)
  {
    var q, r := p / k, p % k;
    if r == k - 1 { Quotient(q + 1, 0, k); } else { Quotient(q, r + 1, k); }
  }

  lemma YearLength(year: int)
    ensures DaysBeforeYear(year + 1) == DaysBeforeYear(year) + YearDays(year)
  {
  }

  /** The sum of the lengths in closed form: a leap day every 4 years, but for 3 centuries in 4. */
  function LeapYearSum(year: int): int {
    var p := year - 1;
    365 * p + p / 4 - p / 100 + p / 400
  }

  lemma LeapYearSumStep(year: int)
    ensures LeapYearSum(year + 1) == LeapYearSum(year) + YearDays(year)
  {
    QuotientStep(year - 1, 4);
    QuotientStep(year - 1, 100);
    QuotientStep(year - 1, 400);
    LeapRuleNests(year);
  }

  lemma {:induction false} DaysBeforeYearInClosedForm(year: int)
    ensures DaysBeforeYear(year) == LeapYearSum(year)
    decreases if year >= 1 then year - 1 else 1 - year
  {
    hide LeapYearSum, YearDays;
    if year == 1 {
      LeapYearSumAtOne();
    } else if year > 1 {
      DaysBeforeYearInClosedForm(year - 1);
      LeapYearSumStep(year - 1);
    } else {
      DaysBeforeYearInClosedForm(year + 1);
      LeapYearSumStep(year);
    }
  }

  lemma LeapYearSumAtOne()
    ensures LeapYearSum(1) == 0
  {
  }

  lemma LeapRuleNests(year: int)
    ensures year % 400 == 0 ==> year % 100 == 0
    ensures year % 100 == 0 ==> year % 4 == 0
  {
    if year % 400 == 0 { Quotient(4 * (year / 400), 0, 100); }
    if year % 100 == 0 { Quotient(25 * (year / 100), 0, 4); }
  }

  lemma {:induction false} YearsIncrease(a: int, b: int)
    requires a <= b
    ensures DaysBeforeYear(a) + 365 * (b - a) <= DaysBeforeYear(b)
    decreases b - a
  {
    if a < b {
      YearsIncrease(a, b - 1);
      YearLength(b - 1);
    }
  }

  /** The year that contains the day: an estimate from the mean year, corrected by one. */
  function YearOf(day: int): (year: int)
    ensures DaysBeforeYear(year) <= day < DaysBeforeYear(year + 1)
  {
    var guess := 400 * day / 146097 + 1;
    GuessIsClose(day);
    if day < DaysBeforeYear(guess) then guess - 1
    else if day >= DaysBeforeYear(guess + 1) then guess + 1
    else guess
  }

  lemma GuessIsClose(day: int)
    ensures var guess := 400 * day / 146097 + 1;
            DaysBeforeYear(guess - 1) <= day < DaysBeforeYear(guess + 2)
  {
    hide DaysBeforeYear;
    var guess := 400 * day / 146097 + 1;
    DaysBeforeYearInClosedForm(guess - 1);
    DaysBeforeYearInClosedForm(guess + 2);
  }

  lemma YearUnique(year: int, day: int)
    requires DaysBeforeYear(year) <= day < DaysBeforeYear(year + 1)
    ensures YearOf(day) == year
  {
    var y := YearOf(day);
    if y < year {
      YearsIncrease(y + 1, year);
    } else if year < y {
      YearsIncrease(year + 1, y);
    }
  }

  function MonthFrom(leap: bool, yearDay: int, month: int): (m: int)
    requires 1 <= month <= 12
    requires DaysBeforeMonth(leap, month) <= yearDay < DaysBeforeMonth(leap, 13)
    ensures 1 <= m <= 12
    ensures DaysBeforeMonth(leap, m) <= yearDay < DaysBeforeMonth(leap, m + 1)
    decreases 12 - month
  {
    if month == 12 || yearDay < DaysBeforeMonth(leap, month + 1) then month
    else MonthFrom(leap, yearDay, month + 1)
  }

  lemma {:induction false} MonthsIncrease(leap: bool, a: int, b: int)
    requires 1 <= a <= b <= 13
    ensures DaysBeforeMonth(leap, a) + 28 * (b - a) <= DaysBeforeMonth(leap, b)
    decreases b - a
  {
    if a < b { MonthsIncrease(leap, a, b - 1); }
  }

  function MonthOf(day: int): (month: int)
    ensures 1 <= month <= 12
    ensures FirstOfMonth(YearOf(day), month) <= day < FirstOfMonth(YearOf(day), month + 1)
  {
    var year := YearOf(day);
    YearLength(year);
    MonthTable(IsLeap(year));
    MonthFrom(IsLeap(year), day - DaysBeforeYear(year), 1)
  }

  /** The day number of the first of a month, months running from 1 to 13. */
  function FirstOfMonth(year: int, month: int): int
    requires 1 <= month <= 13
  {
    DaysBeforeYear(year) + DaysBeforeMonth(IsLeap(year), month)
  }

  function DayOfMonth(day: int): (d: int)
    ensures 1 <= d <= 31
    ensures d <= DaysInMonth(IsLeap(YearOf(day)), MonthOf(day))
  {
    day - FirstOfMonth(YearOf(day), MonthOf(day)) + 1
  }

  /** Sunday is 0; 1 January of year 1 is a Monday. */
  function WeekdayOf(day: int): (w: int)
    ensures 0 <= w <= 6
  {
    (day + 1) % 7
  }

  /** A day has exactly one reading as year, month and day of the month. */
  lemma CivilUnique(year: int, month: int, day: int)
    requires 1 <= month <= 12
    requires FirstOfMonth(year, month) <= day < FirstOfMonth(year, month + 1)
    ensures YearOf(day) == year && MonthOf(day) == month
    ensures DayOfMonth(day) == day - FirstOfMonth(year, month) + 1
  {
    hide FirstOfMonth, DaysBeforeYear, YearOf, MonthOf, IsLeap;
    YearEnd(year);
    FirstsIncrease(year, 1, month);
    FirstsIncrease(year, month + 1, 13);
    YearUnique(year, day);
    var m := MonthOf(day);
    if m < month {
      FirstsIncrease(year, m + 1, month);
    } else if month < m {
      FirstsIncrease(year, month + 1, m);
    }
  }

  lemma YearEnd(year: int)
    ensures FirstOfMonth(year, 1) == DaysBeforeYear(year)
    ensures FirstOfMonth(year, 13) == DaysBeforeYear(year + 1) == FirstOfMonth(year + 1, 1)
  {
    YearLength(year);
    MonthTable(IsLeap(year));
  }

  lemma FirstsIncrease(year: int, a: int, b: int)
    requires 1 <= a <= b <= 13
    ensures FirstOfMonth(year, a) + 28 * (b - a) <= FirstOfMonth(year, b)
  {
    MonthsIncrease(IsLeap(year), a, b);
  }

  // ---------- the clock ----------

  function DayOf(t: int): int { t / SECONDS_PER_DAY }
  function Year(t: int): int { YearOf(DayOf(t)) }
  function Month(t: int): (m: int) ensures 1 <= m <= 12 { MonthOf(DayOf(t)) }
  function Day(t: int): (d: int) ensures 1 <= d <= 31 { DayOfMonth(DayOf(t)) }
  function Weekday(t: int): (w: int) ensures 0 <= w <= 6 { WeekdayOf(DayOf(t)) }
  function Hour(t: int): (h: int) ensures 0 <= h <= 23 { t % SECONDS_PER_DAY / 3600 }
  function Minute(t: int): (m: int) ensures 0 <= m <= 59 { t % 3600 / 60 }
  function Second(t: int): (s: int) ensures 0 <= s <= 59 { t % 60 }

  /** The second named by a date and a clock reading, with Go's normalisation: months
      outside 1..12 carry into the year, and every other excess carries as plain length. */
  function Date(year: int, month: int, day: int, hour: int, minute: int, second: int): int {
    var y := year + (month - 1) / 12;
    var m := (month - 1) % 12 + 1;
    (FirstOfMonth(y, m) + day - 1) * SECONDS_PER_DAY + hour * 3600 + minute * 60 + second
  }

  function AddDate(t: int, years: int, months: int, days: int): int {
    Date(Year(t) + years, Month(t) + months, Day(t) + days, Hour(t), Minute(t), Second(t))
  }

  /** Reading a moment and naming it again is the identity. */
  lemma DateOfReading(t: int)
    ensures Date(Year(t), Month(t), Day(t), Hour(t), Minute(t), Second(t)) == t
  {
    ClockReading(t);
    hide *;
    var y, m := Year(t), Month(t);
    assert (m - 1) / 12 == 0 && (m - 1) % 12 == m - 1;
    DateInRange(y, m, Day(t), Hour(t), Minute(t), Second(t));
    DayFromFirst(t);
  }

  lemma DateInRange(year: int, month: int, day: int, hour: int, minute: int, second: int)
    requires 1 <= month <= 12
    ensures Date(year, month, day, hour, minute, second) ==
            (FirstOfMonth(year, month) + day - 1) * SECONDS_PER_DAY + hour * 3600 + minute * 60 + second
  {
    assert (month - 1) / 12 == 0 && (month - 1) % 12 == month - 1;
    hide DaysBeforeYear, DaysBeforeMonth;
  }

  lemma DayFromFirst(t: int)
    ensures FirstOfMonth(Year(t), Month(t)) + Day(t) - 1 == DayOf(t)
  {
    hide YearOf, MonthOf, FirstOfMonth;
  }

  lemma ClockReading(t: int)
    ensures t == DayOf(t) * SECONDS_PER_DAY + Hour(t) * 3600 + Minute(t) * 60 + Second(t)
    ensures DayBegin(t) == DayOf(t) * SECONDS_PER_DAY
    ensures HourBegin(t) == DayBegin(t) + Hour(t) * 3600
    ensures MinuteBegin(t) == HourBegin(t) + Minute(t) * 60
  {
    var d, r := t / SECONDS_PER_DAY, t % SECONDS_PER_DAY;
    var h, p := r / 3600, r % 3600;
    Quotient(24 * d + h, p, 3600);
    Quotient(60 * (24 * d + h) + p / 60, p % 60, 60);
  }

  /** A clock reading laid out from its day is read back as it was written. */
  lemma ReadingOfClock(d: int, hour: int, minute: int, second: int)
    requires 0 <= hour <= 23 && 0 <= minute <= 59 && 0 <= second <= 59
    ensures var t := d * SECONDS_PER_DAY + hour * 3600 + minute * 60 + second;
            DayOf(t) == d && Hour(t) == hour && Minute(t) == minute && Second(t) == second
  {
    var t := d * SECONDS_PER_DAY + hour * 3600 + minute * 60 + second;
    Quotient(d, hour * 3600 + minute * 60 + second, 86400);
    Quotient(24 * d + hour, minute * 60 + second, 3600);
    Quotient(60 * (24 * d + hour) + minute, second, 60);
    Quotient(hour, minute * 60 + second, 3600);
    Quotient(minute, second, 60);
  }

  /** Naming a valid date and reading it back gives the same fields. */
  lemma ReadingOfDate(year: int, month: int, day: int, hour: int, minute: int, second: int)
    requires 1 <= month <= 12 && 1 <= day <= DaysInMonth(IsLeap(year), month)
    requires 0 <= hour <= 23 && 0 <= minute <= 59 && 0 <= second <= 59
    ensures var t := Date(year, month, day, hour, minute, second);
            Year(t) == year && Month(t) == month && Day(t) == day &&
            Hour(t) == hour && Minute(t) == minute && Second(t) == second
  {
    hide Date, FirstOfMonth, DaysInMonth, IsLeap, YearOf, MonthOf, DayOfMonth, DayOf, Hour, Minute, Second;
    var d := FirstOfMonth(year, month) + day - 1;
    MonthLength(year, month);
    DateInRange(year, month, day, hour, minute, second);
    ReadingOfClock(d, hour, minute, second);
    CivilUnique(year, month, d);
  }

  lemma MonthLength(year: int, month: int)
    requires 1 <= month <= 12
    ensures FirstOfMonth(year, month + 1) == FirstOfMonth(year, month) + DaysInMonth(IsLeap(year), month)
  {
    hide DaysBeforeYear, IsLeap;
  }

  // ---------- spans: the stretch of time over which a field does not change ----------

  function MonthBegin(t: int): int {
    FirstOfMonth(Year(t), Month(t)) * SECONDS_PER_DAY
  }

  function MonthEnd(t: int): int {
    FirstOfMonth(Year(t), Month(t) + 1) * SECONDS_PER_DAY
  }

  function DayBegin(t: int): int { t - t % SECONDS_PER_DAY }
  function HourBegin(t: int): int { t - t % 3600 }
  function MinuteBegin(t: int): int { t - t % 60 }

  lemma MonthSpan(t: int)
    ensures MonthBegin(t) <= t < MonthEnd(t)
    ensures forall u | MonthBegin(t) <= u < MonthEnd(t) ::
              Year(u) == Year(t) && Month(u) == Month(t)
  {
    var y, m := Year(t), Month(t);
    forall u | MonthBegin(t) <= u < MonthEnd(t) ensures Year(u) == y && Month(u) == m {
      CivilUnique(y, m, DayOf(u));
    }
  }

  lemma FirstReading(year: int, month: int)
    requires 1 <= month <= 12
    ensures var t := FirstOfMonth(year, month) * SECONDS_PER_DAY;
            Year(t) == year && Month(t) == month && Day(t) == 1 && MonthBegin(t) == t
  {
    var d := FirstOfMonth(year, month);
    FirstsIncrease(year, month, month + 1);
    assert DayOf(d * SECONDS_PER_DAY) == d;
    CivilUnique(year, month, d);
  }

  /** The end of a month is the first midnight of the next one. */
  lemma MonthEndReading(t: int)
    ensures var e := MonthEnd(t);
            MonthBegin(e) == e && Day(e) == 1 &&
            (if Month(t) == 12 then Month(e) == 1 && Year(e) == Year(t) + 1
             else Month(e) == Month(t) + 1 && Year(e) == Year(t))
  {
    var y, m := Year(t), Month(t);
    hide Year, Month, Day, FirstOfMonth;
    if m == 12 {
      YearEnd(y);
      FirstReading(y + 1, 1);
    } else {
      FirstReading(y, m + 1);
    }
  }

  lemma DaySpan(t: int)
    ensures DayBegin(t) <= t < DayBegin(t) + SECONDS_PER_DAY
    ensures forall u | DayBegin(t) <= u < DayBegin(t) + SECONDS_PER_DAY :: DayOf(u) == DayOf(t)
    ensures DayOf(DayBegin(t) + SECONDS_PER_DAY) == DayOf(t) + 1
  {
  }

  /** Moments of one day share every reading of the date. */
  lemma SameDay(t: int, u: int)
    requires DayOf(t) == DayOf(u)
    ensures Year(t) == Year(u) && Month(t) == Month(u) && Day(t) == Day(u) && Weekday(t) == Weekday(u)
    ensures MonthBegin(t) == MonthBegin(u) && MonthEnd(t) == MonthEnd(u)
    ensures DayBegin(t) == DayBegin(u)
    ensures Hour(t) == Hour(u) ==> HourBegin(t) == HourBegin(u)
    ensures Hour(t) == Hour(u) && Minute(t) == Minute(u) ==> MinuteBegin(t) == MinuteBegin(u)
  {
    ClockReading(t);
    ClockReading(u);
    hide YearOf, MonthOf, DayOfMonth, WeekdayOf, FirstOfMonth, Hour, Minute, DayOf, DayBegin, HourBegin, MinuteBegin;
  }

  /** The start of a span starts that span. */
  lemma BeginsAreFixed(t: int)
    ensures DayBegin(DayBegin(t)) == DayBegin(t)
    ensures HourBegin(HourBegin(t)) == HourBegin(t)
    ensures MinuteBegin(MinuteBegin(t)) == MinuteBegin(t)
  {
    Quotient(t / 86400, 0, 86400);
    Quotient(t / 3600, 0, 3600);
    Quotient(t / 60, 0, 60);
  }

  /** The next midnight is in the same month unless it opens a new one. */
  lemma DayEndReading(t: int)
    ensures var e := DayBegin(t) + SECONDS_PER_DAY;
            DayBegin(e) == e &&
            (if Day(e) == 1 then MonthBegin(e) == e && MonthEnd(t) == e
             else Month(e) == Month(t) && Year(e) == Year(t) && e < MonthEnd(e) == MonthEnd(t))
  {
    var e := DayBegin(t) + SECONDS_PER_DAY;
    DaySpan(t);
    MonthSpan(t);
    if e < MonthEnd(t) {
      MonthSpan(e);
      assert DayOf(e) == DayOf(t) + 1;
      CivilUnique(Year(t), Month(t), DayOf(e));
    } else {
      assert e == MonthEnd(t);
      MonthEndReading(t);
    }
  }

  lemma HourSpan(t: int)
    ensures HourBegin(t) <= t < HourBegin(t) + 3600
    ensures forall u | HourBegin(t) <= u < HourBegin(t) + 3600 ::
              DayOf(u) == DayOf(t) && Hour(u) == Hour(t)
  {
    forall u | HourBegin(t) <= u < HourBegin(t) + 3600
      ensures DayOf(u) == DayOf(t) && Hour(u) == Hour(t)
    {
      ClockReading(t);
      ReadingOfClock(DayOf(t), Hour(t), (u - HourBegin(t)) / 60, (u - HourBegin(t)) % 60);
    }
  }

  lemma HourEndReading(t: int)
    ensures var e := HourBegin(t) + 3600;
            HourBegin(e) == e &&
            (if Hour(e) == 0 then e == DayBegin(t) + SECONDS_PER_DAY && DayBegin(e) == e
             else DayOf(e) == DayOf(t))
  {
    ClockReading(t);
    var e := HourBegin(t) + 3600;
    if Hour(t) == 23 {
      ReadingOfClock(DayOf(t) + 1, 0, 0, 0);
    } else {
      ReadingOfClock(DayOf(t), Hour(t) + 1, 0, 0);
    }
    ClockReading(e);
  }

  lemma MinuteSpan(t: int)
    ensures MinuteBegin(t) <= t < MinuteBegin(t) + 60
    ensures forall u | MinuteBegin(t) <= u < MinuteBegin(t) + 60 ::
              DayOf(u) == DayOf(t) && Hour(u) == Hour(t) && Minute(u) == Minute(t)
  {
    forall u | MinuteBegin(t) <= u < MinuteBegin(t) + 60
      ensures DayOf(u) == DayOf(t) && Hour(u) == Hour(t) && Minute(u) == Minute(t)
    {
      ClockReading(t);
      ReadingOfClock(DayOf(t), Hour(t), Minute(t), u - MinuteBegin(t));
    }
  }

  lemma MinuteEndReading(t: int)
    ensures var e := MinuteBegin(t) + 60;
            MinuteBegin(e) == e &&
            (if Minute(e) == 0 then e == HourBegin(t) + 3600 && HourBegin(e) == e
             else DayOf(e) == DayOf(t) && Hour(e) == Hour(t))
  {
    ClockReading(t);
    var e := MinuteBegin(t) + 60;
    if Minute(t) < 59 {
      ReadingOfClock(DayOf(t), Hour(t), Minute(t) + 1, 0);
    } else if Hour(t) < 23 {
      ReadingOfClock(DayOf(t), Hour(t) + 1, 0, 0);
    } else {
      ReadingOfClock(DayOf(t) + 1, 0, 0, 0);
    }
    ClockReading(e);
  }

  lemma SecondEndReading(t: int)
    ensures if Second(t + 1) == 0 then t + 1 == MinuteBegin(t) + 60 && MinuteBegin(t + 1) == t + 1
            else DayOf(t + 1) == DayOf(t) && Hour(t + 1) == Hour(t) && Minute(t + 1) == Minute(t)
  {
    ClockReading(t);
    if Second(t) == 59 {
      MinuteEndReading(t);
      assert (t + 1) % 60 == 0;
    } else {
      ReadingOfClock(DayOf(t), Hour(t), Minute(t), Second(t) + 1);
    }
  }

  /** A month's first midnight is the start of a day, an hour and a minute as well. */
  lemma BeginsNest(t: int)
    ensures MonthBegin(t) == t ==> DayBegin(t) == t
    ensures DayBegin(t) == t ==> HourBegin(t) == t && Hour(t) == 0
    ensures HourBegin(t) == t ==> MinuteBegin(t) == t
  {
    ClockReading(t);
    if MonthBegin(t) == t {
      assert t % SECONDS_PER_DAY == 0;
    }
  }

  lemma MonthBeginReading(t: int)
    ensures MonthBegin(MonthBegin(t)) == MonthBegin(t) && MonthEnd(MonthBegin(t)) == MonthEnd(t)
    ensures Date(Year(t), Month(t), 1, 0, 0, 0) == MonthBegin(t)
  {
    hide Year, Month, FirstOfMonth, Date;
    FirstReading(Year(t), Month(t));
    DateInRange(Year(t), Month(t), 1, 0, 0, 0);
  }

  lemma DayBeginReading(t: int)
    ensures Date(Year(t), Month(t), Day(t), 0, 0, 0) == DayBegin(t)
    ensures Date(Year(t), Month(t), Day(t), Hour(t), 0, 0) == HourBegin(t)
  {
    hide Year, Month, Day, Hour, Minute, Second, FirstOfMonth, Date, DayOf, DayBegin, HourBegin, MinuteBegin;
    ClockReading(t);
    DayFromFirst(t);
    DateInRange(Year(t), Month(t), Day(t), 0, 0, 0);
    DateInRange(Year(t), Month(t), Day(t), Hour(t), 0, 0);
  }

  /** From the first midnight of a month, one month on is the first midnight of the next;
      with the day at 1, the month arithmetic never spills over. */
  lemma NextMonthFromFirst(t: int)
    requires MonthBegin(t) == t
    ensures AddDate(t, 0, 1, 0) == MonthEnd(t)
  {
    var y, m := Year(t), Month(t);
    hide Year, Month, Day, Hour, Minute, Second, FirstOfMonth, DayOf, Date;
    ReadingAtFirst(t);
    if m == 12 {
      DateCarries(y);
      YearEnd(y);
    } else {
      DateInRange(y, m + 1, 1, 0, 0, 0);
    }
  }

  lemma ReadingAtFirst(t: int)
    requires MonthBegin(t) == t
    ensures Day(t) == 1 && Hour(t) == 0 && Minute(t) == 0 && Second(t) == 0
  {
    hide Year, Month, Day, Hour, Minute, Second, FirstOfMonth;
    FirstReading(Year(t), Month(t));
    ReadingOfClock(FirstOfMonth(Year(t), Month(t)), 0, 0, 0);
  }

  lemma DateCarries(year: int)
    ensures Date(year, 13, 1, 0, 0, 0) == FirstOfMonth(year + 1, 1) * SECONDS_PER_DAY
  {
    hide FirstOfMonth;
  }

  lemma NextDayFromMidnight(t: int)
    requires DayBegin(t) == t
    ensures AddDate(t, 0, 0, 1) == t + SECONDS_PER_DAY
  {
    ClockReading(t);
    hide Year, Month, Day, Hour, Minute, Second, FirstOfMonth, DayOf, DayBegin, Date;
    DateOfReading(t);
    DateInRange(Year(t), Month(t), Day(t), Hour(t), Minute(t), Second(t));
    DateInRange(Year(t), Month(t), Day(t) + 1, Hour(t), Minute(t), Second(t));
  }

  /** Years are in order of time, each opening at its own first second. */
  function YearBegin(year: int): int {
    DaysBeforeYear(year) * SECONDS_PER_DAY
  }

  lemma YearOrder(t: int, year: int)
    ensures Year(t) < year <==> t < YearBegin(year)
  {
    var y := Year(t);
    if y < year { YearsIncrease(y + 1, year); } else { YearsIncrease(year, y); }
  }

  /** The calendar in plain numbers: the lengths of years and months, the days of the week in
      turn, and 1 January 1970, a Thursday. */
  lemma CalendarIsGregorian(year: int, month: int, t: int)
    requires 1 <= month <= 12
    ensures YearBegin(year + 1) - YearBegin(year) ==
            86400 * if year % 400 == 0 || (year % 4 == 0 && year % 100 != 0) then 366 else 365
    ensures var february := YearBegin(year + 1) - YearBegin(year) - 86400 * 337;
            86400 * (FirstOfMonth(year, month + 1) - FirstOfMonth(year, month)) ==
            if month == 2 then february else 86400 * [31, 28, 31, 30, 31, 30, 31, 31, 30, 31, 30, 31][month - 1]
    ensures Weekday(t + 86400) == (Weekday(t) + 1) % 7
    ensures YearBegin(1970) == 62135596800 && Weekday(YearBegin(1970)) == 4
  {
    MonthLength(year, month);
    YearInPlainNumbers(year);
    SinceTheEpoch(t);
    hide DaysBeforeYear, DaysBeforeMonth, YearOf, DayOf, WeekdayOf;
  }

  lemma YearInPlainNumbers(year: int)
    ensures YearBegin(year + 1) - YearBegin(year) ==
            86400 * if year % 400 == 0 || (year % 4 == 0 && year % 100 != 0) then 366 else 365
  {
    YearLength(year);
    LeapRuleNests(year);
    hide DaysBeforeYear;
  }

  lemma SinceTheEpoch(t: int)
    ensures Weekday(t + 86400) == (Weekday(t) + 1) % 7
    ensures YearBegin(1970) == 62135596800 && Weekday(YearBegin(1970)) == 4
  {
    DaysBeforeYearInClosedForm(1970);
    assert DayOf(t + 86400) == DayOf(t) + 1;
    hide DaysBeforeYear;
  }
}
