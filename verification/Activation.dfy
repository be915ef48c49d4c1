/** `Next` on instants: what it returns, and how its answers fit together (spec.go, schedule.go). */
module Activation {
  import opened Calendar
  import opened Results
  import opened Spec

  const NANOS: int := 1_000_000_000

  /** An instant in nanoseconds since the zero time, and the zone it is shown in. */
  datatype Time = Time(instant: int, offset: int)

  const ZERO_TIME := Time(0, 0)

  predicate IsZero(t: Time) { t.instant == 0 }

  function Nanosecond(t: Time): int { t.instant % NANOS }

  function In(t: Time, offset: int): Time { Time(t.instant, offset) }

  /** The whole local seconds shown at an instant, and the instant of a local second. */
  function LocalSeconds(instant: int, offset: int): int { instant / NANOS + 60 * offset }
  function InstantOf(local: int, offset: int): int { (local - 60 * offset) * NANOS }

  lemma InstantReading(local: int, offset: int)
    ensures LocalSeconds(InstantOf(local, offset), offset) == local
    ensures InstantOf(local, offset) % NANOS == 0
  {
  }

  /** The zone in which a schedule reads the clock when asked about `t`. */
  function ZoneFor(s: SpecSchedule, t: Time): int {
    match s.location
    case Local => t.offset
    case Zone(minutes) => minutes
  }

  /** spec.go:203-214: the schedule's zone, and the next whole second after `t`. */
  function PrepareNext(s: SpecSchedule, t: Time): (Time, int) {
    var loc := if s.location.Local? then t.offset else s.location.minutes;
    var candidate := if s.location.Local? then t else In(t, s.location.minutes);
    (Time(candidate.instant + NANOS - Nanosecond(candidate), candidate.offset), loc)
  }

  /** The first local second the search considers. */
  function StartFor(s: SpecSchedule, t: Time): int {
    LocalSeconds(t.instant, ZoneFor(s, t)) + 1
  }

  lemma PrepareNextStart(s: SpecSchedule, t: Time)
    ensures var (p, loc) := PrepareNext(s, t);
            loc == p.offset == ZoneFor(s, t) && p.instant % NANOS == 0 &&
            LocalSeconds(p.instant, p.offset) == StartFor(s, t)
  {
    var q := t.instant / NANOS;
    assert t.instant + NANOS - t.instant % NANOS == (q + 1) * NANOS;
    assert (q + 1) * NANOS / NANOS == q + 1;
  }

  // ---------- the obvious search ----------

  /** Tries every second of [from, end) in turn. */
  function Scan(s: SpecSchedule, from: int, end: int): Option<int>
    decreases end - from
  {
    if from >= end then None
    else if Matches(s, from) then Some(from)
    else Scan(s, from + 1, end)
  }

  lemma {:induction false} ScanIsLeast(s: SpecSchedule, from: int, end: int)
    ensures var r := Scan(s, from, end);
            if r.Some? then from <= r.value < end && Matches(s, r.value) && NoneBetween(s, from, r.value)
            else NoneBetween(s, from, end)
    decreases end - from
  {
    hide Matches;
    if from < end && !Matches(s, from) {
      ScanIsLeast(s, from + 1, end);
    }
  }

  /** The last second of the search is the last of year(start) + 5. */
  function SearchEnd(start: int): int { YearBegin(Year(start) + YEAR_SEARCH_SPAN + 1) }

  /** The next activation after `t`, as an instant. */
  function NextActivation(s: SpecSchedule, t: Time): Option<int> {
    var start := StartFor(s, t);
    match Scan(s, start, SearchEnd(start))
    case None => None
    case Some(local) => Some(InstantOf(local, ZoneFor(s, t)))
  }

  /** spec.go:114-123, with the obvious search in place of the jumps. */
  function NextTime(s: SpecSchedule, t: Time): Time {
    match NextActivation(s, t)
    case None => ZERO_TIME
    case Some(instant) => Time(instant, t.offset)
  }

  /** The jump search returns what the obvious search returns. */
  method Next(s: SpecSchedule, t: Time) returns (r: Time)
    ensures r == NextTime(s, t)
  {
    hide Scan, Matches, Year, YearBegin, NextActivation, LocalSeconds, InstantOf, StartFor;
    PrepareNextStart(s, t);
    var (prepared, loc) := PrepareNext(s, t);
    var candidate := LocalSeconds(prepared.instant, prepared.offset);
    var state := new NextActivationState(s, loc, Year(candidate) + YEAR_SEARCH_SPAN, candidate);
    var found, ok := state.Find(candidate);
    SearchAgrees(s, t, found, ok);
    if !ok {
      return ZERO_TIME;
    }
    r := In(Time(InstantOf(found, loc), loc), t.offset);
  }

  lemma SearchAgrees(s: SpecSchedule, t: Time, found: int, ok: bool)
    requires var start, limit := StartFor(s, t), Year(StartFor(s, t)) + YEAR_SEARCH_SPAN;
             if ok then start <= found && Matches(s, found) && Year(found) <= limit && NoneBetween(s, start, found)
             else forall u :: start <= u && Year(u) <= limit ==> !Matches(s, u)
    ensures NextActivation(s, t) == if ok then Some(InstantOf(found, ZoneFor(s, t))) else None
  {
    hide Matches, Year, YearBegin, LocalSeconds, InstantOf, Scan;
    var start := StartFor(s, t);
    var limit := Year(start) + YEAR_SEARCH_SPAN;
    var r := Scan(s, start, SearchEnd(start));
    ScanIsLeast(s, start, SearchEnd(start));
    if ok { YearOrder(found, limit + 1); }
    if r.Some? { YearOrder(r.value, limit + 1); }
  }

  // ---------- what the answer is ----------

  /** The instants at which a schedule is due, read in a zone. */
  predicate Due(s: SpecSchedule, zone: int, instant: int) {
    instant % NANOS == 0 && Matches(s, LocalSeconds(instant, zone))
  }

  /** The last year in which an activation after `t` is looked for. */
  function Horizon(s: SpecSchedule, t: Time): int {
    Year(StartFor(s, t)) + 5
  }

  lemma DueOrder(instant: int, local: int, zone: int)
    requires instant % NANOS == 0
    ensures LocalSeconds(instant, zone) < local <==> instant < InstantOf(local, zone)
    ensures LocalSeconds(instant, zone) == local <==> instant == InstantOf(local, zone)
  {
  }

  lemma AfterIsStart(s: SpecSchedule, t: Time, instant: int)
    requires instant % NANOS == 0
    ensures t.instant < instant <==> StartFor(s, t) <= LocalSeconds(instant, ZoneFor(s, t))
  {
  }

  /** `Next` is the least due instant strictly after `t` up to the horizon, and it finds
      none exactly when there is none. */
  lemma NextIsLeastDue(s: SpecSchedule, t: Time)
    ensures var zone := ZoneFor(s, t);
            match NextActivation(s, t)
            case Some(u) =>
              t.instant < u && Due(s, zone, u) && Year(LocalSeconds(u, zone)) <= Horizon(s, t) &&
              (forall v :: t.instant < v < u ==> !Due(s, zone, v))
            case None =>
              forall v :: t.instant < v && Year(LocalSeconds(v, zone)) <= Horizon(s, t) ==> !Due(s, zone, v)
  {
    hide Matches, Year, YearBegin, LocalSeconds, InstantOf, StartFor, ZoneFor, Scan;
    var zone, start := ZoneFor(s, t), StartFor(s, t);
    var r := Scan(s, start, SearchEnd(start));
    ScanIsLeast(s, start, SearchEnd(start));
    match r {
      case Some(local) =>
        var u := InstantOf(local, zone);
        InstantReading(local, zone);
        AfterIsStart(s, t, u);
        YearOrder(local, Horizon(s, t) + 1);
        forall v | t.instant < v < u ensures !Due(s, zone, v) {
          if v % NANOS == 0 {
            AfterIsStart(s, t, v);
            DueOrder(v, local, zone);
          }
        }
      case None =>
        forall v | t.instant < v && Year(LocalSeconds(v, zone)) <= Horizon(s, t) ensures !Due(s, zone, v) {
          if v % NANOS == 0 {
            AfterIsStart(s, t, v);
            YearOrder(LocalSeconds(v, zone), Horizon(s, t) + 1);
          }
        }
    }
  }

  /** A whole second in nanoseconds, the seconds a clock `zone` minutes ahead shows then, and
      their year. */
  predicate MatchesAt(s: SpecSchedule, zone: int, instant: int) {
    instant % 1_000_000_000 == 0 && Matches(s, instant / 1_000_000_000 + 60 * zone)
  }

  function YearAt(zone: int, instant: int): int { Year(instant / 1_000_000_000 + 60 * zone) }

  /** The same in plain numbers: with the clock read in the schedule's zone, an activation is
      looked for up to the end of the fifth year after that of the first whole second after `t`,
      no further and no less far. */
  lemma NextLooksFiveYearsAhead(s: SpecSchedule, t: Time)
    ensures var zone := if s.location.Local? then t.offset else s.location.minutes;
            var y := YearAt(zone, t.instant + 1_000_000_000);
            match NextActivation(s, t)
            case Some(u) =>
              && NextTime(s, t) == Time(u, t.offset)
              && t.instant < u && MatchesAt(s, zone, u) && YearAt(zone, u) <= y + 5
              && forall v | t.instant < v < u :: !MatchesAt(s, zone, v)
            case None =>
              && NextTime(s, t) == Time(0, 0)
              && forall v | t.instant < v && YearAt(zone, v) <= y + 5 :: !MatchesAt(s, zone, v)
  {
    var zone := ZoneFor(s, t);
    PlainNumbers(s, t, zone);
    hide Matches, Year, NextActivation, Due, MatchesAt, YearAt, LocalSeconds, StartFor;
    NextIsLeastDue(s, t);
  }

  lemma PlainNumbers(s: SpecSchedule, t: Time, zone: int)
    ensures forall v {:trigger MatchesAt(s, zone, v)} :: MatchesAt(s, zone, v) <==> Due(s, zone, v)
    ensures forall v {:trigger YearAt(zone, v)} :: YearAt(zone, v) == Year(LocalSeconds(v, zone))
    ensures YearAt(ZoneFor(s, t), t.instant + 1_000_000_000) == Year(StartFor(s, t))
  {
    hide Matches, Year;
    assert (t.instant + NANOS) / NANOS == t.instant / NANOS + 1;
  }

  /** Only the least due instant up to the horizon answers that description. */
  lemma NextIsTheOne(s: SpecSchedule, t: Time, u: int)
    requires t.instant < u && Due(s, ZoneFor(s, t), u)
    requires Year(LocalSeconds(u, ZoneFor(s, t))) <= Horizon(s, t)
    requires forall v :: t.instant < v < u ==> !Due(s, ZoneFor(s, t), v)
    ensures NextActivation(s, t) == Some(u)
  {
    hide Due, Horizon, Year, LocalSeconds, NextActivation, ZoneFor;
    NextIsLeastDue(s, t);
  }

  lemma HorizonGrows(s: SpecSchedule, t: Time, t': Time)
    requires t.instant <= t'.instant && ZoneFor(s, t) == ZoneFor(s, t')
    ensures Horizon(s, t) <= Horizon(s, t')
  {
    var a, b := StartFor(s, t), StartFor(s, t');
    assert a <= b;
    YearOrder(a, Year(a) + 1);
    YearOrder(b, Year(a));
    YearOrder(a, Year(a));
  }

  /** Between `t` and its next activation the answer does not change, later horizon or not. */
  lemma NextConstantOnGaps(s: SpecSchedule, t: Time, t': Time)
    requires NextActivation(s, t).Some?
    requires t.instant <= t'.instant < NextActivation(s, t).value && ZoneFor(s, t) == ZoneFor(s, t')
    ensures NextActivation(s, t') == NextActivation(s, t)
  {
    hide Due, Horizon, Year, LocalSeconds, NextActivation, ZoneFor;
    NextIsLeastDue(s, t);
    HorizonGrows(s, t, t');
    NextIsTheOne(s, t', NextActivation(s, t).value);
  }

  lemma NextMonotone(s: SpecSchedule, t: Time, t': Time)
    requires t.instant <= t'.instant && ZoneFor(s, t) == ZoneFor(s, t')
    requires NextActivation(s, t).Some? && NextActivation(s, t').Some?
    ensures NextActivation(s, t).value <= NextActivation(s, t').value
  {
    hide Due, Horizon, Year, LocalSeconds, NextActivation, ZoneFor;
    NextIsLeastDue(s, t);
    NextIsLeastDue(s, t');
  }

  // ---------- the zero time ----------

  /** The zero instant is itself the next activation: it lies ahead, is due, and nothing is due
      before it. */
  ghost predicate ZeroIsNext(s: SpecSchedule, t: Time) {
    && t.instant < 0 && Due(s, ZoneFor(s, t), 0) && Year(LocalSeconds(0, ZoneFor(s, t))) <= Horizon(s, t)
    && forall v :: t.instant < v < 0 ==> !Due(s, ZoneFor(s, t), v)
  }

  /** The zero time is returned exactly when there is no activation, or when it is the zero
      instant; asked from that instant on it means that there is none. */
  lemma ZeroTimeExactly(s: SpecSchedule, t: Time)
    ensures IsZero(NextTime(s, t)) <==> NextActivation(s, t).None? || ZeroIsNext(s, t)
    ensures ZeroIsNext(s, t) <==> NextActivation(s, t) == Some(0)
    ensures t.instant >= 0 ==> (IsZero(NextTime(s, t)) <==> NextActivation(s, t).None?)
  {
    hide Due, Horizon, Year, LocalSeconds, NextActivation, ZoneFor;
    NextIsLeastDue(s, t);
    if ZeroIsNext(s, t) { NextIsTheOne(s, t, 0); }
  }
}
