/** The two schedules of the package behind one `Next` (constantdelay.go), and the
    enumeration of activations built on it (schedule.go). */
module Schedules {
  import opened Activation
  import opened Calendar
  import opened Spec

  datatype Schedule = Cron(spec: SpecSchedule) | Delay(delay: int)

  const MAX_INT64: int := 0x7FFF_FFFF_FFFF_FFFF

  /** constantdelay.go:14-22: at least a second, and a whole number of seconds. */
  function Every(duration: int): Schedule {
    var d := if duration < NANOS then NANOS else duration;
    Delay(d - d % NANOS)
  }

  /** constantdelay.go:26-28 and spec.go:114-123. */
  function NextAfter(schedule: Schedule, t: Time): Time {
    match schedule
    case Cron(spec) => NextTime(spec, t)
    case Delay(delay) => Time(t.instant + (delay - Nanosecond(t)), t.offset)
  }

  /** The schedules that the package's own constructors build. */
  predicate Proper(schedule: Schedule) {
    schedule.Delay? ==> schedule.delay >= NANOS && schedule.delay % NANOS == 0
  }

  /** `Every` rounds a duration down to whole seconds, never below one, and the delay
      still fits the 64-bit duration. */
  lemma EveryIsProper(duration: int)
    requires duration <= MAX_INT64
    ensures Proper(Every(duration))
    ensures var delay := Every(duration).delay;
            delay <= MAX_INT64 && (duration >= NANOS ==> delay <= duration < delay + NANOS) &&
            (duration < NANOS ==> delay == NANOS)
  {
    var d := if duration < NANOS then NANOS else duration;
    assert d - d % NANOS == NANOS * (d / NANOS);
  }

  /** A delay schedule next fires on a whole second, later than `t` by no more than its
      delay and by more than its delay less a second. */
  lemma DelayNext(schedule: Schedule, t: Time)
    requires Proper(schedule) && schedule.Delay?
    ensures var next := NextAfter(schedule, t);
            next.instant % NANOS == 0 && next.offset == t.offset && t.instant < next.instant &&
            schedule.delay - NANOS < next.instant - t.instant <= schedule.delay
  {
    var q, k := t.instant / NANOS, schedule.delay / NANOS;
    assert NextAfter(schedule, t).instant == NANOS * (q + k);
  }

  /** The contract the scheduler relies on: `Next` is later than its argument, or zero. */
  lemma NextIsLater(schedule: Schedule, t: Time)
    requires Proper(schedule)
    ensures var next := NextAfter(schedule, t); IsZero(next) || t.instant < next.instant
  {
    match schedule {
      case Cron(spec) =>
        hide NextActivation, Due, Horizon;
        NextIsLeastDue(spec, t);
      case Delay(_) => DelayNext(schedule, t);
    }
  }

  // ---------- NextN ----------

  function Activations(schedule: Schedule, after: Time, count: int): (times: seq<Time>)
    decreases if count < 0 then 0 else count
  {
    if count <= 0 then [] else
    var next := NextAfter(schedule, after);
    if IsZero(next) then [] else [next] + Activations(schedule, next, count - 1)
  }

  method NextN(schedule: Schedule, after: Time, count: int) returns (times: seq<Time>)
    ensures times == Activations(schedule, after, count)
  {
    hide NextAfter;
    times := [];
    var last, i := after, 0;
    while i < count
      invariant 0 <= i && (i <= count || i == 0)
      invariant Activations(schedule, after, count) == times + Activations(schedule, last, count - i)
    {
      var next := NextOf(schedule, last);
      if IsZero(next) {
        break;
      }
      times := times + [next];
      last := next;
      i := i + 1;
    }
  }

  /** One call of the schedule: the search itself for a cron schedule. */
  method NextOf(schedule: Schedule, t: Time) returns (next: Time)
    ensures next == NextAfter(schedule, t)
  {
    match schedule
    case Cron(spec) => next := Activation.Next(spec, t);
    case Delay(delay) => next := Time(t.instant + (delay - Nanosecond(t)), t.offset);
  }

  function LastOr(times: seq<Time>, after: Time): Time {
    if times == [] then after else times[|times| - 1]
  }

  /** Strictly increasing from `after` on, and all shown in its zone. */
  ghost predicate Ascending(after: Time, times: seq<Time>) {
    && (forall k | 0 <= k < |times| :: after.instant < times[k].instant && times[k].offset == after.offset)
    && (forall j, k | 0 <= j < k < |times| :: times[j].instant < times[k].instant)
  }

  lemma AscendingCons(after: Time, next: Time, rest: seq<Time>)
    requires after.instant < next.instant && after.offset == next.offset && Ascending(next, rest)
    ensures Ascending(after, [next] + rest)
  {
    var times := [next] + rest;
    forall k | 1 <= k < |times| ensures times[k] == rest[k - 1] {}
  }

  lemma {:induction false} ActivationsIncrease(schedule: Schedule, after: Time, count: int)
    requires Proper(schedule)
    ensures Ascending(after, Activations(schedule, after, count))
    decreases if count < 0 then 0 else count
  {
    if count > 0 {
      NextIsLater(schedule, after);
      var next := NextAfter(schedule, after);
      if !IsZero(next) {
        ActivationsIncrease(schedule, next, count - 1);
        AscendingCons(after, next, Activations(schedule, next, count - 1));
      }
    }
  }

  /** Up to its last element the list holds exactly the due instants: none is skipped. */
  lemma {:induction false} ActivationsAreTheDueInstants(spec: SpecSchedule, after: Time, count: int, v: int)
    requires after.instant < v <= LastOr(Activations(Cron(spec), after, count), after).instant
    ensures Due(spec, ZoneFor(spec, after), v) <==>
            Time(v, after.offset) in Activations(Cron(spec), after, count)
    decreases if count < 0 then 0 else count
  {
    hide Due, NextActivation, Horizon;
    var times := Activations(Cron(spec), after, count);
    var next := NextAfter(Cron(spec), after);
    var rest := Activations(Cron(spec), next, count - 1);
    assert times == [next] + rest;
    NextIsLeastDue(spec, after);
    ActivationsIncrease(Cron(spec), next, count - 1);
    if v > next.instant {
      assert LastOr(times, after) == LastOr(rest, next);
      ActivationsAreTheDueInstants(spec, next, count - 1, v);
    } else {
      forall k | 0 <= k < |rest| ensures rest[k].instant > v {}
      assert Time(v, after.offset) !in rest;
    }
  }

  /** Asking for fewer gives a prefix. */
  lemma {:induction false} FewerIsPrefix(schedule: Schedule, after: Time, fewer: int, count: int)
    requires fewer <= count
    ensures Activations(schedule, after, fewer) <= Activations(schedule, after, count)
    decreases if fewer < 0 then 0 else fewer
  {
    hide NextAfter, IsZero;
    if fewer > 0 {
      FewerIsPrefix(schedule, NextAfter(schedule, after), fewer - 1, count - 1);
    }
  }

  lemma {:induction false} EndsAtZero(schedule: Schedule, after: Time, count: nat)
    ensures var times := Activations(schedule, after, count);
            |times| <= count && (|times| < count ==> IsZero(NextAfter(schedule, LastOr(times, after))))
    decreases count
  {
    hide NextAfter;
    if count > 0 {
      var next := NextAfter(schedule, after);
      if !IsZero(next) {
        EndsAtZero(schedule, next, count - 1);
        var rest := Activations(schedule, next, count - 1);
        assert Activations(schedule, after, count) == [next] + rest;
        assert LastOr([next] + rest, after) == LastOr(rest, next);
      }
    }
  }

  lemma LastOrKeeps(schedule: Schedule, after: Time, count: int)
    requires Proper(schedule)
    ensures var last := LastOr(Activations(schedule, after, count), after);
            after.instant <= last.instant && last.offset == after.offset
  {
    ActivationsIncrease(schedule, after, count);
  }

  /** A cron list falls short only where nothing is due after its last element (or `after`) up to
      that element's own horizon, or where the next activation is the zero instant; asked from
      that instant on, only the former. */
  lemma ShortOnlyWhenNothingIsDue(spec: SpecSchedule, after: Time, count: nat)
    requires |Activations(Cron(spec), after, count)| < count
    ensures var last := LastOr(Activations(Cron(spec), after, count), after);
            if ZeroIsNext(spec, last) then after.instant < 0
            else forall v :: last.instant < v && Year(LocalSeconds(v, ZoneFor(spec, last))) <= Horizon(spec, last) ==>
                               !Due(spec, ZoneFor(spec, last), v)
  {
    var last := LastOr(Activations(Cron(spec), after, count), after);
    EndsAtZero(Cron(spec), after, count);
    LastOrKeeps(Cron(spec), after, count);
    hide Due, Horizon, Year, LocalSeconds, NextActivation, ZoneFor, Activations, LastOr;
    ZeroTimeExactly(spec, last);
    NextIsLeastDue(spec, last);
  }

  /** A list of a delay schedule never falls short from the zero instant on. */
  lemma DelayNeverEnds(schedule: Schedule, after: Time, count: nat)
    requires Proper(schedule) && schedule.Delay? && after.instant >= 0
    ensures |Activations(schedule, after, count)| == count
  {
    var last := LastOr(Activations(schedule, after, count), after);
    EndsAtZero(schedule, after, count);
    LastOrKeeps(schedule, after, count);
    DelayNext(schedule, last);
  }
}
