/** What a run of the scheduler loop does not miss (cron.go:424-556): every entry waits for the first
    activation after the instant of the start, of its add or of the wake that fired it last, and a
    wake fires every entry that became due since then. */
module Punctual {
  import opened Activation
  import opened Results
  import opened Scheduler
  import opened Schedules
  import opened Spec

  /** What is asked of the entries a run starts with and of the events: ids are not reused, and
      schedules are those the package builds. */
  predicate Orderly(entries: seq<Entry>, events: seq<Event>) {
    DistinctIds(entries) && ProperEntries(entries) && ProperEvents(events) && FreshAdds(entries, events)
  }

  /** Turn k starts a job for this id. */
  ghost predicate FiredIn(entries: seq<Entry>, events: seq<Event>, k: int, id: nat)
    requires 0 <= k < |events|
  {
    var before, after := RunLog(entries, events[..k]), RunLog(entries, events[..k + 1]);
    exists i :: |before| <= i < |after| && after[i].id == id
  }

  lemma OrderlyEarlier(entries: seq<Entry>, events: seq<Event>, k: nat)
    requires Orderly(entries, events) && k <= |events|
    ensures Orderly(entries, events[..k])
  {
    hide ProperEntries, DistinctIds;
  }

  /** The entries stay distinct over a run. */
  lemma StaysDistinct(entries: seq<Entry>, events: seq<Event>)
    requires Orderly(entries, events)
    ensures DistinctIds(RunEntries(entries, events))
  {
    RunNeverFiresTwice(entries, events);
  }

  /** A turn starts a job for an id exactly when it is a wake and the entry's next activation is
      there and not after the instant of the wake, that instant included. */
  lemma FiredExactlyWhenReached(entries: seq<Entry>, events: seq<Event>, k: nat, e: Entry)
    requires Orderly(entries, events) && k < |events| && e in RunEntries(entries, events[..k])
    ensures FiredIn(entries, events, k, e.id) <==>
            events[k].Wake? && e.next.instant != 0 && e.next.instant <= events[k].firedAt.instant
  {
    var current := RunEntries(entries, events[..k]);
    OrderlyEarlier(entries, events, k);
    StaysDistinct(entries, events[..k]);
    hide Orderly, RunEntries, RunLog, DistinctIds, Handle, SortedByNext;
    RunOfPrefix(entries, events, k);
    FiresWhenReached(current, e, events[k]);
    var before, started := RunLog(entries, events[..k]), Started(SortedByNext(current), events[k]);
    TailHas(before, started, e.id);
  }

  lemma TailHas(before: seq<Firing>, started: seq<Firing>, id: nat)
    ensures (exists i :: |before| <= i < |before + started| && (before + started)[i].id == id) <==>
            exists f :: f in started && f.id == id
  {
    if f :| f in started && f.id == id {
      var i :| 0 <= i < |started| && started[i] == f;
      assert (before + started)[|before| + i].id == id;
    }
  }

  lemma FiresWhenReached(current: seq<Entry>, e: Entry, event: Event)
    requires DistinctIds(current) && e in current
    ensures (exists f :: f in Started(SortedByNext(current), event) && f.id == e.id) <==>
            event.Wake? && e.next.instant != 0 && e.next.instant <= event.firedAt.instant
  {
    var sorted := SortedByNext(current);
    SortMembers(current);
    hide SortedByNext, DistinctIds;
    if event.Wake? {
      FiringsAreTheDue(sorted, event.firedAt);
      if f :| f in Started(sorted, event) && f.id == e.id {
        var e' :| e' in sorted && IsDue(e', event.firedAt) && f == Firing(e'.id, e'.next);
        SameIdSameEntry(current, e', e);
      }
      if IsDue(e, event.firedAt) { assert Firing(e.id, e.next) in Started(sorted, event); }
    }
  }

  // ---------- since when an entry waits ----------

  /** At turn j (or before the first, at -1) the clock read c, and the entry was there from the
      start, was added, or was fired. */
  ghost predicate SetAt(entries: seq<Entry>, start: Time, events: seq<Event>, e: Entry, j: int, c: Time) {
    if j == -1 then c == start && exists e0 :: e0 in entries && e0.id == e.id && e0.schedule == e.schedule
    else
      && 0 <= j < |events|
      && (|| events[j] == Added(e.id, e.schedule, c)
          || (events[j] == Wake(c) && FiredIn(Scheduled(entries, start), events, j, e.id)))
  }

  ghost predicate NotFiredSince(entries: seq<Entry>, start: Time, events: seq<Event>, id: nat, j: int) {
    forall i | j < i < |events| && 0 <= i :: !FiredIn(Scheduled(entries, start), events, i, id)
  }

  /** The entry has the schedule it started or was added with. */
  ghost predicate HasItsSchedule(entries: seq<Entry>, events: seq<Event>, e: Entry) {
    || (exists e0 :: e0 in entries && e0.id == e.id && e0.schedule == e.schedule)
    || (exists i :: 0 <= i < |events| && events[i].Added? && events[i].id == e.id && events[i].schedule == e.schedule)
  }

  lemma {:induction false} ScheduledIsOrderly(entries: seq<Entry>, start: Time, events: seq<Event>)
    requires Orderly(entries, events)
    ensures Orderly(Scheduled(entries, start), events)
  {
    var initial := Scheduled(entries, start);
    hide NextAfter;
    forall i, e | 0 <= i < |events| && events[i].Added? && e in initial ensures e.id != events[i].id {
      var k :| 0 <= k < |initial| && initial[k] == e;
      assert entries[k] in entries;
    }
  }

  lemma FiredEarlier(entries: seq<Entry>, events: seq<Event>, k: nat, id: nat)
    requires k + 1 < |events|
    ensures FiredIn(entries, events[..|events| - 1], k, id) <==> FiredIn(entries, events, k, id)
  {
    var earlier := events[..|events| - 1];
    assert earlier[..k] == events[..k] && earlier[..k + 1] == events[..k + 1];
  }

  /** What was set before the last turn and not fired in it stays set. */
  lemma StaysSet(entries: seq<Entry>, start: Time, events: seq<Event>, e: Entry, j: int, c: Time)
    requires events != [] && j < |events| - 1
    requires var earlier := events[..|events| - 1];
             SetAt(entries, start, earlier, e, j, c) && NotFiredSince(entries, start, earlier, e.id, j)
    requires !FiredIn(Scheduled(entries, start), events, |events| - 1, e.id)
    ensures SetAt(entries, start, events, e, j, c) && NotFiredSince(entries, start, events, e.id, j)
  {
    var initial := Scheduled(entries, start);
    hide FiredIn, SetAt;
    forall i | j < i < |events| && 0 <= i ensures !FiredIn(initial, events, i, e.id) {
      if i < |events| - 1 { FiredEarlier(initial, events, i, e.id); }
    }
    SetStays(entries, start, events, e, j, c);
  }

  lemma SetStays(entries: seq<Entry>, start: Time, events: seq<Event>, e: Entry, j: int, c: Time)
    requires events != [] && SetAt(entries, start, events[..|events| - 1], e, j, c)
    ensures SetAt(entries, start, events, e, j, c)
  {
    hide FiredIn;
    if j >= 0 { FiredEarlier(Scheduled(entries, start), events, j, e.id); }
  }

  lemma KeepsItsSchedule(entries: seq<Entry>, events: seq<Event>, e: Entry)
    requires events != [] && HasItsSchedule(entries, events[..|events| - 1], e)
    ensures HasItsSchedule(entries, events, e)
  {
    var earlier := events[..|events| - 1];
    if !(exists e0 :: e0 in entries && e0.id == e.id && e0.schedule == e.schedule) {
      var i :| 0 <= i < |earlier| && earlier[i].Added? && earlier[i].id == e.id && earlier[i].schedule == e.schedule;
      assert events[i] == earlier[i];
    }
  }

  /** Where an entry of one turn comes from: it is there already, as it was or fired, or added. */
  lemma EntryOfTurn(current: seq<Entry>, event: Event, e: Entry) returns (was: Option<Entry>)
    requires e in Handle(SortedByNext(current), event)
    ensures match was
            case None => event.Added? && e.id == event.id && e.schedule == event.schedule &&
                         e.next == NextAfter(event.schedule, event.clock)
            case Some(prior) =>
              && prior in current && prior.id == e.id && prior.schedule == e.schedule
              && if event.Wake? && prior.next.instant != 0 && prior.next.instant <= event.firedAt.instant
                 then e.next == NextAfter(e.schedule, event.firedAt)
                 else e == prior
  {
    var sorted := SortedByNext(current);
    SortMembers(current);
    hide SortedByNext, NextAfter;
    was := Some(e);
    match event {
      case Wake(firedAt) =>
        var i :| 0 <= i < |sorted| && FireAll(sorted, firedAt)[i] == e;
        was := Some(sorted[i]);
      case Added(_, _, _) =>
        if e !in sorted { was := None; }
      case Removed(id, _) => WithoutMembers(sorted, id);
      case Stop =>
    }
  }

  lemma AtTheStart(entries: seq<Entry>, start: Time, e: Entry)
    requires e in Scheduled(entries, start)
    ensures HasItsSchedule(entries, [], e)
    ensures SetAt(entries, start, [], e, -1, start) && NotFiredSince(entries, start, [], e.id, -1)
    ensures e.next == NextAfter(e.schedule, start)
  {
    hide NextAfter;
    var k :| 0 <= k < |Scheduled(entries, start)| && Scheduled(entries, start)[k] == e;
    assert entries[k] in entries;
  }

  /** After every turn of a run, each entry has the schedule it came with, and its next activation
      is that schedule's next after the instant of the start, of its add or of the wake that fired
      it last. */
  lemma {:induction false} NextIsSetBy(entries: seq<Entry>, start: Time, events: seq<Event>, e: Entry)
    returns (j: int, c: Time)
    requires Orderly(entries, events) && e in RunEntries(Scheduled(entries, start), events)
    ensures HasItsSchedule(entries, events, e) && e.next == NextAfter(e.schedule, c)
    ensures j < |events| && SetAt(entries, start, events, e, j, c) && NotFiredSince(entries, start, events, e.id, j)
    decreases |events|
  {
    hide NextAfter, Handle, SortedByNext, Orderly, SetAt, NotFiredSince, HasItsSchedule, FiredIn;
    var initial := Scheduled(entries, start);
    if events == [] {
      AtTheStart(entries, start, e);
      j, c := -1, start;
    } else {
      var n := |events| - 1;
      var earlier := events[..n];
      var was := EntryOfTurn(RunEntries(initial, earlier), events[n], e);
      assert events[..n + 1] == events;
      hide RunEntries;
      match was {
        case None =>
          j, c := n, events[n].clock;
          AddedNow(entries, start, events, e);
        case Some(prior) =>
          OrderlyEarlier(entries, events, n);
          ScheduledIsOrderly(entries, start, events);
          FiredExactlyWhenReached(initial, events, n, prior);
          j, c := NextIsSetBy(entries, start, earlier, prior);
          SameButNext(entries, start, earlier, prior, e, j, c);
          KeepsItsSchedule(entries, events, e);
          if FiredIn(initial, events, n, e.id) {
            j, c := n, events[n].firedAt;
            FiredNow(entries, start, events, e);
          } else {
            StaysSet(entries, start, events, e, j, c);
          }
      }
    }
  }

  lemma SameButNext(entries: seq<Entry>, start: Time, events: seq<Event>, prior: Entry, e: Entry, j: int, c: Time)
    requires prior.id == e.id && prior.schedule == e.schedule
    ensures HasItsSchedule(entries, events, prior) ==> HasItsSchedule(entries, events, e)
    ensures SetAt(entries, start, events, prior, j, c) ==> SetAt(entries, start, events, e, j, c)
  {
    hide FiredIn;
  }

  lemma AddedNow(entries: seq<Entry>, start: Time, events: seq<Event>, e: Entry)
    requires events != []
    requires var event := events[|events| - 1]; event.Added? && event.id == e.id && event.schedule == e.schedule
    ensures var j, c := |events| - 1, events[|events| - 1].clock;
            SetAt(entries, start, events, e, j, c) && NotFiredSince(entries, start, events, e.id, j)
            && HasItsSchedule(entries, events, e)
  {
    hide FiredIn;
  }

  lemma FiredNow(entries: seq<Entry>, start: Time, events: seq<Event>, e: Entry)
    requires events != [] && events[|events| - 1].Wake?
    requires FiredIn(Scheduled(entries, start), events, |events| - 1, e.id)
    ensures var j, c := |events| - 1, events[|events| - 1].firedAt;
            SetAt(entries, start, events, e, j, c) && NotFiredSince(entries, start, events, e.id, j)
  {
    hide FiredIn;
  }

  // ---------- nothing is missed ----------

  /** An instant at which a schedule that has been waiting since c is due. A cron schedule reads the
      clock in its own zone, or in that of c, and looks five years ahead; a delay schedule is due
      once, on the second in which its delay has passed since c. */
  ghost predicate DueSince(schedule: Schedule, c: Time, v: int) {
    && c.instant < v
    && match schedule
       case Cron(spec) =>
         var zone := if spec.location.Local? then c.offset else spec.location.minutes;
         MatchesAt(spec, zone, v) && YearAt(zone, v) <= YearAt(zone, c.instant + 1_000_000_000) + 5
       case Delay(delay) => v % 1_000_000_000 == 0 && delay - 1_000_000_000 < v - c.instant <= delay
  }

  /** The first due instant, or zero if and only if there is none. */
  ghost predicate IsFirstDue(schedule: Schedule, c: Time, next: int) {
    if next == 0 then forall v :: !DueSince(schedule, c, v)
    else DueSince(schedule, c, next) && forall v | v < next :: !DueSince(schedule, c, v)
  }

  lemma NextIsFirstDue(schedule: Schedule, c: Time)
    requires Proper(schedule) && c.instant >= 0
    ensures IsFirstDue(schedule, c, NextAfter(schedule, c).instant)
  {
    match schedule {
      case Cron(spec) => CronIsFirstDue(spec, c);
      case Delay(delay) => DelayIsFirstDue(schedule, c);
    }
  }

  lemma CronIsFirstDue(spec: SpecSchedule, c: Time)
    requires c.instant >= 0
    ensures IsFirstDue(Cron(spec), c, NextTime(spec, c).instant)
  {
    hide NextActivation, MatchesAt, YearAt, NextTime;
    NextLooksFiveYearsAhead(spec, c);
  }

  lemma DelayIsFirstDue(schedule: Schedule, c: Time)
    requires Proper(schedule) && schedule.Delay? && c.instant >= 0
    ensures IsFirstDue(schedule, c, NextAfter(schedule, c).instant)
  {
    DelayNext(schedule, c);
    hide NextAfter;
    forall v | v < NextAfter(schedule, c).instant ensures !DueSince(schedule, c, v) {
      if DueSince(schedule, c, v) { WithinASecond(v, NextAfter(schedule, c).instant); }
    }
  }

  lemma WithinASecond(v: int, w: int)
    requires v % 1_000_000_000 == 0 && w % 1_000_000_000 == 0 && v < w
    ensures w >= v + 1_000_000_000
  {
    assert v == 1_000_000_000 * (v / 1_000_000_000) && w == 1_000_000_000 * (w / 1_000_000_000);
  }

  /** After every turn of a run each entry waits for the first activation that its schedule has
      after the instant of the start, of its add or of the wake that fired it last; if it waits for
      none, there is none. */
  lemma WaitsForTheFirst(entries: seq<Entry>, start: Time, events: seq<Event>, e: Entry) returns (j: int, c: Time)
    requires Orderly(entries, events) && e in RunEntries(Scheduled(entries, start), events)
    ensures HasItsSchedule(entries, events, e)
    ensures j < |events| && SetAt(entries, start, events, e, j, c) && NotFiredSince(entries, start, events, e.id, j)
    ensures c.instant >= 0 ==> IsFirstDue(e.schedule, c, e.next.instant)
  {
    hide RunEntries, HasItsSchedule, SetAt, NotFiredSince, IsFirstDue, NextAfter;
    j, c := NextIsSetBy(entries, start, events, e);
    SchedulesAreProper(entries, events, e);
    if c.instant >= 0 { NextIsFirstDue(e.schedule, c); }
  }

  lemma SchedulesAreProper(entries: seq<Entry>, events: seq<Event>, e: Entry)
    requires Orderly(entries, events) && HasItsSchedule(entries, events, e)
    ensures Proper(e.schedule)
  {
    if e0 :| e0 in entries && e0.id == e.id && e0.schedule == e.schedule {
      var i :| 0 <= i < |entries| && entries[i] == e0;
    } else {
      var i :| 0 <= i < |events| && events[i].Added? && events[i].id == e.id && events[i].schedule == e.schedule;
    }
  }

  /** A wake fires every entry for which an instant has become due, at the latest with the wake,
      since the start, its add or its last firing, and it fires no other. */
  lemma WakeMissesNothing(entries: seq<Entry>, start: Time, events: seq<Event>, n: nat, e: Entry)
    returns (j: int, c: Time)
    requires Orderly(entries, events) && n < |events| && events[n].Wake?
    requires e in RunEntries(Scheduled(entries, start), events[..n])
    ensures j < n && SetAt(entries, start, events[..n], e, j, c)
    ensures NotFiredSince(entries, start, events[..n], e.id, j)
    ensures c.instant >= 0 ==>
              (FiredIn(Scheduled(entries, start), events, n, e.id) <==>
               exists v :: DueSince(e.schedule, c, v) && v <= events[n].firedAt.instant)
  {
    OrderlyEarlier(entries, events, n);
    ScheduledIsOrderly(entries, start, events);
    hide Orderly, RunEntries, HasItsSchedule, SetAt, NotFiredSince, NextAfter, DueSince, FiredIn;
    j, c := WaitsForTheFirst(entries, start, events[..n], e);
    FiredExactlyWhenReached(Scheduled(entries, start), events, n, e);
  }
}
