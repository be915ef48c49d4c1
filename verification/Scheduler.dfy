/** One run of the scheduler loop: sort by next activation, arm the timer on the head, fire
    what is due, add, remove (cron.go). The clock and the timer are inputs: any instant may
    be delivered at any wake. */
module Scheduler {
  import opened Activation
  import opened Schedules

  datatype Entry = Entry(id: nat, schedule: Schedule, next: Time, prev: Time)

  const IDLE_TIMER: int := 100000 * 3600 * NANOS
  const MIN_INT64: int := -0x8000_0000_0000_0000

  // ---------- the order of entries ----------

  function CompareIds(left: Entry, right: Entry): int {
    if left.id < right.id then -1 else if left.id > right.id then 1 else 0
  }

  /** cron.go:445-463: by next activation, zero times last, ties by id. */
  function Compare(left: Entry, right: Entry): int {
    if IsZero(left.next) && IsZero(right.next) then CompareIds(left, right)
    else if IsZero(left.next) then 1
    else if IsZero(right.next) then -1
    else if left.next.instant < right.next.instant then -1
    else if right.next.instant < left.next.instant then 1
    else CompareIds(left, right)
  }

  /** On entries with distinct ids it is a total order: earlier activations first, zero times at
      the end, and the smaller id first among equal ones. */
  lemma CompareIsTotalOrder(a: Entry, b: Entry, c: Entry)
    ensures Compare(a, b) == -Compare(b, a)
    ensures Compare(a, b) <= 0 && Compare(b, c) <= 0 ==> Compare(a, c) <= 0
    ensures Compare(a, b) == 0 ==> a.id == b.id
    ensures Compare(a, b) <= 0 && IsZero(a.next) ==> IsZero(b.next)
    ensures Compare(a, b) <= 0 && !IsZero(b.next) ==> a.next.instant <= b.next.instant
    ensures a.next.instant == b.next.instant ==> (Compare(a, b) < 0 <==> a.id < b.id)
  {
  }

  predicate Sorted(entries: seq<Entry>) {
    forall i, j | 0 <= i < j < |entries| :: Compare(entries[i], entries[j]) <= 0
  }

  predicate DistinctIds(entries: seq<Entry>) {
    forall i, j | 0 <= i < j < |entries| :: entries[i].id != entries[j].id
  }

  function Insert(e: Entry, sorted: seq<Entry>): seq<Entry> {
    if sorted == [] || Compare(e, sorted[0]) <= 0 then [e] + sorted
    else [sorted[0]] + Insert(e, sorted[1..])
  }

  function SortedByNext(entries: seq<Entry>): seq<Entry> {
    if entries == [] then [] else Insert(entries[0], SortedByNext(entries[1..]))
  }

  lemma SortedCons(x: Entry, rest: seq<Entry>)
    requires Sorted(rest) && forall y | y in rest :: Compare(x, y) <= 0
    ensures Sorted([x] + rest)
  {
    hide Compare;
  }

  lemma HeadIsLeast(sorted: seq<Entry>, x: Entry)
    requires Sorted(sorted) && x in sorted
    ensures Compare(sorted[0], x) <= 0
  {
    var k :| 0 <= k < |sorted| && sorted[k] == x;
    CompareIsTotalOrder(x, x, x);
  }

  lemma {:induction false} InsertMembers(e: Entry, sorted: seq<Entry>)
    ensures forall x :: x in Insert(e, sorted) <==> x == e || x in sorted
    ensures multiset(Insert(e, sorted)) == multiset{e} + multiset(sorted)
  {
    hide Compare;
    if sorted != [] {
      InsertMembers(e, sorted[1..]);
      assert sorted == [sorted[0]] + sorted[1..];
    }
  }

  lemma {:induction false} InsertSorts(e: Entry, sorted: seq<Entry>)
    requires Sorted(sorted)
    ensures Sorted(Insert(e, sorted))
  {
    hide Compare;
    if sorted == [] {
    } else if Compare(e, sorted[0]) <= 0 {
      forall x | x in sorted ensures Compare(e, x) <= 0 {
        HeadIsLeast(sorted, x);
        CompareIsTotalOrder(e, sorted[0], x);
      }
      SortedCons(e, sorted);
    } else {
      InsertSorts(e, sorted[1..]);
      InsertMembers(e, sorted[1..]);
      forall x | x in Insert(e, sorted[1..]) ensures Compare(sorted[0], x) <= 0 {
        CompareIsTotalOrder(sorted[0], e, e);
        if x in sorted { HeadIsLeast(sorted, x); }
      }
      SortedCons(sorted[0], Insert(e, sorted[1..]));
    }
  }

  /** Sorting gives a sorted arrangement of the same entries. */
  lemma {:induction false} SortSorts(entries: seq<Entry>)
    ensures Sorted(SortedByNext(entries)) && multiset(SortedByNext(entries)) == multiset(entries)
  {
    if entries != [] {
      SortSorts(entries[1..]);
      InsertSorts(entries[0], SortedByNext(entries[1..]));
      InsertMembers(entries[0], SortedByNext(entries[1..]));
      assert entries == [entries[0]] + entries[1..];
    }
  }

  lemma PermutationKeepsDistinct(a: seq<Entry>, b: seq<Entry>)
    requires multiset(a) == multiset(b) && DistinctIds(a)
    ensures DistinctIds(b)
  {
    forall i, j | 0 <= i < j < |b| ensures b[i].id != b[j].id {
      if b[i] == b[j] {
        TwiceInMultiset(b, i, j);
        OnceInMultiset(a, b[i]);
      } else {
        assert b[i] in multiset(a) && b[j] in multiset(a);
      }
    }
  }

  lemma TwiceInMultiset(s: seq<Entry>, i: nat, j: nat)
    requires i < j < |s| && s[i] == s[j]
    ensures multiset(s)[s[i]] >= 2
  {
    assert s == s[..i] + [s[i]] + s[i + 1..j] + [s[j]] + s[j + 1..];
  }

  lemma {:induction false} OnceInMultiset(s: seq<Entry>, e: Entry)
    requires DistinctIds(s)
    ensures multiset(s)[e] <= 1
  {
    if s != [] {
      OnceInMultiset(s[1..], e);
      assert s == [s[0]] + s[1..];
      assert forall k | 0 <= k < |s[1..]| :: s[1..][k].id != s[0].id;
    }
  }

  /** With distinct ids there is only one sorted arrangement, so the sorting algorithm does not matter. */
  lemma {:induction false} SortIsUnique(a: seq<Entry>, b: seq<Entry>)
    requires Sorted(a) && Sorted(b) && multiset(a) == multiset(b) && DistinctIds(a)
    ensures a == b
  {
    hide Compare;
    hide Sorted, DistinctIds;
    if a == [] {
      assert |multiset(b)| == 0;
    } else {
      HeadsAgree(a, b);
      TailsAgree(a, b);
      SortIsUnique(a[1..], b[1..]);
      assert a == [a[0]] + a[1..] && b == [b[0]] + b[1..];
    }
  }

  lemma HeadsAgree(a: seq<Entry>, b: seq<Entry>)
    requires Sorted(a) && Sorted(b) && multiset(a) == multiset(b) && DistinctIds(a) && a != []
    ensures b != [] && a[0] == b[0]
  {
    hide Compare, Sorted, DistinctIds;
    assert |multiset(a)| == |a| && |multiset(b)| == |b|;
    assert a[0] in multiset(b) && b[0] in multiset(a);
    HeadIsLeast(a, b[0]);
    HeadIsLeast(b, a[0]);
    CompareIsTotalOrder(a[0], b[0], b[0]);
    SameIdSameEntry(a, a[0], b[0]);
  }

  lemma TailsAgree(a: seq<Entry>, b: seq<Entry>)
    requires multiset(a) == multiset(b) && a != [] && b != [] && a[0] == b[0]
    ensures multiset(a[1..]) == multiset(b[1..])
    ensures (Sorted(a) ==> Sorted(a[1..])) && (Sorted(b) ==> Sorted(b[1..])) && (DistinctIds(a) ==> DistinctIds(a[1..]))
  {
    hide Compare;
    MultisetTail(a);
    MultisetTail(b);
  }

  lemma MultisetTail(s: seq<Entry>)
    requires s != []
    ensures multiset(s[1..]) == multiset(s) - multiset{s[0]}
  {
    assert s == [s[0]] + s[1..];
  }

  lemma SameIdSameEntry(entries: seq<Entry>, x: Entry, y: Entry)
    requires DistinctIds(entries) && x in entries && y in entries && x.id == y.id
    ensures x == y
  {
  }

  // ---------- firing ----------

  predicate IsDue(e: Entry, now: Time) {
    !IsZero(e.next) && e.next.instant <= now.instant
  }

  function Fire(e: Entry, now: Time): Entry {
    if IsDue(e, now) then e.(prev := e.next, next := NextAfter(e.schedule, now)) else e
  }

  /** Every due entry fired, every other left alone. */
  function FireAll(entries: seq<Entry>, now: Time): (r: seq<Entry>)
    ensures |r| == |entries|
    ensures forall i | 0 <= i < |r| :: r[i] == Fire(entries[i], now)
  {
    if entries == [] then [] else [Fire(entries[0], now)] + FireAll(entries[1..], now)
  }

  datatype Firing = Firing(id: nat, at: Time)

  /** The activations started, in order: id and scheduled time. */
  function DueFirings(entries: seq<Entry>, now: Time): seq<Firing> {
    if entries == [] then []
    else (if IsDue(entries[0], now) then [Firing(entries[0].id, entries[0].next)] else []) +
          DueFirings(entries[1..], now)
  }

  lemma DueIsPrefix(entries: seq<Entry>, now: Time, i: nat, j: nat)
    requires Sorted(entries) && i <= j < |entries| && !IsDue(entries[i], now)
    ensures !IsDue(entries[j], now)
  {
    if i < j { CompareIsTotalOrder(entries[i], entries[j], entries[j]); }
  }

  lemma {:induction false} NoFirings(entries: seq<Entry>, now: Time)
    requires forall i | 0 <= i < |entries| :: !IsDue(entries[i], now)
    ensures FireAll(entries, now) == entries && DueFirings(entries, now) == []
  {
    if entries != [] { NoFirings(entries[1..], now); }
  }

  /** Each due entry is started exactly once, at its scheduled time, and no other is. */
  lemma {:induction false} FiringsAreTheDue(entries: seq<Entry>, now: Time)
    ensures forall e | e in entries && IsDue(e, now) :: Firing(e.id, e.next) in DueFirings(entries, now)
    ensures forall f | f in DueFirings(entries, now) ::
              exists e :: e in entries && IsDue(e, now) && f == Firing(e.id, e.next)
    ensures DistinctIds(entries) ==>
              forall i, j | 0 <= i < j < |DueFirings(entries, now)| ::
                DueFirings(entries, now)[i].id != DueFirings(entries, now)[j].id
  {
    if entries != [] {
      var rest := DueFirings(entries[1..], now);
      FiringsAreTheDue(entries[1..], now);
      forall f | f in DueFirings(entries, now)
        ensures exists e :: e in entries && IsDue(e, now) && f == Firing(e.id, e.next)
      {
        if f in rest {
          var e :| e in entries[1..] && IsDue(e, now) && f == Firing(e.id, e.next);
          assert e in entries;
        }
      }
      if DistinctIds(entries) {
        forall k | 0 <= k < |rest| ensures rest[k].id != entries[0].id {
          var f := rest[k];
          assert f in rest;
          var e :| e in entries[1..] && IsDue(e, now) && f == Firing(e.id, e.next);
        }
      }
    }
  }

  predicate NotAfter(f: Firing, g: Firing) {
    f.at.instant < g.at.instant || (f.at.instant == g.at.instant && f.id <= g.id)
  }

  /** On sorted entries the jobs of one wake are started in the order of their scheduled times, and
      of their ids where these are equal. */
  lemma {:induction false} FiringsInOrder(entries: seq<Entry>, now: Time)
    requires Sorted(entries)
    ensures forall j, k | 0 <= j < k < |DueFirings(entries, now)| ::
              NotAfter(DueFirings(entries, now)[j], DueFirings(entries, now)[k])
  {
    if entries != [] {
      var e, rest := entries[0], DueFirings(entries[1..], now);
      hide Compare, IsDue, NotAfter;
      FiringsInOrder(entries[1..], now);
      FiringsAreTheDue(entries[1..], now);
      if IsDue(e, now) {
        forall k | 0 <= k < |rest| ensures NotAfter(Firing(e.id, e.next), rest[k]) {
          assert rest[k] in rest;
          var e' :| e' in entries[1..] && IsDue(e', now) && rest[k] == Firing(e'.id, e'.next);
          HeadIsLeast(entries, e');
          DueInOrder(e, e', now);
        }
      }
    }
  }

  lemma DueInOrder(e: Entry, e': Entry, now: Time)
    requires Compare(e, e') <= 0 && IsDue(e, now) && IsDue(e', now)
    ensures NotAfter(Firing(e.id, e.next), Firing(e'.id, e'.next))
  {
  }

  // ---------- events of a run ----------

  /** What ends a select, with the clock as it is read then; Stop is the end of the context. */
  datatype Event =
    | Wake(firedAt: Time) | Added(id: nat, schedule: Schedule, clock: Time) | Removed(id: nat, clock: Time) | Stop

  /** The instant from which the next timer counts. */
  function NowAfter(now: Time, event: Event): Time {
    match event
    case Wake(firedAt) => firedAt
    case Added(_, _, clock) => clock
    case Removed(_, clock) => clock
    case Stop => now
  }

  function Without(entries: seq<Entry>, id: nat): seq<Entry> {
    if entries == [] then []
    else (if entries[0].id == id then [] else [entries[0]]) + Without(entries[1..], id)
  }

  /** What one event does to sorted entries. */
  function Handle(entries: seq<Entry>, event: Event): seq<Entry> {
    match event
    case Wake(firedAt) => FireAll(entries, firedAt)
    case Added(id, schedule, clock) => entries + [Entry(id, schedule, NextAfter(schedule, clock), ZERO_TIME)]
    case Removed(id, _) => Without(entries, id)
    case Stop => entries
  }

  function Started(entries: seq<Entry>, event: Event): seq<Firing> {
    match event
    case Wake(firedAt) => DueFirings(entries, firedAt)
    case _ => []
  }

  function Scheduled(entries: seq<Entry>, now: Time): (r: seq<Entry>)
    ensures |r| == |entries|
    ensures forall i | 0 <= i < |r| :: r[i] == entries[i].(next := NextAfter(entries[i].schedule, now))
  {
    if entries == [] then []
    else [entries[0].(next := NextAfter(entries[0].schedule, now))] + Scheduled(entries[1..], now)
  }

  /** The loop's data: the entries it owns. */
  class Loop {
    var entries: seq<Entry>

    constructor (entries: seq<Entry>)
      ensures this.entries == entries
    {
      this.entries := entries;
    }

    /** cron.go:477-485. */
    method InitializeEntries(now: Time)
      modifies this
      ensures entries == Scheduled(old(entries), now)
    {
      var i := 0;
      while i < |entries|
        invariant 0 <= i <= |entries| == |old(entries)|
        invariant forall k | 0 <= k < i :: entries[k] == Scheduled(old(entries), now)[k]
        invariant forall k | i <= k < |entries| :: entries[k] == old(entries)[k]
      {
        var next := NextOf(entries[i].schedule, now);
        entries := entries[i := entries[i].(next := next)];
        i := i + 1;
      }
    }

    method SortEntriesByNext()
      modifies this
      ensures entries == SortedByNext(old(entries))
    {
      entries := SortedByNext(entries);
    }

    /** cron.go:509-517: the wait armed before the next event, as a 64-bit duration. */
    method TimerDuration(now: Time) returns (duration: int)
      ensures duration == TimerFor(entries, now)
    {
      if |entries| == 0 || IsZero(entries[0].next) {
        return IDLE_TIMER;
      }
      duration := Sub(entries[0].next, now);
    }

    /** cron.go:527-538. On sorted entries the early break skips nothing that is due. */
    method RunDueEntries(now: Time) returns (started: seq<Firing>)
      requires Sorted(entries)
      modifies this
      ensures entries == FireAll(old(entries), now)
      ensures started == DueFirings(old(entries), now)
    {
      hide NextAfter, Compare;
      ghost var before := entries;
      started := [];
      var i := 0;
      assert before[0..] == before;
      while i < |entries|
        invariant 0 <= i <= |entries| == |before|
        invariant forall k | 0 <= k < i :: entries[k] == Fire(before[k], now)
        invariant forall k | i <= k < |entries| :: entries[k] == before[k]
        invariant DueFirings(before, now) == started + DueFirings(before[i..], now)
      {
        var e := entries[i];
        assert before[i..][0] == e && before[i..][1..] == before[i + 1..];
        if e.next.instant > now.instant || IsZero(e.next) {
          forall k | i <= k < |before| ensures !IsDue(before[k], now) { DueIsPrefix(before, now, i, k); }
          NoFirings(before[i..], now);
          break;
        }
        started := started + [Firing(e.id, e.next)];
        var next := NextOf(e.schedule, now);
        entries := entries[i := e.(prev := e.next, next := next)];
        i := i + 1;
      }
      assert entries == FireAll(before, now);
    }

    method HandleEntryAdded(id: nat, schedule: Schedule, clock: Time)
      modifies this
      ensures entries == Handle(old(entries), Added(id, schedule, clock))
    {
      var next := NextOf(schedule, clock);
      entries := entries + [Entry(id, schedule, next, ZERO_TIME)];
    }

    method RemoveEntry(id: nat)
      modifies this
      ensures entries == Without(old(entries), id)
    {
      entries := Without(entries, id);
    }

    /** cron.go:429-439, 487-507: one turn of the loop. It sorts, arms the timer, answers requests
        for a snapshot with copies of the entries, and handles the event that ends the select. */
    method Turn(now: Time, snapshots: nat, event: Event)
      returns (timer: int, replies: seq<seq<Entry>>, started: seq<Firing>, next: Time, stop: bool)
      modifies this
      ensures entries == Handle(SortedByNext(old(entries)), event)
      ensures timer == TimerFor(SortedByNext(old(entries)), now)
      ensures |replies| == snapshots && forall k | 0 <= k < snapshots :: replies[k] == SortedByNext(old(entries))
      ensures started == Started(SortedByNext(old(entries)), event)
      ensures next == NowAfter(now, event) && (stop <==> event.Stop?)
    {
      SortSorts(entries);
      SortEntriesByNext();
      timer := TimerDuration(now);
      replies := [];
      for answered := 0 to snapshots
        invariant entries == SortedByNext(old(entries))
        invariant |replies| == answered && forall k | 0 <= k < answered :: replies[k] == entries
      {
        replies := replies + [entries];
      }
      started, next, stop := [], now, false;
      match event {
        case Wake(firedAt) =>
          started := RunDueEntries(firedAt);
          next := firedAt;
        case Added(id, schedule, clock) =>
          HandleEntryAdded(id, schedule, clock);
          next := clock;
        case Removed(id, clock) =>
          RemoveEntry(id);
          next := clock;
        case Stop => stop := true;
      }
    }

    /** cron.go:424-439: a whole run, over the events that arrive up to the one that stops it;
        `snapshots` says how many requests come before each. */
    method SchedulerLoop(start: Time, snapshots: seq<nat>, events: seq<Event>)
      returns (log: seq<Firing>, timers: seq<int>, handled: nat)
      requires |snapshots| == |events|
      modifies this
      ensures handled <= |events| && (handled < |events| ==> handled > 0 && events[handled - 1].Stop?)
      ensures forall i | 0 <= i < handled - 1 :: !events[i].Stop?
      ensures entries == RunEntries(Scheduled(old(entries), start), events[..handled])
      ensures log == RunLog(Scheduled(old(entries), start), events[..handled])
      ensures timers == RunTimers(Scheduled(old(entries), start), start, events[..handled])
    {
      hide Handle, Started, SortedByNext, TimerFor, NowAfter;
      InitializeEntries(start);
      ghost var initial := entries;
      var now := start;
      log, timers, handled := [], [], 0;
      while handled < |events|
        invariant 0 <= handled <= |events|
        invariant forall i | 0 <= i < handled :: !events[i].Stop?
        invariant entries == RunEntries(initial, events[..handled]) && log == RunLog(initial, events[..handled])
        invariant now == RunClock(start, events[..handled]) && timers == RunTimers(initial, start, events[..handled])
      {
        assert events[..handled + 1][..handled] == events[..handled] && |events[..handled + 1]| == handled + 1;
        var timer, replies, started, next, stop := Turn(now, snapshots[handled], events[handled]);
        now := next;
        timers := timers + [timer];
        log := log + started;
        handled := handled + 1;
        if stop {
          return;
        }
      }
    }
  }

  /** An added entry joins the others, which stay as they are, with the schedule it came with; its
      first activation is that schedule's next after the instant of the add, so it is later than
      that instant, or there is none. */
  lemma AddedIsAhead(entries: seq<Entry>, id: nat, schedule: Schedule, clock: Time)
    requires Proper(schedule)
    ensures var r := Handle(entries, Added(id, schedule, clock));
            && |r| == |entries| + 1 && r[..|entries|] == entries && r[|entries|].id == id
            && r[|entries|].schedule == schedule && r[|entries|].next == NextAfter(schedule, clock)
            && IsZero(r[|entries|].prev) && (IsZero(r[|entries|].next) || clock.instant < r[|entries|].next.instant)
  {
    hide NextAfter;
    NextIsLater(schedule, clock);
  }

  // ---------- the timer ----------

  /** The difference of two times, saturated to a 64-bit duration. */
  function Sub(t: Time, u: Time): int {
    var d := t.instant - u.instant;
    if d > MAX_INT64 then MAX_INT64 else if d < MIN_INT64 then MIN_INT64 else d
  }

  function TimerFor(entries: seq<Entry>, now: Time): int {
    if |entries| == 0 || IsZero(entries[0].next) then IDLE_TIMER else Sub(entries[0].next, now)
  }

  /** The time from `now` on, or back, to `at`, as far as 64 bits hold it. */
  predicate IsWait(timer: int, now: Time, at: Time) {
    var d := at.instant - now.instant;
    timer == if d > 0x7FFF_FFFF_FFFF_FFFF then 0x7FFF_FFFF_FFFF_FFFF
             else if d < -0x8000_0000_0000_0000 then -0x8000_0000_0000_0000 else d
  }

  /** A wait until the least non-zero next activation of all entries, or of 100000 hours if there
      is none. */
  ghost predicate ForTheEarliest(entries: seq<Entry>, now: Time, timer: int) {
    if forall e | e in entries :: IsZero(e.next) then timer == 360_000_000_000_000_000
    else exists e :: e in entries && !IsZero(e.next) && IsWait(timer, now, e.next) &&
           forall other | other in entries && !IsZero(other.next) :: e.next.instant <= other.next.instant
  }

  /** After sorting, the timer is armed for the earliest. */
  lemma TimerIsForTheEarliest(entries: seq<Entry>, now: Time)
    ensures ForTheEarliest(entries, now, TimerFor(SortedByNext(entries), now))
  {
    var sorted := SortedByNext(entries);
    hide Compare, SortedByNext, IsZero;
    SortSorts(entries);
    SortMembers(entries);
    if forall e | e in entries :: IsZero(e.next) {
      assert sorted != [] ==> sorted[0] in entries;
    } else {
      var late :| late in entries && !IsZero(late.next);
      var head := sorted[0];
      forall e | e in entries && !IsZero(e.next) ensures !IsZero(head.next) && head.next.instant <= e.next.instant {
        HeadIsLeast(sorted, e);
        CompareIsTotalOrder(head, e, e);
      }
      assert head in entries && !IsZero(head.next) && TimerFor(sorted, now) == Sub(head.next, now);
    }
  }

  lemma SortMembers(entries: seq<Entry>)
    ensures forall e :: e in SortedByNext(entries) <==> e in entries
  {
    var sorted := SortedByNext(entries);
    hide SortedByNext;
    SortSorts(entries);
    forall e ensures e in sorted <==> e in entries {
      assert e in multiset(sorted) <==> e in multiset(entries);
    }
  }

  // ---------- a whole run ----------

  function RunEntries(entries: seq<Entry>, events: seq<Event>): seq<Entry>
    decreases |events|
  {
    if events == [] then entries
    else
      var before := RunEntries(entries, events[..|events| - 1]);
      Handle(SortedByNext(before), events[|events| - 1])
  }

  /** Everything started over the run, in order. */
  function RunLog(entries: seq<Entry>, events: seq<Event>): seq<Firing>
    decreases |events|
  {
    if events == [] then []
    else
      var earlier := events[..|events| - 1];
      RunLog(entries, earlier) + Started(SortedByNext(RunEntries(entries, earlier)), events[|events| - 1])
  }

  /** The instant from which the timer of the turn after these events counts. */
  function RunClock(start: Time, events: seq<Event>): Time
    decreases |events|
  {
    if events == [] then start else NowAfter(RunClock(start, events[..|events| - 1]), events[|events| - 1])
  }

  /** The timer of each turn, in order. */
  function RunTimers(entries: seq<Entry>, start: Time, events: seq<Event>): (timers: seq<int>)
    ensures |timers| == |events|
    decreases |events|
  {
    if events == [] then []
    else
      var earlier := events[..|events| - 1];
      RunTimers(entries, start, earlier) +
      [TimerFor(SortedByNext(RunEntries(entries, earlier)), RunClock(start, earlier))]
  }

  /** The clock as it was last read: by the event before, or at the start. */
  predicate LastRead(start: Time, events: seq<Event>, k: nat, now: Time)
    requires k <= |events|
  {
    if k == 0 then now == start
    else match events[k - 1]
         case Wake(firedAt) => now == firedAt
         case Added(_, _, clock) => now == clock
         case Removed(_, clock) => now == clock
         case Stop => true
  }

  /** On every turn of a run the timer is armed for the earliest activation of the entries as they
      then are, counted from the instant of the event before. */
  lemma {:induction false} EveryTimerIsForTheEarliest(entries: seq<Entry>, start: Time, events: seq<Event>, k: nat)
    requires k < |events|
    ensures LastRead(start, events, k, RunClock(start, events[..k]))
    ensures ForTheEarliest(RunEntries(entries, events[..k]), RunClock(start, events[..k]),
                           RunTimers(entries, start, events)[k])
    decreases |events|
  {
    ClockIsLastRead(start, events, k);
    hide ForTheEarliest, TimerFor, SortedByNext, RunEntries, RunClock, LastRead;
    var earlier := events[..|events| - 1];
    if k == |events| - 1 {
      TimerIsForTheEarliest(RunEntries(entries, earlier), RunClock(start, earlier));
    } else {
      EveryTimerIsForTheEarliest(entries, start, earlier, k);
      assert earlier[..k] == events[..k];
    }
  }

  lemma ClockIsLastRead(start: Time, events: seq<Event>, k: nat)
    requires k <= |events|
    ensures LastRead(start, events, k, RunClock(start, events[..k]))
  {
    assert k > 0 ==> events[..k][..k - 1] == events[..k - 1];
  }

  /** Ids are never reused: an added id is new to the entries and to all earlier adds. */
  predicate FreshAdds(entries: seq<Entry>, events: seq<Event>) {
    && (forall i, e | 0 <= i < |events| && events[i].Added? && e in entries :: e.id != events[i].id)
    && (forall i, j | 0 <= i < j < |events| && events[i].Added? && events[j].Added? :: events[i].id != events[j].id)
  }

  predicate ProperEvents(events: seq<Event>) {
    forall i | 0 <= i < |events| && events[i].Added? :: Proper(events[i].schedule)
  }

  predicate ProperEntries(entries: seq<Entry>) {
    forall i | 0 <= i < |entries| :: Proper(entries[i].schedule)
  }

  /** Every firing logged for an entry lies before its next activation, and its last one is
      recorded in `prev`. */
  ghost predicate LogBehind(log: seq<Firing>, entries: seq<Entry>) {
    forall k, e | 0 <= k < |log| && e in entries && log[k].id == e.id ::
      log[k].at.instant <= e.prev.instant && (IsZero(e.next) || log[k].at.instant < e.next.instant)
  }

  ghost predicate LogIncreases(log: seq<Firing>) {
    forall j, k | 0 <= j < k < |log| && log[j].id == log[k].id :: log[j].at.instant < log[k].at.instant
  }

  /** Ids in the log or in the entries come from the start or from an add. */
  ghost predicate KnownIds(log: seq<Firing>, current: seq<Entry>, entries: seq<Entry>, events: seq<Event>) {
    && (forall k | 0 <= k < |log| :: KnownId(log[k].id, entries, events))
    && (forall e | e in current :: KnownId(e.id, entries, events))
  }

  ghost predicate KnownId(id: nat, entries: seq<Entry>, events: seq<Event>) {
    || (exists e :: e in entries && e.id == id)
    || (exists i :: 0 <= i < |events| && events[i].Added? && events[i].id == id)
  }

  lemma KnownIdGrows(id: nat, entries: seq<Entry>, events: seq<Event>)
    requires events != [] && KnownId(id, entries, events[..|events| - 1])
    ensures KnownId(id, entries, events)
  {
    var earlier := events[..|events| - 1];
    if i :| 0 <= i < |earlier| && earlier[i].Added? && earlier[i].id == id {
      assert events[i] == earlier[i];
    }
  }

  /** What every event of a run keeps. */
  ghost predicate RunInvariant(log: seq<Firing>, current: seq<Entry>) {
    DistinctIds(current) && ProperEntries(current) && LogIncreases(log) && LogBehind(log, current)
  }

  lemma SortKeepsInvariant(log: seq<Firing>, current: seq<Entry>)
    requires RunInvariant(log, current)
    ensures RunInvariant(log, SortedByNext(current))
    ensures forall e :: e in SortedByNext(current) <==> e in current
  {
    var sorted := SortedByNext(current);
    SortSorts(current);
    SortMembers(current);
    hide SortedByNext;
    PermutationKeepsDistinct(current, sorted);
    forall i | 0 <= i < |sorted| ensures Proper(sorted[i].schedule) {
      assert sorted[i] in current;
    }
  }

  /** Firing moves an entry's next activation to the one that its schedule has after the wake, past
      the instant it fired at, or to none. */
  lemma FireMovesOn(e: Entry, now: Time)
    requires Proper(e.schedule)
    ensures var f := Fire(e, now);
            f.id == e.id && f.schedule == e.schedule &&
            (IsDue(e, now) ==> f.next == NextAfter(e.schedule, now)) &&
            (IsDue(e, now) ==> f.prev == e.next && (IsZero(f.next) || f.prev.instant < f.next.instant)) &&
            (!IsDue(e, now) ==> f == e)
  {
    hide NextAfter;
    NextIsLater(e.schedule, now);
  }

  lemma WakeKeepsInvariant(log: seq<Firing>, entries: seq<Entry>, now: Time)
    requires RunInvariant(log, entries)
    ensures RunInvariant(log + DueFirings(entries, now), FireAll(entries, now))
  {
    var r, started := FireAll(entries, now), DueFirings(entries, now);
    hide Fire, IsDue;
    FiringsAreTheDue(entries, now);
    forall i | 0 <= i < |r| ensures r[i].id == entries[i].id && Proper(r[i].schedule) { FireMovesOn(entries[i], now); }
    FiringsIncrease(log, entries, now);
    forall k, e | 0 <= k < |log + started| && e in r && (log + started)[k].id == e.id
      ensures (log + started)[k].at.instant <= e.prev.instant
      ensures IsZero(e.next) || (log + started)[k].at.instant < e.next.instant
    {
      var i :| 0 <= i < |r| && r[i] == e;
      FiringBehind(log, entries, now, i, k);
    }
  }

  lemma FiringBehind(log: seq<Firing>, entries: seq<Entry>, now: Time, i: nat, k: nat)
    requires RunInvariant(log, entries) && i < |entries|
    requires var all := log + DueFirings(entries, now); k < |all| && all[k].id == entries[i].id
    ensures var f, at := Fire(entries[i], now), (log + DueFirings(entries, now))[k].at.instant;
            at <= f.prev.instant && (IsZero(f.next) || at < f.next.instant)
  {
    var started := DueFirings(entries, now);
    FiringsAreTheDue(entries, now);
    FireMovesOn(entries[i], now);
    hide Fire;
    if k < |log| {
      assert log[k].at.instant <= entries[i].prev.instant;
    } else {
      var f := started[k - |log|];
      assert f in started;
      var e :| e in entries && IsDue(e, now) && f == Firing(e.id, e.next);
      SameIdSameEntry(entries, e, entries[i]);
    }
  }

  lemma FiringsIncrease(log: seq<Firing>, entries: seq<Entry>, now: Time)
    requires RunInvariant(log, entries)
    ensures LogIncreases(log + DueFirings(entries, now))
  {
    var started := DueFirings(entries, now);
    var all := log + started;
    FiringsAreTheDue(entries, now);
    forall j, k | 0 <= j < k < |all| && all[j].id == all[k].id ensures all[j].at.instant < all[k].at.instant {
      if k >= |log| {
        var f := started[k - |log|];
        assert f in started;
        var e :| e in entries && IsDue(e, now) && f == Firing(e.id, e.next);
        assert j < |log| ==> log[j].id == e.id;
      }
    }
  }

  lemma {:induction false} WithoutMembers(entries: seq<Entry>, id: nat)
    ensures forall e :: e in Without(entries, id) <==> e in entries && e.id != id
    ensures DistinctIds(entries) ==> DistinctIds(Without(entries, id))
    ensures Sorted(entries) ==> Sorted(Without(entries, id))
  {
    if entries != [] {
      var rest := Without(entries[1..], id);
      WithoutMembers(entries[1..], id);
      assert forall e :: e in entries <==> e == entries[0] || e in entries[1..];
      if DistinctIds(entries) && entries[0].id != id {
        forall k | 0 <= k < |rest| ensures rest[k].id != entries[0].id {
          assert rest[k] in rest;
        }
      }
      if Sorted(entries) && entries[0].id != id {
        forall y | y in rest ensures Compare(entries[0], y) <= 0 { HeadIsLeast(entries, y); }
        SortedCons(entries[0], rest);
      }
    }
  }

  lemma RemoveKeepsInvariant(log: seq<Firing>, entries: seq<Entry>, id: nat)
    requires RunInvariant(log, entries)
    ensures RunInvariant(log, Without(entries, id))
  {
    WithoutMembers(entries, id);
    var r := Without(entries, id);
    forall i | 0 <= i < |r| ensures Proper(r[i].schedule) {
      assert r[i] in entries;
    }
  }

  lemma AddKeepsInvariant(log: seq<Firing>, entries: seq<Entry>, event: Event)
    requires RunInvariant(log, entries) && event.Added? && Proper(event.schedule)
    requires forall e | e in entries :: e.id != event.id
    requires forall k | 0 <= k < |log| :: log[k].id != event.id
    ensures RunInvariant(log, Handle(entries, event))
  {
    hide NextAfter;
  }

  lemma StartedKnown(current: seq<Entry>, event: Event, entries: seq<Entry>, events: seq<Event>)
    requires forall e | e in current :: KnownId(e.id, entries, events)
    ensures forall f | f in Started(current, event) :: KnownId(f.id, entries, events)
  {
    hide KnownId, IsDue;
    if event.Wake? { FiringsAreTheDue(current, event.firedAt); }
  }

  lemma HandledKnown(current: seq<Entry>, event: Event, entries: seq<Entry>, events: seq<Event>)
    requires forall e | e in current :: KnownId(e.id, entries, events)
    requires event.Added? ==> KnownId(event.id, entries, events)
    ensures forall e | e in Handle(current, event) :: KnownId(e.id, entries, events)
  {
    hide KnownId, NextAfter;
    match event {
      case Wake(firedAt) =>
        var r := FireAll(current, firedAt);
        forall e | e in r ensures KnownId(e.id, entries, events) {
          var i :| 0 <= i < |r| && r[i] == e;
          assert current[i] in current && current[i].id == e.id;
        }
      case Added(_, _, _) =>
      case Removed(id, _) => WithoutMembers(current, id);
      case Stop =>
    }
  }

  lemma UnknownBeforeItsAdd(entries: seq<Entry>, events: seq<Event>, id: nat)
    requires FreshAdds(entries, events) && events != []
    requires events[|events| - 1].Added? && events[|events| - 1].id == id
    ensures !KnownId(id, entries, events[..|events| - 1])
  {
  }

  /** Over a whole run, whatever instants the clock and the timer deliver: the scheduled
      times at which an entry fires strictly increase, so none fires twice; every firing lies
      before the entry's next activation, which is zero or later than the last one. */
  lemma {:induction false} RunNeverFiresTwice(entries: seq<Entry>, events: seq<Event>)
    requires DistinctIds(entries) && ProperEntries(entries) && ProperEvents(events) && FreshAdds(entries, events)
    ensures RunInvariant(RunLog(entries, events), RunEntries(entries, events))
    ensures KnownIds(RunLog(entries, events), RunEntries(entries, events), entries, events)
    decreases |events|
  {
    if events == [] {
      assert forall e :: e in entries ==> KnownId(e.id, entries, events);
    } else {
      var earlier, event := events[..|events| - 1], events[|events| - 1];
      RunNeverFiresTwice(entries, earlier);
      var log, current := RunLog(entries, earlier), RunEntries(entries, earlier);
      RunStep(log, current, entries, events);
    }
  }

  lemma RunStep(log: seq<Firing>, current: seq<Entry>, entries: seq<Entry>, events: seq<Event>)
    requires events != [] && FreshAdds(entries, events) && ProperEvents(events)
    requires RunInvariant(log, current) && KnownIds(log, current, entries, events[..|events| - 1])
    ensures var sorted, event := SortedByNext(current), events[|events| - 1];
            RunInvariant(log + Started(sorted, event), Handle(sorted, event)) &&
            KnownIds(log + Started(sorted, event), Handle(sorted, event), entries, events)
  {
    var event := events[|events| - 1];
    var sorted := SortedByNext(current);
    SortKeepsInvariant(log, current);
    hide RunInvariant, SortedByNext, KnownId;
    forall e | e in sorted ensures KnownId(e.id, entries, events) { KnownIdGrows(e.id, entries, events); }
    forall k | 0 <= k < |log| ensures KnownId(log[k].id, entries, events) { KnownIdGrows(log[k].id, entries, events); }
    if event.Added? { AddedIsKnown(entries, events); }
    StartedKnown(sorted, event, entries, events);
    HandledKnown(sorted, event, entries, events);
    match event {
      case Wake(firedAt) => WakeKeepsInvariant(log, sorted, firedAt);
      case Added(id, _, _) =>
        UnknownBeforeItsAdd(entries, events, id);
        assert log + [] == log;
        AddKeepsInvariant(log, sorted, event);
      case Removed(id, _) =>
        assert log + [] == log;
        RemoveKeepsInvariant(log, sorted, id);
      case Stop => assert log + [] == log;
    }
  }

  lemma AddedIsKnown(entries: seq<Entry>, events: seq<Event>)
    requires events != [] && events[|events| - 1].Added?
    ensures KnownId(events[|events| - 1].id, entries, events)
  {
  }

  // ---------- after a removal ----------

  predicate HasId(entries: seq<Entry>, id: nat) {
    exists i :: 0 <= i < |entries| && entries[i].id == id
  }

  /** An id that is known cannot be that of a later add. */
  lemma KnownIsNotAdded(entries: seq<Entry>, events: seq<Event>, k: nat, n: nat, id: nat)
    requires FreshAdds(entries, events) && k <= n < |events| && KnownId(id, entries, events[..k]) && events[n].Added?
    ensures events[n].id != id
  {
    if i :| 0 <= i < |events[..k]| && events[..k][i].Added? && events[..k][i].id == id {
      assert events[i].Added? && events[i].id == id;
    }
  }

  /** One event does not bring back an id that is not there, nor fire it. */
  lemma StaysAway(current: seq<Entry>, event: Event, id: nat)
    requires !HasId(current, id) && (event.Added? ==> event.id != id)
    ensures var sorted := SortedByNext(current);
            && !HasId(Handle(sorted, event), id)
            && forall j | 0 <= j < |Started(sorted, event)| :: Started(sorted, event)[j].id != id
  {
    var sorted := SortedByNext(current);
    SortMembers(current);
    assert forall e | e in sorted :: e.id != id;
    hide SortedByNext, IsDue, NextAfter;
    match event {
      case Wake(firedAt) => NeverFiresIfAway(sorted, firedAt, id);
      case Added(_, _, _) =>
        forall i | 0 <= i < |sorted| ensures sorted[i].id != id { assert sorted[i] in sorted; }
      case Removed(other, _) =>
        WithoutMembers(sorted, other);
        var rest := Without(sorted, other);
        forall i | 0 <= i < |rest| ensures rest[i].id != id { assert rest[i] in rest; }
      case Stop =>
        forall i | 0 <= i < |sorted| ensures sorted[i].id != id { assert sorted[i] in sorted; }
    }
  }

  lemma NeverFiresIfAway(entries: seq<Entry>, now: Time, id: nat)
    requires forall e | e in entries :: e.id != id
    ensures !HasId(FireAll(entries, now), id)
    ensures forall j | 0 <= j < |DueFirings(entries, now)| :: DueFirings(entries, now)[j].id != id
  {
    var fired := DueFirings(entries, now);
    hide IsDue, NextAfter;
    FiringsAreTheDue(entries, now);
    forall i | 0 <= i < |entries| ensures FireAll(entries, now)[i].id != id { assert entries[i] in entries; }
    forall j | 0 <= j < |fired| ensures fired[j].id != id {
      assert fired[j] in fired;
      var e :| e in entries && IsDue(e, now) && fired[j] == Firing(e.id, e.next);
    }
  }

  lemma RemovalTakesEffect(current: seq<Entry>, id: nat, clock: Time)
    ensures !HasId(Handle(SortedByNext(current), Removed(id, clock)), id)
  {
    var sorted := SortedByNext(current);
    hide SortedByNext;
    WithoutMembers(sorted, id);
    var rest := Without(sorted, id);
    forall i | 0 <= i < |rest| ensures rest[i].id != id { assert rest[i] in rest; }
  }

  lemma RunOfPrefix(entries: seq<Entry>, events: seq<Event>, n: nat)
    requires n < |events|
    ensures var current := RunEntries(entries, events[..n]);
            && RunEntries(entries, events[..n + 1]) == Handle(SortedByNext(current), events[n])
            && RunLog(entries, events[..n + 1]) ==
               RunLog(entries, events[..n]) + Started(SortedByNext(current), events[n])
  {
    assert events[..n + 1][..n] == events[..n] && |events[..n + 1]| == n + 1;
    hide Handle, Started, SortedByNext;
  }

  lemma PresentIsKnown(entries: seq<Entry>, events: seq<Event>, k: nat, id: nat)
    requires DistinctIds(entries) && ProperEntries(entries) && ProperEvents(events) && FreshAdds(entries, events)
    requires k <= |events| && HasId(RunEntries(entries, events[..k]), id)
    ensures KnownId(id, entries, events[..k])
  {
    hide RunEntries, RunLog, RunInvariant, KnownId;
    RunNeverFiresTwice(entries, events[..k]);
    var current := RunEntries(entries, events[..k]);
    var i :| 0 <= i < |current| && current[i].id == id;
    assert current[i] in current;
  }

  /** The later log goes on from the earlier one without a firing of the id. */
  predicate NoneLater(earlier: seq<Firing>, later: seq<Firing>, id: nat) {
    earlier <= later && forall j | |earlier| <= j < |later| :: later[j].id != id
  }

  lemma NoneLaterGrows(earlier: seq<Firing>, later: seq<Firing>, more: seq<Firing>, id: nat)
    requires NoneLater(earlier, later, id) && forall j | 0 <= j < |more| :: more[j].id != id
    ensures NoneLater(earlier, later + more, id)
  {
  }

  lemma RemovalStep(entries: seq<Entry>, events: seq<Event>, k: nat)
    requires k < |events| && events[k].Removed?
    ensures !HasId(RunEntries(entries, events[..k + 1]), events[k].id)
    ensures RunLog(entries, events[..k + 1]) == RunLog(entries, events[..k])
  {
    var current := RunEntries(entries, events[..k]);
    RunOfPrefix(entries, events, k);
    assert Started(SortedByNext(current), events[k]) == [];
    hide RunEntries, RunLog, Handle, Started, SortedByNext, HasId;
    RemovalTakesEffect(current, events[k].id, events[k].clock);
  }

  lemma LaterStep(entries: seq<Entry>, events: seq<Event>, n: nat, id: nat, before: seq<Firing>)
    requires n < |events| && !HasId(RunEntries(entries, events[..n]), id) && (events[n].Added? ==> events[n].id != id)
    requires NoneLater(before, RunLog(entries, events[..n]), id)
    ensures !HasId(RunEntries(entries, events[..n + 1]), id) && NoneLater(before, RunLog(entries, events[..n + 1]), id)
  {
    var current := RunEntries(entries, events[..n]);
    hide RunEntries, RunLog, Handle, Started, SortedByNext, HasId, NoneLater;
    RunOfPrefix(entries, events, n);
    StaysAway(current, events[n], id);
    NoneLaterGrows(before, RunLog(entries, events[..n]), Started(SortedByNext(current), events[n]), id);
  }

  /** After the removal of an entry that is there, the run never fires it again and it never
      comes back. */
  lemma {:induction false} RemovedNeverFires(entries: seq<Entry>, events: seq<Event>, k: nat, n: nat)
    requires DistinctIds(entries) && ProperEntries(entries) && ProperEvents(events) && FreshAdds(entries, events)
    requires k < n <= |events| && events[k].Removed? && HasId(RunEntries(entries, events[..k]), events[k].id)
    ensures !HasId(RunEntries(entries, events[..n]), events[k].id)
    ensures NoneLater(RunLog(entries, events[..k]), RunLog(entries, events[..n]), events[k].id)
    decreases n
  {
    hide RunEntries, RunLog, HasId, KnownId, DistinctIds, ProperEntries, ProperEvents, FreshAdds;
    if n == k + 1 {
      RemovalStep(entries, events, k);
    } else {
      hide NoneLater;
      RemovedNeverFires(entries, events, k, n - 1);
      PresentIsKnown(entries, events, k, events[k].id);
      if events[n - 1].Added? { KnownIsNotAdded(entries, events, k, n - 1, events[k].id); }
      LaterStep(entries, events, n - 1, events[k].id, RunLog(entries, events[..k]));
    }
  }
}
