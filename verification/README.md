# A model of the cron library, with proofs

This project models the Go package `cron` in Dafny and proves what its parts promise: that
the jumping search for the next activation finds what trying every second would find, that
parsing and printing schedules undo each other where they can, that the scheduler loop fires
exactly what is due, and that callers, loops and job goroutines may interleave in any way
without losing a run or a job and, outside one race that is described exactly, without losing an
entry or undoing the removal of one.

`dafny verify dfyconfig.toml` checks the whole project.

## How the model is laid out

| file | source | what it models |
|---|---|---|
| `Bits.dfy` | spec.go, parser.go | `uint64` bit sets as 64 bits, shifts that lose what leaves the word, the star bit |
| `Calendar.dfy` | Go's `time` | the proleptic Gregorian calendar, `time.Date` and `AddDate` with their normalisation |
| `Spec.dfy` | spec.go | the search: a class with the mutable `added` flag and the five `advance` loops |
| `Activation.dfy` | spec.go | `Next` on instants with nanoseconds, against a second-by-second scan |
| `Schedule.dfy` | constantdelay.go, schedule.go | `Every`, both schedules behind one `Next`, `NextN` |
| `Text.dfy`, `Parser.dfy`, `Fields.dfy` | parser.go | text to bits: ranges, fields, optional fields, whole specifications |
| `Printer.dfy` | spec.go | `String`, and reading its output back |
| `Coverage.dfy` | spec.go, parser.go | when a parsed schedule has a next activation; when printing keeps its meaning |
| `Zones.dfy` | spec.go, parser.go | printing and parsing a schedule that has a zone of its own |
| `Readings.dfy` | parser.go | the same in plain terms: names, numbers, ranges, steps, the standard parser, zones |
| `Scheduler.dfy` | cron.go | one run of the loop: a class over its entries, and its whole log |
| `Punctual.dfy` | cron.go | what a run does not miss |
| `Lifecycle*.dfy`, `Histories.dfy` | cron.go | runs, mutex, channels and jobs as a step relation over interleaved callers |
| `StopTheorems.dfy` | cron.go | whose contexts Stop and Shutdown cancel, and what the cleanup of runs leaves |
| `EntryConservation.dfy`, `EntryFlow.dfy`, `EntryRemoval.dfy` | cron.go | where every entry is, and that a removed one is gone |
| `RestartRace.dfy` | cron.go | the race with a restart that can lose an entry or bring back a removed one |
| `Chain.dfy` | chain.go | wrapper order, concurrency tokens, retries |

Code that works by loops and assignments is modelled by methods with loops, each proved equal
to a specification function or to a stated property; the laws are then lemmas about those
functions. Concurrent code is a transition system: `Lifecycle.Enabled` and `Lifecycle.Apply`
give one step, and the theorems speak of every history.

Time is an integer number of nanoseconds; a zone is a fixed whole number of minutes. Clock
readings, the instants that timers deliver, the outcomes of jobs and of waits, and the zone
database are parameters.

## What is proved

* **Search.** `Find` satisfies its contract for every bit set, empty ones included, and always
  ends. The invariant of the search is `NextActivationState.Inv`: nothing that matches lies
  between the start and the candidate, an unset `added` means the candidate is still the
  start, and a set one means every field below the highest mismatching one is at its minimum.
  `Next` is then the least due instant after its argument up to the horizon, it is constant on
  gaps, and it is monotone.
* **Text.** The grammar of range items is given a meaning of its own (`Parser.Meaning`), and
  the parser is shown to compute it: each accepted text is an item, each item is read as the
  progression it stands for, and it is refused exactly when it stands for none. A field is the
  union of its items, and a whole specification is accepted exactly when all of them stand for
  something. A star bit always comes with the full range, so on a parsed schedule a starred day
  field leaves the decision to the other. `Readings.dfy` says the same without `Meaning`: which
  names, numbers, ranges and steps are read as what, which place each field of a specification
  goes to, and what a zone in front of it does. Printing and reading back restores every field up to
  the star of a full one.
* **Exact conditions for what does not always hold.** Each is an *if and only if*, and each comes
  with a concrete case in which the natural statement fails:
  * a parsed schedule, with empty fields or without, finds an activation exactly under the
    condition of `Coverage.NextFoundExactly` (fails: `Coverage.HorizonMissesLeapDay`);
  * a field, and a specification, selects something exactly when there is more in it than commas
    (`Parser.FieldSelectsSomething`, `Fields.SpecSelectsSomething`);
  * the zero time means that there is no activation, except where the zero instant is the next
    one (`Activation.ZeroTimeExactly`; fails: `Coverage.ZeroInstantReadsAsNone`);
  * what the parser returns for a printed schedule has the same `Next` at every time
    (`Zones.PrintAndParseKeepNextExactly`): without a zone of its own, exactly when
    `Coverage.Diverges` does not hold (fails: `Coverage.PrintingCanChangeMeaning`); with one,
    exactly when the schedule restricts nothing above the second or can never match, because Dow
    is starred and no selected month ever has a selected day (fails: `Zones.PrintingLosesTheZone`);
  * entries are conserved and removed ones are gone as long as no run is published while an add or
    remove waits, and from every reachable state in which that happens a loss is possible, and so
    is undoing a removal (see below).
* **Scheduler.** Sorting makes the early `break` of the firing loop sound, on every turn the timer
  is armed for the earliest activation, and over any run, whatever the clock does, no entry fires
  twice for the same scheduled time and none fires after it was removed. Nor is anything missed: a
  wake fires exactly the entries for which an instant has become due since the start, their add or
  their last firing (`Punctual.WakeMissesNothing`).
* **Runs.** At most one loop is live; a holder of the mutex that has read `running` as true
  finds a current run; job counts and channels agree and each channel closes once; a `Stop`
  or `Shutdown` that returns nil leaves nothing of the runs started before it, for ever. Both end
  the loops of all earlier runs; `Stop` cancels the contexts of their jobs as well, and no call but
  a `Stop` ever does. The
  holder of the mutex releases it by its own steps alone; a loop needs the mutex only to start
  a job, once for each entry still to fire; so a call that waits at its select is served or
  released, and a cancelled loop can end, by the steps of that loop and of mutex holders only.
  No wait is cyclic.
* **Entries.** In a history in which no run is published while an add or remove waits for the
  loop of an older one, every id handed out and not removed ends up among the entries exactly
  once, and one that was there when a `Remove` named it is gone. Conversely, from any reachable
  state in which a run is published while one waits, the history can go on so that an id is lost
  for ever: that of the waiting add, or that of another add if it is a remove that waits. It can
  also go on so that an entry a `Remove` has taken out is put back; a waiting remove of an entry
  that is there can itself be undone in this way. `RestartRace.AnAddIsLostToARestart` and
  `RestartRace.ARemoveIsUndoneByARestart` are such histories from the start.

## Where the code and its documentation differ

The model follows the code.

* doc.go:228-231 says that `NewChain(Timeout, RetryOnError)` gives each attempt its own
  timeout. By chain.go:40-46 it is the other way round (`Chains.DeadlinesByOrder`).
* spec.go:125-128 says the printed expression can be parsed again. It can, but the schedule
  read back differs when one day field is full without a star and the other is restricted
  (`Coverage.ReparsedSameNextExactly`), the text names no zone, so that a schedule with a zone of
  its own is read back without it, which changes its `Next` in all but two cases
  (`Zones.ZonedSameNextExactly`), and a schedule with an empty field prints a text that is refused
  (`Printer.ScheduleRoundTrip`).
* spec.go:112-113 says the zero time means that no time satisfies the schedule. The search
  stops after the fifth year: 29 February asked from March 2096 yields none
  (`Coverage.HorizonMissesLeapDay`). An activation at the zero instant itself also reads as
  none (`Coverage.ZeroInstantReadsAsNone`); `Activation.NextActivation` keeps the two apart and
  `NextTime` merges them, as the source does.
* parser.go:205-207 describes a field as a list of ranges; one made of commas alone is
  accepted and selects nothing (`Parser.FieldSelectsSomething`).
* The unknown-optional error of parser.go:400-401 cannot occur: `Fields.NormalizeAccepts`
  gives the exact condition for acceptance, and every refusal is a field count or a double
  optional.

## Model

| member | source | states |
|---|---|---|
| Bits.HasBitReads | spec.go:374-376 | the mask test reads exactly the bit at the position, and there is none from 64 on |
| Bits.StarredIsBit63 | spec.go:22-23 | the star test reads exactly bit 63 |
| Calendar.CivilUnique | spec.go:281-295 | a day has exactly one reading as year, month and day of the month |
| Calendar.DateOfReading | spec.go:297-325 | reading a moment and naming it again with `time.Date` gives the moment |
| Calendar.ReadingOfDate | spec.go:297-325 | naming a valid date and reading it gives back all six fields |
| Calendar.MonthSpan | spec.go:216-227 | a month is one stretch of time over which year and month do not change |
| Calendar.NextMonthFromFirst | spec.go:219 | from the first of a month at midnight, `AddDate(0, 1, 0)` is the end of that month, December included |
| Calendar.NextDayFromMidnight | spec.go:232 | from midnight, `AddDate(0, 0, 1)` is the next midnight |
| Calendar.CalendarIsGregorian | spec.go:281-295 | the lengths of years and months in plain numbers, the weekdays in turn, and 1 January 1970 as a Thursday 62135596800 seconds after the zero time |
| Calendar.YearOrder | spec.go:160 | years are ordered as the instants are: the year test of the search is a test against 1 January |
| Spec.AlignedAtMonthBegin | spec.go:216-227 | at the start of a month every lower field is at its minimum, whatever matches |
| Spec.AlignedAtNextDay | spec.go:229-240 | the day after a day of a matching month is aligned, so a later pass may skip its reset |
| Spec.AlignedAtNextHour | spec.go:242-253 | likewise for the next hour of a matching day, midnight included |
| Spec.AlignedAtNextMinute | spec.go:255-266 | likewise for the next minute of a matching hour |
| Spec.AlignedAtNextSecond | spec.go:268-279 | likewise for the next second of a matching minute |
| Spec.NormalizeMidnightIsNearest | spec.go:348-358 | a whole hour after midday moves on to the next midnight, any other back to its own |
| Spec.NextActivationState.ResetMonth | spec.go:297-305 | unless `added`, moves to the start of the month; sets `added` |
| Spec.NextActivationState.ResetDay | spec.go:307-315 | unless `added`, moves to midnight; sets `added` |
| Spec.NextActivationState.ResetHour | spec.go:317-325 | unless `added`, moves to the start of the hour; sets `added` |
| Spec.NextActivationState.TruncateMinute | spec.go:327-335 | unless `added`, rounds absolute time down to a minute, which in such a zone is the start of the local minute |
| Spec.NextActivationState.TruncateSecond | spec.go:337-345 | sets `added` and changes nothing, since the candidate is a whole second |
| Spec.NextActivationState.AdvanceMonth | spec.go:216-227 | keeps the invariant; ends in a matching month of the same year, or strictly later at the start of a January |
| Spec.NextActivationState.AdvanceDay | spec.go:229-240 | keeps the invariant; ends on a matching day of the same month, or strictly later at the start of a month |
| Spec.NextActivationState.AdvanceHour | spec.go:242-253 | keeps the invariant; ends in a matching hour of the same day, or strictly later at a midnight |
| Spec.NextActivationState.AdvanceMinute | spec.go:255-266 | keeps the invariant; ends in a matching minute of the same hour, or strictly later at the start of an hour |
| Spec.NextActivationState.AdvanceSecond | spec.go:268-279 | keeps the invariant; ends at a matching second of the same minute, or strictly later at the start of a minute |
| Spec.NextActivationState.Advance | spec.go:172-201 | keeps the invariant; ends at a matching second, or strictly later than it began |
| Spec.NextActivationState.Find | spec.go:159-170 | ends for every bit set, with the first matching second from the start up to the year limit, or with none exactly when there is none |
| Activation.PrepareNextStart | spec.go:203-214 | the candidate is the next whole second after `t`, read in the schedule's zone or in that of `t` |
| Activation.ScanIsLeast | spec.go:112-123 | the second-by-second search finds the least match of its range |
| Activation.Next | spec.go:114-170 | the jumping search returns what the second-by-second search returns |
| Activation.NextIsLeastDue | spec.go:112-170 | `Next` is the least due instant strictly after `t` up to the end of the year start + 5; none exactly when there is none |
| Activation.NextLooksFiveYearsAhead | spec.go:114-157 | the same in plain numbers: an activation lies at most in the fifth year after that of the first whole second after `t`, and there is none only if nothing matches up to the end of that year |
| Activation.NextIsTheOne | spec.go:112-170 | only that instant answers the description |
| Activation.NextConstantOnGaps | spec.go:147-170 | from `t` up to its next activation the answer stays the same, later horizon or not |
| Activation.NextMonotone | spec.go:147-170 | a later start never gives an earlier activation |
| Activation.ZeroTimeExactly | spec.go:117-120 | the zero time is returned if and only if there is no activation or the zero instant itself is the next one; from that instant on it means that there is none |
| Coverage.ZeroInstantReadsAsNone | spec.go:117-120 | just before the zero instant every second has an activation, which reads as none and leaves `NextN` empty |
| Schedules.EveryIsProper | constantdelay.go:14-22 | a duration is rounded down to whole seconds, never below one, and still fits 64 bits |
| Schedules.DelayNext | constantdelay.go:26-28 | the next activation is on a whole second, later by at most the delay and by more than the delay less a second |
| Schedules.NextIsLater | cron.go:71-76 | for both schedules `Next` is zero or strictly later than its argument |
| Schedules.NextN | schedule.go:9-23 | the loop collects the activations one after the other |
| Schedules.ActivationsIncrease | schedule.go:9-23 | the list is strictly increasing from `after` on and shown in its zone |
| Schedules.ActivationsAreTheDueInstants | schedule.go:9-23 | up to its last element it holds exactly the due instants: none is skipped |
| Schedules.FewerIsPrefix | schedule.go:9-23 | a smaller count gives a prefix |
| Schedules.ShortOnlyWhenNothingIsDue | schedule.go:9-23 | a short list of a cron schedule means that nothing is due after its last element, or `after`, up to that element's own horizon; only before the zero instant can it also mean that the next activation is that instant |
| Schedules.DelayNeverEnds | schedule.go:9-23 | a list of a delay schedule is never short from the zero instant on |
| Text.FormatThenAtoi | parser.go:511-522 | a printed number is read back as the number |
| Text.SignedAtoi | parser.go:511-522 | leading zeros and a plus sign change nothing, a minus sign gives the negative number, and what does not fit 64 bits is no number |
| Text.NoLeadingZero | spec.go:390-400 | a printed number starts with a zero only if it is zero |
| Text.LowerInAnyCase | parser.go:497-505 | a text of small letters is what lowering makes of it however its letters are written |
| Text.WhiteSpace | parser.go:154 | the characters that separate fields, by code points |
| Text.TokensApart | parser.go:154 | texts on the two sides of a separator are read apart, however many separators there are |
| Text.JoinThenTokens | parser.go:211 | parts joined by a separator are found again |
| Parser.GetBits | parser.go:525-539 | for both forms bit i is set exactly when lower <= i <= upper and the step divides i - lower; the 64-bit counter never wraps |
| Parser.GetRange | parser.go:229-254 | the range as adjusted in place yields the word of the range, or the first error |
| Parser.GetField | parser.go:208-222 | the union of the comma items, or the first error |
| Parser.ItemIsReadAsMeant | parser.go:426-522 | every item of the grammar is read as the progression it stands for, and refused exactly when it stands for none |
| Readings.NamesInAnyCase | parser.go:497-505 | the months are 1 to 12 and the weekdays 0 to 6 from Sunday on, in capitals, small letters or mixed |
| Readings.NumbersAreRead | parser.go:507-522 | a number is read with leading zeros or without if it fits 64 bits, beside names too |
| Readings.NegativesAreRefused | parser.go:517-519 | a negative number is refused as such, and as no number if it does not fit |
| Readings.RangesAreRead | parser.go:229-254 | a star, a question mark, a value and two values with a hyphen give exactly these positions, the star bit with the first two only, or the error for what lies outside the bounds or out of order |
| Readings.StepsAreRead | parser.go:229-254 | with a step, a value stands for all from it on, a star keeps its bit only with a step of one, and zero is refused |
| Readings.TooManyPieces | parser.go:426-477 | a second slash is refused as such, and a second hyphen after a value |
| Readings.NegativeStepIsRefused | parser.go:426-446 | a negative step is refused, whatever stands before it |
| Readings.PlacesTake | parser.go:346-386 | each place takes exactly the numbers of its bounds, in plain figures, and sets exactly that bit |
| Parser.AcceptedIsItem | parser.go:229-254 | every accepted text is an item of the grammar |
| Parser.FieldIsUnion | parser.go:208-222 | a field is accepted exactly when all its items are, and then holds exactly their union |
| Parser.RangeIsParsedField | parser.go:447-457 | the bits of an item stay in bounds and its star comes with the full range, `*-x` and steps included |
| Parser.FieldIsParsedField | parser.go:208-254 | in any accepted field no bit leaves the bounds, and the star bit implies every bit of the range |
| Parser.FieldIsMeant | parser.go:208-254 | a field is accepted if and only if every comma item stands for a progression; bit i is set if and only if one of them contains i, the star bit if and only if one is the whole range |
| Parser.FieldSelectsSomething | parser.go:211-221 | an accepted field selects something if and only if it has a character other than a comma |
| Fields.CountPlaces | parser.go:287-300 | counts the enabled places |
| Fields.ExpandFields | parser.go:405-418 | the loop puts the given fields at the enabled places and defaults at the others |
| Fields.ExpandPlaces | parser.go:405-418 | read at the enabled places the result is the given list, at the others the defaults |
| Fields.NormalizeFields | parser.go:172-191 | the six fields in place, or the error |
| Fields.NormalizeAccepts | parser.go:256-313 | accepted exactly when at most one field is optional and the count fits; the unknown-optional error never occurs |
| Fields.FieldsInPlace | parser.go:388-418 | the list, with the default of an optional field that was left out, goes in order to the places second, minute, hour, day, month, weekday that the options name; the other places hold `0` or `*` |
| Fields.OmittedOptionalIsDefault | parser.go:388-403 | leaving out the optional field means the same as writing its default in its place |
| Fields.ScheduleIsMeant | parser.go:346-386 | six fields are accepted if and only if each comma item of each stands for something within the bounds of its own place; each word then says what its field says |
| Fields.ParseIsMeant | parser.go:135-165 | a specification is read as a schedule if and only if it is not empty, its zone is known, it is no descriptor, the count of its fields fits the options and each field is accepted; the schedule has that zone and says what the fields say |
| Fields.SpecSelectsSomething | parser.go:135-165 | a parsed schedule selects something in every field if and only if each written field has a character other than a comma |
| Readings.StandardFields | parser.go:126-131 | the standard parser takes exactly five fields and puts a second of `0` before them |
| Readings.StandardSchedule | parser.go:126-165 | it accepts five fields if and only if each is accepted at its own place from minute to weekday; the schedule says what they say, at second 0, and has no zone of its own |
| Readings.SomethingIsMissing | parser.go:315-338 | an empty specification, a zone without a name, and a zone without a schedule are refused, each with its error |
| Readings.ZoneInFront | parser.go:315-344 | after `TZ=` or `CRON_TZ=` and a name, the fields of the rest are read in the zone of that name, and an unknown name is refused |
| Fields.ParseGivesParsedSchedule | parser.go:135-165 | all six fields of a parsed schedule are in bounds, with stars only over full ranges |
| Fields.ParsedDayRule | spec.go:362-372 | on a parsed schedule the day of the month decides alone with a star in Dow, the weekday alone with a star in Dom, and either is enough without one |
| Printer.EnumerateBits | spec.go:390-400 | the set positions within the bounds, in decimal, in order |
| Printer.PositionsIncrease | spec.go:390-400 | the printed positions are exactly the set ones within the bounds, increasing, in decimal without leading zeros |
| Printer.FieldString | spec.go:379-386 | a star for a full field, the positions otherwise |
| Printer.String | spec.go:129-138 | the six printed fields with spaces between |
| Printer.FieldRoundTrip | spec.go:379-400 | reading a printed field restores its bits, up to the star of a full one |
| Printer.ScheduleRoundTrip | spec.go:125-138 | a printed schedule is read back with all bits up to the stars if every field selects something, and refused if one selects nothing |
| Printer.TextIsStable | spec.go:125-138 | printing what was read back gives the same text, and reading that changes nothing more |
| Coverage.MatchesOnBits | spec.go:362-376 | a moment matches if and only if the bits of its month, hour, minute and second are set and its day and weekday satisfy the day rule |
| Coverage.FoundByWeekday | spec.go:147-170 | a parsed schedule that selects a time of day, a month and, without a star in Dow, a weekday always finds an activation |
| Coverage.NextFoundExactly | spec.go:147-170 | for every parsed schedule, an activation is found if and only if hour, minute and second select something and either Dow has no star and weekday and month select something, or a day of the month is enough (Dow starred, or Dom not) and some selected month has a selected one in a common year or 29 February comes up within the horizon |
| Coverage.HorizonMissesLeapDay | spec.go:30 | 29 February asked from March 2096 yields none although 2104 has one |
| Coverage.ReparsedSameNextExactly | spec.go:362-386 | what the parser returns for the printed text has the same `Next`, asked in the schedule's zone, if and only if the day rule does not diverge; for a schedule without a zone of its own, the same `Next` altogether |
| Zones.ZonedSameNextExactly | spec.go:125-138 | a schedule with a zone of its own has, when printed and parsed again, the same `Next` at every time if and only if it restricts nothing above the second, or Dow is starred and no selected month ever has a selected day |
| Zones.PrintAndParseKeepNextExactly | spec.go:125-138 | for every parsed schedule whose six fields select something: what the parser returns for the printed text, and the exact condition under which it has the same `Next` at every time |
| Zones.PrintingLosesTheZone | spec.go:125-138 | midnight in a zone an hour ahead is read back as midnight of wherever it is asked |
| Coverage.PrintingCanChangeMeaning | spec.go:379-383 | `0 0 0 1-31 * 1`, printed and read back, has another `Next` |
| Coverage.SameMatches | spec.go:362-386 | a schedule that does not diverge matches the same moments when read back |
| Coverage.LostMoment | spec.go:362-386 | a schedule that diverges matches a moment that is lost when read back |
| Scheduler.CompareIsTotalOrder | cron.go:445-475 | a total order on entries with distinct ids that puts zero times last and, of equal times, the smaller id first |
| Scheduler.SortSorts | cron.go:441-443 | sorting gives a sorted arrangement of the same entries |
| Scheduler.SortIsUnique | cron.go:441-443 | with distinct ids there is only one, so the algorithm does not matter |
| Scheduler.Loop.InitializeEntries | cron.go:477-485 | every entry gets its next activation, nothing else changes |
| Scheduler.Loop.RunDueEntries | cron.go:527-538 | on sorted entries the early break skips nothing due: all due entries fire, no other is touched |
| Scheduler.FiringsAreTheDue | cron.go:527-538 | one wake starts each due entry exactly once, at its scheduled time, and no other |
| Scheduler.FiringsInOrder | cron.go:527-538 | the jobs of one wake are started in the order of their scheduled times, and of their ids where these are equal |
| Scheduler.TimerIsForTheEarliest | cron.go:509-517 | after sorting the timer is armed for the least non-zero activation of all entries, and idles exactly when there is none |
| Scheduler.AddedIsAhead | cron.go:540-547 | an added entry joins the others, which stay as they are, with its schedule and that schedule's next activation after the instant of the add |
| Scheduler.WithoutMembers | cron.go:648-650 | exactly the entries with other ids remain, each once and still sorted |
| Scheduler.Loop.Turn | cron.go:429-507 | one turn sorts, arms the timer, answers each request for a snapshot with the sorted entries, and handles the event that ends it: wake, add, remove or stop |
| Scheduler.Loop.SchedulerLoop | cron.go:424-439 | the entries, the log and the timers of a whole run, event by event, up to the first stop |
| Scheduler.EveryTimerIsForTheEarliest | cron.go:487-517 | on every turn of a run the timer is armed for the least non-zero activation of the entries as they then are, counted from the instant of the event before, and idles exactly when there is none |
| Scheduler.FireMovesOn | cron.go:532-534 | after firing, `Prev` is the old `Next`, and the new `Next` is the schedule's next after the wake, zero or later |
| Scheduler.RunNeverFiresTwice | cron.go:424-439 | over a whole run, whatever the clock does, the times at which an entry fires strictly increase and lie before its next activation |
| Scheduler.RemovedNeverFires | cron.go:239-262 | after the removal of an entry that is there, the run never fires it again and it never comes back |
| Punctual.FiredExactlyWhenReached | cron.go:527-538 | a turn starts a job for an entry if and only if it is a wake and the entry's next activation is there and not after the wake, that instant included |
| Punctual.NextIsSetBy | cron.go:477-546 | after every turn of a run each entry has the schedule it came with, and waits for that schedule's next activation after the start, its add or the wake that fired it last |
| Punctual.NextIsFirstDue | cron.go:71-76 | from the zero instant on that is the first instant at which the schedule is due, and zero if and only if there is none |
| Punctual.WaitsForTheFirst | cron.go:477-546 | so no due instant is passed over between the two |
| Punctual.WakeMissesNothing | cron.go:527-538 | a wake fires an entry if and only if an instant has become due for it since the start, its add or its last firing |
| LifecycleInvariant.FinishJobIsCounted | cron.go:577-592 | a finishing job is one of those counted; the channel it closes is open; it closes it exactly when it is the run's last |
| LifecycleTheorems.StepKeepsInv | cron.go:197-421 | every step of every caller, loop and job goroutine keeps the invariant |
| LifecycleTheorems.AtMostOneLoop | cron.go:271-301 | in every interleaving at most one loop is live; then `running` is true and it is the current run's |
| LifecycleTheorems.CurrentRunIsThere | cron.go:200-209 | a mutex holder that has read `running` as true finds a current run when it reads `loopDone` |
| LifecycleTheorems.JobsAreCounted | cron.go:561-592 | `activeJobs` is the number of unfinished jobs of the run, and `jobsDone` is there, and open, exactly when it is positive |
| LifecycleTheorems.EachChannelClosesOnce | cron.go:577-592 | the early return is never taken, and each channel is closed exactly once, when the run's last job finishes |
| LifecycleTheorems.OnlyFinishingCloses | cron.go:577-592 | no other step closes a `jobsDone` channel |
| LifecycleTheorems.FinishedForEver | cron.go:652-686 | a run that has left its loop and has no job in flight stays so |
| LifecycleTheorems.StopMeansFinished | cron.go:303-349 | when `Stop` or `Shutdown` returns nil, every run started before the call has finished, then and for ever |
| LifecycleTheorems.OnlyStopCancelsJobs | cron.go:316-335 | the contexts of jobs are cancelled by `Stop` or the caller's own context only, never by `Shutdown` |
| StopTheorems.OnlyStopCancels | cron.go:316-335 | over every history, the contexts of a run's jobs are cancelled by the caller's own context or by a call that was made as `Stop` |
| StopTheorems.ShutdownSparesJobs | cron.go:323-328 | no step of a call that was made as `Shutdown` cancels the contexts of jobs |
| StopTheorems.StopCancelsEarlierRuns | cron.go:320-338 | once either is past its cancelling step, every run that had not finished at it has its loop cancelled for good, and its jobs too if the call was made as `Stop` |
| StopTheorems.OnlyStopsCancelLoops | cron.go:320-338 | a loop is cancelled only by the caller's own context or by a call at its cancelling step |
| StopTheorems.NoLoopEndsByItself | cron.go:499-502 | in every history a loop that has left its select was cancelled |
| StopTheorems.FallsBackAfterTheEnd | cron.go:255-261 | an add or remove goes on by itself only after the loop it waited for was cancelled, left its select and closed `loopDone` |
| StopTheorems.CleanupBegins | cron.go:320-322 | a cleanup begins when `Stop` or `Shutdown` has the mutex, when `Start` does and nothing runs, when a waiting `Stop` finds a run without jobs, and when a job finishes; nowhere else |
| StopTheorems.CleanupIsExact | cron.go:667-686 | a cleanup drops every run that had finished when it began and none that has not finished when it ends, in place |
| LifecycleProgress.MutexHolderIsNeverStuck | cron.go:667-686 | in every reachable state whoever holds the mutex has a step to take |
| LifecycleProgress.MutexIsReleased | cron.go:667-686 | from every reachable state the mutex is released by steps of its holder alone, at most `StepsToRelease` of them: the holder waits for no loop, job or call |
| LifecycleProgress.LoopGoesOn | cron.go:415-421 | away from its select a loop can go on whoever holds the mutex, unless it is in the middle of firing |
| LifecycleProgress.FiringWaitsForTheMutex | cron.go:527-562 | in the middle of firing, while someone else holds the mutex, a loop neither goes on nor leaves nor receives |
| LifecycleProgress.LoopReachesSelect | cron.go:487-562 | a loop comes to its select, or to its end, by its own steps and those of the mutex holders it waits for, taking the mutex once for each entry still to fire |
| LifecycleProgress.CancelledLoopEnds | cron.go:415-421 | a cancelled loop can close `loopDone` in the same way: it needs the mutex once for each entry still to fire and not otherwise |
| LifecycleProgress.WaitingCallIsServed | cron.go:384-391 | a call at its select comes to be served or released by the steps of the loop it knows and of mutex holders, and by no others |
| EntryConservation.StepKeepsOwners | cron.go:360-394 | while no run is published beside a waiting add or remove, whoever is about to store the entries stores what follows from the entries as they still are |
| EntryConservation.StepKeepsPlaces | cron.go:360-394 | every step keeps every id handed out in exactly one place |
| EntryConservation.EntriesHaveOneOwner | cron.go:373-391 | an add or remove that touches the entries itself holds the mutex, and no loop is there |
| EntryConservation.EntriesAreConserved | cron.go:240-262 | once calls have returned and the loop has handled its events, each id handed out and not removed is among the entries exactly once, directly, through the channel or through the fallback |
| EntryRemoval.RemovedEntriesAreGone | cron.go:239-262 | an entry that is there when `Remove` is called is taken out, and no longer there, once calls have returned and the loop has handled its events, whichever way the request went |
| EntryFlow.LossNeedsARace | cron.go:380-391 | an id can be lost only after a run was published while an add or remove was waiting at its select or about to fall back |
| EntryFlow.UndoingNeedsARace | cron.go:255-261 | and only then can an entry that was taken out be among the entries |
| EntryFlow.LostForEver | cron.go:380-391 | what is lost stays lost |
| RestartRace.WaitingAddCanBeLost | cron.go:384-391 | conversely, from any reachable state that publishes a run while an add waits, the history can go on so that this add is lost |
| RestartRace.AddBesideARemoveCanBeLost | cron.go:255-261 | and from one that publishes while a remove waits, so that another add is lost |
| RestartRace.EveryRaceCanLose | cron.go:380-391 | every such race can lose an id |
| RestartRace.AnAddIsLostToARestart | cron.go:384-391 | one such history from the start, with every call returned and nobody having asked for a removal |
| RestartRace.WaitingRemoveCanBeUndone | cron.go:255-261 | from any reachable state that publishes a run while a remove of an entry that is there waits, the history can go on so that the call has returned and the entry, taken out, is there again |
| RestartRace.EveryRaceCanUndo | cron.go:380-391 | every such race, beside an add or a remove, can undo a removal |
| RestartRace.ARemoveIsUndoneByARestart | cron.go:255-261 | one such history from the start, with every call returned |
| Chains.Then | chain.go:40-46 | the loop builds m1(m2(m3(job))) |
| Chains.ChainsCompose | chain.go:33-46 | splitting a chain in two changes nothing |
| Chains.EnteredInOrderLeftInReverse | chain.go:33-46 | wrappers are entered in the order given and left in the opposite order |
| Chains.DeadlinesByOrder | doc.go:226-231 | `Timeout` before `RetryOnError` sets one deadline in all; the other order sets one for each attempt that the retry loop makes |
| Chains.FillTokens | chain.go:127-134 | the channel starts full, and no send that fills it finds it full |
| Chains.TokensAreConserved | chain.go:126-148 | in every interleaving tokens in the channel and invocations holding one add up to max(limit, 1) |
| Chains.ConcurrencyIsBounded | chain.go:121-148 | never more than max(limit, 1) jobs run at a time |
| Chains.PuttingBackNeverBlocks | chain.go:138-139 | handing a token back never waits for room |
| Chains.RunsExactlyBelowTheLimit | chain.go:136-147 | an invocation runs its job exactly when fewer than max(limit, 1) hold a token, and is skipped otherwise |
| Chains.SkipIsLimitOne | chain.go:102-126 | a run of `SkipIfStillRunning` is a run of `MaxConcurrent` with limit one, step by step, and conversely |
| Chains.LimitOneIsSkip | chain.go:102-126 | every run with limit one arises from a run of `SkipIfStillRunning` |
| Chains.ExecuteWithRetry | chain.go:184-206 | how many attempts are made and what is returned, for every outcome of the attempts and of the waits, which only a backoff makes |
| Chains.RetryOnError | chain.go:170-182 | at least one attempt; stops at the first success and at the first wait that is cut short; success only if the last attempt succeeded |

## Left out

- DST transitions, the tz database and zone offsets with seconds: the search is stated for zones with a fixed offset of whole minutes. In a zone that skips a midnight the hour test of spec.go:247 misses the change of day, and `Next` is not the least match there.
- Schedules written by callers: `Schedule` is an interface in the source; the scheduler is modelled over the two schedules the package itself builds.
- The descriptor table (parser.go:546-610) and `time.ParseDuration`: `Fields.Parse` stops at the descriptor's text and its zone.
- `time.LoadLocation`: a parameter of `Fields.Parse`.
- Invalid UTF-8, and upper-case letters whose lower case is not an ASCII letter: specifications are sequences of characters, and names are ASCII.
- Error messages: errors are a datatype with one constructor for each kind.
- Candidates of the search are whole seconds: nanoseconds are dealt with once, in `Activation.PrepareNext`, as in the source.
- Words are sequences of 64 bits rather than machine integers; shifts, masks and complements are defined on them bit by bit.
- Pointers to entries: the loop's entries are values in a sequence that its methods reassign, so the aliasing of an entry by its own job goroutine, which reads only its id, name and wrapped job, is not modelled.
- The internals of `slices.SortFunc` and `slices.DeleteFunc`: an insertion sort and a filter stand for them; `Scheduler.SortIsUnique` shows that the sorting algorithm does not matter.
- In the interleaving model the entries are ids only, and the sort, the append and the removal by the loop are each one read and one store of the list (the race of `RestartRace.dfy` uses two appends, or a removal and an append, never the sort); what a job is and when it is due is the matter of `Scheduler.dfy`.
- `Run` is modelled as `Start`: the caller's thread runs the loop, and the error it returns when the scheduler is already running is not kept.
- Contexts: flags that are only ever set; a cancelled parent sets both flags of its run at once.
- The snapshot channel in the interleaving model: a snapshot served by the loop changes nothing and is one step; what it holds is stated in `Scheduler.Loop.Turn`.
- LoopReachesSelect: says by whose steps, and how many, a loop can come to its select, and likewise CancelledLoopEnds and WaitingCallIsServed; that a fair scheduler takes those steps, and that a loop whose context has ended and whose timer has fired as well chooses to leave, is not modelled.
- Logging, event hooks, `OnError`, panic recovery (`Recover`) and `safeCallHook`: no state that the properties depend on.
- `DelayIfStillRunning`, `Timeout` and the wall-clock part of retry backoff: whether a wait is cut short is a parameter.
- Option setters, `FuncJob` and the `AddFunc`/`AddJob` wrappers: one-line forwarding.
- `Location` and `Entry` lookups: they only read what `Entries` returns.
