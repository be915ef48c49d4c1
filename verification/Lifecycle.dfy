/** The scheduler's runs under concurrency (cron.go): callers of Start, Stop, Shutdown, Add,
    Remove and Entries, the scheduler loops and the job goroutines interleave step by step
    over `runningMu`, the atomic `running`, `currentRun`, the list of runs and the channels.
    `markStopped` takes no mutex, so its store and its close are steps of their own, and so
    are a caller's load of `running` and its later read of `currentRun.loopDone`. */
module Lifecycle {
  import opened Results

  /** Where a scheduler loop stands. It owns `c.entries` until it has exited. */
  datatype LoopPc =
    | Sorting                                                         // about to sort the entries
    | Idle                                                            // at the select
    | Appending(id: nat)                                              // received an entry
    | Removing(id: nat)                                               // received an id to remove
    | Writing(value: seq<nat>, adding: Option<nat>, dropping: Option<nat>) // read c.entries, about to store it
    | Firing(left: nat)                                               // woken, so many entries still to fire
    | Spawning(job: nat, left: nat)                                   // counted a job, not yet started it
    | Exited                                                          // left the loop
    | Stored                                                          // running is false, loopDone still open
    | Closed                                                          // loopDone closed

  datatype Run = Run(
    loop: LoopPc, active: nat, jobsDone: Option<nat>, jobs: set<nat>,
    schedulerCancelled: bool, jobsCancelled: bool)

  datatype EntryOp = Add(id: nat) | Remove(id: nat) | List

  /** Where a call stands. */
  datatype CallPc =
    | StartWait | StartLocked | StartSweep | StartStore | StartPublish | StartUnlock
    | EntryWait(op: EntryOp) | EntryLocked(op: EntryOp) | EntryOn(op: EntryOp)
    | EntryAccess(op: EntryOp, direct: bool) | EntryWrite(op: EntryOp, value: seq<nat>, direct: bool)
    | EntrySelect(op: EntryOp, run: nat) | EntryFallback(op: EntryOp)
    | StopWait(hard: bool, bound: nat) | StopSweep(hard: bool, bound: nat) | StopCancel(hard: bool, bound: nat)
    | StopLoops(bound: nat, copy: seq<nat>, idx: nat) | StopJobs(bound: nat, copy: seq<nat>, idx: nat)
    | StopCheck(bound: nat, copy: seq<nat>, idx: nat) | StopSweepJobs(bound: nat, copy: seq<nat>, idx: nat)
    | StopChan(bound: nat, copy: seq<nat>, idx: nat, chan: Option<nat>)
    | Stopped(bound: nat) | Done

  datatype Holder = Caller(call: nat) | Finisher(run: nat)

  datatype State = State(
    mutex: Option<Holder>,
    running: bool,
    current: Option<nat>,
    list: seq<nat>,                 // c.runs
    sweep: Option<(nat, nat)>,      // the holder's cleanup: next index to read, next to write
    runs: seq<Run>,                 // every run ever started
    closed: set<nat>,               // jobsDone channels that have been closed
    nextChan: nat,
    nextJob: nat,
    entries: seq<nat>,
    nextId: nat,
    asked: set<nat>,                // ids some Remove call named
    gone: set<nat>,                 // ids taken out of entries
    calls: map<nat, CallPc>)

  ghost predicate Init(s: State) {
    s == State(None, false, None, [], None, [], {}, 0, 0, [], 0, {}, {}, map[])
  }

  // ---------- steps ----------

  /** The calls that hold the mutex. */
  predicate Holding(pc: CallPc) {
    || pc.StartLocked? || pc.StartSweep? || pc.StartStore? || pc.StartPublish? || pc.StartUnlock?
    || pc.EntryLocked? || pc.EntryOn? || pc.EntryAccess? || pc.EntryWrite?
    || pc.StopSweep? || pc.StopCancel? || pc.StopCheck? || pc.StopSweepJobs?
  }

  predicate Sweeping(pc: CallPc) {
    pc.StartSweep? || pc.StopSweep? || pc.StopSweepJobs?
  }

  /** Before the store that ends a run. */
  predicate Unstored(loop: LoopPc) {
    !loop.Stored? && !loop.Closed?
  }

  predicate Finished(s: State, r: nat) {
    r < |s.runs| && s.runs[r].loop.Closed? && s.runs[r].active == 0
  }

  function Drop(ids: seq<nat>, id: nat): seq<nat> {
    if ids == [] then [] else (if ids[0] == id then [] else [ids[0]]) + Drop(ids[1..], id)
  }

  function Goes(op: EntryOp, entries: seq<nat>): seq<nat> {
    match op
    case Add(id) => entries + [id]
    case Remove(id) => Drop(entries, id)
    case List => entries
  }

  function Cancel(runs: seq<Run>, list: seq<nat>, hard: bool): (r: seq<Run>)
    ensures |r| == |runs|
    ensures forall i | 0 <= i < |runs| ::
              r[i] == if i in list
                      then runs[i].(schedulerCancelled := true, jobsCancelled := runs[i].jobsCancelled || hard)
                      else runs[i]
  {
    seq(|runs|, i requires 0 <= i < |runs| =>
      if i in list then runs[i].(schedulerCancelled := true, jobsCancelled := runs[i].jobsCancelled || hard)
      else runs[i])
  }

  function Goto(s: State, t: nat, pc: CallPc): State {
    s.(calls := s.calls[t := pc])
  }

  function Lock(s: State, t: nat, pc: CallPc): State {
    s.(mutex := Some(Caller(t)), calls := s.calls[t := pc])
  }

  function Unlock(s: State, t: nat, pc: CallPc): State {
    s.(mutex := None, calls := s.calls[t := pc])
  }

  function SetLoop(s: State, r: nat, loop: LoopPc): State
    requires r < |s.runs|
  {
    s.(runs := s.runs[r := s.runs[r].(loop := loop)])
  }

  predicate InCall(s: State, t: nat) { t in s.calls }
  predicate InRun(s: State, r: nat) { r < |s.runs| }

  // Locks: cron.go:197, 241, 268, 287, 321, 361, 388, 653.

  predicate CanAcquire(s: State, t: nat) {
    && InCall(s, t) && s.mutex.None?
    && var pc := s.calls[t];
       pc.StartWait? || pc.EntryWait? || pc.EntryFallback? || pc.StopWait? || (pc.StopJobs? && pc.idx < |pc.copy|)
  }

  function AfterAcquire(s: State, t: nat): State
    requires CanAcquire(s, t)
  {
    var pc := s.calls[t];
    if pc.StartWait? then Lock(s, t, StartLocked)
    else if pc.EntryWait? then
      if pc.op.Add? then Lock(s, t, EntryLocked(Add(s.nextId + 1))).(nextId := s.nextId + 1)
      else Lock(s, t, EntryLocked(pc.op))
    else if pc.EntryFallback? then Lock(s, t, EntryAccess(pc.op, false))
    else if pc.StopWait? then Lock(s, t, StopSweep(pc.hard, pc.bound)).(sweep := Some((0, 0)))
    else Lock(s, t, StopCheck(pc.bound, pc.copy, pc.idx))
  }

  // Start and Run under the mutex: cron.go:271-280, 289-296, 399-413.

  predicate CanStart(s: State, t: nat) {
    && InCall(s, t)
    && var pc := s.calls[t]; pc.StartLocked? || pc.StartStore? || pc.StartPublish? || pc.StartUnlock?
  }

  function AfterStart(s: State, t: nat): State
    requires CanStart(s, t)
  {
    match s.calls[t]
    case StartLocked => // load running
      if s.running then Unlock(s, t, Done) else Goto(s, t, StartSweep).(sweep := Some((0, 0)))
    case StartStore => Goto(s, t, StartPublish).(running := true)
    case StartPublish =>
      Goto(s, t, StartUnlock).(
        current := Some(|s.runs|), list := s.list + [|s.runs|],
        runs := s.runs + [Run(Sorting, 0, None, {}, false, false)])
    case _ => Unlock(s, t, Done)
  }

  // Add, Remove and Entries under the mutex: cron.go:200-209, 244-253, 363-382, 388-390.

  function GoneBy(op: EntryOp, entries: seq<nat>): set<nat> {
    if op.Remove? && op.id in entries then {op.id} else {}
  }

  predicate CanEntry(s: State, t: nat) {
    && InCall(s, t)
    && var pc := s.calls[t]; pc.EntryLocked? || pc.EntryOn? || pc.EntryAccess? || pc.EntryWrite?
  }

  /** What the read of `currentRun.loopDone` yields; without a current run it would panic. */
  function LoopDoneOf(s: State): nat {
    if s.current.Some? then s.current.value else |s.runs|
  }

  function AfterEntry(s: State, t: nat): State
    requires CanEntry(s, t)
  {
    match s.calls[t]
    case EntryLocked(op) => // load running
      Goto(s, t, if s.running then EntryOn(op) else EntryAccess(op, true))
    case EntryOn(op) => Unlock(s, t, EntrySelect(op, LoopDoneOf(s)))
    case EntryAccess(op, direct) =>
      if op.List? then Unlock(s, t, Done) else Goto(s, t, EntryWrite(op, Goes(op, s.entries), direct))
    case EntryWrite(op, value, _) => Unlock(s, t, Done).(entries := value, gone := s.gone + GoneBy(op, s.entries))
    case _ => s
  }

  // The selects of Add, Remove and Entries: cron.go:212-220, 255-261, 384-391.

  predicate CanSend(s: State, t: nat, q: nat) {
    InCall(s, t) && s.calls[t].EntrySelect? && InRun(s, q) && s.runs[q].loop.Idle?
  }

  function AfterSend(s: State, t: nat, q: nat): State
    requires CanSend(s, t, q)
  {
    match s.calls[t].op
    case Add(id) => Goto(SetLoop(s, q, Appending(id)), t, Done)
    case Remove(id) => Goto(SetLoop(s, q, Removing(id)), t, Done)
    case List => Goto(s, t, Done)
  }

  predicate CanFallBack(s: State, t: nat) {
    InCall(s, t) && s.calls[t].EntrySelect? && InRun(s, s.calls[t].run) && s.runs[s.calls[t].run].loop.Closed?
  }

  function AfterFallBack(s: State, t: nat): State
    requires CanFallBack(s, t)
  {
    Goto(s, t, EntryFallback(s.calls[t].op))
  }

  // Stop and Shutdown: cron.go:320-349, 652-665, 688-699.

  predicate CanStop(s: State, t: nat) {
    && InCall(s, t)
    && var pc := s.calls[t];
       || pc.StopCancel?
       || (pc.StopLoops? && (pc.idx < |pc.copy| ==> InRun(s, pc.copy[pc.idx]) && s.runs[pc.copy[pc.idx]].loop.Closed?))
       || (pc.StopJobs? && pc.idx >= |pc.copy|)
       || (pc.StopCheck? && pc.idx < |pc.copy| && InRun(s, pc.copy[pc.idx]))
       || (pc.StopChan? && (pc.chan.None? || pc.chan.value in s.closed))
  }

  function AfterStop(s: State, t: nat): State
    requires CanStop(s, t)
  {
    match s.calls[t]
    case StopCancel(hard, bound) => Unlock(s, t, StopLoops(bound, s.list, 0)).(runs := Cancel(s.runs, s.list, hard))
    case StopLoops(bound, copy, idx) =>
      Goto(s, t, if idx < |copy| then StopLoops(bound, copy, idx + 1) else StopJobs(bound, copy, 0))
    case StopJobs(bound, _, _) => Goto(s, t, Stopped(bound))
    case StopCheck(bound, copy, idx) =>
      if s.runs[copy[idx]].active == 0 then Goto(s, t, StopSweepJobs(bound, copy, idx)).(sweep := Some((0, 0)))
      else Unlock(s, t, StopChan(bound, copy, idx, s.runs[copy[idx]].jobsDone))
    case StopChan(bound, copy, idx, _) => Goto(s, t, StopJobs(bound, copy, idx + 1))
    case _ => s
  }

  // Cleanup of finished runs, an in-place filter: cron.go:667-686.

  predicate CanSweep(s: State) {
    && s.sweep.Some? && s.sweep.value.0 < |s.list| && s.sweep.value.1 <= s.sweep.value.0
    && InRun(s, s.list[s.sweep.value.0])
  }

  function AfterSweep(s: State): State
    requires CanSweep(s)
  {
    var (i, k) := s.sweep.value;
    var r := s.list[i];
    if s.runs[r].active == 0 && s.runs[r].loop.Closed? then
      s.(current := if s.current == Some(r) then None else s.current, sweep := Some((i + 1, k)))
    else
      s.(list := s.list[k := r], sweep := Some((i + 1, k + 1)))
  }

  predicate CanSweepEnd(s: State) {
    && s.sweep.Some? && s.sweep.value.0 == |s.list| && s.sweep.value.1 <= |s.list| && s.mutex.Some?
    && (s.mutex.value.Caller? ==> InCall(s, s.mutex.value.call) && Sweeping(s.calls[s.mutex.value.call]))
  }

  function AfterSweepEnd(s: State): State
    requires CanSweepEnd(s)
  {
    var swept := s.(list := s.list[..s.sweep.value.1], sweep := None);
    match s.mutex.value
    case Finisher(_) => swept.(mutex := None)
    case Caller(t) =>
      match s.calls[t]
      case StartSweep => Goto(swept, t, StartStore)
      case StopSweep(hard, bound) => Goto(swept, t, StopCancel(hard, bound))
      case StopSweepJobs(bound, copy, idx) => Unlock(swept, t, StopJobs(bound, copy, idx + 1))
      case _ => swept
  }

  // The loop at work on the entries: cron.go:430, 495-504, 540-555.

  predicate CanWork(s: State, r: nat, value: seq<nat>) {
    && InRun(s, r)
    && match s.runs[r].loop
       case Sorting => multiset(value) == multiset(s.entries)
       case Appending(id) => value == s.entries + [id]
       case Removing(id) => value == Drop(s.entries, id)
       case _ => false
  }

  /** The loop reads the entries and works out what to store. */
  function AfterWork(s: State, r: nat, value: seq<nat>): State
    requires CanWork(s, r, value)
  {
    var loop := s.runs[r].loop;
    SetLoop(s, r, Writing(value,
                          if loop.Appending? then Some(loop.id) else None,
                          if loop.Removing? then Some(loop.id) else None))
  }

  predicate CanWrite(s: State, r: nat) {
    InRun(s, r) && s.runs[r].loop.Writing?
  }

  function AfterWrite(s: State, r: nat): State
    requires CanWrite(s, r)
  {
    var w := s.runs[r].loop;
    SetLoop(s, r, if w.adding.None? && w.dropping.None? then Idle else Sorting).(
      entries := w.value,
      gone := s.gone + (if w.dropping.Some? then GoneBy(Remove(w.dropping.value), s.entries) else {}))
  }

  // Jobs: cron.go:561-592.

  predicate CanStartJob(s: State, r: nat) {
    InRun(s, r) && s.runs[r].loop.Firing? && s.runs[r].loop.left > 0 && s.mutex.None?
  }

  function AfterStartJob(s: State, r: nat): State
    requires CanStartJob(s, r)
  {
    var run := s.runs[r];
    var counted := run.(
      loop := Spawning(s.nextJob, run.loop.left - 1), active := run.active + 1, jobs := run.jobs + {s.nextJob},
      jobsDone := if run.active == 0 then Some(s.nextChan) else run.jobsDone);
    s.(runs := s.runs[r := counted], nextJob := s.nextJob + 1,
       nextChan := if run.active == 0 then s.nextChan + 1 else s.nextChan)
  }

  predicate CanFinishJob(s: State, r: nat, job: nat) {
    InRun(s, r) && s.mutex.None? && job in s.runs[r].jobs &&
    !(s.runs[r].loop.Spawning? && s.runs[r].loop.job == job)
  }

  /** Does the early return of finishJob trigger, and does the step close the channel? */
  predicate ReturnsEarly(run: Run) { run.active == 0 }
  predicate ClosesChannel(run: Run) { run.active == 1 && run.jobsDone.Some? }

  function AfterFinishJob(s: State, r: nat, job: nat): State
    requires CanFinishJob(s, r, job)
  {
    var run := s.runs[r];
    if ReturnsEarly(run) then s.(runs := s.runs[r := run.(jobs := run.jobs - {job})])
    else
      var less := run.(jobs := run.jobs - {job}, active := run.active - 1,
                       jobsDone := if ClosesChannel(run) then None else run.jobsDone);
      s.(runs := s.runs[r := less], mutex := Some(Finisher(r)), sweep := Some((0, 0)),
         closed := if ClosesChannel(run) then s.closed + {run.jobsDone.value} else s.closed)
  }

  // Waking, cancellation and the end of a loop: cron.go:415-421, 495, 499-502, 519-535.

  predicate CanMove(s: State, r: nat, loop: LoopPc) {
    && InRun(s, r)
    && match s.runs[r].loop
       case Spawning(_, left) => loop == Firing(left)
       case Firing(left) => left == 0 && loop == Sorting
       case Idle =>
         || (loop.Firing? && loop.left <= |s.entries|)
         || (loop == Exited && s.runs[r].schedulerCancelled)
       case Stored => loop == Closed
       case _ => false
  }

  predicate CanStoreFalse(s: State, r: nat) {
    InRun(s, r) && s.runs[r].loop.Exited?
  }

  function AfterStoreFalse(s: State, r: nat): State
    requires CanStoreFalse(s, r)
  {
    SetLoop(s, r, Stored).(running := false)
  }

  function AfterParentCancel(s: State, r: nat): State
    requires InRun(s, r)
  {
    s.(runs := s.runs[r := s.runs[r].(schedulerCancelled := true, jobsCancelled := true)])
  }

  // ---------- all steps ----------

  datatype Action =
    | Invoke(t: nat, pc: CallPc)          // a new call
    | Acquire(t: nat)                     // lock the mutex
    | StepStart(t: nat) | StepEntry(t: nat) | StepStop(t: nat)
    | Send(t: nat, q: nat)                // hand an operation to a loop at its select
    | FallBack(t: nat)                    // loopDone is closed
    | GiveUp(t: nat)                      // the context given to Stop or Shutdown ends
    | Sweep | SweepEnd
    | Work(r: nat, value: seq<nat>) | Write(r: nat)
    | StartJob(r: nat) | FinishJob(r: nat, job: nat)
    | Move(r: nat, loop: LoopPc)          // wake, start the job goroutine, go round, leave the loop, close loopDone
    | StoreFalse(r: nat) | ParentCancel(r: nat)

  predicate CanInvoke(s: State, t: nat, pc: CallPc) {
    t !in s.calls &&
    (pc == StartWait || pc == EntryWait(Add(0)) || (pc.EntryWait? && pc.op.Remove?) || pc == EntryWait(List) ||
     (pc.StopWait? && pc.bound == |s.runs|))
  }

  function AfterInvoke(s: State, t: nat, pc: CallPc): State {
    Goto(s, t, pc).(asked := s.asked + (if pc.EntryWait? && pc.op.Remove? then {pc.op.id} else {}))
  }

  predicate CanGiveUp(s: State, t: nat) {
    InCall(s, t) && (s.calls[t].StopLoops? || s.calls[t].StopChan?)
  }

  predicate Enabled(s: State, a: Action) {
    match a
    case Invoke(t, pc) => CanInvoke(s, t, pc)
    case Acquire(t) => CanAcquire(s, t)
    case StepStart(t) => CanStart(s, t)
    case StepEntry(t) => CanEntry(s, t)
    case StepStop(t) => CanStop(s, t)
    case Send(t, q) => CanSend(s, t, q)
    case FallBack(t) => CanFallBack(s, t)
    case GiveUp(t) => CanGiveUp(s, t)
    case Sweep => CanSweep(s)
    case SweepEnd => CanSweepEnd(s)
    case Work(r, value) => CanWork(s, r, value)
    case Write(r) => CanWrite(s, r)
    case StartJob(r) => CanStartJob(s, r)
    case FinishJob(r, job) => CanFinishJob(s, r, job)
    case Move(r, loop) => CanMove(s, r, loop)
    case StoreFalse(r) => CanStoreFalse(s, r)
    case ParentCancel(r) => InRun(s, r)
  }

  function Apply(s: State, a: Action): State
    requires Enabled(s, a)
  {
    match a
    case Invoke(t, pc) => AfterInvoke(s, t, pc)
    case Acquire(t) => AfterAcquire(s, t)
    case StepStart(t) => AfterStart(s, t)
    case StepEntry(t) => AfterEntry(s, t)
    case StepStop(t) => AfterStop(s, t)
    case Send(t, q) => AfterSend(s, t, q)
    case FallBack(t) => AfterFallBack(s, t)
    case GiveUp(t) => Goto(s, t, Done)
    case Sweep => AfterSweep(s)
    case SweepEnd => AfterSweepEnd(s)
    case Work(r, value) => AfterWork(s, r, value)
    case Write(r) => AfterWrite(s, r)
    case StartJob(r) => AfterStartJob(s, r)
    case FinishJob(r, job) => AfterFinishJob(s, r, job)
    case Move(r, loop) => SetLoop(s, r, loop)
    case StoreFalse(r) => AfterStoreFalse(s, r)
    case ParentCancel(r) => AfterParentCancel(s, r)
  }

  /** A history: every state is the initial one or follows from the one before it. */
  ghost predicate IsHistory(states: seq<State>, actions: seq<Action>) {
    && |states| == |actions| + 1 && Init(states[0])
    && forall i {:trigger actions[i]} | 0 <= i < |actions| ::
         Enabled(states[i], actions[i]) && states[i + 1] == Apply(states[i], actions[i])
  }
}
