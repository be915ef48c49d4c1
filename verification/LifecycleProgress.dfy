/** Nothing is stuck (cron.go): whoever holds the mutex can go on until it is released, and
    never waits for a loop; a loop needs the mutex only to start a job; so every wait ends,
    be it for the mutex, for a loop at its select, or for a cancelled loop's end. */
module LifecycleProgress {
  import opened Histories
  import opened Lifecycle
  import opened LifecycleInvariant
  import opened LifecycleTheorems
  import opened Results

  // ---------- the holder of the mutex ----------

  /** A step of the one who holds the mutex. */
  predicate HoldersStep(s: State, a: Action) {
    && s.mutex.Some?
    && match s.mutex.value
       case Finisher(_) => a.Sweep? || a.SweepEnd?
       case Caller(t) => a.Sweep? || a.SweepEnd? || ((a.StepStart? || a.StepEntry? || a.StepStop?) && a.t == t)
  }

  function SweepLeft(s: State): nat {
    if s.sweep.Some? && s.sweep.value.0 <= |s.list| then |s.list| - s.sweep.value.0 + 1 else 0
  }

  /** How many steps of its own the holder is at most from releasing the mutex. */
  function StepsToRelease(s: State): nat {
    if s.mutex.None? then 0
    else match s.mutex.value
      case Finisher(_) => SweepLeft(s)
      case Caller(t) => if t in s.calls then CallsSteps(s, s.calls[t]) else 0
  }

  function CallsSteps(s: State, pc: CallPc): nat {
    match pc
    case StartLocked => |s.list| + 5
    case StartSweep => SweepLeft(s) + 3
    case StartStore => 3
    case StartPublish => 2
    case StartUnlock => 1
    case EntryLocked(_) => 3
    case EntryAccess(_, _) => 2
    case EntryOn(_) => 1
    case EntryWrite(_, _, _) => 1
    case StopSweep(_, _) => SweepLeft(s) + 1
    case StopCancel(_, _) => 1
    case StopCheck(_, _, _) => |s.list| + 2
    case StopSweepJobs(_, _, _) => SweepLeft(s)
    case _ => 0
  }

  function CallersAction(t: nat, pc: CallPc): Action {
    if pc.StopCancel? || pc.StopCheck? then StepStop(t)
    else if pc.EntryLocked? || pc.EntryOn? || pc.EntryAccess? || pc.EntryWrite? then StepEntry(t)
    else StepStart(t)
  }

  function HoldersAction(s: State): Action {
    if s.sweep.Some? then (if s.sweep.value.0 < |s.list| then Sweep else SweepEnd)
    else if s.mutex.Some? && s.mutex.value.Caller? && s.mutex.value.call in s.calls
    then CallersAction(s.mutex.value.call, s.calls[s.mutex.value.call])
    else SweepEnd
  }

  /** The loops stand where they stood, and so do all calls but the holder's. */
  ghost predicate OnlyHolderMoves(s: State, s': State) {
    && |s.runs| <= |s'.runs|
    && (forall q | 0 <= q < |s.runs| ::
          s'.runs[q].loop == s.runs[q].loop && (s.runs[q].schedulerCancelled ==> s'.runs[q].schedulerCancelled))
    && (forall u | u in s.calls && s.mutex != Some(Caller(u)) :: u in s'.calls && s'.calls[u] == s.calls[u])
  }

  ghost predicate NearerToRelease(s: State, s': State) {
    s'.mutex.None? || (s'.mutex == s.mutex && StepsToRelease(s') < StepsToRelease(s))
  }

  /** What a step of the holder does. */
  ghost predicate GoesOn(s: State, a: Action) {
    Enabled(s, a) && HoldersStep(s, a) && OnlyHolderMoves(s, Apply(s, a)) && NearerToRelease(s, Apply(s, a))
  }

  lemma SweepGoesOn(s: State)
    requires Indexed(s) && MutexInv(s) && s.sweep.Some? && s.sweep.value.0 < |s.list|
    ensures GoesOn(s, Sweep)
  {
    var s' := AfterSweep(s);
    assert s'.runs == s.runs && s'.calls == s.calls && s'.mutex == s.mutex && |s'.list| == |s.list|;
    assert s'.sweep.value.0 == s.sweep.value.0 + 1;
    hide MutexInv, Indexed, AfterSweep;
  }

  lemma SweepEndGoesOn(s: State)
    requires Indexed(s) && MutexInv(s) && s.sweep.Some? && s.sweep.value.0 == |s.list|
    ensures GoesOn(s, SweepEnd)
  {
    assert CanSweepEnd(s);
    SweepEndMoves(s);
    SweepEndNears(s);
    hide MutexInv, Indexed, CanSweepEnd, AfterSweepEnd, OnlyHolderMoves, NearerToRelease;
  }

  lemma SweepEndMoves(s: State)
    requires CanSweepEnd(s)
    ensures OnlyHolderMoves(s, AfterSweepEnd(s))
  {
    assert AfterSweepEnd(s).runs == s.runs;
  }

  lemma SweepEndNears(s: State)
    requires CanSweepEnd(s)
    ensures NearerToRelease(s, AfterSweepEnd(s))
  {
    assert SweepLeft(s) == 1;
  }

  lemma StartGoesOn(s: State, t: nat)
    requires CanStart(s, t) && s.mutex == Some(Caller(t)) && s.sweep.None?
    ensures GoesOn(s, StepStart(t))
  {
    var s' := AfterStart(s, t);
    assert OnlyHolderMoves(s, s');
    hide OnlyHolderMoves;
  }

  lemma EntryGoesOn(s: State, t: nat)
    requires CanEntry(s, t) && s.mutex == Some(Caller(t)) && s.sweep.None?
    ensures GoesOn(s, StepEntry(t))
  {
    hide Goes, GoneBy;
    var s' := AfterEntry(s, t);
    assert OnlyHolderMoves(s, s');
    hide OnlyHolderMoves;
  }

  lemma StopGoesOn(s: State, t: nat)
    requires CanStop(s, t) && s.mutex == Some(Caller(t)) && s.sweep.None?
    requires s.calls[t].StopCancel? || s.calls[t].StopCheck?
    ensures GoesOn(s, StepStop(t))
  {
    StopMoves(s, t);
    StopNears(s, t);
    hide CanStop, AfterStop, OnlyHolderMoves, NearerToRelease;
  }

  lemma StopMoves(s: State, t: nat)
    requires CanStop(s, t) && s.mutex == Some(Caller(t))
    ensures OnlyHolderMoves(s, AfterStop(s, t))
  {
  }

  lemma StopNears(s: State, t: nat)
    requires CanStop(s, t) && s.mutex == Some(Caller(t)) && (s.calls[t].StopCancel? || s.calls[t].StopCheck?)
    ensures NearerToRelease(s, AfterStop(s, t))
  {
    hide Cancel;
  }

  lemma StopCanGoOn(s: State, t: nat)
    requires t in s.calls && CallInv(s, s.calls[t]) && (s.calls[t].StopCancel? || s.calls[t].StopCheck?)
    ensures CanStop(s, t)
  {
  }

  lemma CallerGoesOn(s: State, t: nat)
    requires t in s.calls && s.mutex == Some(Caller(t)) && Holding(s.calls[t]) && !Sweeping(s.calls[t]) && s.sweep.None?
    requires CallInv(s, s.calls[t])
    ensures GoesOn(s, HoldersAction(s))
  {
    hide GoesOn, CallInv, CanStop;
    var pc := s.calls[t];
    if pc.StopCancel? || pc.StopCheck? {
      StopCanGoOn(s, t);
      StopGoesOn(s, t);
    } else if pc.EntryLocked? || pc.EntryOn? || pc.EntryAccess? || pc.EntryWrite? {
      EntryGoesOn(s, t);
    } else {
      StartGoesOn(s, t);
    }
  }

  lemma HolderGoesOn(s: State)
    requires Inv(s) && s.mutex.Some?
    ensures GoesOn(s, HoldersAction(s))
  {
    hide JobsInv, LoopInv, ListInv, CallInv, GoesOn;
    if s.sweep.Some? {
      if s.sweep.value.0 < |s.list| { SweepGoesOn(s); } else { SweepEndGoesOn(s); }
    } else {
      var t := s.mutex.value.call;
      assert CallInv(s, s.calls[t]) && Holding(s.calls[t]);
      CallerGoesOn(s, t);
    }
  }

  /** In every reachable state, whoever holds the mutex has a step to take. */
  lemma MutexHolderIsNeverStuck(states: seq<State>, actions: seq<Action>, i: nat)
    requires IsHistory(states, actions) && i < |states| && states[i].mutex.Some?
    ensures Enabled(states[i], HoldersAction(states[i])) && HoldersStep(states[i], HoldersAction(states[i]))
  {
    hide IsHistory, Inv, Enabled, HoldersStep, HoldersAction, OnlyHolderMoves, NearerToRelease;
    HistoryInv(states, actions, i);
    HolderGoesOn(states[i]);
  }

  ghost predicate HolderOnly(h: History, h': History) {
    forall i | |h.actions| <= i < |h'.actions| && i < |h'.states| :: HoldersStep(h'.states[i], h'.actions[i])
  }

  /** The mutex is released after steps of its holder alone, at most `StepsToRelease` of them:
      the holder waits neither for a loop nor for a job nor for another call. */
  lemma MutexIsReleased(h: History) returns (h': History)
    requires Valid(h)
    ensures Valid(h') && Extends(h, h') && Last(h').mutex.None? && HolderOnly(h, h')
    ensures |h'.actions| <= |h.actions| + StepsToRelease(Last(h))
    decreases StepsToRelease(Last(h))
  {
    hide Enabled, Apply, Inv, HoldersStep, HoldersAction, OnlyHolderMoves, StepsToRelease;
    h' := h;
    if Last(h).mutex.Some? {
      HistoryInv(h.states, h.actions, |h.actions|);
      HolderGoesOn(Last(h));
      var a := HoldersAction(Last(h));
      var next := Then(h, a);
      if Last(next).mutex.None? {
        RankIsPositive(Last(h));
        h' := next;
      } else {
        h' := MutexIsReleased(next);
        assert h'.actions[|h.actions|] == next.actions[|h.actions|] == a;
        assert h'.states[|h.actions|] == next.states[|h.actions|] == Last(h);
      }
    }
  }

  lemma RankIsPositive(s: State)
    requires Inv(s) && s.mutex.Some?
    ensures StepsToRelease(s) > 0
  {
    hide JobsInv, LoopInv, ListInv, CallsInv;
  }

  // ---------- a loop ----------

  /** In the middle of firing: to start the next job a loop has to take the mutex. */
  predicate NeedsMutex(loop: LoopPc) {
    loop.Firing? && loop.left > 0
  }

  /** How many steps of its own a loop is at most from its select, or from having closed loopDone. */
  function StepsToSelect(loop: LoopPc): nat {
    match loop
    case Idle => 0
    case Sorting => 2
    case Writing(_, adding, dropping) => if adding.None? && dropping.None? then 1 else 3
    case Appending(_) => 4
    case Removing(_) => 4
    case Firing(left) => 3 + 2 * left
    case Spawning(_, left) => 4 + 2 * left
    case Exited => 2
    case Stored => 1
    case Closed => 0
  }

  /** How many entries a loop has still to fire on this wake. */
  function FiresLeft(loop: LoopPc): nat {
    match loop
    case Firing(left) => left
    case Spawning(_, left) => left
    case _ => 0
  }

  predicate AtRest(loop: LoopPc) {
    loop.Idle? || loop.Closed?
  }

  function LoopStep(s: State, r: nat): Action
    requires r < |s.runs| && !AtRest(s.runs[r].loop)
  {
    match s.runs[r].loop
    case Sorting => Work(r, s.entries)
    case Appending(id) => Work(r, s.entries + [id])
    case Removing(id) => Work(r, Drop(s.entries, id))
    case Writing(_, _, _) => Write(r)
    case Firing(left) => if left > 0 then StartJob(r) else Move(r, Sorting)
    case Spawning(_, left) => Move(r, Firing(left))
    case Exited => StoreFalse(r)
    case Stored => Move(r, Closed)
  }

  predicate OwnStep(a: Action, r: nat) {
    (a.Work? || a.Write? || a.StartJob? || a.Move? || a.StoreFalse?) && a.r == r
  }

  function LoopAfter(loop: LoopPc, value: seq<nat>, job: nat): LoopPc {
    match loop
    case Sorting => Writing(value, None, None)
    case Appending(id) => Writing(value, Some(id), None)
    case Removing(id) => Writing(value, None, Some(id))
    case Writing(_, adding, dropping) => if adding.None? && dropping.None? then Idle else Sorting
    case Firing(left) => if left > 0 then Spawning(job, left - 1) else Sorting
    case Spawning(_, left) => Firing(left)
    case Exited => Stored
    case Stored => Closed
    case _ => loop
  }

  ghost predicate OnlyLoopMoves(s: State, s': State, r: nat)
    requires r < |s.runs|
  {
    && s'.mutex == s.mutex && s'.calls == s.calls && |s'.runs| == |s.runs|
    && s'.runs[r].schedulerCancelled == s.runs[r].schedulerCancelled
    && exists value :: s'.runs[r].loop == LoopAfter(s.runs[r].loop, value, s.nextJob)
  }

  /** Away from its select a loop can go on, whoever holds the mutex, unless it is in the middle
      of firing; then it can go on as soon as the mutex is free. */
  lemma LoopGoesOn(s: State, r: nat)
    requires r < |s.runs| && !AtRest(s.runs[r].loop) && (NeedsMutex(s.runs[r].loop) ==> s.mutex.None?)
    ensures Enabled(s, LoopStep(s, r)) && OwnStep(LoopStep(s, r), r)
    ensures OnlyLoopMoves(s, Apply(s, LoopStep(s, r)), r)
  {
    hide Drop, GoneBy;
    var a := LoopStep(s, r);
    var value := if a.Work? then a.value else [];
    var s' := Apply(s, a);
    assert s'.runs[r].loop == LoopAfter(s.runs[r].loop, value, s.nextJob);
  }

  /** Each such step brings it nearer to its select, and it takes the mutex once for each entry
      it has still to fire. */
  lemma LoopComesNearer(loop: LoopPc, value: seq<nat>, job: nat)
    requires !AtRest(loop)
    ensures var loop' := LoopAfter(loop, value, job);
            && StepsToSelect(loop') < StepsToSelect(loop)
            && FiresLeft(loop') + (if NeedsMutex(loop) then 1 else 0) == FiresLeft(loop)
  {
  }

  /** In the middle of firing, while someone else holds the mutex, a loop can do nothing: it
      neither goes on nor leaves nor receives. */
  lemma FiringWaitsForTheMutex(s: State, r: nat, a: Action)
    requires r < |s.runs| && NeedsMutex(s.runs[r].loop) && s.mutex.Some?
    requires OwnStep(a, r) || (a.Send? && a.q == r)
    ensures !Enabled(s, a)
  {
    hide CanInvoke, CanAcquire, CanStart, CanEntry, CanStop, CanFallBack, CanGiveUp, CanSweep, CanSweepEnd;
    hide CanFinishJob;
  }

  function StartsOf(actions: seq<Action>, r: nat): nat {
    if actions == [] then 0
    else StartsOf(actions[..|actions| - 1], r) + (if actions[|actions| - 1] == StartJob(r) then 1 else 0)
  }

  /** Between the two, only the loop of the run moved, and those who held the mutex. */
  ghost predicate LoopOrHolder(h: History, h': History, r: nat) {
    forall i | |h.actions| <= i < |h'.actions| && i < |h'.states| ::
      OwnStep(h'.actions[i], r) || HoldersStep(h'.states[i], h'.actions[i])
  }

  /** What both kinds of steps leave alone. */
  ghost predicate Bystanders(s: State, s': State, r: nat) {
    && r < |s.runs| && r < |s'.runs|
    && (s.runs[r].schedulerCancelled ==> s'.runs[r].schedulerCancelled)
    && (forall t | t in s.calls && !Holding(s.calls[t]) :: t in s'.calls && s'.calls[t] == s.calls[t])
  }

  /** Which of the two moves next: the loop, or the holder the loop waits for. */
  function NextStep(s: State, r: nat): Action
    requires r < |s.runs| && !AtRest(s.runs[r].loop)
  {
    if NeedsMutex(s.runs[r].loop) && s.mutex.Some? then HoldersAction(s) else LoopStep(s, r)
  }

  ghost predicate Nearer(s: State, s': State, r: nat)
    requires r < |s.runs|
  {
    && r < |s'.runs|
    && (|| StepsToSelect(s'.runs[r].loop) < StepsToSelect(s.runs[r].loop)
        || (s'.runs[r].loop == s.runs[r].loop && NeedsMutex(s.runs[r].loop) && s.mutex.Some? &&
            (s'.mutex.None? || StepsToRelease(s') < StepsToRelease(s))))
  }

  /** The measure of the wait: steps of the loop, then whether the mutex is held, then steps of its holder. */
  function HeldFor(s: State): nat {
    if s.mutex.None? then 0 else 1 + StepsToRelease(s)
  }

  lemma NextStepCounts(s: State, r: nat)
    requires Inv(s) && r < |s.runs| && !AtRest(s.runs[r].loop)
    ensures var a := NextStep(s, r);
            && Enabled(s, a) && (OwnStep(a, r) || HoldersStep(s, a))
            && var s' := Apply(s, a);
               && Bystanders(s, s', r) && Nearer(s, s', r)
               && FiresLeft(s'.runs[r].loop) + (if a == StartJob(r) then 1 else 0) == FiresLeft(s.runs[r].loop)
  {
    hide Enabled, Apply, LoopStep, HoldersAction, StepsToRelease, StepsToSelect, FiresLeft, LoopAfter;
    if NeedsMutex(s.runs[r].loop) && s.mutex.Some? {
      HolderGoesOn(s);
      NotAStart(s);
      assert MutexInv(s);
      hide Inv, HoldersStep;
    } else {
      hide Inv;
      LoopGoesOn(s, r);
      OwnStart(s, r);
      var value :| Apply(s, LoopStep(s, r)).runs[r].loop == LoopAfter(s.runs[r].loop, value, s.nextJob);
      LoopComesNearer(s.runs[r].loop, value, s.nextJob);
    }
  }

  lemma OwnStart(s: State, r: nat)
    requires r < |s.runs| && !AtRest(s.runs[r].loop)
    ensures NeedsMutex(s.runs[r].loop) <==> LoopStep(s, r) == StartJob(r)
  {
  }

  lemma NotAStart(s: State)
    requires s.mutex.Some?
    ensures !HoldersAction(s).StartJob?
  {
  }

  /** A loop comes to its select, or to its end, by its own steps and those of whoever holds
      the mutex when it needs it: exactly once for each entry it has still to fire. */
  lemma LoopReachesSelect(h: History, r: nat) returns (h': History)
    requires Valid(h) && r < |Last(h).runs|
    ensures Valid(h') && Extends(h, h') && LoopOrHolder(h, h', r) && Bystanders(Last(h), Last(h'), r)
    ensures AtRest(Last(h').runs[r].loop)
    ensures StartsOf(h'.actions, r) == StartsOf(h.actions, r) + FiresLeft(Last(h).runs[r].loop)
    decreases StepsToSelect(Last(h).runs[r].loop), HeldFor(Last(h))
  {
    hide Enabled, Apply, Inv, NextStep, HoldersStep, OwnStep, StepsToSelect, StepsToRelease, FiresLeft, NeedsMutex;
    hide Valid, IsHistory, LoopOrHolder, StartsOf;
    if AtRest(Last(h).runs[r].loop) {
      h' := h;
      NothingLeft(Last(h).runs[r].loop);
      NothingBetween(h, r);
    } else {
      ValidInv(h);
      NextStepCounts(Last(h), r);
      var a := NextStep(Last(h), r);
      var next := Then(h, a);
      h' := LoopReachesSelect(next, r);
      StepBefore(h, a, next, h', r);
    }
  }

  lemma ValidInv(h: History)
    requires Valid(h)
    ensures Inv(Last(h))
  {
    hide Inv;
    HistoryInv(h.states, h.actions, |h.actions|);
  }

  lemma NothingBetween(h: History, r: nat)
    ensures LoopOrHolder(h, h, r) && Extends(h, h)
  {
  }

  lemma StepBefore(h: History, a: Action, next: History, h': History, r: nat)
    requires Valid(h) && Extends(h, next) && next.actions == h.actions + [a] && |next.states| == |h.states| + 1
    requires Extends(next, h') && LoopOrHolder(next, h', r) && (OwnStep(a, r) || HoldersStep(Last(h), a))
    ensures LoopOrHolder(h, h', r) && Extends(h, h')
    ensures StartsOf(next.actions, r) == StartsOf(h.actions, r) + (if a == StartJob(r) then 1 else 0)
  {
    hide Valid, OwnStep, HoldersStep;
    assert next.actions[..|next.actions| - 1] == h.actions;
    assert h'.actions[|h.actions|] == next.actions[|h.actions|] == a;
    assert h'.states[|h.actions|] == next.states[|h.actions|] == Last(h);
  }

  lemma NothingLeft(loop: LoopPc)
    requires AtRest(loop)
    ensures FiresLeft(loop) == 0
  {
  }

  lemma Joined(h: History, h': History, h'': History, r: nat)
    requires |h.actions| <= |h'.actions| && Extends(h', h'') && |h'.states| == |h'.actions| + 1
    requires LoopOrHolder(h, h', r) && LoopOrHolder(h', h'', r)
    ensures LoopOrHolder(h, h'', r)
  {
    hide OwnStep, HoldersStep;
    forall i | |h.actions| <= i < |h''.actions| && i < |h''.states|
      ensures OwnStep(h''.actions[i], r) || HoldersStep(h''.states[i], h''.actions[i])
    {
      if i < |h'.actions| {
        assert h''.actions[i] == h'.actions[i] && h''.states[i] == h'.states[i];
      }
    }
  }

  lemma OwnSteps(h: History, a: Action, r: nat) returns (h': History)
    requires Valid(h) && Enabled(Last(h), a) && OwnStep(a, r) && !a.StartJob?
    ensures Valid(h') && Extends(h, h') && Last(h') == Apply(Last(h), a) && LoopOrHolder(h, h', r)
    ensures StartsOf(h'.actions, r) == StartsOf(h.actions, r)
  {
    h' := Then(h, a);
    hide Valid, Enabled, Apply, OwnStep;
    assert h'.actions[..|h'.actions| - 1] == h.actions;
  }

  /** A cancelled loop can close loopDone by its own steps and those of whoever holds the mutex
      when it needs it: exactly once for each entry it has still to fire, and not at all
      otherwise. */
  lemma CancelledLoopEnds(h: History, r: nat) returns (h': History)
    requires Valid(h) && r < |Last(h).runs| && Last(h).runs[r].schedulerCancelled
    ensures Valid(h') && Extends(h, h') && LoopOrHolder(h, h', r)
    ensures r < |Last(h').runs| && Last(h').runs[r].loop.Closed?
    ensures StartsOf(h'.actions, r) == StartsOf(h.actions, r) + FiresLeft(Last(h).runs[r].loop)
  {
    hide Valid, LoopOrHolder, StartsOf, FiresLeft;
    h' := LoopReachesSelect(h, r);
    if Last(h').runs[r].loop.Idle? {
      var h1 := OwnSteps(h', Move(r, Exited), r);
      Joined(h, h', h1, r);
      var h2 := OwnSteps(h1, StoreFalse(r), r);
      Joined(h, h1, h2, r);
      var h3 := OwnSteps(h2, Move(r, Closed), r);
      Joined(h, h2, h3, r);
      h' := h3;
    }
  }

  /** An Add, Remove or Entries that waits at its select comes to be served or released by the
      steps of the loop it knows and of those who hold the mutex, and by no others. */
  lemma WaitingCallIsServed(h: History, t: nat) returns (h': History)
    requires Valid(h) && t in Last(h).calls && Last(h).calls[t].EntrySelect?
    ensures Valid(h') && Extends(h, h') && LoopOrHolder(h, h', Last(h).calls[t].run)
    ensures t in Last(h').calls && Last(h').calls[t] == Last(h).calls[t]
    ensures Enabled(Last(h'), Send(t, Last(h).calls[t].run)) || Enabled(Last(h'), FallBack(t))
  {
    hide Inv, Valid, LoopOrHolder;
    SelectKnowsItsRun(h, t);
    h' := LoopReachesSelect(h, Last(h).calls[t].run);
  }

  lemma SelectKnowsItsRun(h: History, t: nat)
    requires Valid(h) && t in Last(h).calls && Last(h).calls[t].EntrySelect?
    ensures Last(h).calls[t].run < |Last(h).runs|
  {
    hide IsHistory;
    HistoryInv(h.states, h.actions, |h.actions|);
    assert Inv(Last(h));
    assert CallInv(Last(h), Last(h).calls[t]);
  }
}
