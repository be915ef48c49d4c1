/** What every interleaving of the scheduler's runs keeps, and what a returned Stop means. */
module LifecycleInvariant {
  import opened Lifecycle
  import opened Results

  // ---------- the invariant, part by part ----------

  predicate Indexed(s: State) {
    && (forall i | 0 <= i < |s.list| :: s.list[i] < |s.runs|)
    && (s.current.Some? ==> s.current.value < |s.runs|)
    && (s.sweep.Some? ==> s.sweep.value.1 <= s.sweep.value.0 <= |s.list|)
  }

  /** The mutex is held by the one call that is inside its critical section, or by a job
      goroutine that is finishing; a cleanup is under way exactly when its holder does one. */
  ghost predicate MutexInv(s: State) {
    && (forall t | t in s.calls :: Holding(s.calls[t]) <==> s.mutex == Some(Caller(t)))
    && (s.mutex.Some? && s.mutex.value.Caller? ==> s.mutex.value.call in s.calls)
    && (s.sweep.Some? <==> s.mutex.Some? && (s.mutex.value.Caller? ==> Sweeping(s.calls[s.mutex.value.call])))
  }

  predicate Publishing(s: State) {
    s.mutex.Some? && s.mutex.value.Caller? && s.mutex.value.call in s.calls && s.calls[s.mutex.value.call].StartPublish?
  }

  /** At most one loop is before its store, and then `running` is true and it is current. */
  ghost predicate LoopInv(s: State) {
    && (forall r | 0 <= r < |s.runs| && Unstored(s.runs[r].loop) :: s.running && s.current == Some(r) && !Publishing(s))
    && (s.running && !Publishing(s) ==>
          s.current.Some? && s.current.value < |s.runs| && Unstored(s.runs[s.current.value].loop))
  }

  /** The count of a run's jobs, and its channel. */
  predicate RunJobs(s: State, run: Run) {
    && run.active == |run.jobs|
    && (run.jobsDone.Some? <==> run.active != 0)
    && (run.jobsDone.Some? ==> run.jobsDone.value < s.nextChan && run.jobsDone.value !in s.closed)
    && (forall j | j in run.jobs :: j < s.nextJob)
    && (run.loop.Spawning? ==> run.loop.job in run.jobs)
  }

  ghost predicate JobsInv(s: State) {
    && (forall r | 0 <= r < |s.runs| :: RunJobs(s, s.runs[r]))
    && (forall p, q | 0 <= p < q < |s.runs| && s.runs[p].jobsDone.Some? :: s.runs[p].jobsDone != s.runs[q].jobsDone)
    && (forall c | c in s.closed :: c < s.nextChan)
  }

  /** The runs still listed, seen through a cleanup under way. */
  function Listed(s: State): seq<nat>
    requires Indexed(s)
  {
    if s.sweep.None? then s.list else s.list[..s.sweep.value.1] + s.list[s.sweep.value.0..]
  }

  /** No run is dropped from the list before it has finished. */
  ghost predicate ListInv(s: State)
    requires Indexed(s)
  {
    forall r | 0 <= r < |s.runs| :: Finished(s, r) || r in Listed(s)
  }

  predicate ClosedRun(s: State, r: nat) {
    r < |s.runs| && s.runs[r].loop.Closed?
  }

  /** A Stop's copy of the list holds every earlier run that has not finished. */
  ghost predicate Covers(s: State, bound: nat, copy: seq<nat>) {
    && bound <= |s.runs|
    && (forall r | 0 <= r < bound :: r in copy || Finished(s, r))
    && (forall k | 0 <= k < |copy| :: copy[k] < |s.runs|)
  }

  ghost predicate StopsLoops(s: State, copy: seq<nat>, n: nat) {
    n <= |copy| && forall k | 0 <= k < n :: ClosedRun(s, copy[k])
  }

  ghost predicate StopsJobs(s: State, bound: nat, copy: seq<nat>, n: nat) {
    Covers(s, bound, copy) && StopsLoops(s, copy, |copy|) && n <= |copy| &&
          forall k | 0 <= k < n :: Finished(s, copy[k])
  }

  ghost predicate CallInv(s: State, pc: CallPc) {
    match pc
    case StartSweep => !s.running
    case StartStore => !s.running
    case StartPublish => s.running
    case EntryOn(_) => s.current.Some?
    case EntrySelect(_, run) => run < |s.runs|
    case EntryAccess(_, direct) => direct ==> !s.running
    case EntryWrite(_, _, direct) => direct ==> !s.running
    case StopWait(_, bound) => bound <= |s.runs|
    case StopSweep(_, bound) => bound <= |s.runs|
    case StopCancel(_, bound) => bound <= |s.runs|
    case StopLoops(bound, copy, idx) => Covers(s, bound, copy) && StopsLoops(s, copy, idx)
    case StopJobs(bound, copy, idx) => StopsJobs(s, bound, copy, idx)
    case StopCheck(bound, copy, idx) => idx < |copy| && StopsJobs(s, bound, copy, idx)
    case StopSweepJobs(bound, copy, idx) => idx < |copy| && StopsJobs(s, bound, copy, idx + 1)
    case StopChan(bound, copy, idx, chan) =>
      idx < |copy| && StopsJobs(s, bound, copy, idx) && WaitsFor(s, copy[idx], chan)
    case Stopped(bound) => forall r | 0 <= r < bound :: Finished(s, r)
    case _ => true
  }

  /** The channel a Stop waits on is the run's own until the run has no job left. */
  predicate WaitsFor(s: State, r: nat, chan: Option<nat>) {
    r < |s.runs| && chan.Some? && chan.value < s.nextChan && (s.runs[r].jobsDone == chan || s.runs[r].active == 0)
  }

  ghost predicate CallsInv(s: State) {
    forall t | t in s.calls :: CallInv(s, s.calls[t])
  }

  ghost predicate Inv(s: State) {
    Indexed(s) && MutexInv(s) && LoopInv(s) && JobsInv(s) && ListInv(s) && CallsInv(s)
  }

  lemma InitInv(s: State)
    requires Init(s)
    ensures Inv(s)
  {
  }

  // ---------- finished runs stay finished ----------

  /** What no step undoes. */
  ghost predicate Grows(s: State, s': State) {
    && |s.runs| <= |s'.runs| && s.nextChan <= s'.nextChan
    && forall r | 0 <= r < |s.runs| && s.runs[r].loop.Closed? ::
         && s'.runs[r].loop.Closed?
         && (s'.runs[r].active == 0 || (s.runs[r].active != 0 && s'.runs[r].jobsDone == s.runs[r].jobsDone))
  }

  predicate HolderKeeps(s: State, s': State, pc: CallPc) {
    s'.current == s.current && (s'.running == s.running || (!s'.running && !pc.StartPublish?))
  }

  /** A call's claim survives a step of someone else: of anyone at all when the call does not
      hold the mutex, and of anyone but another holder when it does. */
  lemma CallInvGrows(s: State, s': State, pc: CallPc)
    requires CallInv(s, pc) && Grows(s, s') && JobsInv(s)
    requires Holding(pc) ==> HolderKeeps(s, s', pc)
    ensures CallInv(s', pc)
  {
    forall r | Finished(s, r) ensures Finished(s', r) {}
    forall r | ClosedRun(s, r) ensures ClosedRun(s', r) {}
  }

  lemma OthersKeep(s: State, s': State, t: nat)
    requires Inv(s) && Grows(s, s')
    requires forall u | u in s'.calls && u != t :: u in s.calls && s'.calls[u] == s.calls[u]
    requires forall u | u in s.calls && u != t && Holding(s.calls[u]) ::
               HolderKeeps(s, s', s.calls[u])
    ensures forall u | u in s'.calls && u != t :: CallInv(s', s'.calls[u])
  {
    hide CallInv, Grows, JobsInv, LoopInv, MutexInv, ListInv;
    forall u | u in s'.calls && u != t ensures CallInv(s', s'.calls[u]) {
      assert CallInv(s, s.calls[u]);
      CallInvGrows(s, s', s.calls[u]);
    }
  }

  // ---------- steps that leave the runs alone ----------

  /** Nothing but calls, the mutex, ids and entries differs. */
  predicate SameRuns(s: State, s': State) {
    && s'.running == s.running && s'.current == s.current && s'.list == s.list
    && s'.runs == s.runs && s'.closed == s.closed && s'.nextChan == s.nextChan && s'.nextJob == s.nextJob
  }

  /** A cleanup that is only just starting has dropped nothing yet. */
  predicate SweepKept(s: State, s': State) {
    s'.sweep == s.sweep || (s.sweep.None? && s'.sweep == Some((0, 0)))
  }

  lemma SameRunsKeeps(s: State, s': State)
    requires Indexed(s) && LoopInv(s) && JobsInv(s) && ListInv(s)
    requires SameRuns(s, s') && SweepKept(s, s') && (Publishing(s') <==> Publishing(s))
    ensures Indexed(s') && LoopInv(s') && JobsInv(s') && ListInv(s') && Grows(s, s')
  {
    hide RunJobs;
    forall r | r in s.runs ensures RunJobs(s', r) <==> RunJobs(s, r) { SameJobs(s, s', r); }
    assert s.list[..0] + s.list[0..] == s.list;
    assert Listed(s') == Listed(s);
    forall r: nat | r < |s.runs| ensures Finished(s', r) <==> Finished(s, r) {}
  }

  lemma SameJobs(s: State, s': State, run: Run)
    requires s'.closed == s.closed && s'.nextChan == s.nextChan && s'.nextJob == s.nextJob
    ensures RunJobs(s', run) <==> RunJobs(s, run)
  {
  }

  predicate MutexPassed(s: State, s': State, t: nat, pc: CallPc) {
    && (Holding(pc) <==> s'.mutex == Some(Caller(t)))
    && (s'.mutex == s.mutex || (s.mutex.None? && s'.mutex == Some(Caller(t))) ||
        (s.mutex == Some(Caller(t)) && s'.mutex.None?))
    && (s'.sweep == s.sweep ==> (Sweeping(pc) <==> t in s.calls && Sweeping(s.calls[t])))
    && (s'.sweep != s.sweep ==> Sweeping(pc))
  }

  /** One call moves on, taking, keeping or giving back the mutex, and perhaps starting a
      cleanup; everything the runs consist of stays as it is. */
  lemma HandOver(s: State, s': State, t: nat, pc: CallPc)
    requires Inv(s) && SameRuns(s, s') && SweepKept(s, s') && s'.calls == s.calls[t := pc]
    requires MutexPassed(s, s', t, pc)
    requires !pc.StartPublish? && (t in s.calls ==> !s.calls[t].StartPublish?)
    requires CallInv(s, pc)
    ensures Inv(s')
  {
    hide LoopInv, JobsInv, ListInv, CallInv, Indexed, Grows;
    MutexHandOver(s, s', t, pc);
    SameRunsKeeps(s, s');
    OthersKeep(s, s', t);
    CallInvGrows(s, s', pc);
  }

  lemma MutexHandOver(s: State, s': State, t: nat, pc: CallPc)
    requires MutexInv(s) && s'.calls == s.calls[t := pc] && SweepKept(s, s') && MutexPassed(s, s', t, pc)
    requires !pc.StartPublish? && (t in s.calls ==> !s.calls[t].StartPublish?)
    ensures MutexInv(s') && (Publishing(s') <==> Publishing(s))
  {
  }

  lemma InvokeKeeps(s: State, t: nat, pc: CallPc)
    requires Inv(s) && CanInvoke(s, t, pc)
    ensures Inv(AfterInvoke(s, t, pc))
  {
    NotHolding(s, t);
    hide Inv;
    HandOver(s, AfterInvoke(s, t, pc), t, pc);
  }

  lemma NotHolding(s: State, t: nat)
    requires MutexInv(s) && (t in s.calls ==> !Holding(s.calls[t]))
    ensures s.mutex != Some(Caller(t))
  {
  }

  lemma GiveUpKeeps(s: State, t: nat)
    requires Inv(s) && CanGiveUp(s, t)
    ensures Inv(Goto(s, t, Done))
  {
    NotHolding(s, t);
    hide Inv;
    HandOver(s, Goto(s, t, Done), t, Done);
  }

  lemma FallBackKeeps(s: State, t: nat)
    requires Inv(s) && CanFallBack(s, t)
    ensures Inv(AfterFallBack(s, t))
  {
    NotHolding(s, t);
    hide Inv;
    HandOver(s, AfterFallBack(s, t), t, EntryFallback(s.calls[t].op));
  }

  lemma AcquireKeeps(s: State, t: nat)
    requires Inv(s) && CanAcquire(s, t)
    ensures Inv(AfterAcquire(s, t))
  {
    var s' := AfterAcquire(s, t);
    assert CallInv(s, s.calls[t]);
    assert s.sweep.None?;
    hide Inv, StopsJobs;
    HandOver(s, s', t, s'.calls[t]);
  }

  // ---------- Start and Run ----------

  lemma StartKeeps(s: State, t: nat)
    requires Inv(s) && CanStart(s, t)
    ensures Inv(AfterStart(s, t))
  {
    assert s.mutex == Some(Caller(t));
    assert CallInv(s, s.calls[t]);
    if s.calls[t].StartStore? {
      StoreTrueKeeps(s, t);
    } else if s.calls[t].StartPublish? {
      PublishKeeps(s, t);
    } else {
      assert s.sweep.None?;
      hide Inv;
      HandOver(s, AfterStart(s, t), t, AfterStart(s, t).calls[t]);
    }
  }

  /** With `running` false no loop is before its store, so setting it claims nothing false
      until the new run is published. */
  lemma StoreTrueKeeps(s: State, t: nat)
    requires Inv(s) && CanStart(s, t) && s.calls[t].StartStore? && s.mutex == Some(Caller(t)) && !s.running
    ensures Inv(AfterStart(s, t))
  {
    var s' := AfterStart(s, t);
    assert MutexInv(s') by { hide LoopInv, JobsInv, ListInv, CallsInv, Indexed; }
    assert LoopInv(s');
    hide MutexInv, LoopInv, CallInv, RunJobs;
    forall r | r in s.runs ensures RunJobs(s', r) <==> RunJobs(s, r) { SameJobs(s, s', r); }
    assert Listed(s') == Listed(s);
    forall r: nat | r < |s.runs| ensures Finished(s', r) <==> Finished(s, r) {}
    assert Grows(s, s');
    OthersAreOutside(s, t);
    OthersKeep(s, s', t);
    assert CallInv(s', StartPublish);
  }

  lemma OthersAreOutside(s: State, t: nat)
    requires MutexInv(s) && s.mutex == Some(Caller(t))
    ensures forall u | u in s.calls && u != t :: !Holding(s.calls[u])
  {
  }

  lemma PublishKeeps(s: State, t: nat)
    requires Inv(s) && CanStart(s, t) && s.calls[t].StartPublish? && s.mutex == Some(Caller(t)) && s.running
    ensures Inv(AfterStart(s, t))
  {
    var s', n := AfterStart(s, t), |s.runs|;
    assert s.sweep.None? && s'.sweep.None?;
    assert Publishing(s);
    assert MutexInv(s') by { hide LoopInv, JobsInv, ListInv, CallsInv, Indexed; }
    assert LoopInv(s');
    OthersAreOutside(s, t);
    hide MutexInv, LoopInv;
    PublishRuns(s, t);
    hide JobsInv, ListInv, CallInv;
    OthersKeep(s, s', t);
  }

  lemma PublishRuns(s: State, t: nat)
    requires Indexed(s) && JobsInv(s) && ListInv(s) && CanStart(s, t) && s.calls[t].StartPublish? && s.sweep.None?
    ensures var s' := AfterStart(s, t);
            Indexed(s') && JobsInv(s') && ListInv(s') && Grows(s, s') && CallInv(s', StartUnlock)
  {
    var s', n := AfterStart(s, t), |s.runs|;
    assert forall r | 0 <= r < n :: s'.runs[r] == s.runs[r];
    assert RunJobs(s', s'.runs[n]);
    hide RunJobs;
    forall r | 0 <= r < n ensures RunJobs(s', s'.runs[r]) { SameJobs(s, s', s.runs[r]); }
    forall r: nat | r < n ensures Finished(s', r) <==> Finished(s, r) {}
    assert n in Listed(s') by { assert s'.list[|s.list|] == n; }
  }

  // ---------- Add, Remove, Entries ----------

  lemma EntryKeeps(s: State, t: nat)
    requires Inv(s) && CanEntry(s, t)
    ensures Inv(AfterEntry(s, t))
  {
    var s', pc := AfterEntry(s, t), AfterEntry(s, t).calls[t];
    assert CallInv(s, s.calls[t]) && s.mutex == Some(Caller(t));
    assert s.current.Some? ==> s.current.value < |s.runs|;
    if s.running { CurrentWhenRunning(s, t); }
    hide Inv;
    EntryMutex(s, t);
    hide CanEntry, AfterEntry, CallInv, MutexPassed, SweepKept, SameRuns;
    HandOver(s, s', t, pc);
  }

  lemma EntryMutex(s: State, t: nat)
    requires CanEntry(s, t) && s.mutex == Some(Caller(t)) && CallInv(s, s.calls[t])
    requires (s.running ==> s.current.Some?) && (s.current.Some? ==> s.current.value < |s.runs|)
    ensures var s' := AfterEntry(s, t); var pc := s'.calls[t];
            MutexPassed(s, s', t, pc) && SweepKept(s, s') && SameRuns(s, s') && CallInv(s, pc) &&
            s'.calls == s.calls[t := pc] && !pc.StartPublish? && !s.calls[t].StartPublish?
  {
    hide Goes, GoneBy;
  }

  /** A holder of the mutex that reads `running` as true finds a current run. */
  lemma CurrentWhenRunning(s: State, t: nat)
    requires Inv(s) && CanEntry(s, t) && s.running
    ensures s.current.Some?
  {
    assert s.mutex == Some(Caller(t));
    assert !Publishing(s);
  }

  // ---------- Stop and Shutdown ----------

  lemma StopKeeps(s: State, t: nat)
    requires Inv(s) && CanStop(s, t)
    ensures Inv(AfterStop(s, t))
  {
    if s.calls[t].StopCancel? {
      CancelKeeps(s, t);
    } else {
      var s', pc := AfterStop(s, t), AfterStop(s, t).calls[t];
      StopClaim(s, t);
      StopMutex(s, t);
      hide Inv, CallInv, CanStop, AfterStop, MutexPassed, SweepKept, SameRuns;
      HandOver(s, s', t, pc);
    }
  }

  lemma StopMutex(s: State, t: nat)
    requires MutexInv(s) && CanStop(s, t) && !s.calls[t].StopCancel?
    ensures var s' := AfterStop(s, t); var pc := s'.calls[t];
            MutexPassed(s, s', t, pc) && SweepKept(s, s') && SameRuns(s, s') &&
            s'.calls == s.calls[t := pc] && !pc.StartPublish? && !s.calls[t].StartPublish?
  {
    assert Holding(s.calls[t]) <==> s.mutex == Some(Caller(t));
    assert s.calls[t].StopCheck? ==> s.sweep.None?;
    hide MutexInv, Cancel, InRun;
  }

  lemma StopClaim(s: State, t: nat)
    requires CallsInv(s) && JobsInv(s) && CanStop(s, t) && !s.calls[t].StopCancel?
    ensures CallInv(s, AfterStop(s, t).calls[t])
  {
    var pc := s.calls[t];
    assert CallInv(s, pc);
    hide CallsInv;
    if pc.StopCheck? {
      assert ClosedRun(s, pc.copy[pc.idx]);
      assert RunJobs(s, s.runs[pc.copy[pc.idx]]);
      assert s.runs[pc.copy[pc.idx]].active == 0 ==> Finished(s, pc.copy[pc.idx]);
    } else if pc.StopChan? {
      assert ClosedRun(s, pc.copy[pc.idx]);
      assert RunJobs(s, s.runs[pc.copy[pc.idx]]);
      assert Finished(s, pc.copy[pc.idx]);
    } else if pc.StopJobs? {
      forall r: nat | r < pc.bound ensures Finished(s, r) {
        if r in pc.copy {
          var k :| 0 <= k < |pc.copy| && pc.copy[k] == r;
          assert Finished(s, pc.copy[k]);
        }
      }
    }
  }

  /** Runs change their state; calls, the mutex, the list and the current run do not. */
  lemma RunsChange(s: State, s': State)
    requires Inv(s) && |s'.runs| == |s.runs| && Grows(s, s') && JobsInv(s') && LoopInv(s')
    requires s'.mutex == s.mutex && s'.calls == s.calls && s'.list == s.list && s'.sweep == s.sweep
    requires s'.current == s.current && (s'.running == s.running || (!s'.running && !Publishing(s)))
    ensures Inv(s')
  {
    assert Listed(s') == Listed(s);
    FinishedGrows(s, s');
    assert ListInv(s') by { hide CallsInv, MutexInv, JobsInv, LoopInv, Grows; }
    hide LoopInv, ListInv, CallInv, Grows, JobsInv;
    forall t | t in s.calls ensures CallInv(s', s.calls[t]) {
      assert CallInv(s, s.calls[t]);
      CallInvGrows(s, s', s.calls[t]);
    }
  }

  lemma FinishedGrows(s: State, s': State)
    requires Grows(s, s')
    ensures forall r: nat | Finished(s, r) :: Finished(s', r)
  {
  }

  lemma CancelKeeps(s: State, t: nat)
    requires Inv(s) && CanStop(s, t) && s.calls[t].StopCancel?
    ensures Inv(AfterStop(s, t))
  {
    assert t in s.calls;
    hide Inv, Cancel, Covers, CallInv, AfterStop, CanStop;
    var pc := s.calls[t];
    var s1 := s.(runs := Cancel(s.runs, s.list, pc.hard));
    CancelClaim(s, t);
    CancelRuns(s, pc.hard);
    CopyClaim(s1, pc.bound);
    CancelMutex(s, s1, t);
    hide MutexPassed, SameRuns, SweepKept;
    HandOver(s1, AfterStop(s, t), t, StopLoops(pc.bound, s.list, 0));
  }

  lemma CancelClaim(s: State, t: nat)
    requires Inv(s) && InCall(s, t) && s.calls[t].StopCancel?
    ensures s.mutex == Some(Caller(t)) && s.sweep.None? && s.calls[t].bound <= |s.runs|
  {
    assert CallInv(s, s.calls[t]);
    assert Holding(s.calls[t]);
    hide LoopInv, JobsInv, ListInv, CallsInv;
  }

  lemma CopyClaim(s: State, bound: nat)
    requires Inv(s) && s.sweep.None? && bound <= |s.runs|
    ensures CallInv(s, StopLoops(bound, s.list, 0))
  {
    EverythingListed(s, bound);
    hide Inv, Covers;
  }

  lemma CancelMutex(s: State, s1: State, t: nat)
    requires CanStop(s, t) && s.calls[t].StopCancel? && s.mutex == Some(Caller(t)) && s.sweep.None?
    requires s1 == s.(runs := Cancel(s.runs, s.list, s.calls[t].hard))
    ensures var s', pc := AfterStop(s, t), StopLoops(s.calls[t].bound, s.list, 0);
            MutexPassed(s1, s', t, pc) && SweepKept(s1, s') && SameRuns(s1, s') && s'.calls == s1.calls[t := pc]
  {
    hide Cancel;
  }

  lemma EverythingListed(s: State, bound: nat)
    requires Indexed(s) && ListInv(s) && s.sweep.None? && bound <= |s.runs|
    ensures Covers(s, bound, s.list)
  {
  }

  lemma CancelRuns(s: State, hard: bool)
    requires Inv(s) && s.sweep.None?
    ensures Inv(s.(runs := Cancel(s.runs, s.list, hard)))
  {
    var s' := s.(runs := Cancel(s.runs, s.list, hard));
    hide CallsInv, ListInv, MutexInv;
    assert LoopInv(s');
    assert Grows(s, s') by { hide JobsInv, LoopInv; }
    assert JobsInv(s') by { hide LoopInv; }
    hide JobsInv, LoopInv, Grows, Cancel;
    RunsChange(s, s');
  }

  // ---------- cleanup ----------

  /** One round of cleanup passes over a run only if it has finished. */
  lemma SweepKeeps(s: State)
    requires Inv(s) && CanSweep(s)
    ensures Inv(AfterSweep(s))
  {
    var s' := AfterSweep(s);
    SweepRuns(s);
    hide LoopInv, JobsInv, ListInv, Grows, Indexed, AfterSweep, CanSweep;
    forall t | t in s.calls ensures CallInv(s', s.calls[t]) {
      assert CallInv(s, s.calls[t]);
      SweeperOnly(s, t);
      hide CallsInv, MutexInv;
      CallInvSweep(s, s', s.calls[t]);
    }
  }

  lemma SweeperOnly(s: State, t: nat)
    requires MutexInv(s) && s.sweep.Some? && t in s.calls
    ensures Holding(s.calls[t]) ==> Sweeping(s.calls[t])
  {
  }

  lemma CallInvSweep(s: State, s': State, pc: CallPc)
    requires CallInv(s, pc) && Grows(s, s') && JobsInv(s) && (Holding(pc) ==> Sweeping(pc)) && s'.running == s.running
    ensures CallInv(s', pc)
  {
    forall r | Finished(s, r) ensures Finished(s', r) {}
    forall r | ClosedRun(s, r) ensures ClosedRun(s', r) {}
  }

  lemma SweepRuns(s: State)
    requires Indexed(s) && LoopInv(s) && JobsInv(s) && ListInv(s) && CanSweep(s)
    ensures var s' := AfterSweep(s);
            Indexed(s') && LoopInv(s') && JobsInv(s') && ListInv(s') && Grows(s, s') &&
            s'.mutex == s.mutex && s'.calls == s.calls && s'.sweep.Some? && s'.running == s.running
  {
    var s' := AfterSweep(s);
    var (i, k) := s.sweep.value;
    var x := s.list[i];
    hide RunJobs;
    forall r | r in s.runs ensures RunJobs(s', r) <==> RunJobs(s, r) { SameJobs(s, s', r); }
    assert JobsInv(s');
    hide JobsInv;
    forall r: nat | r < |s.runs| && r in Listed(s) ensures Finished(s', r) || r in Listed(s') {
      ListedAfterSweep(s, r);
    }
  }

  lemma ListedAfterSweep(s: State, r: nat)
    requires Indexed(s) && CanSweep(s) && Indexed(AfterSweep(s)) && r in Listed(s)
    ensures Finished(s, r) || r in Listed(AfterSweep(s))
  {
    var s' := AfterSweep(s);
    var (i, k) := s.sweep.value;
    var x := s.list[i];
    assert s.list[i..] == [x] + s.list[i + 1..];
    if s.runs[x].active == 0 && s.runs[x].loop.Closed? {
      assert Finished(s, x);
      assert s'.list == s.list;
    } else {
      assert s'.list[..k + 1] == s.list[..k] + [x];
      assert s'.list[i + 1..] == s.list[i + 1..];
    }
  }

  lemma SweepEndKeeps(s: State)
    requires Inv(s) && CanSweepEnd(s)
    ensures Inv(AfterSweepEnd(s))
  {
    var s' := AfterSweepEnd(s);
    SweepEndRuns(s);
    SweepEndMutex(s);
    if s.mutex.value.Caller? {
      var t := s.mutex.value.call;
      assert CallInv(s, s.calls[t]);
      hide LoopInv, JobsInv, ListInv, Grows, Indexed, MutexInv, CallInv, CallsInv, AfterSweepEnd;
      SweepEndClaim(s, t);
      OthersKeep(s, s', t);
    } else {
      hide LoopInv, JobsInv, ListInv, Grows, Indexed, MutexInv, CallInv;
      forall t | t in s.calls ensures CallInv(s', s.calls[t]) {
        assert CallInv(s, s.calls[t]);
        CallInvGrows(s, s', s.calls[t]);
      }
    }
  }

  lemma SweepEndClaim(s: State, t: nat)
    requires CanSweepEnd(s) && s.mutex == Some(Caller(t)) && CallInv(s, s.calls[t])
    ensures t in AfterSweepEnd(s).calls && CallInv(AfterSweepEnd(s), AfterSweepEnd(s).calls[t])
  {
    var s' := AfterSweepEnd(s);
    forall r | Finished(s, r) ensures Finished(s', r) {}
    forall r | ClosedRun(s, r) ensures ClosedRun(s', r) {}
  }

  lemma SweepEndMutex(s: State)
    requires MutexInv(s) && CanSweepEnd(s)
    ensures var s' := AfterSweepEnd(s);
            MutexInv(s') &&
            (s.mutex.value.Caller? ==>
              s'.calls.Keys == s.calls.Keys &&
              forall u | u in s.calls && u != s.mutex.value.call :: s'.calls[u] == s.calls[u] &&
                    !Holding(s.calls[u])) &&
            (s.mutex.value.Finisher? ==> s'.calls == s.calls && forall u | u in s.calls :: !Holding(s.calls[u]))
  {
  }

  lemma SweepEndRuns(s: State)
    requires Indexed(s) && LoopInv(s) && JobsInv(s) && ListInv(s) && CanSweepEnd(s)
    ensures var s' := AfterSweepEnd(s);
            Indexed(s') && LoopInv(s') && JobsInv(s') && ListInv(s') && Grows(s, s') &&
            s'.runs == s.runs && s'.current == s.current && s'.running == s.running
  {
    var s' := AfterSweepEnd(s);
    hide JobsInv, ListInv, Indexed;
    assert !Publishing(s) && !Publishing(s');
    assert LoopInv(s');
    hide LoopInv, Publishing;
    SweepEndList(s, s');
  }

  lemma SweepEndList(s: State, s': State)
    requires Indexed(s) && JobsInv(s) && ListInv(s) && s.sweep.Some? && s.sweep.value.0 == |s.list|
    requires s'.list == s.list[..s.sweep.value.1] && s'.sweep.None? && s'.current == s.current
    requires s'.runs == s.runs && s'.closed == s.closed && s'.nextChan == s.nextChan && s'.nextJob == s.nextJob
    ensures Indexed(s') && JobsInv(s') && ListInv(s') && Grows(s, s')
  {
    assert Listed(s') == Listed(s) by { assert s.list[|s.list|..] == []; }
    hide RunJobs;
    forall r | r in s.runs ensures RunJobs(s', r) <==> RunJobs(s, r) { SameJobs(s, s', r); }
    forall r: nat | r < |s.runs| ensures Finished(s', r) <==> Finished(s, r) {}
  }

  // ---------- loops and jobs ----------

  /** A loop moves on while staying on the same side of its store. */
  lemma LoopMoves(s: State, s': State, r: nat, loop: LoopPc)
    requires Inv(s) && InRun(s, r) && s'.runs == s.runs[r := s.runs[r].(loop := loop)]
    requires Unstored(loop) <==> Unstored(s.runs[r].loop)
    requires s.runs[r].loop.Closed? ==> loop.Closed?
    requires !loop.Spawning?
    requires s' == s.(runs := s'.runs, entries := s'.entries, gone := s'.gone)
    ensures Inv(s')
  {
    assert LoopInv(s');
    assert Grows(s, s');
    assert JobsInv(s') by {
      hide LoopInv, MutexInv, ListInv, CallsInv, Grows;
      assert RunJobs(s, s.runs[r]);
      forall p | 0 <= p < |s.runs| ensures RunJobs(s', s'.runs[p]) { assert RunJobs(s, s.runs[p]); }
    }
    hide LoopInv, MutexInv, ListInv, CallsInv, JobsInv, Grows, Indexed;
    RunsChange(s, s');
  }

  lemma LoopStepsKeep(s: State, a: Action)
    requires Inv(s) && Enabled(s, a) && (a.Work? || a.Write? || a.Move?)
    ensures Inv(Apply(s, a))
  {
    hide Inv, Goes, Drop, GoneBy;
    var s' := Apply(s, a);
    LoopMoves(s, s', a.r, s'.runs[a.r].loop);
  }

  lemma SendKeeps(s: State, t: nat, q: nat)
    requires Inv(s) && CanSend(s, t, q)
    ensures Inv(AfterSend(s, t, q))
  {
    NotHolding(s, t);
    hide Inv;
    var s1 := Goto(s, t, Done);
    HandOver(s, s1, t, Done);
    match s.calls[t].op {
      case Add(id) => LoopMoves(s1, AfterSend(s, t, q), q, Appending(id));
      case Remove(id) => LoopMoves(s1, AfterSend(s, t, q), q, Removing(id));
      case List =>
    }
  }

  lemma StoreFalseKeeps(s: State, r: nat)
    requires Inv(s) && CanStoreFalse(s, r)
    ensures Inv(AfterStoreFalse(s, r))
  {
    var s' := AfterStoreFalse(s, r);
    assert Unstored(s.runs[r].loop);
    assert LoopInv(s');
    assert Grows(s, s');
    assert JobsInv(s') by {
      hide LoopInv, MutexInv, ListInv, CallsInv, Grows;
      assert RunJobs(s, s.runs[r]);
      forall p | 0 <= p < |s.runs| ensures RunJobs(s', s'.runs[p]) { assert RunJobs(s, s.runs[p]); }
    }
    hide LoopInv, MutexInv, ListInv, CallsInv, JobsInv, Grows, Indexed;
    RunsChange(s, s');
  }

  lemma ParentCancelKeeps(s: State, r: nat)
    requires Inv(s) && InRun(s, r)
    ensures Inv(AfterParentCancel(s, r))
  {
    var s' := AfterParentCancel(s, r);
    assert LoopInv(s');
    assert Grows(s, s');
    assert JobsInv(s') by {
      hide LoopInv, MutexInv, ListInv, CallsInv, Grows;
      assert RunJobs(s, s.runs[r]);
      forall p | 0 <= p < |s.runs| ensures RunJobs(s', s'.runs[p]) { assert RunJobs(s, s.runs[p]); }
    }
    hide LoopInv, MutexInv, ListInv, CallsInv, JobsInv, Grows, Indexed;
    RunsChange(s, s');
  }

  lemma StartJobKeeps(s: State, r: nat)
    requires Inv(s) && CanStartJob(s, r)
    ensures Inv(AfterStartJob(s, r))
  {
    var s' := AfterStartJob(s, r);
    assert LoopInv(s');
    assert Grows(s, s');
    StartJobJobs(s, r);
    hide LoopInv, MutexInv, ListInv, CallsInv, JobsInv, Grows, Indexed;
    RunsChange(s, s');
  }

  lemma StartJobJobs(s: State, r: nat)
    requires JobsInv(s) && CanStartJob(s, r)
    ensures JobsInv(AfterStartJob(s, r))
  {
    var s' := AfterStartJob(s, r);
    forall p | 0 <= p < |s.runs| ensures RunJobs(s', s'.runs[p]) { assert RunJobs(s, s.runs[p]); }
  }

  /** A job goroutine that finishes is one of those counted: the early return is never
      taken, and a channel is closed at most once. */
  lemma FinishJobIsCounted(s: State, r: nat, job: nat)
    requires Inv(s) && CanFinishJob(s, r, job)
    ensures !ReturnsEarly(s.runs[r])
    ensures s.runs[r].jobsDone.Some? && s.runs[r].jobsDone.value !in s.closed
    ensures ClosesChannel(s.runs[r]) <==> s.runs[r].jobs == {job}
  {
    assert RunJobs(s, s.runs[r]);
    var jobs := s.runs[r].jobs;
    hide Inv, CanFinishJob;
    if |jobs| == 1 {
      assert |jobs - {job}| == 0;
    }
  }

  lemma FinishJobKeeps(s: State, r: nat, job: nat)
    requires Inv(s) && CanFinishJob(s, r, job)
    ensures Inv(AfterFinishJob(s, r, job))
  {
    var s' := AfterFinishJob(s, r, job);
    FinishJobIsCounted(s, r, job);
    FinishJobJobs(s, r, job);
    FinishJobRuns(s, r, job);
    FinishJobMutex(s, r, job);
    hide LoopInv, ListInv, Grows, Indexed, MutexInv, JobsInv, CallInv, AfterFinishJob;
    forall t | t in s.calls ensures CallInv(s', s.calls[t]) {
      assert CallInv(s, s.calls[t]);
      CallInvGrows(s, s', s.calls[t]);
    }
  }

  lemma FinishJobJobs(s: State, r: nat, job: nat)
    requires JobsInv(s) && CanFinishJob(s, r, job) && !ReturnsEarly(s.runs[r])
    ensures JobsInv(AfterFinishJob(s, r, job)) && Grows(s, AfterFinishJob(s, r, job))
  {
    var s' := AfterFinishJob(s, r, job);
    assert RunJobs(s, s.runs[r]);
    forall p | 0 <= p < |s.runs| ensures RunJobs(s', s'.runs[p]) {
      assert RunJobs(s, s.runs[p]);
    }
  }

  lemma FinishJobRuns(s: State, r: nat, job: nat)
    requires Indexed(s) && LoopInv(s) && ListInv(s) && JobsInv(s) && CanFinishJob(s, r, job) && !ReturnsEarly(s.runs[r])
    requires s.sweep.None?
    ensures var s' := AfterFinishJob(s, r, job); Indexed(s') && LoopInv(s') && ListInv(s')
  {
    var s' := AfterFinishJob(s, r, job);
    hide JobsInv;
    assert !Publishing(s) && !Publishing(s');
    assert s'.list[..0] + s'.list[0..] == s'.list;
    assert Listed(s') == Listed(s);
    forall p: nat | Finished(s, p) ensures Finished(s', p) {}
  }

  lemma FinishJobMutex(s: State, r: nat, job: nat)
    requires MutexInv(s) && CanFinishJob(s, r, job) && !ReturnsEarly(s.runs[r])
    ensures var s' := AfterFinishJob(s, r, job);
            MutexInv(s') && s'.calls == s.calls && s'.current == s.current && s'.running == s.running
    ensures s.sweep.None? && forall t | t in s.calls :: !Holding(s.calls[t])
  {
  }
}
