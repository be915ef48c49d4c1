/** What distinguishes Stop from Shutdown over whole histories (cron.go:303-349), and what the cleanup
    of finished runs leaves (cron.go:667-686). */
module StopTheorems {
  import opened Lifecycle
  import opened LifecycleInvariant
  import opened LifecycleTheorems
  import opened Results

  // ---------- what a call was invoked as ----------

  /** Up to its cancelling step a call knows whether it is to cancel jobs. */
  function HardOf(pc: CallPc): Option<bool> {
    match pc
    case StopWait(hard, _) => Some(hard)
    case StopSweep(hard, _) => Some(hard)
    case StopCancel(hard, _) => Some(hard)
    case _ => None
  }

  predicate HardKept(s: State, s': State, t: nat) {
    t in s.calls && t in s'.calls && (HardOf(s'.calls[t]).Some? ==> HardOf(s'.calls[t]) == HardOf(s.calls[t]))
  }

  lemma HardStays(s: State, a: Action, t: nat)
    requires Enabled(s, a) && t in s.calls
    ensures HardKept(s, Apply(s, a), t)
  {
    if a.Acquire? {
      AcquireHard(s, a.t, t);
    } else if a.StepStop? {
      StopHard(s, a.t, t);
    } else if a.SweepEnd? {
      SweepEndHard(s, t);
    } else {
      OtherHard(s, a, t);
    }
  }

  lemma AcquireHard(s: State, u: nat, t: nat)
    requires CanAcquire(s, u) && t in s.calls
    ensures HardKept(s, AfterAcquire(s, u), t)
  {
  }

  lemma StopHard(s: State, u: nat, t: nat)
    requires CanStop(s, u) && t in s.calls
    ensures HardKept(s, AfterStop(s, u), t)
  {
    hide Cancel, InRun;
  }

  lemma SweepEndHard(s: State, t: nat)
    requires CanSweepEnd(s) && t in s.calls
    ensures HardKept(s, AfterSweepEnd(s), t)
  {
  }

  lemma OtherHard(s: State, a: Action, t: nat)
    requires Enabled(s, a) && t in s.calls && !a.Acquire? && !a.StepStop? && !a.SweepEnd?
    ensures HardKept(s, Apply(s, a), t)
  {
    hide CanSweep, CanStartJob, CanFinishJob, CanWork, CanMove, CanWrite, CanStoreFalse, Goes, GoneBy;
  }

  lemma InvokedAs(s: State, a: Action)
    requires Enabled(s, a) && a.Invoke?
    ensures a.t in Apply(s, a).calls && Apply(s, a).calls[a.t] == a.pc
  {
  }

  /** As long as a call knows it, it is what the call was invoked with. */
  lemma {:induction false} HardSince(states: seq<State>, actions: seq<Action>, k: nat, i: nat, t: nat)
    requires IsHistory(states, actions) && k < i < |states| && actions[k].Invoke? && actions[k].t == t
    ensures t in states[i].calls
    ensures HardOf(states[i].calls[t]).Some? ==> HardOf(states[i].calls[t]) == HardOf(actions[k].pc)
  {
    hide IsHistory, Apply, Enabled;
    StepOfHistory(states, actions, i - 1);
    if i - 1 == k {
      InvokedAs(states[k], actions[k]);
    } else {
      HardSince(states, actions, k, i - 1, t);
      HardStays(states[i - 1], actions[i - 1], t);
    }
  }

  /** Every call was invoked. */
  lemma {:induction false} WasInvoked(states: seq<State>, actions: seq<Action>, i: nat, t: nat) returns (k: nat)
    requires IsHistory(states, actions) && i < |states| && t in states[i].calls
    ensures k < i && actions[k].Invoke? && actions[k].t == t
  {
    hide IsHistory, Apply, Enabled;
    if i == 0 {
      StartsEmpty(states, actions);
    } else {
      StepOfHistory(states, actions, i - 1);
      if t in states[i - 1].calls {
        k := WasInvoked(states, actions, i - 1, t);
      } else {
        OnlyInvokeAdds(states[i - 1], actions[i - 1], t);
        k := i - 1;
      }
    }
  }

  lemma StartsEmpty(states: seq<State>, actions: seq<Action>)
    requires IsHistory(states, actions)
    ensures states[0].calls == map[]
  {
    hide Enabled, Apply;
  }

  lemma OnlyInvokeAdds(s: State, a: Action, t: nat)
    requires Enabled(s, a) && t !in s.calls && t in Apply(s, a).calls
    ensures a.Invoke? && a.t == t
  {
    if a.StepStop? {
      StopAddsNone(s, a.t, t);
    } else {
      hide CanSweep, CanStartJob, CanFinishJob, CanWork, CanMove, CanWrite, CanStoreFalse, Goes, GoneBy;
      hide CanStop, AfterStop;
    }
  }

  lemma StopAddsNone(s: State, u: nat, t: nat)
    requires CanStop(s, u) && t !in s.calls
    ensures t !in AfterStop(s, u).calls
  {
    hide Cancel;
  }

  // ---------- who cancels jobs ----------

  /** The contexts of a run's jobs are cancelled by the caller's own context, or by a call that was
      invoked as Stop; no call invoked as Shutdown, or as anything else, ever does it. */
  lemma OnlyStopCancels(states: seq<State>, actions: seq<Action>, i: nat, r: nat) returns (k: nat)
    requires IsHistory(states, actions) && i < |actions| && r < |states[i].runs|
    requires r < |states[i + 1].runs| && !states[i].runs[r].jobsCancelled && states[i + 1].runs[r].jobsCancelled
    ensures actions[i] == ParentCancel(r) ||
            (&& k < i && actions[i].StepStop? && actions[k].Invoke? && actions[k].t == actions[i].t
             && actions[k].pc.StopWait? && actions[k].pc.hard)
  {
    k := 0;
    StepOfHistory(states, actions, i);
    hide IsHistory;
    OnlyStopCancelsJobs(states[i], actions[i], r);
    if actions[i] != ParentCancel(r) {
      var t := actions[i].t;
      k := WasInvoked(states, actions, i, t);
      HardSince(states, actions, k, i, t);
      KnownToBeHard(actions[k].pc);
    }
  }

  /** No step of a call that was invoked as Shutdown cancels the contexts of a run's jobs. */
  lemma ShutdownSparesJobs(states: seq<State>, actions: seq<Action>, k: nat, i: nat, r: nat)
    requires IsHistory(states, actions) && k < i < |actions|
    requires actions[k].Invoke? && actions[k].pc.StopWait? && !actions[k].pc.hard
    requires actions[i] == StepStop(actions[k].t) && r < |states[i].runs|
    ensures r < |states[i + 1].runs| && states[i + 1].runs[r].jobsCancelled == states[i].runs[r].jobsCancelled
  {
    StepOfHistory(states, actions, i);
    HardSince(states, actions, k, i, actions[k].t);
    hide IsHistory, Enabled, Apply;
    StepsByStop(states[i], actions[k].t);
    SoftStep(states[i], actions[k].t, r);
  }

  lemma SoftStep(s: State, t: nat, r: nat)
    requires CanStop(s, t) && r < |s.runs| && HardOf(s.calls[t]) != Some(true)
    ensures r < |AfterStop(s, t).runs| && AfterStop(s, t).runs[r].jobsCancelled == s.runs[r].jobsCancelled
  {
  }

  lemma KnownToBeHard(pc: CallPc)
    requires HardOf(pc) == Some(true)
    ensures pc.StopWait? || pc.StopSweep? || pc.StopCancel?
  {
  }

  // ---------- what Stop and Shutdown cancel ----------

  predicate Flagged(s: State, r: nat, hard: bool) {
    r < |s.runs| && s.runs[r].schedulerCancelled && (hard ==> s.runs[r].jobsCancelled)
  }

  /** A cancelled context stays cancelled. */
  lemma FlagsStay(s: State, a: Action, r: nat, hard: bool)
    requires Enabled(s, a) && Flagged(s, r, hard)
    ensures Flagged(Apply(s, a), r, hard)
  {
    if a.StepStop? {
      StopKeepsFlags(s, a.t, r, hard);
    } else {
      hide CanInvoke, CanAcquire, CanStart, CanEntry, CanFallBack, CanGiveUp, CanSweep, CanSweepEnd, AfterStop;
      hide CanStop, Goes, GoneBy, Drop, ReturnsEarly, ClosesChannel;
    }
  }

  lemma StopKeepsFlags(s: State, t: nat, r: nat, hard: bool)
    requires CanStop(s, t) && Flagged(s, r, hard)
    ensures Flagged(AfterStop(s, t), r, hard)
  {
  }

  lemma {:induction false} FlagsStayOn(states: seq<State>, actions: seq<Action>, i: nat, j: nat, r: nat, hard: bool)
    requires IsHistory(states, actions) && i <= j < |states| && Flagged(states[i], r, hard)
    ensures Flagged(states[j], r, hard)
  {
    hide IsHistory, Enabled, Apply, Flagged;
    if i < j {
      FlagsStayOn(states, actions, i, j - 1, r, hard);
      StepOfHistory(states, actions, j - 1);
      FlagsStay(states[j - 1], actions[j - 1], r, hard);
    }
  }

  /** At its cancelling step a call flags every run that is started by then and not finished. */
  lemma CancelFlags(s: State, t: nat, r: nat)
    requires Inv(s) && CanStop(s, t) && s.calls[t].StopCancel? && r < |s.runs| && !Finished(s, r)
    ensures Flagged(AfterStop(s, t), r, s.calls[t].hard)
  {
    assert Holding(s.calls[t]) && s.mutex == Some(Caller(t));
    assert s.sweep.None?;
    assert Listed(s) == s.list;
  }

  /** The step at which a call stops knowing what it was invoked as is its cancelling step. */
  lemma ForgetsByCancelling(s: State, a: Action, t: nat)
    requires Enabled(s, a) && t in s.calls && HardOf(s.calls[t]).Some?
    ensures t in Apply(s, a).calls
    ensures HardOf(Apply(s, a).calls[t]).None? ==> a == StepStop(t) && s.calls[t].StopCancel?
  {
    if a.StepStop? {
      StopForgets(s, a.t, t);
    } else {
      hide CanSweep, CanStartJob, CanFinishJob, CanWork, CanMove, CanWrite, CanStoreFalse, Goes, GoneBy;
      hide CanStop, AfterStop;
    }
  }

  lemma StopForgets(s: State, u: nat, t: nat)
    requires CanStop(s, u) && t in s.calls && HardOf(s.calls[t]).Some?
    ensures t in AfterStop(s, u).calls
    ensures HardOf(AfterStop(s, u).calls[t]).None? ==> u == t && s.calls[t].StopCancel?
  {
    hide Cancel;
  }

  /** The cancelling step of a call that is past it. */
  lemma {:induction false} CancelledAt(states: seq<State>, actions: seq<Action>, k: nat, i: nat, t: nat)
    returns (m: nat)
    requires IsHistory(states, actions) && k < i < |states|
    requires actions[k].Invoke? && actions[k].t == t && actions[k].pc.StopWait?
    requires t in states[i].calls && HardOf(states[i].calls[t]).None?
    ensures k < m < i && actions[m] == StepStop(t) && t in states[m].calls && states[m].calls[t].StopCancel?
    ensures states[m].calls[t].hard == actions[k].pc.hard
  {
    hide IsHistory, Enabled, Apply;
    StepOfHistory(states, actions, i - 1);
    if i - 1 == k {
      InvokedAs(states[k], actions[k]);
      assert false;
    } else {
      HardSince(states, actions, k, i - 1, t);
      if HardOf(states[i - 1].calls[t]).None? {
        m := CancelledAt(states, actions, k, i - 1, t);
      } else {
        ForgetsByCancelling(states[i - 1], actions[i - 1], t);
        m := i - 1;
      }
    }
  }

  /** Once a Stop or Shutdown is past its cancelling step, every run that had been started before
      that step and had not finished at it has its loop cancelled for good, and its jobs too if the
      call was invoked as Stop. */
  lemma StopCancelsEarlierRuns(states: seq<State>, actions: seq<Action>, k: nat, i: nat, t: nat) returns (m: nat)
    requires IsHistory(states, actions) && k < i < |states|
    requires actions[k].Invoke? && actions[k].t == t && actions[k].pc.StopWait?
    requires t in states[i].calls && HardOf(states[i].calls[t]).None?
    ensures k < m < i && actions[m] == StepStop(t) && |states[k].runs| <= |states[m].runs|
    ensures forall r | 0 <= r < |states[m].runs| && !Finished(states[m], r) ::
              Flagged(states[i], r, actions[k].pc.hard)
  {
    hide IsHistory, Enabled, Apply, Flagged, Finished;
    OneActionBetween(states, actions);
    m := CancelledAt(states, actions, k, i, t);
    RunsGrow(states, actions, k, m);
    forall r: nat | r < |states[m].runs| && !Finished(states[m], r) ensures Flagged(states[i], r, actions[k].pc.hard) {
      FlaggedAfter(states, actions, m, t, r);
      FlagsStayOn(states, actions, m + 1, i, r, actions[k].pc.hard);
    }
  }

  lemma OneActionBetween(states: seq<State>, actions: seq<Action>)
    requires IsHistory(states, actions)
    ensures |states| == |actions| + 1
  {
    hide Enabled, Apply, Init;
  }

  lemma FlaggedAfter(states: seq<State>, actions: seq<Action>, m: nat, t: nat, r: nat)
    requires IsHistory(states, actions) && m < |actions| && actions[m] == StepStop(t)
    requires t in states[m].calls && states[m].calls[t].StopCancel?
    requires r < |states[m].runs| && !Finished(states[m], r)
    ensures Flagged(states[m + 1], r, states[m].calls[t].hard)
  {
    StepOfHistory(states, actions, m);
    hide IsHistory, Enabled, Apply, Flagged, Inv, Finished;
    HistoryInv(states, actions, m);
    StepsByStop(states[m], t);
    CancelFlags(states[m], t, r);
  }

  lemma StepsByStop(s: State, t: nat)
    requires Enabled(s, StepStop(t))
    ensures CanStop(s, t) && Apply(s, StepStop(t)) == AfterStop(s, t)
  {
    hide CanStop, AfterStop;
  }

  lemma {:induction false} RunsGrow(states: seq<State>, actions: seq<Action>, i: nat, j: nat)
    requires IsHistory(states, actions) && i <= j < |states|
    ensures |states[i].runs| <= |states[j].runs|
  {
    hide IsHistory, Enabled, Apply;
    if i < j {
      RunsGrow(states, actions, i, j - 1);
      StepOfHistory(states, actions, j - 1);
      OneMoreRunAtMost(states[j - 1], actions[j - 1]);
    }
  }

  lemma OneMoreRunAtMost(s: State, a: Action)
    requires Enabled(s, a)
    ensures |s.runs| <= |Apply(s, a).runs|
  {
    hide CanInvoke, CanAcquire, CanFallBack, CanGiveUp, CanSweep, CanSweepEnd, Goes, GoneBy, Drop, ReturnsEarly;
    hide ClosesChannel;
  }

  // ---------- when a loop ends ----------

  /** A loop is cancelled by the caller's own context, or by a call at its cancelling step. */
  lemma OnlyStopsCancelLoops(s: State, a: Action, r: nat)
    requires Enabled(s, a) && r < |s.runs| && !s.runs[r].schedulerCancelled
    ensures r < |Apply(s, a).runs|
    ensures Apply(s, a).runs[r].schedulerCancelled ==>
              a == ParentCancel(r) || (a.StepStop? && s.calls[a.t].StopCancel? && r in s.list)
  {
    if a.StepStop? {
      StopCancelsListed(s, a.t, r);
    } else {
      hide CanInvoke, CanAcquire, CanFallBack, CanGiveUp, CanSweep, CanSweepEnd, Goes, GoneBy, Drop, ReturnsEarly;
      hide ClosesChannel, AfterStop, CanStop;
    }
  }

  lemma StopCancelsListed(s: State, t: nat, r: nat)
    requires CanStop(s, t) && r < |s.runs| && !s.runs[r].schedulerCancelled
    ensures r < |AfterStop(s, t).runs|
    ensures AfterStop(s, t).runs[r].schedulerCancelled ==> s.calls[t].StopCancel? && r in s.list
  {
  }

  /** It has left its select for good. */
  predicate Left(s: State, r: nat) {
    r < |s.runs| && (s.runs[r].loop.Exited? || s.runs[r].loop.Stored? || s.runs[r].loop.Closed?)
  }

  lemma LeavesWhenCancelled(s: State, a: Action, r: nat)
    requires Enabled(s, a) && !Left(s, r) && Left(Apply(s, a), r)
    ensures Flagged(Apply(s, a), r, false)
  {
    hide CanInvoke, CanAcquire, CanFallBack, CanGiveUp, CanSweep, CanSweepEnd, Goes, GoneBy, Drop, ReturnsEarly;
    hide ClosesChannel;
  }

  /** No loop ends by itself: one that has left its select was cancelled. */
  lemma {:induction false} NoLoopEndsByItself(states: seq<State>, actions: seq<Action>, i: nat, r: nat)
    requires IsHistory(states, actions) && i < |states| && Left(states[i], r)
    ensures states[i].runs[r].schedulerCancelled
  {
    hide IsHistory, Enabled, Apply, Left;
    if i == 0 {
      NoneLeftAtFirst(states, actions, r);
    } else {
      StepOfHistory(states, actions, i - 1);
      if Left(states[i - 1], r) {
        NoLoopEndsByItself(states, actions, i - 1, r);
        IsFlagged(states[i - 1], r);
        FlagsStay(states[i - 1], actions[i - 1], r, false);
      } else {
        LeavesWhenCancelled(states[i - 1], actions[i - 1], r);
      }
    }
  }

  lemma IsFlagged(s: State, r: nat)
    requires Left(s, r) && s.runs[r].schedulerCancelled
    ensures Flagged(s, r, false)
  {
  }

  lemma NoneLeftAtFirst(states: seq<State>, actions: seq<Action>, r: nat)
    requires IsHistory(states, actions)
    ensures !Left(states[0], r)
  {
    hide Enabled, Apply;
  }

  // ---------- cleanup ----------

  /** While a cleanup is under way nothing but its own steps changes the list. */
  lemma OnlyTheSweepSweeps(s: State, a: Action)
    requires Inv(s) && Enabled(s, a) && s.sweep.Some? && !a.Sweep? && !a.SweepEnd?
    ensures Apply(s, a).sweep == s.sweep && Apply(s, a).list == s.list
  {
    assert s.mutex.Some?;
    if a.StepStart? || a.StepStop? {
      assert Holding(s.calls[a.t]) ==> s.mutex == Some(Caller(a.t)) && Sweeping(s.calls[a.t]);
      hide Inv, Cancel;
    } else {
      hide Inv, CanInvoke, CanEntry, CanFallBack, CanGiveUp, CanWork, CanMove, CanWrite, Goes, GoneBy, Drop;
    }
  }

  /** No run that had finished when the cleanup under way began is among those kept so far. */
  ghost predicate LeftOut(s: State, r: nat) {
    s.sweep.Some? ==> s.sweep.value.1 <= |s.list| && r !in s.list[..s.sweep.value.1]
  }

  lemma SweepLeavesOut(s: State, a: Action, r: nat)
    requires Inv(s) && Enabled(s, a) && s.sweep.Some? && Finished(s, r) && LeftOut(s, r)
    ensures var s' := Apply(s, a); if s'.sweep.Some? then LeftOut(s', r) else r !in s'.list
  {
    if a.Sweep? {
      hide Inv;
      var (i, k) := s.sweep.value;
      var s' := AfterSweep(s);
      if s'.list != s.list || s'.sweep != Some((i + 1, k)) {
        assert s.list[i] != r;
        assert s.list[k := s.list[i]][..k + 1] == s.list[..k] + [s.list[i]];
      }
    } else if a.SweepEnd? {
      hide Inv;
    } else {
      hide Enabled, Apply, Inv;
      OnlyTheSweepSweeps(s, a);
    }
  }

  /** A cleanup drops every run that had finished when it began, and no run that has not finished
      when it ends. */
  lemma {:induction false} CleanupIsExact(states: seq<State>, actions: seq<Action>, k: nat, i: nat, r: nat)
    requires IsHistory(states, actions) && k < i < |states| && states[k].sweep == Some((0, 0))
    requires forall m | k <= m < i :: states[m].sweep.Some?
    ensures Finished(states[k], r) ==>
              if states[i].sweep.Some? then LeftOut(states[i], r) else r !in states[i].list
    ensures states[i].sweep.None? && r < |states[i].runs| && !Finished(states[i], r) ==> r in states[i].list
  {
    hide IsHistory, Enabled, Apply, Finished;
    StepOfHistory(states, actions, i - 1);
    HistoryInv(states, actions, i - 1);
    HistoryInv(states, actions, i);
    assert states[i].sweep.None? ==> Listed(states[i]) == states[i].list;
    if Finished(states[k], r) {
      FinishedForEver(states, actions, k, i - 1, r);
      if i - 1 > k { CleanupIsExact(states, actions, k, i - 1, r); }
      hide Inv;
      SweepLeavesOut(states[i - 1], actions[i - 1], r);
    }
  }

  /** A cleanup begins whenever Stop or Shutdown has the mutex, whenever Start has it and finds no
      run under way, whenever a Stop that waits for jobs finds a run without any, and whenever a
      job finishes; and nowhere else. */
  lemma CleanupBegins(s: State, a: Action)
    requires Inv(s) && Enabled(s, a) && s.sweep.None?
    ensures Apply(s, a).sweep.Some? <==>
            || (a.Acquire? && s.calls[a.t].StopWait?)
            || (a.StepStart? && s.calls[a.t].StartLocked? && !s.running)
            || (a.StepStop? && s.calls[a.t].StopCheck? && s.runs[s.calls[a.t].copy[s.calls[a.t].idx]].active == 0)
            || a.FinishJob?
    ensures Apply(s, a).sweep.Some? ==> Apply(s, a).sweep == Some((0, 0))
  {
    if a.FinishJob? { FinishJobIsCounted(s, a.r, a.job); }
    hide Inv, Cancel, CanFallBack, CanGiveUp, CanSweepEnd, CanWork, CanMove, CanWrite, Goes, GoneBy, Drop, CanInvoke;
  }

  /** An Add or Remove goes on by itself only after the loop it waited for has been cancelled, has
      left its select and has closed `loopDone`. */
  lemma FallsBackAfterTheEnd(states: seq<State>, actions: seq<Action>, i: nat)
    requires IsHistory(states, actions) && i < |actions| && actions[i].FallBack?
    ensures var t := actions[i].t;
            && t in states[i].calls && states[i].calls[t].EntrySelect?
            && states[i].calls[t].run < |states[i].runs|
            && states[i].runs[states[i].calls[t].run].loop.Closed?
            && states[i].runs[states[i].calls[t].run].schedulerCancelled
  {
    StepOfHistory(states, actions, i);
    hide IsHistory;
    NoLoopEndsByItself(states, actions, i, states[i].calls[actions[i].t].run);
  }
}
