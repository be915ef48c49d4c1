/** The properties of every history of the scheduler's runs (cron.go). */
module LifecycleTheorems {
  import opened Lifecycle
  import opened LifecycleInvariant
  import opened Results

  /** Every step keeps the invariant. */
  lemma StepKeepsInv(s: State, a: Action)
    requires Inv(s) && Enabled(s, a)
    ensures Inv(Apply(s, a))
  {
    hide Inv, CanInvoke, CanAcquire, CanStart, CanEntry, CanStop, CanSend, CanFallBack, CanGiveUp, CanSweep;
    hide CanSweepEnd;
    hide CanStartJob, CanFinishJob, CanStoreFalse;
    match a {
      case Invoke(t, pc) => InvokeKeeps(s, t, pc);
      case Acquire(t) => AcquireKeeps(s, t);
      case StepStart(t) => StartKeeps(s, t);
      case StepEntry(t) => EntryKeeps(s, t);
      case StepStop(t) => StopKeeps(s, t);
      case Send(t, q) => SendKeeps(s, t, q);
      case FallBack(t) => FallBackKeeps(s, t);
      case GiveUp(t) => GiveUpKeeps(s, t);
      case Sweep => SweepKeeps(s);
      case SweepEnd => SweepEndKeeps(s);
      case Work(_, _) => LoopStepsKeep(s, a);
      case Write(_) => LoopStepsKeep(s, a);
      case StartJob(r) => StartJobKeeps(s, r);
      case FinishJob(r, job) => FinishJobKeeps(s, r, job);
      case Move(_, _) => LoopStepsKeep(s, a);
      case StoreFalse(r) => StoreFalseKeeps(s, r);
      case ParentCancel(r) => ParentCancelKeeps(s, r);
    }
  }

  /** Every state of every history satisfies the invariant. */
  lemma {:induction false} HistoryInv(states: seq<State>, actions: seq<Action>, i: nat)
    requires IsHistory(states, actions) && i < |states|
    ensures Inv(states[i])
  {
    hide Inv, Enabled, Apply;
    if i == 0 {
      InitInv(states[0]);
    } else {
      HistoryInv(states, actions, i - 1);
      StepKeepsInv(states[i - 1], actions[i - 1]);
    }
  }

  /** In every interleaving at most one scheduler loop is running, and while one is,
      `running` is true and the loop is the current run's. */
  lemma AtMostOneLoop(states: seq<State>, actions: seq<Action>, i: nat, p: nat, q: nat)
    requires IsHistory(states, actions) && i < |states|
    requires p < |states[i].runs| && q < |states[i].runs|
    requires Unstored(states[i].runs[p].loop) && Unstored(states[i].runs[q].loop)
    ensures p == q && states[i].running && states[i].current == Some(p)
  {
    hide IsHistory;
    HistoryInv(states, actions, i);
  }

  /** A call that holds the mutex and has read `running` as true still finds a current run
      when it reads `currentRun.loopDone`, whatever the loop has done in between. */
  lemma CurrentRunIsThere(states: seq<State>, actions: seq<Action>, i: nat, t: nat)
    requires IsHistory(states, actions) && i < |states|
    requires t in states[i].calls && states[i].calls[t].EntryOn?
    ensures states[i].mutex == Some(Caller(t)) && states[i].current.Some? && states[i].current.value < |states[i].runs|
  {
    hide IsHistory;
    HistoryInv(states, actions, i);
    assert CallInv(states[i], states[i].calls[t]);
  }

  /** The count of a run is the number of its job goroutines that have not finished, the
      channel is there exactly while there are some, and it is still open. */
  lemma JobsAreCounted(states: seq<State>, actions: seq<Action>, i: nat, r: nat)
    requires IsHistory(states, actions) && i < |states| && r < |states[i].runs|
    ensures var run := states[i].runs[r];
            run.active == |run.jobs| && (run.jobsDone.Some? <==> run.active != 0) &&
            (run.jobsDone.Some? ==> run.jobsDone.value !in states[i].closed)
  {
    hide IsHistory;
    HistoryInv(states, actions, i);
    assert RunJobs(states[i], states[i].runs[r]);
  }

  /** Whenever a job finishes it is one of those counted, so the early return is not taken;
      the channel is closed exactly when the last job of the run finishes, and it was not
      closed before. */
  lemma EachChannelClosesOnce(states: seq<State>, actions: seq<Action>, i: nat)
    requires IsHistory(states, actions) && i < |actions| && actions[i].FinishJob?
    ensures var s, a := states[i], actions[i];
            a.r < |s.runs| && !ReturnsEarly(s.runs[a.r]) && s.runs[a.r].jobsDone.Some? &&
            s.runs[a.r].jobsDone.value !in s.closed &&
            states[i + 1].closed == s.closed +
              (if s.runs[a.r].jobs == {a.job} then {s.runs[a.r].jobsDone.value} else {}) &&
            (s.runs[a.r].jobs == {a.job} <==> states[i + 1].runs[a.r].jobsDone.None?)
  {
    var a := actions[i];
    StepOfHistory(states, actions, i);
    hide IsHistory;
    HistoryInv(states, actions, i);
    hide Inv;
    FinishJobIsCounted(states[i], a.r, a.job);
  }

  /** Only a job that starts or finishes changes which channels are open. */
  lemma OnlyFinishingCloses(s: State, a: Action)
    requires Enabled(s, a) && !a.FinishJob?
    ensures Apply(s, a).closed == s.closed
  {
    hide CanInvoke, CanAcquire, CanFallBack, CanGiveUp, CanSweep, CanSweepEnd, CanStop, Goes, GoneBy, Drop, Cancel;
  }

  // ---------- Stop and Shutdown ----------

  function BoundOf(pc: CallPc): Option<nat> {
    match pc
    case StopWait(_, bound) => Some(bound)
    case StopSweep(_, bound) => Some(bound)
    case StopCancel(_, bound) => Some(bound)
    case StopLoops(bound, _, _) => Some(bound)
    case StopJobs(bound, _, _) => Some(bound)
    case StopCheck(bound, _, _) => Some(bound)
    case StopSweepJobs(bound, _, _) => Some(bound)
    case StopChan(bound, _, _, _) => Some(bound)
    case Stopped(bound) => Some(bound)
    case _ => None
  }

  /** A call keeps its bound from one step to the next, or is done. */
  predicate BoundKept(s: State, s': State, t: nat) {
    && t in s.calls && t in s'.calls
    && (s'.calls[t] == Done || BoundOf(s'.calls[t]) == BoundOf(s.calls[t]))
    && (s.calls[t] == Done ==> s'.calls[t] == Done)
  }

  lemma AcquireBound(s: State, u: nat, t: nat)
    requires CanAcquire(s, u) && t in s.calls
    ensures BoundKept(s, AfterAcquire(s, u), t)
  {
  }

  lemma StartBound(s: State, u: nat, t: nat)
    requires CanStart(s, u) && t in s.calls
    ensures BoundKept(s, AfterStart(s, u), t)
  {
  }

  lemma EntryBound(s: State, u: nat, t: nat)
    requires CanEntry(s, u) && t in s.calls
    ensures BoundKept(s, AfterEntry(s, u), t)
  {
    hide Goes, GoneBy;
  }

  lemma StopBound(s: State, u: nat, t: nat)
    requires CanStop(s, u) && t in s.calls
    ensures BoundKept(s, AfterStop(s, u), t)
  {
    hide Cancel, InRun;
  }

  lemma SweepEndBound(s: State, t: nat)
    requires CanSweepEnd(s) && t in s.calls
    ensures BoundKept(s, AfterSweepEnd(s), t)
  {
  }

  /** A Stop remembers the runs that had been started when it was called. */
  lemma BoundStays(s: State, a: Action, t: nat)
    requires Enabled(s, a) && t in s.calls
    ensures BoundKept(s, Apply(s, a), t)
  {
    hide CanAcquire, CanStart, CanEntry, CanStop, CanSweepEnd, CanSweep, CanStartJob, CanFinishJob, CanWork, BoundOf;
    hide AfterAcquire, AfterStart, AfterEntry, AfterStop, AfterSweepEnd;
    match a {
      case Acquire(u) => AcquireBound(s, u, t);
      case StepStart(u) => StartBound(s, u, t);
      case StepEntry(u) => EntryBound(s, u, t);
      case StepStop(u) => StopBound(s, u, t);
      case SweepEnd => SweepEndBound(s, t);
      case Send(u, q) => SendBound(s, u, q, t);
      case _ => PlainBound(s, a, t);
    }
  }

  lemma SendBound(s: State, u: nat, q: nat, t: nat)
    requires CanSend(s, u, q) && t in s.calls
    ensures BoundKept(s, AfterSend(s, u, q), t)
  {
  }

  lemma PlainBound(s: State, a: Action, t: nat)
    requires Enabled(s, a) && t in s.calls
    requires !a.Acquire? && !a.StepStart? && !a.StepEntry? && !a.StepStop? && !a.SweepEnd? && !a.Send?
    ensures BoundKept(s, Apply(s, a), t)
  {
    hide CanSweep, CanStartJob, CanFinishJob, CanWork, CanMove, CanWrite, CanStoreFalse, GoneBy;
    if a.FallBack? { assert s.calls[a.t] != Done; }
  }

  lemma {:induction false} BoundSince(states: seq<State>, actions: seq<Action>, k: nat, i: nat, t: nat)
    requires IsHistory(states, actions) && k < i < |states|
    requires actions[k].Invoke? && actions[k].t == t && actions[k].pc.StopWait?
    ensures t in states[i].calls
    ensures states[i].calls[t] == Done || BoundOf(states[i].calls[t]) == Some(|states[k].runs|)
  {
    hide IsHistory, Apply, Enabled, BoundOf;
    StepOfHistory(states, actions, i - 1);
    if i - 1 == k {
      InvokedBound(states[k], actions[k]);
    } else {
      BoundSince(states, actions, k, i - 1, t);
      BoundStays(states[i - 1], actions[i - 1], t);
    }
  }

  lemma StepOfHistory(states: seq<State>, actions: seq<Action>, i: nat)
    requires IsHistory(states, actions) && i + 1 < |states|
    ensures i < |actions| && Enabled(states[i], actions[i]) && states[i + 1] == Apply(states[i], actions[i])
  {
    hide Enabled, Apply, Init;
  }

  lemma InvokedBound(s: State, a: Action)
    requires Enabled(s, a) && a.Invoke? && a.pc.StopWait?
    ensures a.t in Apply(s, a).calls && BoundOf(Apply(s, a).calls[a.t]) == Some(|s.runs|)
  {
  }

  lemma {:induction false} FinishedForEver(states: seq<State>, actions: seq<Action>, i: nat, j: nat, r: nat)
    requires IsHistory(states, actions) && i <= j < |states| && Finished(states[i], r)
    ensures Finished(states[j], r)
  {
    hide IsHistory, Enabled, Apply, Inv, Finished;
    if i < j {
      FinishedForEver(states, actions, i, j - 1, r);
      StepOfHistory(states, actions, j - 1);
      HistoryInv(states, actions, j - 1);
      FinishedStays(states[j - 1], actions[j - 1], r);
    }
  }

  lemma FinishedStays(s: State, a: Action, r: nat)
    requires Inv(s) && Enabled(s, a) && Finished(s, r)
    ensures Finished(Apply(s, a), r)
  {
    if a.FinishJob? { FinishJobIsCounted(s, a.r, a.job); }
    hide Inv;
    RunStays(s, a, r);
  }

  /** A closed run with no job left is not touched by any step but the end of one of its jobs. */
  lemma RunStays(s: State, a: Action, r: nat)
    requires Enabled(s, a) && Finished(s, r)
    requires a.FinishJob? ==> a.r != r
    ensures Finished(Apply(s, a), r)
  {
    hide CanInvoke, CanAcquire, CanStart, CanEntry, CanStop, CanFallBack, CanGiveUp, CanSweep, CanSweepEnd;
    hide Goes, GoneBy, Drop;
    hide ReturnsEarly, ClosesChannel;
  }

  /** If Stop or Shutdown returns nil, every run started before the call has left its loop
      and has no job in flight, then and in every later state. */
  lemma StopMeansFinished(states: seq<State>, actions: seq<Action>, k: nat, t: nat, i: nat, j: nat, r: nat)
    requires IsHistory(states, actions) && k < i <= j < |states|
    requires actions[k].Invoke? && actions[k].t == t && actions[k].pc.StopWait?
    requires t in states[i].calls && states[i].calls[t].Stopped?
    requires r < |states[k].runs|
    ensures Finished(states[j], r) && states[j].runs[r].jobs == {}
  {
    hide IsHistory;
    BoundSince(states, actions, k, i, t);
    HistoryInv(states, actions, i);
    assert CallInv(states[i], states[i].calls[t]);
    FinishedForEver(states, actions, i, j, r);
    JobsAreCounted(states, actions, j, r);
  }

  /** Shutdown never cancels the contexts of jobs: only Stop and the caller's own context do. */
  lemma OnlyStopCancelsJobs(s: State, a: Action, r: nat)
    requires Enabled(s, a) && r < |s.runs| && !s.runs[r].jobsCancelled
    ensures r < |Apply(s, a).runs|
    ensures Apply(s, a).runs[r].jobsCancelled ==>
              a == ParentCancel(r) || (a.StepStop? && s.calls[a.t].StopCancel? && s.calls[a.t].hard && r in s.list)
  {
    hide CanInvoke, CanAcquire, CanFallBack, CanGiveUp, CanSweep, CanSweepEnd, Goes, GoneBy, Drop, ReturnsEarly;
    hide ClosesChannel;
    hide AfterStop, CanStop;
    if a.StepStop? { OnlyStopHardCancels(s, a.t, r); }
  }

  lemma OnlyStopHardCancels(s: State, t: nat, r: nat)
    requires CanStop(s, t) && r < |s.runs| && !s.runs[r].jobsCancelled
    ensures r < |AfterStop(s, t).runs|
    ensures AfterStop(s, t).runs[r].jobsCancelled ==> s.calls[t].StopCancel? && s.calls[t].hard && r in s.list
  {
  }
}
