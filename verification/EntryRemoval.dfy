/** What Remove promises in an interleaved history (cron.go:239-262): an entry that is there when
    Remove is called is gone once all calls have returned and the loop has handled what it was sent. */
module EntryRemoval {
  import opened EntryConservation
  import opened Lifecycle
  import opened LifecycleInvariant
  import opened LifecycleTheorems
  import opened Results

  ghost predicate CallAsks(s: State, t: nat, id: nat) {
    t in s.calls && AskedBy(s.calls[t]) == Some(id)
  }

  ghost predicate LoopAsks(s: State, r: nat, id: nat) {
    r < |s.runs| && LoopAsked(s.runs[r].loop) == Some(id)
  }

  /** A call or a loop still has the removal to do. */
  ghost predicate Asking(s: State, id: nat) {
    (exists t :: CallAsks(s, t, id)) || (exists r :: LoopAsks(s, r, id))
  }

  /** Taken out, or there with someone about to take it out. */
  ghost predicate Pending(s: State, id: nat) {
    id in s.gone || (id in s.entries && Asking(s, id))
  }

  // ---------- the entries ----------

  lemma CallStoreKeeps(s: State, t: nat, id: nat)
    requires OwnerInv(s) && CanEntry(s, t) && s.calls[t].EntryWrite? && id in s.entries
    ensures var s' := AfterEntry(s, t); id in s'.gone || (id in s'.entries && s.calls[t].op != Remove(id))
  {
    assert OwnerClaim(s, s.calls[t]);
    var op := s.calls[t].op;
    if op.Remove? { DropMembers(s.entries, op.id); }
  }

  lemma LoopStoreKeeps(s: State, r: nat, id: nat)
    requires OwnerInv(s) && CanWrite(s, r) && id in s.entries
    ensures var s' := AfterWrite(s, r); id in s'.gone || (id in s'.entries && s.runs[r].loop.dropping != Some(id))
  {
    var w := s.runs[r].loop;
    assert LoopClaim(s.entries, w);
    if w.dropping.Some? {
      DropMembers(s.entries, w.dropping.value);
    } else if w.adding.None? {
      assert id in multiset(s.entries);
      assert id in multiset(w.value);
    }
  }

  /** Every other step leaves the entries and what is gone alone. */
  lemma OthersKeepEntries(s: State, a: Action)
    requires Enabled(s, a) && !a.Write? && !(a.StepEntry? && s.calls[a.t].EntryWrite?)
    ensures Apply(s, a).entries == s.entries && Apply(s, a).gone == s.gone
  {
    if a.StepStop? {
      StopTouches(s, a.t);
      StopHoldsNothing(s, a.t);
      hide AfterStop, CanStop;
    } else {
      hide CanInvoke, CanFallBack, CanGiveUp, CanSweep, CanWork, CanMove, CanStoreFalse, CanFinishJob, CanStartJob;
      hide ReturnsEarly, ClosesChannel, Goes, GoneBy, Cancel, CanSweepEnd, CanStart, CanAcquire, AfterStop;
    }
  }

  lemma GoneGrows(s: State, a: Action)
    requires Enabled(s, a)
    ensures s.gone <= Apply(s, a).gone
  {
    if a.Write? {
      hide GoneBy;
    } else if a.StepEntry? && s.calls[a.t].EntryWrite? {
      hide GoneBy;
    } else {
      hide Enabled, Apply;
      OthersKeepEntries(s, a);
    }
  }

  // ---------- who is asking ----------

  /** A call that was asked to remove stays so, hands the request to a loop, or removes. */
  lemma CallStaysAsking(s: State, a: Action, t: nat, id: nat)
    requires Enabled(s, a) && CallAsks(s, t, id)
    ensures var s' := Apply(s, a);
            || CallAsks(s', t, id)
            || (a.Send? && a.t == t && LoopAsks(s', a.q, id))
            || (a == StepEntry(t) && s.calls[t].EntryWrite? && s.calls[t].op == Remove(id))
  {
    if a.StepStop? {
      StopTouches(s, a.t);
      assert a.t != t by { StopIsNoEntry(s, a.t); }
      hide AfterStop, CanStop, AskedBy;
    } else if a.Acquire? || a.StepStart? || a.StepEntry? {
      CallStepStaysAsking(s, a, t, id);
    } else if a.Send? {
      hide CanSweep, CanWork, CanMove, CanFinishJob, CanStartJob, CanWrite;
    } else if a.SweepEnd? {
      hide CanSweep, CanWork, CanMove, CanFinishJob, CanStartJob, CanWrite, Unlock;
    } else {
      hide ReturnsEarly, ClosesChannel, GoneBy, CanSweep, CanWork, CanMove, CanFinishJob, CanStartJob, CanWrite;
    }
  }

  lemma CallStepStaysAsking(s: State, a: Action, t: nat, id: nat)
    requires Enabled(s, a) && CallAsks(s, t, id) && (a.Acquire? || a.StepStart? || a.StepEntry?)
    ensures CallAsks(Apply(s, a), t, id) || (a == StepEntry(t) && s.calls[t].EntryWrite? && s.calls[t].op == Remove(id))
  {
    hide Goes, GoneBy, LoopDoneOf;
    match a {
      case Acquire(u) =>
      case StepStart(u) =>
      case StepEntry(u) =>
    }
  }

  lemma StopIsNoEntry(s: State, u: nat)
    requires CanStop(s, u)
    ensures AskedBy(s.calls[u]).None?
  {
  }

  /** A loop that was asked to remove stays so until it has. */
  lemma LoopStaysAsking(s: State, a: Action, r: nat, id: nat)
    requires Enabled(s, a) && LoopAsks(s, r, id)
    ensures var s' := Apply(s, a);
            LoopAsks(s', r, id) || (a == Write(r) && s.runs[r].loop.Writing? && s.runs[r].loop.dropping == Some(id))
  {
    if a.StepStop? {
      StopTouches(s, a.t);
      hide AfterStop, CanStop;
    } else if OfTheLoops(a) {
      hide LoopAsked;
      LoopStepStaysAsking(s, a, r, id);
    } else {
      hide OfTheLoops, LoopAsked;
      OthersKeepRuns(s, a, r);
    }
  }

  predicate OfTheLoops(a: Action) {
    a.Send? || a.Work? || a.Write? || a.StartJob? || a.FinishJob? || a.Move? || a.StoreFalse? || a.ParentCancel?
  }

  lemma LoopStepStaysAsking(s: State, a: Action, r: nat, id: nat)
    requires Enabled(s, a) && LoopAsks(s, r, id) && OfTheLoops(a)
    ensures var s' := Apply(s, a);
            LoopAsks(s', r, id) || (a == Write(r) && s.runs[r].loop.Writing? && s.runs[r].loop.dropping == Some(id))
  {
    hide Drop, ReturnsEarly, ClosesChannel, GoneBy;
    match a {
      case Send(_, q) =>
      case Work(q, _) =>
      case Write(q) =>
      case StartJob(q) =>
      case FinishJob(q, _) =>
      case Move(q, _) =>
      case StoreFalse(q) =>
      case ParentCancel(q) =>
      case _ =>
    }
  }

  /** The other steps leave the loop of every run alone. */
  lemma OthersKeepRuns(s: State, a: Action, r: nat)
    requires Enabled(s, a) && !a.StepStop? && !OfTheLoops(a) && r < |s.runs|
    ensures |s.runs| <= |Apply(s, a).runs| && Apply(s, a).runs[r].loop == s.runs[r].loop
  {
    hide Goes, GoneBy, CanSweep, CanSweepEnd, CanFallBack, CanInvoke, CanGiveUp;
  }

  // ---------- every step, every history ----------

  lemma PendingStays(s: State, a: Action, id: nat)
    requires OwnerInv(s) && Enabled(s, a) && Pending(s, id)
    ensures Pending(Apply(s, a), id)
  {
    GoneGrows(s, a);
    if id !in s.gone {
      EntryStays(s, a, id);
      hide Enabled, Apply, OwnerInv, CallAsks, LoopAsks;
      if t :| CallAsks(s, t, id) {
        CallStaysAsking(s, a, t, id);
      } else {
        var r :| LoopAsks(s, r, id);
        LoopStaysAsking(s, a, r, id);
      }
    }
  }

  lemma EntryStays(s: State, a: Action, id: nat)
    requires OwnerInv(s) && Enabled(s, a) && id in s.entries
    ensures var s' := Apply(s, a);
            || id in s'.gone
            || (&& id in s'.entries
                && (a.StepEntry? && a.t in s.calls && s.calls[a.t].EntryWrite? ==> s.calls[a.t].op != Remove(id))
                && (a.Write? && a.r < |s.runs| && s.runs[a.r].loop.Writing? ==> s.runs[a.r].loop.dropping != Some(id)))
  {
    if a.Write? {
      LoopStoreKeeps(s, a.r, id);
    } else if a.StepEntry? && s.calls[a.t].EntryWrite? {
      CallStoreKeeps(s, a.t, id);
    } else {
      hide Apply, OwnerInv;
      OthersKeepEntries(s, a);
    }
  }

  lemma AsksFromTheStart(s: State, a: Action, t: nat, id: nat)
    requires Enabled(s, a) && a == Invoke(t, EntryWait(Remove(id))) && (id in s.entries || id in s.gone)
    ensures Pending(Apply(s, a), id)
  {
    assert CallAsks(Apply(s, a), t, id);
  }

  lemma {:induction false} PendingSince(states: seq<State>, actions: seq<Action>, k: nat, i: nat, t: nat, id: nat)
    requires IsHistory(states, actions) && ApartBefore(states, i) && k < i < |states|
    requires actions[k] == Invoke(t, EntryWait(Remove(id))) && (id in states[k].entries || id in states[k].gone)
    ensures Pending(states[i], id)
  {
    hide Enabled, Apply, OwnerInv, PlaceInv, Apart, Pending;
    StepOfHistory(states, actions, i - 1);
    if i - 1 == k {
      AsksFromTheStart(states[k], actions[k], t, id);
    } else {
      PendingSince(states, actions, k, i - 1, t, id);
      HistoryKeepsEntries(states, actions, i - 1);
      PendingStays(states[i - 1], actions[i - 1], id);
    }
  }

  /** An entry that is there when Remove is called, or is already gone, is gone for good once all
      calls have returned and no loop has a request in hand, whichever way the request went. */
  lemma RemovedEntriesAreGone(states: seq<State>, actions: seq<Action>, k: nat, i: nat, t: nat, id: nat)
    requires IsHistory(states, actions) && ApartBefore(states, i) && k < i < |states| && Settled(states[i])
    requires actions[k] == Invoke(t, EntryWait(Remove(id))) && (id in states[k].entries || id in states[k].gone)
    ensures id in states[i].gone && id !in states[i].entries
  {
    hide IsHistory, ApartBefore, OwnerInv;
    PendingSince(states, actions, k, i, t, id);
    HistoryKeepsEntries(states, actions, i);
    NobodyAsks(states[i], id);
  }

  lemma NobodyAsks(s: State, id: nat)
    requires Settled(s)
    ensures !Asking(s, id)
  {
  }
}
