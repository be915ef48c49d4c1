/** How the ids of entries move from place to place (cron.go), in every history, whether or not
    starts are kept apart from waiting calls. */
module EntryFlow {
  import opened EntryConservation
  import opened Lifecycle
  import opened Results

  /** Where an id can be: in the entries, taken out, with a call, with a loop. */
  datatype Place = Entries | Gone | InCall(t: nat) | InLoop(r: nat)

  predicate CallHas(pc: CallPc, id: nat) {
    HeldBy(pc) == Some(id) || (pc.EntryWrite? && id in pc.value)
  }

  predicate LoopHas(loop: LoopPc, id: nat) {
    LoopHolds(loop) == Some(id) || (loop.Writing? && id in loop.value)
  }

  predicate Has(s: State, p: Place, id: nat) {
    match p
    case Entries => id in s.entries
    case Gone => id in s.gone
    case InCall(t) => t in s.calls && CallHas(s.calls[t], id)
    case InLoop(r) => r < |s.runs| && LoopHas(s.runs[r].loop, id)
  }

  /** An id that was handed out, that no removal took out, and that is nowhere. */
  ghost predicate Lost(s: State, id: nat) {
    1 <= id <= s.nextId && forall p :: !Has(s, p, id)
  }

  /** An id is handed from one place to another. */
  predicate Passed(s: State, a: Action, p: Place, id: nat) {
    || (a.Send? && p == InLoop(a.q) && Has(s, InCall(a.t), id))
    || (a.StepEntry? && p == Entries && a.t in s.calls && s.calls[a.t].EntryWrite? && Has(s, InCall(a.t), id))
    || (a.Write? && p == Entries && Has(s, InLoop(a.r), id))
  }

  /** Where an id can have come from in one step. */
  predicate Comes(s: State, a: Action, s': State, p: Place, id: nat) {
    || Has(s, p, id) || Has(s, Entries, id) || Passed(s, a, p, id)
    || (a.Acquire? && p == InCall(a.t) && id == s.nextId + 1 == s'.nextId)
  }

  /** A step of one call that leaves the loops and the entries alone. */
  lemma CallFlow(s: State, a: Action, s': State, t: nat, p: Place, id: nat)
    requires t in s'.calls && s'.calls == s.calls[t := s'.calls[t]] && s'.entries == s.entries && s'.gone == s.gone
    requires forall r | 0 <= r < |s'.runs| && LoopHas(s'.runs[r].loop, id) ::
               r < |s.runs| && LoopHas(s.runs[r].loop, id)
    requires CallHas(s'.calls[t], id) ==> Comes(s, a, s', InCall(t), id)
    requires Has(s', p, id)
    ensures Comes(s, a, s', p, id)
  {
    hide CallHas, LoopHas;
  }

  /** A step of one run that leaves the calls and the entries alone. */
  lemma RunFlow(s: State, a: Action, s': State, r: nat, p: Place, id: nat)
    requires s'.calls == s.calls && s'.entries == s.entries && s'.gone == s.gone
    requires r < |s.runs| && |s'.runs| == |s.runs| && s'.runs == s.runs[r := s'.runs[r]]
    requires LoopHas(s'.runs[r].loop, id) ==> Comes(s, a, s', InLoop(r), id)
    requires Has(s', p, id)
    ensures Comes(s, a, s', p, id)
  {
    hide CallHas, LoopHas;
  }

  lemma AcquireFlow(s: State, t: nat, p: Place, id: nat)
    requires CanAcquire(s, t) && Has(AfterAcquire(s, t), p, id)
    ensures Comes(s, Acquire(t), AfterAcquire(s, t), p, id)
  {
    var s' := AfterAcquire(s, t);
    assert CallHas(s'.calls[t], id) ==> Comes(s, Acquire(t), s', InCall(t), id);
    hide Has, CallHas, LoopHas, Comes;
    SameLoopsHave(s, s', id);
    CallFlow(s, Acquire(t), s', t, p, id);
  }

  lemma SameLoopsHave(s: State, s': State, id: nat)
    requires s'.runs == s.runs
    ensures forall r | 0 <= r < |s'.runs| && LoopHas(s'.runs[r].loop, id) :: r < |s.runs| && LoopHas(s.runs[r].loop, id)
  {
  }

  lemma StartFlow(s: State, t: nat, p: Place, id: nat)
    requires CanStart(s, t) && Has(AfterStart(s, t), p, id)
    ensures Comes(s, StepStart(t), AfterStart(s, t), p, id)
  {
    var s' := AfterStart(s, t);
    assert !CallHas(s'.calls[t], id) && !LoopHas(Sorting, id);
    assert forall r | 0 <= r < |s'.runs| :: s'.runs[r].loop == if r < |s.runs| then s.runs[r].loop else Sorting;
    hide Has, CallHas, LoopHas, Comes;
    CallFlow(s, StepStart(t), s', t, p, id);
  }

  lemma EntryFlows(s: State, t: nat, p: Place, id: nat)
    requires CanEntry(s, t) && Has(AfterEntry(s, t), p, id)
    ensures Comes(s, StepEntry(t), AfterEntry(s, t), p, id)
  {
    var s', pc := AfterEntry(s, t), s.calls[t];
    if pc.EntryWrite? {
      assert s'.runs == s.runs && s'.entries == pc.value && s'.gone == s.gone + GoneBy(pc.op, s.entries);
      assert !CallHas(Done, id);
      hide LoopHas;
    } else {
      assert CallHas(s'.calls[t], id) ==> Comes(s, StepEntry(t), s', InCall(t), id) by {
        if pc.EntryAccess? && pc.op.Remove? && id in Drop(s.entries, pc.op.id) { DropMembers(s.entries, pc.op.id); }
      }
      assert s'.runs == s.runs && s'.entries == s.entries && s'.gone == s.gone;
      hide Has, CallHas, LoopHas, Comes;
      SameLoopsHave(s, s', id);
      CallFlow(s, StepEntry(t), s', t, p, id);
    }
  }

  lemma SendFlow(s: State, t: nat, q: nat, p: Place, id: nat)
    requires CanSend(s, t, q) && Has(AfterSend(s, t, q), p, id)
    ensures Comes(s, Send(t, q), AfterSend(s, t, q), p, id)
  {
  }

  lemma StopFlow(s: State, t: nat, p: Place, id: nat)
    requires CanStop(s, t) && Has(AfterStop(s, t), p, id)
    ensures Comes(s, StepStop(t), AfterStop(s, t), p, id)
  {
    var s' := AfterStop(s, t);
    StopTouches(s, t);
    StopHoldsNothing(s, t);
    assert !s'.calls[t].EntryWrite?;
    assert !CallHas(s'.calls[t], id);
    hide AfterStop, CanStop, Has, CallHas, Comes, HeldBy;
    CallFlow(s, StepStop(t), s', t, p, id);
  }

  lemma SweepEndFlow(s: State, p: Place, id: nat)
    requires CanSweepEnd(s) && Has(AfterSweepEnd(s), p, id)
    ensures Comes(s, SweepEnd, AfterSweepEnd(s), p, id)
  {
    var s' := AfterSweepEnd(s);
    assert s'.runs == s.runs && s'.entries == s.entries && s'.gone == s.gone;
    hide LoopHas;
  }

  lemma WorkFlow(s: State, r: nat, value: seq<nat>, p: Place, id: nat)
    requires CanWork(s, r, value) && Has(AfterWork(s, r, value), p, id)
    ensures Comes(s, Work(r, value), AfterWork(s, r, value), p, id)
  {
    var s', loop := AfterWork(s, r, value), s.runs[r].loop;
    if id in value {
      if loop.Sorting? {
        assert id in multiset(value);
        assert id in multiset(s.entries);
      } else if loop.Removing? {
        DropMembers(s.entries, loop.id);
      }
    }
    assert LoopHas(s'.runs[r].loop, id) ==> Comes(s, Work(r, value), s', InLoop(r), id);
    hide CanWork, Has, CallHas, LoopHas, Comes;
    RunFlow(s, Work(r, value), s', r, p, id);
  }

  lemma WriteFlow(s: State, r: nat, p: Place, id: nat)
    requires CanWrite(s, r) && Has(AfterWrite(s, r), p, id)
    ensures Comes(s, Write(r), AfterWrite(s, r), p, id)
  {
    hide CallHas;
  }

  lemma OtherRunFlow(s: State, a: Action, p: Place, id: nat)
    requires a.StartJob? || a.FinishJob? || a.Move? || a.StoreFalse? || a.ParentCancel?
    requires Enabled(s, a) && Has(Apply(s, a), p, id)
    ensures Comes(s, a, Apply(s, a), p, id)
  {
    var s' := Apply(s, a);
    hide ReturnsEarly, ClosesChannel;
    assert LoopHas(s'.runs[a.r].loop, id) ==> LoopHas(s.runs[a.r].loop, id);
    assert s'.calls == s.calls && s'.entries == s.entries && s'.gone == s.gone;
    assert |s'.runs| == |s.runs| && s'.runs == s.runs[a.r := s'.runs[a.r]];
    assert LoopHas(s'.runs[a.r].loop, id) ==> Comes(s, a, s', InLoop(a.r), id);
    hide Enabled, Apply, Has, CallHas, LoopHas, Comes;
    RunFlow(s, a, s', a.r, p, id);
  }

  lemma OtherCallFlow(s: State, a: Action, p: Place, id: nat)
    requires a.Invoke? || a.FallBack? || a.GiveUp? || a.Sweep?
    requires Enabled(s, a) && Has(Apply(s, a), p, id)
    ensures Comes(s, a, Apply(s, a), p, id)
  {
    hide LoopHas;
  }

  /** In one step an id comes to a place only from where it was, from the entries, from the hand
      that passes it on, or by being handed out. */
  lemma Flow(s: State, a: Action, p: Place, id: nat)
    requires Enabled(s, a) && Has(Apply(s, a), p, id)
    ensures Comes(s, a, Apply(s, a), p, id)
  {
    hide Has, Comes, CanAcquire, CanStart, CanEntry, CanSend, CanStop, CanSweepEnd, CanWork, CanWrite;
    hide AfterAcquire, AfterStart, AfterEntry, AfterSend, AfterStop, AfterSweepEnd, AfterWork, AfterWrite;
    match a {
      case Acquire(t) => AcquireFlow(s, t, p, id);
      case StepStart(t) => StartFlow(s, t, p, id);
      case StepEntry(t) => EntryFlows(s, t, p, id);
      case StepStop(t) => StopFlow(s, t, p, id);
      case Send(t, q) => SendFlow(s, t, q, p, id);
      case SweepEnd => SweepEndFlow(s, p, id);
      case Work(r, value) => WorkFlow(s, r, value, p, id);
      case Write(r) => WriteFlow(s, r, p, id);
      case StartJob(_) => OtherRunFlow(s, a, p, id);
      case FinishJob(_, _) => OtherRunFlow(s, a, p, id);
      case Move(_, _) => OtherRunFlow(s, a, p, id);
      case StoreFalse(_) => OtherRunFlow(s, a, p, id);
      case ParentCancel(_) => OtherRunFlow(s, a, p, id);
      case Invoke(_, _) => OtherCallFlow(s, a, p, id);
      case FallBack(_) => OtherCallFlow(s, a, p, id);
      case GiveUp(_) => OtherCallFlow(s, a, p, id);
      case Sweep => OtherCallFlow(s, a, p, id);
    }
  }

  // ---------- what every history keeps ----------

  /** Only ids that were handed out are anywhere. */
  ghost predicate Known(s: State) {
    forall p, id: nat :: Has(s, p, id) ==> 1 <= id <= s.nextId
  }

  /** The id a call has been given and has not yet worked into a list. */
  function Carries(s: State, u: nat): Option<nat> {
    if u in s.calls && !s.calls[u].EntryWrite? then HeldBy(s.calls[u]) else None
  }

  /** Such an id is nowhere else. */
  ghost predicate Private(s: State) {
    forall u: nat, p, id: nat :: Carries(s, u) == Some(id) && Has(s, p, id) ==> p == InCall(u)
  }

  lemma IdsGrow(s: State, a: Action)
    requires Enabled(s, a)
    ensures s.nextId <= Apply(s, a).nextId
  {
    hide CanInvoke, CanFallBack, CanGiveUp, CanSweep, CanWork, CanMove, CanStoreFalse, CanFinishJob, CanStartJob;
    hide ReturnsEarly, ClosesChannel, Goes, GoneBy, Cancel;
  }

  lemma StepKeepsKnown(s: State, a: Action)
    requires Known(s) && Enabled(s, a)
    ensures Known(Apply(s, a))
  {
    hide Has, Enabled, Apply;
    IdsGrow(s, a);
    forall p, id: nat | Has(Apply(s, a), p, id) ensures 1 <= id <= Apply(s, a).nextId { Flow(s, a, p, id); }
  }

  /** Whoever carries an id has carried it before or has just been given it, and has not passed it on. */
  predicate Keeps(s: State, a: Action, s': State, u: nat, id: nat) {
    || (&& Carries(s, u) == Some(id) && !(a.Send? && a.t == u)
        && !(a.StepEntry? && a.t == u && u in s.calls && s.calls[u].EntryWrite?))
    || (a == Acquire(u) && id == s.nextId + 1 == s'.nextId)
  }

  lemma CallStepKeeps(s: State, a: Action, u: nat, id: nat)
    requires Enabled(s, a) && Carries(Apply(s, a), u) == Some(id)
    requires a == Acquire(u) || a == StepStart(u) || a == StepEntry(u) || a == StepStop(u)
    ensures Keeps(s, a, Apply(s, a), u, id)
  {
    hide Cancel, Goes, GoneBy;
    match a {
      case Acquire(_) =>
      case StepStart(_) =>
      case StepEntry(_) =>
      case StepStop(_) =>
        StopHoldsNothing(s, u);
    }
  }

  lemma StepKeepsCarriers(s: State, a: Action, u: nat, id: nat)
    requires Enabled(s, a) && Carries(Apply(s, a), u) == Some(id)
    ensures Keeps(s, a, Apply(s, a), u, id)
  {
    if a == Acquire(u) || a == StepStart(u) || a == StepEntry(u) || a == StepStop(u) {
      hide Enabled, Apply, Carries;
      CallStepKeeps(s, a, u, id);
    } else {
      OtherStepKeeps(s, a, u, id);
    }
  }

  lemma OtherStepKeeps(s: State, a: Action, u: nat, id: nat)
    requires Enabled(s, a) && Carries(Apply(s, a), u) == Some(id)
    requires a != Acquire(u) && a != StepStart(u) && a != StepEntry(u) && a != StepStop(u)
    ensures Keeps(s, a, Apply(s, a), u, id)
  {
    hide Cancel, Goes, GoneBy, ReturnsEarly, ClosesChannel, CanSweep, CanWork, CanMove, CanFinishJob;
    hide CanStartJob, CanWrite, Drop, LoopDoneOf;
  }

  lemma StepKeepsPrivate(s: State, a: Action)
    requires Known(s) && Private(s) && Enabled(s, a)
    ensures Private(Apply(s, a))
  {
    var s' := Apply(s, a);
    hide Enabled, Apply;
    forall u: nat, p, id: nat | Carries(s', u) == Some(id) && Has(s', p, id) ensures p == InCall(u) {
      StepKeepsCarriers(s, a, u, id);
      Flow(s, a, p, id);
      if Carries(s, u) == Some(id) { CarriedIsThere(s, u, id); }
      hide Has, Carries, Known;
      OnlyThere(s, a, s', u, p, id);
    }
  }

  lemma CarriedIsThere(s: State, u: nat, id: nat)
    requires Carries(s, u) == Some(id)
    ensures Has(s, InCall(u), id)
  {
  }

  lemma OnlyThere(s: State, a: Action, s': State, u: nat, p: Place, id: nat)
    requires Known(s) && Private(s) && Keeps(s, a, s', u, id) && Comes(s, a, s', p, id)
    requires Carries(s, u) == Some(id) ==> Has(s, InCall(u), id)
    ensures p == InCall(u)
  {
    hide Has, Carries;
  }

  lemma {:induction false} HistoryKeepsPlaces(states: seq<State>, actions: seq<Action>, i: nat)
    requires IsHistory(states, actions) && i < |states|
    ensures Known(states[i]) && Private(states[i])
  {
    hide Enabled, Apply, Known, Private;
    if i == 0 {
      InitPlaces(states[0]);
    } else {
      HistoryKeepsPlaces(states, actions, i - 1);
      StepKeepsKnown(states[i - 1], actions[i - 1]);
      StepKeepsPrivate(states[i - 1], actions[i - 1]);
    }
  }

  lemma InitPlaces(s: State)
    requires Init(s)
    ensures Known(s) && Private(s)
  {
  }

  // ---------- lost ids ----------

  lemma LostStays(s: State, a: Action, id: nat)
    requires Lost(s, id) && Enabled(s, a)
    ensures Lost(Apply(s, a), id)
  {
    hide Has, Enabled, Apply;
    IdsGrow(s, a);
    forall p ensures !Has(Apply(s, a), p, id) {
      if Has(Apply(s, a), p, id) { Flow(s, a, p, id); }
    }
  }

  /** What is lost stays lost. */
  lemma {:induction false} LostForEver(states: seq<State>, actions: seq<Action>, i: nat, j: nat, id: nat)
    requires IsHistory(states, actions) && i <= j < |states| && Lost(states[i], id)
    ensures Lost(states[j], id)
  {
    hide Enabled, Apply, Lost;
    if i < j {
      LostForEver(states, actions, i, j - 1, id);
      LostStays(states[j - 1], actions[j - 1], id);
    }
  }

  /** An id can be lost only after a run was published while an Add or Remove was waiting. */
  lemma LossNeedsARace(states: seq<State>, actions: seq<Action>, i: nat, id: nat) returns (j: nat)
    requires IsHistory(states, actions) && i < |states| && Lost(states[i], id)
    ensures j < i && !Apart(states[j])
  {
    hide Lost, Apart, IsHistory;
    if j' :| 0 <= j' < i && !Apart(states[j']) {
      j := j';
    } else {
      NotLostWhileApart(states, actions, i, id);
      assert false;
    }
  }

  /** Taken out by a Remove, and among the entries all the same. */
  predicate Undone(s: State, id: nat) {
    id in s.gone && id in s.entries
  }

  /** A removal is undone only after a run was published while an Add or Remove was waiting. */
  lemma UndoingNeedsARace(states: seq<State>, actions: seq<Action>, i: nat, id: nat) returns (j: nat)
    requires IsHistory(states, actions) && i < |states| && Undone(states[i], id)
    ensures j < i && !Apart(states[j])
  {
    hide Apart, IsHistory, OwnerInv;
    if j' :| 0 <= j' < i && !Apart(states[j']) {
      j := j';
    } else {
      HistoryKeepsEntries(states, actions, i);
      assert false;
    }
  }

  lemma NotLostWhileApart(states: seq<State>, actions: seq<Action>, i: nat, id: nat)
    requires IsHistory(states, actions) && i < |states| && ApartBefore(states, i)
    ensures !Lost(states[i], id)
  {
    HistoryKeepsEntries(states, actions, i);
    if 1 <= id <= states[i].nextId {
      hide OwnerInv, PlaceInv, Has;
      InSomePlace(states[i], id);
    }
  }

  lemma InSomePlace(s: State, id: nat)
    requires PlaceInv(s) && 1 <= id <= s.nextId
    ensures exists p :: Has(s, p, id)
  {
    if id in s.entries {
      assert Has(s, Entries, id);
    } else if id in s.gone {
      assert Has(s, Gone, id);
    } else if t :| t in s.calls && HeldBy(s.calls[t]) == Some(id) {
      assert Has(s, InCall(t), id);
    } else {
      var r :| 0 <= r < |s.runs| && LoopHolds(s.runs[r].loop) == Some(id);
      assert Has(s, InLoop(r), id);
    }
  }
}
