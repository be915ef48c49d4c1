/** No entry is lost or doubled (cron.go): in a history in which no run is published while an
    Add or Remove waits for the loop of an older one, the entries always have one owner, and
    every id handed out is in exactly one place. That a removed one is gone: EntryRemoval. */
module EntryConservation {
  import opened Lifecycle
  import opened LifecycleInvariant
  import opened LifecycleTheorems
  import opened Results

  predicate EntryPc(pc: CallPc) {
    || pc.EntryWait? || pc.EntryLocked? || pc.EntryOn? || pc.EntryAccess? || pc.EntryWrite?
    || pc.EntrySelect? || pc.EntryFallback?
  }

  /** An Add or Remove at its select, or about to fall back to the entries themselves. */
  predicate Waiting(pc: CallPc) {
    (pc.EntrySelect? || pc.EntryFallback?) && !pc.op.List?
  }

  /** No run is being published while an Add or Remove waits. A Start that is still waiting for
      the mutex, that finds the scheduler running, or that is over is no obstacle. */
  ghost predicate Apart(s: State) {
    forall t, u | t in s.calls && u in s.calls :: !(s.calls[t].StartPublish? && Waiting(s.calls[u]))
  }

  // ---------- ownership ----------

  ghost predicate NoLoop(s: State) {
    forall q | 0 <= q < |s.runs| :: !Unstored(s.runs[q].loop)
  }

  ghost predicate OnlyLoop(s: State, r: nat) {
    r < |s.runs| && forall q | 0 <= q < |s.runs| && Unstored(s.runs[q].loop) :: q == r
  }

  /** A call that changes the entries itself does so while there is no loop, and stores what
      follows from the entries as they still are. */
  ghost predicate OwnerClaim(s: State, pc: CallPc) {
    match pc
    case EntrySelect(op, run) => op.List? || OnlyLoop(s, run)
    case EntryFallback(op) => op.List? || NoLoop(s)
    case EntryAccess(op, _) => op.List? || NoLoop(s)
    case EntryWrite(op, value, _) => NoLoop(s) && value == Goes(op, s.entries)
    case _ => true
  }

  /** A loop that is about to store stores what follows from the entries as they still are. */
  predicate LoopClaim(entries: seq<nat>, loop: LoopPc) {
    loop.Writing? ==>
      match (loop.adding, loop.dropping)
      case (Some(id), None) => loop.value == entries + [id]
      case (None, Some(id)) => loop.value == Drop(entries, id)
      case (None, None) => multiset(loop.value) == multiset(entries)
      case (Some(_), Some(_)) => false
  }

  ghost predicate OwnerInv(s: State) {
    && (forall t | t in s.calls :: OwnerClaim(s, s.calls[t]))
    && (forall r | 0 <= r < |s.runs| :: LoopClaim(s.entries, s.runs[r].loop))
  }

  /** Loops may end, but none begins and none but the given call touches the entries. */
  ghost predicate LoopsOnlyEnd(s: State, s': State) {
    |s'.runs| == |s.runs| && forall q | 0 <= q < |s.runs| && Unstored(s'.runs[q].loop) :: Unstored(s.runs[q].loop)
  }

  lemma OwnerClaimKept(s: State, s': State, pc: CallPc)
    requires OwnerClaim(s, pc) && LoopsOnlyEnd(s, s') && (pc.EntryWrite? ==> s'.entries == s.entries)
    ensures OwnerClaim(s', pc)
  {
    hide Goes;
  }

  /** A step that neither begins a loop nor changes the entries. */
  lemma OwnersKept(s: State, s': State, t: nat)
    requires OwnerInv(s) && LoopsOnlyEnd(s, s') && s'.entries == s.entries
    requires forall u | u in s'.calls && u != t :: u in s.calls && s'.calls[u] == s.calls[u]
    requires t in s'.calls ==> OwnerClaim(s', s'.calls[t])
    requires forall r | 0 <= r < |s.runs| && s'.runs[r].loop != s.runs[r].loop :: LoopClaim(s.entries, s'.runs[r].loop)
    ensures OwnerInv(s')
  {
    hide OwnerClaim, LoopClaim, LoopsOnlyEnd;
    forall u | u in s'.calls && u != t ensures OwnerClaim(s', s'.calls[u]) { OwnerClaimKept(s, s', s.calls[u]); }
    SameCount(s, s');
  }

  lemma SameCount(s: State, s': State)
    requires LoopsOnlyEnd(s, s')
    ensures |s'.runs| == |s.runs|
  {
  }

  lemma CallOwners(s: State, s': State, t: nat, pc: CallPc)
    requires OwnerInv(s) && s'.runs == s.runs && s'.entries == s.entries && s'.calls == s.calls[t := pc]
    requires OwnerClaim(s, pc)
    ensures OwnerInv(s')
  {
    hide OwnerClaim, LoopClaim;
    assert LoopsOnlyEnd(s, s');
    hide LoopsOnlyEnd;
    NotTouched(s, s', pc);
    OwnersKept(s, s', t);
  }

  lemma NotTouched(s: State, s': State, pc: CallPc)
    requires OwnerClaim(s, pc) && s'.runs == s.runs && s'.entries == s.entries
    ensures OwnerClaim(s', pc)
  {
    hide Goes;
  }

  lemma LoopOwners(s: State, s': State, r: nat)
    requires OwnerInv(s) && r < |s.runs| && s'.entries == s.entries && s'.calls == s.calls
    requires |s'.runs| == |s.runs| && s'.runs == s.runs[r := s'.runs[r]]
    requires Unstored(s'.runs[r].loop) ==> Unstored(s.runs[r].loop)
    requires s'.runs[r].loop == s.runs[r].loop || LoopClaim(s.entries, s'.runs[r].loop)
    ensures OwnerInv(s')
  {
    hide OwnerClaim, LoopClaim;
    assert LoopsOnlyEnd(s, s');
    hide LoopsOnlyEnd;
    forall t | t in s.calls ensures OwnerClaim(s', s.calls[t]) { OwnerClaimKept(s, s', s.calls[t]); }
  }

  lemma AcquireOwners(s: State, t: nat)
    requires OwnerInv(s) && CanAcquire(s, t)
    ensures OwnerInv(AfterAcquire(s, t))
  {
    assert OwnerClaim(s, s.calls[t]);
    hide OwnerInv, NoLoop, OnlyLoop;
    CallOwners(s, AfterAcquire(s, t), t, AfterAcquire(s, t).calls[t]);
  }

  /** A new loop begins only while nobody else has a claim on the entries. */
  lemma StartOwners(s: State, t: nat)
    requires Inv(s) && OwnerInv(s) && Apart(s) && CanStart(s, t)
    ensures OwnerInv(AfterStart(s, t))
  {
    var s' := AfterStart(s, t);
    if s.calls[t].StartPublish? {
      OthersAreOutside(s, t);
      assert forall u | u in s.calls :: !Waiting(s.calls[u]);
      hide Inv, Apart;
      forall u | u in s'.calls ensures OwnerClaim(s', s'.calls[u]) {}
    } else {
      hide Inv, OwnerInv;
      CallOwners(s, s', t, s'.calls[t]);
    }
  }

  lemma EntryOwners(s: State, t: nat)
    requires Inv(s) && OwnerInv(s) && CanEntry(s, t) && !s.calls[t].EntryWrite?
    ensures OwnerInv(AfterEntry(s, t))
  {
    var s' := AfterEntry(s, t);
    assert OwnerClaim(s, s.calls[t]);
    assert CallInv(s, s.calls[t]);
    assert !s.running ==> NoLoop(s);
    assert s.current.Some? ==> OnlyLoop(s, s.current.value);
    hide Inv, OwnerInv, NoLoop, OnlyLoop, Goes;
    CallOwners(s, s', t, s'.calls[t]);
  }

  /** The entries change under a call's hand: no loop is there to be surprised. */
  lemma WriteOwners(s: State, t: nat)
    requires Inv(s) && OwnerInv(s) && CanEntry(s, t) && s.calls[t].EntryWrite?
    ensures OwnerInv(AfterEntry(s, t))
  {
    var s' := AfterEntry(s, t);
    assert OwnerClaim(s, s.calls[t]);
    assert s.mutex == Some(Caller(t));
    OthersAreOutside(s, t);
    hide Inv, Goes, GoneBy;
    forall r | 0 <= r < |s.runs| ensures LoopClaim(s'.entries, s.runs[r].loop) {
      assert !Unstored(s.runs[r].loop);
    }
    forall u | u in s'.calls ensures OwnerClaim(s', s'.calls[u]) {
      if u != t {
        assert OwnerClaim(s, s.calls[u]);
        OwnerClaimKept(s, s', s.calls[u]);
      }
    }
  }

  /** The entries change under the loop's hand: it is the only one, and no call is storing. */
  lemma LoopWriteOwners(s: State, r: nat)
    requires Inv(s) && OwnerInv(s) && CanWrite(s, r)
    ensures OwnerInv(AfterWrite(s, r))
  {
    var s' := AfterWrite(s, r);
    assert Unstored(s.runs[r].loop);
    forall q | 0 <= q < |s.runs| ensures LoopClaim(s'.entries, s'.runs[q].loop) {
      if q != r { assert !Unstored(s.runs[q].loop); }
    }
    hide Inv, GoneBy;
    assert LoopsOnlyEnd(s, s');
    forall u | u in s.calls ensures OwnerClaim(s', s.calls[u]) {
      assert OwnerClaim(s, s.calls[u]);
      assert !s.calls[u].EntryWrite?;
      OwnerClaimKept(s, s', s.calls[u]);
    }
  }

  lemma SendOwners(s: State, t: nat, q: nat)
    requires OwnerInv(s) && CanSend(s, t, q)
    ensures OwnerInv(AfterSend(s, t, q))
  {
    var s1, s' := Goto(s, t, Done), AfterSend(s, t, q);
    hide OwnerInv;
    CallOwners(s, s1, t, Done);
    LoopOwners(s1, s', q);
  }

  lemma FallBackOwners(s: State, t: nat)
    requires OwnerInv(s) && CanFallBack(s, t)
    ensures OwnerInv(AfterFallBack(s, t))
  {
    assert OwnerClaim(s, s.calls[t]);
    assert s.calls[t].op.List? || NoLoop(s);
    hide OwnerInv, NoLoop;
    CallOwners(s, AfterFallBack(s, t), t, AfterFallBack(s, t).calls[t]);
  }

  lemma StopOwners(s: State, t: nat)
    requires OwnerInv(s) && CanStop(s, t)
    ensures OwnerInv(AfterStop(s, t))
  {
    var s' := AfterStop(s, t);
    StopTouches(s, t);
    hide AfterStop, CanStop;
    assert LoopsOnlyEnd(s, s');
    hide LoopsOnlyEnd, LoopClaim;
    OwnersKept(s, s', t);
  }

  lemma StopTouches(s: State, t: nat)
    requires CanStop(s, t)
    ensures var s' := AfterStop(s, t);
            s'.entries == s.entries && |s'.runs| == |s.runs| && s'.calls == s.calls[t := s'.calls[t]] &&
            OwnerClaim(s', s'.calls[t]) && forall r | 0 <= r < |s.runs| :: s'.runs[r].loop == s.runs[r].loop
  {
  }

  lemma SweepEndOwners(s: State)
    requires OwnerInv(s) && CanSweepEnd(s)
    ensures OwnerInv(AfterSweepEnd(s))
  {
    var s' := AfterSweepEnd(s);
    if s.mutex.value.Caller? {
      var t := s.mutex.value.call;
      hide OwnerInv;
      CallOwners(s, s', t, s'.calls[t]);
    } else {
      SameOwners(s, s');
    }
  }

  lemma SameOwners(s: State, s': State)
    requires OwnerInv(s) && s'.runs == s.runs && s'.entries == s.entries && s'.calls == s.calls
    ensures OwnerInv(s')
  {
    hide OwnerClaim, LoopClaim;
    forall t | t in s.calls ensures OwnerClaim(s', s.calls[t]) { NotTouched(s, s', s.calls[t]); }
  }

  /** While no run is published beside a waiting Add or Remove, the entries have one owner. */
  lemma StepKeepsOwners(s: State, a: Action)
    requires Inv(s) && OwnerInv(s) && Apart(s) && Enabled(s, a)
    ensures OwnerInv(Apply(s, a))
  {
    hide Inv, OwnerInv, Apart, OwnerClaim, CanInvoke, CanAcquire, CanStart, CanEntry, CanStop, CanFallBack;
    hide CanSweep, CanSweepEnd;
    hide CanSend, AfterSend;
    match a {
      case Invoke(t, pc) => InvokeOwners(s, t, pc);
      case Acquire(t) => AcquireOwners(s, t);
      case StepStart(t) => StartOwners(s, t);
      case StepEntry(t) => StepEntryOwners(s, t);
      case StepStop(t) => StopOwners(s, t);
      case Send(t, q) => SendOwners(s, t, q);
      case FallBack(t) => FallBackOwners(s, t);
      case GiveUp(t) => GiveUpOwners(s, t);
      case Sweep => SameOwners(s, AfterSweep(s));
      case SweepEnd => SweepEndOwners(s);
      case Work(r, value) => WorkOwners(s, r, value);
      case Write(r) => LoopWriteOwners(s, r);
      case StartJob(r) => LoopOwners(s, AfterStartJob(s, r), r);
      case FinishJob(r, job) => LoopOwners(s, AfterFinishJob(s, r, job), r);
      case Move(r, loop) => LoopOwners(s, SetLoop(s, r, loop), r);
      case StoreFalse(r) => LoopOwners(s, AfterStoreFalse(s, r), r);
      case ParentCancel(r) => LoopOwners(s, AfterParentCancel(s, r), r);
    }
  }

  lemma InvokeOwners(s: State, t: nat, pc: CallPc)
    requires OwnerInv(s) && CanInvoke(s, t, pc)
    ensures OwnerInv(AfterInvoke(s, t, pc))
  {
    hide OwnerInv;
    CallOwners(s, AfterInvoke(s, t, pc), t, pc);
  }

  lemma GiveUpOwners(s: State, t: nat)
    requires OwnerInv(s) && CanGiveUp(s, t)
    ensures OwnerInv(Goto(s, t, Done))
  {
    hide OwnerInv;
    CallOwners(s, Goto(s, t, Done), t, Done);
  }

  lemma WorkOwners(s: State, r: nat, value: seq<nat>)
    requires OwnerInv(s) && CanWork(s, r, value)
    ensures OwnerInv(AfterWork(s, r, value))
  {
    hide OwnerInv, Drop;
    LoopOwners(s, AfterWork(s, r, value), r);
  }

  lemma StepEntryOwners(s: State, t: nat)
    requires Inv(s) && OwnerInv(s) && CanEntry(s, t)
    ensures OwnerInv(AfterEntry(s, t))
  {
    hide Inv, OwnerInv;
    if s.calls[t].EntryWrite? { WriteOwners(s, t); } else { EntryOwners(s, t); }
  }

  // ---------- where each id is ----------

  /** The id a call carries into the entries, and the id it asks to remove. */
  function HeldBy(pc: CallPc): Option<nat> {
    if EntryPc(pc) && !pc.EntryWait? && pc.op.Add? then Some(pc.op.id) else None
  }

  function AskedBy(pc: CallPc): Option<nat> {
    if EntryPc(pc) && pc.op.Remove? then Some(pc.op.id) else None
  }

  function LoopHolds(loop: LoopPc): Option<nat> {
    match loop
    case Appending(id) => Some(id)
    case Writing(_, adding, _) => adding
    case _ => None
  }

  function LoopAsked(loop: LoopPc): Option<nat> {
    match loop
    case Removing(id) => Some(id)
    case Writing(_, _, dropping) => dropping
    case _ => None
  }

  predicate NoDuplicates(ids: seq<nat>) {
    forall i, j | 0 <= i < j < |ids| :: ids[i] != ids[j]
  }

  /** An id that has been handed out and is still on its way. */
  predicate OnItsWay(s: State, id: nat) {
    1 <= id <= s.nextId && id !in s.entries && id !in s.gone
  }

  ghost predicate HeldSomewhere(s: State, id: nat) {
    || (exists t :: t in s.calls && HeldBy(s.calls[t]) == Some(id))
    || (exists r :: 0 <= r < |s.runs| && LoopHolds(s.runs[r].loop) == Some(id))
  }

  ghost predicate CallsHold(s: State) {
    && (forall t | t in s.calls && HeldBy(s.calls[t]).Some? :: OnItsWay(s, HeldBy(s.calls[t]).value))
    && (forall t, u | t in s.calls && u in s.calls && t != u && HeldBy(s.calls[t]).Some? ::
          HeldBy(s.calls[t]) != HeldBy(s.calls[u]))
  }

  ghost predicate LoopsHold(s: State) {
    forall r | 0 <= r < |s.runs| && LoopHolds(s.runs[r].loop).Some? ::
      && OnItsWay(s, LoopHolds(s.runs[r].loop).value)
      && forall t | t in s.calls :: HeldBy(s.calls[t]) != LoopHolds(s.runs[r].loop)
  }

  ghost predicate AskedInv(s: State) {
    && s.gone <= s.asked
    && (forall t | t in s.calls && AskedBy(s.calls[t]).Some? :: AskedBy(s.calls[t]).value in s.asked)
    && (forall r | 0 <= r < |s.runs| && LoopAsked(s.runs[r].loop).Some? :: LoopAsked(s.runs[r].loop).value in s.asked)
  }

  /** Each id handed out is in the entries once, or was taken out, or is carried by exactly
      one call or loop. */
  ghost predicate PlaceInv(s: State) {
    && NoDuplicates(s.entries)
    && (forall id | id in s.entries :: 1 <= id <= s.nextId && id !in s.gone)
    && (forall id | id in s.gone :: 1 <= id <= s.nextId)
    && CallsHold(s) && LoopsHold(s) && AskedInv(s)
    && (forall id | 1 <= id <= s.nextId :: id in s.entries || id in s.gone || HeldSomewhere(s, id))
  }

  /** A step that moves no id and hands out none. */
  ghost predicate SamePlaces(s: State, s': State) {
    && s'.entries == s.entries && s'.gone == s.gone && s'.nextId == s.nextId && s.asked <= s'.asked
    && (forall t | t in s'.calls :: HeldBy(s'.calls[t]) == if t in s.calls then HeldBy(s.calls[t]) else None)
    && (forall t | t in s.calls :: t in s'.calls)
    && |s.runs| <= |s'.runs|
    && (forall r | 0 <= r < |s'.runs| ::
          LoopHolds(s'.runs[r].loop) == if r < |s.runs| then LoopHolds(s.runs[r].loop) else None)
    && (forall t | t in s'.calls && AskedBy(s'.calls[t]).Some? :: AskedBy(s'.calls[t]).value in s'.asked)
    && (forall r | 0 <= r < |s'.runs| && LoopAsked(s'.runs[r].loop).Some? ::
          LoopAsked(s'.runs[r].loop).value in s'.asked)
  }

  lemma SamePlacesKeep(s: State, s': State)
    requires PlaceInv(s) && SamePlaces(s, s')
    ensures PlaceInv(s')
  {
    SameHeld(s, s');
    hide HeldBy, LoopHolds, AskedBy, LoopAsked, HeldSomewhere;
  }

  lemma SameHeld(s: State, s': State)
    requires SamePlaces(s, s')
    ensures forall id: nat | HeldSomewhere(s, id) :: HeldSomewhere(s', id)
  {
    hide HeldBy, LoopHolds, AskedBy, LoopAsked;
    forall id: nat | HeldSomewhere(s, id) ensures HeldSomewhere(s', id) {
      if t :| t in s.calls && HeldBy(s.calls[t]) == Some(id) {
        assert HeldBy(s'.calls[t]) == Some(id);
      } else {
        var r :| 0 <= r < |s.runs| && LoopHolds(s.runs[r].loop) == Some(id);
        assert LoopHolds(s'.runs[r].loop) == Some(id);
      }
    }
  }

  /** One call moves on and runs may be touched, but what each carries stays. */
  lemma QuietPlaces(s: State, s': State, t: nat)
    requires PlaceInv(s) && t in s'.calls && s'.calls == s.calls[t := s'.calls[t]]
    requires s'.entries == s.entries && s'.gone == s.gone && s'.nextId == s.nextId && s'.asked == s.asked
    requires HeldBy(s'.calls[t]) == if t in s.calls then HeldBy(s.calls[t]) else None
    requires AskedBy(s'.calls[t]).Some? ==> AskedBy(s'.calls[t]).value in s.asked
    requires |s.runs| <= |s'.runs|
    requires forall r | 0 <= r < |s'.runs| :: LoopQuiet(s, s', r)
    ensures PlaceInv(s')
  {
    assert AskedInv(s);
    hide PlaceInv, HeldBy, AskedBy, LoopHolds, LoopAsked;
    forall r | 0 <= r < |s'.runs|
      ensures LoopHolds(s'.runs[r].loop) == if r < |s.runs| then LoopHolds(s.runs[r].loop) else None
      ensures LoopAsked(s'.runs[r].loop).Some? ==> LoopAsked(s'.runs[r].loop).value in s'.asked
    {
      assert LoopQuiet(s, s', r);
    }
    assert SamePlaces(s, s') by { hide LoopQuiet; }
    hide *;
    SamePlacesKeep(s, s');
  }

  ghost predicate LoopQuiet(s: State, s': State, r: nat)
    requires r < |s'.runs|
  {
    && LoopHolds(s'.runs[r].loop) == (if r < |s.runs| then LoopHolds(s.runs[r].loop) else None)
    && (LoopAsked(s'.runs[r].loop).Some? ==>
          || LoopAsked(s'.runs[r].loop).value in s.asked
          || (r < |s.runs| && LoopAsked(s'.runs[r].loop) == LoopAsked(s.runs[r].loop)))
  }

  /** One call moves on, keeping what it carries. */
  lemma CallPlaces(s: State, s': State, t: nat, pc: CallPc)
    requires PlaceInv(s) && s'.calls == s.calls[t := pc] && s'.runs == s.runs
    requires s'.entries == s.entries && s'.gone == s.gone && s'.nextId == s.nextId && s'.asked == s.asked
    requires HeldBy(pc) == if t in s.calls then HeldBy(s.calls[t]) else None
    requires AskedBy(pc).Some? ==> AskedBy(pc).value in s.asked
    ensures PlaceInv(s')
  {
    assert forall r | 0 <= r < |s'.runs| :: LoopQuiet(s, s', r) by {
      hide PlaceInv, HeldBy, AskedBy, LoopHolds, LoopAsked;
    }
    hide *;
    QuietPlaces(s, s', t);
  }

  /** One run moves on, keeping what its loop carries. */
  lemma RunPlaces(s: State, s': State, r: nat)
    requires PlaceInv(s) && r < |s.runs| && |s'.runs| == |s.runs| && s'.runs == s.runs[r := s'.runs[r]]
    requires s'.calls == s.calls
    requires s'.entries == s.entries && s'.gone == s.gone && s'.nextId == s.nextId && s'.asked == s.asked
    requires LoopHolds(s'.runs[r].loop) == LoopHolds(s.runs[r].loop)
    requires LoopAsked(s'.runs[r].loop).Some? ==> LoopAsked(s'.runs[r].loop) == LoopAsked(s.runs[r].loop)
    ensures PlaceInv(s')
  {
    assert SamePlaces(s, s') by { hide HeldBy, AskedBy, LoopHolds, LoopAsked, CallsHold, LoopsHold; }
    hide *;
    SamePlacesKeep(s, s');
  }

  lemma SameEverything(s: State, s': State)
    requires PlaceInv(s) && s'.calls == s.calls && s'.runs == s.runs
    requires s'.entries == s.entries && s'.gone == s.gone && s'.nextId == s.nextId && s'.asked == s.asked
    ensures PlaceInv(s')
  {
    assert SamePlaces(s, s') by { hide HeldBy, AskedBy, LoopHolds, LoopAsked, CallsHold, LoopsHold; }
    hide *;
    SamePlacesKeep(s, s');
  }

  // ---------- the steps that hand out or move ids ----------

  lemma InvokePlaces(s: State, t: nat, pc: CallPc)
    requires PlaceInv(s) && CanInvoke(s, t, pc)
    ensures PlaceInv(AfterInvoke(s, t, pc))
  {
    var s' := AfterInvoke(s, t, pc);
    assert HeldBy(pc) == None && (AskedBy(pc).Some? ==> AskedBy(pc).value in s'.asked);
    hide HeldBy, AskedBy, LoopHolds, LoopAsked, CallsHold, LoopsHold, CanInvoke;
    assert t !in s.calls by { NewCall(s, t, pc); }
    assert SamePlaces(s, s');
    hide SamePlaces, PlaceInv;
    SamePlacesKeep(s, s');
  }

  lemma NewCall(s: State, t: nat, pc: CallPc)
    requires CanInvoke(s, t, pc)
    ensures t !in s.calls
  {
  }

  lemma AcquirePlaces(s: State, t: nat)
    requires PlaceInv(s) && CanAcquire(s, t)
    ensures PlaceInv(AfterAcquire(s, t))
  {
    var s' := AfterAcquire(s, t);
    if s.calls[t].EntryWait? && s.calls[t].op.Add? {
      HandOutPlaces(s, s', t, s'.calls[t]);
    } else {
      assert AskedBy(s'.calls[t]) == AskedBy(s.calls[t]);
      hide PlaceInv;
      AskedAlready(s, t);
      CallPlaces(s, s', t, s'.calls[t]);
    }
  }

  lemma AskedAlready(s: State, t: nat)
    requires PlaceInv(s) && t in s.calls
    ensures AskedBy(s.calls[t]).Some? ==> AskedBy(s.calls[t]).value in s.asked
  {
  }

  /** A new id goes to the call that asked for it and is nowhere else. */
  lemma HandOutPlaces(s: State, s': State, t: nat, pc: CallPc)
    requires PlaceInv(s) && t in s.calls && HeldBy(s.calls[t]).None? && s'.calls == s.calls[t := pc] &&
          s'.runs == s.runs
    requires s'.entries == s.entries && s'.gone == s.gone && s'.asked == s.asked && s'.nextId == s.nextId + 1
    requires HeldBy(pc) == Some(s.nextId + 1) && AskedBy(pc).None?
    ensures PlaceInv(s')
  {
    hide HeldBy, LoopHolds, AskedBy, LoopAsked;
    forall id: nat | HeldSomewhere(s, id) ensures HeldSomewhere(s', id) {
      if u :| u in s.calls && HeldBy(s.calls[u]) == Some(id) {
        assert HeldBy(s'.calls[u]) == Some(id);
      }
    }
    assert HeldBy(s'.calls[t]) == Some(s.nextId + 1);
    assert HeldSomewhere(s', s.nextId + 1);
  }

  /** A call hands its id to a loop at its select. */
  lemma SendPlaces(s: State, t: nat, q: nat)
    requires PlaceInv(s) && CanSend(s, t, q)
    ensures PlaceInv(AfterSend(s, t, q))
  {
    var s' := AfterSend(s, t, q);
    var op := s.calls[t].op;
    AskedAlready(s, t);
    assert LoopHolds(s.runs[q].loop).None? && LoopAsked(s.runs[q].loop).None?;
    hide CallsHold, LoopsHold, PlaceInv;
    if op.Add? {
      assert HeldBy(s.calls[t]) == Some(op.id) && HeldBy(Done).None? && AskedBy(Done).None?;
      assert LoopHolds(s'.runs[q].loop) == Some(op.id) && LoopAsked(s'.runs[q].loop).None?;
      PassPlaces(s, s', t, q, op.id);
    } else {
      PassRemoval(s, s', t, q);
    }
  }

  lemma PassRemoval(s: State, s': State, t: nat, q: nat)
    requires PlaceInv(s) && CanSend(s, t, q) && !s.calls[t].op.Add? && s' == AfterSend(s, t, q)
    ensures PlaceInv(s')
  {
    AskedAlready(s, t);
    RemovalTouches(s, t, q);
    hide *;
    QuietPlaces(s, s', t);
  }

  lemma RemovalTouches(s: State, t: nat, q: nat)
    requires CanSend(s, t, q) && !s.calls[t].op.Add?
    requires AskedBy(s.calls[t]).Some? ==> AskedBy(s.calls[t]).value in s.asked
    ensures var s' := AfterSend(s, t, q);
            && s'.calls == s.calls[t := Done] && s'.entries == s.entries && s'.gone == s.gone
            && s'.nextId == s.nextId && s'.asked == s.asked && |s'.runs| == |s.runs|
            && HeldBy(Done).None? && HeldBy(s.calls[t]).None? && AskedBy(Done).None?
            && forall r | 0 <= r < |s.runs| :: LoopQuiet(s, s', r)
  {
  }

  lemma PassPlaces(s: State, s': State, t: nat, q: nat, id: nat)
    requires PlaceInv(s) && t in s.calls && q < |s.runs| && |s'.runs| == |s.runs|
    requires s'.calls == s.calls[t := Done] && s'.runs == s.runs[q := s'.runs[q]]
    requires s'.entries == s.entries && s'.gone == s.gone && s'.asked == s.asked && s'.nextId == s.nextId
    requires HeldBy(s.calls[t]) == Some(id) && HeldBy(Done).None? && AskedBy(Done).None?
    requires LoopHolds(s.runs[q].loop).None? && LoopHolds(s'.runs[q].loop) == Some(id)
    requires LoopAsked(s'.runs[q].loop).None?
    ensures PlaceInv(s')
  {
    hide HeldBy, LoopHolds, AskedBy, LoopAsked;
    forall x: nat | HeldSomewhere(s, x) ensures HeldSomewhere(s', x) {
      if x == id {
        assert LoopHolds(s'.runs[q].loop) == Some(x);
      } else if u :| u in s.calls && HeldBy(s.calls[u]) == Some(x) {
        assert HeldBy(s'.calls[u]) == Some(x);
      } else {
        var r :| 0 <= r < |s.runs| && LoopHolds(s.runs[r].loop) == Some(x);
        assert LoopHolds(s'.runs[r].loop) == Some(x);
      }
    }
  }

  lemma {:induction false} DropMembers(ids: seq<nat>, id: nat)
    ensures forall x :: x in Drop(ids, id) <==> x in ids && x != id
    ensures NoDuplicates(ids) ==> NoDuplicates(Drop(ids, id))
  {
    if ids != [] {
      var rest := Drop(ids[1..], id);
      DropMembers(ids[1..], id);
      assert forall x :: x in ids <==> x == ids[0] || x in ids[1..];
      if NoDuplicates(ids) && ids[0] != id {
        forall k | 0 <= k < |rest| ensures rest[k] != ids[0] { assert rest[k] in rest; }
      }
    }
  }

  /** How a store changes the entries. */
  ghost predicate Stores(old_: seq<nat>, new_: seq<nat>, adding: Option<nat>, dropping: Option<nat>) {
    && (NoDuplicates(old_) && (adding.Some? ==> adding.value !in old_) ==> NoDuplicates(new_))
    && (forall x :: x in new_ <==> (x in old_ && dropping != Some(x)) || adding == Some(x))
  }

  lemma PermutationStores(a: seq<nat>, b: seq<nat>)
    requires multiset(a) == multiset(b)
    ensures Stores(a, b, None, None)
  {
    forall x ensures x in b <==> x in a { assert x in multiset(a) <==> x in multiset(b); }
    if NoDuplicates(a) {
      forall i, j | 0 <= i < j < |b| ensures b[i] != b[j] {
        if b[i] == b[j] {
          assert b == b[..i] + [b[i]] + b[i + 1..j] + [b[j]] + b[j + 1..];
          assert multiset(b)[b[i]] >= 2;
          OnceOnly(a, b[i]);
        }
      }
    }
  }

  lemma {:induction false} OnceOnly(ids: seq<nat>, x: nat)
    requires NoDuplicates(ids)
    ensures multiset(ids)[x] <= 1
  {
    if ids != [] {
      OnceOnly(ids[1..], x);
      assert ids == [ids[0]] + ids[1..];
      assert ids[0] !in ids[1..];
    }
  }

  lemma GoesStores(op: EntryOp, entries: seq<nat>)
    ensures Stores(entries, Goes(op, entries),
                   if op.Add? then Some(op.id) else None, if op.Remove? then Some(op.id) else None)
  {
    if op.Remove? { DropMembers(entries, op.id); }
  }

  /** A store puts down the id its hand carried and takes out the id it was asked to. */
  lemma StorePlaces(s: State, s': State, adding: Option<nat>, dropping: Option<nat>)
    requires PlaceInv(s) && Stores(s.entries, s'.entries, adding, dropping)
    requires adding.None? || dropping.None?
    requires s'.nextId == s.nextId && s'.asked == s.asked && |s'.runs| == |s.runs| && s'.calls.Keys == s.calls.Keys
    requires s'.gone == s.gone + (if dropping.Some? && dropping.value in s.entries then {dropping.value} else {})
    requires dropping.Some? ==> dropping.value in s.asked
    requires adding.Some? ==> OnItsWay(s, adding.value)
    requires forall t | t in s.calls ::
               HeldBy(s'.calls[t]) == HeldBy(s.calls[t]) || (HeldBy(s'.calls[t]).None? && HeldBy(s.calls[t]) == adding)
    requires forall r | 0 <= r < |s.runs| :: LoopHolds(s'.runs[r].loop) == LoopHolds(s.runs[r].loop) ||
               (LoopHolds(s'.runs[r].loop).None? && LoopHolds(s.runs[r].loop) == adding)
    requires forall t | t in s'.calls :: adding.Some? ==> HeldBy(s'.calls[t]) != adding
    requires forall r | 0 <= r < |s'.runs| :: adding.Some? ==> LoopHolds(s'.runs[r].loop) != adding
    requires forall t | t in s.calls :: AskedBy(s'.calls[t]).None? || AskedBy(s'.calls[t]) == AskedBy(s.calls[t])
    requires forall r | 0 <= r < |s.runs| ::
               LoopAsked(s'.runs[r].loop).None? || LoopAsked(s'.runs[r].loop) == LoopAsked(s.runs[r].loop)
    ensures PlaceInv(s')
  {
    hide HeldBy, LoopHolds, AskedBy, LoopAsked;
    forall id | 1 <= id <= s'.nextId ensures id in s'.entries || id in s'.gone || HeldSomewhere(s', id) {
      if HeldSomewhere(s, id) && adding != Some(id) {
        StillHeld(s, s', adding, id);
      }
    }
  }

  lemma StillHeld(s: State, s': State, adding: Option<nat>, id: nat)
    requires HeldSomewhere(s, id) && adding != Some(id) && |s'.runs| == |s.runs| && s'.calls.Keys == s.calls.Keys
    requires forall t | t in s.calls ::
               HeldBy(s'.calls[t]) == HeldBy(s.calls[t]) || (HeldBy(s'.calls[t]).None? && HeldBy(s.calls[t]) == adding)
    requires forall r | 0 <= r < |s.runs| :: LoopHolds(s'.runs[r].loop) == LoopHolds(s.runs[r].loop) ||
               (LoopHolds(s'.runs[r].loop).None? && LoopHolds(s.runs[r].loop) == adding)
    ensures HeldSomewhere(s', id)
  {
    hide HeldBy, LoopHolds;
    if t :| t in s.calls && HeldBy(s.calls[t]) == Some(id) {
      assert HeldBy(s'.calls[t]) == Some(id);
    } else {
      var r :| 0 <= r < |s.runs| && LoopHolds(s.runs[r].loop) == Some(id);
      assert LoopHolds(s'.runs[r].loop) == Some(id);
    }
  }

  lemma AskedByLoop(s: State, r: nat)
    requires PlaceInv(s) && r < |s.runs|
    ensures LoopAsked(s.runs[r].loop).Some? ==> LoopAsked(s.runs[r].loop).value in s.asked
    ensures LoopHolds(s.runs[r].loop).Some? ==> OnItsWay(s, LoopHolds(s.runs[r].loop).value)
    ensures LoopHolds(s.runs[r].loop).Some? ==> forall t | t in s.calls ::
          HeldBy(s.calls[t]) != LoopHolds(s.runs[r].loop)
  {
  }

  lemma HeldByCallOnly(s: State, t: nat)
    requires PlaceInv(s) && t in s.calls && HeldBy(s.calls[t]).Some?
    ensures OnItsWay(s, HeldBy(s.calls[t]).value)
    ensures forall u | u in s.calls && u != t :: HeldBy(s.calls[u]) != HeldBy(s.calls[t])
    ensures forall r | 0 <= r < |s.runs| :: LoopHolds(s.runs[r].loop) != HeldBy(s.calls[t])
  {
    hide HeldBy, LoopHolds, OnItsWay;
  }

  /** A call stores the entries itself. */
  lemma WritePlaces(s: State, t: nat)
    requires OwnerInv(s) && PlaceInv(s) && CanEntry(s, t) && s.calls[t].EntryWrite?
    ensures PlaceInv(AfterEntry(s, t))
  {
    var s', pc := AfterEntry(s, t), s.calls[t];
    assert OwnerClaim(s, pc);
    var adding := if pc.op.Add? then Some(pc.op.id) else None;
    var dropping := if pc.op.Remove? then Some(pc.op.id) else None;
    GoesStores(pc.op, s.entries);
    AskedAlready(s, t);
    assert HeldBy(pc) == adding && AskedBy(pc) == dropping && HeldBy(Done).None? && AskedBy(Done).None?;
    if adding.Some? { HeldByCallOnly(s, t); }
    hide OwnerInv, PlaceInv, Stores, Goes, HeldBy, LoopHolds, AskedBy, LoopAsked, OnItsWay;
    StorePlaces(s, s', adding, dropping);
  }

  lemma ClaimStores(s: State, loop: LoopPc)
    requires loop.Writing? && LoopClaim(s.entries, loop)
    ensures Stores(s.entries, loop.value, loop.adding, loop.dropping)
    ensures loop.adding.None? || loop.dropping.None?
  {
    hide Stores;
    match (loop.adding, loop.dropping) {
      case (Some(id), None) => GoesStores(Add(id), s.entries);
      case (None, Some(id)) => GoesStores(Remove(id), s.entries);
      case (None, None) => PermutationStores(s.entries, loop.value);
    }
  }

  /** The loop stores the entries. */
  lemma LoopWritePlaces(s: State, r: nat)
    requires Inv(s) && OwnerInv(s) && PlaceInv(s) && CanWrite(s, r)
    ensures PlaceInv(AfterWrite(s, r))
  {
    var s', w := AfterWrite(s, r), s.runs[r].loop;
    assert LoopClaim(s.entries, w);
    ClaimStores(s, w);
    AskedByLoop(s, r);
    OtherLoopsHoldNothing(s, r);
    hide Inv, OwnerInv, PlaceInv, Stores, LoopClaim, OnItsWay;
    assert LoopHolds(w) == w.adding && LoopAsked(w) == w.dropping;
    assert LoopHolds(Idle).None? && LoopAsked(Idle).None? && LoopHolds(Sorting).None? && LoopAsked(Sorting).None?;
    hide HeldBy, LoopHolds, AskedBy, LoopAsked;
    StorePlaces(s, s', w.adding, w.dropping);
  }

  lemma OtherLoopsHoldNothing(s: State, r: nat)
    requires LoopInv(s) && r < |s.runs| && Unstored(s.runs[r].loop)
    ensures forall q | 0 <= q < |s.runs| && q != r :: LoopHolds(s.runs[q].loop).None?
  {
  }

  lemma StartPlaces(s: State, t: nat)
    requires PlaceInv(s) && CanStart(s, t)
    ensures PlaceInv(AfterStart(s, t))
  {
    StartTouches(s, t);
    hide *;
    QuietPlaces(s, AfterStart(s, t), t);
  }

  lemma StartTouches(s: State, t: nat)
    requires CanStart(s, t)
    ensures var s' := AfterStart(s, t);
            && t in s.calls && t in s'.calls && s'.calls == s.calls[t := s'.calls[t]]
            && s'.entries == s.entries && s'.gone == s.gone && s'.nextId == s.nextId && s'.asked == s.asked
            && HeldBy(s'.calls[t]).None? && HeldBy(s.calls[t]).None? && AskedBy(s'.calls[t]).None?
            && |s.runs| <= |s'.runs| && forall r | 0 <= r < |s'.runs| :: LoopQuiet(s, s', r)
  {
    var s' := AfterStart(s, t);
    assert |s.runs| <= |s'.runs| &&
          forall r | 0 <= r < |s'.runs| :: s'.runs[r].loop == if r < |s.runs| then s.runs[r].loop else Sorting;
    assert LoopHolds(Sorting).None? && LoopAsked(Sorting).None?;
    hide LoopHolds, LoopAsked;
  }

  lemma EntryPlaces(s: State, t: nat)
    requires OwnerInv(s) && PlaceInv(s) && CanEntry(s, t)
    ensures PlaceInv(AfterEntry(s, t))
  {
    if s.calls[t].EntryWrite? {
      WritePlaces(s, t);
    } else {
      var s' := AfterEntry(s, t);
      assert HeldBy(s'.calls[t]) == HeldBy(s.calls[t]);
      assert AskedBy(s'.calls[t]).Some? ==> AskedBy(s'.calls[t]) == AskedBy(s.calls[t]);
      hide PlaceInv, OwnerInv;
      AskedAlready(s, t);
      CallPlaces(s, s', t, s'.calls[t]);
    }
  }

  lemma StopPlaces(s: State, t: nat)
    requires PlaceInv(s) && CanStop(s, t)
    ensures PlaceInv(AfterStop(s, t))
  {
    var s' := AfterStop(s, t);
    StopTouches(s, t);
    StopHoldsNothing(s, t);
    assert forall r | 0 <= r < |s'.runs| :: LoopQuiet(s, s', r) by {
      hide PlaceInv, AfterStop, CanStop, HeldBy, AskedBy, LoopHolds, LoopAsked;
    }
    hide *;
    QuietPlaces(s, s', t);
  }

  lemma StopHoldsNothing(s: State, t: nat)
    requires CanStop(s, t)
    ensures var s' := AfterStop(s, t);
            t in s.calls && t in s'.calls &&
            HeldBy(s'.calls[t]).None? && HeldBy(s.calls[t]).None? && AskedBy(s'.calls[t]).None? &&
            s'.gone == s.gone && s'.nextId == s.nextId && s'.asked == s.asked
  {
  }

  lemma SweepEndPlaces(s: State)
    requires PlaceInv(s) && CanSweepEnd(s)
    ensures PlaceInv(AfterSweepEnd(s))
  {
    var s' := AfterSweepEnd(s);
    if s.mutex.value.Caller? {
      var t := s.mutex.value.call;
      hide PlaceInv;
      CallPlaces(s, s', t, s'.calls[t]);
    } else {
      hide PlaceInv;
      SameEverything(s, s');
    }
  }

  lemma PlainCallPlaces(s: State, t: nat, pc: CallPc)
    requires PlaceInv(s) && t in s.calls
    requires HeldBy(pc) == HeldBy(s.calls[t]) && (AskedBy(pc).Some? ==> AskedBy(pc) == AskedBy(s.calls[t]))
    ensures PlaceInv(Goto(s, t, pc))
  {
    AskedAlready(s, t);
    hide PlaceInv, HeldBy, AskedBy;
    CallPlaces(s, Goto(s, t, pc), t, pc);
  }

  lemma GiveUpPlaces(s: State, t: nat)
    requires PlaceInv(s) && CanGiveUp(s, t)
    ensures PlaceInv(Goto(s, t, Done))
  {
    hide PlaceInv;
    PlainCallPlaces(s, t, Done);
  }

  lemma FallBackPlaces(s: State, t: nat)
    requires PlaceInv(s) && CanFallBack(s, t)
    ensures PlaceInv(AfterFallBack(s, t))
  {
    hide PlaceInv;
    PlainCallPlaces(s, t, EntryFallback(s.calls[t].op));
  }

  lemma WorkPlaces(s: State, r: nat, value: seq<nat>)
    requires PlaceInv(s) && CanWork(s, r, value)
    ensures PlaceInv(AfterWork(s, r, value))
  {
    hide PlaceInv, Drop;
    RunPlaces(s, AfterWork(s, r, value), r);
  }

  lemma RunStepPlaces(s: State, a: Action)
    requires PlaceInv(s) && Enabled(s, a)
    requires a.StartJob? || a.FinishJob? || a.Move? || a.StoreFalse? || a.ParentCancel?
    ensures PlaceInv(Apply(s, a))
  {
    hide PlaceInv, ReturnsEarly, ClosesChannel;
    RunPlaces(s, Apply(s, a), a.r);
  }

  /** Every step keeps every id in exactly one place. */
  lemma StepKeepsPlaces(s: State, a: Action)
    requires Inv(s) && OwnerInv(s) && PlaceInv(s) && Enabled(s, a)
    ensures PlaceInv(Apply(s, a))
  {
    hide Inv, OwnerInv, PlaceInv, CanInvoke, CanAcquire, CanStart, CanEntry, CanStop, CanFallBack, CanGiveUp;
    hide CanSweep, CanSweepEnd;
    hide CanSend, AfterSend, CanWork, AfterWork, CanWrite, AfterWrite;
    match a {
      case Invoke(t, pc) => InvokePlaces(s, t, pc);
      case Acquire(t) => AcquirePlaces(s, t);
      case StepStart(t) => StartPlaces(s, t);
      case StepEntry(t) => EntryPlaces(s, t);
      case StepStop(t) => StopPlaces(s, t);
      case Send(t, q) => SendPlaces(s, t, q);
      case FallBack(t) => FallBackPlaces(s, t);
      case GiveUp(t) => GiveUpPlaces(s, t);
      case Sweep => SameEverything(s, AfterSweep(s));
      case SweepEnd => SweepEndPlaces(s);
      case Work(r, value) => WorkPlaces(s, r, value);
      case Write(r) => LoopWritePlaces(s, r);
      case _ => RunStepPlaces(s, a);
    }
  }

  // ---------- whole histories ----------

  ghost predicate ApartBefore(states: seq<State>, i: nat) {
    forall j | 0 <= j < i && j < |states| :: Apart(states[j])
  }

  lemma {:induction false} HistoryKeepsEntries(states: seq<State>, actions: seq<Action>, i: nat)
    requires IsHistory(states, actions) && ApartBefore(states, i) && i < |states|
    ensures OwnerInv(states[i]) && PlaceInv(states[i])
  {
    hide Enabled, Apply, Inv, OwnerInv, PlaceInv, Apart;
    if i == 0 {
      InitEntries(states[0]);
    } else {
      HistoryKeepsEntries(states, actions, i - 1);
      StepOfHistory(states, actions, i - 1);
      HistoryInv(states, actions, i - 1);
      StepKeepsOwners(states[i - 1], actions[i - 1]);
      StepKeepsPlaces(states[i - 1], actions[i - 1]);
    }
  }

  lemma InitEntries(s: State)
    requires Init(s)
    ensures OwnerInv(s) && PlaceInv(s)
  {
  }

  /** An Add or Remove that reads or stores the entries itself does so while no loop is there. */
  lemma EntriesHaveOneOwner(states: seq<State>, actions: seq<Action>, i: nat, t: nat, r: nat)
    requires IsHistory(states, actions) && ApartBefore(states, i) && i < |states|
    requires t in states[i].calls && (states[i].calls[t].EntryAccess? || states[i].calls[t].EntryWrite?)
    requires !states[i].calls[t].op.List?
    requires r < |states[i].runs|
    ensures !Unstored(states[i].runs[r].loop) && states[i].mutex == Some(Caller(t))
  {
    hide IsHistory, ApartBefore;
    HistoryInv(states, actions, i);
    HistoryKeepsEntries(states, actions, i);
    assert OwnerClaim(states[i], states[i].calls[t]);
  }

  /** No entry call is under way and no loop has an entry in hand. */
  ghost predicate Settled(s: State) {
    && (forall t | t in s.calls :: !EntryPc(s.calls[t]))
    && (forall r | 0 <= r < |s.runs| ::
          !s.runs[r].loop.Appending? && !s.runs[r].loop.Removing? && !s.runs[r].loop.Writing?)
  }

  /** Once all calls have returned and the loop has handled what it was sent, each id handed
      out and not removed is among the entries exactly once, whichever way it went, and only
      ids that some Remove named are missing. */
  lemma EntriesAreConserved(states: seq<State>, actions: seq<Action>, i: nat)
    requires IsHistory(states, actions) && ApartBefore(states, i) && i < |states| && Settled(states[i])
    ensures var s := states[i];
            NoDuplicates(s.entries) && s.gone <= s.asked &&
            forall id: nat :: id in s.entries <==> 1 <= id <= s.nextId && id !in s.gone
  {
    hide IsHistory, ApartBefore;
    HistoryKeepsEntries(states, actions, i);
    var s := states[i];
    forall id: nat ensures !HeldSomewhere(s, id) {}
  }
}
