/** The race EntryConservation keeps out: a run is published while an Add or Remove waits on the
    loopDone of an older one (cron.go:380-391). Whenever that happens, in any reachable state,
    the history can go on so that an id is lost for ever, and so that a removal is undone. */
module RestartRace {
  import opened EntryConservation
  import opened EntryFlow
  import opened Histories
  import opened Lifecycle
  import opened LifecycleInvariant
  import opened LifecycleTheorems
  import opened Results

  const NEW_RUN := Run(Sorting, 0, None, {}, false, false)
  const IDLE_RUN := NEW_RUN.(loop := Idle)

  function At(s: State, t: nat, pc: CallPc): State {
    s.(calls := s.calls[t := pc])
  }

  function Locked(s: State, t: nat, pc: CallPc): State {
    s.(mutex := Some(Caller(t)), calls := s.calls[t := pc])
  }

  function With(s: State, r: nat, run: Run): State
    requires r < |s.runs|
  {
    s.(runs := s.runs[r := run])
  }

  /** A new run beside the older ones, and current. */
  function Published(s: State, run: Run): State {
    s.(current := Some(|s.runs|), list := s.list + [|s.runs|], runs := s.runs + [run])
  }

  lemma Again(s: State, t: nat, pc: CallPc, pc': CallPc)
    ensures s.calls[t := pc][t := pc'] == s.calls[t := pc']
  {
  }

  // ---------- publishing a run ----------

  lemma PublishSteps(s: State, t: nat)
    requires t in s.calls && s.calls[t].StartPublish? && s.mutex == Some(Caller(t))
    ensures Leads(s, StepStart(t), At(Published(s, NEW_RUN), t, StartUnlock))
    ensures Leads(At(Published(s, NEW_RUN), t, StartUnlock), StepStart(t),
          At(Published(s, NEW_RUN).(mutex := None), t, Done))
  {
    Again(s, t, StartUnlock, Done);
  }

  lemma SortSteps(s: State, r: nat)
    requires r < |s.runs| && s.runs[r] == NEW_RUN
    ensures var sorting := With(s, r, NEW_RUN.(loop := Writing(s.entries, None, None)));
            Leads(s, Work(r, s.entries), sorting) && Leads(sorting, Write(r), With(s, r, IDLE_RUN))
  {
    assert s.gone + {} == s.gone;
  }

  /** The run is published, the mutex released, and the new loop comes to its select. */
  lemma Publish(h: History, t: nat) returns (h': History)
    requires Valid(h) && t in Last(h).calls && Last(h).calls[t].StartPublish? && Last(h).mutex == Some(Caller(t))
    ensures Valid(h') && Extends(h, h')
    ensures Last(h') == At(Published(Last(h), IDLE_RUN).(mutex := None), t, Done)
  {
    var s, n := Last(h), |Last(h).runs|;
    var s2 := At(Published(s, NEW_RUN).(mutex := None), t, Done);
    hide Valid, Leads;
    PublishSteps(s, t);
    SortSteps(s2, n);
    h' := Go(h, StepStart(t), At(Published(s, NEW_RUN), t, StartUnlock));
    h' := Go(h', StepStart(t), s2);
    h' := Go(h', Work(n, s.entries), With(s2, n, NEW_RUN.(loop := Writing(s.entries, None, None))));
    h' := Go(h', Write(n), With(s2, n, IDLE_RUN));
    assert (s.runs + [NEW_RUN])[n := IDLE_RUN] == s.runs + [IDLE_RUN];
  }

  // ---------- a waiting call falls back ----------

  lemma FallBackSteps(s: State, u: nat, op: EntryOp, r: nat)
    requires r < |s.runs| && u in s.calls && s.calls[u] == EntrySelect(op, r)
    ensures s.runs[r].loop.Closed? ==> Leads(s, FallBack(u), At(s, u, EntryFallback(op)))
    ensures s.runs[r].loop.Stored? ==> Leads(s, Move(r, Closed), With(s, r, s.runs[r].(loop := Closed)))
  {
  }

  /** The runs stay as they are but for one whose loop may close. */
  predicate SameButClosed(runs: seq<Run>, runs': seq<Run>) {
    |runs'| == |runs| && forall q | 0 <= q < |runs| ::
      runs'[q] == runs[q] || (runs[q].loop.Stored? && runs'[q] == runs[q].(loop := Closed))
  }

  lemma FallsBack(h: History, u: nat) returns (h': History)
    requires Valid(h) && u in Last(h).calls && Waiting(Last(h).calls[u])
    requires var pc := Last(h).calls[u];
             pc.EntrySelect? ==> pc.run < |Last(h).runs| && !Unstored(Last(h).runs[pc.run].loop)
    ensures Valid(h') && Extends(h, h') && SameButClosed(Last(h).runs, Last(h').runs)
    ensures Last(h') == At(Last(h), u, EntryFallback(Last(h).calls[u].op)).(runs := Last(h').runs)
  {
    var s, pc := Last(h), Last(h).calls[u];
    h' := h;
    if pc.EntrySelect? {
      hide Valid, Leads;
      FallBackSteps(s, u, pc.op, pc.run);
      if s.runs[pc.run].loop.Stored? {
        var s1 := With(s, pc.run, s.runs[pc.run].(loop := Closed));
        h' := Go(h, Move(pc.run, Closed), s1);
        FallBackSteps(s1, u, pc.op, pc.run);
      }
      h' := Go(h', FallBack(u), At(Last(h'), u, EntryFallback(pc.op)));
    } else {
      assert s.calls[u := pc] == s.calls;
    }
  }

  // ---------- a new Add ----------

  lemma AddLocks(s: State, v: nat)
    requires v !in s.calls && s.mutex.None?
    ensures Leads(s, Invoke(v, EntryWait(Add(0))), At(s, v, EntryWait(Add(0))))
    ensures var s1 := s.(nextId := s.nextId + 1);
            Leads(At(s, v, EntryWait(Add(0))), Acquire(v), Locked(s1, v, EntryLocked(Add(s.nextId + 1))))
  {
    Again(s, v, EntryWait(Add(0)), EntryLocked(Add(s.nextId + 1)));
    assert s.asked + {} == s.asked;
  }

  lemma CallUnlocks(s: State, v: nat, op: EntryOp)
    requires s.running && s.current.Some? && s.mutex.None?
    ensures Leads(Locked(s, v, EntryLocked(op)), StepEntry(v), Locked(s, v, EntryOn(op)))
    ensures Leads(Locked(s, v, EntryOn(op)), StepEntry(v), At(s, v, EntrySelect(op, s.current.value)))
  {
    Again(s, v, EntryLocked(op), EntryOn(op));
    Again(s, v, EntryOn(op), EntrySelect(op, s.current.value));
  }

  /** Add on a running scheduler, up to its select. */
  lemma AddWaits(h: History, v: nat) returns (h': History)
    requires Valid(h) && v !in Last(h).calls && Last(h).mutex.None? && Last(h).running && Last(h).current.Some?
    ensures Valid(h') && Extends(h, h')
    ensures var s := Last(h);
            Last(h') == At(s.(nextId := s.nextId + 1), v, EntrySelect(Add(s.nextId + 1), s.current.value))
  {
    var s := Last(h);
    var s1, op := s.(nextId := s.nextId + 1), Add(s.nextId + 1);
    hide Valid, Leads;
    AddLocks(s, v);
    CallUnlocks(s1, v, op);
    h' := Go(h, Invoke(v, EntryWait(Add(0))), At(s, v, EntryWait(Add(0))));
    h' := Go(h', Acquire(v), Locked(s1, v, EntryLocked(op)));
    h' := Go(h', StepEntry(v), Locked(s1, v, EntryOn(op)));
    h' := Go(h', StepEntry(v), At(s1, v, EntrySelect(op, s.current.value)));
  }

  lemma RemoveLocks(s: State, v: nat, x: nat)
    requires v !in s.calls && s.mutex.None?
    ensures var s1, op := s.(asked := s.asked + {x}), Remove(x);
            && Leads(s, Invoke(v, EntryWait(op)), At(s1, v, EntryWait(op)))
            && Leads(At(s1, v, EntryWait(op)), Acquire(v), Locked(s1, v, EntryLocked(op)))
  {
    Again(s, v, EntryWait(Remove(x)), EntryLocked(Remove(x)));
  }

  /** Remove on a running scheduler, up to its select. */
  lemma RemoveWaits(h: History, v: nat, x: nat) returns (h': History)
    requires Valid(h) && v !in Last(h).calls && Last(h).mutex.None? && Last(h).running && Last(h).current.Some?
    ensures Valid(h') && Extends(h, h')
    ensures var s := Last(h);
            Last(h') == At(s.(asked := s.asked + {x}), v, EntrySelect(Remove(x), s.current.value))
  {
    var s, op := Last(h), Remove(x);
    var s1 := s.(asked := s.asked + {x});
    hide Valid, Leads;
    RemoveLocks(s, v, x);
    CallUnlocks(s1, v, op);
    h' := Go(h, Invoke(v, EntryWait(op)), At(s1, v, EntryWait(op)));
    h' := Go(h', Acquire(v), Locked(s1, v, EntryLocked(op)));
    h' := Go(h', StepEntry(v), Locked(s1, v, EntryOn(op)));
    h' := Go(h', StepEntry(v), At(s1, v, EntrySelect(op, s.current.value)));
  }

  lemma {:induction false} AboveAll(keys: set<nat>) returns (v: nat)
    ensures forall k | k in keys :: k < v
  {
    if keys == {} {
      v := 0;
    } else {
      var k :| k in keys;
      var w := AboveAll(keys - {k});
      v := if k < w then w else k + 1;
      forall j | j in keys ensures j < v { assert j == k || j in keys - {k}; }
    }
  }

  // ---------- the race ----------

  /** The loop takes the entry of call v and reads the entries to append to. */
  lemma LoopTakes(s: State, v: nat, q: nat, k: nat)
    requires q < |s.runs| && s.runs[q] == IDLE_RUN && v in s.calls && s.calls[v].EntrySelect? && s.calls[v].op == Add(k)
    ensures Leads(s, Send(v, q), At(With(s, q, NEW_RUN.(loop := Appending(k))), v, Done))
  {
  }

  lemma LoopReads(s: State, q: nat, k: nat)
    requires q < |s.runs| && s.runs[q] == NEW_RUN.(loop := Appending(k))
    ensures var value := s.entries + [k];
            Leads(s, Work(q, value), With(s, q, NEW_RUN.(loop := Writing(value, Some(k), None))))
  {
  }

  lemma LoopStores(s: State, q: nat, value: seq<nat>, k: nat)
    requires q < |s.runs| && s.runs[q] == NEW_RUN.(loop := Writing(value, Some(k), None))
    ensures Leads(s, Write(q), With(s, q, NEW_RUN).(entries := value))
  {
    assert s.gone + {} == s.gone;
  }

  lemma CallReads(s: State, u: nat, op: EntryOp)
    requires u in s.calls && s.calls[u] == EntryFallback(op) && !op.List? && s.mutex.None?
    ensures Leads(s, Acquire(u), Locked(s, u, EntryAccess(op, false)))
    ensures Leads(Locked(s, u, EntryAccess(op, false)), StepEntry(u),
          Locked(s, u, EntryWrite(op, Goes(op, s.entries), false)))
  {
    Again(s, u, EntryAccess(op, false), EntryWrite(op, Goes(op, s.entries), false));
    hide Goes;
  }

  lemma CallStores(s: State, u: nat, op: EntryOp, value: seq<nat>)
    requires s.mutex.None?
    ensures Leads(Locked(s, u, EntryWrite(op, value, false)), StepEntry(u),
                  At(s, u, Done).(entries := value, gone := s.gone + GoneBy(op, s.entries)))
  {
    Again(s, u, EntryWrite(op, value, false), Done);
    hide GoneBy;
  }

  /** A call that has fallen back takes the mutex and reads the entries. */
  lemma FallenCallReads(h: History, u: nat, op: EntryOp) returns (h': History)
    requires Valid(h) && u in Last(h).calls && Last(h).calls[u] == EntryFallback(op) && !op.List? && Last(h).mutex.None?
    ensures Valid(h') && Extends(h, h')
    ensures Last(h') == Locked(Last(h), u, EntryWrite(op, Goes(op, Last(h).entries), false))
  {
    var s := Last(h);
    CallReads(s, u, op);
    hide Valid, Leads, Goes, At, Locked;
    h' := Go(h, Acquire(u), Locked(s, u, EntryAccess(op, false)));
    h' := Go(h', StepEntry(u), Locked(s, u, EntryWrite(op, Goes(op, s.entries), false)));
  }

  /** A loop takes the entry of call v and reads the entries to append to. */
  lemma LoopHasRead(h: History, v: nat, q: nat, k: nat) returns (h': History)
    requires Valid(h) && q < |Last(h).runs| && Last(h).runs[q] == IDLE_RUN
    requires v in Last(h).calls && Last(h).calls[v] == EntrySelect(Add(k), q)
    ensures Valid(h') && Extends(h, h')
    ensures Last(h') == At(With(Last(h), q, NEW_RUN.(loop := Writing(Last(h).entries + [k], Some(k), None))), v, Done)
  {
    var s := Last(h);
    var s1 := At(With(s, q, NEW_RUN.(loop := Appending(k))), v, Done);
    LoopTakes(s, v, q, k);
    LoopReads(s1, q, k);
    hide Valid, Leads;
    h' := Go(h, Send(v, q), s1);
    h' := Go(h', Work(q, s.entries + [k]),
          At(With(s, q, NEW_RUN.(loop := Writing(s.entries + [k], Some(k), None))), v, Done));
  }

  /** While the loop appends another entry, call u adds or removes its own, and what it stores is
      overwritten. */
  lemma CallIsOverwritten(h: History, u: nat, v: nat, q: nat, op: EntryOp, k: nat) returns (h': History)
    requires Valid(h) && Last(h).mutex.None? && u != v && q < |Last(h).runs| && Last(h).runs[q] == IDLE_RUN
    requires u in Last(h).calls && Last(h).calls[u] == EntryFallback(op) && !op.List?
    requires v in Last(h).calls && Last(h).calls[v] == EntrySelect(Add(k), q)
    ensures Valid(h') && Extends(h, h')
    ensures var s := Last(h);
            var gone := s.gone + GoneBy(op, s.entries);
            Last(h') == At(At(With(s, q, NEW_RUN).(entries := s.entries + [k], gone := gone), v, Done), u, Done)
  {
    var s, value, stored := Last(h), Last(h).entries + [k], Goes(op, Last(h).entries);
    var s2 := At(With(s, q, NEW_RUN.(loop := Writing(value, Some(k), None))), v, Done);
    var s3 := At(s2, u, Done).(entries := stored, gone := s.gone + GoneBy(op, s.entries));
    CallStores(s2, u, op, stored);
    LoopStores(s3, q, value, k);
    hide Valid, Leads, Goes, GoneBy;
    h' := LoopHasRead(h, v, q, k);
    h' := FallenCallReads(h', u, op);
    h' := Go(h', StepEntry(u), s3);
    h' := Go(h', Write(q), With(s3, q, NEW_RUN).(entries := value));
  }

  lemma HolderStores(s: State, u: nat, op: EntryOp, value: seq<nat>)
    requires u in s.calls && s.calls[u] == EntryWrite(op, value, false) && s.mutex == Some(Caller(u))
    ensures Leads(s, StepEntry(u),
                  At(s, u, Done).(mutex := None, entries := value, gone := s.gone + GoneBy(op, s.entries)))
  {
    hide GoneBy;
  }

  /** First the loop stores what it has appended to, then the remover stores what it kept. */
  lemma RemoverStoresLast(h: History, u: nat, q: nat, x: nat, k: nat, value: seq<nat>, kept: seq<nat>)
    returns (h': History)
    requires Valid(h) && u in Last(h).calls && Last(h).mutex == Some(Caller(u)) && q < |Last(h).runs|
    requires Last(h).calls[u] == EntryWrite(Remove(x), kept, false)
    requires Last(h).runs[q] == NEW_RUN.(loop := Writing(value, Some(k), None))
    ensures Valid(h') && Extends(h, h')
    ensures Last(h') == At(With(Last(h), q, NEW_RUN), u, Done).(
                          mutex := None, entries := kept, gone := Last(h).gone + GoneBy(Remove(x), value))
  {
    var s := Last(h);
    var s1 := With(s, q, NEW_RUN).(entries := value);
    LoopStores(s, q, value, k);
    HolderStores(s1, u, Remove(x), kept);
    hide Valid, Leads, GoneBy;
    h' := Go(h, Write(q), s1);
    h' := Go(h', StepEntry(u),
          At(s1, u, Done).(mutex := None, entries := kept, gone := s.gone + GoneBy(Remove(x), value)));
  }

  /** While call u removes, the loop appends an entry, which is overwritten. */
  lemma RemoveOverwrites(h: History, u: nat, v: nat, q: nat, x: nat, k: nat) returns (h': History)
    requires Valid(h) && Last(h).mutex.None? && u != v && q < |Last(h).runs| && Last(h).runs[q] == IDLE_RUN
    requires u in Last(h).calls && Last(h).calls[u] == EntryFallback(Remove(x))
    requires v in Last(h).calls && Last(h).calls[v] == EntrySelect(Add(k), q)
    ensures Valid(h') && Extends(h, h')
    ensures var s := Last(h);
            var gone := s.gone + GoneBy(Remove(x), s.entries + [k]);
            Last(h') == At(At(With(s, q, NEW_RUN).(entries := Drop(s.entries, x), gone := gone), v, Done), u, Done)
  {
    var s, value, kept := Last(h), Last(h).entries + [k], Drop(Last(h).entries, x);
    hide Valid, Leads, Drop, GoneBy;
    CallsSettle(s.calls, u, v, EntryWrite(Remove(x), kept, false));
    RunSettles(s.runs, q, NEW_RUN.(loop := Writing(value, Some(k), None)), NEW_RUN);
    var h1 := FallenCallReads(h, u, Remove(x));
    var h2 := LoopHasRead(h1, v, q, k);
    h' := RemoverStoresLast(h2, u, q, x, k, value, kept);
    ExtendsOn(h, h1, h2);
    ExtendsOn(h, h2, h');
  }

  lemma CallsSettle(calls: map<nat, CallPc>, u: nat, v: nat, pc: CallPc)
    requires u != v
    ensures calls[u := pc][v := Done][u := Done] == calls[v := Done][u := Done]
  {
  }

  lemma RunSettles(runs: seq<Run>, q: nat, run: Run, run': Run)
    requires q < |runs|
    ensures runs[q := run][q := run'] == runs[q := run']
  {
  }

  // ---------- every such race can lose an id ----------

  /** What the invariant says of a state in which a run is being published. */
  lemma WhilePublishing(h: History, t: nat)
    requires Valid(h) && t in Last(h).calls && Last(h).calls[t].StartPublish?
    ensures Last(h).mutex == Some(Caller(t)) && Last(h).running && Last(h).sweep.None?
    ensures forall r | 0 <= r < |Last(h).runs| :: !Unstored(Last(h).runs[r].loop)
    ensures forall u | u in Last(h).calls && Last(h).calls[u].EntrySelect? :: Last(h).calls[u].run < |Last(h).runs|
  {
    hide IsHistory;
    HistoryInv(h.states, h.actions, |h.actions|);
    var s := Last(h);
    assert Inv(s);
    assert CallInv(s, s.calls[t]) && Holding(s.calls[t]);
    assert Publishing(s);
    forall u | u in s.calls && s.calls[u].EntrySelect? ensures s.calls[u].run < |s.runs| {
      assert CallInv(s, s.calls[u]);
    }
  }

  /** Up to the race: the run is published and call u has fallen back. */
  predicate Poised(s: State, s': State, t: nat, u: nat) {
    && t != u && u in s.calls && Waiting(s.calls[u])
    && s'.mutex.None? && s'.running && s'.current == Some(|s.runs|)
    && |s'.runs| == |s.runs| + 1 && s'.runs[|s.runs|] == IDLE_RUN
    && (forall r | 0 <= r < |s.runs| :: s'.runs[r].loop == s.runs[r].loop || s'.runs[r].loop.Closed?)
    && s'.calls == s.calls[t := Done][u := EntryFallback(s.calls[u].op)]
    && s'.entries == s.entries && s'.gone == s.gone && s'.asked == s.asked && s'.nextId == s.nextId
  }

  lemma ComesToTheRace(h: History, t: nat, u: nat) returns (h': History)
    requires Valid(h) && t in Last(h).calls && Last(h).calls[t].StartPublish?
    requires u in Last(h).calls && Waiting(Last(h).calls[u])
    ensures Valid(h') && Extends(h, h') && Poised(Last(h), Last(h'), t, u)
  {
    WhilePublishing(h, t);
    hide Valid;
    var h1 := Publish(h, t);
    h' := FallsBack(h1, u);
    ExtendsOn(h, h1, h');
  }

  lemma NewCall(s: State) returns (v: nat)
    ensures v !in s.calls
  {
    v := AboveAll(s.calls.Keys);
    assert v !in s.calls.Keys;
  }

  predicate CallGone(s: State, pc': CallPc, w: nat, id: nat) {
    || pc' == Done
    || (pc'.EntrySelect? && pc'.op.Add? && pc'.op.id != id)
    || (w in s.calls && pc' == s.calls[w] && !Has(s, InCall(w), id))
  }

  predicate LoopGone(s: State, loop': LoopPc, r: nat, id: nat) {
    loop'.Closed? || loop'.Sorting? || (r < |s.runs| && loop' == s.runs[r].loop && !Has(s, InLoop(r), id))
  }

  /** An id that is nowhere after the race. */
  lemma IsLost(s: State, s': State, id: nat)
    requires 1 <= id <= s'.nextId && id !in s'.entries && id !in s'.gone
    requires forall w | w in s'.calls :: CallGone(s, s'.calls[w], w, id)
    requires forall r | 0 <= r < |s'.runs| :: LoopGone(s, s'.runs[r].loop, r, id)
    ensures Lost(s', id)
  {
    forall p ensures !Has(s', p, id) {
      match p {
        case Entries =>
        case Gone =>
        case InCall(t) => if t in s'.calls { assert CallGone(s, s'.calls[t], t, id); }
        case InLoop(r) => if r < |s'.runs| { assert LoopGone(s, s'.runs[r].loop, r, id); }
      }
    }
  }

  /** The outcome of a race that call v, with id k, wins or loses: the loop is about to sort again. */
  function Raced(s: State, u: nat, v: nat, q: nat, k: nat, entries: seq<nat>, gone: set<nat>): State
    requires q < |s.runs|
  {
    At(At(With(s, q, NEW_RUN), v, Done), u, Done).(entries := entries, gone := gone, nextId := k)
  }

  /** A new Add goes through the loop and wins over call u. */
  lemma AddWins(h: History, u: nat, q: nat, op: EntryOp) returns (h': History, v: nat)
    requires Valid(h) && Last(h).mutex.None? && Last(h).running && Last(h).current == Some(q)
    requires q < |Last(h).runs| && Last(h).runs[q] == IDLE_RUN
    requires u in Last(h).calls && Last(h).calls[u] == EntryFallback(op) && !op.List?
    ensures Valid(h') && Extends(h, h') && v !in Last(h).calls
    ensures var s, k := Last(h), Last(h).nextId + 1;
            Last(h') == Raced(s, u, v, q, k, s.entries + [k], s.gone + GoneBy(op, s.entries))
  {
    var s, k := Last(h), Last(h).nextId + 1;
    hide Valid, GoneBy;
    v := NewCall(s);
    var h1 := AddWaits(h, v);
    h' := CallIsOverwritten(h1, u, v, q, op, k);
    ExtendsOn(h, h1, h');
    Again(s, v, EntrySelect(Add(k), q), Done);
  }

  lemma RemoveRaces(h: History, u: nat, q: nat, x: nat) returns (h': History, v: nat)
    requires Valid(h) && Last(h).mutex.None? && Last(h).running && Last(h).current == Some(q)
    requires q < |Last(h).runs| && Last(h).runs[q] == IDLE_RUN
    requires u in Last(h).calls && Last(h).calls[u] == EntryFallback(Remove(x))
    ensures Valid(h') && Extends(h, h') && v !in Last(h).calls
    ensures var s, k := Last(h), Last(h).nextId + 1;
            Last(h') == Raced(s, u, v, q, k, Drop(s.entries, x), s.gone + GoneBy(Remove(x), s.entries + [k]))
  {
    var s, k := Last(h), Last(h).nextId + 1;
    hide Valid, Drop, GoneBy;
    v := NewCall(s);
    var h1 := AddWaits(h, v);
    h' := RemoveOverwrites(h1, u, v, q, x, k);
    ExtendsOn(h, h1, h');
    Again(s, v, EntrySelect(Add(k), q), Done);
  }

  /** Poised, or with one more Add waiting, which was given another id. */
  predicate PoisedBeside(s: State, s': State, t: nat, u: nat, id: nat) {
    && t != u && u in s.calls && |s'.runs| == |s.runs| + 1 && s'.runs[|s.runs|] == IDLE_RUN
    && (forall r | 0 <= r < |s.runs| :: s'.runs[r].loop == s.runs[r].loop || s'.runs[r].loop.Closed?)
    && (forall w | w in s'.calls && w != u ::
          || s'.calls[w] == Done
          || (w in s.calls && s'.calls[w] == s.calls[w])
          || (s'.calls[w].EntrySelect? && s'.calls[w].op.Add? && s'.calls[w].op.id != id))
  }

  lemma PoisedIsBeside(s: State, s': State, t: nat, u: nat, id: nat)
    requires Poised(s, s', t, u)
    ensures PoisedBeside(s, s', t, u, id)
  {
    hide IDLE_RUN, Waiting;
  }

  /** An id that was nowhere but with call u before the race, and is not stored in it, is lost. */
  lemma RacedIsLost(s: State, s1: State, t: nat, u: nat, v: nat, k: nat, entries: seq<nat>, gone: set<nat>, id: nat)
    requires PoisedBeside(s, s1, t, u, id)
    requires 1 <= id <= k && id !in entries && id !in gone
    requires forall w | w in s.calls && w != u :: !Has(s, InCall(w), id)
    requires forall r | 0 <= r < |s.runs| :: !Has(s, InLoop(r), id)
    ensures |s.runs| < |s1.runs| && Lost(Raced(s1, u, v, |s.runs|, k, entries, gone), id)
  {
    var s' := Raced(s1, u, v, |s.runs|, k, entries, gone);
    hide Has, Lost, Waiting;
    forall w | w in s'.calls ensures CallGone(s, s'.calls[w], w, id) {}
    forall r | 0 <= r < |s'.runs| ensures LoopGone(s, s'.runs[r].loop, r, id) {}
    hide CallGone, LoopGone;
    IsLost(s, s', id);
  }

  lemma OverwritePath(h: History, t: nat, u: nat) returns (h1: History, h': History, v: nat)
    requires Valid(h) && t in Last(h).calls && Last(h).calls[t].StartPublish?
    requires u in Last(h).calls && Waiting(Last(h).calls[u]) && !Last(h).calls[u].op.List?
    ensures Valid(h') && Extends(h, h') && Valid(h1) && Poised(Last(h), Last(h1), t, u)
    ensures |Last(h).runs| < |Last(h1).runs|
    ensures var s, s1, k := Last(h), Last(h1), Last(h).nextId + 1;
            Last(h') == Raced(s1, u, v, |s.runs|, k, s.entries + [k], s.gone + GoneBy(s.calls[u].op, s.entries))
  {
    hide Valid, Raced, IDLE_RUN, GoneBy;
    h1 := ComesToTheRace(h, t, u);
    h', v := AddWins(h1, u, |Last(h).runs|, Last(h).calls[u].op);
    ExtendsOn(h, h1, h');
  }

  /** If the waiting call is an Add, its id can be lost. */
  lemma WaitingAddCanBeLost(h: History, t: nat, u: nat) returns (h1: History, h': History, v: nat)
    requires Valid(h) && t in Last(h).calls && Last(h).calls[t].StartPublish?
    requires u in Last(h).calls && Waiting(Last(h).calls[u]) && Last(h).calls[u].op.Add?
    ensures Valid(h') && Extends(h, h') && Lost(Last(h'), Last(h).calls[u].op.id)
    ensures Valid(h1) && Poised(Last(h), Last(h1), t, u) && |Last(h).runs| < |Last(h1).runs|
    ensures var s, s1, k := Last(h), Last(h1), Last(h).nextId + 1;
            Last(h') == Raced(s1, u, v, |s.runs|, k, s.entries + [k], s.gone)
  {
    var s, id := Last(h), Last(h).calls[u].op.id;
    h1, h', v := OverwritePath(h, t, u);
    assert s.gone + GoneBy(Add(id), s.entries) == s.gone;
    HistoryKeepsPlaces(h.states, h.actions, |h.actions|);
    CarriedIds(s, u);
    PoisedIsBeside(s, Last(h1), t, u, id);
    hide Valid, Private, Known, Lost, Has, Raced, IDLE_RUN, NEW_RUN, Extends, Poised, PoisedBeside, Waiting;
    var k := s.nextId + 1;
    RacedIsLost(s, Last(h1), t, u, v, k, s.entries + [k], s.gone, id);
  }

  lemma CarriedIds(s: State, u: nat)
    requires Known(s) && Private(s) && u in s.calls && Waiting(s.calls[u]) && s.calls[u].op.Add?
    ensures var id := s.calls[u].op.id;
            && 1 <= id <= s.nextId && id !in s.entries && id !in s.gone
            && (forall w | w in s.calls && w != u :: !Has(s, InCall(w), id))
            && (forall r | 0 <= r < |s.runs| :: !Has(s, InLoop(r), id))
  {
    var id := s.calls[u].op.id;
    assert Carries(s, u) == Some(id) && Has(s, InCall(u), id);
    hide Carries, Known;
    assert !Has(s, Entries, id) && !Has(s, Gone, id);
  }

  lemma RemovePath(h: History, t: nat, u: nat) returns (h1: History, h': History, v: nat, k: nat)
    requires Valid(h) && t in Last(h).calls && Last(h).calls[t].StartPublish?
    requires u in Last(h).calls && Waiting(Last(h).calls[u]) && Last(h).calls[u].op.Remove?
    ensures Valid(h') && Extends(h, h') && |h1.states| > 0 && PoisedBeside(Last(h), Last(h1), t, u, k)
    ensures Last(h).nextId < k != Last(h).calls[u].op.id && |Last(h).runs| < |Last(h1).runs|
    ensures var s, s1, x := Last(h), Last(h1), Last(h).calls[u].op.id;
            Last(h') == Raced(s1, u, v, |s.runs|, k, Drop(s.entries, x), s.gone + GoneBy(Remove(x), s.entries + [k]))
  {
    hide Valid, Raced, PoisedBeside, IDLE_RUN, GoneBy, Drop;
    h1, k := ComesWithFreshId(h, t, u);
    h', v := RemoveRaces(h1, u, |Last(h).runs|, Last(h).calls[u].op.id);
    ExtendsOn(h, h1, h');
  }

  /** If it is a Remove, the id of another Add can be lost: of the first that comes after the
      restart, or of the second if the Remove names the first. */
  lemma AddBesideARemoveCanBeLost(h: History, t: nat, u: nat) returns (h': History, k: nat)
    requires Valid(h) && t in Last(h).calls && Last(h).calls[t].StartPublish?
    requires u in Last(h).calls && Waiting(Last(h).calls[u]) && Last(h).calls[u].op.Remove?
    ensures Valid(h') && Extends(h, h') && Lost(Last(h'), k)
    ensures Last(h).nextId < k && k != Last(h).calls[u].op.id
  {
    var s, x := Last(h), Last(h).calls[u].op.id;
    var h1, v;
    h1, h', v, k := RemovePath(h, t, u);
    HistoryKeepsPlaces(h.states, h.actions, |h.actions|);
    FreshIds(s, k);
    NotTakenOut(x, k, s.entries);
    hide Valid, Private, Known, Lost, Has, Raced, PoisedBeside, GoneBy, Drop, Waiting, Extends;
    RacedIsLost(s, Last(h1), t, u, v, k, Drop(s.entries, x), s.gone + GoneBy(Remove(x), s.entries + [k]), k);
  }

  /** Up to the race, with the next id to be handed out not the one call u is to remove. */
  lemma ComesWithFreshId(h: History, t: nat, u: nat) returns (h1: History, k: nat)
    requires Valid(h) && t in Last(h).calls && Last(h).calls[t].StartPublish?
    requires u in Last(h).calls && Waiting(Last(h).calls[u]) && Last(h).calls[u].op.Remove?
    ensures Valid(h1) && Extends(h, h1) && PoisedBeside(Last(h), Last(h1), t, u, k)
    ensures ReadyToRace(Last(h), Last(h1), u, k) && Last(h).nextId < k != Last(h).calls[u].op.id
  {
    var s, x := Last(h), Last(h).calls[u].op.id;
    hide Valid, PoisedBeside, IDLE_RUN;
    k := if x == s.nextId + 1 then s.nextId + 2 else s.nextId + 1;
    h1 := ComesToTheRace(h, t, u);
    if x == s.nextId + 1 {
      h1 := OneMoreAdd(h, h1, t, u, k);
    } else {
      PoisedIsBeside(s, Last(h1), t, u, k);
    }
  }

  predicate ReadyToRace(s: State, s1: State, u: nat, k: nat) {
    && s1.mutex.None? && s1.running && s1.current == Some(|s.runs|)
    && |s1.runs| == |s.runs| + 1 && s1.runs[|s.runs|] == IDLE_RUN
    && u in s.calls && Waiting(s.calls[u]) && u in s1.calls && s1.calls[u] == EntryFallback(s.calls[u].op)
    && s1.entries == s.entries && s1.gone == s.gone && s1.nextId + 1 == k
  }

  lemma OneMoreAdd(h: History, h1: History, t: nat, u: nat, k: nat) returns (h2: History)
    requires Valid(h) && Valid(h1) && Extends(h, h1) && Poised(Last(h), Last(h1), t, u) && k > Last(h).nextId + 1
    ensures Valid(h2) && Extends(h, h2) && PoisedBeside(Last(h), Last(h2), t, u, k)
    ensures ReadyToRace(Last(h), Last(h2), u, Last(h).nextId + 2)
  {
    hide Valid;
    var w := NewCall(Last(h1));
    h2 := AddWaits(h1, w);
    ExtendsOn(h, h1, h2);
  }

  lemma FreshIds(s: State, k: nat)
    requires Known(s) && k > s.nextId
    ensures k !in s.entries && k !in s.gone
    ensures (forall w | w in s.calls :: !Has(s, InCall(w), k)) && forall r | 0 <= r < |s.runs| :: !Has(s, InLoop(r), k)
  {
    assert !Has(s, Entries, k) && !Has(s, Gone, k);
  }

  lemma NotTakenOut(x: nat, k: nat, entries: seq<nat>)
    requires x != k && k !in entries
    ensures k !in GoneBy(Remove(x), entries + [k]) && k !in Drop(entries, x)
  {
    DropMembers(entries, x);
  }

  // ---------- a Remove undone ----------

  /** If the waiting call is a Remove of an entry that is there, the removal can be undone: the
      call has returned, the entry was taken out, and the loop has put it back. Nothing but such
      a race does that (`EntryFlow.UndoingNeedsARace`). */
  lemma WaitingRemoveCanBeUndone(h: History, t: nat, u: nat) returns (h1: History, h': History, v: nat)
    requires Valid(h) && t in Last(h).calls && Last(h).calls[t].StartPublish?
    requires u in Last(h).calls && Waiting(Last(h).calls[u]) && Last(h).calls[u].op.Remove?
    requires Last(h).calls[u].op.id in Last(h).entries
    ensures Valid(h') && Extends(h, h') && u in Last(h').calls && Last(h').calls[u] == Done
    ensures Undone(Last(h'), Last(h).calls[u].op.id)
    ensures Valid(h1) && Poised(Last(h), Last(h1), t, u) && |Last(h).runs| < |Last(h1).runs|
    ensures var s, s1, k := Last(h), Last(h1), Last(h).nextId + 1;
            Last(h') == Raced(s1, u, v, |s.runs|, k, s.entries + [k], s.gone + {s.calls[u].op.id})
  {
    hide Valid, IDLE_RUN, NEW_RUN, Poised, Waiting;
    h1, h', v := OverwritePath(h, t, u);
  }

  /** The loop takes an Add and comes back to its select. */
  lemma LoopAdds(h: History, v: nat, q: nat, k: nat) returns (h': History)
    requires Valid(h) && q < |Last(h).runs| && Last(h).runs[q] == IDLE_RUN
    requires v in Last(h).calls && Last(h).calls[v] == EntrySelect(Add(k), q)
    ensures Valid(h') && Extends(h, h') && Last(h') == At(Last(h).(entries := Last(h).entries + [k]), v, Done)
  {
    var s, value := Last(h), Last(h).entries + [k];
    var s1 := At(With(s, q, NEW_RUN.(loop := Writing(value, Some(k), None))), v, Done);
    var s2 := At(With(s, q, NEW_RUN), v, Done).(entries := value);
    LoopStores(s1, q, value, k);
    SortSteps(s2, q);
    assert s.runs[q := NEW_RUN][q := IDLE_RUN] == s.runs;
    hide Valid, Leads;
    h' := LoopHasRead(h, v, q, k);
    h' := Go(h', Write(q), s2);
    h' := Go(h', Work(q, value), With(s2, q, NEW_RUN.(loop := Writing(value, None, None))));
    h' := Go(h', Write(q), With(s2, q, IDLE_RUN));
  }

  lemma LoopDropSteps(s: State, v: nat, q: nat, y: nat)
    requires q < |s.runs| && s.runs[q] == IDLE_RUN && v in s.calls && s.calls[v] == EntrySelect(Remove(y), q)
    ensures var s1, kept := At(With(s, q, NEW_RUN.(loop := Removing(y))), v, Done), Drop(s.entries, y);
            var s2 := At(With(s, q, NEW_RUN.(loop := Writing(kept, None, Some(y)))), v, Done);
            var s3 := At(With(s, q, NEW_RUN), v, Done).(entries := kept, gone := s.gone + GoneBy(Remove(y), s.entries));
            Leads(s, Send(v, q), s1) && Leads(s1, Work(q, kept), s2) && Leads(s2, Write(q), s3)
  {
    hide Drop, GoneBy;
  }

  /** The loop takes a Remove and carries it out. */
  lemma LoopDrops(h: History, v: nat, q: nat, y: nat) returns (h': History)
    requires Valid(h) && q < |Last(h).runs| && Last(h).runs[q] == IDLE_RUN
    requires v in Last(h).calls && Last(h).calls[v] == EntrySelect(Remove(y), q)
    ensures Valid(h') && Extends(h, h')
    ensures var s := Last(h);
            var gone := s.gone + GoneBy(Remove(y), s.entries);
            Last(h') == At(With(s, q, NEW_RUN), v, Done).(entries := Drop(s.entries, y), gone := gone)
  {
    var s, kept := Last(h), Drop(Last(h).entries, y);
    LoopDropSteps(s, v, q, y);
    hide Valid, Leads, Drop, GoneBy;
    h' := Go(h, Send(v, q), At(With(s, q, NEW_RUN.(loop := Removing(y))), v, Done));
    h' := Go(h', Work(q, kept), At(With(s, q, NEW_RUN.(loop := Writing(kept, None, Some(y)))), v, Done));
    h' := Go(h', Write(q), At(With(s, q, NEW_RUN), v, Done).(
                             entries := kept, gone := s.gone + GoneBy(Remove(y), s.entries)));
  }

  /** While call u has the older entries in hand, the loop removes one, which u then puts back. */
  lemma PutsBack(h: History, u: nat, v: nat, q: nat, op: EntryOp, y: nat) returns (h': History)
    requires Valid(h) && Last(h).mutex.None? && u != v && q < |Last(h).runs| && Last(h).runs[q] == IDLE_RUN
    requires u in Last(h).calls && Last(h).calls[u] == EntryFallback(op) && !op.List? && op != Remove(y)
    requires v in Last(h).calls && Last(h).calls[v] == EntrySelect(Remove(y), q) && y in Last(h).entries
    ensures Valid(h') && Extends(h, h') && Undone(Last(h'), y)
  {
    var s, value := Last(h), Goes(op, Last(h).entries);
    assert y in value by { if op.Remove? { DropMembers(s.entries, op.id); } }
    var h1 := FallenCallReads(h, u, op);
    var h2 := LoopDrops(h1, v, q, y);
    var s2 := Last(h2);
    HolderStores(s2, u, op, value);
    hide Valid, Leads, Drop, Goes;
    h' := Go(h2, StepEntry(u),
          At(s2, u, Done).(mutex := None, entries := value, gone := s2.gone + GoneBy(op, s2.entries)));
    ExtendsOn(h, h1, h2);
    ExtendsOn(h, h2, h');
  }

  /** The entry of one more Add is removed and put back, by the loop after call u or by call u
      after the loop, whichever of the two removes it. */
  lemma NewEntryIsPutBack(h: History, u: nat, q: nat, op: EntryOp) returns (h': History)
    requires Valid(h) && Last(h).mutex.None? && Last(h).running && Last(h).current == Some(q)
    requires q < |Last(h).runs| && Last(h).runs[q] == IDLE_RUN
    requires u in Last(h).calls && Last(h).calls[u] == EntryFallback(op) && !op.List?
    ensures Valid(h') && Extends(h, h') && Undone(Last(h'), Last(h).nextId + 1)
  {
    var k := Last(h).nextId + 1;
    hide Valid, IDLE_RUN, NEW_RUN;
    var w := NewCall(Last(h));
    var h1 := AddWaits(h, w);
    var h2 := LoopAdds(h1, w, q, k);
    ExtendsOn(h, h1, h2);
    if op == Remove(k) {
      var v;
      h', v := AddWins(h2, u, q, op);
    } else {
      var v := NewCall(Last(h2));
      var h3 := RemoveWaits(h2, v, k);
      h' := PutsBack(h3, u, v, q, op, k);
      ExtendsOn(h2, h3, h');
    }
    ExtendsOn(h, h2, h');
  }

  /** Whenever a run is being published while an Add or Remove waits, in any reachable state, the
      history can go on so that a removal is undone. */
  lemma EveryRaceCanUndo(h: History) returns (h': History, id: nat)
    requires Valid(h) && !Apart(Last(h))
    ensures Valid(h') && Extends(h, h') && Undone(Last(h'), id)
  {
    hide Valid, Undone, IDLE_RUN;
    var t, u :| t in Last(h).calls && u in Last(h).calls &&
                Last(h).calls[t].StartPublish? && Waiting(Last(h).calls[u]);
    var h1 := ComesToTheRace(h, t, u);
    h' := NewEntryIsPutBack(h1, u, |Last(h).runs|, Last(h).calls[u].op);
    id := Last(h1).nextId + 1;
    ExtendsOn(h, h1, h');
  }

  // ---------- every such race ----------

  /** Whenever a run is being published while an Add or Remove waits, in any reachable state,
      the history can go on so that an id is lost; by `EntryFlow.LossNeedsARace` nothing else
      can lose one. */
  lemma EveryRaceCanLose(h: History) returns (h': History, id: nat)
    requires Valid(h) && !Apart(Last(h))
    ensures Valid(h') && Extends(h, h') && Lost(Last(h'), id)
  {
    hide Valid, Lost;
    var t, u :| t in Last(h).calls && u in Last(h).calls &&
                Last(h).calls[t].StartPublish? && Waiting(Last(h).calls[u]);
    if Last(h).calls[u].op.Add? {
      var h1, v;
      h1, h', v := WaitingAddCanBeLost(h, t, u);
      id := Last(h).calls[u].op.id;
    } else {
      h', id := AddBesideARemoveCanBeLost(h, t, u);
    }
  }

  // ---------- one such history from the beginning ----------

  lemma Begin() returns (h: History)
    ensures Valid(h) && Last(h) == State(None, false, None, [], None, [], {}, 0, 0, [], 0, {}, {}, map[])
  {
    h := History([State(None, false, None, [], None, [], {}, 0, 0, [], 0, {}, {}, map[])], []);
  }

  lemma StartLocks(s: State, t: nat)
    requires t !in s.calls && s.mutex.None? && !s.running
    ensures Leads(s, Invoke(t, StartWait), At(s, t, StartWait))
    ensures Leads(At(s, t, StartWait), Acquire(t), Locked(s, t, StartLocked))
    ensures Leads(Locked(s, t, StartLocked), StepStart(t), Locked(s, t, StartSweep).(sweep := Some((0, 0))))
  {
    Again(s, t, StartWait, StartLocked);
    Again(s, t, StartLocked, StartSweep);
    assert s.asked + {} == s.asked;
  }

  lemma StartStores(s: State, t: nat)
    ensures Leads(Locked(s, t, StartStore), StepStart(t), Locked(s, t, StartPublish).(running := true))
  {
    Again(s, t, StartStore, StartPublish);
  }

  lemma NothingToSweep(s: State, t: nat)
    requires s.list == [] && s.sweep.None?
    ensures Leads(Locked(s, t, StartSweep).(sweep := Some((0, 0))), SweepEnd, Locked(s, t, StartStore))
  {
    Again(s, t, StartSweep, StartStore);
  }

  lemma SweepsOld(s: State, t: nat)
    requires |s.list| == 1 && Finished(s, s.list[0]) && s.current == Some(s.list[0]) && s.sweep.None?
    ensures var s1 := Locked(s, t, StartSweep).(sweep := Some((1, 0)), current := None);
            && Leads(Locked(s, t, StartSweep).(sweep := Some((0, 0))), Sweep, s1)
            && Leads(s1, SweepEnd, Locked(s, t, StartStore).(list := [], current := None))
  {
    Again(s, t, StartSweep, StartStore);
    assert s.list[..0] == [];
  }

  lemma SweepsUp(h: History, s: State, t: nat) returns (h': History)
    requires Valid(h) && Last(h) == Locked(s, t, StartSweep).(sweep := Some((0, 0))) && s.sweep.None?
    requires
      || (s.list == [] && s.current.None?)
      || (|s.list| == 1 && Finished(s, s.list[0]) && s.current == Some(s.list[0]))
    ensures Valid(h') && Extends(h, h') && Last(h') == Locked(s.(list := [], current := None), t, StartStore)
  {
    hide Valid, Leads, Finished;
    if s.list == [] {
      NothingToSweep(s, t);
      h' := Go(h, SweepEnd, Locked(s, t, StartStore));
    } else {
      SweepsOld(s, t);
      h' := Go(h, Sweep, Locked(s, t, StartSweep).(sweep := Some((1, 0)), current := None));
      h' := Go(h', SweepEnd, Locked(s, t, StartStore).(list := [], current := None));
    }
  }

  /** Start on a scheduler that is not running and whose runs are all swept or finished, up to
      the point where it publishes its run. */
  lemma StartComesToPublish(h: History, t: nat) returns (h': History)
    requires Valid(h) && t !in Last(h).calls && Last(h).mutex.None? && Last(h).sweep.None? && !Last(h).running
    requires
      var s := Last(h);
      || (s.list == [] && s.current.None?)
      || (|s.list| == 1 && Finished(s, s.list[0]) && s.current == Some(s.list[0]))
    ensures Valid(h') && Extends(h, h')
    ensures Last(h') == Locked(Last(h).(list := [], current := None, running := true), t, StartPublish)
  {
    var s := Last(h);
    hide Valid, Leads, Finished;
    StartLocks(s, t);
    h' := Go(h, Invoke(t, StartWait), At(s, t, StartWait));
    h' := Go(h', Acquire(t), Locked(s, t, StartLocked));
    h' := Go(h', StepStart(t), Locked(s, t, StartSweep).(sweep := Some((0, 0))));
    h' := SweepsUp(h', s, t);
    StartStores(s.(list := [], current := None), t);
    h' := Go(h', StepStart(t), Locked(s.(list := [], current := None, running := true), t, StartPublish));
  }

  lemma LoopSteps(s: State, r: nat)
    requires r < |s.runs| && s.runs[r] == IDLE_RUN
    ensures Leads(s, ParentCancel(r), With(s, r, Run(Idle, 0, None, {}, true, true)))
    ensures Leads(With(s, r, Run(Idle, 0, None, {}, true, true)), Move(r, Exited),
                  With(s, r, Run(Exited, 0, None, {}, true, true)))
    ensures Leads(With(s, r, Run(Exited, 0, None, {}, true, true)), StoreFalse(r),
                  With(s.(running := false), r, Run(Stored, 0, None, {}, true, true)))
    ensures Leads(With(s.(running := false), r, Run(Stored, 0, None, {}, true, true)), Move(r, Closed),
                  With(s.(running := false), r, Run(Closed, 0, None, {}, true, true)))
  {
  }

  /** The caller's context ends and the loop with it. */
  lemma LoopEnds(h: History, r: nat) returns (h': History)
    requires Valid(h) && r < |Last(h).runs| && Last(h).runs[r] == IDLE_RUN
    ensures Valid(h') && Extends(h, h')
    ensures Last(h') == With(Last(h).(running := false), r, Run(Closed, 0, None, {}, true, true))
  {
    var s := Last(h);
    hide Valid, Leads;
    LoopSteps(s, r);
    h' := Go(h, ParentCancel(r), With(s, r, Run(Idle, 0, None, {}, true, true)));
    h' := Go(h', Move(r, Exited), With(s, r, Run(Exited, 0, None, {}, true, true)));
    h' := Go(h', StoreFalse(r), With(s.(running := false), r, Run(Stored, 0, None, {}, true, true)));
    h' := Go(h', Move(r, Closed), With(s.(running := false), r, Run(Closed, 0, None, {}, true, true)));
  }

  /** A Start, an Add that comes to its select, the end of the run, and another Start. */
  lemma ARestartBesideAnAdd() returns (h: History)
    ensures Valid(h) && 1 in Last(h).calls && Last(h).calls[1] == EntrySelect(Add(1), 0)
    ensures 2 in Last(h).calls && Last(h).calls[2].StartPublish? && Last(h).calls.Keys == {0, 1, 2}
    ensures Last(h).calls[0] == Done && |Last(h).runs| == 1 && Last(h).runs[0].loop.Closed?
    ensures Last(h).nextId == 1 && Last(h).entries == [] && Last(h).gone == {} && Last(h).asked == {}
  {
    h := Begin();
    hide Valid, Extends;
    h := StartComesToPublish(h, 0);
    h := Publish(h, 0);
    h := AddWaits(h, 1);
    h := LoopEnds(h, 0);
    h := StartComesToPublish(h, 2);
  }

  /** Both ids are handed out and nobody asked to remove either, yet once every call has
      returned and no loop has an entry in hand only one is among the entries. */
  lemma AnAddIsLostToARestart() returns (h: History)
    ensures Valid(h) && Settled(Last(h)) && Lost(Last(h), 1)
    ensures Last(h).nextId == 2 && Last(h).asked == {} && Last(h).gone == {} && Last(h).entries == [2]
  {
    var h0 := ARestartBesideAnAdd();
    var h1, v;
    hide Valid, Lost, Extends;
    h1, h, v := WaitingAddCanBeLost(h0, 2, 1);
  }

  // ---------- and one that undoes a removal ----------

  lemma AddStores(s: State, v: nat, op: EntryOp)
    requires op.Add? && !s.running && s.mutex.None?
    ensures var value := s.entries + [op.id];
            && Leads(Locked(s, v, EntryLocked(op)), StepEntry(v), Locked(s, v, EntryAccess(op, true)))
            && Leads(Locked(s, v, EntryAccess(op, true)), StepEntry(v), Locked(s, v, EntryWrite(op, value, true)))
            && Leads(Locked(s, v, EntryWrite(op, value, true)), StepEntry(v), At(s, v, Done).(entries := value))
  {
    Again(s, v, EntryLocked(op), EntryAccess(op, true));
    Again(s, v, EntryAccess(op, true), EntryWrite(op, s.entries + [op.id], true));
    Again(s, v, EntryWrite(op, s.entries + [op.id], true), Done);
    assert s.gone + {} == s.gone;
  }

  /** Add on a scheduler that is not running. */
  lemma AddDirectly(h: History, v: nat) returns (h': History)
    requires Valid(h) && v !in Last(h).calls && Last(h).mutex.None? && !Last(h).running
    ensures Valid(h') && Extends(h, h')
    ensures var s, k := Last(h), Last(h).nextId + 1;
            Last(h') == At(s.(nextId := k), v, Done).(entries := s.entries + [k])
  {
    var s, k := Last(h), Last(h).nextId + 1;
    var s1, op := s.(nextId := k), Add(k);
    hide Valid, Leads;
    AddLocks(s, v);
    AddStores(s1, v, op);
    h' := Go(h, Invoke(v, EntryWait(Add(0))), At(s, v, EntryWait(Add(0))));
    h' := Go(h', Acquire(v), Locked(s1, v, EntryLocked(op)));
    h' := Go(h', StepEntry(v), Locked(s1, v, EntryAccess(op, true)));
    h' := Go(h', StepEntry(v), Locked(s1, v, EntryWrite(op, s.entries + [k], true)));
    h' := Go(h', StepEntry(v), At(s1, v, Done).(entries := s.entries + [k]));
  }

  /** An Add, a Start, a Remove that comes to its select, the end of the run, another Start. */
  lemma ARestartBesideARemove() returns (h: History)
    ensures Valid(h) && 2 in Last(h).calls && Last(h).calls[2] == EntrySelect(Remove(1), 0)
    ensures 3 in Last(h).calls && Last(h).calls[3].StartPublish? && Last(h).calls.Keys == {0, 1, 2, 3}
    ensures Last(h).calls[0] == Done && Last(h).calls[1] == Done
    ensures |Last(h).runs| == 1 && Last(h).runs[0].loop.Closed?
    ensures Last(h).nextId == 1 && Last(h).entries == [1] && Last(h).gone == {} && Last(h).asked == {1}
  {
    h := Begin();
    hide Valid, Extends;
    h := AddDirectly(h, 0);
    h := StartComesToPublish(h, 1);
    h := Publish(h, 1);
    h := RemoveWaits(h, 2, 1);
    h := LoopEnds(h, 0);
    h := StartComesToPublish(h, 3);
  }

  /** The only Remove has returned and taken out entry 1, no other entry was ever given that id,
      and it is among the entries once every call has returned and no loop has one in hand. */
  lemma ARemoveIsUndoneByARestart() returns (h: History)
    ensures Valid(h) && Settled(Last(h)) && Undone(Last(h), 1)
    ensures Last(h).nextId == 2 && Last(h).asked == {1} && Last(h).gone == {1} && Last(h).entries == [1, 2]
  {
    var h0 := ARestartBesideARemove();
    var h1, v;
    hide Valid, Undone, Extends;
    h1, h, v := WaitingRemoveCanBeUndone(h0, 3, 2);
  }
}
