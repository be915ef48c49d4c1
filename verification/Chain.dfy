/** Job wrappers (chain.go): the order in which a chain nests its wrappers, the tokens that
    bound concurrent invocations, and retries. */
module Chains {
  import opened Results

  // ---------- the order of a chain: chain.go:40-46 ----------

  /** m1(m2(m3(job))) for the wrappers m1, m2, m3. */
  function Nested<Job>(wrappers: seq<Job -> Job>, job: Job): Job {
    if wrappers == [] then job else wrappers[0](Nested(wrappers[1..], job))
  }

  method Then<Job>(wrappers: seq<Job -> Job>, job: Job) returns (j: Job)
    ensures j == Nested(wrappers, job)
  {
    j := job;
    for i := 0 to |wrappers|
      invariant j == Nested(wrappers[|wrappers| - i..], job)
    {
      j := wrappers[|wrappers| - i - 1](j);
    }
  }

  /** What a run of a wrapped job does, in order. */
  datatype Event = Enter(wrapper: nat) | Leave(wrapper: nat) | Deadline | Attempt

  function Around(wrapper: nat): seq<Event> -> seq<Event> {
    (body: seq<Event>) => [Enter(wrapper)] + body + [Leave(wrapper)]
  }

  function Arounds(wrappers: seq<nat>): seq<seq<Event> -> seq<Event>> {
    if wrappers == [] then [] else [Around(wrappers[0])] + Arounds(wrappers[1..])
  }

  function Enters(wrappers: seq<nat>): seq<Event> {
    if wrappers == [] then [] else [Enter(wrappers[0])] + Enters(wrappers[1..])
  }

  function Leaves(wrappers: seq<nat>): seq<Event> {
    if wrappers == [] then [] else Leaves(wrappers[1..]) + [Leave(wrappers[0])]
  }

  /** Wrappers are entered in the order they were given and left in the opposite order. */
  lemma {:induction false} EnteredInOrderLeftInReverse(wrappers: seq<nat>, body: seq<Event>)
    ensures Nested(Arounds(wrappers), body) == Enters(wrappers) + body + Leaves(wrappers)
  {
    if wrappers == [] {
      assert [] + body + [] == body;
    } else {
      var rest := wrappers[1..];
      var inner := Nested(Arounds(rest), body);
      EnteredInOrderLeftInReverse(rest, body);
      NestedCons(Around(wrappers[0]), Arounds(rest), body);
      assert Enters(wrappers) == [Enter(wrappers[0])] + Enters(rest);
      assert Leaves(wrappers) == Leaves(rest) + [Leave(wrappers[0])];
      Regroup(Enter(wrappers[0]), Enters(rest), body, Leaves(rest), Leave(wrappers[0]));
      hide Nested, Enters, Leaves;
    }
  }

  lemma NestedCons<Job>(wrapper: Job -> Job, rest: seq<Job -> Job>, job: Job)
    ensures Nested([wrapper] + rest, job) == wrapper(Nested(rest, job))
  {
    assert ([wrapper] + rest)[1..] == rest;
  }

  lemma Regroup(first: Event, a: seq<Event>, b: seq<Event>, c: seq<Event>, last: Event)
    ensures [first] + (a + b + c) + [last] == ([first] + a) + b + (c + [last])
  {
  }

  /** Splitting a chain in two changes nothing. */
  lemma {:induction false} ChainsCompose<Job>(outer: seq<Job -> Job>, inner: seq<Job -> Job>, job: Job)
    ensures Nested(outer + inner, job) == Nested(outer, Nested(inner, job))
  {
    if outer == [] {
      assert outer + inner == inner;
    } else {
      ChainsCompose(outer[1..], inner, job);
      assert (outer + inner)[1..] == outer[1..] + inner;
    }
  }

  function Timed(): seq<Event> -> seq<Event> {
    (body: seq<Event>) => [Deadline] + body
  }

  function Repeat(body: seq<Event>, count: nat): seq<Event> {
    if count == 0 then [] else body + Repeat(body, count - 1)
  }

  /** The retry wrapper: what it wraps, once for each attempt that the retries make. */
  function Retried<E>(job: nat -> Option<E>, ended: nat -> Option<E>, maxRetries: int, backoff: int)
    : seq<Event> -> seq<Event>
  {
    (body: seq<Event>) => Repeat(body, AttemptsMade(job, ended, maxRetries, backoff))
  }

  function Deadlines(events: seq<Event>): nat {
    if events == [] then 0 else (if events[0].Deadline? then 1 else 0) + Deadlines(events[1..])
  }

  /** Chain(Timeout, RetryOnError) sets one deadline for all attempts; it is the other order
      that sets one for each attempt made. The text at doc.go:228-231 has it the other way round. */
  lemma DeadlinesByOrder<E>(job: nat -> Option<E>, ended: nat -> Option<E>, maxRetries: nat, backoff: int)
    ensures var retry := Retried(job, ended, maxRetries, backoff);
            var attempts := AttemptsMade(job, ended, maxRetries, backoff);
            && Deadlines(Nested([Timed(), retry], [Attempt])) == 1
            && Deadlines(Nested([retry, Timed()], [Attempt])) == attempts >= 1
  {
    var retry, attempts := Retried(job, ended, maxRetries, backoff), AttemptsMade(job, ended, maxRetries, backoff);
    NestedPair(Timed(), retry, [Attempt]);
    NestedPair(retry, Timed(), [Attempt]);
    var all := Repeat([Attempt], attempts);
    RepeatedDeadlines([Attempt], attempts);
    RepeatedDeadlines([Deadline, Attempt], attempts);
    assert ([Deadline] + all)[1..] == all;
    assert [Deadline] + [Attempt] == [Deadline, Attempt];
    assert [Deadline, Attempt][1..] == [Attempt];
  }

  lemma NestedPair<Job>(outer: Job -> Job, inner: Job -> Job, job: Job)
    ensures Nested([outer, inner], job) == outer(inner(job))
  {
    assert [outer, inner][1..] == [inner];
    assert Nested([inner], job) == inner(job);
  }

  lemma {:induction false} RepeatedDeadlines(body: seq<Event>, count: nat)
    ensures Deadlines(Repeat(body, count)) == count * Deadlines(body)
  {
    if count > 0 {
      RepeatedDeadlines(body, count - 1);
      DeadlinesAdd(body, Repeat(body, count - 1));
      assert count * Deadlines(body) == Deadlines(body) + (count - 1) * Deadlines(body);
    }
  }

  lemma {:induction false} DeadlinesAdd(a: seq<Event>, b: seq<Event>)
    ensures Deadlines(a + b) == Deadlines(a) + Deadlines(b)
  {
    if a == [] {
      assert a + b == b;
    } else {
      DeadlinesAdd(a[1..], b);
      assert (a + b)[1..] == a[1..] + b;
    }
  }

  // ---------- tokens: chain.go:102-149 ----------

  /** Where an invocation of the wrapped job stands. */
  datatype CallPc = AtSelect | Running | Returning | Ran | Skipped

  /** The buffered channel of tokens and the invocations that share it. */
  datatype Tokens = Tokens(capacity: nat, inChannel: nat, calls: map<nat, CallPc>)

  datatype Step = Invoke(t: nat) | Select(t: nat) | JobReturns(t: nat) | PutBack(t: nat)

  function AtLeastOne(limit: int): nat { if limit < 1 then 1 else limit }

  /** The channel as MaxConcurrent fills it before any call. A send to a channel that is full
      would block; none does. */
  method FillTokens(limit: int) returns (tokens: Tokens, blocked: bool)
    ensures tokens == NewTokens(limit) && !blocked
  {
    var size := AtLeastOne(limit);
    tokens := Tokens(size, 0, map[]);
    blocked := false;
    for i := 0 to size
      invariant tokens == Tokens(size, i, map[]) && !blocked
    {
      blocked := blocked || tokens.inChannel >= tokens.capacity;
      tokens := tokens.(inChannel := tokens.inChannel + 1);
    }
  }

  function NewTokens(limit: int): Tokens {
    Tokens(AtLeastOne(limit), AtLeastOne(limit), map[])
  }

  /** A send to a channel that is full would block. */
  predicate Enabled(s: Tokens, step: Step) {
    match step
    case Invoke(t) => t !in s.calls
    case Select(t) => t in s.calls && s.calls[t].AtSelect?
    case JobReturns(t) => t in s.calls && s.calls[t].Running?
    case PutBack(t) => t in s.calls && s.calls[t].Returning? && s.inChannel < s.capacity
  }

  function Apply(s: Tokens, step: Step): Tokens
    requires Enabled(s, step)
  {
    match step
    case Invoke(t) => s.(calls := s.calls[t := AtSelect])
    case Select(t) =>
      if s.inChannel > 0 then s.(inChannel := s.inChannel - 1, calls := s.calls[t := Running])
      else s.(calls := s.calls[t := Skipped])
    case JobReturns(t) => s.(calls := s.calls[t := Returning])
    case PutBack(t) => s.(inChannel := s.inChannel + 1, calls := s.calls[t := Ran])
  }

  predicate Holds(pc: CallPc) { pc.Running? || pc.Returning? }

  function Holders(s: Tokens): set<nat> {
    set t | t in s.calls && Holds(s.calls[t])
  }

  /** The invocations whose job is running. */
  function AtWork(s: Tokens): set<nat> {
    set t | t in s.calls && s.calls[t].Running?
  }

  predicate Conserved(s: Tokens) {
    s.inChannel + |Holders(s)| == s.capacity
  }

  lemma StepConserves(s: Tokens, step: Step)
    requires Conserved(s) && Enabled(s, step)
    ensures Conserved(Apply(s, step)) && Apply(s, step).capacity == s.capacity
  {
    var s', t := Apply(s, step), step.t;
    if step.Select? && s.inChannel > 0 {
      assert Holders(s') == Holders(s) + {t};
    } else if step.PutBack? {
      assert Holders(s') == Holders(s) - {t};
    } else {
      assert Holders(s') == Holders(s);
    }
  }

  ghost predicate IsHistory(states: seq<Tokens>, steps: seq<Step>, limit: int) {
    && |states| == |steps| + 1 && states[0] == NewTokens(limit)
    && forall i | 0 <= i < |steps| :: Enabled(states[i], steps[i]) && states[i + 1] == Apply(states[i], steps[i])
  }

  /** In every interleaving, tokens in the channel and invocations holding one add up to the limit. */
  lemma {:induction false} TokensAreConserved(states: seq<Tokens>, steps: seq<Step>, limit: int, i: nat)
    requires IsHistory(states, steps, limit) && i < |states|
    ensures states[i].inChannel + |Holders(states[i])| == states[i].capacity == if limit >= 1 then limit else 1
  {
    if i == 0 {
      assert Holders(states[0]) == {};
    } else {
      TokensAreConserved(states, steps, limit, i - 1);
      StepConserves(states[i - 1], steps[i - 1]);
    }
  }

  /** Jobs never run on more than `limit` invocations at a time. */
  lemma ConcurrencyIsBounded(states: seq<Tokens>, steps: seq<Step>, limit: int, i: nat)
    requires IsHistory(states, steps, limit) && i < |states|
    ensures |AtWork(states[i])| <= if limit >= 1 then limit else 1
  {
    TokensAreConserved(states, steps, limit, i);
    SubsetIsSmaller(AtWork(states[i]), Holders(states[i]));
  }

  lemma {:induction false} SubsetIsSmaller(a: set<nat>, b: set<nat>)
    requires a <= b
    ensures |a| <= |b|
  {
    if a != {} {
      var x :| x in a;
      SubsetIsSmaller(a - {x}, b - {x});
    }
  }

  /** An invocation that hands its token back never waits for room. */
  lemma PuttingBackNeverBlocks(states: seq<Tokens>, steps: seq<Step>, limit: int, i: nat, t: nat)
    requires IsHistory(states, steps, limit) && i < |states|
    requires t in states[i].calls && states[i].calls[t].Returning?
    ensures Enabled(states[i], PutBack(t))
  {
    TokensAreConserved(states, steps, limit, i);
    assert t in Holders(states[i]);
  }

  /** An invocation runs its job exactly when fewer than `limit` others hold a token, and is
      skipped otherwise. */
  lemma RunsExactlyBelowTheLimit(states: seq<Tokens>, steps: seq<Step>, limit: int, i: nat, t: nat)
    requires IsHistory(states, steps, limit) && i < |steps| && steps[i] == Select(t)
    ensures t in states[i + 1].calls
    ensures states[i + 1].calls[t] ==
            if |Holders(states[i])| < (if limit >= 1 then limit else 1) then Running else Skipped
  {
    TokensAreConserved(states, steps, limit, i);
  }

  // ---------- SkipIfStillRunning: chain.go:102-119 ----------

  /** The channel of capacity one that SkipIfStillRunning keeps: it is full or empty. */
  datatype Slot = Slot(full: bool, calls: map<nat, CallPc>)

  predicate SlotEnabled(s: Slot, step: Step) {
    match step
    case Invoke(t) => t !in s.calls
    case Select(t) => t in s.calls && s.calls[t].AtSelect?
    case JobReturns(t) => t in s.calls && s.calls[t].Running?
    case PutBack(t) => t in s.calls && s.calls[t].Returning? && !s.full
  }

  function SlotApply(s: Slot, step: Step): Slot
    requires SlotEnabled(s, step)
  {
    match step
    case Invoke(t) => s.(calls := s.calls[t := AtSelect])
    case Select(t) => if s.full then Slot(false, s.calls[t := Running]) else s.(calls := s.calls[t := Skipped])
    case JobReturns(t) => s.(calls := s.calls[t := Returning])
    case PutBack(t) => Slot(true, s.calls[t := Ran])
  }

  ghost predicate IsSlotHistory(slots: seq<Slot>, steps: seq<Step>) {
    && |slots| == |steps| + 1 && slots[0] == Slot(true, map[])
    && forall i | 0 <= i < |steps| :: SlotEnabled(slots[i], steps[i]) && slots[i + 1] == SlotApply(slots[i], steps[i])
  }

  function AsTokens(s: Slot): Tokens {
    Tokens(1, if s.full then 1 else 0, s.calls)
  }

  function AllAsTokens(slots: seq<Slot>): seq<Tokens> {
    seq(|slots|, i requires 0 <= i < |slots| => AsTokens(slots[i]))
  }

  /** Both allow the same steps, with the same effect. */
  lemma SameSteps(s: Slot, step: Step)
    ensures SlotEnabled(s, step) <==> Enabled(AsTokens(s), step)
    ensures SlotEnabled(s, step) ==> AsTokens(SlotApply(s, step)) == Apply(AsTokens(s), step)
  {
  }

  /** SkipIfStillRunning and MaxConcurrent with a limit of one (or less) have the same runs:
      the same invocations run and the same are skipped. */
  lemma SkipIsLimitOne(slots: seq<Slot>, steps: seq<Step>, limit: int)
    requires limit <= 1 && |slots| == |steps| + 1
    ensures IsSlotHistory(slots, steps) <==> IsHistory(AllAsTokens(slots), steps, limit)
  {
    var states := AllAsTokens(slots);
    assert states[0] == NewTokens(limit) <==> slots[0] == Slot(true, map[]);
    forall i | 0 <= i < |steps|
      ensures SlotEnabled(slots[i], steps[i]) && slots[i + 1] == SlotApply(slots[i], steps[i])
         <==> Enabled(states[i], steps[i]) && states[i + 1] == Apply(states[i], steps[i])
    {
      SameSteps(slots[i], steps[i]);
    }
  }

  /** Every run of MaxConcurrent with that limit is a run of SkipIfStillRunning. */
  lemma LimitOneIsSkip(states: seq<Tokens>, steps: seq<Step>, limit: int) returns (slots: seq<Slot>)
    requires limit <= 1 && IsHistory(states, steps, limit)
    ensures IsSlotHistory(slots, steps) && AllAsTokens(slots) == states
  {
    slots := seq(|states|, i requires 0 <= i < |states| => Slot(states[i].inChannel > 0, states[i].calls));
    forall i | 0 <= i < |states| ensures AsTokens(slots[i]) == states[i] {
      TokensAreConserved(states, steps, limit, i);
    }
    assert AllAsTokens(slots) == states;
    SkipIsLimitOne(slots, steps, limit);
  }

  // ---------- retries: chain.go:174-224 ----------

  /** The wait between two attempts: at once without a backoff, otherwise until the timer
      fires or the context ends, whichever `ended` says comes first. */
  function RetryBackoff<E>(backoff: int, ended: Option<E>): Option<E> {
    if backoff <= 0 then None else ended
  }

  /** Attempts are made up to the first that succeeds, the last allowed, or the first whose wait
      is cut short. */
  function AttemptsFrom<E>(job: nat -> Option<E>, ended: nat -> Option<E>, maxRetries: nat, backoff: int, k: nat)
    : (n: nat)
    requires k <= maxRetries
    ensures k < n <= maxRetries + 1
    decreases maxRetries - k
  {
    if job(k).None? || k == maxRetries || RetryBackoff(backoff, ended(k)).Some? then k + 1
    else AttemptsFrom(job, ended, maxRetries, backoff, k + 1)
  }

  function AttemptsMade<E>(job: nat -> Option<E>, ended: nat -> Option<E>, maxRetries: int, backoff: int): nat {
    if maxRetries < 0 then 0 else AttemptsFrom(job, ended, maxRetries, backoff, 0)
  }

  /** `job(k)` is what attempt k returns, `ended(k)` whether the context ends in the wait after it. */
  method ExecuteWithRetry<E>(job: nat -> Option<E>, ended: nat -> Option<E>, maxRetries: int, backoff: int)
    returns (err: Option<E>, attempts: nat)
    ensures attempts == AttemptsMade(job, ended, maxRetries, backoff)
    ensures maxRetries < 0 ==> attempts == 0 && err == None
    ensures maxRetries >= 0 ==> 1 <= attempts <= maxRetries + 1
    ensures forall k | 0 <= k < attempts - 1 :: job(k).Some? && (backoff > 0 ==> ended(k).None?)
    ensures maxRetries >= 0 ==>
              var last := job(attempts - 1);
              || (last == None && err == None)
              || (last.Some? && attempts == maxRetries + 1 && err == last)
              || (last.Some? && attempts <= maxRetries && backoff > 0 && ended(attempts - 1).Some?
                  && err == ended(attempts - 1))
  {
    err := None;
    attempts := 0;
    for attempt := 0 to if maxRetries < 0 then 0 else maxRetries + 1
      invariant attempts == attempt && (attempt == 0 ==> err == None)
      invariant attempt > 0 ==> attempt <= maxRetries
      invariant maxRetries >= 0 ==>
                  AttemptsMade(job, ended, maxRetries, backoff) ==
                  AttemptsFrom(job, ended, maxRetries, backoff, attempt)
      invariant forall k | 0 <= k < attempt :: job(k).Some? && RetryBackoff(backoff, ended(k)) == None
    {
      err := job(attempt);
      attempts := attempt + 1;
      if err == None {
        return;
      }
      if attempt == maxRetries {
        break;
      }
      var waitErr := RetryBackoff(backoff, ended(attempt));
      if waitErr != None {
        err := waitErr;
        return;
      }
    }
  }

  /** RetryOnError runs the job at least once, stops at the first success and at the first wait
      that is cut short, reports the last error when every attempt failed, and reports success
      only if some attempt succeeded. Without a backoff no wait is cut short. */
  method RetryOnError<E>(job: nat -> Option<E>, ended: nat -> Option<E>, maxRetries: int, backoff: int)
    returns (err: Option<E>, attempts: nat)
    ensures var most := if maxRetries < 0 then 0 else maxRetries;
            && attempts == AttemptsMade(job, ended, most, backoff)
            && 1 <= attempts <= most + 1
            && (err == None <==> job(attempts - 1) == None)
            && (forall k | 0 <= k < attempts - 1 :: job(k).Some? && (backoff > 0 ==> ended(k).None?))
            && (err.Some? && attempts <= most ==> backoff > 0 && err == ended(attempts - 1))
            && (err.Some? && attempts == most + 1 ==> err == job(most))
  {
    err, attempts := ExecuteWithRetry(job, ended, if maxRetries < 0 then 0 else maxRetries, backoff);
  }
}
