/** Building histories of the scheduler's runs step by step (cron.go). */
module Histories {
  import opened Lifecycle

  datatype History = History(states: seq<State>, actions: seq<Action>)

  ghost predicate Valid(h: History): (valid: bool)
    ensures valid ==> |h.states| == |h.actions| + 1
  {
    IsHistory(h.states, h.actions)
  }

  function Last(h: History): State
    requires |h.states| > 0
  {
    h.states[|h.states| - 1]
  }

  /** The later history goes on from the earlier one. */
  predicate Extends(h: History, later: History) {
    h.states <= later.states && h.actions <= later.actions
  }

  /** From one state to another in one step. */
  predicate Leads(s: State, a: Action, s': State) {
    Enabled(s, a) && s' == Apply(s, a)
  }

  /** One more step. */
  lemma Then(h: History, a: Action) returns (h': History)
    requires Valid(h) && Enabled(Last(h), a)
    ensures Valid(h') && Extends(h, h') && Last(h') == Apply(Last(h), a)
    ensures h'.actions == h.actions + [a] && |h'.states| == |h.states| + 1
  {
    hide Enabled, Apply;
    h' := History(h.states + [Apply(Last(h), a)], h.actions + [a]);
    forall i | 0 <= i < |h'.actions|
      ensures Enabled(h'.states[i], h'.actions[i]) && h'.states[i + 1] == Apply(h'.states[i], h'.actions[i])
    {
      if i < |h.actions| {
        assert h'.states[i] == h.states[i] && h'.states[i + 1] == h.states[i + 1] && h'.actions[i] == h.actions[i];
      }
    }
  }

  lemma Go(h: History, a: Action, s': State) returns (h': History)
    requires Valid(h) && Leads(Last(h), a, s')
    ensures Valid(h') && Extends(h, h') && Last(h') == s'
  {
    hide Enabled, Apply;
    h' := Then(h, a);
  }

  lemma ExtendsOn(h: History, h': History, h'': History)
    requires Extends(h, h') && Extends(h', h'')
    ensures Extends(h, h'')
  {
  }
}
