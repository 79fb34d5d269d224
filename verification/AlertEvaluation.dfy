/** One evaluation of one rule, on values: what its activations and recoveries change, and when it goes through. */
module AlertEvaluation {
  import opened Common
  import opened Keyset
  import opened AlertModel

  /** One matching issue: its position in the evaluation order and the payload built from it. */
  type Issues = map<Key, Payload>

  function IssueScope(id: string): string {
    "issue:" + id
  }

  predicate OfRule(rule: Rule, key: ConditionKey) {
    key == KeyOf(rule, key.scope)
  }

  function ActiveScopes(conditions: map<ConditionKey, Condition>, rule: Rule): set<string> {
    set key | key in conditions && OfRule(rule, key) && conditions[key].active :: key.scope
  }

  function MatchingScopes(issues: Issues): set<string> {
    set k | k in issues :: IssueScope(k.id)
  }

  /** Issue ids are unique, and an issue's payload names it. */
  ghost predicate IssuesOk(issues: Issues) {
    && (forall k :: k in issues ==> issues[k].issue == Some(k.id))
    && (forall k, l :: k in issues && l in issues && k.id == l.id ==> k == l)
  }

  /** The stored payload of an active scope of an issue rule names the issue of that scope. */
  ghost predicate IssueRuleOk(conditions: map<ConditionKey, Condition>, rule: Rule) {
    forall key :: key in conditions && OfRule(rule, key) && conditions[key].active ==>
      conditions[key].payload.issue.Some? && key.scope == IssueScope(conditions[key].payload.issue.value)
  }

  /** Scopes the recovery query selects: active, and their issue no longer matches. */
  function StaleScopes(conditions: map<ConditionKey, Condition>, rule: Rule, issues: Issues): set<string> {
    set key | key in conditions && OfRule(rule, key) && conditions[key].active
              && (conditions[key].payload.issue.None? || forall k :: k in issues ==>
                  k.id != conditions[key].payload.issue.value)
      :: key.scope
  }

  lemma StaleAreTheActiveNonMatching(conditions: map<ConditionKey, Condition>, rule: Rule, issues: Issues)
    requires IssueRuleOk(conditions, rule)
    ensures StaleScopes(conditions, rule, issues) == ActiveScopes(conditions, rule) - MatchingScopes(issues)
  {
    forall key | key in conditions && OfRule(rule, key) && conditions[key].active
      ensures key.scope in StaleScopes(conditions, rule, issues) <==> key.scope !in MatchingScopes(issues)
    {
      var id := conditions[key].payload.issue.value;
      forall k | k in issues ensures IssueScope(k.id) == key.scope <==> k.id == id {
        assert IssueScope(k.id)[6..] == k.id && IssueScope(id)[6..] == id;
      }
      assert key.scope in MatchingScopes(issues) <==> exists k :: k in issues && IssueScope(k.id) == key.scope;
    }
    assert forall scope :: scope in StaleScopes(conditions, rule, issues) ==> KeyOf(rule, scope) in conditions;
  }

  lemma ActiveScopeIsARow(conditions: map<ConditionKey, Condition>, rule: Rule, scope: string)
    ensures scope in ActiveScopes(conditions, rule) <==>
              KeyOf(rule, scope) in conditions && conditions[KeyOf(rule, scope)].active
  {
    if KeyOf(rule, scope) in conditions && conditions[KeyOf(rule, scope)].active {
      assert OfRule(rule, KeyOf(rule, scope));
    }
  }

  ghost predicate SameCondition(before: map<ConditionKey, Condition>, after: map<ConditionKey, Condition>,
                                key: ConditionKey) {
    (key in before <==> key in after) && (key in before ==> before[key] == after[key])
  }

  /** A transition moves its own scope and no other condition; a failed one moves nothing. */
  lemma TransitionMovesOneScope(s: State, rule: Rule, scope: string, active: bool, payload: Payload, encodedBytes: nat,
                                clock: int)
    ensures var t := ApplyTransition(s, rule, scope, active, payload, encodedBytes, clock);
            (forall key :: key != KeyOf(rule, scope) ==> SameCondition(s.conditions, t.conditions, key))
            && if TransitionFails(s, rule, scope, active, encodedBytes) then t == s
               else if active then ActiveScopes(t.conditions, rule) == ActiveScopes(s.conditions, rule) + {scope}
                                   && KeyOf(rule, scope) in t.conditions
                                   && t.conditions[KeyOf(rule, scope)].payload.issue == payload.issue
               else ActiveScopes(t.conditions, rule) == ActiveScopes(s.conditions, rule) - {scope}
  {
    var t := ApplyTransition(s, rule, scope, active, payload, encodedBytes, clock);
    if !TransitionFails(s, rule, scope, active, encodedBytes) {
      forall other ensures other in ActiveScopes(t.conditions, rule) <==>
          if other == scope then active else other in ActiveScopes(s.conditions, rule)
      {
        ActiveScopeIsARow(s.conditions, rule, other);
        ActiveScopeIsARow(t.conditions, rule, other);
      }
    }
  }

  /** `steps` is a run from `s` to `t` in which only evaluators of `rule` act. */
  ghost predicate Evaluated(rule: Rule, s: State, t: State, steps: seq<Step>) {
    ValidRun(s, steps) && Run(s, steps) == t && forall step :: step in steps ==> step.Transition? && step.rule == rule
  }

  lemma EvaluatedThen(rule: Rule, s: State, t: State, u: State, a: seq<Step>, b: seq<Step>)
    requires Evaluated(rule, s, t, a) && Evaluated(rule, t, u, b)
    ensures Evaluated(rule, s, u, a + b)
  {
    RunConcat(s, a, b);
  }

  lemma EvaluatedOnce(rule: Rule, s: State, step: Step)
    requires step.Transition? && step.rule == rule && Enabled(s, step)
    ensures Evaluated(rule, s, Apply(s, step), [step])
  {
    RunOfOne(s, step);
  }

  /** Evaluating one rule leaves the conditions of every other rule alone. */
  lemma {:induction false} OtherRulesAreUntouched(rule: Rule, s: State, t: State, steps: seq<Step>, key: ConditionKey)
    requires Evaluated(rule, s, t, steps) && !OfRule(rule, key)
    ensures SameCondition(s.conditions, t.conditions, key)
    decreases |steps|
  {
    if steps != [] {
      var first := steps[0];
      TransitionMovesOneScope(s, rule, first.scope, first.active, first.payload, first.encodedBytes, first.clock);
      OtherRulesAreUntouched(rule, Apply(s, first), t, steps[1..], key);
    }
  }

  // ---------- which evaluations go through ----------

  predicate ScopeFits(scope: string) {
    0 < Utf8Length(scope) <= MAX_SCOPE_BYTES
  }

  predicate PayloadFits(payload: Payload, active: bool, encoded: Payload -> nat, clock: int) {
    encoded(Stamp(payload, active, clock)) <= MAX_PAYLOAD_BYTES
  }

  predicate IsActive(conditions: map<ConditionKey, Condition>, rule: Rule, scope: string) {
    KeyOf(rule, scope) in conditions && conditions[KeyOf(rule, scope)].active
  }

  /** The observed scope can be active after this evaluation: it is already, or its payload fits. */
  predicate CanActivate(conditions: map<ConditionKey, Condition>, rule: Rule, scope: string, payload: Payload,
                        encoded: Payload -> nat, clock: int) {
    ScopeFits(scope) && (IsActive(conditions, rule, scope) || PayloadFits(payload, true, encoded, clock))
  }

  /** The active scope can be recovered: the payload it stored still fits when it is stamped again. */
  predicate CanRecover(conditions: map<ConditionKey, Condition>, rule: Rule, scope: string,
                       encoded: Payload -> nat, clock: int) {
    ScopeFits(scope) && KeyOf(rule, scope) in conditions
        && PayloadFits(conditions[KeyOf(rule, scope)].payload, false, encoded, clock)
  }

  lemma ActiveScopesAreActive(conditions: map<ConditionKey, Condition>, rule: Rule)
    ensures forall scope :: scope in ActiveScopes(conditions, rule) <==> IsActive(conditions, rule, scope)
  {
    forall scope ensures scope in ActiveScopes(conditions, rule) <==> IsActive(conditions, rule, scope) {
      ActiveScopeIsARow(conditions, rule, scope);
    }
  }

  /** What a rule observes: the scopes that should be active, each with its payload. */
  type Observations = map<string, Payload>

  ghost predicate AllActivate(conditions: map<ConditionKey, Condition>, rule: Rule, observed: Observations,
                              encoded: Payload -> nat, clock: int) {
    forall scope :: scope in observed ==> CanActivate(conditions, rule, scope, observed[scope], encoded, clock)
  }

  ghost predicate RestRecovers(conditions: map<ConditionKey, Condition>, rule: Rule, kept: set<string>,
                               encoded: Payload -> nat, clock: int) {
    forall scope :: scope in ActiveScopes(conditions, rule) - kept ==>
        CanRecover(conditions, rule, scope, encoded, clock)
  }

  /** The evaluation of these observations goes through: every observed scope can be active, every other recovered. */
  ghost predicate Evaluable(conditions: map<ConditionKey, Condition>, rule: Rule, observed: Observations,
                            encoded: Payload -> nat, clock: int) {
    AllActivate(conditions, rule, observed, encoded, clock)
        && RestRecovers(conditions, rule, observed.Keys, encoded, clock)
  }

  ghost predicate NeverActivates(conditions: map<ConditionKey, Condition>, rule: Rule, scope: string, payload: Payload,
                                 encoded: Payload -> nat) {
    forall clock :: !CanActivate(conditions, rule, scope, payload, encoded, clock)
  }

  /** Some observed scope can never become active: it is not, and its payload is too large at every clock. */
  ghost predicate Blocked(conditions: map<ConditionKey, Condition>, rule: Rule, observed: Observations,
                          encoded: Payload -> nat) {
    exists scope :: scope in observed && NeverActivates(conditions, rule, scope, observed[scope], encoded)
  }

  lemma BlockedIsNotEvaluable(conditions: map<ConditionKey, Condition>, rule: Rule, observed: Observations,
                              encoded: Payload -> nat, clock: int)
    requires Blocked(conditions, rule, observed, encoded)
    ensures !Evaluable(conditions, rule, observed, encoded, clock)
  {
    var scope :| scope in observed && NeverActivates(conditions, rule, scope, observed[scope], encoded);
    assert !CanActivate(conditions, rule, scope, observed[scope], encoded, clock);
    assert !AllActivate(conditions, rule, observed, encoded, clock);
  }

  ghost predicate SameElsewhere(before: map<ConditionKey, Condition>, after: map<ConditionKey, Condition>,
                                rule: Rule, scopes: set<string>) {
    forall key :: !(OfRule(rule, key) && key.scope in scopes) ==> SameCondition(before, after, key)
  }

  lemma SameElsewhereThen(a: map<ConditionKey, Condition>, b: map<ConditionKey, Condition>,
                          c: map<ConditionKey, Condition>, rule: Rule, scopes: set<string>)
    requires SameElsewhere(a, b, rule, scopes) && SameElsewhere(b, c, rule, scopes)
    ensures SameElsewhere(a, c, rule, scopes)
  {
    forall key | !(OfRule(rule, key) && key.scope in scopes) ensures SameCondition(a, c, key) {
      assert SameCondition(a, b, key) && SameCondition(b, c, key);
    }
  }

  /** One generation on from the row before, or the first; the count stops at the ceiling. */
  predicate MovedOn(before: map<ConditionKey, Condition>, after: map<ConditionKey, Condition>, key: ConditionKey) {
    key in after &&
    if key in before then
      before[key].generation < I64_MAX ==> after[key].generation == before[key].generation + 1
    else after[key].generation == 1
  }

  predicate Carries(row: Condition, payload: Payload) {
    row.payload.issue == payload.issue && row.payload.body == payload.body
  }

  /** The scope is active with what was observed of it: a new generation if it was not active, the old one if it was. */
  predicate Reported(before: map<ConditionKey, Condition>, after: map<ConditionKey, Condition>, rule: Rule,
                     scope: string, payload: Payload) {
    && IsActive(after, rule, scope) && Carries(after[KeyOf(rule, scope)], payload)
    && if IsActive(before, rule, scope)
       then after[KeyOf(rule, scope)].generation == before[KeyOf(rule, scope)].generation
       else MovedOn(before, after, KeyOf(rule, scope))
  }

  /** The scope was active and is not any more, one generation on and with the payload it had. */
  predicate Recovered(before: map<ConditionKey, Condition>, after: map<ConditionKey, Condition>, rule: Rule,
                      scope: string) {
    && IsActive(before, rule, scope) && !IsActive(after, rule, scope)
    && MovedOn(before, after, KeyOf(rule, scope))
    && Carries(after[KeyOf(rule, scope)], before[KeyOf(rule, scope)].payload)
  }

  /** A scope that becomes active is observed and fits; an active one stays active. Reports move at most one
      generation on, however often a scope is reported. */
  ghost predicate GrowsBy(before: map<ConditionKey, Condition>, after: map<ConditionKey, Condition>, rule: Rule,
                          observed: Observations, encoded: Payload -> nat, clock: int, scope: string) {
    && (IsActive(before, rule, scope) ==> IsActive(after, rule, scope))
    && (IsActive(after, rule, scope) ==>
          IsActive(before, rule, scope)
          || (scope in observed && ScopeFits(scope) && PayloadFits(observed[scope], true, encoded, clock)))
    && (scope in observed ==>
          SameCondition(before, after, KeyOf(rule, scope)) || Reported(before, after, rule, scope, observed[scope]))
  }

  /** Activating observed scopes, in any number. */
  ghost predicate Activates(before: map<ConditionKey, Condition>, after: map<ConditionKey, Condition>, rule: Rule,
                            observed: Observations, encoded: Payload -> nat, clock: int) {
    && SameElsewhere(before, after, rule, observed.Keys)
    && forall scope :: GrowsBy(before, after, rule, observed, encoded, clock, scope)
  }

  lemma ActivatesNothing(conditions: map<ConditionKey, Condition>, rule: Rule, observed: Observations,
                         encoded: Payload -> nat, clock: int)
    ensures Activates(conditions, conditions, rule, observed, encoded, clock)
  {
  }

  lemma ActivatesThen(a: map<ConditionKey, Condition>, b: map<ConditionKey, Condition>, c: map<ConditionKey, Condition>,
                      rule: Rule, observed: Observations, encoded: Payload -> nat, clock: int)
    requires Activates(a, b, rule, observed, encoded, clock) && Activates(b, c, rule, observed, encoded, clock)
    ensures Activates(a, c, rule, observed, encoded, clock)
  {
    SameElsewhereThen(a, b, c, rule, observed.Keys);
    forall scope ensures GrowsBy(a, c, rule, observed, encoded, clock, scope) {
      assert GrowsBy(a, b, rule, observed, encoded, clock, scope);
      assert GrowsBy(b, c, rule, observed, encoded, clock, scope);
    }
  }

  /** Earlier activations of the same evaluation do not decide whether a later one goes through. */
  lemma CanActivateIsStable(a: map<ConditionKey, Condition>, b: map<ConditionKey, Condition>, rule: Rule,
                            observed: Observations, encoded: Payload -> nat, clock: int, scope: string)
    requires Activates(a, b, rule, observed, encoded, clock) && scope in observed
    ensures CanActivate(b, rule, scope, observed[scope], encoded, clock) <==>
              CanActivate(a, rule, scope, observed[scope], encoded, clock)
  {
    assert GrowsBy(a, b, rule, observed, encoded, clock, scope);
  }

  /** The payloads name the issues of their scopes. */
  ghost predicate ObservesIssues(observed: Observations) {
    forall scope :: scope in observed ==>
        observed[scope].issue.Some? && scope == IssueScope(observed[scope].issue.value)
  }

  /** One activation step. */
  lemma ActivationStep(s: State, rule: Rule, scope: string, observed: Observations, encoded: Payload -> nat, clock: int)
    requires scope in observed
    ensures var bytes := encoded(Stamp(observed[scope], true, clock));
            var t := ApplyTransition(s, rule, scope, true, observed[scope], bytes, clock);
            && Activates(s.conditions, t.conditions, rule, observed, encoded, clock)
            && (TransitionFails(s, rule, scope, true, bytes) <==>
                !CanActivate(s.conditions, rule, scope, observed[scope], encoded, clock))
            && (!TransitionFails(s, rule, scope, true, bytes) ==>
                  Reported(s.conditions, t.conditions, rule, scope, observed[scope]))
            && (IssueRuleOk(s.conditions, rule) && ObservesIssues(observed) ==> IssueRuleOk(t.conditions, rule))
  {
    var bytes := encoded(Stamp(observed[scope], true, clock));
    var t := ApplyTransition(s, rule, scope, true, observed[scope], bytes, clock);
    TransitionMovesOneScope(s, rule, scope, true, observed[scope], bytes, clock);
    assert OfRule(rule, KeyOf(rule, scope));
    forall other ensures GrowsBy(s.conditions, t.conditions, rule, observed, encoded, clock, other) {
      if other != scope {
        assert SameCondition(s.conditions, t.conditions, KeyOf(rule, other));
      }
    }
    forall key | !(OfRule(rule, key) && key.scope in observed.Keys)
      ensures SameCondition(s.conditions, t.conditions, key)
    {
      assert key != KeyOf(rule, scope);
    }
  }

  // ---------- the steps of an evaluation side by side ----------

  /** One transition a scope, in order. */
  predicate StepsAre(steps: seq<Step>, scopes: seq<string>, active: bool) {
    |steps| == |scopes|
    && forall i :: 0 <= i < |steps| ==> steps[i].Transition? && steps[i].scope == scopes[i] && steps[i].active == active
  }

  /** Nothing becomes active in an evaluation but an observed scope that fits. */
  ghost predicate MayBecomeActive(before: map<ConditionKey, Condition>, after: map<ConditionKey, Condition>, rule: Rule,
                                  observed: Observations, encoded: Payload -> nat, clock: int, scope: string) {
    IsActive(after, rule, scope) ==>
      IsActive(before, rule, scope)
      || (scope in observed && ScopeFits(scope) && PayloadFits(observed[scope], true, encoded, clock))
  }

  /** A scope that can never become active is still such a scope after the evaluation, whatever its rule observes
      of it later on, as long as the payload stays too large. */
  lemma BlockedStaysBlocked(before: map<ConditionKey, Condition>, after: map<ConditionKey, Condition>, rule: Rule,
                            observed: Observations, encoded: Payload -> nat, clock: int, scope: string, later: Payload)
    requires scope in observed && NeverActivates(before, rule, scope, observed[scope], encoded)
    requires NeverActivates(before, rule, scope, later, encoded)
    requires MayBecomeActive(before, after, rule, observed, encoded, clock, scope)
    ensures NeverActivates(after, rule, scope, later, encoded)
  {
    assert !CanActivate(before, rule, scope, observed[scope], encoded, clock);
    forall at ensures !CanActivate(after, rule, scope, later, encoded, at) {
      assert !CanActivate(before, rule, scope, later, encoded, at);
    }
  }

  lemma ActivationOnlyAdds(before: map<ConditionKey, Condition>, after: map<ConditionKey, Condition>, rule: Rule,
                           observed: Observations, encoded: Payload -> nat, clock: int)
    requires Activates(before, after, rule, observed, encoded, clock)
    ensures forall scope :: MayBecomeActive(before, after, rule, observed, encoded, clock, scope)
    ensures ActiveScopes(before, rule) <= ActiveScopes(after, rule)
  {
    ActiveScopesAreActive(before, rule);
    ActiveScopesAreActive(after, rule);
    forall scope
      ensures MayBecomeActive(before, after, rule, observed, encoded, clock, scope)
      ensures IsActive(before, rule, scope) ==> IsActive(after, rule, scope)
    {
      assert GrowsBy(before, after, rule, observed, encoded, clock, scope);
    }
  }

  lemma RecoveryOnlyRemoves(first: map<ConditionKey, Condition>, activated: map<ConditionKey, Condition>,
                            after: map<ConditionKey, Condition>, rule: Rule, observed: Observations,
                            encoded: Payload -> nat, clock: int)
    requires Activates(first, activated, rule, observed, encoded, clock)
    requires ActiveScopes(after, rule) <= ActiveScopes(activated, rule)
    ensures forall scope :: MayBecomeActive(first, after, rule, observed, encoded, clock, scope)
  {
    ActivationOnlyAdds(first, activated, rule, observed, encoded, clock);
    ActiveScopesAreActive(activated, rule);
    ActiveScopesAreActive(after, rule);
    forall scope ensures MayBecomeActive(first, after, rule, observed, encoded, clock, scope) {
      assert MayBecomeActive(first, activated, rule, observed, encoded, clock, scope);
    }
  }

  /** The scopes in `gone` are recovered, each from the row it had at first, and nothing else moved. */
  ghost predicate Recovers(first: map<ConditionKey, Condition>, now: map<ConditionKey, Condition>, rule: Rule,
                           gone: set<string>, encoded: Payload -> nat, clock: int) {
    && SameElsewhere(first, now, rule, gone)
    && (forall scope :: scope in gone ==> CanRecover(first, rule, scope, encoded, clock))
    && (forall scope :: scope in gone ==> Recovered(first, now, rule, scope))
    && ActiveScopes(now, rule) == ActiveScopes(first, rule) - gone
    && (IssueRuleOk(first, rule) ==> IssueRuleOk(now, rule))
  }

  lemma RecoversNothing(conditions: map<ConditionKey, Condition>, rule: Rule, encoded: Payload -> nat, clock: int)
    ensures Recovers(conditions, conditions, rule, {}, encoded, clock)
  {
  }

  lemma RecoveryIsDecidedAtFirst(first: map<ConditionKey, Condition>, now: map<ConditionKey, Condition>, rule: Rule,
                                 gone: set<string>, encoded: Payload -> nat, clock: int, scope: string)
    requires Recovers(first, now, rule, gone, encoded, clock) && scope !in gone
    ensures CanRecover(now, rule, scope, encoded, clock) <==> CanRecover(first, rule, scope, encoded, clock)
    ensures IsActive(now, rule, scope) <==> IsActive(first, rule, scope)
  {
    assert SameCondition(first, now, KeyOf(rule, scope));
  }

  lemma RecoversThen(a: map<ConditionKey, Condition>, b: map<ConditionKey, Condition>, c: map<ConditionKey, Condition>,
                     rule: Rule, gone: set<string>, more: set<string>, encoded: Payload -> nat, clock: int)
    requires Recovers(a, b, rule, gone, encoded, clock) && Recovers(b, c, rule, more, encoded, clock) && gone !! more
    ensures Recovers(a, c, rule, gone + more, encoded, clock)
  {
    forall key | !(OfRule(rule, key) && key.scope in gone + more) ensures SameCondition(a, c, key) {
      assert SameCondition(a, b, key) && SameCondition(b, c, key);
    }
    forall scope | scope in more ensures CanRecover(a, rule, scope, encoded, clock) && Recovered(a, c, rule, scope) {
      RecoveryIsDecidedAtFirst(a, b, rule, gone, encoded, clock, scope);
      assert SameCondition(a, b, KeyOf(rule, scope)) && Recovered(b, c, rule, scope);
    }
    forall scope | scope in gone ensures Recovered(a, c, rule, scope) {
      assert SameCondition(b, c, KeyOf(rule, scope));
    }
  }

  /** One recovery step of a scope that is active. */
  lemma RecoveryStep(s: State, rule: Rule, scope: string, encoded: Payload -> nat, clock: int)
    requires IsActive(s.conditions, rule, scope)
    ensures var payload := s.conditions[KeyOf(rule, scope)].payload;
            var bytes := encoded(Stamp(payload, false, clock));
            var t := ApplyTransition(s, rule, scope, false, payload, bytes, clock);
            && (TransitionFails(s, rule, scope, false, bytes) <==>
                !CanRecover(s.conditions, rule, scope, encoded, clock))
            && (if TransitionFails(s, rule, scope, false, bytes) then t == s
                else Recovers(s.conditions, t.conditions, rule, {scope}, encoded, clock))
  {
    var payload := s.conditions[KeyOf(rule, scope)].payload;
    var bytes := encoded(Stamp(payload, false, clock));
    TransitionMovesOneScope(s, rule, scope, false, payload, bytes, clock);
    var t := ApplyTransition(s, rule, scope, false, payload, bytes, clock);
    forall key | !(OfRule(rule, key) && key.scope in {scope}) ensures SameCondition(s.conditions, t.conditions, key) {
      assert key != KeyOf(rule, scope);
    }
  }

  lemma AllRecovered(first: map<ConditionKey, Condition>, now: map<ConditionKey, Condition>, rule: Rule,
                     scopes: seq<string>, encoded: Payload -> nat, clock: int)
    requires Recovers(first, now, rule, Elements(scopes), encoded, clock)
    ensures forall scope :: scope in scopes ==> CanRecover(first, rule, scope, encoded, clock)
  {
    forall scope | scope in scopes ensures CanRecover(first, rule, scope, encoded, clock) {
      assert scope in Elements(scopes);
    }
  }

  lemma PrefixOneMore(scopes: seq<string>, i: nat)
    requires Distinct(scopes) && i < |scopes|
    ensures Elements(scopes[..i + 1]) == Elements(scopes[..i]) + {scopes[i]}
    ensures scopes[i] !in Elements(scopes[..i]) && scopes[i] in scopes
  {
    assert scopes[..i + 1] == scopes[..i] + [scopes[i]];
  }

  lemma StepsAreOneMore(steps: seq<Step>, scopes: seq<string>, i: nat, step: Step, active: bool)
    requires i < |scopes| && StepsAre(steps, scopes[..i], active) && StepsAre([step], [scopes[i]], active)
    ensures StepsAre(steps + [step], scopes[..i + 1], active)
  {
    assert [step][0] == step;
  }

  lemma PartialRecovery(first: map<ConditionKey, Condition>, before: map<ConditionKey, Condition>,
                        after: map<ConditionKey, Condition>, rule: Rule, gone: set<string>, page: seq<string>,
                        encoded: Payload -> nat, clock: int)
    requires Recovers(first, before, rule, gone, encoded, clock)
              && Recovers(before, after, rule, Elements(page), encoded, clock)
    ensures ActiveScopes(after, rule) <= ActiveScopes(first, rule)
    ensures IssueRuleOk(first, rule) ==> IssueRuleOk(after, rule)
  {
  }

  lemma AbsentScopesDecide(conditions: map<ConditionKey, Condition>, rule: Rule, kept: set<string>, scopes: seq<string>,
                           encoded: Payload -> nat, clock: int)
    requires Elements(scopes) == ActiveScopes(conditions, rule) - kept
    ensures RestRecovers(conditions, rule, kept, encoded, clock) <==>
              forall scope :: scope in scopes ==> CanRecover(conditions, rule, scope, encoded, clock)
  {
    forall scope ensures scope in scopes <==> scope in ActiveScopes(conditions, rule) - kept {
      assert scope in scopes <==> scope in Elements(scopes);
    }
  }

  lemma RecoveryKeepsTheRest(first: map<ConditionKey, Condition>, now: map<ConditionKey, Condition>, rule: Rule,
                             kept: set<string>, gone: set<string>, encoded: Payload -> nat, clock: int)
    requires Recovers(first, now, rule, gone, encoded, clock) && gone == ActiveScopes(first, rule) - kept
    ensures ActiveScopes(now, rule) == ActiveScopes(first, rule) * kept
  {
  }

  lemma StaleIsEmpty(first: set<string>, gone: set<string>, matching: set<string>)
    requires gone <= first - matching && (first - gone) - matching == {}
    ensures gone == first - matching && first - gone == first * matching
  {
    forall scope | scope in first && scope !in matching ensures scope in gone {
      assert scope !in (first - gone) - matching;
    }
  }

  lemma ScopesAreInjective(issues: Issues)
    requires IssuesOk(issues)
    ensures forall k, l :: k in issues && l in issues && IssueScope(k.id) == IssueScope(l.id) ==> k == l
  {
    forall k, l | k in issues && l in issues && IssueScope(k.id) == IssueScope(l.id) ensures k == l {
      assert k.id == IssueScope(k.id)[6..] == IssueScope(l.id)[6..] == l.id;
    }
  }

  /** The matching issues as observations. */
  function Observed(issues: Issues): Observations
    requires IssuesOk(issues)
  {
    ScopesAreInjective(issues);
    map k | k in issues :: IssueScope(k.id) := issues[k]
  }

  lemma ObservedIssues(issues: Issues)
    requires IssuesOk(issues)
    ensures Observed(issues).Keys == MatchingScopes(issues) && ObservesIssues(Observed(issues))
    ensures forall k :: k in issues ==>
              IssueScope(k.id) in Observed(issues) && Observed(issues)[IssueScope(k.id)] == issues[k]
  {
    ScopesAreInjective(issues);
    forall k | k in issues
      ensures IssueScope(k.id) in Observed(issues) && Observed(issues)[IssueScope(k.id)] == issues[k]
    {
    }
  }

  lemma ScopesOfPage(issues: Issues, page: seq<Key>, scopes: seq<string>)
    requires IssuesOk(issues) && (forall k :: k in page ==> k in issues) && |scopes| == |page|
    requires forall i :: 0 <= i < |page| ==> scopes[i] == IssueScope(page[i].id)
    ensures forall scope :: scope in scopes ==> scope in Observed(issues)
    ensures ObservesIssues(Observed(issues))
  {
    ObservedIssues(issues);
    forall scope | scope in scopes ensures scope in Observed(issues) {
      var i :| 0 <= i < |page| && scopes[i] == scope;
      assert page[i] in page;
    }
  }

  /** A scope whose turn has come: it could be activated, and it is active. */
  ghost predicate Settled(first: map<ConditionKey, Condition>, now: map<ConditionKey, Condition>, rule: Rule,
                          observed: Observations, encoded: Payload -> nat, clock: int, scope: string) {
    scope in observed && CanActivate(first, rule, scope, observed[scope], encoded, clock)
    && Reported(first, now, rule, scope, observed[scope])
  }

  lemma PageIsSettled(first: map<ConditionKey, Condition>, before: map<ConditionKey, Condition>,
                      now: map<ConditionKey, Condition>, rule: Rule, observed: Observations,
                      encoded: Payload -> nat, clock: int, page: seq<Key>, scopes: seq<string>)
    requires Activates(first, before, rule, observed, encoded, clock) && |scopes| == |page|
    requires forall i :: 0 <= i < |page| ==> scopes[i] == IssueScope(page[i].id)
    requires forall scope :: scope in scopes ==> scope in observed
    requires forall scope :: scope in scopes ==>
      CanActivate(before, rule, scope, observed[scope], encoded, clock)
          && Reported(before, now, rule, scope, observed[scope])
    ensures forall k :: k in page ==> Settled(first, now, rule, observed, encoded, clock, IssueScope(k.id))
  {
    forall k | k in page ensures Settled(first, now, rule, observed, encoded, clock, IssueScope(k.id)) {
      var i :| 0 <= i < |page| && page[i] == k;
      assert scopes[i] in scopes;
      CanActivateIsStable(first, before, rule, observed, encoded, clock, scopes[i]);
      assert GrowsBy(first, before, rule, observed, encoded, clock, scopes[i]);
    }
  }

  lemma SettledStays(first: map<ConditionKey, Condition>, before: map<ConditionKey, Condition>,
                     now: map<ConditionKey, Condition>, rule: Rule, observed: Observations,
                     encoded: Payload -> nat, clock: int)
    requires Activates(before, now, rule, observed, encoded, clock)
    ensures forall scope :: Settled(first, before, rule, observed, encoded, clock, scope) ==>
              Settled(first, now, rule, observed, encoded, clock, scope)
  {
    forall scope | Settled(first, before, rule, observed, encoded, clock, scope)
      ensures Settled(first, now, rule, observed, encoded, clock, scope)
    {
      assert GrowsBy(before, now, rule, observed, encoded, clock, scope);
    }
  }

  /** What is not observed keeps its row while observations are activated, so its recovery is decided beforehand. */
  lemma RestIsTheSame(first: map<ConditionKey, Condition>, activated: map<ConditionKey, Condition>, rule: Rule,
                      observed: Observations, encoded: Payload -> nat, clock: int)
    requires Activates(first, activated, rule, observed, encoded, clock)
    ensures RestRecovers(first, rule, observed.Keys, encoded, clock) <==>
              RestRecovers(activated, rule, observed.Keys, encoded, clock)
  {
    ActiveScopesAreActive(first, rule);
    ActiveScopesAreActive(activated, rule);
    forall scope | scope !in observed
      ensures IsActive(first, rule, scope) <==> IsActive(activated, rule, scope)
      ensures CanRecover(first, rule, scope, encoded, clock) <==> CanRecover(activated, rule, scope, encoded, clock)
    {
      assert SameCondition(first, activated, KeyOf(rule, scope));
    }
  }

  lemma AllSettled(first: map<ConditionKey, Condition>, activated: map<ConditionKey, Condition>, rule: Rule,
                   issues: Issues, encoded: Payload -> nat, clock: int)
    requires IssuesOk(issues)
    requires forall k :: k in issues ==>
              Settled(first, activated, rule, Observed(issues), encoded, clock, IssueScope(k.id))
    ensures AllActivate(first, rule, Observed(issues), encoded, clock)
    ensures forall scope :: scope in Observed(issues) ==>
              Settled(first, activated, rule, Observed(issues), encoded, clock, scope)
    ensures MatchingScopes(issues) == Observed(issues).Keys <= ActiveScopes(activated, rule)
  {
    ObservedIssues(issues);
    ActiveScopesAreActive(activated, rule);
    forall scope | scope in MatchingScopes(issues)
      ensures Settled(first, activated, rule, Observed(issues), encoded, clock, scope)
    {
      var k :| k in issues && IssueScope(k.id) == scope;
      assert Settled(first, activated, rule, Observed(issues), encoded, clock, IssueScope(k.id));
    }
  }

  /** What a successful evaluation leaves of every scope of its rule: observed scopes are reported, active ones that
      are not observed have recovered, and the others are as they were. */
  ghost predicate ScopeIsUpToDate(before: map<ConditionKey, Condition>, after: map<ConditionKey, Condition>, rule: Rule,
                                  observed: Observations, scope: string) {
    if scope in observed then Reported(before, after, rule, scope, observed[scope])
    else if IsActive(before, rule, scope) then Recovered(before, after, rule, scope)
    else SameCondition(before, after, KeyOf(rule, scope))
  }

  lemma EvaluationIsUpToDate(first: map<ConditionKey, Condition>, activated: map<ConditionKey, Condition>,
                             after: map<ConditionKey, Condition>, rule: Rule, observed: Observations,
                             encoded: Payload -> nat, clock: int, gone: set<string>)
    requires Activates(first, activated, rule, observed, encoded, clock)
    requires forall scope :: scope in observed ==> Settled(first, activated, rule, observed, encoded, clock, scope)
    requires Recovers(activated, after, rule, gone, encoded, clock)
    requires gone == ActiveScopes(activated, rule) - observed.Keys
    ensures forall scope :: ScopeIsUpToDate(first, after, rule, observed, scope)
  {
    ActiveScopesAreActive(activated, rule);
    forall scope ensures ScopeIsUpToDate(first, after, rule, observed, scope) {
      if scope in observed {
        assert Settled(first, activated, rule, observed, encoded, clock, scope);
        assert SameCondition(activated, after, KeyOf(rule, scope));
      } else {
        assert SameCondition(first, activated, KeyOf(rule, scope));
        if scope !in gone {
          assert SameCondition(activated, after, KeyOf(rule, scope));
        }
      }
    }
  }
}
