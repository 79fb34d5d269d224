/** A scheduler tick over the alert tables: which rules fail is decided by their observations and stored conditions. */
module AlertTick {
  import opened Common
  import opened AlertModel
  import opened AlertEvaluation
  import opened AlertEngine
  import S = RuleScheduler

  /** What a rule sees in this tick: the matching issues, or its observations (Err when that query fails). */
  datatype Input = FromIssues(issues: Issues) | FromObservations(observed: Result<Observations, ()>)

  type Conditions = map<ConditionKey, Condition>

  ghost predicate InputOk(conditions: Conditions, rule: Rule, input: Input) {
    ValidQuietHours(rule) && (input.FromIssues? ==> IssuesOk(input.issues) && IssueRuleOk(conditions, rule))
  }

  /** The observations behind an input, if its query went through. */
  function ObservationsOf(input: Input): Result<Observations, ()>
    requires input.FromIssues? ==> IssuesOk(input.issues)
  {
    match input
    case FromIssues(issues) => Ok(Observed(issues))
    case FromObservations(observed) => observed
  }

  ghost predicate Goes(conditions: Conditions, rule: Rule, input: Input, encoded: Payload -> nat, clock: int)
    requires input.FromIssues? ==> IssuesOk(input.issues)
  {
    var observed := ObservationsOf(input);
    observed.Ok? && Evaluable(conditions, rule, observed.value, encoded, clock)
  }

  /** The rule observes this scope with a payload that is too large at every clock, and the scope is not active. */
  ghost predicate IsBlockedAt(conditions: Conditions, rule: Rule, input: Input, encoded: Payload -> nat, scope: string)
    requires input.FromIssues? ==> IssuesOk(input.issues)
  {
    var observed := ObservationsOf(input);
    observed.Ok? && scope in observed.value
    && NeverActivates(conditions, rule, scope, observed.value[scope], encoded)
  }

  /** The rule is blocked by some scope. */
  ghost predicate IsBlocked(conditions: Conditions, rule: Rule, input: Input, encoded: Payload -> nat)
    requires input.FromIssues? ==> IssuesOk(input.issues)
  {
    exists scope :: IsBlockedAt(conditions, rule, input, encoded, scope)
  }

  lemma BlockedFails(conditions: Conditions, rule: Rule, input: Input, encoded: Payload -> nat, clock: int)
    requires (input.FromIssues? ==> IssuesOk(input.issues)) && IsBlocked(conditions, rule, input, encoded)
    ensures !Goes(conditions, rule, input, encoded, clock)
  {
    var scope :| IsBlockedAt(conditions, rule, input, encoded, scope);
    BlockedIsNotEvaluable(conditions, rule, ObservationsOf(input).value, encoded, clock);
  }

  // ---------- an evaluation depends on the rows of its own rule ----------

  ghost predicate SameRows(a: Conditions, b: Conditions, rule: Rule) {
    forall key :: OfRule(rule, key) ==> SameCondition(a, b, key)
  }

  lemma SameRowsCanActivate(a: Conditions, b: Conditions, rule: Rule, scope: string, payload: Payload,
                            encoded: Payload -> nat, clock: int)
    requires SameRows(a, b, rule)
    ensures CanActivate(a, rule, scope, payload, encoded, clock) <==>
              CanActivate(b, rule, scope, payload, encoded, clock)
  {
    assert OfRule(rule, KeyOf(rule, scope));
    assert SameCondition(a, b, KeyOf(rule, scope));
  }

  lemma SameActivation(a: Conditions, b: Conditions, rule: Rule, observed: Observations, encoded: Payload -> nat,
                       clock: int)
    requires SameRows(a, b, rule)
    ensures AllActivate(a, rule, observed, encoded, clock) <==> AllActivate(b, rule, observed, encoded, clock)
  {
    forall scope | scope in observed
      ensures CanActivate(a, rule, scope, observed[scope], encoded, clock)
         <==> CanActivate(b, rule, scope, observed[scope], encoded, clock)
    {
      SameRowsCanActivate(a, b, rule, scope, observed[scope], encoded, clock);
    }
  }

  lemma SameRowsDecideTheSame(a: Conditions, b: Conditions, rule: Rule, input: Input, encoded: Payload -> nat,
                              clock: int)
    requires SameRows(a, b, rule) && InputOk(a, rule, input)
    ensures InputOk(b, rule, input)
    ensures Goes(a, rule, input, encoded, clock) <==> Goes(b, rule, input, encoded, clock)
  {
    ActiveScopesAreActive(a, rule);
    ActiveScopesAreActive(b, rule);
    forall scope
      ensures IsActive(a, rule, scope) <==> IsActive(b, rule, scope)
      ensures CanRecover(a, rule, scope, encoded, clock) <==> CanRecover(b, rule, scope, encoded, clock)
    {
      assert OfRule(rule, KeyOf(rule, scope));
      assert SameCondition(a, b, KeyOf(rule, scope));
    }
    assert ActiveScopes(a, rule) == ActiveScopes(b, rule);
    if ObservationsOf(input).Ok? {
      SameActivation(a, b, rule, ObservationsOf(input).value, encoded, clock);
    }
  }

  lemma SameRowsStayBlocked(a: Conditions, b: Conditions, rule: Rule, input: Input, encoded: Payload -> nat,
                            scope: string)
    requires SameRows(a, b, rule) && (input.FromIssues? ==> IssuesOk(input.issues))
    requires IsBlockedAt(a, rule, input, encoded, scope)
    ensures IsBlockedAt(b, rule, input, encoded, scope)
  {
    var payload := ObservationsOf(input).value[scope];
    forall clock ensures !CanActivate(b, rule, scope, payload, encoded, clock) {
      assert !CanActivate(a, rule, scope, payload, encoded, clock);
      SameRowsCanActivate(a, b, rule, scope, payload, encoded, clock);
    }
  }

  // ---------- one rule ----------

  /** Issue rules page through their issues without a page limit; the other rules observe everything at once. */
  method Dispatch(store: AlertStore, rule: Rule, input: Input, encoded: Payload -> nat, clock: int)
    returns (ok: bool, ghost steps: seq<Step>)
    requires InputOk(store.conditions, rule, input)
    modifies store`conditions, store`deliveries
    ensures Evaluated(rule, old(store.View()), store.View(), steps)
    ensures InputOk(store.conditions, rule, input)
    ensures ok <==> Goes(old(store.conditions), rule, input, encoded, clock)
    ensures ok ==> ActiveScopes(store.conditions, rule) == ObservationsOf(input).value.Keys
    ensures ok ==> forall scope ::
              ScopeIsUpToDate(old(store.conditions), store.conditions, rule, ObservationsOf(input).value, scope)
    ensures ObservationsOf(input).Ok? ==> forall scope ::
              MayBecomeActive(old(store.conditions), store.conditions, rule, ObservationsOf(input).value, encoded,
                              clock, scope)
  {
    if input.FromIssues? {
      ObservedIssues(input.issues);
      var outcome;
      outcome, steps := store.EvaluateIssueRulePages(rule, input.issues, encoded, clock, None);
      ok := outcome.Ok?;
      assert outcome != Ok(false);
      assert ok ==> outcome.value;
    } else {
      ok, steps := store.EvaluateObservations(rule, input.observed, encoded, clock);
    }
  }

  /** One evaluation: it goes through exactly when it can, a blocked rule fails and stays blocked,
      and the rows of other rules are left alone. */
  method EvaluateRule(store: AlertStore, rule: Rule, input: Input, encoded: Payload -> nat, clock: int)
    returns (ok: bool)
    requires InputOk(store.conditions, rule, input)
    modifies store`conditions, store`deliveries
    ensures InputOk(store.conditions, rule, input)
    ensures ok <==> Goes(old(store.conditions), rule, input, encoded, clock)
    ensures ok ==> ActiveScopes(store.conditions, rule) == ObservationsOf(input).value.Keys
    ensures ok ==> forall scope ::
              ScopeIsUpToDate(old(store.conditions), store.conditions, rule, ObservationsOf(input).value, scope)
    ensures IsBlocked(old(store.conditions), rule, input, encoded) ==> !ok
    ensures forall scope :: IsBlockedAt(old(store.conditions), rule, input, encoded, scope) ==>
              IsBlockedAt(store.conditions, rule, input, encoded, scope)
    ensures forall key :: !OfRule(rule, key) ==> SameCondition(old(store.conditions), store.conditions, key)
  {
    ghost var before := store.View();
    ghost var steps;
    ok, steps := Dispatch(store, rule, input, encoded, clock);
    if IsBlocked(before.conditions, rule, input, encoded) {
      BlockedFails(before.conditions, rule, input, encoded, clock);
    }
    forall scope | IsBlockedAt(before.conditions, rule, input, encoded, scope)
      ensures IsBlockedAt(store.conditions, rule, input, encoded, scope)
    {
      var observed := ObservationsOf(input).value;
      assert MayBecomeActive(before.conditions, store.conditions, rule, observed, encoded, clock, scope);
      BlockedStaysBlocked(before.conditions, store.conditions, rule, observed, encoded, clock, scope, observed[scope]);
    }
    forall key | !OfRule(rule, key) ensures SameCondition(before.conditions, store.conditions, key) {
      OtherRulesAreUntouched(rule, before, store.View(), steps, key);
    }
  }

  // ---------- one tick ----------

  /** Enabled rules by id, each with its input. */
  datatype Watched = Watched(rule: Rule, input: Input)

  ghost predicate WatchedOk(conditions: Conditions, rules: map<string, Watched>) {
    forall r :: r in rules ==> rules[r].rule.id == r && InputOk(conditions, rules[r].rule, rules[r].input)
  }

  /** The rules whose evaluation fails if it happens now. */
  ghost function Failing(conditions: Conditions, rules: map<string, Watched>, encoded: Payload -> nat,
                         clock: int): set<string>
    requires WatchedOk(conditions, rules)
  {
    set r | r in rules && !Goes(conditions, rules[r].rule, rules[r].input, encoded, clock)
  }

  /** What blocked rules before blocks them now. */
  ghost predicate StayBlocked(before: Conditions, now: Conditions, rules: map<string, Watched>,
                              encoded: Payload -> nat)
    requires WatchedOk(before, rules) && WatchedOk(now, rules)
  {
    forall r, scope :: r in rules && IsBlockedAt(before, rules[r].rule, rules[r].input, encoded, scope) ==>
      IsBlockedAt(now, rules[r].rule, rules[r].input, encoded, scope)
  }

  /** The rules whose evaluation fails at every clock. */
  ghost function BlockedRules(conditions: Conditions, rules: map<string, Watched>, encoded: Payload -> nat): set<string>
    requires WatchedOk(conditions, rules)
  {
    set r | r in rules && IsBlocked(conditions, rules[r].rule, rules[r].input, encoded)
  }

  lemma BlockedRulesFail(conditions: Conditions, rules: map<string, Watched>, encoded: Payload -> nat, clock: int)
    requires WatchedOk(conditions, rules)
    ensures BlockedRules(conditions, rules, encoded) <= Failing(conditions, rules, encoded, clock)
  {
    forall r | r in BlockedRules(conditions, rules, encoded) ensures r in Failing(conditions, rules, encoded, clock) {
      BlockedFails(conditions, rules[r].rule, rules[r].input, encoded, clock);
    }
  }

  lemma OthersKeepTheirRows(before: Conditions, after: Conditions, rules: map<string, Watched>, changed: string,
                            r: string)
    requires changed in rules && r in rules && r != changed && rules[r].rule.id == r
              && rules[changed].rule.id == changed
    requires forall key :: !OfRule(rules[changed].rule, key) ==> SameCondition(before, after, key)
    ensures SameRows(before, after, rules[r].rule)
  {
    forall key | OfRule(rules[r].rule, key) ensures SameCondition(before, after, key) {
      assert !OfRule(rules[changed].rule, key);
    }
  }

  /** The tables of every rule that is not yet evaluated are as they were, and blocked rules stay blocked. */
  ghost predicate Untouched(before: Conditions, now: Conditions, rules: map<string, Watched>, done: seq<string>,
                            encoded: Payload -> nat)
    requires WatchedOk(before, rules) && WatchedOk(now, rules)
  {
    && (forall r :: r in rules && r !in done ==> SameRows(before, now, rules[r].rule))
    && StayBlocked(before, now, rules, encoded)
  }

  lemma UntouchedByOneMore(before: Conditions, middle: Conditions, now: Conditions, rules: map<string, Watched>,
                           done: seq<string>, r: string, encoded: Payload -> nat)
    requires WatchedOk(before, rules) && WatchedOk(middle, rules) && r in rules
    requires Untouched(before, middle, rules, done, encoded) && InputOk(now, rules[r].rule, rules[r].input)
    requires forall key :: !OfRule(rules[r].rule, key) ==> SameCondition(middle, now, key)
    requires forall scope :: IsBlockedAt(middle, rules[r].rule, rules[r].input, encoded, scope) ==>
               IsBlockedAt(now, rules[r].rule, rules[r].input, encoded, scope)
    ensures WatchedOk(now, rules) && Untouched(before, now, rules, done + [r], encoded)
  {
    forall o | o in rules && o != r
      ensures SameRows(middle, now, rules[o].rule) && InputOk(now, rules[o].rule, rules[o].input)
    {
      OthersKeepTheirRows(middle, now, rules, r, o);
      SameRowsDecideTheSame(middle, now, rules[o].rule, rules[o].input, encoded, 0);
    }
    forall o | o in rules && o !in done + [r] ensures SameRows(before, now, rules[o].rule) {
      assert SameRows(before, middle, rules[o].rule) && SameRows(middle, now, rules[o].rule);
      forall key | OfRule(rules[o].rule, key) ensures SameCondition(before, now, key) {
        assert SameCondition(before, middle, key) && SameCondition(middle, now, key);
      }
    }
    forall o, scope | o in rules && IsBlockedAt(before, rules[o].rule, rules[o].input, encoded, scope)
      ensures IsBlockedAt(now, rules[o].rule, rules[o].input, encoded, scope)
    {
      assert IsBlockedAt(middle, rules[o].rule, rules[o].input, encoded, scope);
      if o != r {
        SameRowsStayBlocked(middle, now, rules[o].rule, rules[o].input, encoded, scope);
      }
    }
  }

  lemma {:induction false} ReachedUpTo(page: seq<string>, failing: set<string>, i: nat)
    requires i <= |page| && (forall r :: r in page[..i] ==> r !in failing) && (i < |page| ==> page[i] in failing)
    ensures S.Reached(page, failing) == page[..i]
    ensures i < |page| <==> !(Elements(page) !! failing)
    decreases i
  {
    if i > 0 {
      assert page[0] in page[..i];
      forall r | r in page[1..][..i - 1] ensures r !in failing {
        assert r in page[..i];
      }
      ReachedUpTo(page[1..], failing, i - 1);
      assert page[..i] == [page[0]] + page[1..][..i - 1];
    }
    if i < |page| {
      assert page[i] in Elements(page) * failing;
    } else {
      assert page[..i] == page;
    }
  }

  /** The first `i` rules of the page went through, and are stamped. */
  ghost predicate SoFar(first: Conditions, stamps: S.Stamps, conditions: Conditions, lastEvaluated: S.Stamps,
                        rules: map<string, Watched>, page: seq<string>, i: nat, times: seq<int>,
                        encoded: Payload -> nat, clock: int)
    requires i <= |page| && |page| == |times| && WatchedOk(first, rules)
  {
    && WatchedOk(conditions, rules) && Untouched(first, conditions, rules, page[..i], encoded)
    && lastEvaluated == S.StampAll(stamps, page[..i], times)
    && forall r :: r in page[..i] ==> r !in Failing(first, rules, encoded, clock)
  }

  /** One turn of the tick: evaluate the next rule of the page, and stamp it if that went through. */
  method EvaluateNext(scheduler: S.Scheduler, store: AlertStore, rules: map<string, Watched>, page: seq<string>, i: nat,
                      times: seq<int>, encoded: Payload -> nat, clock: int,
                      ghost first: Conditions, ghost stamps: S.Stamps)
    returns (ok: bool)
    requires i < |page| && |page| == |times| && Distinct(page) && page[i] in rules && WatchedOk(first, rules)
    requires SoFar(first, stamps, store.conditions, scheduler.lastEvaluated, rules, page, i, times, encoded, clock)
    modifies scheduler, store`conditions, store`deliveries
    ensures ok <==> page[i] !in Failing(first, rules, encoded, clock)
    ensures ok ==>
              SoFar(first, stamps, store.conditions, scheduler.lastEvaluated, rules, page, i + 1, times, encoded, clock)
    ensures !ok ==> scheduler.lastEvaluated == old(scheduler.lastEvaluated) && WatchedOk(store.conditions, rules)
    ensures !ok ==> StayBlocked(first, store.conditions, rules, encoded)
  {
    var r := page[i];
    ghost var before := store.conditions;
    assert r !in page[..i];
    SameRowsDecideTheSame(first, before, rules[r].rule, rules[r].input, encoded, clock);
    ok := EvaluateRule(store, rules[r].rule, rules[r].input, encoded, clock);
    UntouchedByOneMore(first, before, store.conditions, rules, page[..i], r, encoded);
    if ok {
      assert page[..i + 1] == page[..i] + [r];
      S.StampOneMore(stamps, page, i, times);
      scheduler.lastEvaluated := scheduler.lastEvaluated[r := Some(times[i])];
    }
  }

  /** One tick: select, then evaluate and stamp rule by rule until one fails. It is a tick of the scheduler model
      in which exactly the rules that cannot be evaluated now fail; blocked rules are among them, and stay blocked. */
  method EvaluateRulesOnce(scheduler: S.Scheduler, store: AlertStore, rules: map<string, Watched>,
                           encoded: Payload -> nat, clock: int, times: seq<int>)
    returns (ok: bool, ghost tick: S.Tick)
    requires scheduler.lastEvaluated.Keys == rules.Keys && WatchedOk(store.conditions, rules)
    requires |times| == MinInt(S.ALERT_RULE_PAGE_SIZE, |rules|) && S.Later(scheduler.lastEvaluated, times)
    modifies scheduler, store`conditions, store`deliveries
    ensures tick.times == times && S.ValidTick(old(scheduler.lastEvaluated), tick)
    ensures scheduler.lastEvaluated ==
            S.AfterTick(old(scheduler.lastEvaluated), tick, Failing(old(store.conditions), rules, encoded, clock))
    ensures ok <==> Elements(tick.page) !! Failing(old(store.conditions), rules, encoded, clock)
    ensures WatchedOk(store.conditions, rules)
    ensures StayBlocked(old(store.conditions), store.conditions, rules, encoded)
  {
    assert |scheduler.lastEvaluated| == |scheduler.lastEvaluated.Keys| == |rules|;
    var page := scheduler.SelectDue();
    tick := S.Tick(page, times);
    ghost var first := store.conditions;
    ghost var stamps := scheduler.lastEvaluated;
    S.DuePageIsDistinct(stamps, page);
    for i := 0 to |page|
      invariant SoFar(first, stamps, store.conditions, scheduler.lastEvaluated, rules, page, i, times, encoded, clock)
    {
      assert page[i] in page;
      var done := EvaluateNext(scheduler, store, rules, page, i, times, encoded, clock, first, stamps);
      if !done {
        ReachedUpTo(page, Failing(first, rules, encoded, clock), i);
        return false, tick;
      }
    }
    assert page[..|page|] == page;
    ReachedUpTo(page, Failing(first, rules, encoded, clock), |page|);
    return true, tick;
  }

  // ---------- many ticks ----------

  /** What one tick of the scheduler finds: the enabled rules with what they observe now, and its clock readings. */
  datatype Round = Round(rules: map<string, Watched>, clock: int, times: seq<int>)

  /** The state a tick starts from, and the tick. */
  datatype Moment = Moment(stamps: S.Stamps, conditions: Conditions, tick: S.Tick)

  /** The rules stay as they are; what they observe may change from tick to tick. */
  ghost predicate SameRules(a: map<string, Watched>, b: map<string, Watched>) {
    a.Keys == b.Keys
    && forall r :: r in a ==> a[r].rule == b[r].rule && (a[r].input.FromIssues? <==> b[r].input.FromIssues?)
  }

  /** Rounds over the same rules, each later than the one before. */
  ghost predicate RoundsOk(rounds: seq<Round>) {
    && (forall i, j :: 0 <= i < j < |rounds| ==> SameRules(rounds[i].rules, rounds[j].rules))
    && (forall i :: 0 <= i < |rounds| ==> |rounds[i].times| == MinInt(S.ALERT_RULE_PAGE_SIZE, |rounds[i].rules|))
    && (forall i, j, t, u :: 0 <= i < j < |rounds| && t in rounds[i].times && u in rounds[j].times ==> t < u)
  }

  /** A round can be run from these tables, and in it this scope blocks this rule. */
  ghost predicate RoundReady(stamps: S.Stamps, conditions: Conditions, round: Round, encoded: Payload -> nat,
                             rule: string, scope: string) {
    && stamps.Keys == round.rules.Keys && rule in round.rules && S.Later(stamps, round.times)
    && WatchedOk(conditions, round.rules)
    && IsBlockedAt(conditions, round.rules[rule].rule, round.rules[rule].input, encoded, scope)
  }

  /** A rule that observes the blocked scope with a payload too large at a later round is blocked then, too. */
  lemma StillBlockedLater(before: Conditions, now: Conditions, w: Watched, later: Watched, encoded: Payload -> nat,
                          scope: string)
    requires w.rule == later.rule && (w.input.FromIssues? ==> IssuesOk(w.input.issues))
    requires later.input.FromIssues? ==> IssuesOk(later.input.issues)
    requires IsBlockedAt(now, w.rule, w.input, encoded, scope)
    requires IsBlockedAt(before, later.rule, later.input, encoded, scope)
    ensures IsBlockedAt(now, later.rule, later.input, encoded, scope)
  {
    var payload := ObservationsOf(later.input).value[scope];
    forall clock ensures !CanActivate(now, later.rule, scope, payload, encoded, clock) {
      assert !CanActivate(now, w.rule, scope, ObservationsOf(w.input).value[scope], encoded, clock);
      assert !CanActivate(before, later.rule, scope, payload, encoded, clock);
    }
  }

  /** One tick leaves a later round ready. */
  lemma TickKeepsReady(stamps: S.Stamps, before: Conditions, now: Conditions, tick: S.Tick, failing: set<string>,
                       round: Round, later: Round, encoded: Payload -> nat, rule: string, scope: string)
    requires RoundReady(stamps, before, round, encoded, rule, scope)
    requires RoundReady(stamps, before, later, encoded, rule, scope)
    requires SameRules(round.rules, later.rules)
    requires forall t, u :: t in round.times && u in later.times ==> t < u
    requires S.ValidTick(stamps, tick) && tick.times == round.times
    requires WatchedOk(now, round.rules) && StayBlocked(before, now, round.rules, encoded)
    ensures RoundReady(S.AfterTick(stamps, tick, failing), now, later, encoded, rule, scope)
  {
    var done := S.Reached(tick.page, failing);
    assert forall r :: r in done ==> r in tick.page;
    S.StampingTouchesOnlyDone(stamps, done, tick.times);
    assert S.AfterTick(stamps, tick, failing).Keys == stamps.Keys;
    forall r | r in later.rules ensures InputOk(now, later.rules[r].rule, later.rules[r].input) {
      assert InputOk(now, round.rules[r].rule, round.rules[r].input);
      assert InputOk(before, later.rules[r].rule, later.rules[r].input);
    }
    assert IsBlockedAt(now, round.rules[rule].rule, round.rules[rule].input, encoded, scope);
    StillBlockedLater(before, now, round.rules[rule], later.rules[rule], encoded, scope);
  }

  /** The rules that fail in a tick are those that cannot be evaluated over the tables it finds. */
  ghost function FailingAt(moment: Moment, round: Round, encoded: Payload -> nat): set<string>
    requires WatchedOk(moment.conditions, round.rules)
  {
    Failing(moment.conditions, round.rules, encoded, round.clock)
  }

  /** The ticks follow one another from the first stamps to the last. */
  ghost predicate Followed(history: seq<Moment>, rounds: seq<Round>, first: S.Stamps, last: S.Stamps,
                           encoded: Payload -> nat)
    decreases |history|
  {
    if history == [] then first == last
    else
      var n := |history| - 1;
      var moment := history[n];
      |history| <= |rounds| && WatchedOk(moment.conditions, rounds[n].rules)
      && S.ValidTick(moment.stamps, moment.tick) && moment.tick.times == rounds[n].times
      && Followed(history[..n], rounds, first, moment.stamps, encoded)
      && last == S.AfterTick(moment.stamps, moment.tick, FailingAt(moment, rounds[n], encoded))
  }

  /** How many evaluations went through in all of them. */
  ghost function Evaluations(history: seq<Moment>, rounds: seq<Round>, first: S.Stamps, last: S.Stamps,
                             encoded: Payload -> nat): nat
    requires Followed(history, rounds, first, last, encoded)
    decreases |history|
  {
    if history == [] then 0
    else
      var n := |history| - 1;
      |S.Reached(history[n].tick.page, FailingAt(history[n], rounds[n], encoded))|
      + Evaluations(history[..n], rounds, first, history[n].stamps, encoded)
  }

  /** These moments have used up as many of the rules ahead as evaluations went through in them, and the remaining
      rounds are still ready. */
  ghost predicate Underway(history: seq<Moment>, rounds: seq<Round>, first: S.Stamps, stamps: S.Stamps,
                           conditions: Conditions, encoded: Payload -> nat, rule: string, scope: string) {
    && rule in first && rule in stamps && Followed(history, rounds, first, stamps, encoded)
    && Evaluations(history, rounds, first, stamps, encoded) + |S.Ahead(stamps, rule)| == |S.Ahead(first, rule)|
    && forall j :: |history| <= j < |rounds| ==> RoundReady(stamps, conditions, rounds[j], encoded, rule, scope)
  }

  /** A tick over the tables of a blocked rule: it fails, and uses up what it evaluates. */
  lemma BlockedTick(stamps: S.Stamps, conditions: Conditions, tick: S.Tick, round: Round, encoded: Payload -> nat,
                    rule: string, scope: string)
    requires RoundReady(stamps, conditions, round, encoded, rule, scope) && S.ValidTick(stamps, tick)
    ensures var failing := Failing(conditions, round.rules, encoded, round.clock);
            var after := S.AfterTick(stamps, tick, failing);
            rule in after
            && |S.Reached(tick.page, failing)| + |S.Ahead(after, rule)| == |S.Ahead(stamps, rule)|
  {
    BlockedRulesFail(conditions, round.rules, encoded, round.clock);
    assert rule in BlockedRules(conditions, round.rules, encoded);
    S.TickUsesUpAhead(stamps, rule, tick, Failing(conditions, round.rules, encoded, round.clock));
  }

  lemma HistoryGrows(history: seq<Moment>, rounds: seq<Round>, first: S.Stamps, moment: Moment, encoded: Payload -> nat)
    requires |history| < |rounds| && Followed(history, rounds, first, moment.stamps, encoded)
    requires WatchedOk(moment.conditions, rounds[|history|].rules)
    requires S.ValidTick(moment.stamps, moment.tick) && moment.tick.times == rounds[|history|].times
    ensures var failing := FailingAt(moment, rounds[|history|], encoded);
            var after := S.AfterTick(moment.stamps, moment.tick, failing);
            && Followed(history + [moment], rounds, first, after, encoded)
            && Evaluations(history + [moment], rounds, first, after, encoded)
                 == |S.Reached(moment.tick.page, failing)| + Evaluations(history, rounds, first, moment.stamps, encoded)
  {
    var longer := history + [moment];
    assert longer[..|history|] == history && longer[|history|] == moment;
  }

  lemma LaterRoundsStayReady(stamps: S.Stamps, before: Conditions, now: Conditions, tick: S.Tick, rounds: seq<Round>,
                             n: nat, encoded: Payload -> nat, rule: string, scope: string)
    requires n < |rounds| && RoundsOk(rounds)
    requires forall j :: n <= j < |rounds| ==> RoundReady(stamps, before, rounds[j], encoded, rule, scope)
    requires S.ValidTick(stamps, tick) && tick.times == rounds[n].times
    requires WatchedOk(before, rounds[n].rules) && WatchedOk(now, rounds[n].rules)
    requires StayBlocked(before, now, rounds[n].rules, encoded)
    ensures var after := S.AfterTick(stamps, tick, Failing(before, rounds[n].rules, encoded, rounds[n].clock));
            forall j :: n < j < |rounds| ==> RoundReady(after, now, rounds[j], encoded, rule, scope)
  {
    var failing := Failing(before, rounds[n].rules, encoded, rounds[n].clock);
    var after := S.AfterTick(stamps, tick, failing);
    forall j | n < j < |rounds| ensures RoundReady(after, now, rounds[j], encoded, rule, scope) {
      assert RoundReady(stamps, before, rounds[n], encoded, rule, scope);
      assert RoundReady(stamps, before, rounds[j], encoded, rule, scope);
      assert SameRules(rounds[n].rules, rounds[j].rules);
      TickKeepsReady(stamps, before, now, tick, failing, rounds[n], rounds[j], encoded, rule, scope);
    }
  }

  lemma OneMoreTick(history: seq<Moment>, rounds: seq<Round>, first: S.Stamps, stamps: S.Stamps, before: Conditions,
                    now: Conditions, tick: S.Tick, encoded: Payload -> nat, rule: string, scope: string)
    requires |history| < |rounds| && RoundsOk(rounds)
    requires Underway(history, rounds, first, stamps, before, encoded, rule, scope)
    requires S.ValidTick(stamps, tick) && tick.times == rounds[|history|].times
    requires WatchedOk(before, rounds[|history|].rules) && WatchedOk(now, rounds[|history|].rules)
    requires StayBlocked(before, now, rounds[|history|].rules, encoded)
    ensures var round := rounds[|history|];
            var after := S.AfterTick(stamps, tick, Failing(before, round.rules, encoded, round.clock));
            Underway(history + [Moment(stamps, before, tick)], rounds, first, after, now, encoded, rule, scope)
  {
    var n := |history|;
    assert RoundReady(stamps, before, rounds[n], encoded, rule, scope);
    BlockedTick(stamps, before, tick, rounds[n], encoded, rule, scope);
    HistoryGrows(history, rounds, first, Moment(stamps, before, tick), encoded);
    LaterRoundsStayReady(stamps, before, now, tick, rounds, n, encoded, rule, scope);
  }

  /** The scheduler's loop over any number of ticks. As long as some scope blocks a rule, the evaluations that go
      through are exactly the rules that leave the places ahead of it: once those are used up, nothing is evaluated. */
  method RunScheduler(scheduler: S.Scheduler, store: AlertStore, rounds: seq<Round>, encoded: Payload -> nat,
                      ghost rule: string, ghost scope: string)
    returns (ghost history: seq<Moment>)
    requires RoundsOk(rounds) && rule in scheduler.lastEvaluated
    requires forall k :: 0 <= k < |rounds| ==>
               RoundReady(scheduler.lastEvaluated, store.conditions, rounds[k], encoded, rule, scope)
    modifies scheduler, store`conditions, store`deliveries
    ensures |history| == |rounds| && rule in scheduler.lastEvaluated
    ensures Followed(history, rounds, old(scheduler.lastEvaluated), scheduler.lastEvaluated, encoded)
    ensures Evaluations(history, rounds, old(scheduler.lastEvaluated), scheduler.lastEvaluated, encoded)
              + |S.Ahead(scheduler.lastEvaluated, rule)| == |S.Ahead(old(scheduler.lastEvaluated), rule)|
  {
    history := [];
    ghost var first := scheduler.lastEvaluated;
    for k := 0 to |rounds|
      invariant |history| == k
      invariant Underway(history, rounds, first, scheduler.lastEvaluated, store.conditions, encoded, rule, scope)
    {
      ghost var stamps, before := scheduler.lastEvaluated, store.conditions;
      assert RoundReady(stamps, before, rounds[k], encoded, rule, scope);
      var _, tick := EvaluateRulesOnce(scheduler, store, rounds[k].rules, encoded, rounds[k].clock, rounds[k].times);
      OneMoreTick(history, rounds, first, stamps, before, store.conditions, tick, encoded, rule, scope);
      history := history + [Moment(stamps, before, tick)];
    }
  }
}
