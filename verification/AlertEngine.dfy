/** The alert tables as an object, and the transactions and loops that work on them. */
module AlertEngine {
  import opened Common
  import opened Keyset
  import opened AlertModel
  import opened AlertInvariants
  import opened AlertTheorems
  import opened AlertDelivery
  import opened AlertEvaluation

  const ALERT_ISSUE_PAGE_SIZE := 1000
  const ALERT_RECOVERY_PAGE_SIZE := 1000

  // ---------- the claim loop ----------

  /** `ORDER BY available_at, created_at`; ties fall to the random row id. */
  predicate NoLaterThan(a: Delivery, b: Delivery) {
    a.availableAt < b.availableAt || (a.availableAt == b.availableAt && a.createdAt <= b.createdAt)
  }

  /** The row the candidate query returns: the first selectable row nobody else has locked. */
  ghost predicate IsCandidate(now: int, deliveries: map<DeliveryKey, Delivery>, locked: set<DeliveryKey>,
                              key: DeliveryKey) {
    && key in deliveries && key !in locked && Selectable(now, deliveries[key])
    && forall other :: other in deliveries && other !in locked && Selectable(now, deliveries[other]) ==>
         NoLaterThan(deliveries[key], deliveries[other])
  }

  /** One claim call: it buries expired final rows, each the candidate of its moment, and then
      either leases the candidate or finds none. */
  ghost predicate ClaimTrace(s: State, locked: set<DeliveryKey>, steps: seq<Step>)
    decreases |steps|
  {
    if steps == [] then
      forall key :: key in s.deliveries && key !in locked ==> !Selectable(s.now, s.deliveries[key])
    else
      && Enabled(s, steps[0])
      && match steps[0]
         case ExpireFinal(key) => IsCandidate(s.now, s.deliveries, locked, key)
             && ClaimTrace(Apply(s, steps[0]), locked, steps[1..])
         case Lease(key, _) => IsCandidate(s.now, s.deliveries, locked, key) && |steps| == 1
         case _ => false
  }

  lemma {:induction false} ClaimTraceIsARun(s: State, locked: set<DeliveryKey>, steps: seq<Step>)
    requires ClaimTrace(s, locked, steps)
    ensures ValidRun(s, steps)
    decreases |steps|
  {
    if steps != [] && steps[0].ExpireFinal? {
      ClaimTraceIsARun(Apply(s, steps[0]), locked, steps[1..]);
    }
  }

  ghost predicate BuriesCandidates(s: State, locked: set<DeliveryKey>, steps: seq<Step>)
    ensures BuriesCandidates(s, locked, steps) ==> ValidRun(s, steps)
    decreases |steps|
  {
    steps == [] ||
    (steps[0].ExpireFinal? && Enabled(s, steps[0]) && IsCandidate(s.now, s.deliveries, locked, steps[0].expired)
     && BuriesCandidates(Apply(s, steps[0]), locked, steps[1..]))
  }

  lemma {:induction false} ClaimTraceExtends(s: State, locked: set<DeliveryKey>, buried: seq<Step>, rest: seq<Step>)
    requires BuriesCandidates(s, locked, buried) && ClaimTrace(Run(s, buried), locked, rest)
    ensures ClaimTrace(s, locked, buried + rest)
    decreases |buried|
  {
    if buried == [] {
      assert buried + rest == rest;
    } else {
      ClaimTraceExtends(Apply(s, buried[0]), locked, buried[1..], rest);
      assert (buried + rest)[1..] == buried[1..] + rest;
    }
  }

  lemma {:induction false} BuryOneMore(s: State, locked: set<DeliveryKey>, steps: seq<Step>, step: Step)
    requires BuriesCandidates(s, locked, steps)
    requires step.ExpireFinal? && Enabled(Run(s, steps), step)
    requires IsCandidate(Run(s, steps).now, Run(s, steps).deliveries, locked, step.expired)
    ensures BuriesCandidates(s, locked, steps + [step]) && Run(s, steps + [step]) == Apply(Run(s, steps), step)
    decreases |steps|
  {
    if steps == [] {
      assert [step][1..] == [];
      assert BuriesCandidates(Apply(s, step), locked, []);
    } else {
      BuryOneMore(Apply(s, steps[0]), locked, steps[1..], step);
      assert (steps + [step])[1..] == steps[1..] + [step];
    }
  }

  ghost function ExpiredRows(s: State): set<DeliveryKey> {
    set key | key in s.deliveries && FinallyExpired(s.now, s.deliveries[key])
  }

  lemma BuryingShrinksTheBacklog(s: State, key: DeliveryKey)
    requires RowsOk(s) && Enabled(s, ExpireFinal(key))
    ensures RowsOk(Apply(s, ExpireFinal(key))) && ExpiredRows(Apply(s, ExpireFinal(key))) < ExpiredRows(s)
  {
    var t := Apply(s, ExpireFinal(key));
    assert RowOk(s.deliveries[key]);
    assert key in ExpiredRows(s) && ExpiredRows(t) == ExpiredRows(s) - {key};
  }

  lemma LeaseEndsTheTrace(s: State, locked: set<DeliveryKey>, buried: seq<Step>, key: DeliveryKey, token: nat)
    requires BuriesCandidates(s, locked, buried)
    requires Enabled(Run(s, buried), Lease(key, token))
    requires IsCandidate(Run(s, buried).now, Run(s, buried).deliveries, locked, key)
    ensures var steps := buried + [Lease(key, token)];
            ClaimTrace(s, locked, steps) && ValidRun(s, steps)
            && Run(s, steps) == Apply(Run(s, buried), Lease(key, token))
  {
    var t := Run(s, buried);
    RunOfOne(t, Lease(key, token));
    assert ClaimTrace(t, locked, [Lease(key, token)]);
    ClaimTraceExtends(s, locked, buried, [Lease(key, token)]);
    RunConcat(s, buried, [Lease(key, token)]);
  }

  ghost predicate OnlyBuried(now: int, before: Rows, after: Rows, locked: set<DeliveryKey>, token: nat) {
    forall key :: RowClaimed(now, before, after, locked, token, None, key)
  }

  lemma BuriedOneMore(now: int, before: Rows, after: Rows, locked: set<DeliveryKey>, token: nat, key: DeliveryKey)
    requires OnlyBuried(now, before, after, locked, token)
    requires key in after && key !in locked && FinallyExpired(now, after[key])
    ensures OnlyBuried(now, before, after[key := BuryRow(after[key])], locked, token)
  {
    var next := after[key := BuryRow(after[key])];
    forall other ensures RowClaimed(now, before, next, locked, token, None, other) {
      assert RowClaimed(now, before, after, locked, token, None, other);
    }
  }

  lemma LeasedLast(now: int, before: Rows, after: Rows, locked: set<DeliveryKey>, token: nat, key: DeliveryKey)
    requires OnlyBuried(now, before, after, locked, token)
    requires IsCandidate(now, after, locked, key) && Claimable(now, after[key])
    ensures var row := LeaseRow(after[key], token, now);
            Claimed(now, before, after[key := row], locked, token, Some(Claim(key, row.attempt, row.maxAttempt, token)))
  {
    var row := LeaseRow(after[key], token, now);
    var next, claim := after[key := row], Some(Claim(key, row.attempt, row.maxAttempt, token));
    forall other ensures RowClaimed(now, before, next, locked, token, claim, other) {
      assert RowClaimed(now, before, after, locked, token, None, other);
    }
    assert RowClaimed(now, before, after, locked, token, None, key);
    forall other | other in before && other in next && other !in locked && IsDue(now, next[other])
      ensures before[key].availableAt < before[other].availableAt
              || (before[key].availableAt == before[other].availableAt
                  && before[key].createdAt <= before[other].createdAt)
    {
      assert RowClaimed(now, before, after, locked, token, None, other);
    }
  }

  /** `ORDER BY scope_key LIMIT n` over a set of scopes. */
  method SelectScopes(scopes: set<string>, limit: nat) returns (page: seq<string>)
    ensures forall scope :: scope in page ==> scope in scopes
    ensures Distinct(page)
    ensures page == [] && limit > 0 ==> scopes == {}
  {
    var rows := set scope | scope in scopes :: Key(0, scope);
    var keys := SelectPage(Ascending, rows, None, limit);
    SortedIsDistinct(Ascending, keys);
    page := seq(|keys|, i requires 0 <= i < |keys| => keys[i].id);
    forall k | k in rows ensures k == Key(0, k.id) && k.id in scopes {
    }
    forall i | 0 <= i < |page| ensures keys[i] == Key(0, page[i]) && page[i] in scopes {
      assert keys[i] in keys;
    }
    assert forall scope :: scope in scopes ==> Key(0, scope) in rows;
  }

  /** All rows of an unordered scope query. */
  method ListScopes(scopes: set<string>) returns (list: seq<string>)
    ensures forall scope :: scope in list <==> scope in scopes
    ensures Distinct(list)
  {
    var rest := scopes;
    list := [];
    while rest != {}
      invariant rest <= scopes
      invariant forall scope :: scope in list <==> scope in scopes - rest
      invariant forall i, j :: 0 <= i < j < |list| ==> list[i] != list[j]
      decreases rest
    {
      var scope :| scope in rest;
      assert scope !in list;
      list := list + [scope];
      rest := rest - {scope};
    }
  }

  lemma ShortPageIsTheLast(rows: set<Key>, cursor: Option<Key>, page: seq<Key>)
    requires IsPage(Ascending, rows, cursor, ALERT_ISSUE_PAGE_SIZE, page) && |page| < ALERT_ISSUE_PAGE_SIZE
    ensures forall k :: k in rows ==> k in page || !Past(Ascending, cursor, k)
  {
  }

  lemma FullPageMovesTheCursor(rows: set<Key>, cursor: Option<Key>, page: seq<Key>)
    requires IsPage(Ascending, rows, cursor, ALERT_ISSUE_PAGE_SIZE, page) && |page| == ALERT_ISSUE_PAGE_SIZE
    ensures var next := Some(page[|page| - 1]);
            (forall k :: k in rows && !Past(Ascending, next, k) ==> k in page || !Past(Ascending, cursor, k))
            && (set k | k in rows && Past(Ascending, next, k)) < (set k | k in rows && Past(Ascending, cursor, k))
  {
    var last := page[|page| - 1];
    var after := set k | k in rows && Past(Ascending, Some(last), k);
    var before := set k | k in rows && Past(Ascending, cursor, k);
    assert last in page;
    PrecedesIsTotal(Ascending, last, last);
    forall k | k in rows && Past(Ascending, Some(last), k) ensures Past(Ascending, cursor, k) {
      if cursor.Some? {
        PrecedesIsTransitive(Ascending, cursor.value, last, k);
      }
    }
    assert after <= before && last in before && last !in after;
  }

  class AlertStore {
    var now: int
    var conditions: map<ConditionKey, Condition>
    var deliveries: map<DeliveryKey, Delivery>
    ghost var issued: set<Claim>

    ghost function View(): State
      reads this
    {
      State(now, conditions, deliveries, issued)
    }

    constructor (start: int)
      ensures View() == Initial(start)
    {
      now := start;
      conditions := map[];
      deliveries := map[];
      issued := {};
    }

    /** One evaluation transaction. `encoded` is the length serde gives a payload. */
    method TransitionCondition(rule: Rule, scope: string, active: bool, payload: Payload,
                               encoded: Payload -> nat, clock: int)
      returns (ok: bool, ghost step: Step)
      requires ValidQuietHours(rule)
      modifies `conditions, `deliveries
      ensures step == Transition(rule, scope, active, payload, encoded(Stamp(payload, active, clock)), clock)
      ensures Enabled(old(View()), step) && View() == Apply(old(View()), step)
      ensures ok <==> !TransitionFails(old(View()), rule, scope, active, encoded(Stamp(payload, active, clock)))
      ensures ok <==>
                WithinLimits(old(View()), rule, scope, active, encoded(Stamped(payload, active, clock)))
      ensures Evaluates(old(View()), View(), rule, scope, active, payload, encoded(Stamped(payload, active, clock)),
                        clock)
    {
      TransitionEvaluates(View(), rule, scope, active, payload, encoded(Stamped(payload, active, clock)), clock);
      var encodedBytes := encoded(Stamp(payload, active, clock));
      step := Transition(rule, scope, active, payload, encodedBytes, clock);
      if Utf8Length(scope) == 0 || Utf8Length(scope) > MAX_SCOPE_BYTES {
        return false, step;
      }
      var key := KeyOf(rule, scope);
      if key in conditions && conditions[key].active == active {
        conditions := conditions[key := conditions[key].(payload := payload)];
        return true, step;
      }
      if key !in conditions && !active {
        return true, step;
      }
      var generation := if key in conditions then SaturatingNext(conditions[key].generation) else 1;
      var stamped := Stamp(payload, active, clock);
      if encodedBytes > MAX_PAYLOAD_BYTES {
        return false, step;
      }
      conditions := conditions[key := Condition(active, generation, stamped)];
      var trigger := DeliveryKey(key, generation - 1, Triggered);
      var suppressedPair := false;
      if !active && trigger in deliveries && deliveries[trigger].state == Pending
          && deliveries[trigger].availableAt > now {
        deliveries := deliveries[trigger := Suppress(deliveries[trigger])];
        suppressedPair := true;
      }
      var delay := QuietDelaySeconds(clock, rule.quietStart, rule.quietEnd);
      var added := DeliveryKey(key, generation, if active then Triggered else Recovered);
      if added !in deliveries {
        deliveries := deliveries[added := NewDelivery(stamped, suppressedPair, now, delay)];
      }
      return true, step;
    }

    // ---------- workers ----------

    method Candidate(locked: set<DeliveryKey>) returns (found: Option<DeliveryKey>)
      ensures found.Some? ==> IsCandidate(now, deliveries, locked, found.value)
      ensures found.None? ==> forall key :: key in deliveries && key !in locked ==> !Selectable(now, deliveries[key])
    {
      var rest := set key | key in deliveries && key !in locked && Selectable(now, deliveries[key]);
      found := None;
      while rest != {}
        invariant forall key :: key in rest ==> key in deliveries
        invariant found.None? ==>
                    forall key :: key in deliveries && key !in locked && Selectable(now, deliveries[key]) ==>
                        key in rest
        invariant found.Some? ==>
          found.value in deliveries && found.value !in locked && Selectable(now, deliveries[found.value])
          && forall key :: key in deliveries && key !in locked && Selectable(now, deliveries[key]) && key !in rest ==>
               NoLaterThan(deliveries[found.value], deliveries[key])
        invariant forall key :: key in rest ==> key !in locked && Selectable(now, deliveries[key])
        decreases rest
      {
        var key :| key in rest;
        if found.None? || !NoLaterThan(deliveries[found.value], deliveries[key]) {
          found := Some(key);
        }
        rest := rest - {key};
      }
    }

    /** The claim loop, one transaction per turn. `locked` are the rows other transactions hold,
        which SKIP LOCKED passes over; `token` is the random lease token. */
    method ClaimDelivery(locked: set<DeliveryKey>, token: nat) returns (claim: Option<Claim>, ghost steps: seq<Step>)
      requires RowsOk(View()) && FreshToken(View(), token)
      modifies `deliveries, `issued
      ensures ClaimTrace(old(View()), locked, steps) && ValidRun(old(View()), steps)
      ensures View() == Run(old(View()), steps)
      ensures claim.Some? <==> steps != [] && steps[|steps| - 1].Lease?
      ensures claim.Some? ==>
        issued == old(issued) + {claim.value} && HoldsLease(View(), claim.value) && claim.value.token == token
      ensures Claimed(now, old(deliveries), deliveries, locked, token, claim)
    {
      steps := [];
      while true
        invariant BuriesCandidates(old(View()), locked, steps) && View() == Run(old(View()), steps)
        invariant forall step :: step in steps ==> step.ExpireFinal?
        invariant issued == old(issued) && RowsOk(View()) && now == old(now)
        invariant OnlyBuried(now, old(deliveries), deliveries, locked, token)
        decreases ExpiredRows(View())
      {
        var candidate := Candidate(locked);
        if candidate.None? {
          ClaimTraceExtends(old(View()), locked, steps, []);
          assert steps + [] == steps;
          assert steps != [] ==> steps[|steps| - 1] in steps;
          return None, steps;
        }
        var key := candidate.value;
        var row := deliveries[key];
        SelectedRowIsAlwaysUpdated(now, row);
        if row.state == Leased && row.attempt >= row.maxAttempt {
          BuryingShrinksTheBacklog(View(), key);
          BuryOneMore(old(View()), locked, steps, ExpireFinal(key));
          BuriedOneMore(now, old(deliveries), deliveries, locked, token, key);
          deliveries := deliveries[key := BuryRow(row)];
          steps := steps + [ExpireFinal(key)];
          continue;
        }
        var leased := LeaseRow(row, token, now);
        LeaseEndsTheTrace(old(View()), locked, steps, key, token);
        LeasedLast(now, old(deliveries), deliveries, locked, token, key);
        deliveries := deliveries[key := leased];
        issued := issued + {Claim(key, leased.attempt, leased.maxAttempt, token)};
        return Some(Claim(key, leased.attempt, leased.maxAttempt, token)), steps + [Lease(key, token)];
      }
    }

    /** Writes the outcome of one delivery attempt; false means the lease was no longer held. */
    method FinishDelivery(claim: Claim, result: SendResult) returns (ok: bool)
      modifies `deliveries
      ensures View() == ApplyFinish(old(View()), claim, result)
      ensures ok <==> old(HoldsLease(View(), claim))
      ensures ok <==> claim.key in old(deliveries) && old(deliveries)[claim.key].state == Leased
                      && old(deliveries)[claim.key].leaseToken == Some(claim.token)
      ensures if ok then
                deliveries == old(deliveries)[claim.key := deliveries[claim.key]]
                && ReportWritten(now, old(deliveries)[claim.key], deliveries[claim.key], claim, result)
              else deliveries == old(deliveries)
    {
      var state, failureCode, retrySeconds := Delivered, None, 0;
      match result {
        case Sent =>
        case Retryable(code) =>
          if claim.attempt < claim.maxAttempt {
            state, failureCode, retrySeconds := Failed, Some(code), claim.attempt * RETRY_SECONDS;
          } else {
            state, failureCode := Dead, Some(code);
          }
        case Permanent(code) => state, failureCode := Dead, Some(code);
        case Uncertain(code) => state, failureCode := Unknown, Some(code);
      }
      if claim.key !in deliveries || deliveries[claim.key].leaseToken != Some(claim.token)
         || deliveries[claim.key].state != Leased {
        return false;
      }
      var row := deliveries[claim.key];
      deliveries := deliveries[claim.key :=
        row.(state := state, availableAt := now + retrySeconds, leaseToken := None, leaseExpiresAt := None,
             failureCode := failureCode, deliveredAt := if state == Delivered then Some(now) else row.deliveredAt)];
      return true;
    }

    // ---------- evaluation of one rule ----------

    /** One turn of the recovery loop: the transition back, with the payload the scope stored. */
    method RecoverScope(rule: Rule, scope: string, encoded: Payload -> nat, clock: int)
      returns (ok: bool, ghost step: Step)
      requires ValidQuietHours(rule) && IsActive(conditions, rule, scope)
      modifies `conditions, `deliveries
      ensures Evaluated(rule, old(View()), View(), [step]) && StepsAre([step], [scope], false)
      ensures ok <==> CanRecover(old(conditions), rule, scope, encoded, clock)
      ensures if ok then Recovers(old(conditions), conditions, rule, {scope}, encoded, clock) else View() == old(View())
    {
      ghost var before := View();
      RecoveryStep(before, rule, scope, encoded, clock);
      ok, step := TransitionCondition(rule, scope, false, conditions[KeyOf(rule, scope)].payload, encoded, clock);
      EvaluatedOnce(rule, before, step);
    }

    /** The inner loop of both recovery paths: one transition per selected scope, up to the first that fails. */
    method RecoverScopes(rule: Rule, scopes: seq<string>, encoded: Payload -> nat, clock: int)
      returns (ok: bool, ghost steps: seq<Step>)
      requires ValidQuietHours(rule) && Distinct(scopes)
      requires forall scope :: scope in scopes ==> IsActive(conditions, rule, scope)
      modifies `conditions, `deliveries
      ensures Evaluated(rule, old(View()), View(), steps)
      ensures |steps| <= |scopes| && StepsAre(steps, scopes[..|steps|], false)
      ensures ok ==> |steps| == |scopes|
      ensures ok ==> Recovers(old(conditions), conditions, rule, Elements(scopes), encoded, clock)
      ensures ok <==> forall scope :: scope in scopes ==> CanRecover(old(conditions), rule, scope, encoded, clock)
      ensures !ok ==> |steps| > 0
                      && Recovers(old(conditions), conditions, rule, Elements(scopes[..|steps| - 1]), encoded, clock)
    {
      steps := [];
      RecoversNothing(conditions, rule, encoded, clock);
      assert Elements(scopes[..0]) == {};
      for i := 0 to |scopes|
        invariant StepsAre(steps, scopes[..i], false)
        invariant Evaluated(rule, old(View()), View(), steps)
        invariant Recovers(old(conditions), conditions, rule, Elements(scopes[..i]), encoded, clock)
      {
        ghost var before := View();
        PrefixOneMore(scopes, i);
        RecoveryIsDecidedAtFirst(old(conditions), conditions, rule, Elements(scopes[..i]), encoded, clock, scopes[i]);
        var done, step := RecoverScope(rule, scopes[i], encoded, clock);
        EvaluatedThen(rule, old(View()), before, View(), steps, [step]);
        StepsAreOneMore(steps, scopes, i, step, false);
        steps := steps + [step];
        if !done {
          assert scopes[..|steps| - 1] == scopes[..i] && !CanRecover(old(conditions), rule, scopes[i], encoded, clock);
          return false, steps;
        }
        RecoversThen(old(conditions), before.conditions, conditions, rule, Elements(scopes[..i]), {scopes[i]}, encoded,
                     clock);
      }
      assert scopes[..|scopes|] == scopes;
      AllRecovered(old(conditions), conditions, rule, scopes, encoded, clock);
      return true, steps;
    }

    /** Recovers, page by page, every active scope whose issue no longer matches. */
    method RecoverIssueConditions(rule: Rule, issues: Issues, encoded: Payload -> nat, clock: int)
      returns (ok: bool, ghost steps: seq<Step>)
      requires ValidQuietHours(rule) && IssuesOk(issues) && IssueRuleOk(conditions, rule)
      modifies `conditions, `deliveries
      ensures Evaluated(rule, old(View()), View(), steps)
      ensures IssueRuleOk(conditions, rule)
      ensures ok <==> RestRecovers(old(conditions), rule, MatchingScopes(issues), encoded, clock)
      ensures ok ==> ActiveScopes(conditions, rule) == old(ActiveScopes(conditions, rule)) * MatchingScopes(issues)
      ensures ok ==> Recovers(old(conditions), conditions, rule,
                              old(ActiveScopes(conditions, rule)) - MatchingScopes(issues), encoded, clock)
      ensures ActiveScopes(conditions, rule) <= old(ActiveScopes(conditions, rule))
    {
      steps := [];
      ghost var first := conditions;
      ghost var gone := {};
      RecoversNothing(conditions, rule, encoded, clock);
      ActiveScopesAreActive(first, rule);
      while true
        invariant Evaluated(rule, old(View()), View(), steps)
        invariant gone <= ActiveScopes(first, rule) - MatchingScopes(issues)
        invariant Recovers(first, conditions, rule, gone, encoded, clock)
        decreases ActiveScopes(first, rule) - gone
      {
        var stale := StaleScopes(conditions, rule, issues);
        StaleAreTheActiveNonMatching(conditions, rule, issues);
        ActiveScopesAreActive(conditions, rule);
        var page := SelectScopes(stale, ALERT_RECOVERY_PAGE_SIZE);
        if page == [] {
          StaleIsEmpty(ActiveScopes(first, rule), gone, MatchingScopes(issues));
          return true, steps;
        }
        ghost var before := View();
        assert page[0] in page && page[0] in stale;
        var done, more := RecoverScopes(rule, page, encoded, clock);
        EvaluatedThen(rule, old(View()), before, View(), steps, more);
        steps := steps + more;
        if !done {
          PartialRecovery(first, before.conditions, conditions, rule, gone, page[..|more| - 1], encoded, clock);
          ghost var stuck :| stuck in page && !CanRecover(before.conditions, rule, stuck, encoded, clock);
          RecoveryIsDecidedAtFirst(first, before.conditions, rule, gone, encoded, clock, stuck);
          assert stuck in ActiveScopes(first, rule) - MatchingScopes(issues);
          return false, steps;
        }
        RecoversThen(first, before.conditions, conditions, rule, gone, Elements(page), encoded, clock);
        gone := gone + Elements(page);
      }
    }

    /** Recovery of the rules that compute all their observations at once. */
    method RecoverAbsentConditions(rule: Rule, activeScopes: set<string>, encoded: Payload -> nat, clock: int)
      returns (ok: bool, ghost steps: seq<Step>)
      requires ValidQuietHours(rule)
      modifies `conditions, `deliveries
      ensures Evaluated(rule, old(View()), View(), steps)
      ensures ok <==> RestRecovers(old(conditions), rule, activeScopes, encoded, clock)
      ensures ok ==> ActiveScopes(conditions, rule) == old(ActiveScopes(conditions, rule)) * activeScopes
      ensures ActiveScopes(conditions, rule) <= old(ActiveScopes(conditions, rule))
      ensures ok ==> |steps| == |old(ActiveScopes(conditions, rule)) - activeScopes|
      ensures ok ==> Recovers(old(conditions), conditions, rule, old(ActiveScopes(conditions, rule)) - activeScopes,
                              encoded, clock)
      ensures old(IssueRuleOk(conditions, rule)) ==> IssueRuleOk(conditions, rule)
    {
      var absent := ActiveScopes(conditions, rule) - activeScopes;
      ghost var first := conditions;
      ActiveScopesAreActive(first, rule);
      var scopes := ListScopes(absent);
      DistinctSeqSize(scopes);
      assert Elements(scopes) == absent;
      AbsentScopesDecide(first, rule, activeScopes, scopes, encoded, clock);
      ok, steps := RecoverScopes(rule, scopes, encoded, clock);
      if ok {
        RecoveryKeepsTheRest(first, conditions, rule, activeScopes, Elements(scopes), encoded, clock);
      }
    }

    /** One turn of the activation loop. */
    method ActivateScope(rule: Rule, scope: string, observed: Observations, encoded: Payload -> nat, clock: int)
      returns (ok: bool, ghost step: Step)
      requires ValidQuietHours(rule) && scope in observed
      modifies `conditions, `deliveries
      ensures Evaluated(rule, old(View()), View(), [step]) && StepsAre([step], [scope], true)
      ensures Activates(old(conditions), conditions, rule, observed, encoded, clock)
      ensures ok <==> CanActivate(old(conditions), rule, scope, observed[scope], encoded, clock)
      ensures ok ==> Reported(old(conditions), conditions, rule, scope, observed[scope])
      ensures old(IssueRuleOk(conditions, rule)) && ObservesIssues(observed) ==> IssueRuleOk(conditions, rule)
    {
      ghost var before := View();
      ActivationStep(before, rule, scope, observed, encoded, clock);
      ok, step := TransitionCondition(rule, scope, true, observed[scope], encoded, clock);
      EvaluatedOnce(rule, before, step);
    }

    /** The inner loop of both activation paths: one transition per observation, up to the first that fails. */
    method ActivateScopes(rule: Rule, scopes: seq<string>, observed: Observations, encoded: Payload -> nat, clock: int)
      returns (ok: bool, ghost steps: seq<Step>)
      requires ValidQuietHours(rule) && forall scope :: scope in scopes ==> scope in observed
      modifies `conditions, `deliveries
      ensures Evaluated(rule, old(View()), View(), steps)
      ensures |steps| <= |scopes| && StepsAre(steps, scopes[..|steps|], true)
      ensures Activates(old(conditions), conditions, rule, observed, encoded, clock)
      ensures ok <==> forall scope :: scope in scopes ==>
                CanActivate(old(conditions), rule, scope, observed[scope], encoded, clock)
      ensures ok ==> |steps| == |scopes|
      ensures ok ==> forall scope :: scope in scopes ==>
                Reported(old(conditions), conditions, rule, scope, observed[scope])
      ensures old(IssueRuleOk(conditions, rule)) && ObservesIssues(observed) ==> IssueRuleOk(conditions, rule)
    {
      steps := [];
      ActivatesNothing(conditions, rule, observed, encoded, clock);
      for i := 0 to |scopes|
        invariant Evaluated(rule, old(View()), View(), steps)
        invariant StepsAre(steps, scopes[..i], true)
        invariant Activates(old(conditions), conditions, rule, observed, encoded, clock)
        invariant forall scope :: scope in scopes[..i] ==>
                    Settled(old(conditions), conditions, rule, observed, encoded, clock, scope)
        invariant old(IssueRuleOk(conditions, rule)) && ObservesIssues(observed) ==> IssueRuleOk(conditions, rule)
      {
        ghost var before := View();
        assert scopes[i] in scopes;
        CanActivateIsStable(old(conditions), conditions, rule, observed, encoded, clock, scopes[i]);
        assert GrowsBy(old(conditions), conditions, rule, observed, encoded, clock, scopes[i]);
        var done, step := ActivateScope(rule, scopes[i], observed, encoded, clock);
        EvaluatedThen(rule, old(View()), before, View(), steps, [step]);
        StepsAreOneMore(steps, scopes, i, step, true);
        steps := steps + [step];
        ActivatesThen(old(conditions), before.conditions, conditions, rule, observed, encoded, clock);
        if !done {
          return false, steps;
        }
        SettledStays(old(conditions), before.conditions, conditions, rule, observed, encoded, clock);
        assert scopes[..i + 1] == scopes[..i] + [scopes[i]];
      }
      assert scopes[..|scopes|] == scopes;
      return true, steps;
    }

    /** Pages through the matching issues in (sort time, id) order, then recovers what is left.
        Over an issue table that does not change: `Ok(true)` means the active scopes are exactly
        the matching issues, `Ok(false)` that the page budget ran out and nothing was recovered. */
    method EvaluateIssueRulePages(rule: Rule, issues: Issues, encoded: Payload -> nat, clock: int,
                                  maximumPages: Option<nat>)
      returns (outcome: Result<bool, ()>, ghost steps: seq<Step>)
      requires ValidQuietHours(rule) && IssuesOk(issues) && IssueRuleOk(conditions, rule)
      modifies `conditions, `deliveries
      ensures Evaluated(rule, old(View()), View(), steps)
      ensures IssueRuleOk(conditions, rule)
      ensures outcome == Ok(true) ==> old(Evaluable(conditions, rule, Observed(issues), encoded, clock))
      ensures outcome.Err? ==> old(!Evaluable(conditions, rule, Observed(issues), encoded, clock))
      ensures outcome == Ok(true) ==> ActiveScopes(conditions, rule) == MatchingScopes(issues)
      ensures outcome == Ok(true) ==>
                forall scope :: ScopeIsUpToDate(old(conditions), conditions, rule, Observed(issues), scope)
      ensures outcome == Ok(false) ==> maximumPages.Some? && forall step :: step in steps ==>
                step.Transition? && step.active
      ensures outcome == Ok(false) ==> old(ActiveScopes(conditions, rule)) <= ActiveScopes(conditions, rule)
      ensures forall scope :: MayBecomeActive(old(conditions), conditions, rule, Observed(issues), encoded, clock,
                                              scope)
    {
      var observed := Observed(issues);
      ghost var first := View();
      var cursor: Option<Key> := None;
      var pages := 0;
      steps := [];
      ActivatesNothing(conditions, rule, observed, encoded, clock);
      while true
        invariant Evaluated(rule, first, View(), steps)
        invariant IssueRuleOk(conditions, rule)
        invariant forall step :: step in steps ==> step.Transition? && step.active
        invariant Activates(first.conditions, conditions, rule, observed, encoded, clock)
        invariant forall k :: k in issues && !Past(Ascending, cursor, k) ==>
                    Settled(first.conditions, conditions, rule, observed, encoded, clock, IssueScope(k.id))
        decreases set k | k in issues && Past(Ascending, cursor, k)
      {
        var page := SelectPage(Ascending, issues.Keys, cursor, ALERT_ISSUE_PAGE_SIZE);
        ghost var before := View();
        var scopes := seq(|page|, i requires 0 <= i < |page| => IssueScope(page[i].id));
        ScopesOfPage(issues, page, scopes);
        var done, more := ActivateScopes(rule, scopes, observed, encoded, clock);
        EvaluatedThen(rule, first, before, View(), steps, more);
        steps := steps + more;
        ActivatesThen(first.conditions, before.conditions, conditions, rule, observed, encoded, clock);
        ActivationOnlyAdds(first.conditions, conditions, rule, observed, encoded, clock);
        if !done {
          ghost var stuck :| stuck in scopes
              && !CanActivate(before.conditions, rule, stuck, observed[stuck], encoded, clock);
          CanActivateIsStable(first.conditions, before.conditions, rule, observed, encoded, clock, stuck);
          return Err(()), steps;
        }
        PageIsSettled(first.conditions, before.conditions, conditions, rule, observed, encoded, clock, page, scopes);
        SettledStays(first.conditions, before.conditions, conditions, rule, observed, encoded, clock);
        pages := pages + 1;
        if |page| < ALERT_ISSUE_PAGE_SIZE {
          ShortPageIsTheLast(issues.Keys, cursor, page);
          ghost var activated := View();
          var recovered, rest := RecoverIssueConditions(rule, issues, encoded, clock);
          EvaluatedThen(rule, first, activated, View(), steps, rest);
          steps := steps + rest;
          AllSettled(first.conditions, activated.conditions, rule, issues, encoded, clock);
          RestIsTheSame(first.conditions, activated.conditions, rule, observed, encoded, clock);
          RecoveryOnlyRemoves(first.conditions, activated.conditions, conditions, rule, observed, encoded, clock);
          if recovered {
            EvaluationIsUpToDate(first.conditions, activated.conditions, conditions, rule, observed, encoded, clock,
                                 ActiveScopes(activated.conditions, rule) - MatchingScopes(issues));
          }
          return (if recovered then Ok(true) else Err(())), steps;
        }
        if maximumPages.Some? && pages >= maximumPages.value {
          return Ok(false), steps;
        }
        FullPageMovesTheCursor(issues.Keys, cursor, page);
        cursor := Some(page[|page| - 1]);
      }
    }

    /** The rules that observe everything at once: activate what is observed, recover the rest.
        `observed` is Err when the observation query itself fails. */
    method EvaluateObservations(rule: Rule, observed: Result<Observations, ()>, encoded: Payload -> nat, clock: int)
      returns (ok: bool, ghost steps: seq<Step>)
      requires ValidQuietHours(rule)
      modifies `conditions, `deliveries
      ensures Evaluated(rule, old(View()), View(), steps)
      ensures ok <==> observed.Ok? && old(Evaluable(conditions, rule, observed.value, encoded, clock))
      ensures ok ==> ActiveScopes(conditions, rule) == observed.value.Keys
      ensures ok ==> forall scope :: ScopeIsUpToDate(old(conditions), conditions, rule, observed.value, scope)
      ensures observed.Err? ==> View() == old(View()) && steps == []
      ensures observed.Ok? ==>
                forall scope :: MayBecomeActive(old(conditions), conditions, rule, observed.value, encoded, clock,
                                                scope)
    {
      steps := [];
      if observed.Err? {
        return false, steps;
      }
      ghost var first := View();
      var scopes := ListScopes(observed.value.Keys);
      var done, more := ActivateScopes(rule, scopes, observed.value, encoded, clock);
      steps := more;
      ActivationOnlyAdds(first.conditions, conditions, rule, observed.value, encoded, clock);
      assert done <==> AllActivate(first.conditions, rule, observed.value, encoded, clock);
      if !done {
        return false, steps;
      }
      ghost var activated := View();
      ActiveScopesAreActive(activated.conditions, rule);
      assert observed.value.Keys <= ActiveScopes(activated.conditions, rule);
      ghost var rest;
      ok, rest := RecoverAbsentConditions(rule, observed.value.Keys, encoded, clock);
      EvaluatedThen(rule, first, activated, View(), steps, rest);
      steps := steps + rest;
      RestIsTheSame(first.conditions, activated.conditions, rule, observed.value, encoded, clock);
      RecoveryOnlyRemoves(first.conditions, activated.conditions, conditions, rule, observed.value, encoded, clock);
      if ok {
        EvaluationIsUpToDate(first.conditions, activated.conditions, conditions, rule, observed.value, encoded, clock,
                             ActiveScopes(activated.conditions, rule) - observed.value.Keys);
      }
    }
  }
}
