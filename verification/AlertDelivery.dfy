/**
 What the tables show of a delivery: when it may be sent, how long a lease and a retry last, and how it ends.

 Everything here is said about the columns themselves, in seconds and plain states.
 */
module AlertDelivery {
  import opened Common
  import opened AlertModel
  import opened AlertInvariants
  import opened AlertTheorems

  // ---------- quiet hours ----------

  /** Quiet hours go round the clock: the time since they last began is less than they last. */
  predicate Quiet(rule: Rule, at: int) {
    rule.quietStart.Some? && rule.quietEnd.Some?
    && (at - 60 * rule.quietStart.value) % 86_400 < (60 * (rule.quietEnd.value - rule.quietStart.value)) % 86_400
  }

  /** The wait from `clock` until it is not quiet: the least there is. */
  ghost predicate QuietFor(rule: Rule, clock: int, wait: int) {
    0 <= wait && !Quiet(rule, clock + wait) && forall t :: clock <= t < clock + wait ==> Quiet(rule, t)
  }

  lemma QuietForIsUnique(rule: Rule, clock: int, a: int, b: int)
    requires QuietFor(rule, clock, a) && QuietFor(rule, clock, b)
    ensures a == b
  {
    assert a < b ==> Quiet(rule, clock + a);
    assert b < a ==> Quiet(rule, clock + b);
  }

  lemma SecondOfDay(at: int)
    ensures MinuteOfDay(at) == (at % 86_400) / 60
  {
    var day, second := at / 86_400, at % 86_400;
    assert at == 86_400 * day + second;
    assert at / 60 == 1440 * day + second / 60;
  }

  lemma ModuloOfShift(at: int, shift: int)
    requires 0 <= shift < 86_400
    ensures (at - shift) % 86_400 == (at % 86_400) - shift + if at % 86_400 < shift then 86_400 else 0
  {
  }

  lemma QuietIsInQuietHours(rule: Rule, start: int, end: int, at: int)
    requires rule.quietStart == Some(start) && rule.quietEnd == Some(end)
    requires 0 <= start < MINUTES_PER_DAY && 0 <= end < MINUTES_PER_DAY && start != end
    ensures Quiet(rule, at) <==> InQuietHours(MinuteOfDay(at), start, end)
  {
    SecondOfDay(at);
    ModuloOfShift(at, 60 * start);
    var second := at % 86_400;
    assert (60 * (end - start)) % 86_400 == if start < end then 60 * end - 60 * start
                                           else 60 * end - 60 * start + 86_400;
    assert second / 60 >= start <==> second >= 60 * start;
    assert second / 60 < end <==> second < 60 * end;
  }

  /** The delay of a delivery is the wait for the end of quiet hours. */
  lemma DelayIsTheQuietWait(rule: Rule, clock: int)
    requires ValidQuietHours(rule)
    ensures QuietFor(rule, clock, QuietDelaySeconds(clock, rule.quietStart, rule.quietEnd))
  {
    if rule.quietStart.Some? {
      var start, end := rule.quietStart.value, rule.quietEnd.value;
      var delay := QuietDelaySeconds(clock, rule.quietStart, rule.quietEnd);
      QuietDelayEndsQuietHours(clock, start, end);
      QuietIsInQuietHours(rule, start, end, clock + delay);
      forall t | clock <= t < clock + delay ensures Quiet(rule, t) {
        QuietIsInQuietHours(rule, start, end, t);
      }
    }
  }

  // ---------- what an evaluation writes ----------

  /** The evaluation asks for another state than the scope is in; a scope without a row is not active. */
  predicate Changes(before: State, key: ConditionKey, active: bool) {
    active != (key in before.conditions && before.conditions[key].active)
  }

  function NextKey(before: State, key: ConditionKey, active: bool): DeliveryKey {
    DeliveryKey(key, if key in before.conditions then before.conditions[key].generation + 1 else 1,
                if active then Triggered else Recovered)
  }

  /** The delivery of the trigger before still waits for its quiet hours to end. */
  predicate TriggerWaits(before: State, key: ConditionKey) {
    key in before.conditions
    && var trigger := DeliveryKey(key, before.conditions[key].generation, Triggered);
       trigger in before.deliveries && before.deliveries[trigger].state == Pending
       && before.deliveries[trigger].availableAt > before.now
  }

  /** A new row: never tried, to be tried three times, and not before quiet hours are over. */
  ghost predicate NewRow(now: int, rule: Rule, clock: int, payload: Payload, silent: bool, row: Delivery) {
    && row.payload == payload && row.attempt == 0 && row.maxAttempt == 3 && row.createdAt == now
    && row.state == (if silent then Suppressed else Pending)
    && row.failureCode == (if silent then Some("quiet_recovered") else None)
    && row.leaseToken.None? && row.leaseExpiresAt.None? && row.deliveredAt.None?
    && QuietFor(rule, clock, row.availableAt - now)
  }

  ghost predicate ConditionWritten(before: State, after: State, key: ConditionKey, active: bool, payload: Payload) {
    after.conditions == before.conditions[key := Condition(active, NextKey(before, key, active).generation, payload)]
  }

  /** A recovery silences the trigger that waits, and is silent itself; the other rows stay. */
  ghost predicate RowsWritten(before: State, after: State, rule: Rule, key: ConditionKey, active: bool,
                              payload: Payload, clock: int) {
    var added, silent := NextKey(before, key, active), !active && TriggerWaits(before, key);
    && added in after.deliveries && NewRow(before.now, rule, clock, payload, silent, after.deliveries[added])
    && forall d :: d != added ==>
         (d in after.deliveries <==> d in before.deliveries)
         && (d in before.deliveries ==>
             after.deliveries[d] ==
             if silent && d == DeliveryKey(key, before.conditions[key].generation, Triggered)
             then before.deliveries[d].(state := Suppressed, failureCode := Some("quiet_recovered"))
             else before.deliveries[d])
  }

  function Stamped(payload: Payload, active: bool, clock: int): Payload {
    Payload(payload.issue, payload.body, Some(if active then Triggered else Recovered), Some(clock))
  }

  /** The limits of an evaluation: 1 to 200 bytes of scope, and 16 KiB of payload if the state changes. */
  predicate WithinLimits(before: State, rule: Rule, scope: string, active: bool, encodedBytes: nat) {
    1 <= Utf8Length(scope) <= 200
    && (Changes(before, ConditionKey(rule.organization, rule.project, rule.id, scope), active) ==>
          encodedBytes <= 16_384)
  }

  /** What an evaluation leaves behind, whatever the tables were: nothing if it is over a limit, a fresh payload if the
      state stays, and otherwise the new state with its delivery. */
  ghost predicate Evaluates(before: State, after: State, rule: Rule, scope: string, active: bool, payload: Payload,
                            encodedBytes: nat, clock: int) {
    var key := ConditionKey(rule.organization, rule.project, rule.id, scope);
    && before.now == after.now && before.issued == after.issued
    && if !WithinLimits(before, rule, scope, active, encodedBytes) then after == before
       else if !Changes(before, key, active) then
         after.deliveries == before.deliveries
         && after.conditions == if key in before.conditions
                                then before.conditions[key := before.conditions[key].(payload := payload)]
                                else before.conditions
       else
         && (NextKey(before, key, active).generation <= I64_MAX ==>
               ConditionWritten(before, after, key, active, Stamped(payload, active, clock)))
         && (NextKey(before, key, active).generation <= I64_MAX
             && NextKey(before, key, active) !in before.deliveries ==>
               RowsWritten(before, after, rule, key, active, Stamped(payload, active, clock), clock))
  }

  lemma TransitionEvaluates(s: State, rule: Rule, scope: string, active: bool, payload: Payload, encodedBytes: nat,
                            clock: int)
    requires ValidQuietHours(rule)
    ensures Evaluates(s, ApplyTransition(s, rule, scope, active, payload, encodedBytes, clock), rule, scope, active,
                      payload, encodedBytes, clock)
  {
    DelayIsTheQuietWait(rule, clock);
  }

  /** In a reachable state the row of the next generation is always a new one. */
  lemma NextRowIsNew(s: State, key: ConditionKey, active: bool)
    requires ChainOk(s)
    ensures NextKey(s, key, active) !in s.deliveries
  {
    assert NextKey(s, key, active) in s.deliveries ==> Owned(s, NextKey(s, key, active));
  }

  // ---------- when a delivery may be sent ----------

  lemma {:induction false} NowGrows(s: State, steps: seq<Step>)
    requires ValidRun(s, steps)
    ensures s.now <= Run(s, steps).now
    decreases |steps|
  {
    if steps != [] {
      NowGrows(Apply(s, steps[0]), steps[1..]);
    }
  }

  /** Nobody has the row, and it is over or not due before `until`. */
  predicate RestsUntil(row: Delivery, until: int) {
    row.state != Leased && (row.state == Pending || row.state == Failed ==> row.availableAt >= until)
  }

  lemma StepLeavesItResting(s: State, step: Step, key: DeliveryKey, until: int)
    requires Enabled(s, step) && key in s.deliveries && RestsUntil(s.deliveries[key], until) && s.now < until
    ensures key in Apply(s, step).deliveries && RestsUntil(Apply(s, step).deliveries[key], until)
    ensures !(step.Lease? && step.leased == key)
  {
  }

  /** A row that rests is handed to no worker before its time, in any run. */
  lemma {:induction false} NoLeaseBefore(s: State, steps: seq<Step>, key: DeliveryKey, until: int)
    requires ValidRun(s, steps) && key in s.deliveries && RestsUntil(s.deliveries[key], until)
    requires Run(s, steps).now < until
    ensures Leases(steps, key) == 0
    decreases |steps|
  {
    if steps != [] {
      NowGrows(s, steps);
      StepLeavesItResting(s, steps[0], key, until);
      NoLeaseBefore(Apply(s, steps[0]), steps[1..], key, until);
    }
  }

  /** The evaluation commits a change of state, below the ceiling of generations. */
  ghost predicate CommitsChange(s: State, rule: Rule, scope: string, active: bool, encodedBytes: nat) {
    && ValidQuietHours(rule) && WithinLimits(s, rule, scope, active, encodedBytes)
    && var key := ConditionKey(rule.organization, rule.project, rule.id, scope);
       Changes(s, key, active) && NextKey(s, key, active).generation <= I64_MAX
  }

  /** Over every continuation, the delivery of a state change is leased by nobody until it is no longer quiet: the
      wait is zero outside quiet hours, and inside them it ends with them. */
  lemma DeliveriesWaitOutQuietHours(s: State, rule: Rule, scope: string, active: bool, payload: Payload,
                                    encodedBytes: nat, clock: int, wait: int, more: seq<Step>)
    requires Inv(s) && CommitsChange(s, rule, scope, active, encodedBytes) && QuietFor(rule, clock, wait)
    requires ValidRun(ApplyTransition(s, rule, scope, active, payload, encodedBytes, clock), more)
    ensures var t := ApplyTransition(s, rule, scope, active, payload, encodedBytes, clock);
            var d := NextKey(s, ConditionKey(rule.organization, rule.project, rule.id, scope), active);
            && d in t.deliveries && t.deliveries[d].availableAt == s.now + wait
            && (Run(t, more).now < s.now + wait ==> Leases(more, d) == 0)
  {
    var key := ConditionKey(rule.organization, rule.project, rule.id, scope);
    var t := ApplyTransition(s, rule, scope, active, payload, encodedBytes, clock);
    var d := NextKey(s, key, active);
    TransitionEvaluates(s, rule, scope, active, payload, encodedBytes, clock);
    NextRowIsNew(s, key, active);
    QuietForIsUnique(rule, clock, wait, t.deliveries[d].availableAt - s.now);
    if Run(t, more).now < s.now + wait {
      NoLeaseBefore(t, more, d, s.now + wait);
    }
  }

  /** The trigger of generation `g`, due at `due`: untouched until then, unless the scope moves on. */
  ghost predicate TriggerIsKept(s: State, key: ConditionKey, g: int, due: int) {
    var d := DeliveryKey(key, g, Triggered);
    && key in s.conditions && s.conditions[key].generation >= g && d in s.deliveries
    && (s.deliveries[d].state == Pending ==> s.deliveries[d].availableAt == due)
    && (s.conditions[key].generation == g && s.now < due ==> s.deliveries[d].state == Pending)
  }

  lemma StepKeepsTrigger(s: State, step: Step, key: ConditionKey, g: int, due: int)
    requires Enabled(s, step) && TriggerIsKept(s, key, g, due) && 1 <= g < I64_MAX
    ensures TriggerIsKept(Apply(s, step), key, g, due)
  {
  }

  lemma {:induction false} RunKeepsTrigger(s: State, steps: seq<Step>, key: ConditionKey, g: int, due: int)
    requires ValidRun(s, steps) && TriggerIsKept(s, key, g, due) && 1 <= g < I64_MAX
    ensures TriggerIsKept(Run(s, steps), key, g, due)
    decreases |steps|
  {
    if steps != [] {
      StepKeepsTrigger(s, steps[0], key, g, due);
      RunKeepsTrigger(Apply(s, steps[0]), steps[1..], key, g, due);
    }
  }

  /** A scope that recovers before quiet hours let its trigger out is silent about both, and one that recovers later
      reports its recovery. `more` is whatever happened in between, as long as the scope did not move. */
  lemma RecoveryIsSilentExactlyInQuietHours(s: State, rule: Rule, scope: string, payload: Payload, bytes: nat,
                                            clock: int, wait: int, more: seq<Step>, bound: nat,
                                            later: Payload, laterBytes: nat, laterClock: int)
    requires Inv(s) && CommitsChange(s, rule, scope, true, bytes) && QuietFor(rule, clock, wait)
    requires GenerationsAtMost(s, bound) && bound + 1 + |more| < I64_MAX
    requires ValidRun(ApplyTransition(s, rule, scope, true, payload, bytes, clock), more)
    requires var key := ConditionKey(rule.organization, rule.project, rule.id, scope);
             var u := Run(ApplyTransition(s, rule, scope, true, payload, bytes, clock), more);
             key in u.conditions && u.conditions[key].generation == NextKey(s, key, true).generation
             && CommitsChange(u, rule, scope, false, laterBytes)
    ensures var key := ConditionKey(rule.organization, rule.project, rule.id, scope);
            var u := Run(ApplyTransition(s, rule, scope, true, payload, bytes, clock), more);
            var v := ApplyTransition(u, rule, scope, false, later, laterBytes, laterClock);
            var trigger, recovery := NextKey(s, key, true), NextKey(u, key, false);
            && recovery.generation == trigger.generation + 1
            && trigger in v.deliveries && recovery in v.deliveries
            && (v.deliveries[recovery].state == Suppressed <==> u.now < s.now + wait)
            && (u.now < s.now + wait ==> v.deliveries[trigger].state == Suppressed)
  {
    var key := ConditionKey(rule.organization, rule.project, rule.id, scope);
    var t := ApplyTransition(s, rule, scope, true, payload, bytes, clock);
    var g := NextKey(s, key, true).generation;
    DeliveriesWaitOutQuietHours(s, rule, scope, true, payload, bytes, clock, wait, []);
    TransitionEvaluates(s, rule, scope, true, payload, bytes, clock);
    NextRowIsNew(s, key, true);
    assert TriggerIsKept(t, key, g, s.now + wait);
    RunKeepsTrigger(t, more, key, g, s.now + wait);
    var u := Run(t, more);
    StepKeepsInv(s, Transition(rule, scope, true, payload, bytes, clock));
    StepRaisesGenerationsByOne(s, Transition(rule, scope, true, payload, bytes, clock), bound);
    RunKeepsInv(t, more, bound + 1);
    NextRowIsNew(u, key, false);
    TransitionEvaluates(u, rule, scope, false, later, laterBytes, laterClock);
  }

  // ---------- what the workers write ----------

  /** A delivery is due: it waits for its first or next try and has one left, or its lease has run out. */
  predicate IsDue(now: int, row: Delivery) {
    if row.state == Leased then row.leaseExpiresAt.Some? && row.leaseExpiresAt.value <= now
    else (row.state == Pending || row.state == Failed) && row.attempt < row.maxAttempt && row.availableAt <= now
  }

  /** The columns no worker writes. */
  predicate SameRest(before: Delivery, after: Delivery) {
    before.payload == after.payload && before.maxAttempt == after.maxAttempt && before.createdAt == after.createdAt
  }

  /** The lease of its last try ran out. */
  predicate BuriedNow(now: int, before: Delivery, after: Delivery) {
    && before.state == Leased && before.attempt >= before.maxAttempt && IsDue(now, before)
    && after.state == Dead && after.leaseToken == None && after.leaseExpiresAt == None
    && after.failureCode == Some("lease_expired_final")
    && SameRest(before, after) && after.attempt == before.attempt && after.availableAt == before.availableAt
    && after.deliveredAt == before.deliveredAt
  }

  /** A worker has it for thirty seconds under this token. */
  predicate LeasedNow(now: int, before: Delivery, after: Delivery, token: nat) {
    && IsDue(now, before) && before.attempt < before.maxAttempt
    && after.state == Leased && after.leaseToken == Some(token) && after.leaseExpiresAt == Some(now + 30)
    && after.failureCode == None && after.attempt == before.attempt + 1
    && SameRest(before, after) && after.availableAt == before.availableAt && after.deliveredAt == before.deliveredAt
  }

  type Rows = map<DeliveryKey, Delivery>

  /** What a claim call does to a row. */
  predicate RowClaimed(now: int, before: Rows, after: Rows, locked: set<DeliveryKey>, token: nat, claim: Option<Claim>,
                       key: DeliveryKey) {
    && (key in after <==> key in before)
    && (key in before ==>
          if claim.Some? && claim.value.key == key then
            key !in locked && LeasedNow(now, before[key], after[key], token)
            && claim.value == Claim(key, before[key].attempt + 1, before[key].maxAttempt, token)
          else
            after[key] == before[key] || (key !in locked && BuriedNow(now, before[key], after[key])))
  }

  /** A claim call leases at most one row, the one that has been due longest, and otherwise only buries. It comes back
      empty when nothing is due that others have not locked. */
  ghost predicate Claimed(now: int, before: Rows, after: Rows, locked: set<DeliveryKey>, token: nat,
                          claim: Option<Claim>) {
    && (forall key :: RowClaimed(now, before, after, locked, token, claim, key))
    && (claim.Some? ==> claim.value.key in before)
    && forall key :: key in before && key in after && key !in locked && IsDue(now, after[key]) ==>
         claim.Some?
         && (before[claim.value.key].availableAt < before[key].availableAt
             || (before[claim.value.key].availableAt == before[key].availableAt
                 && before[claim.value.key].createdAt <= before[key].createdAt))
  }

  /** What a report writes, if its lease is still there. */
  predicate ReportWritten(now: int, before: Delivery, after: Delivery, claim: Claim, result: SendResult) {
    var again := result.Retryable? && claim.attempt < claim.maxAttempt;
    && SameRest(before, after) && after.attempt == before.attempt
    && after.leaseToken == None && after.leaseExpiresAt == None
    && after.availableAt == now + (if again then 15 * claim.attempt else 0)
    && after.deliveredAt == (if result.Sent? then Some(now) else before.deliveredAt)
    && match result
       case Sent => after.state == Delivered && after.failureCode == None
       case Retryable(code) => after.state == (if again then Failed else Dead) && after.failureCode == Some(code)
       case Permanent(code) => after.state == Dead && after.failureCode == Some(code)
       case Uncertain(code) => after.state == Unknown && after.failureCode == Some(code)
  }

  // ---------- how long a lease and a retry last ----------

  /** The worker that took this lease reports its outcome. */
  predicate ReportsLease(step: Step, key: DeliveryKey, token: nat) {
    step.Finish? && step.claim.key == key && step.claim.token == token
  }

  predicate LeasedUntil(row: Delivery, token: nat, until: int) {
    row.state == Leased && row.leaseToken == Some(token) && row.leaseExpiresAt == Some(until)
  }

  lemma StepKeepsLease(s: State, step: Step, key: DeliveryKey, token: nat, until: int)
    requires Enabled(s, step) && key in s.deliveries && LeasedUntil(s.deliveries[key], token, until) && s.now < until
    requires !ReportsLease(step, key, token)
    ensures key in Apply(s, step).deliveries && Apply(s, step).deliveries[key] == s.deliveries[key]
    ensures !(step.Lease? && step.leased == key)
  {
  }

  lemma {:induction false} LeaseLasts(s: State, steps: seq<Step>, key: DeliveryKey, token: nat, until: int)
    requires ValidRun(s, steps) && key in s.deliveries && LeasedUntil(s.deliveries[key], token, until)
    requires Run(s, steps).now < until && forall step :: step in steps ==> !ReportsLease(step, key, token)
    ensures Leases(steps, key) == 0
    ensures key in Run(s, steps).deliveries && Run(s, steps).deliveries[key] == s.deliveries[key]
    decreases |steps|
  {
    if steps != [] {
      NowGrows(s, steps);
      StepKeepsLease(s, steps[0], key, token, until);
      LeaseLasts(Apply(s, steps[0]), steps[1..], key, token, until);
    }
  }

  /** A lease is exclusive for thirty seconds: until then, or until its worker reports, no run hands the delivery to
      another worker or touches it. After thirty seconds it is due again. */
  lemma LeasesLastThirtySeconds(s: State, key: DeliveryKey, token: nat, more: seq<Step>)
    requires Enabled(s, Lease(key, token)) && ValidRun(Apply(s, Lease(key, token)), more)
    requires forall step :: step in more ==> !ReportsLease(step, key, token)
    ensures var t := Apply(s, Lease(key, token));
            && t.deliveries[key].attempt == s.deliveries[key].attempt + 1
            && (Run(t, more).now < s.now + 30 ==> Leases(more, key) == 0 && key in Run(t, more).deliveries
                                                  && Run(t, more).deliveries[key] == t.deliveries[key])
            && Selectable(s.now + 30, t.deliveries[key])
  {
    var t := Apply(s, Lease(key, token));
    if Run(t, more).now < s.now + 30 {
      LeaseLasts(t, more, key, token, s.now + 30);
    }
  }

  /** A delivery that failed for the n-th time, and may be tried again, is tried again by nobody for 15 n seconds,
      and can be tried then. */
  lemma RetriesWait(s: State, claim: Claim, code: string, more: seq<Step>)
    requires Inv(s) && claim in s.issued && HoldsLease(s, claim) && claim.attempt < claim.maxAttempt
    requires ValidRun(Apply(s, Finish(claim, Retryable(code))), more)
    ensures var t := Apply(s, Finish(claim, Retryable(code)));
            && t.deliveries[claim.key].state == Failed && t.deliveries[claim.key].failureCode == Some(code)
            && claim.attempt == s.deliveries[claim.key].attempt
            && (Run(t, more).now < s.now + 15 * claim.attempt ==> Leases(more, claim.key) == 0)
            && Claimable(s.now + 15 * claim.attempt, t.deliveries[claim.key])
  {
    OnlyTheLatestClaimHoldsTheLease(s, claim);
    assert ClaimFits(s, claim);
    var t := Apply(s, Finish(claim, Retryable(code)));
    if Run(t, more).now < s.now + 15 * claim.attempt {
      NoLeaseBefore(t, more, claim.key, s.now + 15 * claim.attempt);
    }
  }

  // ---------- how a delivery ends ----------

  /** The report of the newest claim of the row, while it still has the lease. */
  predicate LiveReport(s: State, step: Step, key: DeliveryKey) {
    step.Finish? && step.claim.key == key && key in s.deliveries && s.deliveries[key].state == Leased
    && s.deliveries[key].leaseToken == Some(step.claim.token) && s.deliveries[key].attempt == step.claim.attempt
  }

  /** How a step ends the delivery, if it does. */
  predicate EndsAs(s: State, step: Step, key: DeliveryKey, state: DeliveryState) {
    match state
    case Delivered => LiveReport(s, step, key) && step.result.Sent?
    case Unknown => LiveReport(s, step, key) && step.result.Uncertain?
    case Dead =>
      (LiveReport(s, step, key)
       && (step.result.Permanent? || (step.result.Retryable? && step.claim.attempt >= step.claim.maxAttempt)))
      || (step.ExpireFinal? && step.expired == key)
    case _ => false
  }

  ghost predicate EndedAs(s: State, steps: seq<Step>, key: DeliveryKey, state: DeliveryState)
    requires ValidRun(s, steps)
    decreases |steps|
  {
    steps != [] && (EndsAs(s, steps[0], key, state) || EndedAs(Apply(s, steps[0]), steps[1..], key, state))
  }

  predicate IsIn(s: State, key: DeliveryKey, state: DeliveryState) {
    key in s.deliveries && s.deliveries[key].state == state
  }

  lemma EvaluationsEndNothing(s: State, step: Step, key: DeliveryKey, state: DeliveryState)
    requires Enabled(s, step) && (step.Transition? || step.RacedActivation?)
    requires state == Delivered || state == Dead || state == Unknown
    ensures IsIn(Apply(s, step), key, state) <==> IsIn(s, key, state)
  {
  }

  lemma ReportEndsAs(s: State, step: Step, key: DeliveryKey, state: DeliveryState)
    requires ClaimsOk(s) && Enabled(s, step) && step.Finish?
    requires state == Delivered || state == Dead || state == Unknown
    ensures IsIn(Apply(s, step), key, state) <==> IsIn(s, key, state) || EndsAs(s, step, key, state)
  {
    if HoldsLease(s, step.claim) {
      OnlyTheLatestClaimHoldsTheLease(s, step.claim);
    }
  }

  lemma WorkEndsAs(s: State, step: Step, key: DeliveryKey, state: DeliveryState)
    requires Enabled(s, step) && (step.Advance? || step.Lease? || step.ExpireFinal?)
    requires state == Delivered || state == Dead || state == Unknown
    ensures IsIn(Apply(s, step), key, state) <==> IsIn(s, key, state) || EndsAs(s, step, key, state)
  {
  }

  lemma StepEndsAs(s: State, step: Step, key: DeliveryKey, state: DeliveryState)
    requires Inv(s) && Enabled(s, step) && (state == Delivered || state == Dead || state == Unknown)
    ensures IsIn(Apply(s, step), key, state) <==> IsIn(s, key, state) || EndsAs(s, step, key, state)
  {
    if step.Finish? {
      ReportEndsAs(s, step, key, state);
    } else if step.Transition? || step.RacedActivation? {
      EvaluationsEndNothing(s, step, key, state);
    } else {
      WorkEndsAs(s, step, key, state);
    }
  }

  lemma {:induction false} EndsOnlyByAStep(s: State, steps: seq<Step>, key: DeliveryKey, state: DeliveryState,
                                           bound: nat)
    requires Inv(s) && ValidRun(s, steps) && GenerationsAtMost(s, bound) && bound + |steps| < I64_MAX
    requires state == Delivered || state == Dead || state == Unknown
    ensures IsIn(Run(s, steps), key, state) <==> IsIn(s, key, state) || EndedAs(s, steps, key, state)
    decreases |steps|
  {
    if steps != [] {
      StepEndsAs(s, steps[0], key, state);
      StepKeepsInv(s, steps[0]);
      StepRaisesGenerationsByOne(s, steps[0], bound);
      EndsOnlyByAStep(Apply(s, steps[0]), steps[1..], key, state, bound + 1);
    }
  }

  /** Over every run from empty tables a delivery is recorded as delivered exactly if its newest claim reported, under
      its lease, that it was sent; as unknown exactly if it reported that it cannot tell; and as dead exactly if it
      reported a final failure or its last lease ran out. */
  lemma DeliveriesEndAsReported(now: int, steps: seq<Step>, key: DeliveryKey, state: DeliveryState)
    requires ValidRun(Initial(now), steps) && |steps| < I64_MAX
    requires state == Delivered || state == Dead || state == Unknown
    ensures IsIn(Run(Initial(now), steps), key, state) <==> EndedAs(Initial(now), steps, key, state)
  {
    EndsOnlyByAStep(Initial(now), steps, key, state, 0);
  }
}
