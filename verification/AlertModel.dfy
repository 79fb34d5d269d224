/**
 The two tables of the alert engine as one state machine.

 `conditions` is `alert_condition_states`, `deliveries` is `alert_deliveries` (keyed by its
 unique constraint), and `issued` is every claim ever handed to a worker. One `Step` is one
 committed transaction; any number of evaluators and workers interleave, and a worker that
 stops simply never takes its `Finish` step.
 */
module AlertModel {
  import opened Common

  const MAX_PAYLOAD_BYTES := 16 * 1024
  const MAX_SCOPE_BYTES := 200
  const DELIVERY_LEASE_SECONDS := 30
  const RETRY_SECONDS := 15
  const DEFAULT_MAX_ATTEMPT := 3
  const I64_MAX := 0x7FFF_FFFF_FFFF_FFFF
  const MINUTES_PER_DAY := 1440

  datatype Rule = Rule(organization: string, project: string, id: string,
                       quietStart: Option<int>, quietEnd: Option<int>)

  datatype ConditionKey = ConditionKey(organization: string, project: string, rule: string, scope: string)

  datatype Kind = Triggered | Recovered

  datatype Payload = Payload(issue: Option<string>, body: string, kind: Option<Kind>, occurredAt: Option<int>)

  datatype Condition = Condition(active: bool, generation: int, payload: Payload)

  datatype DeliveryKey = DeliveryKey(condition: ConditionKey, generation: int, kind: Kind)

  datatype DeliveryState = Pending | Leased | Delivered | Failed | Dead | Suppressed | Unknown

  datatype Delivery = Delivery(payload: Payload, state: DeliveryState, attempt: int, maxAttempt: int,
                               availableAt: int, createdAt: int,
                               leaseToken: Option<nat>, leaseExpiresAt: Option<int>,
                               failureCode: Option<string>, deliveredAt: Option<int>)

  datatype Claim = Claim(key: DeliveryKey, attempt: int, maxAttempt: int, token: nat)

  datatype SendResult = Sent | Retryable(code: string) | Permanent(code: string) | Uncertain(code: string)

  datatype State = State(now: int, conditions: map<ConditionKey, Condition>,
                         deliveries: map<DeliveryKey, Delivery>, issued: set<Claim>)

  /** `encodedBytes` is the length of the payload as serde writes it; `clock` is the
      evaluator's own clock, which only decides the quiet-hours delay. */
  datatype Step =
    | Advance(to: int)
    | Transition(rule: Rule, scope: string, active: bool, payload: Payload, encodedBytes: nat, clock: int)
    | RacedActivation(rule: Rule, scope: string, payload: Payload, clock: int)
    | ExpireFinal(expired: DeliveryKey)
    | Lease(leased: DeliveryKey, token: nat)
    | Finish(claim: Claim, result: SendResult)

  // ---------- quiet hours ----------

  function MinuteOfDay(clock: int): int {
    (clock / 60) % MINUTES_PER_DAY
  }

  predicate InQuietHours(minute: int, start: int, end: int) {
    if start < end then start <= minute < end else minute >= start || minute < end
  }

  function QuietDelaySeconds(clock: int, start: Option<int>, end: Option<int>): int {
    if start.None? || end.None? then 0
    else
      var minute := MinuteOfDay(clock);
      if !InQuietHours(minute, start.value, end.value) then 0
      else
        var minutes := if minute < end.value then end.value - minute
                       else MINUTES_PER_DAY - minute + end.value;
        minutes * 60 - clock % 60
  }

  predicate ValidQuietHours(rule: Rule) {
    match (rule.quietStart, rule.quietEnd)
    case (None, None) => true
    case (Some(start), Some(end)) =>
      0 <= start < MINUTES_PER_DAY && 0 <= end < MINUTES_PER_DAY && start != end
    case _ => false
  }

  // ---------- evaluator ----------

  function KeyOf(rule: Rule, scope: string): ConditionKey {
    ConditionKey(rule.organization, rule.project, rule.id, scope)
  }

  function SaturatingNext(generation: int): int {
    if generation >= I64_MAX then I64_MAX else generation + 1
  }

  function NewDelivery(payload: Payload, suppressed: bool, now: int, delay: int): Delivery {
    Delivery(payload, if suppressed then Suppressed else Pending, 0, DEFAULT_MAX_ATTEMPT,
             now + delay, now, None, None,
             if suppressed then Some("quiet_recovered") else None, None)
  }

  function InsertDelivery(deliveries: map<DeliveryKey, Delivery>, key: DeliveryKey,
                          row: Delivery): map<DeliveryKey, Delivery> {
    if key in deliveries then deliveries else deliveries[key := row]
  }

  /** The row the recovery update matches: the triggered delivery of the previous
      generation, still waiting for its quiet hours to end. */
  predicate SuppressesPair(s: State, key: ConditionKey, generation: int) {
    var trigger := DeliveryKey(key, generation - 1, Triggered);
    trigger in s.deliveries && s.deliveries[trigger].state == Pending && s.deliveries[trigger].availableAt > s.now
  }

  function Suppress(row: Delivery): Delivery {
    row.(state := Suppressed, failureCode := Some("quiet_recovered"))
  }

  function Stamp(payload: Payload, active: bool, clock: int): Payload {
    payload.(kind := Some(if active then Triggered else Recovered), occurredAt := Some(clock))
  }

  predicate ChangesState(s: State, key: ConditionKey, active: bool) {
    if key in s.conditions then s.conditions[key].active != active else active
  }

  predicate TransitionFails(s: State, rule: Rule, scope: string, active: bool, encodedBytes: nat) {
    Utf8Length(scope) == 0 || Utf8Length(scope) > MAX_SCOPE_BYTES ||
    (ChangesState(s, KeyOf(rule, scope), active) && encodedBytes > MAX_PAYLOAD_BYTES)
  }

  function NextGeneration(s: State, key: ConditionKey): int {
    if key in s.conditions then SaturatingNext(s.conditions[key].generation) else 1
  }

  function Move(s: State, rule: Rule, key: ConditionKey, active: bool, generation: int, payload: Payload,
                clock: int): State {
    var stamped := Stamp(payload, active, clock);
    var pair := !active && SuppressesPair(s, key, generation);
    var trigger := DeliveryKey(key, generation - 1, Triggered);
    var settled := if pair then s.deliveries[trigger := Suppress(s.deliveries[trigger])] else s.deliveries;
    var row := NewDelivery(stamped, pair, s.now, QuietDelaySeconds(clock, rule.quietStart, rule.quietEnd));
    s.(conditions := s.conditions[key := Condition(active, generation, stamped)],
       deliveries := InsertDelivery(settled, DeliveryKey(key, generation, if active then Triggered else Recovered),
                                    row))
  }

  function ApplyTransition(s: State, rule: Rule, scope: string, active: bool, payload: Payload, encodedBytes: nat,
                           clock: int): State {
    var key := KeyOf(rule, scope);
    if TransitionFails(s, rule, scope, active, encodedBytes) then s
    else if ChangesState(s, key, active) then Move(s, rule, key, active, NextGeneration(s, key), payload, clock)
    else if key in s.conditions then s.(conditions := s.conditions[key := s.conditions[key].(payload := payload)])
    else s
  }

  // ---------- worker ----------

  predicate Claimable(now: int, row: Delivery) {
    row.attempt < row.maxAttempt &&
    (((row.state == Pending || row.state == Failed) && row.availableAt <= now) ||
     (row.state == Leased && row.leaseExpiresAt.Some? && row.leaseExpiresAt.value <= now))
  }

  predicate FinallyExpired(now: int, row: Delivery) {
    row.state == Leased && row.attempt >= row.maxAttempt &&
    row.leaseExpiresAt.Some? && row.leaseExpiresAt.value <= now
  }

  /** The candidate query of the claim loop. */
  predicate Selectable(now: int, row: Delivery) {
    ((row.state == Pending || row.state == Failed) && row.availableAt <= now && row.attempt < row.maxAttempt) ||
    (row.state == Leased && row.leaseExpiresAt.Some? && row.leaseExpiresAt.value <= now)
  }

  function LeaseRow(row: Delivery, token: nat, now: int): Delivery {
    row.(state := Leased, attempt := row.attempt + 1, leaseToken := Some(token),
         leaseExpiresAt := Some(now + DELIVERY_LEASE_SECONDS), failureCode := None)
  }

  function BuryRow(row: Delivery): Delivery {
    row.(state := Dead, leaseToken := None, leaseExpiresAt := None, failureCode := Some("lease_expired_final"))
  }

  function FinishRow(row: Delivery, claim: Claim, result: SendResult, now: int): Delivery {
    var retries := result.Retryable? && claim.attempt < claim.maxAttempt;
    var cleared := row.(leaseToken := None, leaseExpiresAt := None,
                        availableAt := now + (if retries then claim.attempt * RETRY_SECONDS else 0));
    match result
    case Sent => cleared.(state := Delivered, failureCode := None, deliveredAt := Some(now))
    case Retryable(code) => cleared.(state := if retries then Failed else Dead, failureCode := Some(code))
    case Permanent(code) => cleared.(state := Dead, failureCode := Some(code))
    case Uncertain(code) => cleared.(state := Unknown, failureCode := Some(code))
  }

  predicate HoldsLease(s: State, claim: Claim) {
    claim.key in s.deliveries && s.deliveries[claim.key].state == Leased &&
    s.deliveries[claim.key].leaseToken == Some(claim.token)
  }

  function ApplyLease(s: State, key: DeliveryKey, token: nat): State
    requires key in s.deliveries
  {
    var row := LeaseRow(s.deliveries[key], token, s.now);
    s.(deliveries := s.deliveries[key := row],
       issued := s.issued + {Claim(key, row.attempt, row.maxAttempt, token)})
  }

  function ApplyFinish(s: State, claim: Claim, result: SendResult): State {
    if HoldsLease(s, claim) then
      s.(deliveries := s.deliveries[claim.key := FinishRow(s.deliveries[claim.key], claim, result, s.now)])
    else s
  }

  // ---------- runs ----------

  predicate FreshToken(s: State, token: nat) {
    forall c :: c in s.issued ==> c.token != token
  }

  predicate Enabled(s: State, step: Step) {
    match step
    case Advance(to) => s.now <= to
    case Transition(rule, _, _, _, _, _) => ValidQuietHours(rule)
    case RacedActivation(rule, scope, _, _) =>
      var key := KeyOf(rule, scope);
      ValidQuietHours(rule) && key in s.conditions && s.conditions[key].generation == 1
    case ExpireFinal(key) => key in s.deliveries && FinallyExpired(s.now, s.deliveries[key])
    case Lease(key, token) => key in s.deliveries && Claimable(s.now, s.deliveries[key]) && FreshToken(s, token)
    case Finish(claim, _) => claim in s.issued
  }

  function Apply(s: State, step: Step): State
    requires Enabled(s, step)
  {
    match step
    case Advance(to) => s.(now := to)
    case Transition(rule, scope, active, payload, encodedBytes, clock) =>
      ApplyTransition(s, rule, scope, active, payload, encodedBytes, clock)
    case RacedActivation(rule, scope, payload, clock) => Move(s, rule, KeyOf(rule, scope), true, 1, payload, clock)
    case ExpireFinal(key) => s.(deliveries := s.deliveries[key := BuryRow(s.deliveries[key])])
    case Lease(key, token) => ApplyLease(s, key, token)
    case Finish(claim, result) => ApplyFinish(s, claim, result)
  }

  function Initial(now: int): State {
    State(now, map[], map[], {})
  }

  ghost predicate ValidRun(s: State, steps: seq<Step>)
    decreases |steps|
  {
    steps == [] || (Enabled(s, steps[0]) && ValidRun(Apply(s, steps[0]), steps[1..]))
  }

  ghost function Run(s: State, steps: seq<Step>): State
    requires ValidRun(s, steps)
    decreases |steps|
  {
    if steps == [] then s else Run(Apply(s, steps[0]), steps[1..])
  }

  lemma {:induction false} RunConcat(s: State, a: seq<Step>, b: seq<Step>)
    requires ValidRun(s, a)
    requires ValidRun(Run(s, a), b)
    ensures ValidRun(s, a + b) && Run(s, a + b) == Run(Run(s, a), b)
    decreases |a|
  {
    if a == [] {
      assert a + b == b;
    } else {
      RunConcat(Apply(s, a[0]), a[1..], b);
      assert (a + b)[0] == a[0] && (a + b)[1..] == a[1..] + b;
    }
  }

  lemma RunOfOne(s: State, step: Step)
    requires Enabled(s, step)
    ensures ValidRun(s, [step]) && Run(s, [step]) == Apply(s, step)
  {
    assert [step][0] == step && [step][1..] == [];
    assert ValidRun(Apply(s, step), []) && Run(Apply(s, step), []) == Apply(s, step);
  }
}
