/** The promises of the alert engine, each over every run of any number of evaluators and workers. */
module AlertTheorems {
  import opened Common
  import opened AlertModel
  import opened AlertInvariants

  // ---------- conditions and generations ----------

  lemma RunOfTwo(s: State, first: Step, second: Step)
    requires Enabled(s, first) && Enabled(Apply(s, first), second)
    ensures ValidRun(s, [first, second]) && Run(s, [first, second]) == Apply(Apply(s, first), second)
  {
    RunOfOne(s, first);
    RunOfOne(Apply(s, first), second);
    RunConcat(s, [first], [second]);
    assert [first, second] == [first] + [second];
  }

  /** A scope is active exactly at odd generations, and its deliveries are exactly
      triggered 1, recovered 2, triggered 3, ... up to its generation. */
  lemma ScopeHistory(now: int, steps: seq<Step>, key: ConditionKey)
    requires ValidRun(Initial(now), steps) && |steps| < I64_MAX
    ensures var s := Run(Initial(now), steps);
            key in s.conditions ==>
              (s.conditions[key].active <==> s.conditions[key].generation % 2 == 1)
              && forall d: DeliveryKey :: d.condition == key ==>
                   (d in s.deliveries <==>
                    1 <= d.generation <= s.conditions[key].generation
                    && d.kind == if d.generation % 2 == 1 then Triggered else Recovered)
  {
    var s := Run(Initial(now), steps);
    ReachableStatesAreGood(now, steps);
    if key in s.conditions {
      assert GenerationOk(s.conditions[key]);
      forall d: DeliveryKey | d.condition == key
        ensures d in s.deliveries <==>
                1 <= d.generation <= s.conditions[key].generation && d.kind == KindOf(d.generation)
      {
        if 1 <= d.generation <= s.conditions[key].generation && d.kind == KindOf(d.generation) {
          assert HasRow(s, key, d.generation);
          assert d == RowKey(key, d.generation);
        } else {
          assert !Owned(s, d);
        }
      }
    }
  }

  /** Evaluators that all read "no row" and then all activate: whoever commits first decides
      the one delivery, and the scope is at generation 1. */
  function RaceAll(s: State, rule: Rule, key: ConditionKey, racers: seq<(Payload, int)>): State
    decreases |racers|
  {
    if racers == [] then s
    else RaceAll(Move(s, rule, key, true, 1, racers[0].0, racers[0].1), rule, key, racers[1..])
  }

  lemma {:induction false} LaterRacersAddNothing(s: State, rule: Rule, key: ConditionKey, racers: seq<(Payload, int)>)
    requires Inv(s) && key in s.conditions && s.conditions[key].generation == 1
    ensures var t := RaceAll(s, rule, key, racers);
            Inv(t) && t.deliveries == s.deliveries && key in t.conditions
            && t.conditions[key].active && t.conditions[key].generation == 1
    decreases |racers|
  {
    assert GenerationOk(s.conditions[key]);
    if racers != [] {
      RacedActivationKeepsInv(s, rule, key, racers[0].0, racers[0].1);
      LaterRacersAddNothing(Move(s, rule, key, true, 1, racers[0].0, racers[0].1), rule, key, racers[1..]);
    }
  }

  lemma {:induction false} RacingFirstActivations(s: State, rule: Rule, scope: string, racers: seq<(Payload, int)>)
    requires Inv(s) && KeyOf(rule, scope) !in s.conditions && racers != []
    ensures var key := KeyOf(rule, scope);
            var t := RaceAll(s, rule, key, racers);
            Inv(t) && key in t.conditions && t.conditions[key].active && t.conditions[key].generation == 1
            && t.deliveries == Move(s, rule, key, true, 1, racers[0].0, racers[0].1).deliveries
            && t.deliveries.Keys == s.deliveries.Keys + {RowKey(key, 1)}
  {
    var key := KeyOf(rule, scope);
    var first := Move(s, rule, key, true, 1, racers[0].0, racers[0].1);
    MoveKeepsClaims(s, rule, key, true, 1, racers[0].0, racers[0].1);
    MoveKeepsChain(s, rule, key, true, racers[0].0, racers[0].1);
    MoveKeepsPairs(s, rule, key, true, racers[0].0, racers[0].1);
    LaterRacersAddNothing(first, rule, key, racers[1..]);
  }

  /** The exact limit of the race: an activation based on a stale "no row" read keeps the
      tables consistent if and only if the scope is still at its first generation. */
  lemma StaleActivationExactly(s: State, rule: Rule, key: ConditionKey, payload: Payload, clock: int)
    requires Inv(s) && key in s.conditions
    ensures Inv(Move(s, rule, key, true, 1, payload, clock)) <==> s.conditions[key].generation == 1
  {
    var t := Move(s, rule, key, true, 1, payload, clock);
    assert GenerationOk(s.conditions[key]);
    if s.conditions[key].generation == 1 {
      RacedActivationKeepsInv(s, rule, key, payload, clock);
    } else {
      assert HasRow(s, key, 2);
      assert RowKey(key, 2) in t.deliveries && !Owned(t, RowKey(key, 2));
    }
  }

  /** An input that breaks it: a scope that was triggered and has recovered, and then an evaluator that still
      believes there is no row. */
  lemma StaleActivationBreaksTheTables(rule: Rule, payload: Payload) returns (steps: seq<Step>)
    requires ValidQuietHours(rule)
    ensures ValidRun(Initial(0), steps)
    ensures var s := Run(Initial(0), steps);
            var key := KeyOf(rule, "s");
            key in s.conditions && s.conditions[key].generation == 2 && Inv(s)
            && !Inv(Move(s, rule, key, true, 1, payload, 0))
  {
    var key := KeyOf(rule, "s");
    assert Utf8Length("s") == 1 by {
      assert "s"[1..] == "";
    }
    var up, down := Transition(rule, "s", true, payload, 0, 0), Transition(rule, "s", false, payload, 0, 0);
    RunOfTwo(Initial(0), up, down);
    steps := [up, down];
    ReachableStatesAreGood(0, steps);
    StaleActivationExactly(Run(Initial(0), steps), rule, key, payload, 0);
  }

  // ---------- what a stale activation costs ----------

  function RowsOf(s: State, key: ConditionKey): set<DeliveryKey> {
    set d | d in s.deliveries && d.condition == key
  }

  /** The rows of a scope that has started over, up to generation `g`, are all there already. */
  ghost predicate StartedOver(s: State, key: ConditionKey, g: int, rows: set<DeliveryKey>) {
    && key in s.conditions && GenerationOk(s.conditions[key])
    && (s.conditions[key].generation <= g ==> rows == RowsOf(s, key))
    && (forall n :: 1 <= n <= g ==> HasRow(s, key, n))
  }

  function GenerationOf(s: State, key: ConditionKey): int {
    if key in s.conditions then s.conditions[key].generation else 0
  }

  lemma StepAfterStartingOver(s: State, step: Step, key: ConditionKey, g: int, rows: set<DeliveryKey>)
    requires StartedOver(s, key, g, rows) && g < I64_MAX && Enabled(s, step)
    requires GenerationOf(s, key) < I64_MAX
    ensures StartedOver(Apply(s, step), key, g, rows)
    ensures GenerationOf(s, key) <= GenerationOf(Apply(s, step), key) <= GenerationOf(s, key) + 1
  {
    var t := Apply(s, step);
    forall n | 1 <= n <= g ensures HasRow(t, key, n) {
      assert HasRow(s, key, n);
    }
    if GenerationOf(t, key) <= g {
      assert HasRow(s, key, GenerationOf(t, key));
      forall d: DeliveryKey | d.condition == key ensures d in t.deliveries <==> d in s.deliveries {
      }
      assert RowsOf(t, key) == RowsOf(s, key);
    }
  }

  lemma {:induction false} RunAfterStartingOver(s: State, steps: seq<Step>, key: ConditionKey, g: int,
                                                rows: set<DeliveryKey>)
    requires ValidRun(s, steps) && StartedOver(s, key, g, rows) && g < I64_MAX
    requires GenerationOf(s, key) + |steps| < I64_MAX
    ensures StartedOver(Run(s, steps), key, g, rows)
    ensures GenerationOf(s, key) <= GenerationOf(Run(s, steps), key) <= GenerationOf(s, key) + |steps|
    decreases |steps|
  {
    if steps != [] {
      StepAfterStartingOver(s, steps[0], key, g, rows);
      RunAfterStartingOver(Apply(s, steps[0]), steps[1..], key, g, rows);
    }
  }

  /** An activation on a stale "no row" read sends a scope at generation g back to 1, and from then on every trigger
      and every recovery is silent until the scope has passed g again: no run creates a delivery for it before. */
  lemma StaleActivationSilencesTheScope(s: State, rule: Rule, key: ConditionKey, payload: Payload, clock: int,
                                        steps: seq<Step>)
    requires Inv(s) && key in s.conditions && s.conditions[key].generation < I64_MAX && |steps| < I64_MAX - 1
    requires ValidRun(Move(s, rule, key, true, 1, payload, clock), steps)
    ensures var t := Run(Move(s, rule, key, true, 1, payload, clock), steps);
            key in t.conditions && 1 <= t.conditions[key].generation
            && (t.conditions[key].generation <= s.conditions[key].generation ==> RowsOf(t, key) == RowsOf(s, key))
            && (|steps| < s.conditions[key].generation ==> RowsOf(t, key) == RowsOf(s, key))
  {
    var g := s.conditions[key].generation;
    var t := Move(s, rule, key, true, 1, payload, clock);
    assert GenerationOk(s.conditions[key]) && HasRow(s, key, 1);
    forall n | 1 <= n <= g ensures HasRow(t, key, n) {
      assert HasRow(s, key, n);
    }
    assert RowsOf(t, key) == RowsOf(s, key);
    RunAfterStartingOver(t, steps, key, g, RowsOf(s, key));
  }

  // ---------- leases ----------

  function AttemptOf(s: State, key: DeliveryKey): int {
    if key in s.deliveries then s.deliveries[key].attempt else 0
  }

  /** How often a run hands the delivery `key` to a worker. */
  function Leases(steps: seq<Step>, key: DeliveryKey): nat {
    if steps == [] then 0
    else (if steps[0].Lease? && steps[0].leased == key then 1 else 0) + Leases(steps[1..], key)
  }

  lemma {:induction false} LeasesConcat(a: seq<Step>, b: seq<Step>, key: DeliveryKey)
    ensures Leases(a + b, key) == Leases(a, key) + Leases(b, key)
  {
    if a == [] {
      assert a + b == b;
    } else {
      assert (a + b)[1..] == a[1..] + b;
      LeasesConcat(a[1..], b, key);
    }
  }

  lemma {:induction false} AttemptCountsLeases(s: State, steps: seq<Step>, key: DeliveryKey)
    requires ValidRun(s, steps)
    ensures AttemptOf(Run(s, steps), key) == AttemptOf(s, key) + Leases(steps, key)
    decreases |steps|
  {
    if steps != [] {
      AttemptCountsLeases(Apply(s, steps[0]), steps[1..], key);
    }
  }

  /** No delivery is handed out more than max_attempt times, and a suppressed one never is. */
  lemma LeasesAreBounded(now: int, steps: seq<Step>, key: DeliveryKey)
    requires ValidRun(Initial(now), steps) && |steps| < I64_MAX
    ensures var s := Run(Initial(now), steps);
            key in s.deliveries ==>
              Leases(steps, key) == s.deliveries[key].attempt <= s.deliveries[key].maxAttempt
              && |ClaimsOf(s.issued, key)| == s.deliveries[key].attempt
              && (s.deliveries[key].state == Leased <==> s.deliveries[key].leaseToken.Some?)
              && (s.deliveries[key].state == Suppressed ==> Leases(steps, key) == 0)
  {
    var s := Run(Initial(now), steps);
    ReachableStatesAreGood(now, steps);
    AttemptCountsLeases(Initial(now), steps, key);
    if key in s.deliveries {
      assert RowOk(s.deliveries[key]) && CountOk(s, key);
    }
  }

  /** A finish changes the tables exactly when its claim is the row's latest and the lease is
      still held; every other finish, however late, changes nothing. */
  lemma FinishTakesEffectExactlyForTheLatestClaim(s: State, claim: Claim, result: SendResult)
    requires Inv(s) && claim in s.issued
    ensures claim.key in s.deliveries
    ensures Apply(s, Finish(claim, result)) != s <==>
              s.deliveries[claim.key].state == Leased && claim.attempt == s.deliveries[claim.key].attempt
    ensures Apply(s, Finish(claim, result)) != s ==>
              Apply(s, Finish(claim, result)).deliveries[claim.key].state ==
                (match result
                 case Sent => Delivered
                 case Retryable(_) => if claim.attempt < claim.maxAttempt then Failed else Dead
                 case Permanent(_) => Dead
                 case Uncertain(_) => Unknown)
  {
    assert ClaimFits(s, claim) && LeaseIsIssued(s, claim.key) && RowOk(s.deliveries[claim.key]);
    if HoldsLease(s, claim) {
      OnlyTheLatestClaimHoldsTheLease(s, claim);
      assert Apply(s, Finish(claim, result)).deliveries[claim.key].state != Leased;
    }
  }

  lemma TerminalRowsStay(s: State, step: Step, key: DeliveryKey)
    requires Enabled(s, step) && key in s.deliveries && Terminal(s.deliveries[key])
    ensures key in Apply(s, step).deliveries && Apply(s, step).deliveries[key] == s.deliveries[key]
  {
  }

  /** Delivered, dead, unknown and suppressed are final: no continuation of any run touches the row. */
  lemma {:induction false} TerminalRowsAreFinal(s: State, steps: seq<Step>, key: DeliveryKey)
    requires ValidRun(s, steps) && key in s.deliveries && Terminal(s.deliveries[key])
    ensures key in Run(s, steps).deliveries && Run(s, steps).deliveries[key] == s.deliveries[key]
    ensures Leases(steps, key) == 0
    decreases |steps|
  {
    if steps != [] {
      TerminalRowsStay(s, steps[0], key);
      TerminalRowsAreFinal(Apply(s, steps[0]), steps[1..], key);
    }
  }

  /** The recovery of generation g+1 is suppressed exactly when the trigger of generation g is,
      and then neither was sent before nor will be sent in any continuation. */
  lemma SuppressedPairsAreNeverSent(now: int, steps: seq<Step>, more: seq<Step>, key: ConditionKey, g: int)
    requires ValidRun(Initial(now), steps) && |steps| < I64_MAX
    requires ValidRun(Run(Initial(now), steps), more)
    requires g % 2 == 1 && DeliveryKey(key, g + 1, Recovered) in Run(Initial(now), steps).deliveries
    ensures var s := Run(Initial(now), steps);
            var trigger := DeliveryKey(key, g, Triggered);
            var recovery := DeliveryKey(key, g + 1, Recovered);
            trigger in s.deliveries
            && (s.deliveries[recovery].state == Suppressed <==> s.deliveries[trigger].state == Suppressed)
            && (s.deliveries[recovery].state == Suppressed ==>
                  Leases(steps + more, trigger) == 0 && Leases(steps + more, recovery) == 0)
  {
    var s := Run(Initial(now), steps);
    var trigger := DeliveryKey(key, g, Triggered);
    var recovery := DeliveryKey(key, g + 1, Recovered);
    ReachableStatesAreGood(now, steps);
    assert Owned(s, recovery);
    assert recovery == RowKey(key, g + 1) && trigger == RowKey(key, g);
    assert HasRow(s, key, g) && HasRow(s, key, g + 1) && PairAgrees(s, key, g + 1);
    if s.deliveries[recovery].state == Suppressed {
      LeasesAreBounded(now, steps, trigger);
      LeasesAreBounded(now, steps, recovery);
      TerminalRowsAreFinal(s, more, trigger);
      TerminalRowsAreFinal(s, more, recovery);
      LeasesConcat(steps, more, trigger);
      LeasesConcat(steps, more, recovery);
    }
  }

  // ---------- progress ----------

  /** What a row can still cost: two per attempt left, one for a lease that is out. */
  function Rank(row: Delivery): int {
    if Terminal(row) then 0
    else 2 * (row.maxAttempt - row.attempt) + if row.state == Leased then 1 else 0
  }

  function RankOf(s: State, key: DeliveryKey): int {
    if key in s.deliveries then Rank(s.deliveries[key]) else 2 * DEFAULT_MAX_ATTEMPT
  }

  /** A committed worker transaction that changes the row `key`. */
  predicate Works(s: State, step: Step, key: DeliveryKey) {
    match step
    case Lease(leased, _) => leased == key
    case ExpireFinal(expired) => expired == key
    case Finish(claim, _) => claim.key == key && HoldsLease(s, claim)
    case _ => false
  }

  lemma FinishLowersRank(s: State, claim: Claim, result: SendResult, key: DeliveryKey)
    requires RowsOk(s) && ClaimsOk(s) && claim in s.issued
    ensures RankOf(ApplyFinish(s, claim, result), key) <=
            RankOf(s, key) - if claim.key == key && HoldsLease(s, claim) then 1 else 0
  {
    if HoldsLease(s, claim) {
      OnlyTheLatestClaimHoldsTheLease(s, claim);
      assert ClaimFits(s, claim) && RowOk(s.deliveries[claim.key]);
    }
  }

  lemma MoveNeverRaisesRank(s: State, rule: Rule, at: ConditionKey, active: bool, generation: int, payload: Payload,
                            clock: int, key: DeliveryKey)
    requires RowsOk(s)
    ensures RankOf(Move(s, rule, at, active, generation, payload, clock), key) <= RankOf(s, key)
  {
    if key in s.deliveries {
      assert RowOk(s.deliveries[key]);
    }
  }

  /** Claiming, finishing and expiring lower the rank of their row; nothing ever raises a rank. */
  lemma WorkLowersRank(s: State, step: Step, key: DeliveryKey)
    requires RowsOk(s) && ClaimsOk(s) && Enabled(s, step)
    ensures RankOf(Apply(s, step), key) <= RankOf(s, key) - if Works(s, step, key) then 1 else 0
  {
    match step
    case Advance(_) =>
    case Transition(rule, scope, active, payload, _, clock) =>
      var at := KeyOf(rule, scope);
      MoveNeverRaisesRank(s, rule, at, active, NextGeneration(s, at), payload, clock, key);
    case RacedActivation(rule, scope, payload, clock) =>
      MoveNeverRaisesRank(s, rule, KeyOf(rule, scope), true, 1, payload, clock, key);
    case ExpireFinal(expired) => assert RowOk(s.deliveries[expired]);
    case Lease(leased, _) => assert RowOk(s.deliveries[leased]);
    case Finish(claim, result) => FinishLowersRank(s, claim, result, key);
  }

  ghost function WorkDone(s: State, steps: seq<Step>, key: DeliveryKey): nat
    requires ValidRun(s, steps)
    decreases |steps|
  {
    if steps == [] then 0
    else (if Works(s, steps[0], key) then 1 else 0) + WorkDone(Apply(s, steps[0]), steps[1..], key)
  }

  lemma RankIsNatural(s: State, key: DeliveryKey)
    requires RowsOk(s)
    ensures 0 <= RankOf(s, key)
  {
    if key in s.deliveries {
      assert RowOk(s.deliveries[key]);
    }
  }

  /** In any run, workers commit at most two transactions per allowed attempt on one delivery. */
  lemma {:induction false} WorkIsBounded(s: State, steps: seq<Step>, key: DeliveryKey, bound: nat)
    requires ValidRun(s, steps) && Inv(s) && GenerationsAtMost(s, bound) && bound + |steps| < I64_MAX
    ensures WorkDone(s, steps, key) + RankOf(Run(s, steps), key) <= RankOf(s, key)
    ensures 0 <= RankOf(Run(s, steps), key)
    decreases |steps|
  {
    if steps == [] {
      RankIsNatural(s, key);
    } else {
      WorkLowersRank(s, steps[0], key);
      StepKeepsInv(s, steps[0]);
      StepRaisesGenerationsByOne(s, steps[0], bound);
      WorkIsBounded(Apply(s, steps[0]), steps[1..], key, bound + 1);
    }
  }

  /** The row a candidate query selects is always one its locked update matches. */
  lemma SelectedRowIsAlwaysUpdated(now: int, row: Delivery)
    requires RowOk(row)
    ensures Selectable(now, row) <==> Claimable(now, row) || FinallyExpired(now, row)
    ensures !(Claimable(now, row) && FinallyExpired(now, row))
  {
  }

  function WakeTime(row: Delivery): int {
    if row.state == Leased && row.leaseExpiresAt.Some? then row.leaseExpiresAt.value else row.availableAt
  }

  /** Exactly the unfinished rows become selectable, and they do so at their wake time. */
  lemma UnfinishedRowsWakeUp(now: int, row: Delivery)
    requires RowOk(row)
    ensures Selectable(now, row) <==> !Terminal(row) && WakeTime(row) <= now
  {
  }

  lemma FreshTokenExists(issued: set<Claim>) returns (token: nat)
    ensures forall c :: c in issued ==> c.token < token
  {
    if issued == {} {
      token := 0;
    } else {
      var c :| c in issued;
      var rest := FreshTokenExists(issued - {c});
      token := if rest <= c.token then c.token + 1 else rest;
    }
  }

  /** Waiting until an unfinished row is due and then taking the one step the claim loop takes. */
  lemma TakeDueRow(s: State, key: DeliveryKey) returns (wait: Step, work: Step)
    requires Inv(s) && key in s.deliveries && !Terminal(s.deliveries[key])
    ensures wait.Advance? && (work.ExpireFinal? || work.Lease?)
    ensures ValidRun(s, [wait, work]) && Inv(Run(s, [wait, work])) && key in Run(s, [wait, work]).deliveries
    ensures RankOf(Run(s, [wait, work]), key) < RankOf(s, key)
  {
    var row := s.deliveries[key];
    var due := if WakeTime(row) > s.now then WakeTime(row) else s.now;
    wait := Advance(due);
    var awake := Apply(s, wait);
    UnrelatedChangeKeepsInv(s, awake);
    assert RowOk(row);
    UnfinishedRowsWakeUp(due, row);
    SelectedRowIsAlwaysUpdated(due, row);
    if FinallyExpired(due, row) {
      work := ExpireFinal(key);
      UnleasedWriteKeepsInv(awake, key, BuryRow(row));
    } else {
      var token := FreshTokenExists(awake.issued);
      work := Lease(key, token);
      LeaseKeepsInv(awake, key, token);
    }
    RunOfTwo(s, wait, work);
    WorkLowersRank(awake, work, key);
  }

  /** From any good state every delivery can be brought to a final state, even if every worker
      dies right after claiming: waiting, re-leasing and burying are enough. */
  lemma {:induction false} EveryDeliveryCanSettle(s: State, key: DeliveryKey) returns (steps: seq<Step>)
    requires Inv(s) && key in s.deliveries
    ensures ValidRun(s, steps) && key in Run(s, steps).deliveries && Terminal(Run(s, steps).deliveries[key])
    ensures forall step :: step in steps ==> step.Advance? || step.ExpireFinal? || step.Lease?
    decreases RankOf(s, key)
  {
    if Terminal(s.deliveries[key]) {
      return [];
    }
    var wait, work := TakeDueRow(s, key);
    RankIsNatural(s, key);
    var rest := EveryDeliveryCanSettle(Run(s, [wait, work]), key);
    steps := [wait, work] + rest;
    RunConcat(s, [wait, work], rest);
  }

  // ---------- quiet hours ----------

  lemma MinuteAfter(clock: int, wait: int)
    requires 0 <= wait <= 86400
    ensures var passed := (clock % 60 + wait) / 60;
            var minute := MinuteOfDay(clock);
            0 <= passed <= MINUTES_PER_DAY
            && MinuteOfDay(clock + wait) == if minute + passed < MINUTES_PER_DAY then minute + passed
                else minute + passed - MINUTES_PER_DAY
  {
    var passed := (clock % 60 + wait) / 60;
    assert (clock + wait) / 60 == clock / 60 + passed;
  }

  lemma QuietUntilTheEnd(clock: int, start: int, end: int, t: int)
    requires 0 <= start < MINUTES_PER_DAY && 0 <= end < MINUTES_PER_DAY && start != end
    requires InQuietHours(MinuteOfDay(clock), start, end)
    requires clock <= t <= clock + QuietDelaySeconds(clock, Some(start), Some(end))
    ensures 0 < QuietDelaySeconds(clock, Some(start), Some(end)) <= 86400
    ensures InQuietHours(MinuteOfDay(t), start, end) <==> t < clock + QuietDelaySeconds(clock, Some(start), Some(end))
    ensures t == clock + QuietDelaySeconds(clock, Some(start), Some(end)) ==> MinuteOfDay(t) == end && t % 60 == 0
  {
    MinuteAfter(clock, t - clock);
  }

  /** Outside quiet hours a delivery is due at once; inside them it is due at the first instant
      that is no longer quiet, the full minute `end`, at most a day away. */
  lemma QuietDelayEndsQuietHours(clock: int, start: int, end: int)
    requires 0 <= start < MINUTES_PER_DAY && 0 <= end < MINUTES_PER_DAY && start != end
    ensures var delay := QuietDelaySeconds(clock, Some(start), Some(end));
            0 <= delay <= 86400
            && (delay == 0 <==> !InQuietHours(MinuteOfDay(clock), start, end))
            && !InQuietHours(MinuteOfDay(clock + delay), start, end)
            && (delay > 0 ==> MinuteOfDay(clock + delay) == end && (clock + delay) % 60 == 0)
            && forall t :: clock <= t < clock + delay ==> InQuietHours(MinuteOfDay(t), start, end)
  {
    if InQuietHours(MinuteOfDay(clock), start, end) {
      var delay := QuietDelaySeconds(clock, Some(start), Some(end));
      QuietUntilTheEnd(clock, start, end, clock);
      QuietUntilTheEnd(clock, start, end, clock + delay);
      forall t | clock <= t < clock + delay ensures InQuietHours(MinuteOfDay(t), start, end) {
        QuietUntilTheEnd(clock, start, end, t);
      }
    }
  }
}
