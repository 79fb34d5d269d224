/** What every run of evaluators and workers keeps, proved step by step and then over whole runs. */
module AlertInvariants {
  import opened Common
  import opened AlertModel

  // ---------- the invariant ----------

  predicate Terminal(row: Delivery) {
    row.state == Delivered || row.state == Dead || row.state == Unknown || row.state == Suppressed
  }

  ghost predicate RowOk(row: Delivery) {
    && 0 <= row.attempt <= row.maxAttempt && 1 <= row.maxAttempt
    && (row.state == Leased <==> row.leaseToken.Some?)
    && (row.state == Leased <==> row.leaseExpiresAt.Some?)
    && (row.state == Pending || row.state == Suppressed <==> row.attempt == 0)
    && (row.state == Failed ==> row.attempt < row.maxAttempt)
  }

  ghost predicate RowsOk(s: State) {
    forall key :: key in s.deliveries ==> RowOk(s.deliveries[key])
  }

  /** A claim names an attempt its row has reached. */
  ghost predicate ClaimFits(s: State, c: Claim) {
    c.key in s.deliveries && 1 <= c.attempt <= s.deliveries[c.key].attempt
    && c.maxAttempt == s.deliveries[c.key].maxAttempt
  }

  /** A leased row belongs to the claim of its latest attempt. */
  ghost predicate LeaseIsIssued(s: State, key: DeliveryKey)
    requires key in s.deliveries
  {
    var row := s.deliveries[key];
    row.state == Leased && row.leaseToken.Some? ==>
        Claim(key, row.attempt, row.maxAttempt, row.leaseToken.value) in s.issued
  }

  ghost predicate ClaimsOk(s: State) {
    && (forall c :: c in s.issued ==> ClaimFits(s, c))
    && (forall c, d :: c in s.issued && d in s.issued && c.token == d.token ==> c == d)
    && (forall c, d :: c in s.issued && d in s.issued && c.key == d.key && c.attempt == d.attempt ==> c == d)
    && (forall key :: key in s.deliveries ==> LeaseIsIssued(s, key))
  }

  ghost function ClaimsOf(issued: set<Claim>, key: DeliveryKey): set<Claim> {
    set c | c in issued && c.key == key
  }

  ghost predicate CountOk(s: State, key: DeliveryKey)
    requires key in s.deliveries
  {
    |ClaimsOf(s.issued, key)| == s.deliveries[key].attempt
  }

  ghost predicate CountsOk(s: State) {
    forall key :: key in s.deliveries ==> CountOk(s, key)
  }

  function KindOf(generation: int): Kind {
    if generation % 2 == 1 then Triggered else Recovered
  }

  function RowKey(key: ConditionKey, generation: int): DeliveryKey {
    DeliveryKey(key, generation, KindOf(generation))
  }

  ghost predicate HasRow(s: State, key: ConditionKey, generation: int) {
    RowKey(key, generation) in s.deliveries
  }

  ghost predicate GenerationOk(c: Condition) {
    1 <= c.generation && (c.active <==> c.generation % 2 == 1)
  }

  ghost predicate Owned(s: State, d: DeliveryKey) {
    d.condition in s.conditions && 1 <= d.generation <= s.conditions[d.condition].generation
    && d.kind == KindOf(d.generation)
  }

  /** Active exactly at odd generations, and exactly one delivery per generation reached. */
  ghost predicate ChainOk(s: State) {
    && (forall key :: key in s.conditions ==> GenerationOk(s.conditions[key]))
    && (forall key, g :: key in s.conditions && 1 <= g <= s.conditions[key].generation ==> HasRow(s, key, g))
    && (forall d :: d in s.deliveries ==> Owned(s, d))
  }

  ghost predicate IsSuppressed(s: State, key: ConditionKey, generation: int) {
    HasRow(s, key, generation) && s.deliveries[RowKey(key, generation)].state == Suppressed
  }

  ghost predicate PairAgrees(s: State, key: ConditionKey, generation: int) {
    IsSuppressed(s, key, generation) <==> IsSuppressed(s, key, generation - 1)
  }

  /** Suppression comes in pairs (2k-1, 2k), and never hits the newest generation while it is active. */
  ghost predicate PairsOk(s: State) {
    && (forall key, g :: key in s.conditions && 2 <= g <= s.conditions[key].generation && g % 2 == 0 ==>
        PairAgrees(s, key, g))
    && (forall key :: key in s.conditions && s.conditions[key].active ==>
          !IsSuppressed(s, key, s.conditions[key].generation))
  }

  ghost predicate Inv(s: State) {
    RowsOk(s) && ClaimsOk(s) && CountsOk(s) && ChainOk(s) && PairsOk(s)
  }

  ghost predicate GenerationsAtMost(s: State, bound: int) {
    forall key :: key in s.conditions ==> s.conditions[key].generation <= bound
  }

  // ---------- worker steps ----------

  /** A step that keeps the same deliveries, suppressed or not, keeps chains and pairs. */
  lemma SameSuppressionKeepsChains(s: State, t: State)
    requires ChainOk(s) && PairsOk(s)
    requires t.conditions.Keys == s.conditions.Keys && t.deliveries.Keys == s.deliveries.Keys
    requires forall key :: key in s.conditions ==>
      t.conditions[key].generation == s.conditions[key].generation
          && t.conditions[key].active == s.conditions[key].active
    requires forall d :: d in s.deliveries ==>
              (s.deliveries[d].state == Suppressed <==> t.deliveries[d].state == Suppressed)
    ensures ChainOk(t) && PairsOk(t)
  {
    forall key, g ensures HasRow(t, key, g) <==> HasRow(s, key, g) {
    }
    forall key, g ensures IsSuppressed(t, key, g) <==> IsSuppressed(s, key, g) {
    }
    forall key, g ensures PairAgrees(t, key, g) <==> PairAgrees(s, key, g) {
    }
    forall d | d in t.deliveries ensures Owned(t, d) {
      assert Owned(s, d);
    }
  }

  lemma LeaseKeepsClaims(s: State, key: DeliveryKey, token: nat)
    requires ClaimsOk(s) && key in s.deliveries && s.deliveries[key].attempt >= 0 && FreshToken(s, token)
    ensures ClaimsOk(ApplyLease(s, key, token))
  {
    var t := ApplyLease(s, key, token);
    var row := t.deliveries[key];
    var claim := Claim(key, row.attempt, row.maxAttempt, token);
    assert t.issued == s.issued + {claim};
    forall c | c in s.issued ensures ClaimFits(t, c) && (c.key == key ==> c.attempt < claim.attempt) {
      assert ClaimFits(s, c);
    }
    assert ClaimFits(t, claim);
    forall other | other in t.deliveries ensures LeaseIsIssued(t, other) {
      assert other in s.deliveries && LeaseIsIssued(s, other);
    }
  }

  lemma LeaseKeepsCounts(s: State, key: DeliveryKey, token: nat)
    requires CountsOk(s) && key in s.deliveries && FreshToken(s, token)
    ensures CountsOk(ApplyLease(s, key, token))
  {
    var t := ApplyLease(s, key, token);
    var row := t.deliveries[key];
    var claim := Claim(key, row.attempt, row.maxAttempt, token);
    forall other | other in t.deliveries ensures CountOk(t, other) {
      assert CountOk(s, other);
      if other == key {
        assert ClaimsOf(t.issued, key) == ClaimsOf(s.issued, key) + {claim};
      } else {
        assert ClaimsOf(t.issued, other) == ClaimsOf(s.issued, other);
      }
    }
  }

  lemma LeaseKeepsRows(s: State, key: DeliveryKey, token: nat)
    requires RowsOk(s) && key in s.deliveries && Claimable(s.now, s.deliveries[key])
    ensures RowsOk(ApplyLease(s, key, token)) && s.deliveries[key].attempt >= 0
    ensures ApplyLease(s, key, token).deliveries == s.deliveries[key := LeaseRow(s.deliveries[key], token, s.now)]
  {
    assert RowOk(s.deliveries[key]);
  }

  lemma LeaseKeepsChains(s: State, key: DeliveryKey, token: nat)
    requires ChainOk(s) && PairsOk(s) && key in s.deliveries && Claimable(s.now, s.deliveries[key])
    ensures ChainOk(ApplyLease(s, key, token)) && PairsOk(ApplyLease(s, key, token))
  {
    SameSuppressionKeepsChains(s, ApplyLease(s, key, token));
  }

  lemma LeaseKeepsInv(s: State, key: DeliveryKey, token: nat)
    requires Inv(s) && Enabled(s, Lease(key, token))
    ensures Inv(ApplyLease(s, key, token))
  {
    LeaseKeepsRows(s, key, token);
    LeaseKeepsClaims(s, key, token);
    LeaseKeepsCounts(s, key, token);
    LeaseKeepsChains(s, key, token);
  }

  lemma UnleasedWriteKeepsClaims(s: State, key: DeliveryKey, row: Delivery)
    requires ClaimsOk(s) && CountsOk(s) && key in s.deliveries && row.state != Leased
    requires row.attempt == s.deliveries[key].attempt && row.maxAttempt == s.deliveries[key].maxAttempt
    ensures ClaimsOk(s.(deliveries := s.deliveries[key := row])) && CountsOk(s.(deliveries := s.deliveries[key := row]))
  {
    var t := s.(deliveries := s.deliveries[key := row]);
    forall c | c in s.issued ensures ClaimFits(t, c) {
      assert ClaimFits(s, c);
    }
    forall other | other in t.deliveries ensures CountOk(t, other) && LeaseIsIssued(t, other) {
      assert CountOk(s, other) && LeaseIsIssued(s, other);
    }
  }

  lemma UnleasedWriteKeepsInv(s: State, key: DeliveryKey, row: Delivery)
    requires Inv(s) && key in s.deliveries && RowOk(row) && row.state != Leased
    requires row.attempt == s.deliveries[key].attempt && row.maxAttempt == s.deliveries[key].maxAttempt
    requires row.state == Suppressed <==> s.deliveries[key].state == Suppressed
    ensures Inv(s.(deliveries := s.deliveries[key := row]))
  {
    UnleasedWriteKeepsClaims(s, key, row);
    SameSuppressionKeepsChains(s, s.(deliveries := s.deliveries[key := row]));
  }

  /** The claim that holds a lease is the latest one of its row, and no other claim holds it. */
  lemma OnlyTheLatestClaimHoldsTheLease(s: State, claim: Claim)
    requires ClaimsOk(s) && claim in s.issued && HoldsLease(s, claim)
    ensures claim.attempt == s.deliveries[claim.key].attempt
    ensures forall c :: c in s.issued && c.key == claim.key && c != claim ==>
              c.attempt < claim.attempt && !HoldsLease(s, c)
  {
    var row := s.deliveries[claim.key];
    assert LeaseIsIssued(s, claim.key);
    assert claim == Claim(claim.key, row.attempt, row.maxAttempt, row.leaseToken.value);
    forall c | c in s.issued && c.key == claim.key && c != claim ensures c.attempt < claim.attempt {
      assert ClaimFits(s, c);
    }
  }

  lemma FinishKeepsInv(s: State, claim: Claim, result: SendResult)
    requires Inv(s) && claim in s.issued
    ensures Inv(ApplyFinish(s, claim, result))
  {
    if HoldsLease(s, claim) {
      OnlyTheLatestClaimHoldsTheLease(s, claim);
      assert RowOk(s.deliveries[claim.key]) && ClaimFits(s, claim);
      UnleasedWriteKeepsInv(s, claim.key, FinishRow(s.deliveries[claim.key], claim, result, s.now));
    }
  }

  // ---------- evaluator steps ----------

  lemma MoveKeepsClaims(s: State, rule: Rule, key: ConditionKey, active: bool, generation: int, payload: Payload,
                        clock: int)
    requires RowsOk(s) && ClaimsOk(s) && CountsOk(s)
    ensures var t := Move(s, rule, key, active, generation, payload, clock);
            RowsOk(t) && ClaimsOk(t) && CountsOk(t)
  {
    var t := Move(s, rule, key, active, generation, payload, clock);
    var added := DeliveryKey(key, generation, if active then Triggered else Recovered);
    forall c | c in s.issued ensures ClaimFits(t, c) {
      assert ClaimFits(s, c);
    }
    forall d | d in t.deliveries ensures RowOk(t.deliveries[d]) && LeaseIsIssued(t, d) && CountOk(t, d) {
      if d in s.deliveries {
        assert RowOk(s.deliveries[d]) && LeaseIsIssued(s, d) && CountOk(s, d);
      } else {
        assert d == added;
        forall c | c in s.issued ensures c.key != d {
          assert ClaimFits(s, c);
        }
        assert ClaimsOf(s.issued, d) == {};
      }
    }
  }

  lemma MoveKeepsChain(s: State, rule: Rule, key: ConditionKey, active: bool, payload: Payload, clock: int)
    requires ChainOk(s) && ChangesState(s, key, active)
    requires key in s.conditions ==> s.conditions[key].generation < I64_MAX
    ensures var t := Move(s, rule, key, active, NextGeneration(s, key), payload, clock);
            var added := RowKey(key, NextGeneration(s, key));
            ChainOk(t) && t.deliveries.Keys == s.deliveries.Keys + {added} && added !in s.deliveries
            && (active <==> added.kind == Triggered)
  {
    var generation := NextGeneration(s, key);
    var t := Move(s, rule, key, active, generation, payload, clock);
    var added := RowKey(key, generation);
    if key in s.conditions {
      assert GenerationOk(s.conditions[key]);
    }
    assert added.kind == if active then Triggered else Recovered;
    assert !Owned(s, added);
    forall k, g | k in t.conditions && 1 <= g <= t.conditions[k].generation ensures HasRow(t, k, g) {
      if k != key || g != generation {
        assert HasRow(s, k, g);
      }
    }
    forall d | d in t.deliveries ensures Owned(t, d) {
      if d != added {
        assert Owned(s, d);
      }
    }
  }

  lemma MoveKeepsEarlierRows(s: State, rule: Rule, key: ConditionKey, active: bool, payload: Payload, clock: int,
                             k: ConditionKey, g: int)
    requires k != key || g < NextGeneration(s, key) - 1 || (active && g < NextGeneration(s, key))
    ensures IsSuppressed(Move(s, rule, key, active, NextGeneration(s, key), payload, clock), k, g) <==>
              IsSuppressed(s, k, g)
  {
  }

  lemma MoveKeepsEarlierPairs(s: State, rule: Rule, key: ConditionKey, active: bool, payload: Payload, clock: int,
                              k: ConditionKey, g: int)
    requires ChainOk(s) && PairsOk(s) && ChangesState(s, key, active)
    requires key in s.conditions ==> s.conditions[key].generation < I64_MAX
    requires k in s.conditions && 2 <= g <= s.conditions[k].generation && g % 2 == 0
    ensures PairAgrees(Move(s, rule, key, active, NextGeneration(s, key), payload, clock), k, g)
  {
    assert PairAgrees(s, k, g);
    if k == key {
      assert GenerationOk(s.conditions[key]);
    }
    MoveKeepsEarlierRows(s, rule, key, active, payload, clock, k, g);
    MoveKeepsEarlierRows(s, rule, key, active, payload, clock, k, g - 1);
  }

  /** Recovering an active scope suppresses the triggered and the recovered delivery together:
      both when the trigger is still waiting out its quiet hours, neither otherwise. */
  lemma RecoverySuppressesBothOrNeither(s: State, rule: Rule, key: ConditionKey, payload: Payload, clock: int)
    requires ChainOk(s) && PairsOk(s) && ChangesState(s, key, false)
    requires s.conditions[key].generation < I64_MAX
    ensures var g := s.conditions[key].generation;
            var t := Move(s, rule, key, false, g + 1, payload, clock);
            var trigger := s.deliveries[RowKey(key, g)];
            HasRow(s, key, g) && t.conditions[key].generation == g + 1
            && (IsSuppressed(t, key, g) <==> trigger.state == Pending && trigger.availableAt > s.now)
            && (IsSuppressed(t, key, g + 1) <==> IsSuppressed(t, key, g))
            && (!IsSuppressed(t, key, g + 1) ==>
                  t.deliveries[RowKey(key, g)] == trigger && t.deliveries[RowKey(key, g + 1)].state == Pending)
  {
    var g := s.conditions[key].generation;
    assert GenerationOk(s.conditions[key]);
    assert HasRow(s, key, g);
    assert !IsSuppressed(s, key, g);
    assert RowKey(key, g) == DeliveryKey(key, g, Triggered);
    MoveKeepsChain(s, rule, key, false, payload, clock);
  }

  lemma MoveKeepsPairs(s: State, rule: Rule, key: ConditionKey, active: bool, payload: Payload, clock: int)
    requires ChainOk(s) && PairsOk(s) && ChangesState(s, key, active)
    requires key in s.conditions ==> s.conditions[key].generation < I64_MAX
    ensures PairsOk(Move(s, rule, key, active, NextGeneration(s, key), payload, clock))
  {
    var generation := NextGeneration(s, key);
    var t := Move(s, rule, key, active, generation, payload, clock);
    MoveKeepsChain(s, rule, key, active, payload, clock);
    if !active {
      RecoverySuppressesBothOrNeither(s, rule, key, payload, clock);
    }
    forall k, g | k in t.conditions && 2 <= g <= t.conditions[k].generation && g % 2 == 0 ensures PairAgrees(t, k, g) {
      if k != key || g < generation {
        MoveKeepsEarlierPairs(s, rule, key, active, payload, clock, k, g);
      } else {
        assert GenerationOk(t.conditions[key]) && !active;
      }
    }
    forall k | k in t.conditions && t.conditions[k].active ensures !IsSuppressed(t, k, t.conditions[k].generation) {
      if k == key {
        assert RowKey(key, generation) !in s.deliveries;
      } else {
        MoveKeepsEarlierRows(s, rule, key, active, payload, clock, k, t.conditions[k].generation);
      }
    }
  }

  lemma RacedActivationKeepsInv(s: State, rule: Rule, key: ConditionKey, payload: Payload, clock: int)
    requires Inv(s) && key in s.conditions && s.conditions[key].generation == 1
    ensures Inv(Move(s, rule, key, true, 1, payload, clock))
    ensures Move(s, rule, key, true, 1, payload, clock).deliveries == s.deliveries
  {
    var t := Move(s, rule, key, true, 1, payload, clock);
    assert HasRow(s, key, 1) && GenerationOk(s.conditions[key]);
    assert t.deliveries == s.deliveries;
    MoveKeepsClaims(s, rule, key, true, 1, payload, clock);
    SameSuppressionKeepsChains(s, t);
  }

  lemma UnrelatedChangeKeepsInv(s: State, t: State)
    requires Inv(s) && t.deliveries == s.deliveries && t.issued == s.issued && t.conditions.Keys == s.conditions.Keys
    requires forall key :: key in s.conditions ==>
      t.conditions[key].generation == s.conditions[key].generation
          && t.conditions[key].active == s.conditions[key].active
    ensures Inv(t)
  {
    forall c | c in s.issued ensures ClaimFits(t, c) {
      assert ClaimFits(s, c);
    }
    forall d | d in s.deliveries ensures LeaseIsIssued(t, d) && CountOk(t, d) {
      assert LeaseIsIssued(s, d) && CountOk(s, d);
    }
    SameSuppressionKeepsChains(s, t);
  }

  lemma TransitionKeepsInv(s: State, rule: Rule, scope: string, active: bool, payload: Payload, encodedBytes: nat,
                           clock: int)
    requires Inv(s) && GenerationsAtMost(s, I64_MAX - 1)
    ensures Inv(ApplyTransition(s, rule, scope, active, payload, encodedBytes, clock))
  {
    var key := KeyOf(rule, scope);
    if !TransitionFails(s, rule, scope, active, encodedBytes) {
      if ChangesState(s, key, active) {
        MoveKeepsClaims(s, rule, key, active, NextGeneration(s, key), payload, clock);
        MoveKeepsChain(s, rule, key, active, payload, clock);
        MoveKeepsPairs(s, rule, key, active, payload, clock);
      } else {
        UnrelatedChangeKeepsInv(s, ApplyTransition(s, rule, scope, active, payload, encodedBytes, clock));
      }
    }
  }

  // ---------- every step, every run ----------

  /** Every step of every actor keeps the invariant while generations are below the i64 ceiling. */
  lemma StepKeepsInv(s: State, step: Step)
    requires Inv(s) && Enabled(s, step) && GenerationsAtMost(s, I64_MAX - 1)
    ensures Inv(Apply(s, step))
  {
    match step
    case Advance(to) => UnrelatedChangeKeepsInv(s, Apply(s, step));
    case Transition(rule, scope, active, payload, encodedBytes, clock) =>
      TransitionKeepsInv(s, rule, scope, active, payload, encodedBytes, clock);
    case RacedActivation(rule, scope, payload, clock) =>
      RacedActivationKeepsInv(s, rule, KeyOf(rule, scope), payload, clock);
    case ExpireFinal(key) =>
      assert RowOk(s.deliveries[key]);
      UnleasedWriteKeepsInv(s, key, BuryRow(s.deliveries[key]));
    case Lease(key, token) => LeaseKeepsInv(s, key, token);
    case Finish(claim, result) => FinishKeepsInv(s, claim, result);
  }

  lemma StepRaisesGenerationsByOne(s: State, step: Step, bound: int)
    requires Enabled(s, step) && GenerationsAtMost(s, bound) && 0 <= bound
    ensures GenerationsAtMost(Apply(s, step), bound + 1)
  {
  }

  lemma {:induction false} RunKeepsInv(s: State, steps: seq<Step>, bound: nat)
    requires ValidRun(s, steps) && Inv(s) && GenerationsAtMost(s, bound) && bound + |steps| < I64_MAX
    ensures Inv(Run(s, steps))
    decreases |steps|
  {
    if steps != [] {
      StepKeepsInv(s, steps[0]);
      StepRaisesGenerationsByOne(s, steps[0], bound);
      RunKeepsInv(Apply(s, steps[0]), steps[1..], bound + 1);
    }
  }

  /** Every state reachable from empty tables satisfies the invariant. */
  lemma ReachableStatesAreGood(now: int, steps: seq<Step>)
    requires ValidRun(Initial(now), steps) && |steps| < I64_MAX
    ensures Inv(Run(Initial(now), steps))
  {
    RunKeepsInv(Initial(now), steps, 0);
  }
}
