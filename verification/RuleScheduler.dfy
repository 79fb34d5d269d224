/** The rule scheduler: one tick evaluates the first thousand enabled rules, least recently evaluated first. */
module RuleScheduler {
  import opened Common

  const ALERT_RULE_PAGE_SIZE := 1000

  /** When each enabled rule was last evaluated, by rule id. */
  type Stamps = map<string, Option<int>>

  /** `ORDER BY last_evaluated_at NULLS FIRST, id`. */
  predicate DueBefore(stamps: Stamps, a: string, b: string)
    requires a in stamps && b in stamps
  {
    match (stamps[a], stamps[b])
    case (None, None) => TextBefore(a, b)
    case (None, Some(_)) => true
    case (Some(_), None) => false
    case (Some(s), Some(t)) => s < t || (s == t && TextBefore(a, b))
  }

  lemma DueBeforeIsTotal(stamps: Stamps, a: string, b: string)
    requires a in stamps && b in stamps
    ensures a == b || DueBefore(stamps, a, b) || DueBefore(stamps, b, a)
    ensures !(DueBefore(stamps, a, b) && DueBefore(stamps, b, a))
  {
    TextBeforeIsTotal(a, b);
  }

  lemma DueBeforeIsTransitive(stamps: Stamps, a: string, b: string, c: string)
    requires a in stamps && b in stamps && c in stamps
    requires DueBefore(stamps, a, b) && DueBefore(stamps, b, c)
    ensures DueBefore(stamps, a, c)
  {
    if TextBefore(a, b) && TextBefore(b, c) {
      TextBeforeIsTransitive(a, b, c);
    }
  }

  /** The page query: the first rules in due order. */
  ghost predicate IsDuePage(stamps: Stamps, page: seq<string>) {
    && |page| == MinInt(ALERT_RULE_PAGE_SIZE, |stamps|)
    && (forall r :: r in page ==> r in stamps)
    && (forall i, j :: 0 <= i < j < |page| ==> DueBefore(stamps, page[i], page[j]))
    && (forall r, p :: r in stamps && r !in page && p in page ==> DueBefore(stamps, p, r))
  }

  lemma DuePageIsDistinct(stamps: Stamps, page: seq<string>)
    requires IsDuePage(stamps, page)
    ensures Distinct(page)
  {
    forall i, j | 0 <= i < j < |page| ensures page[i] != page[j] {
      assert page[i] in page && page[j] in page;
      DueBeforeIsTotal(stamps, page[i], page[j]);
    }
  }

  /** The rules a tick gets to: the page up to the first rule whose evaluation fails. */
  function Reached(page: seq<string>, failing: set<string>): (done: seq<string>)
    ensures |done| <= |page| && done == page[..|done|]
    ensures forall k :: 0 <= k < |done| ==> page[k] !in failing
    ensures forall r :: r in done ==> r !in failing
    ensures |done| < |page| ==> page[|done|] in failing
  {
    if page == [] || page[0] in failing then []
    else
      var rest := Reached(page[1..], failing);
      assert page == [page[0]] + page[1..];
      [page[0]] + rest
  }

  function StampAll(stamps: Stamps, done: seq<string>, times: seq<int>): Stamps
    requires |done| <= |times|
  {
    if done == [] then stamps
    else
      var last := |done| - 1;
      StampAll(stamps, done[..last], times)[done[last] := Some(times[last])]
  }

  lemma {:induction false} StampingTouchesOnlyDone(stamps: Stamps, done: seq<string>, times: seq<int>)
    requires |done| <= |times|
    ensures var after := StampAll(stamps, done, times);
            after.Keys == stamps.Keys + Elements(done)
            && (forall r :: r in stamps && r !in done ==> after[r] == stamps[r])
            && (forall r :: r in done ==> after[r].Some? && after[r].value in times)
  {
    if done != [] {
      var last := |done| - 1;
      StampingTouchesOnlyDone(stamps, done[..last], times);
      assert Elements(done) == Elements(done[..last]) + {done[last]};
      assert times[last] in times;
    }
  }

  lemma StampOneMore(stamps: Stamps, page: seq<string>, i: nat, times: seq<int>)
    requires i < |page| <= |times|
    ensures StampAll(stamps, page[..i + 1], times) == StampAll(stamps, page[..i], times)[page[i] := Some(times[i])]
  {
    assert page[..i + 1][..i] == page[..i];
  }

  datatype Tick = Tick(page: seq<string>, times: seq<int>)

  /** Times of one tick are later than every stamp set before it. */
  ghost predicate Later(stamps: Stamps, times: seq<int>) {
    forall r, t :: r in stamps && stamps[r].Some? && t in times ==> stamps[r].value < t
  }

  ghost predicate ValidTick(stamps: Stamps, tick: Tick) {
    IsDuePage(stamps, tick.page) && |tick.times| == |tick.page| && Later(stamps, tick.times)
  }

  function AfterTick(stamps: Stamps, tick: Tick, failing: set<string>): Stamps
    requires |tick.times| == |tick.page|
  {
    StampAll(stamps, Reached(tick.page, failing), tick.times)
  }

  ghost predicate ValidTicks(stamps: Stamps, ticks: seq<Tick>, failing: set<string>)
    decreases |ticks|
  {
    ticks == [] || (ValidTick(stamps, ticks[0])
                    && ValidTicks(AfterTick(stamps, ticks[0], failing), ticks[1..], failing))
  }

  ghost function AfterTicks(stamps: Stamps, ticks: seq<Tick>, failing: set<string>): Stamps
    requires ValidTicks(stamps, ticks, failing)
    decreases |ticks|
  {
    if ticks == [] then stamps else AfterTicks(AfterTick(stamps, ticks[0], failing), ticks[1..], failing)
  }

  /** The rules evaluated at least once during the ticks. */
  ghost function Evaluated(ticks: seq<Tick>, failing: set<string>): set<string> {
    if ticks == [] then {} else Elements(Reached(ticks[0].page, failing)) + Evaluated(ticks[1..], failing)
  }

  // ---------- fairness ----------

  lemma WithoutFailuresEverythingIsReached(page: seq<string>)
    ensures Reached(page, {}) == page
  {
    var done := Reached(page, {});
    assert page == page[..|page|];
  }

  /** Rules still waiting come before all rules already served. */
  ghost predicate WaitingComeFirst(stamps: Stamps, waiting: set<string>) {
    waiting <= stamps.Keys &&
    forall w, r :: w in waiting && r in stamps && r !in waiting ==> DueBefore(stamps, w, r)
  }

  lemma StampedAreLater(stamps: Stamps, done: seq<string>, times: seq<int>, kept: string, stamped: string)
    requires |done| <= |times| && Later(stamps, times)
    requires kept in stamps && kept !in done && stamped in done
    ensures StampAll(stamps, done, times).Keys >= {kept, stamped}
    ensures DueBefore(StampAll(stamps, done, times), kept, stamped)
  {
    StampingTouchesOnlyDone(stamps, done, times);
  }

  lemma ServedGoToTheBack(stamps: Stamps, waiting: set<string>, tick: Tick)
    requires ValidTick(stamps, tick) && WaitingComeFirst(stamps, waiting)
    ensures var after := AfterTick(stamps, tick, {});
            after.Keys == stamps.Keys && WaitingComeFirst(after, waiting - Elements(tick.page))
  {
    WithoutFailuresEverythingIsReached(tick.page);
    var after := AfterTick(stamps, tick, {});
    var left := waiting - Elements(tick.page);
    StampingTouchesOnlyDone(stamps, tick.page, tick.times);
    assert after.Keys == stamps.Keys;
    forall w, r | w in left && r in after && r !in left ensures DueBefore(after, w, r) {
      if r in tick.page {
        StampedAreLater(stamps, tick.page, tick.times, w, r);
      } else {
        assert DueBefore(stamps, w, r);
      }
    }
  }

  lemma FullPageOfWaiting(stamps: Stamps, waiting: set<string>, tick: Tick)
    requires ValidTick(stamps, tick) && WaitingComeFirst(stamps, waiting)
    ensures var left := waiting - Elements(tick.page);
            left == {} || |left| == |waiting| - ALERT_RULE_PAGE_SIZE
  {
    var served := Elements(tick.page);
    DuePageIsDistinct(stamps, tick.page);
    DistinctSeqSize(tick.page);
    assert served <= stamps.Keys;
    SubsetSize(served, stamps.Keys);
    if w :| w in waiting - served {
      forall p | p in served ensures p in waiting {
        assert DueBefore(stamps, p, w);
        DueBeforeIsTotal(stamps, p, w);
      }
      SubsetSize(served, waiting);
      assert w in stamps.Keys;
      assert |served| != |stamps.Keys|;
    }
  }

  /** While no evaluation fails, any ceil(n / 1000) consecutive ticks evaluate every one of n waiting rules. */
  lemma {:induction false} WaitingRulesAreServed(stamps: Stamps, waiting: set<string>, ticks: seq<Tick>)
    requires ValidTicks(stamps, ticks, {}) && WaitingComeFirst(stamps, waiting)
    requires |waiting| <= ALERT_RULE_PAGE_SIZE * |ticks|
    ensures waiting <= Evaluated(ticks, {})
    decreases |ticks|
  {
    if ticks != [] {
      ServedGoToTheBack(stamps, waiting, ticks[0]);
      FullPageOfWaiting(stamps, waiting, ticks[0]);
      WithoutFailuresEverythingIsReached(ticks[0].page);
      WaitingRulesAreServed(AfterTick(stamps, ticks[0], {}), waiting - Elements(ticks[0].page), ticks[1..]);
    }
  }

  /** Fairness: with n rules and no failing evaluation, ceil(n / 1000) ticks in a row evaluate every rule. */
  lemma SchedulerIsFair(stamps: Stamps, ticks: seq<Tick>)
    requires ValidTicks(stamps, ticks, {})
    requires |stamps| <= ALERT_RULE_PAGE_SIZE * |ticks|
    ensures stamps.Keys <= Evaluated(ticks, {})
  {
    WaitingRulesAreServed(stamps, stamps.Keys, ticks);
  }

  // ---------- one failing rule ----------

  ghost function Ahead(stamps: Stamps, rule: string): set<string>
    requires rule in stamps
  {
    set r | r in stamps && r != rule && DueBefore(stamps, r, rule)
  }

  /** `rule` fails, and no rule ahead of it does. */
  ghost predicate FirstFailure(stamps: Stamps, failing: set<string>, rule: string) {
    rule in stamps && rule in failing && Ahead(stamps, rule) !! failing
  }

  lemma FirstOfPageIsFirst(stamps: Stamps, page: seq<string>)
    requires IsDuePage(stamps, page) && page != []
    ensures forall r :: r in stamps && r != page[0] ==> DueBefore(stamps, page[0], r)
  {
    forall r | r in stamps && r != page[0] ensures DueBefore(stamps, page[0], r) {
      assert page[0] in page;
      if r in page {
        var i :| 0 <= i < |page| && page[i] == r;
      }
    }
  }

  /** The front of the page is the failing rule itself, or a healthy rule ahead of it. */
  lemma FrontOfThePage(stamps: Stamps, failing: set<string>, rule: string, page: seq<string>)
    requires IsDuePage(stamps, page) && FirstFailure(stamps, failing, rule)
    ensures page != [] && page[0] in stamps
    ensures if Ahead(stamps, rule) == {} then page[0] == rule else page[0] in Ahead(stamps, rule)
  {
    assert rule in stamps.Keys;
    assert page[0] in page;
    FirstOfPageIsFirst(stamps, page);
    if page[0] != rule {
      assert page[0] in Ahead(stamps, rule);
    } else {
      forall r | r in stamps ensures r !in Ahead(stamps, rule) {
        DueBeforeIsTotal(stamps, r, rule);
      }
    }
  }

  lemma AheadShrinks(stamps: Stamps, rule: string, done: seq<string>, times: seq<int>)
    requires |done| <= |times| && Later(stamps, times) && rule in stamps && rule !in done
    requires forall r :: r in done ==> r in stamps
    ensures StampAll(stamps, done, times).Keys == stamps.Keys
    ensures Ahead(StampAll(stamps, done, times), rule) == Ahead(stamps, rule) - Elements(done)
  {
    var after := StampAll(stamps, done, times);
    StampingTouchesOnlyDone(stamps, done, times);
    assert after.Keys == stamps.Keys;
    forall r | r in stamps && r != rule
      ensures DueBefore(after, r, rule) <==> DueBefore(stamps, r, rule) && r !in done
    {
      if r in done {
        StampedAreLater(stamps, done, times, rule, r);
        DueBeforeIsTotal(after, r, rule);
      }
    }
  }

  /** Each tick either finds the failing rule in front and evaluates nothing,
      or moves at least one rule behind it. */
  lemma TickApproachesFailure(stamps: Stamps, failing: set<string>, rule: string, tick: Tick)
    requires ValidTick(stamps, tick) && FirstFailure(stamps, failing, rule)
    ensures var after := AfterTick(stamps, tick, failing);
            after.Keys == stamps.Keys && FirstFailure(after, failing, rule)
            && (Ahead(stamps, rule) == {} ==> Reached(tick.page, failing) == [])
            && (Ahead(stamps, rule) != {} ==> Ahead(after, rule) < Ahead(stamps, rule))
  {
    var done := Reached(tick.page, failing);
    FrontOfThePage(stamps, failing, rule, tick.page);
    assert forall r :: r in done ==> r in tick.page && r in stamps;
    assert rule !in done;
    AheadShrinks(stamps, rule, done, tick.times);
    if Ahead(stamps, rule) != {} {
      assert done[0] == tick.page[0];
      assert tick.page[0] in Ahead(stamps, rule) && tick.page[0] in done;
    }
  }

  /** One rule whose evaluation keeps failing stops the whole scheduler: after as many ticks as
      there were rules ahead of it, no rule is evaluated any more, however long it runs. */
  lemma {:induction false} FailingRuleStopsTheScheduler(stamps: Stamps, failing: set<string>, rule: string,
                                                        ticks: seq<Tick>, later: seq<Tick>)
    requires ValidTicks(stamps, ticks, failing) && FirstFailure(stamps, failing, rule)
    requires |Ahead(stamps, rule)| <= |ticks|
    requires ValidTicks(AfterTicks(stamps, ticks, failing), later, failing)
    ensures Evaluated(later, failing) == {}
    decreases |ticks|, |later|
  {
    if ticks != [] {
      TickApproachesFailure(stamps, failing, rule, ticks[0]);
      var after := AfterTick(stamps, ticks[0], failing);
      SubsetSize(Ahead(after, rule), Ahead(stamps, rule));
      FailingRuleStopsTheScheduler(after, failing, rule, ticks[1..], later);
    } else if later != [] {
      TickApproachesFailure(stamps, failing, rule, later[0]);
      FailingRuleStopsTheScheduler(AfterTick(stamps, later[0], failing), failing, rule, [], later[1..]);
    }
  }

  lemma {:induction false} SomeFailureIsFirst(stamps: Stamps, failing: set<string>, candidates: set<string>)
    returns (rule: string)
    requires candidates != {} && candidates <= failing && candidates <= stamps.Keys
    ensures rule in candidates && forall r :: r in candidates && r != rule ==> DueBefore(stamps, rule, r)
    decreases candidates
  {
    var picked :| picked in candidates;
    rule := picked;
    var rest := candidates - {picked};
    assert candidates == rest + {picked};
    if rest != {} {
      var other := SomeFailureIsFirst(stamps, failing, rest);
      DueBeforeIsTotal(stamps, rule, other);
      if DueBefore(stamps, rule, other) {
        forall r | r in rest && r != other ensures DueBefore(stamps, rule, r) {
          DueBeforeIsTransitive(stamps, rule, other, r);
        }
      } else {
        rule := other;
        assert DueBefore(stamps, other, picked);
      }
    }
  }

  lemma {:induction false} TicksKeepRules(stamps: Stamps, ticks: seq<Tick>, failing: set<string>)
    requires ValidTicks(stamps, ticks, failing)
    ensures AfterTicks(stamps, ticks, failing).Keys == stamps.Keys
    decreases |ticks|
  {
    if ticks != [] {
      StampingTouchesOnlyDone(stamps, Reached(ticks[0].page, failing), ticks[0].times);
      assert forall r :: r in Reached(ticks[0].page, failing) ==> r in ticks[0].page;
      TicksKeepRules(AfterTick(stamps, ticks[0], failing), ticks[1..], failing);
    }
  }

  /** The exact condition for fairness. With n rules, let the scheduler warm up for n ticks and then
      run for ceil(n / 1000) more: those evaluate every rule if no enabled rule fails, and none if one does. */
  lemma FairExactlyWithoutFailures(stamps: Stamps, failing: set<string>, warmup: seq<Tick>, ticks: seq<Tick>)
    requires failing <= stamps.Keys && stamps.Keys != {}
    requires ValidTicks(stamps, warmup, failing) && |warmup| == |stamps|
    requires ValidTicks(AfterTicks(stamps, warmup, failing), ticks, failing)
    requires |stamps| <= ALERT_RULE_PAGE_SIZE * |ticks|
    ensures failing == {} ==> stamps.Keys <= Evaluated(ticks, failing)
    ensures failing != {} ==> Evaluated(ticks, failing) == {}
  {
    if failing == {} {
      TicksKeepRules(stamps, warmup, failing);
      SchedulerIsFair(AfterTicks(stamps, warmup, failing), ticks);
    } else {
      var rule := SomeFailureIsFirst(stamps, failing, failing);
      forall r | r in failing && r != rule ensures r !in Ahead(stamps, rule) {
        DueBeforeIsTotal(stamps, rule, r);
      }
      SubsetSize(Ahead(stamps, rule), stamps.Keys);
      FailingRuleStopsTheScheduler(stamps, failing, rule, warmup, ticks);
    }
  }

  // ---------- failures that change from tick to tick ----------

  /** Ticks in a row, each with the rules that fail in it. */
  ghost predicate ValidTurns(stamps: Stamps, ticks: seq<Tick>, failures: seq<set<string>>)
    requires |ticks| == |failures|
    decreases |ticks|
  {
    ticks == [] ||
    (ValidTick(stamps, ticks[0]) && ValidTurns(AfterTick(stamps, ticks[0], failures[0]), ticks[1..], failures[1..]))
  }

  /** How many evaluations go through in them. */
  function Evaluations(ticks: seq<Tick>, failures: seq<set<string>>): nat
    requires |ticks| == |failures|
  {
    if ticks == [] then 0 else |Reached(ticks[0].page, failures[0])| + Evaluations(ticks[1..], failures[1..])
  }

  /** A tick in which `rule` fails gets only to rules ahead of it. */
  lemma OnlyRulesAheadAreReached(stamps: Stamps, rule: string, failing: set<string>, page: seq<string>)
    requires IsDuePage(stamps, page) && rule in stamps && rule in failing
    ensures Elements(Reached(page, failing)) <= Ahead(stamps, rule)
              && |Elements(Reached(page, failing))| == |Reached(page, failing)|
  {
    var done := Reached(page, failing);
    forall r | r in Elements(done) ensures r in Ahead(stamps, rule) {
      var i :| 0 <= i < |done| && done[i] == r;
      assert page[i] == r && r in page;
      if rule in page {
        var j :| 0 <= j < |page| && page[j] == rule;
        assert forall k :: 0 <= k < |done| ==> page[k] == done[k] != rule;
      }
    }
    DuePageIsDistinct(stamps, page);
    DistinctSeqSize(done);
  }

  /** Every evaluation in such a tick moves one rule from before the failing rule to behind it. */
  lemma TickUsesUpAhead(stamps: Stamps, rule: string, tick: Tick, failing: set<string>)
    requires ValidTick(stamps, tick) && rule in stamps && rule in failing
    ensures var after := AfterTick(stamps, tick, failing);
            after.Keys == stamps.Keys && rule in after
            && |Reached(tick.page, failing)| + |Ahead(after, rule)| == |Ahead(stamps, rule)|
  {
    var done := Reached(tick.page, failing);
    OnlyRulesAheadAreReached(stamps, rule, failing, tick.page);
    assert forall r :: r in done ==> r in Elements(done);
    AheadShrinks(stamps, rule, done, tick.times);
    SubsetSize(Elements(done), Ahead(stamps, rule));
  }

  /** While one rule keeps failing, whatever else fails or stops failing, only rules that were ahead of it are ever
      evaluated, each at most once: all other evaluation has stopped. */
  lemma {:induction false} OneFailingRuleStarvesTheRest(stamps: Stamps, rule: string, ticks: seq<Tick>,
                                                        failures: seq<set<string>>)
    requires rule in stamps && |ticks| == |failures| && ValidTurns(stamps, ticks, failures)
    requires forall i :: 0 <= i < |failures| ==> rule in failures[i]
    ensures Evaluations(ticks, failures) <= |Ahead(stamps, rule)|
    decreases |ticks|
  {
    if ticks != [] {
      TickUsesUpAhead(stamps, rule, ticks[0], failures[0]);
      OneFailingRuleStarvesTheRest(AfterTick(stamps, ticks[0], failures[0]), rule, ticks[1..], failures[1..]);
    }
  }

  // ---------- the tick itself ----------

  /** Never evaluated, or longer ago; by id among rules of one moment. */
  predicate LongerAgo(stamps: Stamps, a: string, b: string) {
    && a in stamps && b in stamps
    && (stamps[b].None? ==> stamps[a].None?)
    && (stamps[a].Some? && stamps[b].Some? ==> stamps[a].value <= stamps[b].value)
    && (stamps[a] == stamps[b] ==> TextBefore(a, b))
  }

  class Scheduler {
    var lastEvaluated: Stamps

    constructor (rules: set<string>)
      ensures lastEvaluated == map r | r in rules :: None
    {
      lastEvaluated := map r | r in rules :: None;
    }

    method SelectDue() returns (page: seq<string>)
      ensures IsDuePage(lastEvaluated, page)
      ensures |page| == MinInt(1000, |lastEvaluated|)
      ensures forall i, j :: 0 <= i < j < |page| ==> LongerAgo(lastEvaluated, page[i], page[j])
      ensures forall p, r :: p in page && r in lastEvaluated && r !in page ==> LongerAgo(lastEvaluated, p, r)
    {
      page := [];
      var rest := lastEvaluated.Keys;
      while |page| < ALERT_RULE_PAGE_SIZE && rest != {}
        invariant rest <= lastEvaluated.Keys && |page| + |rest| == |lastEvaluated.Keys|
        invariant |page| <= ALERT_RULE_PAGE_SIZE
        invariant forall r :: r in page ==> r in lastEvaluated
        invariant forall r :: r in lastEvaluated ==> r in page || r in rest
        invariant forall i, j :: 0 <= i < j < |page| ==> DueBefore(lastEvaluated, page[i], page[j])
        invariant forall p, r :: p in page && r in rest ==> DueBefore(lastEvaluated, p, r)
        decreases rest
      {
        ghost var _ := SomeFailureIsFirst(lastEvaluated, rest, rest);
        var next :| next in rest && forall r :: r in rest && r != next ==> DueBefore(lastEvaluated, next, r);
        page := page + [next];
        rest := rest - {next};
      }
    }

    /** The body of a tick: evaluate and stamp the page rule by rule, stopping at the first error. */
    method EvaluatePage(page: seq<string>, failing: set<string>, times: seq<int>) returns (ok: bool)
      requires |times| == |page|
      modifies this
      ensures lastEvaluated == StampAll(old(lastEvaluated), Reached(page, failing), times)
      ensures ok <==> forall r :: r in page ==> r !in failing
    {
      ghost var done := Reached(page, failing);
      for i := 0 to |page|
        invariant i <= |done|
        invariant lastEvaluated == StampAll(old(lastEvaluated), page[..i], times)
      {
        if page[i] in failing {
          return false;
        }
        StampOneMore(old(lastEvaluated), page, i, times);
        lastEvaluated := lastEvaluated[page[i] := Some(times[i])];
      }
      assert done == page;
      return true;
    }

    /** One tick. `failing` are the rules whose evaluation returns an error, `times` the clock at each stamp. */
    method EvaluateRulesOnce(failing: set<string>, times: seq<int>) returns (ok: bool, ghost tick: Tick)
      requires |times| == MinInt(ALERT_RULE_PAGE_SIZE, |lastEvaluated|) && Later(lastEvaluated, times)
      modifies this
      ensures tick.times == times && ValidTick(old(lastEvaluated), tick)
      ensures lastEvaluated == AfterTick(old(lastEvaluated), tick, failing)
      ensures ok <==> forall r :: r in tick.page ==> r !in failing
    {
      var page := SelectDue();
      tick := Tick(page, times);
      ok := EvaluatePage(page, failing, times);
    }
  }
}
