/** The payload an evaluator builds, and how large it can get: of its parts only the base URL is unbounded. */
module AlertPayload {
  import opened Common
  import opened AlertModel
  import opened AlertEvaluation

  const UUID_LENGTH := 36
  const MAX_NAME_BYTES := 80
  const MAX_ENVIRONMENT := 32
  const MAX_TITLE := 200

  /** Longest name of a condition and longest text of a 64-bit count. */
  const MAX_WORD := 20

  /** JSON keys, punctuation and the two stamped members take less than this. */
  const FRAME_BYTES := 300

  /** With a base URL of this length every payload fits. */
  const SAFE_BASE_URL := 2000

  const ORDINARY_BODY := SAFE_BASE_URL + |"/projects/"| + |"/issues/"| + 3 * UUID_LENGTH
                         + MAX_NAME_BYTES + MAX_ENVIRONMENT + MAX_TITLE + 2 * MAX_WORD

  /** The texts of a payload besides its ids and its link. */
  datatype Details = Details(condition: string, projectName: string, environment: string, title: Option<string>,
                             count: string)

  function TextOf(o: Option<string>): string {
    if o.Some? then o.value else ""
  }

  /** Setup bounds the project name; the schema bounds the environment and the issue title. */
  predicate Bounded(rule: Rule, d: Details, issue: Option<string>) {
    && |rule.project| == UUID_LENGTH && |TextOf(issue)| <= UUID_LENGTH
    && |d.projectName| <= MAX_NAME_BYTES && |d.environment| <= MAX_ENVIRONMENT && |TextOf(d.title)| <= MAX_TITLE
    && |d.condition| <= MAX_WORD && |d.count| <= MAX_WORD
  }

  function TrimSlashes(base: string): (trimmed: string)
    ensures |trimmed| <= |base|
  {
    if base != [] && base[|base| - 1] == '/' then TrimSlashes(base[..|base| - 1]) else base
  }

  function Link(base: string, project: string, issue: Option<string>): string {
    TrimSlashes(base) + "/projects/" + project + (if issue.Some? then "/issues/" + issue.value else "")
  }

  /** Slashes at the end of the base make no difference to a link. */
  lemma {:induction false} LinkOfBase(base: string, project: string, issue: Option<string>)
    ensures Link(base + "/", project, issue) == Link(base, project, issue)
    ensures (base == "" || base[|base| - 1] != '/') && issue.None? ==>
              Link(base, project, issue) == base + "/projects/" + project
    ensures (base == "" || base[|base| - 1] != '/') && issue.Some? ==>
              Link(base, project, issue) == base + "/projects/" + project + "/issues/" + issue.value
  {
    assert (base + "/")[..|base + "/"| - 1] == base;
  }

  /** `body` collects the texts other than the issue id. */
  function BasePayload(rule: Rule, d: Details, base: string, issue: Option<string>): Payload {
    var texts := d.condition + rule.project + d.projectName + d.environment + TextOf(d.title) + d.count;
    Payload(issue, texts + Link(base, rule.project, issue), None, None)
  }

  /** A JSON writer spends one to six bytes on each character of a text. */
  ghost predicate WritesJson(encoded: Payload -> nat) {
    forall p: Payload :: |p.body| <= encoded(p) <= 6 * (|p.body| + |TextOf(p.issue)|) + FRAME_BYTES
  }

  predicate Ordinary(payload: Payload) {
    |payload.body| <= ORDINARY_BODY && |TextOf(payload.issue)| <= UUID_LENGTH
  }

  lemma OrdinaryPayloadsFit(payload: Payload, active: bool, encoded: Payload -> nat, clock: int)
    requires WritesJson(encoded) && Ordinary(payload)
    ensures PayloadFits(payload, active, encoded, clock)
  {
    var stamped := Stamp(payload, active, clock);
    assert stamped.body == payload.body && stamped.issue == payload.issue;
    assert encoded(stamped) <= 6 * (|stamped.body| + |TextOf(stamped.issue)|) + FRAME_BYTES;
  }

  /** A payload can outgrow the limit through PUBLIC_BASE_URL alone: with a base URL of at most 2000 characters
      it always fits, and with one of more than 16384 characters it blocks a scope that is not active. */
  lemma OnlyALongBaseUrlBlocks(conditions: map<ConditionKey, Condition>, rule: Rule, d: Details, base: string,
                               issue: Option<string>, scope: string, encoded: Payload -> nat)
    requires WritesJson(encoded) && Bounded(rule, d, issue)
    ensures |base| <= SAFE_BASE_URL ==> Ordinary(BasePayload(rule, d, base, issue))
    ensures |TrimSlashes(base)| > MAX_PAYLOAD_BYTES && !IsActive(conditions, rule, scope) ==>
              NeverActivates(conditions, rule, scope, BasePayload(rule, d, base, issue), encoded)
  {
    var payload := BasePayload(rule, d, base, issue);
    assert |payload.body| >= |TrimSlashes(base)|;
    forall clock | |TrimSlashes(base)| > MAX_PAYLOAD_BYTES && !IsActive(conditions, rule, scope)
      ensures !CanActivate(conditions, rule, scope, payload, encoded, clock)
    {
      assert encoded(Stamp(payload, true, clock)) >= |payload.body|;
    }
  }

  /** Rules whose observed and stored payloads are ordinary never fail for their size. */
  lemma OrdinaryPayloadsGoThrough(conditions: map<ConditionKey, Condition>, rule: Rule, observed: Observations,
                                  encoded: Payload -> nat, clock: int)
    requires WritesJson(encoded)
    requires forall scope :: scope in observed ==> ScopeFits(scope) && Ordinary(observed[scope])
    requires forall scope :: IsActive(conditions, rule, scope) ==>
               ScopeFits(scope) && Ordinary(conditions[KeyOf(rule, scope)].payload)
    ensures Evaluable(conditions, rule, observed, encoded, clock)
  {
    ActiveScopesAreActive(conditions, rule);
    forall scope | scope in observed ensures CanActivate(conditions, rule, scope, observed[scope], encoded, clock) {
      OrdinaryPayloadsFit(observed[scope], true, encoded, clock);
    }
    forall scope | IsActive(conditions, rule, scope) ensures CanRecover(conditions, rule, scope, encoded, clock) {
      OrdinaryPayloadsFit(conditions[KeyOf(rule, scope)].payload, false, encoded, clock);
    }
  }
}
