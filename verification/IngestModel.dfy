/**
 Durable ingest as one state machine over Postgres and the object store.

 A request is identified by the event id it draws, which also names its object key. One step is
 one committed statement or transaction, or one object-store call. Requests, their crashes, and
 any number of reconcile passes interleave freely.
 */
module IngestModel {
  import opened Common

  type Key = string

  const ORPHAN_GRACE_SECONDS := 3600
  const RECONCILE_BATCH := 16

  datatype Outcome = Accepted(event: Key, deduplicated: bool) | Rejected | CommitUncertain

  /** Where a request stands between two steps. */
  datatype Phase =
    | Registered
    | Uploaded
    | LookedUp
    | Conflicted
    | Cleaning(outcome: Outcome)
    | Clearing(outcome: Outcome)
    | Marking(outcome: Outcome)
    | Done(outcome: Outcome)
    | Gone

  datatype Request = Request(project: string, guid: Option<string>, registeredAt: int, phase: Phase)

  datatype Orphan = Orphan(attempts: nat, createdAt: int)

  datatype Event = Event(project: string, guid: Option<string>)

  /** `events`, `objects` and `jobs` are the three tables one accepted crash writes; `store` is the
      object store. `selected` are the keys that reconcile passes have in hand, once for each pass; a pass
      may act on its selection arbitrarily later, and does so once. `doomed` are all keys ever selected,
      `purged` the ones a pass has deleted. */
  datatype State = State(now: int, requests: map<Key, Request>, store: set<Key>, orphans: map<Key, Orphan>,
                         events: map<Key, Event>, objects: map<Key, Key>, jobs: map<Key, Key>,
                         selected: multiset<Key>, doomed: set<Key>, purged: set<Key>)

  datatype Step =
    | Advance(to: int)
    | Register(key: Key, project: string)
    | RegisterUnanswered(key: Key)
    | Upload(key: Key, guid: Option<string>)
    | UploadFailed(key: Key, stored: bool)
    | Discard(key: Key)
    | Lookup(key: Key)
    | Commit(key: Key, acknowledged: bool)
    | CommitLost(key: Key)
    | Adopt(key: Key)
    | DeleteObject(key: Key, ok: bool, gone: bool)
    | ClearOrphan(key: Key, ok: bool)
    | MarkOrphan(key: Key, ok: bool)
    | Crash(key: Key)
    | SelectOrphan(key: Key)
    | PurgeObject(key: Key, ok: bool, gone: bool)
    | PurgeOrphan(key: Key)
    | PostponeOrphan(key: Key)

  predicate FreshKey(s: State, key: Key) {
    key !in s.requests && key !in s.orphans && key !in s.store && key !in s.events && key !in s.doomed
        && key !in s.purged
  }

  predicate At(s: State, key: Key, phase: Phase) {
    key in s.requests && s.requests[key].phase == phase
  }

  /** The upload deadline and the grace period together: a request that still stores or
      commits does so within the grace period of its registration. */
  predicate InTime(s: State, key: Key) {
    key in s.requests && s.now <= s.requests[key].registeredAt + ORPHAN_GRACE_SECONDS
  }

  /** The partial unique index on (project, crash_guid). */
  predicate Taken(s: State, project: string, guid: Option<string>) {
    guid.Some? && exists e :: e in s.events && s.events[e] == Event(project, guid)
  }

  predicate Collectable(s: State, key: Key) {
    key in s.orphans && (s.orphans[key].attempts > 0 || s.orphans[key].createdAt < s.now - ORPHAN_GRACE_SECONDS)
  }

  predicate Enabled(s: State, step: Step) {
    match step
    case Advance(to) => s.now <= to
    case Register(key, _) => FreshKey(s, key)
    case RegisterUnanswered(key) => FreshKey(s, key)
    case Upload(key, _) => At(s, key, Registered) && InTime(s, key)
    case UploadFailed(key, _) => At(s, key, Registered) && InTime(s, key)
    case Discard(key) => At(s, key, Uploaded) || At(s, key, LookedUp) || At(s, key, Conflicted)
    case Lookup(key) => At(s, key, Uploaded)
    case Commit(key, _) => At(s, key, LookedUp) && InTime(s, key)
    case CommitLost(key) => At(s, key, LookedUp)
    case Adopt(key) => At(s, key, Conflicted) && Taken(s, s.requests[key].project, s.requests[key].guid)
    case DeleteObject(key, _, _) => key in s.requests && s.requests[key].phase.Cleaning?
    case ClearOrphan(key, _) => key in s.requests && s.requests[key].phase.Clearing?
    case MarkOrphan(key, _) => key in s.requests && s.requests[key].phase.Marking?
    case Crash(key) => key in s.requests && !s.requests[key].phase.Done?
    case SelectOrphan(key) => Collectable(s, key)
    case PurgeObject(key, _, _) => key in s.selected
    case PurgeOrphan(key) => key in s.purged
    case PostponeOrphan(key) => key in s.doomed
  }

  function Go(s: State, key: Key, phase: Phase): State
    requires key in s.requests
  {
    s.(requests := s.requests[key := s.requests[key].(phase := phase)])
  }

  ghost function Owner(s: State, project: string, guid: Option<string>): (e: Key)
    requires Taken(s, project, guid)
    ensures e in s.events && s.events[e] == Event(project, guid)
  {
    var e :| e in s.events && s.events[e] == Event(project, guid);
    e
  }

  function Remove<V>(m: map<Key, V>, key: Key): map<Key, V> {
    m - {key}
  }

  ghost function Apply(s: State, step: Step): State
    requires Enabled(s, step)
  {
    match step
    case Advance(to) => s.(now := to)
    case Register(key, project) =>
      s.(requests := s.requests[key := Request(project, None, s.now, Registered)],
         orphans := s.orphans[key := Orphan(0, s.now)])
    case RegisterUnanswered(key) => s.(orphans := s.orphans[key := Orphan(0, s.now)])
    case Upload(key, guid) =>
      s.(store := s.store + {key},
         requests := s.requests[key := s.requests[key].(phase := Uploaded, guid := guid)])
    case UploadFailed(key, stored) =>
      Go(s.(store := if stored then s.store + {key} else s.store), key, Cleaning(Rejected))
    case Discard(key) => Go(s, key, Cleaning(Rejected))
    case Lookup(key) =>
      var r := s.requests[key];
      if Taken(s, r.project, r.guid) then Go(s, key, Cleaning(Accepted(Owner(s, r.project, r.guid), true)))
      else Go(s, key, LookedUp)
    case Commit(key, acknowledged) =>
      var r := s.requests[key];
      if Taken(s, r.project, r.guid) then Go(s, key, Conflicted)
      else
        Go(s.(events := s.events[key := Event(r.project, r.guid)],
              objects := s.objects[key := key], jobs := s.jobs[key := key],
              orphans := Remove(s.orphans, key)),
           key, Done(if acknowledged then Accepted(key, false) else CommitUncertain))
    case CommitLost(key) => Go(s, key, Done(CommitUncertain))
    case Adopt(key) =>
      var r := s.requests[key];
      Go(s, key, Cleaning(Accepted(Owner(s, r.project, r.guid), true)))
    case DeleteObject(key, ok, gone) =>
      var o := s.requests[key].phase.outcome;
      if ok then Go(s.(store := s.store - {key}), key, Clearing(o))
      else Go(s.(store := if gone then s.store - {key} else s.store), key, Marking(o))
    case ClearOrphan(key, ok) =>
      Go(s.(orphans := if ok then Remove(s.orphans, key) else s.orphans), key, Done(s.requests[key].phase.outcome))
    case MarkOrphan(key, ok) =>
      var row :=
        if key in s.orphans then s.orphans[key].(attempts := s.orphans[key].attempts + 1)
        else Orphan(1, s.now);
      Go(s.(orphans := if ok then s.orphans[key := row] else s.orphans), key, Done(s.requests[key].phase.outcome))
    case Crash(key) => Go(s, key, Gone)
    case SelectOrphan(key) => s.(selected := s.selected + multiset{key}, doomed := s.doomed + {key})
    case PurgeObject(key, ok, gone) =>
      s.(store := if ok || gone then s.store - {key} else s.store,
         selected := s.selected - multiset{key},
         purged := if ok then s.purged + {key} else s.purged)
    case PurgeOrphan(key) => s.(orphans := Remove(s.orphans, key))
    case PostponeOrphan(key) =>
      if key !in s.orphans then s
      else s.(orphans := s.orphans[key := s.orphans[key].(attempts := s.orphans[key].attempts + 1)])
  }

  function Initial(now: int): State {
    State(now, map[], {}, map[], map[], map[], map[], multiset{}, {}, {})
  }

  ghost predicate ValidRun(s: State, steps: seq<Step>)
    decreases |steps|
  {
    steps == [] || (Enabled(s, steps[0]) && ValidRun(Apply(s, steps[0]), steps[1..]))
  }

  ghost function Run(s: State, steps: seq<Step>): State
    requires ValidRun(s, steps)
    decreases |steps|
  {
    if steps == [] then s else Run(Apply(s, steps[0]), steps[1..])
  }

  lemma {:induction false} RunConcat(s: State, a: seq<Step>, b: seq<Step>)
    requires ValidRun(s, a)
    requires ValidRun(Run(s, a), b)
    ensures ValidRun(s, a + b) && Run(s, a + b) == Run(Run(s, a), b)
    decreases |a|
  {
    if a == [] {
      assert a + b == b;
    } else {
      RunConcat(Apply(s, a[0]), a[1..], b);
      assert (a + b)[0] == a[0] && (a + b)[1..] == a[1..] + b;
    }
  }

  lemma RunThen(s: State, steps: seq<Step>, step: Step)
    requires ValidRun(s, steps) && Enabled(Run(s, steps), step)
    ensures ValidRun(s, steps + [step]) && Run(s, steps + [step]) == Apply(Run(s, steps), step)
  {
    var t := Run(s, steps);
    assert [step][0] == step && [step][1..] == [];
    assert ValidRun(Apply(t, step), []) && Run(Apply(t, step), []) == Apply(t, step);
    assert ValidRun(t, [step]) && Run(t, [step]) == Apply(t, step);
    RunConcat(s, steps, [step]);
  }
}
