/** What every interleaving of submissions, crashes and reconcile passes keeps. */
module IngestTheorems {
  import opened Common
  import opened IngestModel

  // ---------- the invariant, key by key ----------

  predicate Finished(phase: Phase) {
    phase.Cleaning? || phase.Clearing? || phase.Marking? || phase.Done? || phase.Gone?
  }

  /** The request behind this key can no longer store its object or commit its event. */
  ghost predicate Dead(s: State, key: Key) {
    key !in s.events &&
    (key !in s.requests || Finished(s.requests[key].phase) || !InTime(s, key))
  }

  ghost predicate StorageOk(s: State, key: Key) {
    && (key in s.store ==> key in s.orphans || key in s.events)
    && (key in s.events ==>
        key in s.store && key in s.requests && (s.requests[key].phase.Done? || s.requests[key].phase.Gone?))
    && (key in s.orphans ==> key !in s.events)
    && (key in s.selected ==> key in s.doomed)
    && (key in s.doomed ==> Dead(s, key))
    && (key in s.purged ==> key in s.doomed && key !in s.store)
    && (key in s.orphans && s.orphans[key].attempts > 0 ==> Dead(s, key))
    && (key in s.orphans && s.orphans[key].attempts == 0 && key in s.requests ==>
          s.orphans[key].createdAt == s.requests[key].registeredAt)
  }

  ghost predicate OutcomeOk(s: State, key: Key, outcome: Outcome)
    requires key in s.requests
  {
    match outcome
    case Accepted(event, deduplicated) =>
      && event in s.events && s.events[event] == Event(s.requests[key].project, s.requests[key].guid)
      && if deduplicated then key !in s.events && s.requests[key].guid.Some? else event == key
    case Rejected => key !in s.events
    case CommitUncertain => true
  }

  ghost predicate PhaseOk(s: State, key: Key)
    requires key in s.requests
  {
    match s.requests[key].phase
    case Registered => key !in s.events && (key in s.orphans || key in s.doomed)
    case Uploaded => key !in s.events && (key in s.store || key in s.doomed)
    case LookedUp => key !in s.events && (key in s.store || key in s.doomed)
    case Conflicted => key !in s.events && (key in s.store || key in s.doomed)
    case Cleaning(o) => key !in s.events && OutcomeOk(s, key, o)
    case Clearing(o) => key !in s.events && key !in s.store && OutcomeOk(s, key, o)
    case Marking(o) => key !in s.events && OutcomeOk(s, key, o)
    case Done(o) => OutcomeOk(s, key, o)
    case Gone => true
  }

  ghost predicate RowsOk(s: State, key: Key) {
    && (key in s.events <==> key in s.objects)
    && (key in s.events <==> key in s.jobs)
    && (key in s.events ==>
          key in s.requests && s.objects[key] == key && s.jobs[key] == key
          && s.events[key] == Event(s.requests[key].project, s.requests[key].guid))
  }

  ghost predicate KeyOk(s: State, key: Key) {
    StorageOk(s, key) && (key in s.requests ==> PhaseOk(s, key)) && RowsOk(s, key)
  }

  ghost predicate GuidsUnique(s: State) {
    forall d, e :: d in s.events && e in s.events && s.events[d].guid.Some? && s.events[d] == s.events[e] ==> d == e
  }

  ghost predicate Inv(s: State) {
    GuidsUnique(s) && forall key: Key :: KeyOk(s, key)
  }

  // ---------- one step ----------

  function KeyOf(step: Step): Key {
    match step
    case Advance(_) => ""
    case Register(key, _) => key
    case RegisterUnanswered(key) => key
    case Upload(key, _) => key
    case UploadFailed(key, _) => key
    case Discard(key) => key
    case Lookup(key) => key
    case Commit(key, _) => key
    case CommitLost(key) => key
    case Adopt(key) => key
    case DeleteObject(key, _, _) => key
    case ClearOrphan(key, _) => key
    case MarkOrphan(key, _) => key
    case Crash(key) => key
    case SelectOrphan(key) => key
    case PurgeObject(key, _, _) => key
    case PurgeOrphan(key) => key
    case PostponeOrphan(key) => key
  }

  ghost predicate SameRow<V(!new)>(a: map<Key, V>, b: map<Key, V>, key: Key) {
    (key in a <==> key in b) && (key in a ==> a[key] == b[key])
  }

  ghost predicate SameAt(s: State, t: State, key: Key) {
    SameRow(s.requests, t.requests, key) && (key in s.store <==> key in t.store) && SameRow(s.orphans, t.orphans, key)
    && SameRow(s.events, t.events, key) && SameRow(s.objects, t.objects, key) && SameRow(s.jobs, t.jobs, key)
    && s.selected[key] == t.selected[key] && (key in s.doomed <==> key in t.doomed)
    && (key in s.purged <==> key in t.purged)
  }

  ghost predicate EventsKept(s: State, t: State) {
    forall e :: e in s.events ==> e in t.events && t.events[e] == s.events[e]
  }

  lemma UntouchedKeyOk(s: State, t: State, key: Key)
    requires KeyOk(s, key) && SameAt(s, t, key) && EventsKept(s, t) && s.now <= t.now
    ensures KeyOk(t, key)
  {
  }

  predicate IsRequestStep(step: Step) {
    step.Register? || step.RegisterUnanswered? || step.Upload? || step.UploadFailed? || step.Discard? || step.Lookup?
    || step.CommitLost? || step.Adopt? || step.Crash?
  }

  predicate IsCleanupStep(step: Step) {
    step.DeleteObject? || step.ClearOrphan? || step.MarkOrphan?
  }

  predicate IsReconcileStep(step: Step) {
    step.SelectOrphan? || step.PurgeObject? || step.PurgeOrphan? || step.PostponeOrphan?
  }

  lemma RequestStepTouchesOneKey(s: State, step: Step, key: Key)
    requires IsRequestStep(step) && Enabled(s, step) && key != KeyOf(step)
    ensures SameAt(s, Apply(s, step), key)
  {
  }

  lemma CommitTouchesOneKey(s: State, step: Step, key: Key)
    requires step.Commit? && Enabled(s, step) && key != KeyOf(step)
    ensures SameAt(s, Apply(s, step), key)
  {
  }

  lemma CleanupStepTouchesOneKey(s: State, step: Step, key: Key)
    requires IsCleanupStep(step) && Enabled(s, step) && key != KeyOf(step)
    ensures SameAt(s, Apply(s, step), key)
  {
  }

  lemma ReconcileStepTouchesOneKey(s: State, step: Step, key: Key)
    requires IsReconcileStep(step) && Enabled(s, step) && key != KeyOf(step)
    ensures SameAt(s, Apply(s, step), key)
  {
  }

  lemma StepTouchesOneKey(s: State, step: Step, key: Key)
    requires Enabled(s, step) && key != KeyOf(step) && !step.Advance?
    ensures SameAt(s, Apply(s, step), key)
  {
    if IsRequestStep(step) {
      RequestStepTouchesOneKey(s, step, key);
    } else if step.Commit? {
      CommitTouchesOneKey(s, step, key);
    } else if IsCleanupStep(step) {
      CleanupStepTouchesOneKey(s, step, key);
    } else {
      ReconcileStepTouchesOneKey(s, step, key);
    }
  }

  lemma StepKeepsEvents(s: State, step: Step)
    requires Inv(s) && Enabled(s, step)
    ensures EventsKept(s, Apply(s, step)) && s.now <= Apply(s, step).now
  {
    assert KeyOk(s, KeyOf(step));
  }

  /** The key a request step works on. */
  lemma RequestStepKeepsKey(s: State, step: Step)
    requires KeyOk(s, KeyOf(step)) && Enabled(s, step)
    requires IsRequestStep(step)
    ensures KeyOk(Apply(s, step), KeyOf(step))
  {
  }

  lemma CommitKeepsKey(s: State, key: Key, acknowledged: bool)
    requires KeyOk(s, key) && Enabled(s, Commit(key, acknowledged))
    ensures KeyOk(Apply(s, Commit(key, acknowledged)), key)
  {
  }

  lemma DeleteObjectKeepsKey(s: State, step: Step)
    requires KeyOk(s, KeyOf(step)) && Enabled(s, step)
    requires step.DeleteObject?
    ensures KeyOk(Apply(s, step), KeyOf(step))
  {
  }

  lemma CleanupStepKeepsKey(s: State, step: Step)
    requires KeyOk(s, KeyOf(step)) && Enabled(s, step)
    requires IsCleanupStep(step)
    ensures KeyOk(Apply(s, step), KeyOf(step))
  {
    if step.DeleteObject? {
      DeleteObjectKeepsKey(s, step);
    }
  }

  lemma ReconcileStepKeepsKey(s: State, step: Step)
    requires KeyOk(s, KeyOf(step)) && Enabled(s, step)
    requires IsReconcileStep(step)
    ensures KeyOk(Apply(s, step), KeyOf(step))
  {
  }

  lemma CommitKeepsGuidsUnique(s: State, step: Step)
    requires Enabled(s, step) && GuidsUnique(s)
    ensures GuidsUnique(Apply(s, step))
  {
    if step.Commit? {
      var r := s.requests[step.key];
      assert Taken(s, r.project, r.guid) <==>
             r.guid.Some? && exists e :: e in s.events && s.events[e] == Event(r.project, r.guid);
    }
  }

  lemma StepKeepsInv(s: State, step: Step)
    requires Inv(s) && Enabled(s, step)
    ensures Inv(Apply(s, step))
  {
    var t := Apply(s, step);
    CommitKeepsGuidsUnique(s, step);
    StepKeepsEvents(s, step);
    forall key: Key ensures KeyOk(t, key) {
      assert KeyOk(s, key);
      if step.Advance? {
        UntouchedKeyOk(s, t, key);
      } else if key != KeyOf(step) {
        StepTouchesOneKey(s, step, key);
        UntouchedKeyOk(s, t, key);
      } else if step.Commit? {
        CommitKeepsKey(s, key, step.acknowledged);
      } else if IsCleanupStep(step) {
        CleanupStepKeepsKey(s, step);
      } else if IsReconcileStep(step) {
        ReconcileStepKeepsKey(s, step);
      } else {
        RequestStepKeepsKey(s, step);
      }
    }
  }

  lemma {:induction false} RunKeepsInv(s: State, steps: seq<Step>)
    requires Inv(s) && ValidRun(s, steps)
    ensures Inv(Run(s, steps))
    decreases |steps|
  {
    if steps != [] {
      StepKeepsInv(s, steps[0]);
      RunKeepsInv(Apply(s, steps[0]), steps[1..]);
    }
  }

  lemma {:induction false} RunKeepsEvents(s: State, steps: seq<Step>)
    requires Inv(s) && ValidRun(s, steps)
    ensures EventsKept(s, Run(s, steps))
    decreases |steps|
  {
    if steps != [] {
      StepKeepsInv(s, steps[0]);
      StepKeepsEvents(s, steps[0]);
      RunKeepsEvents(Apply(s, steps[0]), steps[1..]);
    }
  }

  lemma InitialIsGood(now: int)
    ensures Inv(Initial(now))
  {
  }

  // ---------- the promises ----------

  /** At every moment of every run: a stored object is referenced by a committed event or listed for
      reconciliation, and the object of a committed event is in the store. */
  lemma NothingLostNothingLeaked(now: int, steps: seq<Step>, key: Key)
    requires ValidRun(Initial(now), steps)
    ensures var s := Run(Initial(now), steps);
            (key in s.store ==> key in s.events || key in s.orphans) && (key in s.events ==> key in s.store)
  {
    InitialIsGood(now);
    RunKeepsInv(Initial(now), steps);
    assert KeyOk(Run(Initial(now), steps), key);
  }

  /** Once committed, an event and its object stay, whatever requests and reconcile passes do later. */
  lemma CommittedObjectsAreNeverDeleted(now: int, steps: seq<Step>, more: seq<Step>, key: Key)
    requires ValidRun(Initial(now), steps) && ValidRun(Run(Initial(now), steps), more)
    requires key in Run(Initial(now), steps).events
    ensures var s := Run(Initial(now), steps);
            var t := Run(s, more);
            key in t.store && key in t.events && t.events[key] == s.events[key]
  {
    var s := Run(Initial(now), steps);
    InitialIsGood(now);
    RunKeepsInv(Initial(now), steps);
    RunKeepsInv(s, more);
    RunKeepsEvents(s, more);
    assert KeyOk(Run(s, more), key);
  }

  /** Every committed event has exactly one object row and one job, and nothing else has. */
  lemma EachEventHasOneObjectAndOneJob(now: int, steps: seq<Step>)
    requires ValidRun(Initial(now), steps)
    ensures var s := Run(Initial(now), steps);
            s.events.Keys == s.objects.Keys == s.jobs.Keys
            && forall e :: e in s.events ==> s.objects[e] == e && s.jobs[e] == e
  {
    var s := Run(Initial(now), steps);
    InitialIsGood(now);
    RunKeepsInv(Initial(now), steps);
    forall e: Key
      ensures (e in s.events <==> e in s.objects) && (e in s.events <==> e in s.jobs)
      ensures e in s.events ==> s.objects[e] == e && s.jobs[e] == e
    {
      assert KeyOk(s, e);
    }
  }

  predicate Answered(s: State, key: Key, event: Key, deduplicated: bool) {
    At(s, key, Done(Accepted(event, deduplicated)))
  }

  /** All accepted answers to submissions of one crash name the same committed event, and at most
      one of them claims to be the first. */
  lemma OneEventPerCrash(now: int, steps: seq<Step>, a: Key, b: Key, event: Key, other: Key, first: bool, second: bool)
    requires ValidRun(Initial(now), steps)
    requires var s := Run(Initial(now), steps);
             Answered(s, a, event, !first) && Answered(s, b, other, !second)
             && s.requests[a].project == s.requests[b].project
             && s.requests[a].guid == s.requests[b].guid && s.requests[a].guid.Some?
    ensures var s := Run(Initial(now), steps);
            event == other && event in s.events && s.events[event] == Event(s.requests[a].project, s.requests[a].guid)
    ensures first && second ==> a == b
    ensures first <==> event == a
  {
    var s := Run(Initial(now), steps);
    InitialIsGood(now);
    RunKeepsInv(Initial(now), steps);
    assert KeyOk(s, a) && KeyOk(s, b);
  }

  lemma OneCommittedEventPerCrash(now: int, steps: seq<Step>, d: Key, e: Key)
    requires ValidRun(Initial(now), steps)
    requires var s := Run(Initial(now), steps);
             d in s.events && e in s.events && s.events[d] == s.events[e] && s.events[d].guid.Some?
    ensures d == e
  {
    InitialIsGood(now);
    RunKeepsInv(Initial(now), steps);
  }

  lemma {:induction false} DoomedStays(s: State, steps: seq<Step>, key: Key)
    requires ValidRun(s, steps) && key in s.doomed
    ensures key in Run(s, steps).doomed && (key in s.purged ==> key in Run(s, steps).purged)
    decreases |steps|
  {
    if steps != [] {
      DoomedStays(Apply(s, steps[0]), steps[1..], key);
    }
  }

  lemma {:induction false} PurgedStays(s: State, steps: seq<Step>)
    requires ValidRun(s, steps)
    ensures s.purged <= Run(s, steps).purged
    decreases |steps|
  {
    if steps != [] {
      PurgedStays(Apply(s, steps[0]), steps[1..]);
    }
  }

  /** A request is registered once, and uploads once under one guid, which is the one it commits under. */
  lemma StepKeepsIdentity(s: State, step: Step, key: Key)
    requires Enabled(s, step) && key in s.requests
    ensures !(step.Register? && step.key == key)
    ensures key in Apply(s, step).requests && Apply(s, step).requests[key].project == s.requests[key].project
    ensures s.requests[key].phase != Registered ==>
              !(step.Upload? && step.key == key) && Apply(s, step).requests[key].phase != Registered
                  && Apply(s, step).requests[key].guid == s.requests[key].guid
    ensures step.Upload? && step.key == key ==>
              Apply(s, step).requests[key].phase != Registered && Apply(s, step).requests[key].guid == step.guid
  {
    if !step.Advance? && KeyOf(step) != key {
      StepTouchesOneKey(s, step, key);
    }
  }

  /** No step uploads this object under another guid than this one. */
  predicate UploadsOnlyAs(steps: seq<Step>, key: Key, guid: Option<string>) {
    forall step :: step in steps && step.Upload? && step.key == key ==> step.guid == guid
  }

  /** No step registers this object once more. */
  predicate RegistersNoMore(steps: seq<Step>, key: Key) {
    forall step :: step in steps ==> !(step.Register? && step.key == key)
  }

  lemma {:induction false} RunKeepsIdentity(s: State, steps: seq<Step>, key: Key)
    requires ValidRun(s, steps) && key in s.requests
    ensures RegistersNoMore(steps, key)
    ensures key in Run(s, steps).requests && Run(s, steps).requests[key].project == s.requests[key].project
    ensures s.requests[key].phase != Registered ==>
              Run(s, steps).requests[key].phase != Registered
                  && Run(s, steps).requests[key].guid == s.requests[key].guid
    ensures UploadsOnlyAs(steps, key, Run(s, steps).requests[key].guid)
    decreases |steps|
  {
    if steps != [] {
      StepKeepsIdentity(s, steps[0], key);
      RunKeepsIdentity(Apply(s, steps[0]), steps[1..], key);
      assert steps == [steps[0]] + steps[1..];
    }
  }

  /** A key a reconcile pass may select belongs to no event, now or ever after. */
  lemma ReconcileSelectsOnlyDeadKeys(s: State, key: Key, more: seq<Step>)
    requires Inv(s) && Collectable(s, key) && ValidRun(Apply(s, SelectOrphan(key)), more)
    ensures key !in Run(Apply(s, SelectOrphan(key)), more).events
  {
    var t := Apply(s, SelectOrphan(key));
    StepKeepsInv(s, SelectOrphan(key));
    RunKeepsInv(t, more);
    DoomedStays(t, more, key);
    assert KeyOk(Run(t, more), key);
  }

  lemma ACollection(s: State, key: Key) returns (steps: seq<Step>)
    requires Collectable(s, key)
    ensures ValidRun(s, steps) && key !in Run(s, steps).store && key !in Run(s, steps).orphans
    ensures forall step :: step in steps ==> IsReconcileStep(step)
  {
    steps := [];
    RunThen(s, steps, SelectOrphan(key));
    steps := steps + [SelectOrphan(key)];
    RunThen(s, steps, PurgeObject(key, true, true));
    steps := steps + [PurgeObject(key, true, true)];
    RunThen(s, steps, PurgeOrphan(key));
    steps := steps + [PurgeOrphan(key)];
  }

  /** Every unreferenced object can be collected: wait out the grace period, select, delete, clear. */
  lemma UnreferencedObjectsCanBeCollected(s: State, key: Key) returns (steps: seq<Step>)
    requires Inv(s) && key in s.store && key !in s.events
    ensures ValidRun(s, steps) && key !in Run(s, steps).store && key !in Run(s, steps).orphans
    ensures forall step :: step in steps ==> step.Advance? || IsReconcileStep(step)
  {
    assert KeyOk(s, key);
    var created := s.orphans[key].createdAt;
    var late := if s.now > created + ORPHAN_GRACE_SECONDS then s.now else created + ORPHAN_GRACE_SECONDS + 1;
    RunThen(s, [], Advance(late));
    var collected := ACollection(Apply(s, Advance(late)), key);
    RunConcat(s, [] + [Advance(late)], collected);
    steps := [] + [Advance(late)] + collected;
  }

  /** The commit transaction without the deadline. */
  ghost function CommitAnyTime(s: State, key: Key): State
    requires At(s, key, LookedUp)
  {
    var r := s.requests[key];
    Go(s.(events := s.events[key := Event(r.project, r.guid)],
          objects := s.objects[key := key], jobs := s.jobs[key := key],
          orphans := Remove(s.orphans, key)),
       key, Done(Accepted(key, false)))
  }

  /** Whatever happens afterwards, the event of this key keeps its object. */
  ghost predicate ObjectIsSafe(s: State, key: Key) {
    forall more :: ValidRun(s, more) ==> key in Run(s, more).events && key in Run(s, more).store
  }

  lemma CommitBeforeSelectionKeepsInv(s: State, key: Key)
    requires Inv(s) && At(s, key, LookedUp) && !Taken(s, s.requests[key].project, s.requests[key].guid)
    requires key !in s.doomed
    ensures Inv(CommitAnyTime(s, key))
  {
    var t := CommitAnyTime(s, key);
    assert KeyOk(s, key);
    forall other: Key ensures KeyOk(t, other) {
      assert KeyOk(s, other);
      if other != key {
        UntouchedKeyOk(s, t, other);
      }
    }
  }

  /** A pass that still has a key in hand deletes its object, committed or not. */
  lemma SelectedKeyLosesItsObject(s: State, key: Key)
    requires key in s.selected && key in s.events
    ensures ValidRun(s, [PurgeObject(key, true, true)])
    ensures var t := Run(s, [PurgeObject(key, true, true)]); key in t.events && key !in t.store
  {
    RunThen(s, [], PurgeObject(key, true, true));
    assert [] + [PurgeObject(key, true, true)] == [PurgeObject(key, true, true)];
  }

  /** A committed event whose key no pass has in hand and none can select. */
  ghost predicate OutOfReach(s: State, key: Key) {
    key in s.events && key in s.store && key !in s.orphans && key !in s.selected
    && key in s.requests && s.requests[key].phase.Done?
  }

  lemma StepKeepsOutOfReach(s: State, step: Step, key: Key)
    requires OutOfReach(s, key) && Enabled(s, step)
    ensures OutOfReach(Apply(s, step), key)
  {
    if key != KeyOf(step) && !step.Advance? {
      StepTouchesOneKey(s, step, key);
    }
  }

  lemma {:induction false} RunKeepsOutOfReach(s: State, steps: seq<Step>, key: Key)
    requires OutOfReach(s, key) && ValidRun(s, steps)
    ensures OutOfReach(Run(s, steps), key)
    decreases |steps|
  {
    if steps != [] {
      StepKeepsOutOfReach(s, steps[0], key);
      RunKeepsOutOfReach(Apply(s, steps[0]), steps[1..], key);
    }
  }

  /** The exact condition: the object of a commit is safe for ever if and only if it is still there and no
      reconcile pass has its key in hand. Committing within the grace period guarantees both. */
  lemma CommitIsSafeExactlyBeforeSelection(s: State, key: Key)
    requires Inv(s) && At(s, key, LookedUp) && !Taken(s, s.requests[key].project, s.requests[key].guid)
    ensures ObjectIsSafe(CommitAnyTime(s, key), key) <==> key in s.store && key !in s.selected
    ensures InTime(s, key) ==> key in s.store && key !in s.selected
    ensures key !in s.doomed ==> Inv(CommitAnyTime(s, key))
  {
    var t := CommitAnyTime(s, key);
    assert KeyOk(s, key);
    if key in s.selected {
      SelectedKeyLosesItsObject(t, key);
    } else if key !in s.store {
      assert ValidRun(t, []) && key !in Run(t, []).store;
    } else {
      forall more | ValidRun(t, more) ensures key in Run(t, more).events && key in Run(t, more).store {
        RunKeepsOutOfReach(t, more, key);
      }
    }
    if key !in s.doomed {
      CommitBeforeSelectionKeepsInv(s, key);
    }
  }

  /** A request that outlives its grace period: it has looked its guid up, and a pass selects its key. */
  lemma LateRequest(key: Key, project: string) returns (steps: seq<Step>)
    ensures ValidRun(Initial(0), steps)
    ensures var s := Run(Initial(0), steps);
            At(s, key, LookedUp) && !Taken(s, s.requests[key].project, s.requests[key].guid) && !InTime(s, key)
            && key in s.store && s.selected == multiset{key} && key in s.doomed
  {
    var start := Initial(0);
    steps := [];
    RunThen(start, steps, Register(key, project));
    steps := steps + [Register(key, project)];
    RunThen(start, steps, Upload(key, None));
    steps := steps + [Upload(key, None)];
    RunThen(start, steps, Lookup(key));
    steps := steps + [Lookup(key)];
    RunThen(start, steps, Advance(ORPHAN_GRACE_SECONDS + 1));
    steps := steps + [Advance(ORPHAN_GRACE_SECONDS + 1)];
    RunThen(start, steps, SelectOrphan(key));
    steps := steps + [SelectOrphan(key)];
  }

  /** If it commits while the pass has its key in hand, a committed event loses its object. */
  lemma LateCommitLosesItsObject(key: Key, project: string) returns (steps: seq<Step>)
    ensures ValidRun(Initial(0), steps)
    ensures var s := Run(Initial(0), steps);
            Inv(s) && At(s, key, LookedUp) && !Taken(s, s.requests[key].project, s.requests[key].guid)
            && !InTime(s, key) && !ObjectIsSafe(CommitAnyTime(s, key), key)
  {
    steps := LateRequest(key, project);
    InitialIsGood(0);
    RunKeepsInv(Initial(0), steps);
    CommitIsSafeExactlyBeforeSelection(Run(Initial(0), steps), key);
  }

  /** If the pass failed to delete the object and has moved on, the late commit is safe after all. */
  lemma LateCommitAfterAFailedDeleteIsSafe(key: Key, project: string) returns (steps: seq<Step>)
    ensures ValidRun(Initial(0), steps)
    ensures var s := Run(Initial(0), steps);
            Inv(s) && At(s, key, LookedUp) && !Taken(s, s.requests[key].project, s.requests[key].guid)
            && !InTime(s, key) && key in s.doomed && ObjectIsSafe(CommitAnyTime(s, key), key)
  {
    steps := LateRequest(key, project);
    RunThen(Initial(0), steps, PurgeObject(key, false, false));
    steps := steps + [PurgeObject(key, false, false)];
    RunThen(Initial(0), steps, PostponeOrphan(key));
    steps := steps + [PostponeOrphan(key)];
    InitialIsGood(0);
    RunKeepsInv(Initial(0), steps);
    CommitIsSafeExactlyBeforeSelection(Run(Initial(0), steps), key);
  }
}
