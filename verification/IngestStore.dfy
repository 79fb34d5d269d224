/** The ingest tables and the object store as an object, and the request and reconcile procedures on it. */
module IngestStore {
  import opened Common
  import opened IngestModel
  import opened IngestTheorems

  datatype CommitReply = Acknowledged | Unanswered | Lost

  /** Which calls of one request fail. A failed call to the object store may still have worked
      (`objectStored`, `objectGone`), and so may a failed registration (`registerWritten`). */
  datatype Faults = Faults(registerFails: bool, registerWritten: bool, uploadFails: bool, objectStored: bool,
                           inspectFails: bool, lookupFails: bool, insertFails: bool, adoptFails: bool,
                           commit: CommitReply, deleteFails: bool, objectGone: bool, orphanWriteFails: bool)

  predicate NoFault(faults: Faults) {
    !faults.registerFails && !faults.uploadFails && !faults.inspectFails && !faults.lookupFails && !faults.insertFails
    && !faults.adoptFails && faults.commit == Acknowledged && !faults.deleteFails && !faults.orphanWriteFails
  }

  ghost predicate Ran(s: State, t: State, steps: seq<Step>) {
    ValidRun(s, steps) && Run(s, steps) == t
  }

  lemma RanStep(s: State, t: State, steps: seq<Step>, step: Step)
    requires Ran(s, t, steps) && Enabled(t, step) && Inv(t)
    ensures Ran(s, Apply(t, step), steps + [step]) && Inv(Apply(t, step))
  {
    RunThen(s, steps, step);
    StepKeepsInv(t, step);
  }

  lemma RanThen(s: State, t: State, u: State, a: seq<Step>, b: seq<Step>)
    requires Ran(s, t, a) && Ran(t, u, b)
    ensures Ran(s, u, a + b)
  {
    RunConcat(s, a, b);
  }

  lemma OwnerIsUnique(s: State, project: string, guid: Option<string>, event: Key)
    requires GuidsUnique(s) && guid.Some? && event in s.events && s.events[event] == Event(project, guid)
    ensures Taken(s, project, guid) && Owner(s, project, guid) == event
  {
  }

  /** The answer names an event of this crash with its object and job, its own exactly if it is the first. */
  ghost predicate AnswersFor(s: State, key: Key, project: string, guid: Option<string>, outcome: Outcome) {
    outcome.Accepted? ==>
      && outcome.event in s.events && s.events[outcome.event] == Event(project, guid)
      && outcome.event in s.objects && s.objects[outcome.event] == outcome.event
      && outcome.event in s.jobs && s.jobs[outcome.event] == outcome.event && outcome.event in s.store
      && (outcome.deduplicated <==> outcome.event != key)
      && (outcome.deduplicated ==> guid.Some? && key !in s.events)
      && (!outcome.deduplicated ==> key !in s.orphans)
  }

  lemma DoneAnswers(s: State, key: Key, outcome: Outcome)
    requires Inv(s) && At(s, key, Done(outcome))
    ensures AnswersFor(s, key, s.requests[key].project, s.requests[key].guid, outcome)
  {
    assert KeyOk(s, key);
    if outcome.Accepted? {
      assert KeyOk(s, outcome.event);
    }
  }

  lemma LookedUpIsStored(s: State, key: Key)
    requires Inv(s) && At(s, key, LookedUp) && InTime(s, key)
    ensures key in s.store && key in s.orphans && key !in s.events
  {
    assert KeyOk(s, key);
  }

  /** An object that is not wanted is gone, or its deletion failed; its row is gone, or counts the failure. */
  predicate Cleaned(s: State, key: Key, faults: Faults) {
    && (!faults.deleteFails ==> key !in s.store)
    && (!faults.orphanWriteFails ==>
          if faults.deleteFails then key in s.orphans && s.orphans[key].attempts > 0 else key !in s.orphans)
  }

  /** What a pass has done about a key: the object is deleted unless that failed, and its row is removed
      or postponed. */
  predicate Reconciled(key: Key, purged: set<Key>, steps: seq<Step>, deleteFails: set<Key>, writeFails: set<Key>) {
    && (key !in deleteFails ==> key in purged)
    && (key !in writeFails ==> (if key in deleteFails then PostponeOrphan(key) else PurgeOrphan(key)) in steps)
  }

  lemma ReconciledStays(keys: seq<Key>, before: set<Key>, after: set<Key>, steps: seq<Step>, more: seq<Step>,
                        deleteFails: set<Key>, writeFails: set<Key>)
    requires before <= after && forall key :: key in keys ==> Reconciled(key, before, steps, deleteFails, writeFails)
    ensures forall key :: key in keys ==> Reconciled(key, after, steps + more, deleteFails, writeFails)
  {
  }

  lemma SliceOff(keys: seq<Key>, i: nat)
    requires i < |keys|
    ensures multiset(keys[i..]) == multiset{keys[i]} + multiset(keys[i + 1..])
    ensures forall key :: key in keys[..i + 1] <==> key in keys[..i] || key == keys[i]
  {
    assert keys[i..] == [keys[i]] + keys[i + 1..];
    assert keys[..i + 1] == keys[..i] + [keys[i]];
  }

  /** The pass has dealt with the first `i` of its keys and still has the others in hand. */
  ghost predicate PassSoFar(first: State, now: State, steps: seq<Step>, keys: seq<Key>, i: nat, deleteFails: set<Key>,
                            writeFails: set<Key>)
    requires i <= |keys|
  {
    && Ran(first, now, steps) && Inv(now) && multiset(keys[i..]) <= now.selected
    && forall key :: key in keys[..i] ==> Reconciled(key, now.purged, steps, deleteFails, writeFails)
  }

  lemma PassGoesOn(first: State, before: State, between: State, now: State, steps: seq<Step>, others: seq<Step>,
                   more: seq<Step>, keys: seq<Key>, i: nat, deleteFails: set<Key>, writeFails: set<Key>)
    requires i < |keys| && PassSoFar(first, before, steps, keys, i, deleteFails, writeFails)
    requires Ran(before, between, others) && Ran(between, now, more) && Inv(now)
    requires multiset(keys[i + 1..]) <= now.selected
    requires Reconciled(keys[i], now.purged, more, deleteFails, writeFails)
    ensures PassSoFar(first, now, steps + (others + more), keys, i + 1, deleteFails, writeFails)
  {
    SliceOff(keys, i);
    PurgedStays(before, others);
    PurgedStays(between, more);
    RanThen(before, between, now, others, more);
    RanThen(first, before, now, steps, others + more);
    ReconciledStays(keys[..i], before.purged, now.purged, steps, others + more, deleteFails, writeFails);
  }

  class IngestTables {
    var now: int
    ghost var requests: map<Key, Request>
    var store: set<Key>
    var orphans: map<Key, Orphan>
    var events: map<Key, Event>
    var objects: map<Key, Key>
    var jobs: map<Key, Key>
    ghost var selected: multiset<Key>
    ghost var doomed: set<Key>
    ghost var purged: set<Key>

    ghost function View(): State
      reads this
    {
      State(now, requests, store, orphans, events, objects, jobs, selected, doomed, purged)
    }

    constructor (start: int)
      ensures View() == Initial(start) && Inv(View())
    {
      now, store := start, {};
      requests, orphans, events, objects, jobs := map[], map[], map[], map[], map[];
      selected, doomed, purged := multiset{}, {}, {};
      new;
      InitialIsGood(start);
    }

    /** Anything the rest of the world may do between two statements of the request `key`:
        other requests, reconcile passes, and the passing of time up to the request's deadline.
        The body does nothing; callers learn only that the outcome is some run. */
    method Interfere(ghost key: Key) returns (ghost steps: seq<Step>)
      requires Inv(View()) && key in requests
      modifies this
      ensures Ran(old(View()), View(), steps) && Inv(View())
      ensures key in requests && requests[key] == old(requests)[key]
      ensures old(InTime(View(), key)) ==> InTime(View(), key)
    {
      steps := [];
    }

    // ---------- single statements and transactions ----------

    method FindEvent(project: string, guid: Option<string>) returns (found: Option<Key>)
      requires GuidsUnique(View())
      ensures found.Some? <==> Taken(View(), project, guid)
      ensures found.Some? ==> found.value == Owner(View(), project, guid)
    {
      if guid.None? {
        return None;
      }
      var rest := events.Keys;
      while rest != {}
        invariant rest <= events.Keys
        invariant forall e :: e in events && e !in rest ==> events[e] != Event(project, guid)
        decreases rest
      {
        var e :| e in rest;
        if events[e] == Event(project, guid) {
          OwnerIsUnique(View(), project, guid, e);
          return Some(e);
        }
        rest := rest - {e};
      }
      return None;
    }

    method RegisterPendingObject(key: Key, project: string)
      requires FreshKey(View(), key)
      modifies this
      ensures View() == Apply(old(View()), Register(key, project))
    {
      orphans := orphans[key := Orphan(0, now)];
      requests := requests[key := Request(project, None, now, Registered)];
    }

    method CompleteUpload(key: Key, guid: Option<string>)
      requires Enabled(View(), Upload(key, guid))
      modifies this
      ensures View() == Apply(old(View()), Upload(key, guid))
    {
      store := store + {key};
      requests := requests[key := requests[key].(phase := Uploaded, guid := guid)];
    }

    method FailUpload(key: Key, stored: bool)
      requires Enabled(View(), UploadFailed(key, stored))
      modifies this
      ensures View() == Apply(old(View()), UploadFailed(key, stored))
    {
      if stored {
        store := store + {key};
      }
      requests := requests[key := requests[key].(phase := Cleaning(Rejected))];
    }

    /** The first query of the persist transaction. */
    method LookupEvent(key: Key, project: string, guid: Option<string>) returns (found: Option<Key>)
      requires Enabled(View(), Lookup(key)) && GuidsUnique(View())
      requires requests[key].project == project && requests[key].guid == guid
      modifies this
      ensures View() == Apply(old(View()), Lookup(key))
      ensures found.Some? ==> At(View(), key, Cleaning(Accepted(found.value, true)))
      ensures found.None? ==> At(View(), key, LookedUp)
    {
      found := FindEvent(project, guid);
      var phase := if found.Some? then Cleaning(Accepted(found.value, true)) else LookedUp;
      requests := requests[key := requests[key].(phase := phase)];
    }

    /** Object row, event row, job and orphan removal in one transaction; a taken crash guid rolls all of it back. */
    method CommitEvent(key: Key, project: string, guid: Option<string>, acknowledged: bool) returns (inserted: bool)
      requires Enabled(View(), Commit(key, acknowledged)) && GuidsUnique(View())
      requires requests[key].project == project && requests[key].guid == guid
      modifies this
      ensures View() == Apply(old(View()), Commit(key, acknowledged))
      ensures inserted ==> At(View(), key, Done(if acknowledged then Accepted(key, false) else CommitUncertain))
      ensures requests[key].project == project && requests[key].guid == guid && store == old(store)
      ensures inserted ==> key in events && events[key] == Event(project, guid)
      ensures !inserted ==> At(View(), key, Conflicted) && Taken(View(), project, guid)
    {
      var conflict := FindEvent(project, guid);
      if conflict.Some? {
        requests := requests[key := requests[key].(phase := Conflicted)];
        return false;
      }
      objects := objects[key := key];
      events := events[key := Event(project, guid)];
      jobs := jobs[key := key];
      orphans := orphans - {key};
      var outcome := if acknowledged then Accepted(key, false) else CommitUncertain;
      requests := requests[key := requests[key].(phase := Done(outcome))];
      return true;
    }

    method LoseCommit(key: Key)
      requires Enabled(View(), CommitLost(key))
      modifies this
      ensures View() == Apply(old(View()), CommitLost(key))
    {
      requests := requests[key := requests[key].(phase := Done(CommitUncertain))];
    }

    /** Reads the event that won the conflict. */
    method AdoptEvent(key: Key, project: string, guid: Option<string>) returns (event: Key)
      requires Enabled(View(), Adopt(key)) && GuidsUnique(View())
      requires requests[key].project == project && requests[key].guid == guid
      modifies this
      ensures View() == Apply(old(View()), Adopt(key))
      ensures At(View(), key, Cleaning(Accepted(event, true)))
    {
      var found := FindEvent(project, guid);
      event := found.value;
      requests := requests[key := requests[key].(phase := Cleaning(Accepted(event, true)))];
    }

    method DiscardRequest(key: Key)
      requires Enabled(View(), Discard(key))
      modifies this
      ensures View() == Apply(old(View()), Discard(key))
    {
      requests := requests[key := requests[key].(phase := Cleaning(Rejected))];
    }

    method DeleteFromStore(key: Key, ok: bool, gone: bool)
      requires Enabled(View(), DeleteObject(key, ok, gone))
      modifies this
      ensures View() == Apply(old(View()), DeleteObject(key, ok, gone))
    {
      if ok || gone {
        store := store - {key};
      }
      var outcome := requests[key].phase.outcome;
      requests := requests[key := requests[key].(phase := if ok then Clearing(outcome) else Marking(outcome))];
    }

    method ClearOrphanRow(key: Key, ok: bool)
      requires Enabled(View(), ClearOrphan(key, ok))
      modifies this
      ensures View() == Apply(old(View()), ClearOrphan(key, ok))
    {
      if ok {
        orphans := orphans - {key};
      }
      requests := requests[key := requests[key].(phase := Done(requests[key].phase.outcome))];
    }

    method MarkOrphanRow(key: Key, ok: bool)
      requires Enabled(View(), MarkOrphan(key, ok))
      modifies this
      ensures View() == Apply(old(View()), MarkOrphan(key, ok))
    {
      if ok {
        var row := if key in orphans then orphans[key].(attempts := orphans[key].attempts + 1) else Orphan(1, now);
        orphans := orphans[key := row];
      }
      requests := requests[key := requests[key].(phase := Done(requests[key].phase.outcome))];
    }

    // ---------- the procedures, with the rest of the world running between their statements ----------

    /** Deletes the object, then clears its orphan row, or counts the failed attempt on it. */
    method CleanupObject(key: Key, faults: Faults) returns (ghost steps: seq<Step>)
      requires Inv(View()) && key in requests && requests[key].phase.Cleaning?
      modifies this
      ensures Ran(old(View()), View(), steps) && Inv(View())
      ensures At(View(), key, Done(old(requests)[key].phase.outcome)) && Cleaned(View(), key, faults)
      ensures requests[key].project == old(requests)[key].project && requests[key].guid == old(requests)[key].guid
    {
      ghost var outcome := requests[key].phase.outcome;
      RanStep(View(), View(), [], DeleteObject(key, !faults.deleteFails, faults.objectGone));
      DeleteFromStore(key, !faults.deleteFails, faults.objectGone);
      ghost var deleted := View();
      steps := [] + [DeleteObject(key, !faults.deleteFails, faults.objectGone)];
      ghost var others := Interfere(key);
      RanThen(old(View()), deleted, View(), steps, others);
      steps := steps + others;
      assert KeyOk(View(), key);
      if !faults.deleteFails {
        RanStep(old(View()), View(), steps, ClearOrphan(key, !faults.orphanWriteFails));
        steps := steps + [ClearOrphan(key, !faults.orphanWriteFails)];
        ClearOrphanRow(key, !faults.orphanWriteFails);
      } else {
        RanStep(old(View()), View(), steps, MarkOrphan(key, !faults.orphanWriteFails));
        steps := steps + [MarkOrphan(key, !faults.orphanWriteFails)];
        MarkOrphanRow(key, !faults.orphanWriteFails);
      }
    }

    /** After a conflict: adopt the winner, unless the query for it fails. */
    method AdoptWinner(key: Key, project: string, guid: Option<string>, faults: Faults)
      returns (outcome: Outcome, ghost steps: seq<Step>)
      requires Inv(View()) && At(View(), key, Conflicted) && Taken(View(), project, guid)
      requires requests[key].project == project && requests[key].guid == guid
      modifies this
      ensures Ran(old(View()), View(), steps) && Inv(View()) && At(View(), key, Cleaning(outcome))
      ensures requests[key].project == project && requests[key].guid == guid
      ensures if faults.adoptFails then outcome == Rejected else outcome.Accepted? && outcome.deduplicated
    {
      if faults.adoptFails {
        RanStep(View(), View(), [], Discard(key));
        DiscardRequest(key);
        return Rejected, [] + [Discard(key)];
      }
      RanStep(View(), View(), [], Adopt(key));
      var event := AdoptEvent(key, project, guid);
      return Accepted(event, true), [] + [Adopt(key)];
    }

    /** The insert half of the persist transaction: commit, or adopt the winner of a conflict. */
    method InsertEvent(key: Key, project: string, guid: Option<string>, faults: Faults)
      returns (outcome: Outcome, settled: bool, ghost steps: seq<Step>)
      requires Inv(View()) && At(View(), key, LookedUp) && InTime(View(), key)
      requires requests[key].project == project && requests[key].guid == guid
      modifies this
      ensures Ran(old(View()), View(), steps) && Inv(View())
      ensures At(View(), key, if settled then Done(outcome) else Cleaning(outcome))
      ensures requests[key].project == project && requests[key].guid == guid
      ensures NoFault(faults) ==> outcome.Accepted? && (guid.None? ==> outcome == Accepted(key, false))
      ensures settled <==> outcome.CommitUncertain? || outcome == Accepted(key, false)
      ensures outcome.CommitUncertain? ==> key in store && (key in events || key in orphans)
    {
      LookedUpIsStored(View(), key);
      if faults.insertFails {
        RanStep(View(), View(), [], Discard(key));
        DiscardRequest(key);
        return Rejected, false, [] + [Discard(key)];
      }
      if faults.commit == Lost {
        RanStep(View(), View(), [], CommitLost(key));
        LoseCommit(key);
        return CommitUncertain, true, [] + [CommitLost(key)];
      }
      ghost var commit := Commit(key, faults.commit == Acknowledged);
      RanStep(View(), View(), [], commit);
      steps := [] + [commit];
      var inserted := CommitEvent(key, project, guid, faults.commit == Acknowledged);
      if inserted {
        return (if faults.commit == Acknowledged then Accepted(key, false) else CommitUncertain), true, steps;
      }
      ghost var conflicted := View();
      ghost var adopting;
      outcome, adopting := AdoptWinner(key, project, guid, faults);
      settled := false;
      RanThen(old(View()), conflicted, View(), steps, adopting);
      steps := steps + adopting;
    }

    /** Looks the crash guid up and, when no event has it, inserts one.
        `settled` means the request is over; otherwise its object must still be cleaned up. */
    method PersistEvent(key: Key, project: string, guid: Option<string>, faults: Faults)
      returns (outcome: Outcome, settled: bool, ghost steps: seq<Step>)
      requires Inv(View()) && At(View(), key, Uploaded) && InTime(View(), key)
      requires requests[key].project == project && requests[key].guid == guid
      modifies this
      ensures Ran(old(View()), View(), steps) && Inv(View())
      ensures At(View(), key, if settled then Done(outcome) else Cleaning(outcome))
      ensures requests[key].project == project && requests[key].guid == guid
      ensures NoFault(faults) ==> outcome.Accepted? && (guid.None? ==> outcome == Accepted(key, false))
      ensures NoFault(faults) && guid.Some? ==> forall e ::
                e in old(events) && old(events)[e] == Event(project, guid) ==> outcome == Accepted(e, true)
      ensures settled <==> outcome.CommitUncertain? || outcome == Accepted(key, false)
      ensures outcome.CommitUncertain? ==> key in store && (key in events || key in orphans)
    {
      if faults.lookupFails {
        RanStep(View(), View(), [], Discard(key));
        DiscardRequest(key);
        return Rejected, false, [] + [Discard(key)];
      }
      RanStep(View(), View(), [], Lookup(key));
      steps := [] + [Lookup(key)];
      var existing := LookupEvent(key, project, guid);
      if existing.Some? {
        assert KeyOk(View(), key);
        return Accepted(existing.value, true), false, steps;
      }
      ghost var lookedUp := View();
      ghost var others := Interfere(key);
      RanThen(old(View()), lookedUp, View(), steps, others);
      ghost var inserting := View();
      ghost var insert;
      outcome, settled, insert := InsertEvent(key, project, guid, faults);
      RanThen(old(View()), inserting, View(), steps + others, insert);
      steps := steps + others + insert;
    }

    /** The upload and what follows it, up to the point where the request is over or its object must be cleaned up. */
    method UploadAndPersist(key: Key, project: string, guid: Option<string>, faults: Faults)
      returns (outcome: Outcome, settled: bool, ghost steps: seq<Step>)
      requires Inv(View()) && At(View(), key, Registered) && InTime(View(), key) && requests[key].project == project
      modifies this
      ensures Ran(old(View()), View(), steps) && Inv(View())
      ensures At(View(), key, if settled then Done(outcome) else Cleaning(outcome))
      ensures requests[key].project == project && (!faults.uploadFails ==> requests[key].guid == guid)
      ensures faults.uploadFails ==> outcome == Rejected
      ensures NoFault(faults) ==> outcome.Accepted? && (guid.None? ==> outcome == Accepted(key, false))
      ensures NoFault(faults) && guid.Some? ==> forall e ::
                e in old(events) && old(events)[e] == Event(project, guid) ==> outcome == Accepted(e, true)
      ensures settled <==> outcome.CommitUncertain? || outcome == Accepted(key, false)
      ensures outcome.CommitUncertain? ==> key in store && (key in events || key in orphans)
    {
      if faults.uploadFails {
        RanStep(View(), View(), [], UploadFailed(key, faults.objectStored));
        FailUpload(key, faults.objectStored);
        return Rejected, false, [] + [UploadFailed(key, faults.objectStored)];
      }
      RanStep(View(), View(), [], Upload(key, guid));
      CompleteUpload(key, guid);
      steps := [] + [Upload(key, guid)];
      if faults.inspectFails {
        RanStep(old(View()), View(), steps, Discard(key));
        DiscardRequest(key);
        return Rejected, false, steps + [Discard(key)];
      }
      ghost var uploaded := View();
      ghost var others := Interfere(key);
      RanThen(old(View()), uploaded, View(), steps, others);
      RunKeepsEvents(uploaded, others);
      ghost var inspected := View();
      ghost var persisting;
      outcome, settled, persisting := PersistEvent(key, project, guid, faults);
      RanThen(old(View()), inspected, View(), steps + others, persisting);
      steps := steps + others + persisting;
    }

    /** Registers the key, uploads, inspects, persists, and cleans up unless the event is committed
        or might be. A failed registration ends the request before it touches the object store. */
    method SubmitCrash(key: Key, project: string, guid: Option<string>, faults: Faults)
      returns (outcome: Outcome, ghost steps: seq<Step>)
      requires Inv(View()) && FreshKey(View(), key)
      modifies this
      ensures Ran(old(View()), View(), steps) && Inv(View())
      ensures faults.registerFails ==>
                outcome == Rejected && store == old(store) && events == old(events)
                && orphans == if faults.registerWritten then old(orphans)[key := Orphan(0, now)] else old(orphans)
      ensures !faults.registerFails ==>
                At(View(), key, Done(outcome)) && requests[key].project == project
                && steps != [] && steps[0] == Register(key, project) && RegistersNoMore(steps[1..], key)
      ensures !faults.registerFails && !faults.uploadFails ==>
                requests[key].guid == guid && UploadsOnlyAs(steps, key, guid)
      ensures AnswersFor(View(), key, project, guid, outcome)
      ensures NoFault(faults) ==> outcome.Accepted? && (guid.None? ==> outcome == Accepted(key, false))
      ensures NoFault(faults) && guid.Some? ==> forall e ::
                e in old(events) && old(events)[e] == Event(project, guid) ==> outcome == Accepted(e, true)
      ensures outcome.CommitUncertain? ==> key in store && (key in events || key in orphans)
      ensures !faults.registerFails && !outcome.CommitUncertain? && outcome != Accepted(key, false) ==>
                Cleaned(View(), key, faults)
    {
      if faults.registerFails {
        if !faults.registerWritten {
          return Rejected, [];
        }
        RanStep(View(), View(), [], RegisterUnanswered(key));
        orphans := orphans[key := Orphan(0, now)];
        return Rejected, [] + [RegisterUnanswered(key)];
      }
      RanStep(View(), View(), [], Register(key, project));
      RegisterPendingObject(key, project);
      steps := [] + [Register(key, project)];
      ghost var registered := View();
      ghost var others := Interfere(key);
      RanThen(old(View()), registered, View(), steps, others);
      RunKeepsEvents(registered, others);
      steps := steps + others;
      ghost var uploading := View();
      var settled;
      ghost var persisting;
      outcome, settled, persisting := UploadAndPersist(key, project, guid, faults);
      RanThen(old(View()), uploading, View(), steps, persisting);
      steps := steps + persisting;
      if !settled {
        ghost var dirty := View();
        ghost var cleaning := CleanupObject(key, faults);
        RanThen(old(View()), dirty, View(), steps, cleaning);
        steps := steps + cleaning;
      }
      DoneAnswers(View(), key, outcome);
      RunKeepsIdentity(Apply(old(View()), Register(key, project)), steps[1..], key);
    }

    /** Up to sixteen keys due for reconciliation. */
    method SelectOrphans() returns (keys: seq<Key>)
      ensures |keys| <= 16
      ensures forall key :: key in keys ==> Collectable(View(), key)
      ensures |keys| < 16 ==> forall key :: Collectable(View(), key) ==> key in keys
      ensures forall key :: Collectable(View(), key) <==>
                key in orphans && (orphans[key].attempts > 0 || orphans[key].createdAt + 3600 < now)
    {
      var rest := set key | key in orphans
          && (orphans[key].attempts > 0 || orphans[key].createdAt < now - ORPHAN_GRACE_SECONDS);
      keys := [];
      while rest != {} && |keys| < RECONCILE_BATCH
        invariant |keys| <= RECONCILE_BATCH
        invariant forall key :: key in rest ==> Collectable(View(), key)
        invariant forall key :: key in keys ==> Collectable(View(), key)
        invariant forall key :: Collectable(View(), key) ==> key in rest || key in keys
        decreases rest
      {
        var key :| key in rest;
        keys := keys + [key];
        rest := rest - {key};
      }
    }

    method PurgeFromStore(key: Key, ok: bool, gone: bool)
      requires Enabled(View(), PurgeObject(key, ok, gone))
      modifies this
      ensures View() == Apply(old(View()), PurgeObject(key, ok, gone))
    {
      if ok || gone {
        store := store - {key};
      }
      selected := selected - multiset{key};
      if ok {
        purged := purged + {key};
      }
    }

    method PurgeOrphanRow(key: Key)
      requires Enabled(View(), PurgeOrphan(key))
      modifies this
      ensures View() == Apply(old(View()), PurgeOrphan(key))
    {
      orphans := orphans - {key};
    }

    method PostponeOrphanRow(key: Key)
      requires Enabled(View(), PostponeOrphan(key))
      modifies this
      ensures View() == Apply(old(View()), PostponeOrphan(key))
    {
      if key in orphans {
        orphans := orphans[key := orphans[key].(attempts := orphans[key].attempts + 1)];
      }
    }

    /** The rest of the world between two statements of a reconcile pass. The keys the pass has in hand
        stay in its hand: other passes delete what they have selected themselves. */
    method InterfereWithPass(ghost hand: multiset<Key>) returns (ghost steps: seq<Step>)
      requires Inv(View()) && hand <= selected
      modifies this
      ensures Ran(old(View()), View(), steps) && Inv(View()) && hand <= selected
    {
      steps := [];
    }

    /** One selected key: delete its object, then its row; or count the failure. */
    method ReconcileKey(key: Key, deleteFails: bool, gone: bool, writeFails: bool, ghost hand: multiset<Key>)
      returns (ghost steps: seq<Step>)
      requires Inv(View()) && multiset{key} + hand <= selected
      modifies this
      ensures Ran(old(View()), View(), steps) && Inv(View()) && hand <= selected
      ensures !deleteFails ==> key in purged
      ensures !writeFails ==> (if deleteFails then PostponeOrphan(key) else PurgeOrphan(key)) in steps
      ensures !writeFails ==> if deleteFails then key in orphans ==> orphans[key].attempts > 0
                              else key !in orphans && key !in store
    {
      assert KeyOk(View(), key) && (multiset{key} + hand)[key] > 0;
      RanStep(View(), View(), [], PurgeObject(key, !deleteFails, gone));
      PurgeFromStore(key, !deleteFails, gone);
      steps := [] + [PurgeObject(key, !deleteFails, gone)];
      ghost var deleted := View();
      ghost var others := InterfereWithPass(hand);
      RanThen(old(View()), deleted, View(), steps, others);
      DoomedStays(deleted, others, key);
      assert KeyOk(View(), key);
      steps := steps + others;
      if writeFails {
        return;
      }
      if !deleteFails {
        RanStep(old(View()), View(), steps, PurgeOrphan(key));
        PurgeOrphanRow(key);
        steps := steps + [PurgeOrphan(key)];
      } else {
        RanStep(old(View()), View(), steps, PostponeOrphan(key));
        PostponeOrphanRow(key);
        steps := steps + [PostponeOrphan(key)];
      }
    }

    /** The selection itself changes no table; it only fixes what the pass will work on. */
    ghost method MarkSelected(keys: seq<Key>) returns (steps: seq<Step>)
      requires Inv(View()) && forall key :: key in keys ==> Collectable(View(), key)
      modifies this`selected, this`doomed
      ensures Ran(old(View()), View(), steps) && Inv(View())
      ensures selected == old(selected) + multiset(keys)
    {
      steps := [];
      for i := 0 to |keys|
        invariant Ran(old(View()), View(), steps) && Inv(View())
        invariant orphans == old(orphans) && now == old(now)
        invariant selected == old(selected) + multiset(keys[..i])
      {
        assert keys[i] in keys && old(Collectable(View(), keys[i]));
        assert Enabled(View(), SelectOrphan(keys[i]));
        RanStep(old(View()), View(), steps, SelectOrphan(keys[i]));
        steps := steps + [SelectOrphan(keys[i])];
        selected := selected + multiset{keys[i]};
        doomed := doomed + {keys[i]};
        assert keys[..i + 1] == keys[..i] + [keys[i]];
      }
      assert keys[..|keys|] == keys;
    }

    /** The next key of a pass, after whatever others did since the last one. */
    method ReconcileNext(keys: seq<Key>, i: nat, deleteFails: set<Key>, gone: set<Key>, writeFails: set<Key>,
                         ghost first: State, ghost before: seq<Step>)
      returns (ghost steps: seq<Step>)
      requires i < |keys| && PassSoFar(first, View(), before, keys, i, deleteFails, writeFails)
      modifies this
      ensures PassSoFar(first, View(), steps, keys, i + 1, deleteFails, writeFails)
    {
      var key := keys[i];
      SliceOff(keys, i);
      ghost var others := InterfereWithPass(multiset(keys[i..]));
      ghost var between := View();
      ghost var rest := multiset(keys[i + 1..]);
      ghost var more := ReconcileKey(key, key in deleteFails, key in gone, key in writeFails, rest);
      steps := before + (others + more);
      PassGoesOn(first, old(View()), between, View(), before, others, more, keys, i, deleteFails, writeFails);
    }

    /** One reconcile pass. `deleteFails`, `gone` and `writeFails` are the keys whose calls fail. */
    method ReconcileOrphans(deleteFails: set<Key>, gone: set<Key>, writeFails: set<Key>)
      returns (keys: seq<Key>, ghost steps: seq<Step>)
      requires Inv(View())
      modifies this
      ensures Ran(old(View()), View(), steps) && Inv(View())
      ensures forall key :: key in keys ==> old(Collectable(View(), key))
      ensures |keys| < RECONCILE_BATCH ==> forall key :: old(Collectable(View(), key)) ==> key in keys
      ensures forall key :: key in keys ==> Reconciled(key, purged, steps, deleteFails, writeFails)
    {
      keys := SelectOrphans();
      steps := MarkSelected(keys);
      assert keys[0..] == keys;
      for i := 0 to |keys|
        invariant PassSoFar(old(View()), View(), steps, keys, i, deleteFails, writeFails)
      {
        steps := ReconcileNext(keys, i, deleteFails, gone, writeFails, old(View()), steps);
      }
      assert keys[..|keys|] == keys;
    }
  }
}
