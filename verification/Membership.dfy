/** Role changes and removals under the organization lock: permissions are checked before it and again under it. */
module Membership {
  import opened Common

  datatype Role = Owner | Admin | Developer | Viewer

  datatype Permission = ReadProject | ManageIssue | ManageProject | ManageDataRules | ManageUsage | ManageMembers
                      | ReadRaw | ReadAudit

  predicate Allows(role: Role, permission: Permission) {
    match permission
    case ReadProject => true
    case ManageIssue | ReadRaw => !role.Viewer?
    case ManageProject | ManageMembers | ReadAudit => role.Owner? || role.Admin?
    case ManageDataRules | ManageUsage => role.Owner?
  }

  /** The four roles: each may do what the next one below may, and viewers only read. */
  lemma RolesByPermission()
    ensures forall p: Permission :: Allows(Viewer, p) <==> p == ReadProject
    ensures forall p: Permission :: Allows(Developer, p) <==> p in {ReadProject, ManageIssue, ReadRaw}
    ensures forall p: Permission :: Allows(Admin, p) <==> p !in {ManageDataRules, ManageUsage}
    ensures forall p: Permission :: Allows(Owner, p)
  {
  }

  type User = int

  type Members = map<User, Role>

  /** A change of the target: a new role, or None to remove it. */
  datatype Request = Request(caller: User, target: User, role: Option<Role>)

  datatype ApiError = NotFound | Forbidden | Conflict

  function RoleOf(members: Members, user: User): Result<Role, ApiError> {
    if user in members then Ok(members[user]) else Err(NotFound)
  }

  predicate IsOwner(members: Members, user: User) {
    user in members && members[user] == Owner
  }

  function OtherOwners(members: Members, user: User): set<User> {
    set u | u in members && u != user && members[u] == Owner
  }

  predicate IsTop(role: Role) {
    role.Owner? || role.Admin?
  }

  /** The check outside the transaction. */
  function PreCheck(members: Members, caller: User): Result<Role, ApiError> {
    match RoleOf(members, caller)
    case Err(e) => Err(e)
    case Ok(role) => if Allows(role, ManageMembers) then Ok(role) else Err(Forbidden)
  }

  /** The checks under the lock, in their order. */
  function Decision(members: Members, r: Request): Result<(), ApiError> {
    match PreCheck(members, r.caller)
    case Err(e) => Err(e)
    case Ok(callerRole) =>
      match RoleOf(members, r.target)
      case Err(e) => Err(e)
      case Ok(targetRole) =>
        if callerRole == Admin && (IsTop(targetRole) || (r.role.Some? && IsTop(r.role.value))) then Err(Forbidden)
        else if targetRole == Owner && r.role != Some(Owner) && OtherOwners(members, r.target) == {} then Err(Conflict)
        else Ok(())
  }

  function Changed(members: Members, r: Request): Members {
    if r.role.Some? then members[r.target := r.role.value] else members - {r.target}
  }

  function Committed(members: Members, r: Request): Members {
    if Decision(members, r).Ok? then Changed(members, r) else members
  }

  // ---------- interleavings ----------

  /** The organization, and the requests that passed the first check and have not reached the lock. */
  datatype State = State(members: Members, waiting: map<nat, Request>)

  datatype Step = Check(id: nat, request: Request) | Commit(id: nat) | Abandon(id: nat)

  predicate Enabled(s: State, step: Step) {
    match step
    case Check(id, r) => id !in s.waiting && PreCheck(s.members, r.caller).Ok?
    case Commit(id) => id in s.waiting
    case Abandon(id) => id in s.waiting
  }

  function Apply(s: State, step: Step): State
    requires Enabled(s, step)
  {
    match step
    case Check(id, r) => s.(waiting := s.waiting[id := r])
    case Commit(id) => State(Committed(s.members, s.waiting[id]), s.waiting - {id})
    case Abandon(id) => s.(waiting := s.waiting - {id})
  }

  predicate ValidRun(s: State, steps: seq<Step>)
    decreases |steps|
  {
    steps == [] || (Enabled(s, steps[0]) && ValidRun(Apply(s, steps[0]), steps[1..]))
  }

  function Run(s: State, steps: seq<Step>): State
    requires ValidRun(s, steps)
    decreases |steps|
  {
    if steps == [] then s else Run(Apply(s, steps[0]), steps[1..])
  }

  ghost predicate Ran(s: State, t: State, steps: seq<Step>) {
    ValidRun(s, steps) && Run(s, steps) == t
  }

  lemma {:induction false} RanThen(s: State, t: State, u: State, a: seq<Step>, b: seq<Step>)
    requires Ran(s, t, a) && Ran(t, u, b)
    ensures Ran(s, u, a + b)
    decreases |a|
  {
    if a == [] {
      assert a + b == b;
    } else {
      RanThen(Apply(s, a[0]), t, u, a[1..], b);
      assert (a + b)[0] == a[0] && (a + b)[1..] == a[1..] + b;
    }
  }

  lemma OneStepRuns(s: State, step: Step)
    requires Enabled(s, step)
    ensures Ran(s, Apply(s, step), [step])
  {
    assert [step][0] == step && [step][1..] == [];
    assert Ran(Apply(s, step), Apply(s, step), []);
  }

  /** None of these steps is about the request under this id. */
  predicate LeaveAlone(steps: seq<Step>, id: nat) {
    forall step :: step in steps ==> step.id != id
  }

  lemma {:induction false} OthersLeaveItWaiting(s: State, steps: seq<Step>, id: nat)
    requires ValidRun(s, steps) && LeaveAlone(steps, id) && id in s.waiting
    ensures id in Run(s, steps).waiting && Run(s, steps).waiting[id] == s.waiting[id]
    decreases |steps|
  {
    if steps != [] {
      assert steps[0] in steps;
      OthersLeaveItWaiting(Apply(s, steps[0]), steps[1..], id);
    }
  }

  // ---------- the last owner ----------

  ghost predicate HasOwner(members: Members) {
    exists u :: IsOwner(members, u)
  }

  lemma CommitKeepsAnOwner(members: Members, r: Request)
    requires HasOwner(members)
    ensures HasOwner(Committed(members, r))
  {
    var owner :| IsOwner(members, owner);
    var after := Committed(members, r);
    if !IsOwner(after, owner) {
      assert owner == r.target;
      var other :| other in OtherOwners(members, r.target);
      assert IsOwner(after, other);
    }
  }

  /** However first checks, commits and abandoned requests interleave, an organization with an owner keeps one. */
  lemma {:induction false} RunsKeepAnOwner(s: State, steps: seq<Step>)
    requires HasOwner(s.members) && ValidRun(s, steps)
    ensures HasOwner(Run(s, steps).members)
    decreases |steps|
  {
    if steps != [] {
      if steps[0].Commit? {
        CommitKeepsAnOwner(s.members, s.waiting[steps[0].id]);
      }
      RunsKeepAnOwner(Apply(s, steps[0]), steps[1..]);
    }
  }

  /** The step commits an owner's request to end this user's ownership while another owner remains. All of
      this is judged by the members under the lock. */
  predicate EndsOwnership(s: State, step: Step, user: User) {
    step.Commit? && step.id in s.waiting && IsOwner(s.members, user) && OtherOwners(s.members, user) != {}
    && s.waiting[step.id].target == user && s.waiting[step.id].role != Some(Owner)
    && IsOwner(s.members, s.waiting[step.id].caller)
  }

  lemma StepTakesOwnershipExactly(s: State, step: Step, user: User)
    requires Enabled(s, step) && IsOwner(s.members, user)
    ensures !IsOwner(Apply(s, step).members, user) <==> EndsOwnership(s, step, user)
  {
  }

  predicate OwnerThroughout(s: State, steps: seq<Step>, user: User)
    requires ValidRun(s, steps)
    decreases |steps|
  {
    IsOwner(s.members, user) && (steps == [] || OwnerThroughout(Apply(s, steps[0]), steps[1..], user))
  }

  predicate OwnershipEnds(s: State, steps: seq<Step>, user: User)
    requires ValidRun(s, steps)
    decreases |steps|
  {
    steps != [] && (EndsOwnership(s, steps[0], user) || OwnershipEnds(Apply(s, steps[0]), steps[1..], user))
  }

  /** Over any run an owner stays one unless some step commits an owner's request to end that ownership while
      another owner remains: the members at the first check, and the requests of everyone else, do not matter. */
  lemma {:induction false} OwnershipIsLostExactly(s: State, steps: seq<Step>, user: User)
    requires ValidRun(s, steps) && IsOwner(s.members, user)
    ensures OwnerThroughout(s, steps, user) <==> !OwnershipEnds(s, steps, user)
    ensures !IsOwner(Run(s, steps).members, user) ==> OwnershipEnds(s, steps, user)
    decreases |steps|
  {
    if steps != [] {
      StepTakesOwnershipExactly(s, steps[0], user);
      if !EndsOwnership(s, steps[0], user) {
        OwnershipIsLostExactly(Apply(s, steps[0]), steps[1..], user);
      }
    }
  }

  /** Who may do what, case by case: owners everything but leave no owner, admins only what concerns developers and
      viewers, everyone else nothing. */
  lemma AllowedExactly(members: Members, r: Request)
    ensures Decision(members, r).Ok? <==>
              && r.caller in members && r.target in members
              && ((members[r.caller] == Owner
                   && (members[r.target] != Owner || r.role == Some(Owner)
                       || exists other :: other != r.target && IsOwner(members, other)))
                  || (members[r.caller] == Admin && members[r.target] in {Developer, Viewer}
                      && (r.role.None? || r.role.value in {Developer, Viewer})))
    ensures Decision(members, r) == Err(NotFound) <==>
              r.caller !in members || (members[r.caller] in {Owner, Admin} && r.target !in members)
    ensures PreCheck(members, r.caller).Ok? <==> r.caller in members && members[r.caller] in {Owner, Admin}
  {
    assert OtherOwners(members, r.target) != {} <==> exists other :: other != r.target && IsOwner(members, other) by {
      if other :| other != r.target && IsOwner(members, other) {
        assert other in OtherOwners(members, r.target);
      }
      if other :| other in OtherOwners(members, r.target) {
        assert IsOwner(members, other);
      }
    }
  }

  /** A conflict is always the sole owner acting on its own membership: every other caller is refused
      or allowed before that. */
  lemma ConflictExactlyForTheSoleOwner(members: Members, r: Request)
    ensures Decision(members, r) == Err(Conflict)
       <==> r.caller == r.target && IsOwner(members, r.caller) && r.role != Some(Owner)
            && OtherOwners(members, r.caller) == {}
  {
    if Decision(members, r) == Err(Conflict) {
      assert members[r.caller] == Owner;
      assert r.caller !in OtherOwners(members, r.target);
    }
  }

  // ---------- what an admin can do ----------

  /** The members who are owners or admins, with their roles. */
  function Top(members: Members): Members {
    map u | u in members && IsTop(members[u]) :: members[u]
  }

  lemma CommitByAnAdmin(members: Members, r: Request)
    requires !IsOwner(members, r.caller)
    ensures Top(Committed(members, r)) == Top(members)
  {
  }

  predicate NoOwnerCommits(s: State, steps: seq<Step>)
    requires ValidRun(s, steps)
    decreases |steps|
  {
    steps == [] ||
    ((steps[0].Commit? ==> !IsOwner(s.members, s.waiting[steps[0].id].caller))
     && NoOwnerCommits(Apply(s, steps[0]), steps[1..]))
  }

  /** As long as no caller is an owner under the lock, nobody becomes, stays or stops being an owner or admin by it,
      even when a caller was an owner at its first check. */
  lemma {:induction false} WithoutOwnersTheTopIsFixed(s: State, steps: seq<Step>)
    requires ValidRun(s, steps) && NoOwnerCommits(s, steps)
    ensures Top(Run(s, steps).members) == Top(s.members)
    decreases |steps|
  {
    if steps != [] {
      if steps[0].Commit? {
        CommitByAnAdmin(s.members, s.waiting[steps[0].id]);
      }
      WithoutOwnersTheTopIsFixed(Apply(s, steps[0]), steps[1..]);
    }
  }

  /** A change touches the target alone, and needs a caller that may manage members at that moment. */
  lemma CommitsAreConfined(members: Members, r: Request)
    ensures forall u :: u != r.target ==>
              (u in Committed(members, r) <==> u in members)
                  && (u in members ==> Committed(members, r)[u] == members[u])
    ensures Committed(members, r) != members ==>
              r.caller in members && Allows(members[r.caller], ManageMembers) && r.target in members
  {
  }

  // ---------- the handlers ----------

  /** A whole request: refused by the first check and then nothing happens, or waiting while others act, and
      then decided by the members under the lock. `others` are the steps in between. */
  ghost predicate Handled(before: State, after: State, id: nat, r: Request, others: seq<Step>,
                          result: Result<(), ApiError>)
    requires id !in before.waiting
  {
    match PreCheck(before.members, r.caller)
    case Err(e) => result == Err(e) && after == before
    case Ok(_) =>
      var checked := Apply(before, Check(id, r));
      ValidRun(checked, others) && LeaveAlone(others, id)
      && var locked := Run(checked, others);
         id in locked.waiting && result == Decision(locked.members, r) && after == Apply(locked, Commit(id))
  }

  /** A handled request is a run of the machine, and it leaves an owner. */
  lemma HandlingIsARun(before: State, after: State, id: nat, r: Request, others: seq<Step>,
                       result: Result<(), ApiError>)
    requires id !in before.waiting && Handled(before, after, id, r, others, result)
    ensures PreCheck(before.members, r.caller).Ok? ==> Ran(before, after, [Check(id, r)] + others + [Commit(id)])
    ensures HasOwner(before.members) ==> HasOwner(after.members)
    ensures id !in after.waiting
  {
    if PreCheck(before.members, r.caller).Ok? {
      var checked := Apply(before, Check(id, r));
      var locked := Run(checked, others);
      OneStepRuns(before, Check(id, r));
      RanThen(before, checked, locked, [Check(id, r)], others);
      OneStepRuns(locked, Commit(id));
      RanThen(before, locked, after, [Check(id, r)] + others, [Commit(id)]);
      if HasOwner(before.members) {
        RunsKeepAnOwner(before, [Check(id, r)] + others + [Commit(id)]);
      }
    }
  }

  class Organization {
    var members: Members
    ghost var waiting: map<nat, Request>

    ghost function View(): State
      reads this
    {
      State(members, waiting)
    }

    constructor (members: Members)
      ensures View() == State(members, map[])
    {
      this.members, waiting := members, map[];
    }

    /** Anything other requests may do between the first check of request `id` and the lock. The body does
        nothing; callers learn only that the outcome is some run. */
    method Interfere(ghost id: nat) returns (ghost others: seq<Step>)
      modifies this
      ensures Ran(old(View()), View(), others) && LeaveAlone(others, id)
    {
      others := [];
    }

    method RequireAnotherOwner(user: User) returns (found: bool)
      ensures found <==> OtherOwners(members, user) != {}
    {
      var left := members.Keys;
      var count := 0;
      while left != {}
        invariant left <= members.Keys
        invariant count == |OtherOwners(members, user) - left|
        decreases left
      {
        var u :| u in left;
        if u != user && members[u] == Owner {
          assert OtherOwners(members, user) - (left - {u}) == (OtherOwners(members, user) - left) + {u};
          count := count + 1;
        } else {
          assert OtherOwners(members, user) - (left - {u}) == OtherOwners(members, user) - left;
        }
        left := left - {u};
      }
      assert OtherOwners(members, user) - left == OtherOwners(members, user);
      found := count != 0;
    }

    /** The transaction that holds the lock. */
    method LockedUpdate(caller: User, target: User, role: Role) returns (result: Result<(), ApiError>)
      modifies this`members
      ensures result == Decision(old(members), Request(caller, target, Some(role)))
      ensures members == Committed(old(members), Request(caller, target, Some(role)))
    {
      if caller !in members {
        return Err(NotFound);
      }
      var callerRole := members[caller];
      if !Allows(callerRole, ManageMembers) {
        return Err(Forbidden);
      }
      if target !in members {
        return Err(NotFound);
      }
      if callerRole == Admin && (IsTop(members[target]) || IsTop(role)) {
        return Err(Forbidden);
      }
      if members[target] == Owner && role != Owner {
        var another := RequireAnotherOwner(target);
        if !another {
          return Err(Conflict);
        }
      }
      members := members[target := role];
      result := Ok(());
    }

    method LockedRemove(caller: User, target: User) returns (result: Result<(), ApiError>)
      modifies this`members
      ensures result == Decision(old(members), Request(caller, target, None))
      ensures members == Committed(old(members), Request(caller, target, None))
    {
      if caller !in members {
        return Err(NotFound);
      }
      var callerRole := members[caller];
      if !Allows(callerRole, ManageMembers) {
        return Err(Forbidden);
      }
      if target !in members {
        return Err(NotFound);
      }
      if callerRole == Admin && IsTop(members[target]) {
        return Err(Forbidden);
      }
      if members[target] == Owner {
        var another := RequireAnotherOwner(target);
        if !another {
          return Err(Conflict);
        }
      }
      members := members - {target};
      result := Ok(());
    }

    /** The whole request under a fresh id: first check, whatever others do meanwhile, then the locked transaction. */
    method UpdateMember(caller: User, target: User, role: Role, ghost id: nat)
      returns (result: Result<(), ApiError>, ghost others: seq<Step>)
      requires id !in waiting
      modifies this
      ensures Handled(old(View()), View(), id, Request(caller, target, Some(role)), others, result)
      ensures HasOwner(old(members)) ==> HasOwner(members)
    {
      others := [];
      var checked := PreCheck(members, caller);
      if checked.Err? {
        return Err(checked.error), others;
      }
      waiting := waiting[id := Request(caller, target, Some(role))];
      ghost var waits := View();
      others := Interfere(id);
      OthersLeaveItWaiting(waits, others, id);
      result := LockedUpdate(caller, target, role);
      waiting := waiting - {id};
      HandlingIsARun(old(View()), View(), id, Request(caller, target, Some(role)), others, result);
    }

    method RemoveMember(caller: User, target: User, ghost id: nat)
      returns (result: Result<(), ApiError>, ghost others: seq<Step>)
      requires id !in waiting
      modifies this
      ensures Handled(old(View()), View(), id, Request(caller, target, None), others, result)
      ensures HasOwner(old(members)) ==> HasOwner(members)
    {
      others := [];
      var checked := PreCheck(members, caller);
      if checked.Err? {
        return Err(checked.error), others;
      }
      waiting := waiting[id := Request(caller, target, None)];
      ghost var waits := View();
      others := Interfere(id);
      OthersLeaveItWaiting(waits, others, id);
      result := LockedRemove(caller, target);
      waiting := waiting - {id};
      HandlingIsARun(old(View()), View(), id, Request(caller, target, None), others, result);
    }
  }
}
