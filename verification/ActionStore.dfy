/** The transactions of durable actions on mutable tables, one at a time: what `submit`, `settle`,
    `revoke_allowance` and `execute` do when nothing else runs. */
module ActionStore {
  import opened Wrappers
  import opened DurableActions
  import Q = JobQueue
  import JobTable

  datatype SubmitError = NotVisible | Mismatch

  /** What the resolver answers. */
  datatype Resolution = ResolverFailed | Resolved(principal: Option<Principal>)

  /** What the database does to the transaction: nothing, a statement fails and with it the transaction, or
      the COMMIT fails, applied or not. */
  datatype Fault = NoFault | StatementFails | CommitFails(applied: bool)

  const FAILED_ATTEMPT := Q.Failure(ATTEMPT_FAILED, 0)

  /** How an attempt past its handler ends: with its write committed, or lost, or without one. */
  function Finished(t: Store, request: nat, a: Attempt, fault: Fault): (Store, Q.Outcome)
    requires (a.Writing? || a.Returned?) && request in t.actions
  {
    if a.Returned? then (t, a.outcome)
    else if fault.CommitFails? then (if fault.applied then Committed(t, request, a.write) else t, FAILED_ATTEMPT)
    else (Committed(t, request, a.write), a.write.outcome)
  }

  /** What the checks of `execute` come to. */
  datatype Verdict = Unresolved | Stopped(status: Status) | Conflicting | Cleared

  function VerdictOn(t: Store, row: ActionRow, registry: Registry, resolution: Resolution): Verdict {
    var stop := Stop(t, row, registry);
    if stop.Some? then Stopped(stop.value)
    else if registry[row.name] == row.definition && resolution.ResolverFailed? then Unresolved
    else if resolution.ResolverFailed? || !Current(registry, row, resolution.principal) then Stopped(Invalidated)
    else if ConflictGuard(registry, row) then Conflicting
    else Cleared
  }

  /** What `execute` does to the store and answers when nothing else runs. `result` is what the handler
      returns if it is called. */
  function Executed(t: Store, request: nat, registry: Registry, resolution: Resolution, last: bool,
                    result: HandlerResult, fault: Fault): (Store, Q.Outcome)
  {
    if fault.StatementFails? then (t, FAILED_ATTEMPT)
    else if request !in t.actions || t.actions[request].status != Queued then (t, Q.Success)
    else
      match VerdictOn(t, t.actions[request], registry, resolution)
      case Unresolved => (t, FAILED_ATTEMPT)
      case Conflicting => (t, FAILED_ATTEMPT)
      case Stopped(status) => Finished(t, request, Writing(0, 0, request, Write(status, None, false, Q.Success)), fault)
      case Cleared => Finished(t, request, AfterHandler(Handling(0, 0, request, last, registry), result), fault)
  }

  predicate SameRequest(row: ActionRow, principal: Principal, definition: Definition, arguments: string) {
    && row.identity == principal.identity && row.name == definition.name
    && row.definition == definition && row.arguments == arguments
  }

  class ActionStore {
    const jobs: JobTable.JobTable
    var actions: map<nat, ActionRow>
    var allowances: map<nat, Allowance>
    var nextAllowance: nat
    /** The mutations handlers have made, in the host's own tables. */
    var effects: seq<Effect>
    ghost var approvals: set<(nat, string)>
    ghost var grants: set<Grant>
    ghost var covered: map<nat, Time>
    ghost var jobOf: map<nat, nat>

    ghost function Tables(): Store
      reads this, jobs
    {
      Store(jobs.State(), actions, allowances, nextAllowance, effects, approvals, grants, covered, jobOf)
    }

    constructor (start: Time)
      ensures fresh(jobs) && jobs.Valid() && Tables() == EmptyStore(start)
    {
      jobs := new JobTable.JobTable(start);
      actions, allowances, nextAllowance, effects := map[], map[], 0, [];
      approvals, grants, covered, jobOf := {}, {}, map[], map[];
    }

    method EnqueueAction(request: nat, runAt: Time)
      requires jobs.Valid()
      modifies this`jobOf, jobs`rows, jobs`nextId
      ensures jobs.Valid() && Tables() == QueueJob(old(Tables()), request, runAt)
      ensures exists id :: id in jobs.rows && jobs.rows[id].key == Some(Q.ForAction(request))
      ensures forall id :: id in old(jobs.rows) ==> id in jobs.rows && jobs.rows[id] == old(jobs.rows)[id]
      ensures !old(Q.KeyTaken(jobs.rows, Some(Q.ForAction(request)))) ==>
        && jobOf[request] in jobs.rows
        && var row := jobs.rows[jobOf[request]];
        && row.status == Q.Pending && row.runAt == runAt && row.payload == Q.ActionRequest(request)
      ensures forall r :: r in old(jobOf) && r != request ==> r in jobOf && jobOf[r] == old(jobOf)[r]
    {
      jobOf := jobOf[request := jobs.nextId];
      jobs.Enqueue(None, ACTION_KIND, Q.ActionRequest(request), 0, runAt, Some(Q.ForAction(request)));
    }

    /** `allowance`: some allowance `submit` may use, if there is one. */
    method FindAllowance(p: Principal, d: Definition) returns (found: Option<nat>)
      ensures match found
        case Some(a) => Matches(Tables(), p, d, a)
        case None => forall a :: a in allowances ==> !Matches(Tables(), p, d, a)
      ensures found.Some? ==>
        && found.value in allowances
        && var a := allowances[found.value];
        && !a.revoked && a.identity == p.identity && a.name == d.name && a.definition == d && a.expiresAt > jobs.now
      ensures found.None? ==> forall a :: a in allowances && allowances[a].expiresAt > jobs.now ==>
        || allowances[a].revoked || allowances[a].identity != p.identity || allowances[a].name != d.name
        || allowances[a].definition != d
    {
      var matching := set a | a in allowances && Active(allowances[a], p.identity, d.name)
                              && allowances[a].definition == d && allowances[a].expiresAt > jobs.now;
      if a :| a in matching {
        return Some(a);
      }
      assert forall a :: Matches(Tables(), p, d, a) ==> a in matching;
      return None;
    }

    method InsertRow(principal: Principal, definition: Definition, request: nat, arguments: string, status: Status,
                     seen: Option<nat>)
      requires request !in actions
      modifies this`actions, this`covered
      ensures actions == old(actions)[request := ActionRow(principal.identity, definition.name, definition, arguments,
        status, None, if seen.Some? then Some(principal.identity.user) else None, seen, jobs.now + EXPIRY)]
      ensures covered == old(covered)[request := jobs.now]
    {
      var reviewedBy := if seen.Some? then Some(principal.identity.user) else None;
      actions := actions[request := ActionRow(principal.identity, definition.name, definition, arguments, status,
                                              None, reviewedBy, seen, jobs.now + EXPIRY)];
      covered := covered[request := jobs.now];
    }

    /** `submit`. The same request again is answered with its row, another one under its id is refused;
        neither changes anything. */
    method Submit(principal: Principal, definition: Definition, request: nat, arguments: string, runAt: Time)
        returns (r: Result<Status, SubmitError>, ghost sub: Submission)
      requires jobs.Valid()
      modifies this`actions, this`covered, this`jobOf, jobs`rows, jobs`nextId
      ensures jobs.Valid()
      ensures !VisibleTo(definition, principal) ==> r == Err(NotVisible) && Tables() == old(Tables())
      ensures r.Ok? ==>
        && definition.permission in principal.permissions && principal.identity.user != ""
        && principal.identity.tenant != "" && principal.identity.client != "" && principal.identity.grant != ""
      ensures r == Err(NotVisible) ==>
        || definition.permission !in principal.permissions || principal.identity.user == ""
        || principal.identity.tenant == "" || principal.identity.client == "" || principal.identity.grant == ""
        || (request in old(actions) && old(actions)[request].identity != principal.identity)
      ensures VisibleTo(definition, principal) ==>
        && sub == Submission(principal, definition, request, arguments, sub.seen, jobs.now)
        && SeenOk(old(Tables()), principal, definition, sub.seen)
        && Tables() == Submitted(old(Tables()), sub, runAt)
        && request in actions
        && var row := actions[request];
        && (r == Err(NotVisible) <==> row.identity != principal.identity)
        && (r.Ok? <==> SameRequest(row, principal, definition, arguments))
        && (r.Ok? ==> r.value == row.status)
    {
      sub := Submission(principal, definition, request, arguments, None, jobs.now);
      if !VisibleTo(definition, principal) { return Err(NotVisible), sub; }
      var seen: Option<nat> := None;
      if definition.approval == Required && definition.allowances {
        seen := FindAllowance(principal, definition);
      }
      sub := sub.(seen := seen);
      var status := if definition.approval == Required && seen.None? then Pending else Queued;
      var inserted := request !in actions;
      if inserted { InsertRow(principal, definition, request, arguments, status, seen); }
      var row := actions[request];
      if row.identity != principal.identity { return Err(NotVisible), sub; }
      if row.name != definition.name || row.definition != definition || row.arguments != arguments {
        return Err(Mismatch), sub;
      }
      if inserted && status == Queued {
        EnqueueAction(request, runAt);
      }
      return Ok(row.status), sub;
    }

    /** `allow`: replaces the active allowance of this grant and capability, or makes one. */
    method Allow(request: nat, row: ActionRow, expiresAt: Time) returns (a: nat)
      modifies this`allowances, this`nextAllowance, this`grants
      ensures UpsertTarget(old(Tables()), row, a) && Tables() == Allowed(old(Tables()), request, row, a, expiresAt)
      ensures allowances == old(allowances)[a := Allowance(row.identity, row.name, row.definition, expiresAt, false)]
    {
      var active := set b | b in allowances && Active(allowances[b], row.identity, row.name);
      if b :| b in active {
        a := b;
      } else {
        a := nextAllowance;
        assert forall b :: b in allowances && Active(allowances[b], row.identity, row.name) ==> b in active;
      }
      if a == nextAllowance { nextAllowance := a + 1; }
      allowances := allowances[a := Allowance(row.identity, row.name, row.definition, expiresAt, false)];
      grants := grants + {Grant(a, row.identity, row.name, row.definition, expiresAt, request)};
    }

    /** The answers `settle` gives without writing: refusals, and repeats of the decision. */
    method Refusal(ghost d: Decision, user: string, tenant: string, request: nat, approve: bool, allowFor: Option<nat>,
                   registry: Registry)
        returns (early: Option<Result<Status, SettleError>>)
      requires d.user == user && d.tenant == tenant && d.request == request && d.approve == approve
      requires d.allowFor == allowFor && d.registry == registry
      ensures early == SettleEarly(Tables(), d)
    {
      if allowFor.Some? && (allowFor.value == 0 || allowFor.value > MAX_ALLOWANCE) {
        return Some(Err(InvalidAllowance));
      }
      if request !in actions { return Some(Err(Unavailable)); }
      var row := actions[request];
      if row.identity.user != user || row.identity.tenant != tenant { return Some(Err(Unavailable)); }
      if (!approve && row.status == Rejected) ||
         (approve && row.reviewedBy.Some? && (row.status == Queued || row.status == Completed)) {
        if allowFor.Some? && row.allowance.None? { return Some(Err(Conflict)); }
        return Some(Ok(row.status));
      }
      if row.status != Pending { return Some(Err(Conflict)); }
      if allowFor.Some? && !(row.name in registry && registry[row.name].allowances) { return Some(Err(Conflict)); }
      return None;
    }

    /** What `settle` writes once it has decided the status of a pending row. */
    method WriteDecision(ghost d: Decision, user: string, request: nat, allowFor: Option<nat>, row: ActionRow,
                         status: Status, runAt: Time)
        returns (ghost written: Decision)
      requires d.user == user && d.request == request && d.allowFor == allowFor && d.runAt == runAt
      requires d.readAt == jobs.now
      requires jobs.Valid() && SettleEarly(Tables(), d).None? && row == actions[request]
      requires status == SettleStatus(row, d)
      requires UpsertTarget(Tables(), row, d.target)
      modifies this`actions, this`allowances, this`nextAllowance, this`grants, this`approvals, this`jobOf
      modifies jobs`rows, jobs`nextId
      ensures jobs.Valid() && written == d.(target := written.target)
      ensures UpsertTarget(old(Tables()), row, written.target)
      ensures Tables() == Settled(old(Tables()), written) && request in actions && actions[request].status == status
    {
      written := d;
      var allowance: Option<nat> := None;
      if allowFor.Some? && status == Queued {
        var a := Allow(request, row, jobs.now + allowFor.value);
        allowance := Some(a);
        written := d.(target := a);
      }
      actions := actions[request := row.(status := status, reviewedBy := Some(user), allowance := allowance)];
      if status == Queued {
        approvals := approvals + {(request, user)};
        EnqueueAction(request, runAt);
      }
    }

    /** The status that a pending row gets. */
    method Decide(ghost d: Decision, row: ActionRow, approve: bool, registry: Registry, resolved: Option<Principal>)
        returns (status: Status)
      requires d.approve == approve && d.registry == registry && d.resolved == resolved && d.readAt == jobs.now
      ensures status == SettleStatus(row, d)
    {
      if row.expiresAt <= jobs.now { return Expired; }
      if !approve { return Rejected; }
      return if Current(registry, row, resolved) then Queued else Invalidated;
    }

    /** `settle`. */
    method Settle(user: string, tenant: string, request: nat, approve: bool, allowFor: Option<nat>,
                  registry: Registry, resolved: Option<Principal>, runAt: Time)
        returns (r: Result<Status, SettleError>, ghost d: Decision)
      requires jobs.Valid()
      modifies this`actions, this`allowances, this`nextAllowance, this`grants, this`approvals, this`jobOf
      modifies jobs`rows, jobs`nextId
      ensures jobs.Valid()
      ensures d == Decision(user, tenant, request, approve, allowFor, registry, resolved, jobs.now, d.target, runAt)
      ensures request in old(actions) ==> UpsertTarget(old(Tables()), old(actions)[request], d.target)
      ensures Tables() == Settled(old(Tables()), d)
      ensures match SettleEarly(old(Tables()), d)
        case Some(answer) => r == answer
        case None => r == Ok(SettleStatus(old(actions)[request], d)) && r == Ok(actions[request].status)
    {
      d := Decision(user, tenant, request, approve, allowFor, registry, resolved, jobs.now, 0, runAt);
      if request in actions {
        ghost var target := TargetExists(Tables(), actions[request]);
        d := d.(target := target);
      }
      var early := Refusal(d, user, tenant, request, approve, allowFor, registry);
      if early.Some? { return early.value, d; }
      var row := actions[request];
      var status := Decide(d, row, approve, registry, resolved);
      d := WriteDecision(d, user, request, allowFor, row, status, runAt);
      return Ok(status), d;
    }

    /** `revoke_allowance`. */
    method RevokeAllowance(user: string, tenant: string, a: nat) returns (found: bool)
      modifies this`allowances
      ensures found <==> MayRevoke(old(Tables()), user, tenant, a)
      ensures Tables() == Revoked(old(Tables()), user, tenant, a)
      ensures found <==>
        && a in old(allowances)
        && old(allowances)[a].identity.user == user && old(allowances)[a].identity.tenant == tenant
      ensures allowances ==
        if found then old(allowances)[a := old(allowances)[a].(revoked := true)] else old(allowances)
    {
      found := a in allowances && allowances[a].identity.user == user && allowances[a].identity.tenant == tenant;
      if found {
        allowances := allowances[a := allowances[a].(revoked := true)];
      }
    }

    /** COMMIT: when it fails without effect, everything the transaction wrote is gone. */
    method Commit(savedActions: map<nat, ActionRow>, savedEffects: seq<Effect>, outcome: Q.Outcome, fault: Fault)
        returns (r: Q.Outcome)
      modifies this`actions, this`effects
      ensures r == if fault.CommitFails? then FAILED_ATTEMPT else outcome
      ensures actions == if fault == CommitFails(false) then savedActions else old(actions)
      ensures effects == if fault == CommitFails(false) then savedEffects else old(effects)
    {
      if fault == CommitFails(false) { actions, effects := savedActions, savedEffects; }
      return if fault.CommitFails? then FAILED_ATTEMPT else outcome;
    }

    /** The handler, inside a savepoint that is kept or rolled back with its result. */
    method Handle(request: nat, row: ActionRow, last: bool, result: HandlerResult, fault: Fault)
        returns (outcome: Q.Outcome)
      requires request in actions && row == actions[request]
      modifies this`actions, this`effects
      ensures (Tables(), outcome)
        == Finished(old(Tables()), request, AfterHandler(Handling(0, 0, request, last, map[]), result), fault)
    {
      var savedActions, savepoint := actions, effects;
      effects := effects + [Effect(request, row.definition, row.allowance)];
      match result {
        case Done(output) =>
          actions := actions[request := row.(status := Completed, result := Some(output))];
          outcome := Q.Success;
        case Error(code, retryable) =>
          effects := savepoint;
          if retryable && !last { return Q.Failure(code, 0); }
          actions := actions[request := row.(status := Failed, result := Some(code))];
          outcome := if retryable then Q.Failure(code, 0) else Q.Success;
      }
      outcome := Commit(savedActions, savepoint, outcome, fault);
    }

    /** Expiry, the allowance, the registry and the identity behind the grant, in this order. */
    method Check(row: ActionRow, registry: Registry, resolution: Resolution) returns (v: Verdict)
      ensures v == VerdictOn(Tables(), row, registry, resolution)
    {
      var expired := row.expiresAt <= jobs.now;
      var revoked :=
        row.allowance.Some? && !(row.allowance.value in allowances && !allowances[row.allowance.value].revoked);
      if expired { return Stopped(Expired); }
      if revoked || row.name !in registry { return Stopped(Invalidated); }
      if registry[row.name] != row.definition { return Stopped(Invalidated); }
      if resolution.ResolverFailed? { return Unresolved; }
      if !Current(registry, row, resolution.principal) { return Stopped(Invalidated); }
      if registry[row.name].approval == Required && row.reviewedBy != Some(row.identity.user) { return Conflicting; }
      return Cleared;
    }

    /** `execute`: lock, checks, identity, handler, commit. */
    method Execute(request: nat, registry: Registry, resolution: Resolution, last: bool, result: HandlerResult,
                   fault: Fault)
        returns (outcome: Q.Outcome)
      modifies this`actions, this`effects
      ensures (Tables(), outcome) == Executed(old(Tables()), request, registry, resolution, last, result, fault)
    {
      if fault.StatementFails? { return FAILED_ATTEMPT; }
      if request !in actions || actions[request].status != Queued { return Q.Success; }
      var row := actions[request];
      var verdict := Check(row, registry, resolution);
      match verdict {
        case Unresolved => outcome := FAILED_ATTEMPT;
        case Conflicting => outcome := FAILED_ATTEMPT;
        case Stopped(status) =>
          var savedActions := actions;
          actions := actions[request := row.(status := status)];
          outcome := Commit(savedActions, effects, Q.Success, fault);
        case Cleared => outcome := Handle(request, row, last, result, fault);
      }
    }
  }

  lemma TargetExists(t: Store, row: ActionRow) returns (a: nat)
    ensures UpsertTarget(t, row, a)
  {
    if b :| b in t.allowances && Active(t.allowances[b], row.identity, row.name) {
      a := b;
    } else {
      a := t.nextAllowance;
    }
  }

  /** A request is decided once: no later decision changes anything, least of all the allowance. The same one
      again is answered with its status, unless the request had expired or was no longer current, or a rejection
      asked for an allowance. */
  lemma DecidedOnce(t: Store, d: Decision, later: Decision)
    requires SettleEarly(t, d).None? && later.request == d.request
    ensures Settled(Settled(t, d), later) == Settled(t, d)
    ensures var status := SettleStatus(t.actions[d.request], d);
      SettleEarly(Settled(t, d), d) == Some(
        if status == Queued || (status == Rejected && d.allowFor.None?) then Ok(status) else Err(Conflict))
  {
    RowAfterDecision(t, d);
  }

  lemma RowAfterDecision(t: Store, d: Decision)
    requires SettleEarly(t, d).None?
    ensures var row := t.actions[d.request];
      d.request in Settled(t, d).actions && Settled(t, d).actions[d.request] == row.(
        status := SettleStatus(row, d), reviewedBy := Some(d.user),
        allowance := if Upserts(t, d) then Some(d.target) else None)
  {
  }

  predicate IsQueued(t: Store, request: nat) { request in t.actions && t.actions[request].status == Queued }

  /** What any attempt at a request leaves behind: nothing at all, or a final status, with one effect more exactly
      for a completion. It answers success only if the request is no longer queued. */
  lemma ExecutedOnce(t: Store, request: nat, registry: Registry, resolution: Resolution, last: bool,
                     result: HandlerResult, fault: Fault)
    ensures var (t', outcome) := Executed(t, request, registry, resolution, last, result, fault);
      && (t' == t || (request in t'.actions && Terminal(t'.actions[request].status)
            && |t'.effects| == |t.effects| + if t'.actions[request].status == Completed then 1 else 0))
      && (outcome == Q.Success ==> !IsQueued(t', request))
  {
    if !fault.StatementFails? && IsQueued(t, request) {
      match VerdictOn(t, t.actions[request], registry, resolution)
      case Cleared => ClearedOnce(t, request, registry, last, result, fault);
      case _ =>
    }
  }

  lemma ClearedOnce(t: Store, request: nat, registry: Registry, last: bool, result: HandlerResult, fault: Fault)
    requires IsQueued(t, request) && !fault.StatementFails?
    ensures var (t', outcome) :=
        Finished(t, request, AfterHandler(Handling(0, 0, request, last, registry), result), fault);
      && (t' == t || (request in t'.actions && Terminal(t'.actions[request].status)
            && |t'.effects| == |t.effects| + if t'.actions[request].status == Completed then 1 else 0))
      && (outcome == Q.Success ==> !IsQueued(t', request))
  {
  }

  /** An undisturbed attempt does nothing and answers success exactly when the request is no longer queued. */
  lemma IdleIffSettled(t: Store, request: nat, registry: Registry, resolution: Resolution, last: bool,
                       result: HandlerResult)
    ensures !IsQueued(t, request)
      <==> Executed(t, request, registry, resolution, last, result, NoFault) == (t, Q.Success)
  {
    ExecutedOnce(t, request, registry, resolution, last, result, NoFault);
  }

  /** One attempt of the concurrent model with nothing in between: lock, vet, resolve, handle, commit. */
  ghost function AttemptAlone(s: System, w: nat, registry: Registry, resolved: Option<Principal>,
      result: HandlerResult): System {
    var vetted := Apply(Apply(s, Begin(w, registry)), Vet(w));
    Apply(Apply(Apply(vetted, Resolve(w, resolved)), Handle(w, result)), Commit(w))
  }

  /** `Execute` is the concurrent attempt run without interruption: same store, same answer. */
  lemma ExecuteIsAttempt(s: System, w: nat, registry: Registry, resolved: Option<Principal>, result: HandlerResult)
    requires w in s.attempts && s.attempts[w].Claimed? && RegistryOk(registry)
    requires var r := s.attempts[w].request;
      !RowLocked(s, r) && r in s.store.actions && s.store.actions[r].status == Queued
    ensures var a, s' := s.attempts[w], AttemptAlone(s, w, registry, resolved, result);
      && w in s'.attempts && s'.attempts[w].Returned?
      && Executed(s.store, a.request, registry, Resolved(resolved), a.last, result, NoFault)
          == (s'.store, s'.attempts[w].outcome)
  {
    Vetting(s, w, registry);
    var a := s.attempts[w];
    var stop := Stop(s.store, s.store.actions[a.request], registry);
    var vetted := Vetted(a.job, a.token, a.request, a.last, registry, stop);
    Deciding(s.(attempts := s.attempts[w := vetted]), w, resolved, result);
  }

  lemma Vetting(s: System, w: nat, registry: Registry)
    requires w in s.attempts && s.attempts[w].Claimed? && RegistryOk(registry)
    requires var r := s.attempts[w].request;
      !RowLocked(s, r) && r in s.store.actions && s.store.actions[r].status == Queued
    ensures var a := s.attempts[w];
      Apply(Apply(s, Begin(w, registry)), Vet(w)) == s.(attempts := s.attempts[w :=
        Vetted(a.job, a.token, a.request, a.last, registry, Stop(s.store, s.store.actions[a.request], registry))])
  {
    var a := s.attempts[w];
    var s1 := Apply(s, Begin(w, registry));
    assert s1 == s.(attempts := s.attempts[w := Locked(a.job, a.token, a.request, a.last, registry)]);
    assert Apply(s1, Vet(w)).attempts == s.attempts[w :=
        Vetted(a.job, a.token, a.request, a.last, registry, Stop(s.store, s.store.actions[a.request], registry))];
  }

  lemma Deciding(s: System, w: nat, resolved: Option<Principal>, result: HandlerResult)
    requires w in s.attempts && s.attempts[w].Vetted?
    requires var a := s.attempts[w];
      && a.request in s.store.actions && s.store.actions[a.request].status == Queued
      && a.stop == Stop(s.store, s.store.actions[a.request], a.registry)
    ensures var a, s' := s.attempts[w], Apply(Apply(Apply(s, Resolve(w, resolved)), Handle(w, result)), Commit(w));
      && w in s'.attempts && s'.attempts[w].Returned?
      && Executed(s.store, a.request, a.registry, Resolved(resolved), a.last, result, NoFault)
          == (s'.store, s'.attempts[w].outcome)
  {
    var a := s.attempts[w];
    var resolving := AfterResolve(a, s.store.actions[a.request], resolved);
    ResolveMoves(s, w, resolved);
    var s1 := s.(attempts := s.attempts[w := resolving]);
    HandleMoves(s1, w, result);
    var s2 := Apply(s1, Handle(w, result));
    CommitMoves(s2, w);
  }

  lemma ResolveMoves(s: System, w: nat, resolved: Option<Principal>)
    requires w in s.attempts && s.attempts[w].Vetted? && s.attempts[w].request in s.store.actions
    ensures var a := s.attempts[w];
      Apply(s, Resolve(w, resolved))
        == s.(attempts := s.attempts[w := AfterResolve(a, s.store.actions[a.request], resolved)])
  {
  }

  lemma HandleMoves(s: System, w: nat, result: HandlerResult)
    requires w in s.attempts
    ensures Apply(s, Handle(w, result)) ==
      if s.attempts[w].Handling? then s.(attempts := s.attempts[w := AfterHandler(s.attempts[w], result)]) else s
  {
  }

  lemma CommitMoves(s: System, w: nat)
    requires w in s.attempts && s.attempts[w].request in s.store.actions
    ensures var a, s' := s.attempts[w], Apply(s, Commit(w));
      if a.Writing? then
        && s'.store == Committed(s.store, a.request, a.write)
        && s'.attempts == s.attempts[w := Returned(a.job, a.token, a.request, a.write.outcome)]
      else s' == s
  {
  }
}
