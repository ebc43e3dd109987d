/** Durable, approved actions on top of the job queue: submission, human
    decision, allowances, and execution by any number of workers, step by step,
    with a crash or a storage error possible between any two steps and while a
    COMMIT is in flight. Every process may run a different registry. */
module DurableActions {
  import opened Wrappers
  import Q = JobQueue
  import Runs = JobRuns

  type Time = Q.Time

  const EXPIRY: nat := 24 * 3600 * Q.SECOND
  const MAX_ALLOWANCE: nat := 7 * 24 * 3600 * Q.SECOND
  const ACTION_KIND := "oxidt_agent_action"
  const ATTEMPT_FAILED := "Agent action attempt failed"

  datatype Identity = Identity(user: string, tenant: string, client: string, grant: string)

  datatype Principal = Principal(identity: Identity, permissions: set<string>)

  datatype Approval = NotRequired | Required

  /** The JSON stored with each request. It holds the whole policy of the capability, so
      equal definitions have equal policies. `schema` stands for its other members. */
  datatype Definition = Definition(
    name: string, version: string, permission: string, approval: Approval, allowances: bool, schema: string)

  type Registry = map<string, Definition>

  datatype Status = Pending | Queued | Completed | Failed | Rejected | Expired | Invalidated

  datatype ActionRow = ActionRow(
    identity: Identity,
    name: string,
    definition: Definition,
    arguments: string,
    status: Status,
    result: Option<string>,
    reviewedBy: Option<string>,
    allowance: Option<nat>,
    expiresAt: Time)

  datatype Allowance = Allowance(
    identity: Identity, name: string, definition: Definition, expiresAt: Time, revoked: bool)

  /** What an attempt will write: its status, and whether its savepoint was committed. */
  datatype Write = Write(status: Status, result: Option<string>, effect: bool, outcome: Q.Outcome)

  /** One worker's progress through `execute`. */
  datatype Attempt =
    | Claimed(job: nat, token: nat, request: nat, last: bool)
    | Locked(job: nat, token: nat, request: nat, last: bool, registry: Registry)
    | Vetted(job: nat, token: nat, request: nat, last: bool, registry: Registry, stop: Option<Status>)
    | Handling(job: nat, token: nat, request: nat, last: bool, registry: Registry)
    | Writing(job: nat, token: nat, request: nat, write: Write)
    | Returned(job: nat, token: nat, request: nat, outcome: Q.Outcome)

  datatype HandlerResult = Done(result: string) | Error(code: string, retryable: bool)

  /** A submission that has read the allowances but not yet inserted its row. */
  datatype Submission = Submission(
    principal: Principal, definition: Definition, request: nat, arguments: string, seen: Option<nat>, readAt: Time)

  /** History: one committed handler mutation. */
  datatype Effect = Effect(request: nat, definition: Definition, allowance: Option<nat>)

  /** History: one version an allowance had, and the approval that created it. */
  datatype Grant = Grant(allowance: nat, identity: Identity, name: string, definition: Definition, expiresAt: Time,
      from: nat)

  datatype Store = Store(
    jobs: Q.Queue,
    actions: map<nat, ActionRow>,
    allowances: map<nat, Allowance>,
    nextAllowance: nat,
    effects: seq<Effect>,
    approvals: set<(nat, string)>,
    grants: set<Grant>,
    covered: map<nat, Time>,
    jobOf: map<nat, nat>)

  /** `orphans` are COMMITs in flight whose worker is gone; they may still take effect. */
  datatype System = System(
    store: Store,
    attempts: map<nat, Attempt>,
    orphans: map<nat, Write>,
    submissions: map<nat, Submission>)

  // ---- Policy ----

  predicate VisibleTo(d: Definition, p: Principal) {
    p.identity.user != "" && p.identity.tenant != "" && p.identity.client != "" && p.identity.grant != "" &&
    d.permission in p.permissions
  }

  /** `register` files a capability under its own name. */
  predicate RegistryOk(registry: Registry) {
    forall name :: name in registry ==> registry[name].name == name
  }

  /** `current`: the definition is unchanged and the grant still resolves to this identity. */
  predicate Current(registry: Registry, row: ActionRow, resolved: Option<Principal>) {
    && row.name in registry && registry[row.name] == row.definition
    && resolved.Some? && resolved.value.identity == row.identity && VisibleTo(row.definition, resolved.value)
  }

  predicate Terminal(status: Status) {
    status == Completed || status == Failed || status == Expired || status == Invalidated
  }

  predicate LiveAllowance(allowances: map<nat, Allowance>, allowance: Option<nat>) {
    allowance.Some? ==> allowance.value in allowances && !allowances[allowance.value].revoked
  }

  predicate Active(a: Allowance, identity: Identity, name: string) {
    !a.revoked && a.identity == identity && a.name == name
  }

  // ---- Locks ----

  predicate LocksRow(a: Attempt) { a.Locked? || a.Vetted? || a.Handling? || a.Writing? }

  predicate RowLocked(s: System, request: nat) {
    request in s.orphans || exists w :: w in s.attempts && LocksRow(s.attempts[w]) && s.attempts[w].request == request
  }

  /** Attempts that passed the FOR SHARE check and may still commit an effect. */
  predicate MayCommitEffect(a: Attempt) {
    (a.Vetted? && a.stop.None?) || a.Handling? || (a.Writing? && a.write.effect)
  }

  predicate ShareLocked(s: System, allowance: nat) {
    || (exists w :: w in s.attempts && MayCommitEffect(s.attempts[w]) && s.attempts[w].request in s.store.actions &&
          s.store.actions[s.attempts[w].request].allowance == Some(allowance))
    || (exists r :: r in s.orphans && s.orphans[r].effect && r in s.store.actions &&
          s.store.actions[r].allowance == Some(allowance))
  }

  // ---- Transactions on the store ----

  function QueueJob(t: Store, request: nat, runAt: Time): Store {
    t.(jobs := Q.Enqueued(t.jobs, None, ACTION_KIND, Q.ActionRequest(request), 0, runAt, Some(Q.ForAction(request))),
       jobOf := t.jobOf[request := t.jobs.nextId])
  }

  /** `submit` from its INSERT on. */
  function Submitted(t: Store, sub: Submission, runAt: Time): Store {
    if sub.request in t.actions then t
    else
      var status := if sub.definition.approval == Required && sub.seen.None? then Pending else Queued;
      var reviewedBy := if sub.seen.Some? then Some(sub.principal.identity.user) else None;
      var row := ActionRow(sub.principal.identity, sub.definition.name, sub.definition, sub.arguments, status, None,
                           reviewedBy, sub.seen, t.jobs.now + EXPIRY);
      var t' := t.(actions := t.actions[sub.request := row], covered := t.covered[sub.request := sub.readAt]);
      if status == Queued then QueueJob(t', sub.request, runAt) else t'
  }

  /** The allowance `submit` may see: active, unexpired, and of exactly this definition. */
  predicate Matches(t: Store, p: Principal, d: Definition, a: nat) {
    a in t.allowances && Active(t.allowances[a], p.identity, d.name) &&
    t.allowances[a].definition == d && t.allowances[a].expiresAt > t.jobs.now
  }

  predicate SeenOk(t: Store, p: Principal, d: Definition, seen: Option<nat>) {
    if d.approval == Required && d.allowances then
      if seen.Some? then Matches(t, p, d, seen.value)
      else forall a :: a in t.allowances ==> !Matches(t, p, d, a)
    else seen.None?
  }

  /** The row `allow`'s upsert writes: the active one, or else a new one. */
  predicate UpsertTarget(t: Store, row: ActionRow, a: nat) {
    (a in t.allowances && Active(t.allowances[a], row.identity, row.name)) ||
    (a == t.nextAllowance && forall b :: b in t.allowances ==> !Active(t.allowances[b], row.identity, row.name))
  }

  function Allowed(t: Store, request: nat, row: ActionRow, a: nat, expiresAt: Time): Store {
    t.(allowances := t.allowances[a := Allowance(row.identity, row.name, row.definition, expiresAt, false)],
       nextAllowance := if a == t.nextAllowance then a + 1 else t.nextAllowance,
       grants := t.grants + {Grant(a, row.identity, row.name, row.definition, expiresAt, request)})
  }

  datatype SettleError = Unavailable | Conflict | InvalidAllowance

  /** A decision and what the process deciding it knows. `readAt` is when it compared
      `expires_at` with the clock, `target` the row an allowance upsert writes. */
  datatype Decision = Decision(
    user: string, tenant: string, request: nat, approve: bool, allowFor: Option<nat>,
    registry: Registry, resolved: Option<Principal>, readAt: Time, target: nat, runAt: Time)

  /** What `settle` answers before it writes anything, `None` when it goes on to write. */
  function SettleEarly(t: Store, d: Decision): Option<Result<Status, SettleError>> {
    if d.allowFor.Some? && (d.allowFor.value == 0 || d.allowFor.value > MAX_ALLOWANCE) then Some(Err(InvalidAllowance))
    else if d.request !in t.actions then Some(Err(Unavailable))
    else
      var row := t.actions[d.request];
      if row.identity.user != d.user || row.identity.tenant != d.tenant then Some(Err(Unavailable))
      else if (!d.approve && row.status == Rejected) ||
              (d.approve && row.reviewedBy.Some? && (row.status == Queued || row.status == Completed)) then
        if d.allowFor.Some? && row.allowance.None? then Some(Err(Conflict)) else Some(Ok(row.status))
      else if row.status != Pending then Some(Err(Conflict))
      else if d.allowFor.Some? && !(row.name in d.registry && d.registry[row.name].allowances) then Some(Err(Conflict))
      else None
  }

  function SettleStatus(row: ActionRow, d: Decision): Status {
    if row.expiresAt <= d.readAt then Expired
    else if !d.approve then Rejected
    else if Current(d.registry, row, d.resolved) then Queued
    else Invalidated
  }

  /** Only a decision that queues its request and asks for an allowance reaches `allow`. */
  predicate Upserts(t: Store, d: Decision) {
    SettleEarly(t, d).None? && d.allowFor.Some? && SettleStatus(t.actions[d.request], d) == Queued
  }

  function Settled(t: Store, d: Decision): Store {
    if SettleEarly(t, d).Some? then t
    else
      var row := t.actions[d.request];
      var status := SettleStatus(row, d);
      var t1 := if status == Queued && d.allowFor.Some?
                then Allowed(t, d.request, row, d.target, d.readAt + d.allowFor.value) else t;
      var allowance := if status == Queued && d.allowFor.Some? then Some(d.target) else None;
      var t2 := t1.(actions := t1.actions[d.request :=
                      row.(status := status, reviewedBy := Some(d.user), allowance := allowance)]);
      if status == Queued then
        QueueJob(t2.(approvals := t2.approvals + {(d.request, d.user)}), d.request, d.runAt)
      else t2
  }

  predicate MayRevoke(t: Store, user: string, tenant: string, a: nat) {
    a in t.allowances && t.allowances[a].identity.user == user && t.allowances[a].identity.tenant == tenant
  }

  function Revoked(t: Store, user: string, tenant: string, a: nat): Store {
    if MayRevoke(t, user, tenant, a) then t.(allowances := t.allowances[a := t.allowances[a].(revoked := true)])
    else t
  }

  /** An attempt's COMMIT: its status write and, with it, the savepoint's mutations. */
  function Committed(t: Store, request: nat, write: Write): Store
    requires request in t.actions
  {
    var row := t.actions[request];
    t.(actions := t.actions[request :=
         row.(status := write.status, result := if write.result.Some? then write.result else row.result)],
       effects := if write.effect then t.effects + [Effect(request, row.definition, row.allowance)] else t.effects)
  }

  // ---- The steps of `execute` ----

  /** The checks under the row lock: expiry, the allowance's share lock, the registry. */
  function Stop(t: Store, row: ActionRow, registry: Registry): Option<Status> {
    if row.expiresAt <= t.jobs.now then Some(Expired)
    else if !LiveAllowance(t.allowances, row.allowance) || row.name !in registry then Some(Invalidated)
    else None
  }

  predicate ConflictGuard(registry: Registry, row: ActionRow) {
    row.name in registry && registry[row.name].approval == Required && row.reviewedBy != Some(row.identity.user)
  }

  function AfterResolve(a: Attempt, row: ActionRow, resolved: Option<Principal>): Attempt
    requires a.Vetted?
  {
    if a.stop.Some? then Writing(a.job, a.token, a.request, Write(a.stop.value, None, false, Q.Success))
    else if !Current(a.registry, row, resolved) then
      Writing(a.job, a.token, a.request, Write(Invalidated, None, false, Q.Success))
    else if ConflictGuard(a.registry, row) then Returned(a.job, a.token, a.request, Q.Failure(ATTEMPT_FAILED, 0))
    else Handling(a.job, a.token, a.request, a.last, a.registry)
  }

  function AfterHandler(a: Attempt, result: HandlerResult): Attempt
    requires a.Handling?
  {
    match result
    case Done(output) => Writing(a.job, a.token, a.request, Write(Completed, Some(output), true, Q.Success))
    case Error(code, retryable) =>
      if retryable && !a.last then Returned(a.job, a.token, a.request, Q.Failure(code, 0))
      else Writing(a.job, a.token, a.request,
                   Write(Failed, Some(code), false, if retryable then Q.Failure(code, 0) else Q.Success))
  }

  datatype Event =
    | Table(step: Runs.Step)
    | ClaimJob(w: nat, job: nat)
    | Begin(w: nat, registry: Registry)
    | Skip(w: nat)
    | Vet(w: nat)
    | Resolve(w: nat, resolved: Option<Principal>)
    | Handle(w: nat, result: HandlerResult)
    | Commit(w: nat)
    | Fail(w: nat, reason: string)
    | Acknowledge(w: nat)
    | Crash(w: nat)
    | OrphanCommit(request: nat)
    | OrphanAbort(request: nat)
    | SubmitRead(p: nat, principal: Principal, definition: Definition, request: nat, arguments: string,
        seen: Option<nat>)
    | SubmitCommit(p: nat, runAt: Time)
    | Settle(decision: Decision)
    | Revoke(user: string, tenant: string, allowance: nat)

  /** Queue statements of other code. It neither uses this module's keys and payloads nor
      acknowledges its jobs. */
  ghost predicate TableAllowed(jobs: Q.Queue, step: Runs.Step) {
    match step
    case Enqueue(_, _, payload, _, _, key) => !payload.ActionRequest? && !(key.Some? && key.value.ForAction?)
    case Acknowledge(id, token, _) => id in jobs.rows ==> !jobs.rows[id].payload.ActionRequest?
    case _ => true
  }

  ghost predicate Enabled(s: System, e: Event) {
    match e
    case Table(step) => TableAllowed(s.store.jobs, step)
    case ClaimJob(w, job) => w !in s.attempts && job in s.store.jobs.rows &&
      Q.Eligible(s.store.jobs.rows[job], s.store.jobs.now) && s.store.jobs.rows[job].payload.ActionRequest?
    case Begin(w, registry) => w in s.attempts && s.attempts[w].Claimed? && !RowLocked(s, s.attempts[w].request) &&
      s.attempts[w].request in s.store.actions && s.store.actions[s.attempts[w].request].status == Queued &&
      RegistryOk(registry)
    case Skip(w) => w in s.attempts && s.attempts[w].Claimed? && !RowLocked(s, s.attempts[w].request) &&
      !(s.attempts[w].request in s.store.actions && s.store.actions[s.attempts[w].request].status == Queued)
    case Vet(w) => w in s.attempts && s.attempts[w].Locked? && s.attempts[w].request in s.store.actions
    case Resolve(w, _) => w in s.attempts && s.attempts[w].Vetted? && s.attempts[w].request in s.store.actions
    case Handle(w, _) => w in s.attempts && s.attempts[w].Handling?
    case Commit(w) => w in s.attempts && s.attempts[w].Writing? && s.attempts[w].request in s.store.actions
    case Fail(w, _) => w in s.attempts && !s.attempts[w].Returned?
    case Acknowledge(w) => w in s.attempts && s.attempts[w].Returned?
    case Crash(w) => w in s.attempts
    case OrphanCommit(request) => request in s.orphans && request in s.store.actions
    case OrphanAbort(request) => request in s.orphans
    case SubmitRead(_, principal, definition, _, _, seen) =>
      VisibleTo(definition, principal) && SeenOk(s.store, principal, definition, seen)
    case SubmitCommit(p, _) => p in s.submissions && !RowLocked(s, s.submissions[p].request)
    case Settle(d) => !RowLocked(s, d.request) && RegistryOk(d.registry) && d.readAt <= s.store.jobs.now &&
      (Upserts(s.store, d) ==>
        UpsertTarget(s.store, s.store.actions[d.request], d.target) && !ShareLocked(s, d.target))
    case Revoke(_, _, allowance) => !ShareLocked(s, allowance)
  }

  /** The attempt ends; a COMMIT it had sent stays in flight. */
  function Left(s: System, w: nat): System
    requires w in s.attempts
  {
    var a := s.attempts[w];
    var s' := s.(attempts := s.attempts - {w});
    if a.Writing? then s'.(orphans := s.orphans[a.request := a.write]) else s'
  }

  ghost function Effected(s: System, e: Event): System
    requires Enabled(s, e)
  {
    var t := s.store;
    match e
    case Table(step) => s.(store := t.(jobs := Runs.Apply(t.jobs, step)))
    case ClaimJob(w, job) =>
      var row := t.jobs.rows[job];
      s.(store := t.(jobs := Q.Claimed(t.jobs, job)),
         attempts := s.attempts[w := Claimed(job, t.jobs.nextToken, row.payload.request,
             row.attempts + 1 >= row.maxAttempts)])
    case Begin(w, registry) =>
      var a := s.attempts[w];
      s.(attempts := s.attempts[w := Locked(a.job, a.token, a.request, a.last, registry)])
    case Skip(w) =>
      var a := s.attempts[w];
      s.(attempts := s.attempts[w := Returned(a.job, a.token, a.request, Q.Success)])
    case Vet(w) =>
      var a := s.attempts[w];
      s.(attempts := s.attempts[w := Vetted(a.job, a.token, a.request, a.last, a.registry,
                                            Stop(t, t.actions[a.request], a.registry))])
    case Resolve(w, resolved) =>
      var a := s.attempts[w];
      s.(attempts := s.attempts[w := AfterResolve(a, t.actions[a.request], resolved)])
    case Handle(w, result) => s.(attempts := s.attempts[w := AfterHandler(s.attempts[w], result)])
    case Commit(w) =>
      var a := s.attempts[w];
      s.(store := Committed(t, a.request, a.write),
         attempts := s.attempts[w := Returned(a.job, a.token, a.request, a.write.outcome)])
    case Fail(w, reason) =>
      var a := s.attempts[w];
      var s' := Left(s, w);
      s'.(attempts := s'.attempts[w := Returned(a.job, a.token, a.request, Q.Failure(reason, 0))])
    case Acknowledge(w) =>
      var a := s.attempts[w];
      s.(store := t.(jobs := Q.Acknowledged(t.jobs, a.job, a.token, a.outcome)), attempts := s.attempts - {w})
    case Crash(w) => Left(s, w)
    case OrphanCommit(request) =>
      s.(store := Committed(t, request, s.orphans[request]), orphans := s.orphans - {request})
    case OrphanAbort(request) => s.(orphans := s.orphans - {request})
    case SubmitRead(p, principal, definition, request, arguments, seen) =>
      s.(submissions := s.submissions[p := Submission(principal, definition, request, arguments, seen, t.jobs.now)])
    case SubmitCommit(p, runAt) =>
      s.(store := Submitted(t, s.submissions[p], runAt), submissions := s.submissions - {p})
    case Settle(d) => s.(store := Settled(t, d))
    case Revoke(user, tenant, allowance) => s.(store := Revoked(t, user, tenant, allowance))
  }

  ghost function Apply(s: System, e: Event): System {
    if Enabled(s, e) then Effected(s, e) else s
  }

  function EmptyStore(now: Time): Store { Store(Q.EmptyQueue(now), map[], map[], 0, [], {}, {}, map[], map[]) }

  ghost function Run(now: Time, events: seq<Event>): System {
    if events == [] then System(EmptyStore(now), map[], map[], map[])
    else Apply(Run(now, events[..|events| - 1]), events[|events| - 1])
  }
}
