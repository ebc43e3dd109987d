/** What every run of `DurableActions` keeps: exactly-once effects, nothing
    stranded between the two layers, final revocation, the approval gate. */
module DurableSafety {
  import opened Wrappers
  import opened DurableActions
  import Q = JobQueue
  import Runs = JobRuns

  // ---- The invariant ----

  /** An action and its one job. A request is in `jobOf` once a job was inserted for it. */
  ghost predicate JobsOk(jobs: Q.Queue, actions: map<nat, ActionRow>, jobOf: map<nat, nat>) {
    && (forall r :: r in jobOf ==>
          r in actions && jobOf[r] < jobs.nextId && actions[r].status != Pending && actions[r].status != Rejected)
    && (forall r, r' :: r in jobOf && r' in jobOf && jobOf[r] == jobOf[r'] ==> r == r')
    && (forall r :: r in actions && Ran(actions[r].status) ==> r in jobOf)
    && (forall r :: r in jobOf && actions[r].status == Queued ==> JobOpen(jobs, jobOf[r], r))
    && (forall j, r {:trigger IsJobOf(jobs, j, r)} :: IsJobOf(jobs, j, r) ==> r in jobOf && jobOf[r] == j)
    && (forall j {:trigger jobs.rows[j]} :: j in jobs.rows && jobs.rows[j].payload.ActionRequest? ==>
          IsJobOf(jobs, j, jobs.rows[j].payload.request))
  }

  ghost predicate Ran(status: Status) { status == Queued || status == Completed || status == Failed }

  ghost predicate IsJobOf(jobs: Q.Queue, j: nat, r: nat) {
    j in jobs.rows && jobs.rows[j].key == Some(Q.ForAction(r))
  }

  ghost predicate JobOpen(jobs: Q.Queue, j: nat, r: nat) {
    IsJobOf(jobs, j, r) && jobs.rows[j].payload == Q.ActionRequest(r) && jobs.rows[j].status != Q.Completed
  }

  ghost function Count(effects: seq<Effect>, r: nat): nat {
    if effects == [] then 0
    else Count(effects[..|effects| - 1], r) + if effects[|effects| - 1].request == r then 1 else 0
  }

  ghost predicate EffectsOk(effects: seq<Effect>, actions: map<nat, ActionRow>) {
    && (forall r {:trigger Count(effects, r)} ::
          Count(effects, r) == if r in actions && actions[r].status == Completed then 1 else 0)
    && (forall e :: e in effects ==>
          e.request in actions &&
          e.definition == actions[e.request].definition && e.allowance == actions[e.request].allowance)
  }

  /** Grant `g`, created by an approval of the same user, covered `row` when it was submitted. */
  ghost predicate Covers(g: Grant, row: ActionRow, readAt: Time, approvals: set<(nat, string)>) {
    && row.allowance == Some(g.allowance)
    && g.identity == row.identity && g.name == row.name && g.definition == row.definition
    && readAt < g.expiresAt
    && (g.from, row.identity.user) in approvals
  }

  /** Why a request may run: its user approved it, or approved a grant that covered it. */
  ghost predicate Authorised(r: nat, row: ActionRow, approvals: set<(nat, string)>, grants: set<Grant>,
      covered: map<nat, Time>) {
    || (r, row.identity.user) in approvals
    || (r in covered && exists g :: g in grants && Covers(g, row, covered[r], approvals))
  }

  ghost predicate GateOk(actions: map<nat, ActionRow>, jobOf: map<nat, nat>, approvals: set<(nat, string)>,
                         grants: set<Grant>, covered: map<nat, Time>) {
    forall r :: r in jobOf && r in actions && actions[r].definition.approval == Required ==>
      && actions[r].reviewedBy == Some(actions[r].identity.user)
      && Authorised(r, actions[r], approvals, grants, covered)
  }

  ghost predicate RowsOk(actions: map<nat, ActionRow>, allowances: map<nat, Allowance>) {
    forall r :: r in actions ==>
      && actions[r].name == actions[r].definition.name
      && (actions[r].status == Pending ==> actions[r].reviewedBy.None? && actions[r].allowance.None?)
      && (actions[r].allowance.Some? ==> actions[r].allowance.value in allowances)
  }

  ghost predicate IsVersion(allowance: Allowance, a: nat, g: Grant) {
    && g.allowance == a && g.definition == allowance.definition && g.expiresAt == allowance.expiresAt
    && g.identity == allowance.identity && g.name == allowance.name
  }

  /** Every version an allowance has or had comes from an approval by its user. */
  ghost predicate GrantsOk(allowances: map<nat, Allowance>, nextAllowance: nat, grants: set<Grant>,
      approvals: set<(nat, string)>) {
    && (forall a :: a in allowances ==> a < nextAllowance && exists g :: g in grants && IsVersion(allowances[a], a, g))
    && (forall g :: g in grants ==> (g.from, g.identity.user) in approvals)
  }

  ghost predicate WriteOk(actions: map<nat, ActionRow>, allowances: map<nat, Allowance>, r: nat, write: Write) {
    && r in actions && actions[r].status == Queued
    && Terminal(write.status) && (write.effect <==> write.status == Completed)
    && (write.effect ==> LiveAllowance(allowances, actions[r].allowance))
  }

  ghost predicate AttemptOk(actions: map<nat, ActionRow>, allowances: map<nat, Allowance>, jobOf: map<nat, nat>,
      a: Attempt) {
    && a.request in jobOf && jobOf[a.request] == a.job
    && a.request in actions
    && (LocksRow(a) ==> actions[a.request].status == Queued)
    && (MayCommitEffect(a) ==> LiveAllowance(allowances, actions[a.request].allowance))
    && (a.Vetted? && a.stop.Some? ==> a.stop.value == Expired || a.stop.value == Invalidated)
    && (a.Writing? ==> WriteOk(actions, allowances, a.request, a.write))
    && (a.Returned? && a.outcome == Q.Success ==> Terminal(actions[a.request].status))
  }

  ghost predicate SameLock(a: Attempt, b: Attempt) { LocksRow(a) && LocksRow(b) && a.request == b.request }

  ghost predicate LocksApart(attempts: map<nat, Attempt>, orphans: map<nat, Write>) {
    && (forall v, w :: v in attempts && w in attempts && SameLock(attempts[v], attempts[w]) ==> v == w)
    && (forall w :: w in attempts && LocksRow(attempts[w]) ==> attempts[w].request !in orphans)
  }

  ghost predicate AttemptsOk(attempts: map<nat, Attempt>, actions: map<nat, ActionRow>, allowances: map<nat, Allowance>,
                             jobOf: map<nat, nat>) {
    forall w :: w in attempts ==> AttemptOk(actions, allowances, jobOf, attempts[w])
  }

  ghost predicate OrphansOk(orphans: map<nat, Write>, actions: map<nat, ActionRow>, allowances: map<nat, Allowance>) {
    forall r :: r in orphans ==> WriteOk(actions, allowances, r, orphans[r])
  }

  ghost predicate GrantSeen(g: Grant, sub: Submission, approvals: set<(nat, string)>) {
    && sub.seen == Some(g.allowance) && g.identity == sub.principal.identity && g.name == sub.definition.name
    && g.definition == sub.definition && sub.readAt < g.expiresAt
    && (g.from, g.identity.user) in approvals
  }

  ghost predicate SubmissionsOk(submissions: map<nat, Submission>, allowances: map<nat, Allowance>, grants: set<Grant>,
                                approvals: set<(nat, string)>) {
    forall p :: p in submissions && submissions[p].seen.Some? ==>
      && submissions[p].seen.value in allowances
      && exists g :: g in grants && GrantSeen(g, submissions[p], approvals)
  }

  ghost predicate StoreOk(t: Store) {
    && Q.Valid(t.jobs)
    && JobsOk(t.jobs, t.actions, t.jobOf)
    && EffectsOk(t.effects, t.actions)
    && RowsOk(t.actions, t.allowances)
    && GateOk(t.actions, t.jobOf, t.approvals, t.grants, t.covered)
    && GrantsOk(t.allowances, t.nextAllowance, t.grants, t.approvals)
  }

  ghost predicate Inv(s: System) {
    var t := s.store;
    && StoreOk(t)
    && AttemptsOk(s.attempts, t.actions, t.allowances, t.jobOf)
    && OrphansOk(s.orphans, t.actions, t.allowances)
    && LocksApart(s.attempts, s.orphans)
    && SubmissionsOk(s.submissions, t.allowances, t.grants, t.approvals)
  }

  // ---- Changes to the job table ----

  /** A queue change that adds no action jobs, and completes or removes none that is still needed. */
  ghost predicate JobsKept(jobs: Q.Queue, jobs': Q.Queue, actions: map<nat, ActionRow>, jobOf: map<nat, nat>) {
    && jobs'.nextId >= jobs.nextId
    && (forall j, r {:trigger IsJobOf(jobs', j, r)} :: IsJobOf(jobs', j, r) ==> IsJobOf(jobs, j, r))
    && (forall j :: j in jobs'.rows && jobs'.rows[j].payload.ActionRequest? ==>
          j in jobs.rows && jobs'.rows[j].payload == jobs.rows[j].payload && jobs'.rows[j].key == jobs.rows[j].key)
    && (forall r :: r in jobOf && r in actions && actions[r].status == Queued ==> JobOpen(jobs', jobOf[r], r))
  }

  lemma KeptJobsOk(jobs: Q.Queue, jobs': Q.Queue, actions: map<nat, ActionRow>, jobOf: map<nat, nat>)
    requires JobsOk(jobs, actions, jobOf) && JobsKept(jobs, jobs', actions, jobOf)
    ensures JobsOk(jobs', actions, jobOf)
  {
    forall j | j in jobs'.rows && jobs'.rows[j].payload.ActionRequest?
      ensures IsJobOf(jobs', j, jobs'.rows[j].payload.request)
    {
      assert IsJobOf(jobs, j, jobs.rows[j].payload.request);
    }
  }

  /** How a statement of other code may change a row. */
  ghost predicate RowKept(r: Q.Row, r': Q.Row) {
    && r'.key == r.key && (r'.payload == r.payload || r'.payload == Q.Cleared)
    && (r.payload.ActionRequest? ==> r'.payload == r.payload && (r'.status == Q.Completed ==> r.status == Q.Completed))
  }

  lemma RowsKeptJobs(jobs: Q.Queue, jobs': Q.Queue, actions: map<nat, ActionRow>, jobOf: map<nat, nat>)
    requires JobsOk(jobs, actions, jobOf) && jobs'.nextId >= jobs.nextId
    requires forall j :: j in jobs'.rows ==> j in jobs.rows && RowKept(jobs.rows[j], jobs'.rows[j])
    requires forall j :: j in jobs.rows && j !in jobs'.rows ==> jobs.rows[j].status == Q.Completed
    ensures JobsKept(jobs, jobs', actions, jobOf)
  {
    forall r | r in jobOf && r in actions && actions[r].status == Queued ensures JobOpen(jobs', jobOf[r], r) {
      assert JobOpen(jobs, jobOf[r], r);
    }
  }

  lemma TableKeepsJobs(jobs: Q.Queue, step: Runs.Step, actions: map<nat, ActionRow>, jobOf: map<nat, nat>)
    requires Q.Valid(jobs) && JobsOk(jobs, actions, jobOf) && TableAllowed(jobs, step)
    ensures JobsKept(jobs, Runs.Apply(jobs, step), actions, jobOf)
  {
    match step
    case Enqueue(_, _, _, _, _, _) => EnqueueKeepsJobs(jobs, step, actions, jobOf);
    case _ =>
      StepKeepsRows(jobs, step);
      RowsKeptJobs(jobs, Runs.Apply(jobs, step), actions, jobOf);
  }

  lemma StepKeepsRows(jobs: Q.Queue, step: Runs.Step)
    requires TableAllowed(jobs, step) && !step.Enqueue?
    ensures var jobs' := Runs.Apply(jobs, step);
      && jobs'.nextId == jobs.nextId
      && (forall j :: j in jobs'.rows ==> j in jobs.rows && RowKept(jobs.rows[j], jobs'.rows[j]))
      && (forall j :: j in jobs.rows && j !in jobs'.rows ==> jobs.rows[j].status == Q.Completed)
  {
  }

  lemma EnqueueKeepsJobs(jobs: Q.Queue, step: Runs.Step, actions: map<nat, ActionRow>, jobOf: map<nat, nat>)
    requires Q.Valid(jobs) && JobsOk(jobs, actions, jobOf)
    requires step.Enqueue? && TableAllowed(jobs, step)
    ensures JobsKept(jobs, Runs.Apply(jobs, step), actions, jobOf)
  {
    var jobs' := Runs.Apply(jobs, step);
    forall r | r in jobOf && r in actions && actions[r].status == Queued ensures JobOpen(jobs', jobOf[r], r) {
      assert JobOpen(jobs, jobOf[r], r);
    }
  }

  lemma ClaimKeepsJobs(jobs: Q.Queue, job: nat, actions: map<nat, ActionRow>, jobOf: map<nat, nat>)
    requires JobsOk(jobs, actions, jobOf) && job in jobs.rows
    ensures JobsKept(jobs, Q.Claimed(jobs, job), actions, jobOf)
  {
    RowsKeptJobs(jobs, Q.Claimed(jobs, job), actions, jobOf);
  }

  /** Reporting success needs a terminal action; a failure leaves the job open. */
  lemma AcknowledgeKeepsJobs(jobs: Q.Queue, job: nat, token: nat, outcome: Q.Outcome, r: nat,
                             actions: map<nat, ActionRow>, jobOf: map<nat, nat>)
    requires Q.Valid(jobs) && JobsOk(jobs, actions, jobOf)
    requires r in jobOf && jobOf[r] == job && r in actions && (outcome == Q.Success ==> Terminal(actions[r].status))
    ensures JobsKept(jobs, Q.Acknowledged(jobs, job, token, outcome), actions, jobOf)
  {
    var jobs' := Q.Acknowledged(jobs, job, token, outcome);
    forall r' | r' in jobOf && r' in actions && actions[r'].status == Queued ensures JobOpen(jobs', jobOf[r'], r') {
      assert JobOpen(jobs, jobOf[r'], r');
      assert outcome == Q.Success ==> r' != r;
    }
  }

  lemma JobsChange(s: System, jobs': Q.Queue)
    requires Inv(s) && Q.Valid(jobs') && JobsKept(s.store.jobs, jobs', s.store.actions, s.store.jobOf)
    ensures Inv(s.(store := s.store.(jobs := jobs')))
  {
    KeptJobsOk(s.store.jobs, jobs', s.store.actions, s.store.jobOf);
  }

  // ---- Steps that only move one attempt ----

  lemma UpdateAttempts(attempts: map<nat, Attempt>, w: nat, a: Attempt,
                       actions: map<nat, ActionRow>, allowances: map<nat, Allowance>, jobOf: map<nat, nat>)
    requires AttemptsOk(attempts, actions, allowances, jobOf) && AttemptOk(actions, allowances, jobOf, a)
    ensures AttemptsOk(attempts[w := a], actions, allowances, jobOf)
  {
  }

  lemma UpdateLocks(s: System, w: nat, a: Attempt)
    requires LocksApart(s.attempts, s.orphans) && w in s.attempts && a.request == s.attempts[w].request
    requires LocksRow(a) ==> LocksRow(s.attempts[w]) || !RowLocked(s, a.request)
    ensures LocksApart(s.attempts[w := a], s.orphans)
  {
  }

  lemma UnlockedJoins(attempts: map<nat, Attempt>, orphans: map<nat, Write>, w: nat, a: Attempt)
    requires LocksApart(attempts, orphans) && !LocksRow(a)
    ensures LocksApart(attempts[w := a], orphans)
  {
  }

  /** Replacing one attempt by another of the same request. */
  lemma AttemptMoves(s: System, w: nat, a: Attempt)
    requires Inv(s) && w in s.attempts && a.request == s.attempts[w].request
    requires AttemptOk(s.store.actions, s.store.allowances, s.store.jobOf, a)
    requires LocksRow(a) ==> LocksRow(s.attempts[w]) || !RowLocked(s, a.request)
    ensures Inv(s.(attempts := s.attempts[w := a]))
  {
    UpdateAttempts(s.attempts, w, a, s.store.actions, s.store.allowances, s.store.jobOf);
    UpdateLocks(s, w, a);
  }

  lemma BeginOk(t: Store, a: Attempt, registry: Registry)
    requires AttemptOk(t.actions, t.allowances, t.jobOf, a) && a.Claimed? && t.actions[a.request].status == Queued
    ensures AttemptOk(t.actions, t.allowances, t.jobOf, Locked(a.job, a.token, a.request, a.last, registry))
  {
  }

  /** `execute` answers at once only for an action that is settled for good. */
  lemma SkipOk(t: Store, a: Attempt)
    requires JobsOk(t.jobs, t.actions, t.jobOf)
    requires AttemptOk(t.actions, t.allowances, t.jobOf, a) && a.Claimed? && t.actions[a.request].status != Queued
    ensures AttemptOk(t.actions, t.allowances, t.jobOf, Returned(a.job, a.token, a.request, Q.Success))
  {
    assert a.request in t.jobOf;
  }

  lemma VetOk(t: Store, a: Attempt)
    requires AttemptOk(t.actions, t.allowances, t.jobOf, a) && a.Locked?
    ensures AttemptOk(t.actions, t.allowances, t.jobOf,
      Vetted(a.job, a.token, a.request, a.last, a.registry, Stop(t, t.actions[a.request], a.registry)))
  {
  }

  lemma ResolveOk(t: Store, a: Attempt, resolved: Option<Principal>)
    requires AttemptOk(t.actions, t.allowances, t.jobOf, a) && a.Vetted?
    ensures AttemptOk(t.actions, t.allowances, t.jobOf, AfterResolve(a, t.actions[a.request], resolved))
    ensures AfterResolve(a, t.actions[a.request], resolved).request == a.request
  {
  }

  lemma HandleOk(t: Store, a: Attempt, result: HandlerResult)
    requires AttemptOk(t.actions, t.allowances, t.jobOf, a) && a.Handling?
    ensures AttemptOk(t.actions, t.allowances, t.jobOf, AfterHandler(a, result))
    ensures AfterHandler(a, result).request == a.request
  {
  }

  lemma BeginKeepsInv(s: System, w: nat, registry: Registry)
    requires Inv(s) && Enabled(s, Begin(w, registry))
    ensures Inv(Apply(s, Begin(w, registry)))
  {
    var a := s.attempts[w];
    BeginOk(s.store, a, registry);
    AttemptMoves(s, w, Locked(a.job, a.token, a.request, a.last, registry));
  }

  lemma SkipKeepsInv(s: System, w: nat)
    requires Inv(s) && Enabled(s, Skip(w))
    ensures Inv(Apply(s, Skip(w)))
  {
    var a := s.attempts[w];
    SkipOk(s.store, a);
    AttemptMoves(s, w, Returned(a.job, a.token, a.request, Q.Success));
  }

  lemma VetKeepsInv(s: System, w: nat)
    requires Inv(s) && Enabled(s, Vet(w))
    ensures Inv(Apply(s, Vet(w)))
  {
    var t, a := s.store, s.attempts[w];
    VetOk(t, a);
    AttemptMoves(s, w,
                 Vetted(a.job, a.token, a.request, a.last, a.registry, Stop(t, t.actions[a.request], a.registry)));
  }

  lemma ResolveKeepsInv(s: System, w: nat, resolved: Option<Principal>)
    requires Inv(s) && Enabled(s, Resolve(w, resolved))
    ensures Inv(Apply(s, Resolve(w, resolved)))
  {
    var t, a := s.store, s.attempts[w];
    ResolveOk(t, a, resolved);
    AttemptMoves(s, w, AfterResolve(a, t.actions[a.request], resolved));
  }

  lemma HandleKeepsInv(s: System, w: nat, result: HandlerResult)
    requires Inv(s) && Enabled(s, Handle(w, result))
    ensures Inv(Apply(s, Handle(w, result)))
  {
    HandleOk(s.store, s.attempts[w], result);
    AttemptMoves(s, w, AfterHandler(s.attempts[w], result));
  }

  // ---- Workers coming and going ----

  lemma AttemptJoins(s: System, w: nat, a: Attempt)
    requires Inv(s) && !LocksRow(a) && AttemptOk(s.store.actions, s.store.allowances, s.store.jobOf, a)
    ensures Inv(s.(attempts := s.attempts[w := a]))
  {
    UpdateAttempts(s.attempts, w, a, s.store.actions, s.store.allowances, s.store.jobOf);
    UnlockedJoins(s.attempts, s.orphans, w, a);
  }

  lemma ClaimedOk(t: Store, job: nat, a: Attempt)
    requires JobsOk(t.jobs, t.actions, t.jobOf) && job in t.jobs.rows && t.jobs.rows[job].payload.ActionRequest?
    requires a.Claimed? && a.job == job && a.request == t.jobs.rows[job].payload.request
    ensures AttemptOk(t.actions, t.allowances, t.jobOf, a)
  {
    assert IsJobOf(t.jobs, job, a.request);
  }

  function Claiming(t: Store, job: nat): Attempt
    requires job in t.jobs.rows && t.jobs.rows[job].payload.ActionRequest?
  {
    var row := t.jobs.rows[job];
    Claimed(job, t.jobs.nextToken, row.payload.request, row.attempts + 1 >= row.maxAttempts)
  }

  lemma ClaimJobShape(s: System, w: nat, job: nat)
    requires Enabled(s, ClaimJob(w, job))
    ensures var s1 := s.(store := s.store.(jobs := Q.Claimed(s.store.jobs, job)));
      Apply(s, ClaimJob(w, job)) == s1.(attempts := s1.attempts[w := Claiming(s.store, job)])
  {
  }

  lemma JobClaimKeepsInv(s: System, job: nat)
    requires Inv(s) && job in s.store.jobs.rows && Q.Eligible(s.store.jobs.rows[job], s.store.jobs.now)
    ensures Inv(s.(store := s.store.(jobs := Q.Claimed(s.store.jobs, job))))
  {
    Q.ClaimKeepsValid(s.store.jobs, job);
    ClaimKeepsJobs(s.store.jobs, job, s.store.actions, s.store.jobOf);
    JobsChange(s, Q.Claimed(s.store.jobs, job));
  }

  lemma ClaimJobKeepsInv(s: System, w: nat, job: nat)
    requires Inv(s) && Enabled(s, ClaimJob(w, job))
    ensures Inv(Apply(s, ClaimJob(w, job)))
  {
    ClaimJobShape(s, w, job);
    JobClaimKeepsInv(s, job);
    ClaimedOk(s.store, job, Claiming(s.store, job));
    AttemptJoins(s.(store := s.store.(jobs := Q.Claimed(s.store.jobs, job))), w, Claiming(s.store, job));
  }

  lemma LeavingLocks(s: System, w: nat)
    requires LocksApart(s.attempts, s.orphans) && w in s.attempts
    ensures LocksApart(Left(s, w).attempts, Left(s, w).orphans)
  {
    var s' := Left(s, w);
    forall v | v in s'.attempts && LocksRow(s'.attempts[v]) ensures s'.attempts[v].request !in s'.orphans {
      assert SameLock(s.attempts[v], s.attempts[w]) ==> v == w;
    }
  }

  lemma LeavingKeepsOrphans(s: System, w: nat)
    requires AttemptsOk(s.attempts, s.store.actions, s.store.allowances, s.store.jobOf) && w in s.attempts
    requires OrphansOk(s.orphans, s.store.actions, s.store.allowances)
    ensures OrphansOk(Left(s, w).orphans, s.store.actions, s.store.allowances)
  {
    assert AttemptOk(s.store.actions, s.store.allowances, s.store.jobOf, s.attempts[w]);
  }

  lemma LeavingKeepsInv(s: System, w: nat)
    requires Inv(s) && w in s.attempts
    ensures Inv(Left(s, w))
  {
    LeavingLocks(s, w);
    LeavingKeepsOrphans(s, w);
    WithoutAttempt(s.attempts, w, s.store);
  }

  lemma FailedOk(t: Store, a: Attempt, failed: Attempt)
    requires AttemptOk(t.actions, t.allowances, t.jobOf, a)
    requires failed.Returned? && failed.outcome.Failure? && failed.request == a.request && failed.job == a.job
    ensures AttemptOk(t.actions, t.allowances, t.jobOf, failed)
  {
  }

  function Failing(a: Attempt, reason: string): Attempt {
    Returned(a.job, a.token, a.request, Q.Failure(reason, 0))
  }

  lemma FailShape(s: System, w: nat, reason: string)
    requires Enabled(s, Fail(w, reason))
    ensures var left := Left(s, w);
      Apply(s, Fail(w, reason)) == left.(attempts := left.attempts[w := Failing(s.attempts[w], reason)])
    ensures Left(s, w).store == s.store
  {
  }

  lemma FailKeepsInv(s: System, w: nat, reason: string)
    requires Inv(s) && Enabled(s, Fail(w, reason))
    ensures Inv(Apply(s, Fail(w, reason)))
  {
    FailShape(s, w, reason);
    ReturnKeepsInv(s, w, Failing(s.attempts[w], reason));
  }

  /** Leaving, and coming back with a failure. */
  lemma ReturnKeepsInv(s: System, w: nat, failed: Attempt)
    requires Inv(s) && w in s.attempts && Left(s, w).store == s.store && failed.Returned? && failed.outcome.Failure?
    requires failed.request == s.attempts[w].request && failed.job == s.attempts[w].job
    ensures Inv(Left(s, w).(attempts := Left(s, w).attempts[w := failed]))
  {
    LeavingKeepsInv(s, w);
    FailedOk(s.store, s.attempts[w], failed);
    AttemptJoins(Left(s, w), w, failed);
  }

  lemma AcknowledgeKeepsInv(s: System, w: nat)
    requires Inv(s) && Enabled(s, Acknowledge(w))
    ensures Inv(Apply(s, Acknowledge(w)))
  {
    var a, t := s.attempts[w], s.store;
    assert AttemptOk(t.actions, t.allowances, t.jobOf, a);
    Q.AcknowledgeKeepsValid(t.jobs, a.job, a.token, a.outcome);
    AcknowledgeKeepsJobs(t.jobs, a.job, a.token, a.outcome, a.request, t.actions, t.jobOf);
    LeavingKeepsInv(s, w);
    JobsChange(Left(s, w), Q.Acknowledged(t.jobs, a.job, a.token, a.outcome));
  }

  // ---- A commit ----

  lemma CountAppend(effects: seq<Effect>, e: Effect, r: nat)
    ensures Count(effects + [e], r) == Count(effects, r) + if e.request == r then 1 else 0
  {
    assert (effects + [e])[..|effects|] == effects;
  }

  lemma CommitKeepsEffects(t: Store, r: nat, write: Write)
    requires EffectsOk(t.effects, t.actions) && WriteOk(t.actions, t.allowances, r, write)
    ensures EffectsOk(Committed(t, r, write).effects, Committed(t, r, write).actions)
  {
    var t' := Committed(t, r, write);
    forall q {:trigger Count(t'.effects, q)} | true
      ensures Count(t'.effects, q) == if q in t'.actions && t'.actions[q].status == Completed then 1 else 0
    {
      CountAppend(t.effects, Effect(r, t.actions[r].definition, t.actions[r].allowance), q);
      assert Count(t.effects, q) == if q in t.actions && t.actions[q].status == Completed then 1 else 0;
    }
  }

  lemma CommitKeepsJobs(t: Store, r: nat, write: Write)
    requires JobsOk(t.jobs, t.actions, t.jobOf) && WriteOk(t.actions, t.allowances, r, write)
    ensures JobsOk(t.jobs, Committed(t, r, write).actions, t.jobOf)
  {
    var actions' := Committed(t, r, write).actions;
    assert r in t.jobOf;
    forall q | q in t.jobOf && actions'[q].status == Queued ensures JobOpen(t.jobs, t.jobOf[q], q) {
      assert t.actions[q].status == Queued;
    }
  }

  /** Committing changes only the status and result of one row. */
  lemma CommitKeepsPolicy(t: Store, r: nat, write: Write)
    requires WriteOk(t.actions, t.allowances, r, write)
    requires RowsOk(t.actions, t.allowances) && GateOk(t.actions, t.jobOf, t.approvals, t.grants, t.covered)
    ensures RowsOk(Committed(t, r, write).actions, t.allowances)
    ensures GateOk(Committed(t, r, write).actions, t.jobOf, t.approvals, t.grants, t.covered)
  {
    var actions' := Committed(t, r, write).actions;
    forall q | q in t.actions && Authorised(q, t.actions[q], t.approvals, t.grants, t.covered)
      ensures Authorised(q, actions'[q], t.approvals, t.grants, t.covered)
    {
      if q == r && (q, t.actions[q].identity.user) !in t.approvals {
        var g :| g in t.grants && Covers(g, t.actions[q], t.covered[q], t.approvals);
        assert Covers(g, actions'[q], t.covered[q], t.approvals);
      }
    }
  }

  lemma CommitKeepsStore(t: Store, r: nat, write: Write)
    requires StoreOk(t) && WriteOk(t.actions, t.allowances, r, write)
    ensures StoreOk(Committed(t, r, write))
  {
    CommitKeepsEffects(t, r, write);
    CommitKeepsJobs(t, r, write);
    CommitKeepsPolicy(t, r, write);
  }

  /** Attempts at other rows are untouched; at this row, none other is past its lock. */
  lemma CommitKeepsAttempts(t: Store, r: nat, write: Write, attempts: map<nat, Attempt>, orphans: map<nat, Write>)
    requires WriteOk(t.actions, t.allowances, r, write)
    requires AttemptsOk(attempts, t.actions, t.allowances, t.jobOf) && OrphansOk(orphans, t.actions, t.allowances)
    requires r !in orphans && forall w :: w in attempts && LocksRow(attempts[w]) ==> attempts[w].request != r
    ensures AttemptsOk(attempts, Committed(t, r, write).actions, t.allowances, t.jobOf)
    ensures OrphansOk(orphans, Committed(t, r, write).actions, t.allowances)
  {
  }

  lemma CommittedAttemptOk(t: Store, a: Attempt, done: Attempt)
    requires AttemptOk(t.actions, t.allowances, t.jobOf, a) && a.Writing?
    requires done == Returned(a.job, a.token, a.request, a.write.outcome)
    ensures AttemptOk(Committed(t, a.request, a.write).actions, t.allowances, t.jobOf, done)
  {
  }

  lemma WithoutAttempt(attempts: map<nat, Attempt>, w: nat, t: Store)
    requires AttemptsOk(attempts, t.actions, t.allowances, t.jobOf)
    ensures AttemptsOk(attempts - {w}, t.actions, t.allowances, t.jobOf)
  {
  }

  lemma WriterCommits(s: System, w: nat)
    requires Inv(s) && w in s.attempts && s.attempts[w].Writing? && s.attempts[w].request in s.store.actions
    ensures Inv(WithoutWriter(s, w))
  {
    var t, a, others := s.store, s.attempts[w], s.attempts - {w};
    assert AttemptOk(t.actions, t.allowances, t.jobOf, a);
    CommitKeepsStore(t, a.request, a.write);
    WithoutAttempt(s.attempts, w, t);
    OthersUnlocked(s, w);
    CommitKeepsAttempts(t, a.request, a.write, others, s.orphans);
  }

  lemma OthersUnlocked(s: System, w: nat)
    requires LocksApart(s.attempts, s.orphans) && w in s.attempts && LocksRow(s.attempts[w])
    ensures forall v :: v in s.attempts - {w} && LocksRow(s.attempts[v]) ==>
      s.attempts[v].request != s.attempts[w].request
    ensures LocksApart(s.attempts - {w}, s.orphans)
  {
    forall v | v in s.attempts - {w} && LocksRow(s.attempts[v]) ensures s.attempts[v].request != s.attempts[w].request {
      assert SameLock(s.attempts[v], s.attempts[w]) ==> v == w;
    }
  }

  function Finishing(a: Attempt): Attempt
    requires a.Writing?
  {
    Returned(a.job, a.token, a.request, a.write.outcome)
  }

  lemma FinishedOk(s: System, w: nat)
    requires AttemptsOk(s.attempts, s.store.actions, s.store.allowances, s.store.jobOf)
    requires w in s.attempts && s.attempts[w].Writing? && s.attempts[w].request in s.store.actions
    ensures var t' := WithoutWriter(s, w).store;
      AttemptOk(t'.actions, t'.allowances, t'.jobOf, Finishing(s.attempts[w]))
  {
    assert AttemptOk(s.store.actions, s.store.allowances, s.store.jobOf, s.attempts[w]);
    CommittedAttemptOk(s.store, s.attempts[w], Finishing(s.attempts[w]));
  }

  lemma WriterReturns(s: System, w: nat)
    requires Inv(s) && w in s.attempts && s.attempts[w].Writing? && s.attempts[w].request in s.store.actions
    ensures var s1 := WithoutWriter(s, w); Inv(s1.(attempts := s1.attempts[w := Finishing(s.attempts[w])]))
  {
    WriterCommits(s, w);
    FinishedOk(s, w);
    AttemptJoins(WithoutWriter(s, w), w, Finishing(s.attempts[w]));
  }

  lemma CommitKeepsInv(s: System, w: nat)
    requires Inv(s) && Enabled(s, Commit(w))
    ensures Inv(Apply(s, Commit(w)))
  {
    CommitShape(s, w);
    WriterReturns(s, w);
  }

  function WithoutWriter(s: System, w: nat): System
    requires w in s.attempts && s.attempts[w].Writing? && s.attempts[w].request in s.store.actions
  {
    System(Committed(s.store, s.attempts[w].request, s.attempts[w].write), s.attempts - {w}, s.orphans, s.submissions)
  }

  lemma CommitShape(s: System, w: nat)
    requires Enabled(s, Commit(w))
    ensures var s1 := WithoutWriter(s, w);
      Apply(s, Commit(w)) == s1.(attempts := s1.attempts[w := Finishing(s.attempts[w])])
  {
    assert (s.attempts - {w})[w := Finishing(s.attempts[w])] == s.attempts[w := Finishing(s.attempts[w])];
  }

  lemma OrphanKeepsInv(s: System, e: Event)
    requires Inv(s) && Enabled(s, e) && (e.OrphanCommit? || e.OrphanAbort?)
    ensures Inv(Apply(s, e))
  {
    var t, r := s.store, e.request;
    var rest := s.orphans - {r};
    assert OrphansOk(rest, t.actions, t.allowances) && LocksApart(s.attempts, rest);
    if e.OrphanCommit? {
      assert WriteOk(t.actions, t.allowances, r, s.orphans[r]);
      CommitKeepsStore(t, r, s.orphans[r]);
      CommitKeepsAttempts(t, r, s.orphans[r], s.attempts, rest);
    }
  }

  // ---- Submissions and decisions ----

  lemma SubmitReadKeepsInv(s: System, e: Event)
    requires Inv(s) && Enabled(s, e) && e.SubmitRead?
    ensures Inv(Apply(s, e))
  {
    var t, sub := s.store, Apply(s, e).submissions[e.p];
    if sub.seen.Some? {
      var a := sub.seen.value;
      var g :| g in t.grants && IsVersion(t.allowances[a], a, g);
      assert GrantSeen(g, sub, t.approvals);
    }
    assert SubmissionsOk(s.submissions[e.p := sub], t.allowances, t.grants, t.approvals);
  }

  /** A row changes before any job was inserted for it. */
  lemma UnqueuedRowChanges(jobs: Q.Queue, actions: map<nat, ActionRow>, jobOf: map<nat, nat>, r: nat, row: ActionRow)
    requires JobsOk(jobs, actions, jobOf) && r !in jobOf && !Ran(row.status)
    ensures JobsOk(jobs, actions[r := row], jobOf)
  {
    forall q | q in jobOf && actions[r := row][q].status == Queued ensures JobOpen(jobs, jobOf[q], q) {
      assert actions[q].status == Queued;
    }
  }

  lemma KeyIsFree(jobs: Q.Queue, actions: map<nat, ActionRow>, jobOf: map<nat, nat>, r: nat)
    requires JobsOk(jobs, actions, jobOf) && r !in jobOf
    ensures !Q.KeyTaken(jobs.rows, Some(Q.ForAction(r)))
  {
    forall j | j in jobs.rows ensures jobs.rows[j].key != Some(Q.ForAction(r)) {
      assert !IsJobOf(jobs, j, r);
    }
  }

  /** One more job row, for a request that had none. */
  lemma OneMoreJob(jobs: Q.Queue, jobs': Q.Queue, actions: map<nat, ActionRow>, jobOf: map<nat, nat>, r: nat,
                   row: ActionRow, job: Q.Row)
    requires JobsOk(jobs, actions, jobOf) && r !in jobOf && row.status == Queued && jobs.nextId !in jobs.rows
    requires jobs'.rows == jobs.rows[jobs.nextId := job] && jobs'.nextId == jobs.nextId + 1
    requires job.key == Some(Q.ForAction(r)) && job.payload == Q.ActionRequest(r) && job.status != Q.Completed
    ensures JobsOk(jobs', actions[r := row], jobOf[r := jobs.nextId])
  {
    var actions', jobOf' := actions[r := row], jobOf[r := jobs.nextId];
    forall q | q in jobOf' && actions'[q].status == Queued ensures JobOpen(jobs', jobOf'[q], q) {
      if q != r { assert JobOpen(jobs, jobOf[q], q); }
    }
    forall j, q {:trigger IsJobOf(jobs', j, q)} | IsJobOf(jobs', j, q) ensures q in jobOf' && jobOf'[q] == j {
      if j != jobs.nextId { assert IsJobOf(jobs, j, q); }
    }
    forall j | j in jobs'.rows && jobs'.rows[j].payload.ActionRequest?
      ensures IsJobOf(jobs', j, jobs'.rows[j].payload.request)
    {
      if j != jobs.nextId { assert IsJobOf(jobs, j, jobs.rows[j].payload.request); }
    }
  }

  /** Entering `queued` inserts the request's one job: its key cannot be taken. */
  lemma QueuedRowChanges(t: Store, r: nat, row: ActionRow, runAt: Time)
    requires Q.Valid(t.jobs) && JobsOk(t.jobs, t.actions, t.jobOf) && r !in t.jobOf && row.status == Queued
    ensures var jobs' := Q.Enqueued(t.jobs, None, ACTION_KIND, Q.ActionRequest(r), 0, runAt, Some(Q.ForAction(r)));
      && jobs'.nextId == t.jobs.nextId + 1
      && Q.Valid(jobs')
      && JobsOk(jobs', t.actions[r := row], t.jobOf[r := t.jobs.nextId])
  {
    var payload, key := Q.ActionRequest(r), Some(Q.ForAction(r));
    KeyIsFree(t.jobs, t.actions, t.jobOf, r);
    Q.EnqueueKeepsValid(t.jobs, None, ACTION_KIND, payload, 0, runAt, key);
    FreshRow(t.jobs);
    OneMoreJob(t.jobs, Q.Enqueued(t.jobs, None, ACTION_KIND, payload, 0, runAt, key), t.actions, t.jobOf, r, row,
               Q.NewRow(t.jobs, None, ACTION_KIND, payload, 0, runAt, key));
  }

  lemma FreshRow(jobs: Q.Queue)
    requires Q.Valid(jobs)
    ensures jobs.nextId !in jobs.rows
  {
  }

  lemma NewRowKeepsEffects(effects: seq<Effect>, actions: map<nat, ActionRow>, r: nat, row: ActionRow)
    requires EffectsOk(effects, actions) && row.status != Completed
    requires r in actions ==> actions[r].status == Pending
    ensures EffectsOk(effects, actions[r := row])
  {
    forall e | e in effects ensures e.request != r { EffectMeansCompleted(effects, actions, e); }
    forall q {:trigger Count(effects, q)} | true
      ensures Count(effects, q) == if q in actions[r := row] && actions[r := row][q].status == Completed then 1 else 0
    {
    }
  }

  lemma {:induction false} CountPositive(effects: seq<Effect>, e: Effect)
    requires e in effects
    ensures Count(effects, e.request) > 0
  {
    var last := |effects| - 1;
    if effects[last].request != e.request {
      assert e in effects[..last];
      CountPositive(effects[..last], e);
    }
  }

  lemma EffectMeansCompleted(effects: seq<Effect>, actions: map<nat, ActionRow>, e: Effect)
    requires EffectsOk(effects, actions) && e in effects
    ensures e.request in actions && actions[e.request].status == Completed
  {
    CountPositive(effects, e);
  }

  /** More history authorises no less. */
  lemma AuthorisedGrows(r: nat, row: ActionRow, approvals: set<(nat, string)>, grants: set<Grant>,
                        covered: map<nat, Time>, approvals': set<(nat, string)>, grants': set<Grant>,
                        covered': map<nat, Time>)
    requires Authorised(r, row, approvals, grants, covered)
    requires approvals <= approvals' && grants <= grants'
    requires r in covered ==> r in covered' && covered'[r] == covered[r]
    ensures Authorised(r, row, approvals', grants', covered')
  {
    if (r, row.identity.user) !in approvals {
      var g :| g in grants && Covers(g, row, covered[r], approvals);
      assert Covers(g, row, covered'[r], approvals');
    }
  }

  lemma SubmittedRowOk(t: Store, sub: Submission, row: ActionRow)
    requires SubmissionsOk(map[0 := sub], t.allowances, t.grants, t.approvals)
    requires row.identity == sub.principal.identity && row.name == sub.definition.name
    requires row.definition == sub.definition
    requires row.allowance == sub.seen && sub.seen.Some?
    ensures row.allowance.value in t.allowances
    ensures Authorised(sub.request, row, t.approvals, t.grants, t.covered[sub.request := sub.readAt])
  {
    var submissions := map[0 := sub];
    assert submissions[0].seen.Some?;
    var g :| g in t.grants && GrantSeen(g, sub, t.approvals);
    assert Covers(g, row, sub.readAt, t.approvals);
  }

  function NewRow(t: Store, sub: Submission): ActionRow {
    ActionRow(sub.principal.identity, sub.definition.name, sub.definition, sub.arguments,
      if sub.definition.approval == Required && sub.seen.None? then Pending else Queued, None,
      if sub.seen.Some? then Some(sub.principal.identity.user) else None, sub.seen, t.jobs.now + EXPIRY)
  }

  lemma SubmitKeepsGate(t: Store, sub: Submission, jobOf': map<nat, nat>)
    requires GateOk(t.actions, t.jobOf, t.approvals, t.grants, t.covered) && sub.request !in t.actions
    requires SubmissionsOk(map[0 := sub], t.allowances, t.grants, t.approvals)
    requires NewRow(t, sub).status == Queued ==> jobOf'.Keys == t.jobOf.Keys + {sub.request}
    requires NewRow(t, sub).status == Pending ==> jobOf' == t.jobOf && sub.request !in t.jobOf
    ensures GateOk(t.actions[sub.request := NewRow(t, sub)], jobOf', t.approvals, t.grants,
        t.covered[sub.request := sub.readAt])
  {
    var row, covered' := NewRow(t, sub), t.covered[sub.request := sub.readAt];
    if sub.seen.Some? { SubmittedRowOk(t, sub, row); }
    forall r | r in t.actions && r in t.jobOf && t.actions[r].definition.approval == Required
      ensures Authorised(r, t.actions[r], t.approvals, t.grants, covered')
    {
      AuthorisedGrows(r, t.actions[r], t.approvals, t.grants, t.covered, t.approvals, t.grants, covered');
    }
  }

  lemma SubmittedShape(t: Store, sub: Submission, runAt: Time)
    requires sub.request !in t.actions
    ensures var row, t', key := NewRow(t, sub), Submitted(t, sub, runAt), Some(Q.ForAction(sub.request));
      && t' == t.(actions := t.actions[sub.request := row], covered := t.covered[sub.request := sub.readAt],
                  jobs := t'.jobs, jobOf := t'.jobOf)
      && t'.jobs == (if row.status == Queued
                     then Q.Enqueued(t.jobs, None, ACTION_KIND, Q.ActionRequest(sub.request), 0, runAt, key)
                     else t.jobs)
      && t'.jobOf == (if row.status == Queued then t.jobOf[sub.request := t.jobs.nextId] else t.jobOf)
  {
  }

  lemma SubmitKeepsJobs(t: Store, sub: Submission, runAt: Time)
    requires Q.Valid(t.jobs) && JobsOk(t.jobs, t.actions, t.jobOf) && sub.request !in t.actions
    ensures var t' := Submitted(t, sub, runAt); Q.Valid(t'.jobs) && JobsOk(t'.jobs, t'.actions, t'.jobOf)
  {
    SubmittedShape(t, sub, runAt);
    if NewRow(t, sub).status == Queued {
      QueuedRowChanges(t, sub.request, NewRow(t, sub), runAt);
    } else {
      UnqueuedRowChanges(t.jobs, t.actions, t.jobOf, sub.request, NewRow(t, sub));
    }
  }

  lemma SubmitKeepsRows(t: Store, sub: Submission)
    requires RowsOk(t.actions, t.allowances) && sub.request !in t.actions
    requires SubmissionsOk(map[0 := sub], t.allowances, t.grants, t.approvals)
    ensures RowsOk(t.actions[sub.request := NewRow(t, sub)], t.allowances)
  {
    if sub.seen.Some? { SubmittedRowOk(t, sub, NewRow(t, sub)); }
  }

  lemma SubmitKeepsStore(t: Store, sub: Submission, runAt: Time)
    requires StoreOk(t) && SubmissionsOk(map[0 := sub], t.allowances, t.grants, t.approvals)
    ensures StoreOk(Submitted(t, sub, runAt))
  {
    if sub.request !in t.actions {
      assert sub.request !in t.jobOf;
      SubmittedShape(t, sub, runAt);
      SubmitKeepsJobs(t, sub, runAt);
      NewRowKeepsEffects(t.effects, t.actions, sub.request, NewRow(t, sub));
      SubmitKeepsGate(t, sub, Submitted(t, sub, runAt).jobOf);
      SubmitKeepsRows(t, sub);
    }
  }

  /** Rows that already have a job, and live allowances, are left as they were. */
  ghost predicate Undisturbed(t: Store, t': Store) {
    && (forall r :: r in t.jobOf ==> r in t'.jobOf && t'.jobOf[r] == t.jobOf[r])
    && (forall r :: r in t.jobOf && r in t.actions ==> r in t'.actions && t'.actions[r] == t.actions[r])
    && (forall a :: a in t.allowances && !t.allowances[a].revoked ==> a in t'.allowances && !t'.allowances[a].revoked)
  }

  lemma UndisturbedAttempts(t: Store, t': Store, attempts: map<nat, Attempt>, orphans: map<nat, Write>)
    requires JobsOk(t.jobs, t.actions, t.jobOf) && Undisturbed(t, t')
    requires AttemptsOk(attempts, t.actions, t.allowances, t.jobOf) && OrphansOk(orphans, t.actions, t.allowances)
    ensures AttemptsOk(attempts, t'.actions, t'.allowances, t'.jobOf) && OrphansOk(orphans, t'.actions, t'.allowances)
  {
    forall w | w in attempts ensures AttemptOk(t'.actions, t'.allowances, t'.jobOf, attempts[w]) {
      assert AttemptOk(t.actions, t.allowances, t.jobOf, attempts[w]);
    }
    forall r | r in orphans ensures WriteOk(t'.actions, t'.allowances, r, orphans[r]) {
      assert WriteOk(t.actions, t.allowances, r, orphans[r]);
      assert r in t.jobOf;
    }
  }

  lemma StoreChanges(s: System, t': Store, submissions': map<nat, Submission>)
    requires Inv(s) && StoreOk(t') && Undisturbed(s.store, t')
    requires SubmissionsOk(submissions', t'.allowances, t'.grants, t'.approvals)
    ensures Inv(s.(store := t', submissions := submissions'))
  {
    UndisturbedAttempts(s.store, t', s.attempts, s.orphans);
  }

  lemma OneSubmission(submissions: map<nat, Submission>, p: nat, t: Store)
    requires p in submissions && SubmissionsOk(submissions, t.allowances, t.grants, t.approvals)
    ensures SubmissionsOk(map[0 := submissions[p]], t.allowances, t.grants, t.approvals)
    ensures SubmissionsOk(submissions - {p}, t.allowances, t.grants, t.approvals)
  {
  }

  lemma SubmitUndisturbing(t: Store, sub: Submission, runAt: Time)
    requires JobsOk(t.jobs, t.actions, t.jobOf)
    ensures Undisturbed(t, Submitted(t, sub, runAt))
    ensures var t' := Submitted(t, sub, runAt);
      t'.allowances == t.allowances && t'.grants == t.grants && t'.approvals == t.approvals
  {
    if sub.request !in t.actions { SubmittedShape(t, sub, runAt); }
  }

  lemma SubmitCommitKeepsInv(s: System, p: nat, runAt: Time)
    requires Inv(s) && Enabled(s, SubmitCommit(p, runAt))
    ensures Inv(Apply(s, SubmitCommit(p, runAt)))
  {
    var t, sub := s.store, s.submissions[p];
    OneSubmission(s.submissions, p, t);
    SubmitKeepsStore(t, sub, runAt);
    SubmitUndisturbing(t, sub, runAt);
    StoreChanges(s, Submitted(t, sub, runAt), s.submissions - {p});
  }

  // ---- Decisions ----

  lemma AllowedKeepsGrants(t: Store, request: nat, row: ActionRow, a: nat, expiresAt: Time,
      approvals': set<(nat, string)>)
    requires GrantsOk(t.allowances, t.nextAllowance, t.grants, t.approvals) && UpsertTarget(t, row, a)
    requires approvals' == t.approvals + {(request, row.identity.user)}
    ensures var t' := Allowed(t, request, row, a, expiresAt);
      GrantsOk(t'.allowances, t'.nextAllowance, t'.grants, approvals')
  {
    var t' := Allowed(t, request, row, a, expiresAt);
    var g' := Grant(a, row.identity, row.name, row.definition, expiresAt, request);
    forall b | b in t'.allowances
      ensures b < t'.nextAllowance && exists g :: g in t'.grants && IsVersion(t'.allowances[b], b, g)
    {
      if b == a {
        assert g' in t'.grants && IsVersion(t'.allowances[a], a, g');
      } else {
        var g :| g in t.grants && IsVersion(t.allowances[b], b, g);
        assert g in t'.grants;
      }
    }
  }

  lemma GrownKeepsSubmissions(submissions: map<nat, Submission>,
      allowances: map<nat, Allowance>, grants: set<Grant>, approvals: set<(nat, string)>,
      allowances': map<nat, Allowance>, grants': set<Grant>, approvals': set<(nat, string)>)
    requires SubmissionsOk(submissions, allowances, grants, approvals)
    requires allowances.Keys <= allowances'.Keys && grants <= grants' && approvals <= approvals'
    ensures SubmissionsOk(submissions, allowances', grants', approvals')
  {
    forall p | p in submissions && submissions[p].seen.Some?
      ensures exists g :: g in grants' && GrantSeen(g, submissions[p], approvals')
    {
      var g :| g in grants && GrantSeen(g, submissions[p], approvals);
      assert g in grants' && GrantSeen(g, submissions[p], approvals');
    }
  }

  lemma SettleKeepsGate(t: Store, d: Decision, row: ActionRow, jobOf': map<nat, nat>,
                        approvals': set<(nat, string)>, grants': set<Grant>)
    requires GateOk(t.actions, t.jobOf, t.approvals, t.grants, t.covered)
    requires d.request in t.actions && d.request !in t.jobOf && t.approvals <= approvals' && t.grants <= grants'
    requires row.identity == t.actions[d.request].identity && row.identity.user == d.user
    requires row.reviewedBy == Some(d.user)
    requires jobOf'.Keys == t.jobOf.Keys ||
      (jobOf'.Keys == t.jobOf.Keys + {d.request} && (d.request, d.user) in approvals')
    ensures GateOk(t.actions[d.request := row], jobOf', approvals', grants', t.covered)
  {
    forall r | r in t.actions && r in t.jobOf && t.actions[r].definition.approval == Required
      ensures Authorised(r, t.actions[r], approvals', grants', t.covered)
    {
      AuthorisedGrows(r, t.actions[r], t.approvals, t.grants, t.covered, approvals', grants', t.covered);
    }
  }

  function DecidedRow(t: Store, d: Decision): ActionRow
    requires d.request in t.actions
  {
    var row := t.actions[d.request];
    row.(status := SettleStatus(row, d), reviewedBy := Some(d.user),
         allowance := if SettleStatus(row, d) == Queued && d.allowFor.Some? then Some(d.target) else None)
  }

  lemma SettledShape(t: Store, d: Decision)
    requires SettleEarly(t, d).None?
    ensures var row, row', t' := t.actions[d.request], DecidedRow(t, d), Settled(t, d);
      && row.status == Pending && row.identity.user == d.user
      && t'.actions == t.actions[d.request := row'] && t'.effects == t.effects && t'.covered == t.covered
      && (row'.status == Queued ==>
            && t'.jobs == Q.Enqueued(t.jobs, None, ACTION_KIND, Q.ActionRequest(d.request), 0, d.runAt,
                Some(Q.ForAction(d.request)))
            && t'.jobOf == t.jobOf[d.request := t.jobs.nextId] && t'.approvals == t.approvals + {(d.request, d.user)})
      && (row'.status != Queued ==>
            && t'.jobs == t.jobs && t'.jobOf == t.jobOf && t'.approvals == t.approvals && !Ran(row'.status))
      && (if Upserts(t, d) then
            var t1 := Allowed(t, d.request, row, d.target, d.readAt + d.allowFor.value);
            t'.allowances == t1.allowances && t'.nextAllowance == t1.nextAllowance && t'.grants == t1.grants
          else t'.allowances == t.allowances && t'.nextAllowance == t.nextAllowance && t'.grants == t.grants)
  {
  }

  lemma SettleKeepsJobs(t: Store, d: Decision)
    requires Q.Valid(t.jobs) && JobsOk(t.jobs, t.actions, t.jobOf) && SettleEarly(t, d).None?
    ensures d.request !in t.jobOf
    ensures Q.Valid(Settled(t, d).jobs) && JobsOk(Settled(t, d).jobs, Settled(t, d).actions, Settled(t, d).jobOf)
  {
    SettledShape(t, d);
    var row' := DecidedRow(t, d);
    if row'.status == Queued {
      QueuedRowChanges(t, d.request, row', d.runAt);
    } else {
      UnqueuedRowChanges(t.jobs, t.actions, t.jobOf, d.request, row');
    }
  }

  lemma SettleKeepsGrants(t: Store, d: Decision)
    requires GrantsOk(t.allowances, t.nextAllowance, t.grants, t.approvals)
    requires SettleEarly(t, d).None?
    requires Upserts(t, d) ==> UpsertTarget(t, t.actions[d.request], d.target)
    ensures var t' := Settled(t, d);
      GrantsOk(t'.allowances, t'.nextAllowance, t'.grants, t'.approvals)
  {
    SettledShape(t, d);
    if Upserts(t, d) {
      AllowedKeepsGrants(t, d.request, t.actions[d.request], d.target, d.readAt + d.allowFor.value,
          Settled(t, d).approvals);
    }
  }

  lemma SettleKeepsRows(t: Store, d: Decision)
    requires RowsOk(t.actions, t.allowances) && GateOk(t.actions, t.jobOf, t.approvals, t.grants, t.covered)
    requires SettleEarly(t, d).None? && d.request !in t.jobOf
    ensures var t' := Settled(t, d);
      RowsOk(t'.actions, t'.allowances) && GateOk(t'.actions, t'.jobOf, t'.approvals, t'.grants, t'.covered)
  {
    SettledShape(t, d);
    SettleKeepsGate(t, d, DecidedRow(t, d), Settled(t, d).jobOf, Settled(t, d).approvals, Settled(t, d).grants);
  }

  lemma SettleUndisturbing(t: Store, d: Decision)
    requires JobsOk(t.jobs, t.actions, t.jobOf) && SettleEarly(t, d).None?
    requires Upserts(t, d) ==> UpsertTarget(t, t.actions[d.request], d.target)
    requires GrantsOk(t.allowances, t.nextAllowance, t.grants, t.approvals)
    ensures Undisturbed(t, Settled(t, d))
  {
    SettledShape(t, d);
  }

  lemma SettleKeepsInv(s: System, d: Decision)
    requires Inv(s) && Enabled(s, Settle(d))
    ensures Inv(Apply(s, Settle(d)))
  {
    var t, t' := s.store, Settled(s.store, d);
    if SettleEarly(t, d).None? {
      SettleKeepsJobs(t, d);
      SettleKeepsGrants(t, d);
      SettleKeepsRows(t, d);
      SettleUndisturbing(t, d);
      SettledShape(t, d);
      NewRowKeepsEffects(t.effects, t.actions, d.request, DecidedRow(t, d));
      GrownKeepsSubmissions(s.submissions, t.allowances, t.grants, t.approvals, t'.allowances, t'.grants, t'.approvals);
      StoreChanges(s, t', s.submissions);
    }
  }

  // ---- Revocation ----

  lemma RevokeKeepsGrants(t: Store, user: string, tenant: string, a: nat)
    requires GrantsOk(t.allowances, t.nextAllowance, t.grants, t.approvals)
    ensures GrantsOk(Revoked(t, user, tenant, a).allowances, t.nextAllowance, t.grants, t.approvals)
  {
    if MayRevoke(t, user, tenant, a) {
      var allowances' := t.allowances[a := t.allowances[a].(revoked := true)];
      forall b | b in allowances' ensures exists g :: g in t.grants && IsVersion(allowances'[b], b, g) {
        var g :| g in t.grants && IsVersion(t.allowances[b], b, g);
        assert IsVersion(allowances'[b], b, g);
      }
      assert allowances'.Keys == t.allowances.Keys;
    }
  }

  lemma RevokeKeepsInv(s: System, user: string, tenant: string, a: nat)
    requires Inv(s) && Enabled(s, Revoke(user, tenant, a))
    ensures Inv(Apply(s, Revoke(user, tenant, a)))
  {
    var t, t' := s.store, Revoked(s.store, user, tenant, a);
    assert t'.allowances.Keys == t.allowances.Keys;
    RevokeKeepsAttempts(s, user, tenant, a);
    RevokeKeepsGrants(t, user, tenant, a);
    GrownKeepsSubmissions(s.submissions, t.allowances, t.grants, t.approvals, t'.allowances, t'.grants, t'.approvals);
  }

  /** The share lock: no attempt that may still commit an effect runs under `a`. */
  lemma RevokeKeepsAttempts(s: System, user: string, tenant: string, a: nat)
    requires AttemptsOk(s.attempts, s.store.actions, s.store.allowances, s.store.jobOf)
    requires OrphansOk(s.orphans, s.store.actions, s.store.allowances) && !ShareLocked(s, a)
    ensures var t' := Revoked(s.store, user, tenant, a);
      AttemptsOk(s.attempts, t'.actions, t'.allowances, t'.jobOf) && OrphansOk(s.orphans, t'.actions, t'.allowances)
  {
    var t, t' := s.store, Revoked(s.store, user, tenant, a);
    forall w | w in s.attempts ensures AttemptOk(t'.actions, t'.allowances, t'.jobOf, s.attempts[w]) {
      assert AttemptOk(t.actions, t.allowances, t.jobOf, s.attempts[w]);
    }
    forall r | r in s.orphans ensures WriteOk(t'.actions, t'.allowances, r, s.orphans[r]) {
      assert WriteOk(t.actions, t.allowances, r, s.orphans[r]);
    }
  }

  // ---- Every run ----

  lemma TableKeepsInv(s: System, step: Runs.Step)
    requires Inv(s) && Enabled(s, Table(step))
    ensures Inv(Apply(s, Table(step)))
  {
    Runs.ApplyKeepsValid(s.store.jobs, step);
    TableKeepsJobs(s.store.jobs, step, s.store.actions, s.store.jobOf);
    JobsChange(s, Runs.Apply(s.store.jobs, step));
  }

  predicate MovesAttempt(e: Event) { e.Begin? || e.Skip? || e.Vet? || e.Resolve? || e.Handle? }

  predicate OfOneAttempt(e: Event) {
    MovesAttempt(e) || e.ClaimJob? || e.Commit? || e.Fail? || e.Acknowledge? || e.Crash?
  }

  lemma AttemptStepKeepsInv(s: System, e: Event)
    requires Inv(s) && Enabled(s, e) && MovesAttempt(e)
    ensures Inv(Apply(s, e))
  {
    if e.Begin? {
      BeginKeepsInv(s, e.w, e.registry);
    } else if e.Skip? {
      SkipKeepsInv(s, e.w);
    } else if e.Vet? {
      VetKeepsInv(s, e.w);
    } else if e.Resolve? {
      ResolveKeepsInv(s, e.w, e.resolved);
    } else {
      HandleKeepsInv(s, e.w, e.result);
    }
  }

  lemma AttemptEventKeepsInv(s: System, e: Event)
    requires Inv(s) && Enabled(s, e) && OfOneAttempt(e)
    ensures Inv(Apply(s, e))
  {
    if MovesAttempt(e) {
      AttemptStepKeepsInv(s, e);
    } else if e.ClaimJob? {
      ClaimJobKeepsInv(s, e.w, e.job);
    } else if e.Commit? {
      CommitKeepsInv(s, e.w);
    } else if e.Fail? {
      FailKeepsInv(s, e.w, e.reason);
    } else if e.Acknowledge? {
      AcknowledgeKeepsInv(s, e.w);
    } else {
      LeavingKeepsInv(s, e.w);
    }
  }

  lemma StoreEventKeepsInv(s: System, e: Event)
    requires Inv(s) && Enabled(s, e) && !OfOneAttempt(e)
    ensures Inv(Apply(s, e))
  {
    match e
    case Table(step) => TableKeepsInv(s, step);
    case OrphanCommit(r) => OrphanKeepsInv(s, e);
    case OrphanAbort(r) => OrphanKeepsInv(s, e);
    case SubmitRead(_, _, _, _, _, _) => SubmitReadKeepsInv(s, e);
    case SubmitCommit(p, runAt) => SubmitCommitKeepsInv(s, p, runAt);
    case Settle(d) => SettleKeepsInv(s, d);
    case Revoke(user, tenant, a) => RevokeKeepsInv(s, user, tenant, a);
  }

  lemma ApplyKeepsInv(s: System, e: Event)
    requires Inv(s)
    ensures Inv(Apply(s, e))
  {
    if Enabled(s, e) {
      if OfOneAttempt(e) { AttemptEventKeepsInv(s, e); } else { StoreEventKeepsInv(s, e); }
    }
  }

  lemma {:induction false} RunKeepsInv(now: Time, events: seq<Event>)
    ensures Inv(Run(now, events))
  {
    if events != [] {
      RunKeepsInv(now, events[..|events| - 1]);
      ApplyKeepsInv(Run(now, events[..|events| - 1]), events[|events| - 1]);
    }
  }
}
