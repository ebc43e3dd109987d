/** The main results about durable actions, over every run of `DurableActions`. */
module DurableTheorems {
  import opened Wrappers
  import opened DurableActions
  import opened DurableSafety
  import Q = JobQueue

  // ---- Exactly-once effects ----

  /** Handler mutations commit exactly once for a completed request and never for any other,
      over any retries, crashes, stale workers and overlapping attempts. */
  lemma ExactlyOnce(now: Time, events: seq<Event>, r: nat)
    ensures var t := Run(now, events).store;
      Count(t.effects, r) == if r in t.actions && t.actions[r].status == Completed then 1 else 0
  {
    RunKeepsInv(now, events);
  }

  // ---- Nothing is stranded between the two layers ----

  /** What `record` reports: the stored status, unless it lapsed or the job says more. */
  datatype Shown = Stored(status: Status) | JobRunning | JobFailed

  ghost predicate HasJobIn(jobs: Q.Queue, r: nat, status: Q.Status) {
    exists j :: IsJobOf(jobs, j, r) && jobs.rows[j].status == status
  }

  ghost function Record(t: Store, r: nat): Shown
    requires r in t.actions
  {
    if t.actions[r].status == Pending && t.actions[r].expiresAt <= t.jobs.now then Stored(Expired)
    else if t.actions[r].status == Queued && HasJobIn(t.jobs, r, Q.Running) then JobRunning
    else if t.actions[r].status == Queued && HasJobIn(t.jobs, r, Q.Failed) then JobFailed
    else Stored(t.actions[r].status)
  }

  /** A request that is shown as pending can still be decided, and one shown as expired cannot. */
  lemma ShownPendingDecides(t: Store, r: nat, d: Decision)
    requires r in t.actions && t.actions[r].status == Pending && d.request == r && d.readAt == t.jobs.now
    ensures Record(t, r) == Stored(Pending) <==> SettleStatus(t.actions[r], d) != Expired
    ensures Record(t, r) == Stored(Expired) <==> t.actions[r].expiresAt <= t.jobs.now
  {
  }

  lemma CompletedJobTerminal(t: Store, j: nat, r: nat)
    requires JobsOk(t.jobs, t.actions, t.jobOf)
    requires IsJobOf(t.jobs, j, r) && t.jobs.rows[j].status == Q.Completed
    ensures r in t.actions && Terminal(t.actions[r].status)
  {
    assert r in t.jobOf && t.jobOf[r] == j;
    assert t.actions[r].status == Queued ==> JobOpen(t.jobs, j, r);
  }

  /** A completed job has settled its action for good. */
  lemma CompletedJobSettled(now: Time, events: seq<Event>, j: nat, r: nat)
    requires IsJobOf(Run(now, events).store.jobs, j, r) && Run(now, events).store.jobs.rows[j].status == Q.Completed
    ensures r in Run(now, events).store.actions && Terminal(Run(now, events).store.actions[r].status)
  {
    RunKeepsInv(now, events);
    CompletedJobTerminal(Run(now, events).store, j, r);
  }

  ghost predicate WaitsFor(t: Store, j: nat, r: nat) {
    && IsJobOf(t.jobs, j, r) && t.jobs.rows[j].status == Q.Pending
    && t.jobs.rows[j].attempts < t.jobs.rows[j].maxAttempts && t.jobs.rows[j].payload == Q.ActionRequest(r)
  }

  lemma QueuedWaits(t: Store, r: nat) returns (j: nat)
    requires JobsOk(t.jobs, t.actions, t.jobOf) && Q.RowsOk(t.jobs)
    requires r in t.actions && Record(t, r) == Stored(Queued)
    ensures WaitsFor(t, j, r)
  {
    assert r in t.jobOf;
    j := t.jobOf[r];
    assert JobOpen(t.jobs, j, r);
    assert Q.RowOk(t.jobs.rows[j], t.jobs.now);
  }

  /** An action shown as queued has a pending job with attempts left, whatever was pruned. */
  lemma ShownQueuedHasJob(now: Time, events: seq<Event>, r: nat)
    requires var t := Run(now, events).store; r in t.actions && Record(t, r) == Stored(Queued)
    ensures exists j :: WaitsFor(Run(now, events).store, j, r)
  {
    RunKeepsInv(now, events);
    var j := QueuedWaits(Run(now, events).store, r);
  }

  ghost predicate InsertsJob(before: Store, after: Store, r: nat) {
    exists j :: IsJobOf(after.jobs, j, r) && j !in before.jobs.rows
  }

  /** How many jobs were ever inserted for `r`. */
  ghost function JobsInserted(now: Time, events: seq<Event>, r: nat): nat {
    if events == [] then 0
    else
      var before := Run(now, events[..|events| - 1]);
      JobsInserted(now, events[..|events| - 1], r) +
      if InsertsJob(before.store, Run(now, events).store, r) then 1 else 0
  }

  /** How often `r` entered the status queued. */
  ghost function TimesQueued(now: Time, events: seq<Event>, r: nat): nat {
    if events == [] then 0
    else
      var before := Run(now, events[..|events| - 1]);
      TimesQueued(now, events[..|events| - 1], r) +
      if EntersQueued(before.store, Run(now, events).store, r) then 1 else 0
  }

  ghost predicate JobHistoryGrows(t: Store, t': Store) {
    && (forall r :: r in t.jobOf ==> r in t'.jobOf && t'.jobOf[r] == t.jobOf[r])
    && (forall j :: j in t'.jobs.rows && j !in t.jobs.rows ==> j >= t.jobs.nextId)
    && (forall r :: r in t'.jobOf && r !in t.jobOf ==>
          t'.jobOf[r] in t'.jobs.rows && t'.jobOf[r] !in t.jobs.rows && IsJobOf(t'.jobs, t'.jobOf[r], r) &&
          r in t'.actions && t'.actions[r].status == Queued)
    && (forall r :: r in t.jobOf && r in t.actions && r in t'.actions && t'.actions[r].status == Queued ==>
          t.actions[r].status == Queued)
  }

  predicate QueueOnly(e: Event) {
    !e.Commit? && !e.OrphanCommit? && !e.SubmitCommit? && !e.Settle? && !e.Revoke?
  }

  ghost predicate RowIdsGrow(jobs: Q.Queue, jobs': Q.Queue) {
    forall j :: j in jobs'.rows && j !in jobs.rows ==> j >= jobs.nextId
  }

  /** Steps other than these five change nothing in the store but the job table. */
  lemma QueueOnlySteps(s: System, e: Event)
    requires Enabled(s, e) && QueueOnly(e)
    ensures Apply(s, e).store == s.store.(jobs := Apply(s, e).store.jobs)
    ensures RowIdsGrow(s.store.jobs, Apply(s, e).store.jobs)
  {
  }

  lemma CommitGrowsJobHistory(t: Store, r: nat, write: Write)
    requires WriteOk(t.actions, t.allowances, r, write)
    ensures JobHistoryGrows(t, Committed(t, r, write))
  {
  }

  lemma QueueOnlyGrowsJobHistory(s: System, e: Event)
    requires Enabled(s, e) && (QueueOnly(e) || e.Revoke?)
    ensures JobHistoryGrows(s.store, Apply(s, e).store)
  {
    if QueueOnly(e) { QueueOnlySteps(s, e); }
  }

  lemma CommitsGrowJobHistory(s: System, e: Event)
    requires AttemptsOk(s.attempts, s.store.actions, s.store.allowances, s.store.jobOf)
    requires OrphansOk(s.orphans, s.store.actions, s.store.allowances)
    requires Enabled(s, e) && (e.Commit? || e.OrphanCommit?)
    ensures JobHistoryGrows(s.store, Apply(s, e).store)
  {
    var t := s.store;
    if e.Commit? {
      assert AttemptOk(t.actions, t.allowances, t.jobOf, s.attempts[e.w]);
      CommitGrowsJobHistory(t, s.attempts[e.w].request, s.attempts[e.w].write);
    } else {
      assert WriteOk(t.actions, t.allowances, e.request, s.orphans[e.request]);
      CommitGrowsJobHistory(t, e.request, s.orphans[e.request]);
    }
  }

  lemma SameStoreGrows(t: Store)
    ensures JobHistoryGrows(t, t)
  {
  }

  lemma StepGrowsJobHistory(s: System, e: Event)
    requires StoreOk(s.store)
    requires AttemptsOk(s.attempts, s.store.actions, s.store.allowances, s.store.jobOf)
    requires OrphansOk(s.orphans, s.store.actions, s.store.allowances)
    ensures JobHistoryGrows(s.store, Apply(s, e).store)
  {
    if !Enabled(s, e) {
      SameStoreGrows(s.store);
    } else if e.Commit? || e.OrphanCommit? {
      CommitsGrowJobHistory(s, e);
    } else if e.SubmitCommit? {
      SubmitGrowsJobHistory(s.store, s.submissions[e.p], e.runAt);
    } else if e.Settle? {
      SettleGrowsJobHistory(s.store, e.decision);
    } else {
      QueueOnlyGrowsJobHistory(s, e);
    }
  }

  lemma SubmitGrowsJobHistory(t: Store, sub: Submission, runAt: Time)
    requires StoreOk(t)
    ensures JobHistoryGrows(t, Submitted(t, sub, runAt))
  {
    if sub.request in t.actions {
      SameStoreGrows(t);
    } else {
      SubmittedShape(t, sub, runAt);
      SubmitKeepsJobs(t, sub, runAt);
      DecisionGrowsJobHistory(t, Submitted(t, sub, runAt), sub.request, NewRow(t, sub));
    }
  }

  lemma SettleGrowsJobHistory(t: Store, d: Decision)
    requires StoreOk(t)
    ensures JobHistoryGrows(t, Settled(t, d))
  {
    if SettleEarly(t, d).Some? {
      SameStoreGrows(t);
    } else {
      SettledShape(t, d);
      SettleKeepsJobs(t, d);
      DecisionGrowsJobHistory(t, Settled(t, d), d.request, DecidedRow(t, d));
    }
  }

  lemma DecisionGrowsJobHistory(t: Store, t': Store, r: nat, row: ActionRow)
    requires Q.Valid(t.jobs) && r !in t.jobOf && t'.actions == t.actions[r := row]
    requires JobsOk(t'.jobs, t'.actions, t'.jobOf)
    requires row.status != Queued ==> t'.jobs == t.jobs && t'.jobOf == t.jobOf
    requires row.status == Queued ==>
      && t'.jobOf == t.jobOf[r := t.jobs.nextId]
      && (forall j :: j in t'.jobs.rows && j !in t.jobs.rows ==> j >= t.jobs.nextId)
    ensures JobHistoryGrows(t, t')
  {
    if row.status == Queued {
      assert JobOpen(t'.jobs, t'.jobOf[r], r);
      FreshRow(t.jobs);
    }
  }

  ghost predicate EntersQueued(t: Store, t': Store, r: nat) {
    r in t'.actions && t'.actions[r].status == Queued && !(r in t.actions && t.actions[r].status == Queued)
  }

  ghost function HasJob(t: Store, r: nat): nat { if r in t.jobOf then 1 else 0 }

  /** One step: the request gets its job exactly when it enters queued, and only once. */
  lemma StepCountsJob(t: Store, t': Store, r: nat)
    requires JobHistoryGrows(t, t') && Q.RowsOk(t.jobs)
    requires JobsOk(t.jobs, t.actions, t.jobOf) && JobsOk(t'.jobs, t'.actions, t'.jobOf)
    ensures InsertsJob(t, t', r) <==> r in t'.jobOf && r !in t.jobOf
    ensures EntersQueued(t, t', r) <==> r in t'.jobOf && r !in t.jobOf
    ensures HasJob(t', r) == HasJob(t, r) + if InsertsJob(t, t', r) then 1 else 0
  {
    if r in t'.jobOf && r !in t.jobOf {
      assert IsJobOf(t'.jobs, t'.jobOf[r], r);
    }
    if InsertsJob(t, t', r) {
      var j :| IsJobOf(t'.jobs, j, r) && j !in t.jobs.rows;
      assert t'.jobOf[r] == j;
    }
  }

  /** An action enters queued at most once, and exactly one job is ever inserted for it. */
  lemma {:induction false} OneJobPerAction(now: Time, events: seq<Event>, r: nat)
    ensures JobsInserted(now, events, r) == TimesQueued(now, events, r) == HasJob(Run(now, events).store, r)
  {
    if events != [] {
      var init := events[..|events| - 1];
      OneJobPerAction(now, init, r);
      RunKeepsInv(now, init);
      RunKeepsInv(now, events);
      StepGrowsJobHistory(Run(now, init), events[|events| - 1]);
      StepCountsJob(Run(now, init).store, Run(now, events).store, r);
    }
  }

  // ---- Revocation ----

  ghost predicate IsRevoked(t: Store, a: nat) { a in t.allowances && t.allowances[a].revoked }

  /** Under a revoked allowance nothing commits, and it stays revoked. */
  lemma RevokedStep(s: System, e: Event, a: nat)
    requires AttemptsOk(s.attempts, s.store.actions, s.store.allowances, s.store.jobOf)
    requires OrphansOk(s.orphans, s.store.actions, s.store.allowances)
    requires GrantsOk(s.store.allowances, s.store.nextAllowance, s.store.grants, s.store.approvals)
    requires IsRevoked(s.store, a)
    ensures IsRevoked(Apply(s, e).store, a) && NoEffectUnder(s.store, Apply(s, e).store, a)
  {
    if !Enabled(s, e) {
    } else if e.Commit? || e.OrphanCommit? {
      RevokedCommit(s, e, a);
    } else if e.Settle? {
      RevokedSettle(s, e.decision, a);
    } else {
      RevokedQuietly(s, e, a);
    }
  }

  lemma RevokedQuietly(s: System, e: Event, a: nat)
    requires IsRevoked(s.store, a) && Enabled(s, e) && (QueueOnly(e) || e.SubmitCommit? || e.Revoke?)
    ensures IsRevoked(Apply(s, e).store, a) && NoEffectUnder(s.store, Apply(s, e).store, a)
  {
    if QueueOnly(e) { QueueOnlySteps(s, e); }
  }

  lemma RevokedSettle(s: System, d: Decision, a: nat)
    requires GrantsOk(s.store.allowances, s.store.nextAllowance, s.store.grants, s.store.approvals)
    requires IsRevoked(s.store, a) && Enabled(s, Settle(d))
    ensures IsRevoked(Apply(s, Settle(d)).store, a) && NoEffectUnder(s.store, Apply(s, Settle(d)).store, a)
  {
    SettleKeepsRevoked(s.store, d, a);
  }

  ghost predicate NoEffectUnder(t: Store, t': Store, a: nat) {
    t'.effects == t.effects || exists eff :: t'.effects == t.effects + [eff] && eff.allowance != Some(a)
  }

  lemma RevokedCommit(s: System, e: Event, a: nat)
    requires AttemptsOk(s.attempts, s.store.actions, s.store.allowances, s.store.jobOf)
    requires OrphansOk(s.orphans, s.store.actions, s.store.allowances) && IsRevoked(s.store, a)
    requires Enabled(s, e) && (e.Commit? || e.OrphanCommit?)
    ensures IsRevoked(Apply(s, e).store, a) && NoEffectUnder(s.store, Apply(s, e).store, a)
  {
    var t := s.store;
    var r, write := if e.Commit? then s.attempts[e.w].request else e.request,
                    if e.Commit? then s.attempts[e.w].write else s.orphans[e.request];
    assert e.Commit? ==> AttemptOk(t.actions, t.allowances, t.jobOf, s.attempts[e.w]);
    assert WriteOk(t.actions, t.allowances, r, write);
    var eff := Effect(r, t.actions[r].definition, t.actions[r].allowance);
    assert Apply(s, e).store == Committed(t, r, write);
    assert write.effect ==> Committed(t, r, write).effects == t.effects + [eff];
  }

  /** The upsert of `allow` never writes a revoked row. */
  lemma SettleKeepsRevoked(t: Store, d: Decision, a: nat)
    requires IsRevoked(t, a) && a < t.nextAllowance
    requires Upserts(t, d) ==> UpsertTarget(t, t.actions[d.request], d.target)
    ensures IsRevoked(Settled(t, d), a) && Settled(t, d).effects == t.effects
  {
    if SettleEarly(t, d).None? { SettledShape(t, d); }
  }

  /** From `t` to `t'` effects were only added, none of them under `a`. */
  ghost predicate QuietUnder(t: Store, t': Store, a: nat) {
    && t.effects <= t'.effects
    && (forall i :: |t.effects| <= i < |t'.effects| ==> t'.effects[i].allowance != Some(a))
  }

  lemma EffectsGrowQuietly(t: Store, t': Store, t'': Store, a: nat)
    requires QuietUnder(t, t', a) && NoEffectUnder(t', t'', a)
    ensures QuietUnder(t, t'', a)
  {
  }

  lemma {:induction false} RevokedForGood(now: Time, before: seq<Event>, after: seq<Event>, a: nat)
    requires IsRevoked(Run(now, before).store, a)
    ensures IsRevoked(Run(now, before + after).store, a)
    ensures QuietUnder(Run(now, before).store, Run(now, before + after).store, a)
  {
    if after == [] {
      assert before + after == before;
    } else {
      var init := after[..|after| - 1];
      RevokedForGood(now, before, init, a);
      RunKeepsInv(now, before + init);
      RevokedStep(Run(now, before + init), after[|after| - 1], a);
      RunAppends(now, before, after);
      EffectsGrowQuietly(Run(now, before).store, Run(now, before + init).store, Run(now, before + after).store, a);
    }
  }

  lemma RunAppends(now: Time, before: seq<Event>, after: seq<Event>)
    requires after != []
    ensures Run(now, before + after) == Apply(Run(now, before + after[..|after| - 1]), after[|after| - 1])
  {
    var events := before + after;
    assert events[..|events| - 1] == before + after[..|after| - 1] && events[|events| - 1] == after[|after| - 1];
  }

  /** Once `revoke_allowance` returns, no effect of a request carrying that allowance ever
      commits, in any continuation, and the allowance is never active again. */
  lemma RevocationIsFinal(now: Time, before: seq<Event>, user: string, tenant: string, a: nat, after: seq<Event>)
    requires var s := Run(now, before); MayRevoke(s.store, user, tenant, a) && !ShareLocked(s, a)
    ensures var t, t' := Run(now, before + [Revoke(user, tenant, a)]).store,
                         Run(now, before + [Revoke(user, tenant, a)] + after).store;
      IsRevoked(t, a) && IsRevoked(t', a) && QuietUnder(t, t', a)
  {
    RunAppends(now, before, [Revoke(user, tenant, a)]);
    assert before + [] == before;
    RevokedForGood(now, before + [Revoke(user, tenant, a)], after, a);
  }

  // ---- The approval gate ----

  /** Every committed effect of a capability that requires approval was approved by the
      requesting user, or submitted under that user's then unexpired allowance for the same
      grant, name and definition. */
  lemma ApprovalGate(now: Time, events: seq<Event>, e: Effect)
    requires e in Run(now, events).store.effects && e.definition.approval == Required
    ensures var t := Run(now, events).store;
      && e.request in t.actions && t.actions[e.request].definition == e.definition
      && t.actions[e.request].reviewedBy == Some(t.actions[e.request].identity.user)
      && Authorised(e.request, t.actions[e.request], t.approvals, t.grants, t.covered)
  {
    RunKeepsInv(now, events);
    EffectMeansCompleted(Run(now, events).store.effects, Run(now, events).store.actions, e);
  }

  /** The `Conflict` answer of `execute` is never given: whatever registry a process runs,
      an attempt that passed `current` has the review its capability requires. */
  lemma ConflictUnreachable(now: Time, events: seq<Event>, w: nat, resolved: Option<Principal>)
    requires var s := Run(now, events);
      w in s.attempts && s.attempts[w].Vetted? && s.attempts[w].request in s.store.actions &&
      Current(s.attempts[w].registry, s.store.actions[s.attempts[w].request], resolved)
    ensures var s := Run(now, events);
      !ConflictGuard(s.attempts[w].registry, s.store.actions[s.attempts[w].request])
  {
    RunKeepsInv(now, events);
    var s := Run(now, events);
    assert AttemptOk(s.store.actions, s.store.allowances, s.store.jobOf, s.attempts[w]);
  }

  lemma CommitsAddEffects(s: System, e: Event)
    requires Enabled(s, e) && !e.Commit? && !e.OrphanCommit?
    ensures Apply(s, e).store.effects == s.store.effects
  {
    if QueueOnly(e) {
      QueueOnlySteps(s, e);
    } else if e.Settle? {
      SettleAddsNoEffect(s.store, e.decision);
    }
  }

  lemma SettleAddsNoEffect(t: Store, d: Decision)
    ensures Settled(t, d).effects == t.effects
  {
    if SettleEarly(t, d).None? { SettledShape(t, d); }
  }

  lemma CommittedEffect(s: System, e: Event) returns (effect: Effect)
    requires AttemptsOk(s.attempts, s.store.actions, s.store.allowances, s.store.jobOf)
    requires OrphansOk(s.orphans, s.store.actions, s.store.allowances)
    requires Enabled(s, e) && (e.Commit? || e.OrphanCommit?) && Apply(s, e).store.effects != s.store.effects
    ensures EffectAdded(s.store, Apply(s, e).store, effect)
  {
    var t := s.store;
    var r, write := if e.Commit? then s.attempts[e.w].request else e.request,
                    if e.Commit? then s.attempts[e.w].write else s.orphans[e.request];
    assert e.Commit? ==> AttemptOk(t.actions, t.allowances, t.jobOf, s.attempts[e.w]);
    assert WriteOk(t.actions, t.allowances, r, write);
    assert Apply(s, e).store == Committed(t, r, write);
    effect := Effect(r, t.actions[r].definition, t.actions[r].allowance);
  }

  /** One effect more, under the allowance that its request carries, which is not revoked. */
  ghost predicate EffectAdded(t: Store, t': Store, effect: Effect) {
    && t'.effects == t.effects + [effect]
    && effect.request in t.actions && effect.allowance == t.actions[effect.request].allowance
    && LiveAllowance(t.allowances, effect.allowance)
  }

  /** Whatever step adds an effect, a worker's commit or one whose worker is gone, adds just one, and only while
      the allowance its request carries is unrevoked. */
  lemma EffectsRunUnderLiveAllowances(now: Time, events: seq<Event>, e: Event) returns (effect: Effect)
    requires var s := Run(now, events); Apply(s, e).store.effects != s.store.effects
    ensures var s := Run(now, events); EffectAdded(s.store, Apply(s, e).store, effect)
  {
    RunKeepsInv(now, events);
    var s := Run(now, events);
    if !e.Commit? && !e.OrphanCommit? { CommitsAddEffects(s, e); }
    effect := CommittedEffect(s, e);
  }
}
