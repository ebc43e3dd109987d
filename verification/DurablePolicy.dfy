/** Who may submit, decide and run what, and until when: the outcomes of `submit`, `settle` and `execute` in the
    columns of their rows, and over runs that nothing runs past its expiry. */
module DurablePolicy {
  import opened Wrappers
  import opened DurableActions
  import opened ActionStore
  import opened DurableSafety
  import opened DurableTheorems
  import Q = JobQueue
  import Runs = JobRuns

  // ---- What the rows say ----

  /** The allowance that a request carries, if any, is there and not revoked. */
  ghost predicate Stands(t: Store, row: ActionRow) {
    row.allowance.Some? ==> row.allowance.value in t.allowances && !t.allowances[row.allowance.value].revoked
  }

  ghost predicate Named(identity: Identity) {
    identity.user != "" && identity.tenant != "" && identity.client != "" && identity.grant != ""
  }

  /** The registry still has the definition, and the resolver the requester with its permission. */
  ghost predicate Registered(registry: Registry, row: ActionRow) {
    row.name in registry && registry[row.name] == row.definition
  }

  ghost predicate Permitted(principal: Option<Principal>, row: ActionRow) {
    && principal.Some? && principal.value.identity == row.identity && Named(row.identity)
    && row.definition.permission in principal.value.permissions
  }

  ghost predicate Reviewed(row: ActionRow) {
    row.definition.approval == Required ==> row.reviewedBy == Some(row.identity.user)
  }

  // ---- execute ----

  /** All that `execute` checks before it calls the handler. */
  ghost predicate MayRun(t: Store, row: ActionRow, registry: Registry, resolution: Resolution) {
    && row.expiresAt > t.jobs.now && Stands(t, row) && Registered(registry, row)
    && resolution.Resolved? && Permitted(resolution.principal, row) && Reviewed(row)
  }

  /** Where an undisturbed attempt at a queued request takes it: to each status exactly in these cases, with its
      effect exactly for a completion, and otherwise nowhere. */
  lemma ExecutesExactly(t: Store, request: nat, registry: Registry, resolution: Resolution, last: bool,
                        result: HandlerResult)
    requires request in t.actions && t.actions[request].status == Queued
    ensures var row, (t', outcome) := t.actions[request],
                                      Executed(t, request, registry, resolution, last, result, NoFault);
      && request in t'.actions
      && var end := t'.actions[request].status;
      && (end == Completed <==> MayRun(t, row, registry, resolution) && result.Done?)
      && (t'.effects == t.effects + if end == Completed then [Effect(request, row.definition, row.allowance)] else [])
      && (end == Failed <==>
            MayRun(t, row, registry, resolution) && result.Error? && (last || !result.retryable))
      && (end == Expired <==> row.expiresAt <= t.jobs.now)
      && (end == Invalidated <==>
            && row.expiresAt > t.jobs.now
            && (!Stands(t, row) || !Registered(registry, row) ||
                (resolution.Resolved? && !Permitted(resolution.principal, row))))
      && (end == Queued ==> t' == t && outcome.Failure?)
      && (outcome == Q.Success <==>
            end == Completed || end == Expired || end == Invalidated || (end == Failed && !result.retryable))
  {
    VerdictsExactly(t, t.actions[request], registry, resolution);
    assert t.effects + [] == t.effects;
  }

  lemma VerdictsExactly(t: Store, row: ActionRow, registry: Registry, resolution: Resolution)
    ensures var v := VerdictOn(t, row, registry, resolution);
      && (v == Stopped(Expired) <==> row.expiresAt <= t.jobs.now)
      && (v == Stopped(Invalidated) <==>
            && row.expiresAt > t.jobs.now
            && (!Stands(t, row) || !Registered(registry, row) ||
                (resolution.Resolved? && !Permitted(resolution.principal, row))))
      && (v.Cleared? <==> MayRun(t, row, registry, resolution))
      && (v.Stopped? ==> v.status == Expired || v.status == Invalidated)
  {
  }

  /** A statement that fails, or a COMMIT that fails without effect, leaves nothing behind; a COMMIT that fails after
      its effect leaves what it would have left; and what was to be written is then not answered with success. */
  lemma FaultsExactly(t: Store, request: nat, registry: Registry, resolution: Resolution, last: bool,
                      result: HandlerResult)
    ensures var fine := Executed(t, request, registry, resolution, last, result, NoFault);
      var lost := Executed(t, request, registry, resolution, last, result, CommitFails(false));
      var made := Executed(t, request, registry, resolution, last, result, CommitFails(true));
      && Executed(t, request, registry, resolution, last, result, StatementFails)
          == (t, Q.Failure("Agent action attempt failed", 0))
      && lost.0 == t && made.0 == fine.0
      && (fine.0 != t ==> lost.1 == made.1 == Q.Failure("Agent action attempt failed", 0))
      && (fine.0 == t ==> lost.1 == made.1 == fine.1)
  {
    if request in t.actions && t.actions[request].status == Queued {
      ExecutesExactly(t, request, registry, resolution, last, result);
    }
  }

  // ---- settle ----

  /** A decision of the requester's own user and tenant on a pending request, with an allowance that lasts up to a
      week and that the capability allows, or none. */
  ghost predicate Decides(t: Store, d: Decision) {
    && d.request in t.actions
    && var row := t.actions[d.request];
    && row.identity.user == d.user && row.identity.tenant == d.tenant && row.status == Pending
    && (d.allowFor.Some? ==>
          && 0 < d.allowFor.value <= 7 * 86_400 * Q.SECOND
          && row.name in d.registry && d.registry[row.name].allowances)
  }

  /** What such a decision comes to. */
  ghost function Decided(row: ActionRow, d: Decision): Status {
    if row.expiresAt <= d.readAt then Expired
    else if !d.approve then Rejected
    else if Registered(d.registry, row) && Permitted(d.resolved, row) then Queued
    else Invalidated
  }

  /** `settle` changes something exactly when it decides: the row, an allowance exactly when one was asked for and
      the request is queued, and a job exactly when it is queued. */
  lemma SettlesExactly(t: Store, d: Decision)
    ensures !Decides(t, d) ==> Settled(t, d) == t
    ensures Decides(t, d) ==>
      var row, t' := t.actions[d.request], Settled(t, d);
      var queued := Decided(row, d) == Queued;
      && t'.actions == t.actions[d.request := row.(status := Decided(row, d), reviewedBy := Some(d.user),
           allowance := if queued && d.allowFor.Some? then Some(d.target) else None)]
      && t'.allowances == (
           if queued && d.allowFor.Some? then
             t.allowances[d.target :=
               Allowance(row.identity, row.name, row.definition, d.readAt + d.allowFor.value, false)]
           else t.allowances)
      && (queued ==> IsQueuedBy(t.jobs, t'.jobs, d.request, d.runAt))
      && (!queued ==> t'.jobs == t.jobs)
  {
    DecidesIff(t, d);
    if Decides(t, d) {
      SettledShape(t, d);
      QueueAdds(t.jobs, d.request, d.runAt);
    }
  }

  lemma DecidesIff(t: Store, d: Decision)
    ensures SettleEarly(t, d).None? <==> Decides(t, d)
    ensures Decides(t, d) ==> SettleStatus(t.actions[d.request], d) == Decided(t.actions[d.request], d)
  {
  }

  /** The request's job is there, under the key of the request, unless that key is taken. */
  ghost predicate IsQueuedBy(jobs: Q.Queue, jobs': Q.Queue, request: nat, runAt: Time) {
    var key := Some(Q.ForAction(request));
    if exists id :: id in jobs.rows && jobs.rows[id].key == key then jobs' == jobs
    else
      jobs' == jobs.(nextId := jobs.nextId + 1, rows := jobs.rows[jobs.nextId :=
        Q.Row(None, "oxidt_agent_action", Q.ActionRequest(request), 0, runAt, jobs.now, key, Q.Pending, 0, 5,
              None, None, None, None)])
  }

  lemma QueueAdds(jobs: Q.Queue, request: nat, runAt: Time)
    ensures IsQueuedBy(jobs, Q.Enqueued(jobs, None, ACTION_KIND, Q.ActionRequest(request), 0, runAt,
                                        Some(Q.ForAction(request))), request, runAt)
  {
  }

  function SettleAnswer(t: Store, d: Decision): Result<Status, SettleError> {
    match SettleEarly(t, d)
    case Some(answer) => answer
    case None => Ok(SettleStatus(t.actions[d.request], d))
  }

  /** The same answer for a decision made before. */
  ghost predicate Repeats(row: ActionRow, d: Decision) {
    && (if d.approve then row.reviewedBy.Some? && (row.status == Queued || row.status == Completed)
        else row.status == Rejected)
    && (d.allowFor.Some? ==> row.allowance.Some?)
  }

  /** What `settle` answers, in every case. */
  lemma SettleAnswers(t: Store, d: Decision)
    ensures var answer := SettleAnswer(t, d);
      var lasts := d.allowFor.Some? ==> 0 < d.allowFor.value <= 7 * 86_400 * Q.SECOND;
      var own := d.request in t.actions && t.actions[d.request].identity.user == d.user &&
        t.actions[d.request].identity.tenant == d.tenant;
      && (answer == Err(InvalidAllowance) <==> !lasts)
      && (answer == Err(Unavailable) <==> lasts && !own)
      && (answer == Err(Conflict) <==>
            lasts && own && !Decides(t, d) && !Repeats(t.actions[d.request], d))
      && (Decides(t, d) ==> answer == Ok(Decided(t.actions[d.request], d)))
      && (answer.Ok? && !Decides(t, d) ==> answer == Ok(t.actions[d.request].status))
  {
  }

  /** The row an allowance is written to: the one of this grant and capability that is not revoked, or a new one. */
  lemma UpsertsExactly(t: Store, row: ActionRow, a: nat)
    ensures UpsertTarget(t, row, a) <==>
      || (a in t.allowances && !t.allowances[a].revoked &&
            t.allowances[a].identity == row.identity && t.allowances[a].name == row.name)
      || (a == t.nextAllowance && forall b :: b in t.allowances && !t.allowances[b].revoked ==>
            t.allowances[b].identity != row.identity || t.allowances[b].name != row.name)
  {
  }

  // ---- submit ----

  /** An allowance of exactly this grant and definition, neither revoked nor lapsed. */
  ghost predicate Usable(t: Store, p: Principal, d: Definition, a: nat) {
    && a in t.allowances && !t.allowances[a].revoked && t.allowances[a].expiresAt > t.jobs.now
    && t.allowances[a].identity == p.identity && t.allowances[a].name == d.name && t.allowances[a].definition == d
  }

  /** A submission that inserts its row: queued at once exactly when no approval is required or a usable allowance
      stands in for it; it lapses after a day. */
  lemma SubmitsExactly(t: Store, sub: Submission, runAt: Time)
    requires SeenOk(t, sub.principal, sub.definition, sub.seen) && sub.request !in t.actions
    ensures var t', d, identity := Submitted(t, sub, runAt), sub.definition, sub.principal.identity;
      var spared := d.approval == Required && d.allowances && exists a :: Usable(t, sub.principal, d, a);
      && (sub.seen.Some? <==> spared) && (spared ==> Usable(t, sub.principal, d, sub.seen.value))
      && t'.actions == t.actions[sub.request := ActionRow(identity, d.name, d, sub.arguments,
           if d.approval == NotRequired || spared then Queued else Pending, None,
           if spared then Some(identity.user) else None, sub.seen, t.jobs.now + 86_400 * Q.SECOND)]
      && t'.allowances == t.allowances
      && (if d.approval == NotRequired || spared then IsQueuedBy(t.jobs, t'.jobs, sub.request, runAt)
          else t'.jobs == t.jobs)
  {
    var d := sub.definition;
    assert forall a :: DurableActions.Matches(t, sub.principal, d, a) <==> Usable(t, sub.principal, d, a);
    QueueAdds(t.jobs, sub.request, runAt);
  }

  // ---- Over runs: nothing runs past its expiry ----

  /** The request has lapsed, and no attempt or COMMIT that passed the checks before is under way. */
  ghost predicate CannotRun(s: System, r: nat) {
    && r in s.store.actions && s.store.actions[r].expiresAt <= s.store.jobs.now
    && (forall w :: w in s.attempts && s.attempts[w].request == r ==> !MayCommitEffect(s.attempts[w]))
    && (r in s.orphans ==> !s.orphans[r].effect)
  }

  ghost predicate KeepsExpiry(t: Store, t': Store, r: nat) {
    r in t.actions && r in t'.actions && t'.actions[r].expiresAt == t.actions[r].expiresAt && t'.jobs.now >= t.jobs.now
  }

  lemma SettleKeepsExpiry(t: Store, d: Decision, r: nat)
    requires r in t.actions
    ensures KeepsExpiry(t, Settled(t, d), r)
  {
    SettlesExactly(t, d);
  }

  lemma SubmitKeepsExpiry(t: Store, sub: Submission, runAt: Time, r: nat)
    requires r in t.actions
    ensures KeepsExpiry(t, Submitted(t, sub, runAt), r)
  {
  }

  lemma QueueKeepsExpiry(s: System, e: Event, r: nat)
    requires Enabled(s, e) && QueueOnly(e) && r in s.store.actions
    ensures KeepsExpiry(s.store, Apply(s, e).store, r)
  {
    QueueOnlySteps(s, e);
    if e.Table? { Runs.TimeGrows(s.store.jobs, e.step); }
  }

  lemma StepKeepsExpiry(s: System, e: Event, r: nat)
    requires r in s.store.actions
    ensures KeepsExpiry(s.store, Apply(s, e).store, r)
  {
    if !Enabled(s, e) {
    } else if QueueOnly(e) {
      QueueKeepsExpiry(s, e, r);
    } else if e.Settle? {
      SettleKeepsExpiry(s.store, e.decision, r);
    } else if e.SubmitCommit? {
      SubmitKeepsExpiry(s.store, s.submissions[e.p], e.runAt, r);
    }
  }

  ghost predicate NoEffectOf(t: Store, t': Store, r: nat) {
    t'.effects == t.effects || exists eff :: t'.effects == t.effects + [eff] && eff.request != r
  }

  /** No attempt at a lapsed request passes the checks. */
  lemma AttemptStaysOut(s: System, e: Event, r: nat)
    requires CannotRun(s, r) && Enabled(s, e)
    requires AttemptsOk(s.attempts, s.store.actions, s.store.allowances, s.store.jobOf)
    ensures forall w :: w in Apply(s, e).attempts && Apply(s, e).attempts[w].request == r ==>
      !MayCommitEffect(Apply(s, e).attempts[w])
    ensures r in Apply(s, e).orphans ==> !Apply(s, e).orphans[r].effect
  {
  }

  lemma LapsedStep(s: System, e: Event, r: nat)
    requires CannotRun(s, r)
    requires AttemptsOk(s.attempts, s.store.actions, s.store.allowances, s.store.jobOf)
    ensures CannotRun(Apply(s, e), r) && NoEffectOf(s.store, Apply(s, e).store, r)
  {
    if Enabled(s, e) {
      StepKeepsExpiry(s, e, r);
      AttemptStaysOut(s, e, r);
      if !e.Commit? && !e.OrphanCommit? { CommitsAddEffects(s, e); }
    }
  }

  lemma {:induction false} LapsedForGood(now: Time, before: seq<Event>, after: seq<Event>, r: nat)
    requires CannotRun(Run(now, before), r)
    ensures CannotRun(Run(now, before + after), r)
    ensures Count(Run(now, before + after).store.effects, r) == Count(Run(now, before).store.effects, r)
  {
    if after == [] {
      assert before + after == before;
    } else {
      var init := after[..|after| - 1];
      LapsedForGood(now, before, init, r);
      RunKeepsInv(now, before + init);
      LapsedStep(Run(now, before + init), after[|after| - 1], r);
      RunAppends(now, before, after);
      NoEffectCount(Run(now, before + init).store, Run(now, before + after).store, r);
    }
  }

  lemma NoEffectCount(t: Store, t': Store, r: nat)
    requires NoEffectOf(t, t', r)
    ensures Count(t'.effects, r) == Count(t.effects, r)
  {
    if t'.effects != t.effects {
      var eff :| t'.effects == t.effects + [eff] && eff.request != r;
      CountAppend(t.effects, eff, r);
    }
  }

  /** An attempt that vets its request after its expiry never adds the effect, and no other attempt does either:
      from there on, in every continuation, the request has no effect. */
  lemma LapsedNeverRuns(now: Time, before: seq<Event>, w: nat, after: seq<Event>)
    requires var s := Run(now, before);
      Enabled(s, Vet(w)) && s.store.actions[s.attempts[w].request].expiresAt <= s.store.jobs.now
    ensures var r := Run(now, before).attempts[w].request;
      Count(Run(now, before + [Vet(w)] + after).store.effects, r) == 0
  {
    var s := Run(now, before);
    var r := s.attempts[w].request;
    RunKeepsInv(now, before);
    RunAppends(now, before, [Vet(w)]);
    assert before + [] == before;
    VettedTooLate(s, w);
    LapsedForGood(now, before + [Vet(w)], after, r);
    assert Count(s.store.effects, r) == 0;
  }

  lemma VettedTooLate(s: System, w: nat)
    requires Enabled(s, Vet(w)) && s.store.actions[s.attempts[w].request].expiresAt <= s.store.jobs.now
    requires LocksApart(s.attempts, s.orphans)
    ensures CannotRun(Apply(s, Vet(w)), s.attempts[w].request)
    ensures Apply(s, Vet(w)).store == s.store
  {
    var r := s.attempts[w].request;
    forall v | v in s.attempts && s.attempts[v].request == r && MayCommitEffect(s.attempts[v]) ensures v == w {
      assert SameLock(s.attempts[v], s.attempts[w]);
    }
  }
}
