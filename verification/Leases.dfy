/** Timed lease keeping: many workers, each running `claim`, `attempt` and
    `acknowledge` against one job table, with arbitrary delays between sending a
    statement, its effect and its reply, and crashes anywhere.

    Assumed: local timers and the database clock advance together, and an
    attempt is dropped no later than its `give_up_at`. The parameter `delay`
    bounds how long after its effect a claim's reply may start the attempt. */
module Leases {
  import opened Wrappers
  import opened JobQueue
  import Runs = JobRuns

  /** Where `keep_lease` is in its loop. */
  datatype Keeping =
    | Sleeping(wakeAt: Time)
    | Renewing(started: Time)
    | Answered(started: Time, renewed: bool)

  datatype Worker =
    | Idle
    | ClaimApplied(id: nat, token: nat, appliedAt: Time)
    | Attempting(id: nat, token: nat, giveUpAt: Time, keeping: Keeping, confirmed: bool)
    | Acknowledging(id: nat, token: nat, outcome: Outcome)

  /** `lateRenewals` and `lateAcks` are statements whose sender no longer waits for them:
      the database may still apply each of them, at any time. */
  datatype System = System(
    queue: Queue,
    workers: map<nat, Worker>,
    lateRenewals: set<(nat, nat)>,
    lateAcks: set<(nat, nat, Outcome)>)

  datatype Event =
    | Other(step: Runs.Step)
    | ClaimApply(w: nat, id: nat)
    | ClaimReply(w: nat)
    | ClaimLost(w: nat)
    | Wake(w: nat)
    | RenewApply(w: nat)
    | RenewReply(w: nat)
    | RenewError(w: nat)
    | GiveUp(w: nat)
    | Finish(w: nat, outcome: Outcome)
    | AckApply(w: nat)
    | AckError(w: nat)
    | Crash(w: nat)
    | LateRenew(id: nat, token: nat)
    | LateAck(id: nat, token: nat, outcome: Outcome)

  function WorkerAt(s: System, w: nat): Worker {
    if w in s.workers then s.workers[w] else Idle
  }

  ghost predicate Executing(s: System, w: nat, id: nat) {
    WorkerAt(s, w).Attempting? && WorkerAt(s, w).id == id
  }

  function Put(s: System, w: nat, worker: Worker): System {
    s.(workers := s.workers[w := worker])
  }

  /** Leave the attempt; a renewal still in flight stays with the database. */
  function Drop(s: System, w: nat): System {
    var worker := WorkerAt(s, w);
    if worker.Attempting? && worker.keeping.Renewing? then
      Put(s, w, Idle).(lateRenewals := s.lateRenewals + {(worker.id, worker.token)})
    else if worker.Acknowledging? then
      Put(s, w, Idle).(lateAcks := s.lateAcks + {(worker.id, worker.token, worker.outcome)})
    else Put(s, w, Idle)
  }

  /** What the handler's timers allow: no attempt outlives its `give_up_at`. */
  ghost predicate TimersAllow(s: System, elapsed: nat) {
    forall w :: w in s.workers && s.workers[w].Attempting? ==> s.queue.now + elapsed <= s.workers[w].giveUpAt
  }

  /** Statements of other code: everything but claims and acknowledgements of held tokens. */
  ghost predicate OtherAllowed(s: System, step: Runs.Step) {
    match step
    case Tick(elapsed) => TimersAllow(s, elapsed)
    case Enqueue(_, _, _, _, _, _) => true
    case Sweep => true
    case Prune(_) => true
    case _ => false
  }

  ghost predicate Enabled(delay: nat, s: System, e: Event) {
    var now := s.queue.now;
    match e
    case Other(step) => OtherAllowed(s, step)
    case ClaimApply(w, id) => WorkerAt(s, w).Idle? && id in s.queue.rows && Eligible(s.queue.rows[id], now)
    case ClaimReply(w) => WorkerAt(s, w).ClaimApplied? && now <= WorkerAt(s, w).appliedAt + delay
    case ClaimLost(w) => WorkerAt(s, w).ClaimApplied?
    case Wake(w) => WorkerAt(s, w).Attempting? && WorkerAt(s, w).keeping.Sleeping? &&
      WorkerAt(s, w).keeping.wakeAt <= now < WorkerAt(s, w).giveUpAt
    case RenewApply(w) => WorkerAt(s, w).Attempting? && WorkerAt(s, w).keeping.Renewing?
    case RenewReply(w) => WorkerAt(s, w).Attempting? && WorkerAt(s, w).keeping.Answered?
    case RenewError(w) => WorkerAt(s, w).Attempting? && !WorkerAt(s, w).keeping.Sleeping?
    case GiveUp(w) => WorkerAt(s, w).Attempting? && now >= WorkerAt(s, w).giveUpAt
    case Finish(w, outcome) => WorkerAt(s, w).Attempting?
    case AckApply(w) => WorkerAt(s, w).Acknowledging?
    case AckError(w) => WorkerAt(s, w).Acknowledging?
    case Crash(w) => true
    case LateRenew(id, token) => (id, token) in s.lateRenewals
    case LateAck(id, token, outcome) => (id, token, outcome) in s.lateAcks
  }

  function NextWake(giveUpAt: Time, now: Time): Time { Min(giveUpAt, now + RENEWAL) }

  ghost function Effect(s: System, e: Event): System {
    var now := s.queue.now;
    match e
    case Other(step) => s.(queue := Runs.Apply(s.queue, step))
    case ClaimApply(w, id) =>
      if id in s.queue.rows then
        Put(s, w, ClaimApplied(id, s.queue.nextToken, now)).(queue := Claimed(s.queue, id))
      else s
    case ClaimReply(w) =>
      var worker, giveUpAt := WorkerAt(s, w), now + 2 * RENEWAL;
      if worker.ClaimApplied? then
        Put(s, w, Attempting(worker.id, worker.token, giveUpAt, Sleeping(NextWake(giveUpAt, now)), false))
      else s
    case ClaimLost(w) => Drop(s, w)
    case Wake(w) =>
      var worker := WorkerAt(s, w);
      if worker.Attempting? then Put(s, w, worker.(keeping := Renewing(now))) else s
    case RenewApply(w) =>
      var worker := WorkerAt(s, w);
      if worker.Attempting? && worker.keeping.Renewing? then
        Put(s, w, worker.(keeping := Answered(worker.keeping.started, Holds(s.queue, worker.id, worker.token))))
          .(queue := Renewed(s.queue, worker.id, worker.token))
      else s
    case RenewReply(w) =>
      var worker := WorkerAt(s, w);
      if worker.Attempting? && worker.keeping.Answered? then
        if worker.keeping.renewed then
          var giveUpAt := worker.keeping.started + 2 * RENEWAL;
          Put(s, w, worker.(giveUpAt := giveUpAt, keeping := Sleeping(NextWake(giveUpAt, now)), confirmed := true))
        else Drop(s, w)
      else s
    case RenewError(w) =>
      var worker := WorkerAt(s, w);
      if worker.Attempting? then
        var s' := Put(s, w, worker.(keeping := Sleeping(NextWake(worker.giveUpAt, now))));
        if worker.keeping.Renewing? then s'.(lateRenewals := s.lateRenewals + {(worker.id, worker.token)}) else s'
      else s
    case GiveUp(w) => Drop(s, w)
    case Finish(w, outcome) =>
      var worker := WorkerAt(s, w);
      if worker.Attempting? then
        var s' := Drop(s, w);
        Put(s', w, Acknowledging(worker.id, worker.token, outcome))
      else s
    case AckApply(w) =>
      var worker := WorkerAt(s, w);
      if worker.Acknowledging? then
        Put(s, w, Idle).(queue := Acknowledged(s.queue, worker.id, worker.token, worker.outcome))
      else s
    case AckError(w) => Drop(s, w)
    case Crash(w) => Drop(s, w)
    case LateRenew(id, token) => s.(queue := Renewed(s.queue, id, token))
    case LateAck(id, token, outcome) => s.(queue := Acknowledged(s.queue, id, token, outcome))
  }

  ghost function Apply(delay: nat, s: System, e: Event): System {
    if Enabled(delay, s, e) then Effect(s, e) else s
  }

  ghost function Run(delay: nat, events: seq<Event>): System {
    if events == [] then System(EmptyQueue(0), map[], {}, {})
    else Apply(delay, Run(delay, events[..|events| - 1]), events[|events| - 1])
  }

  /** At most one worker executes a given job. */
  ghost predicate Exclusive(s: System) {
    forall v, w, id {:trigger Executing(s, v, id), Executing(s, w, id)} ::
      Executing(s, v, id) && Executing(s, w, id) ==> v == w
  }

  // ---- The invariant ----

  ghost predicate HasToken(worker: Worker) { !worker.Idle? }

  ghost predicate SameToken(a: Worker, b: Worker) {
    HasToken(a) && HasToken(b) && a.token == b.token
  }

  /** A claim that may still start an attempt, or an attempt, keeps its row until it must stop. */
  ghost predicate WorkerOk(delay: nat, q: Queue, worker: Worker) {
    match worker
    case Idle => true
    case ClaimApplied(id, token, appliedAt) =>
      && token < q.nextToken && appliedAt <= q.now
      && (q.now <= appliedAt + LEASE ==> Holds(q, id, token) && LeaseEnd(q, id) >= appliedAt + LEASE)
    case Attempting(id, token, giveUpAt, keeping, confirmed) =>
      && token < q.nextToken
      && q.now <= giveUpAt <= q.now + 2 * RENEWAL
      && Holds(q, id, token)
      && giveUpAt <= LeaseEnd(q, id) && giveUpAt + RENEWAL <= LeaseEnd(q, id) + delay
      && (confirmed ==> giveUpAt + RENEWAL <= LeaseEnd(q, id))
      && (!keeping.Sleeping? ==> keeping.started <= q.now && giveUpAt <= keeping.started + 2 * RENEWAL)
      && (keeping.Answered? ==> (keeping.renewed ==> LeaseEnd(q, id) >= keeping.started + LEASE))
    case Acknowledging(id, token, outcome) => token < q.nextToken
  }

  function LeaseEnd(q: Queue, id: nat): Time {
    if id in q.rows && q.rows[id].leaseUntil.Some? then q.rows[id].leaseUntil.value else q.now - 1
  }

  ghost predicate TokensApart(s: System) {
    && (forall v, w :: v in s.workers && w in s.workers && SameToken(s.workers[v], s.workers[w]) ==> v == w)
    && (forall a :: a in s.lateAcks ==> a.1 < s.queue.nextToken)
    && (forall a, w :: a in s.lateAcks && w in s.workers && HasToken(s.workers[w]) ==> s.workers[w].token != a.1)
  }

  ghost predicate Inv(delay: nat, s: System) {
    && Valid(s.queue)
    && TokensApart(s)
    && (forall w :: w in s.workers ==> WorkerOk(delay, s.queue, s.workers[w]))
  }

  // ---- How a change to the table affects the workers it does not concern ----

  /** Rows under an unexpired lease keep it, unless their own token acts. */
  ghost predicate Respects(q: Queue, q': Queue, token: nat) {
    && q'.now == q.now && q'.nextToken >= q.nextToken
    && (forall id, t {:trigger Holds(q, id, t)} :: Holds(q, id, t) && t != token && q.now <= LeaseEnd(q, id) ==>
          Holds(q', id, t) && LeaseEnd(q', id) >= LeaseEnd(q, id))
  }

  lemma OthersKeep(delay: nat, q: Queue, q': Queue, token: nat, worker: Worker)
    requires Respects(q, q', token) && WorkerOk(delay, q, worker) && (HasToken(worker) ==> worker.token != token)
    ensures WorkerOk(delay, q', worker)
  {
  }

  lemma ClaimRespects(q: Queue, id: nat)
    requires Valid(q) && id in q.rows && Eligible(q.rows[id], q.now)
    ensures Respects(q, Claimed(q, id), q.nextToken)
  {
    assert RowOk(q.rows[id], q.now);
  }

  lemma RenewRespects(q: Queue, id: nat, token: nat)
    requires Valid(q)
    ensures Respects(q, Renewed(q, id, token), q.nextToken)
  {
    if Holds(q, id, token) { assert RowOk(q.rows[id], q.now); }
    assert TokensOk(q);
  }

  lemma AcknowledgeRespects(q: Queue, id: nat, token: nat, outcome: Outcome)
    requires Valid(q)
    ensures Respects(q, Acknowledged(q, id, token, outcome), token)
  {
  }

  lemma OtherRespects(q: Queue, step: Runs.Step)
    requires Valid(q) && (step.Enqueue? || step.Sweep? || step.Prune?)
    ensures Respects(q, Runs.Apply(q, step), q.nextToken)
  {
    assert RowsOk(q) && TokensOk(q);
  }

  /** One worker and the table change; the change respects the leases of all the others. */
  lemma OneWorkerChanges(delay: nat, s: System, s': System, w: nat, worker: Worker, token: nat)
    requires Inv(delay, s) && Valid(s'.queue) && TokensApart(s')
    requires s'.workers == s.workers[w := worker] && WorkerOk(delay, s'.queue, worker)
    requires Respects(s.queue, s'.queue, token)
    requires forall v :: v in s.workers && v != w && HasToken(s.workers[v]) ==> s.workers[v].token != token
    ensures Inv(delay, s')
  {
    forall v | v in s'.workers ensures WorkerOk(delay, s'.queue, s'.workers[v]) {
      if v != w { OthersKeep(delay, s.queue, s'.queue, token, s.workers[v]); }
    }
  }

  lemma TableChanges(delay: nat, s: System, s': System, token: nat)
    requires Inv(delay, s) && Valid(s'.queue)
    requires s' == s.(queue := s'.queue) && Respects(s.queue, s'.queue, token)
    requires forall v :: v in s.workers && HasToken(s.workers[v]) ==> s.workers[v].token != token
    ensures Inv(delay, s')
  {
    forall v | v in s'.workers ensures WorkerOk(delay, s'.queue, s'.workers[v]) {
      OthersKeep(delay, s.queue, s'.queue, token, s.workers[v]);
    }
  }

  lemma TokensBelowNext(delay: nat, s: System)
    requires Inv(delay, s)
    ensures forall v :: v in s.workers && HasToken(s.workers[v]) ==> s.workers[v].token < s.queue.nextToken
  {
    forall v | v in s.workers && HasToken(s.workers[v]) ensures s.workers[v].token < s.queue.nextToken {
      assert WorkerOk(delay, s.queue, s.workers[v]);
    }
  }

  lemma DropKeepsInv(delay: nat, s: System, w: nat)
    requires Inv(delay, s)
    ensures Inv(delay, Drop(s, w)) && WorkerAt(Drop(s, w), w).Idle?
  {
    var s' := Drop(s, w);
    TokensBelowNext(delay, s);
    OneWorkerChanges(delay, s, s', w, Idle, s.queue.nextToken);
  }

  lemma TickKeepsInv(delay: nat, s: System, elapsed: nat)
    requires Inv(delay, s) && TimersAllow(s, elapsed)
    ensures Inv(delay, s.(queue := Ticked(s.queue, elapsed)))
  {
    var s' := s.(queue := Ticked(s.queue, elapsed));
    forall w | w in s'.workers ensures WorkerOk(delay, s'.queue, s'.workers[w]) {
      assert WorkerOk(delay, s.queue, s.workers[w]);
    }
  }

  lemma ClaimApplyKeepsInv(delay: nat, s: System, w: nat, id: nat)
    requires Inv(delay, s) && WorkerAt(s, w).Idle? && id in s.queue.rows && Eligible(s.queue.rows[id], s.queue.now)
    ensures Inv(delay, Effect(s, ClaimApply(w, id)))
  {
    var s' := Effect(s, ClaimApply(w, id));
    TokensBelowNext(delay, s);
    ClaimKeepsValid(s.queue, id);
    ClaimRespects(s.queue, id);
    OneWorkerChanges(delay, s, s', w, s'.workers[w], s.queue.nextToken);
  }

  /** The first `give_up_at` is safe because the reply was prompt. */
  lemma ClaimReplyKeepsInv(delay: nat, s: System, w: nat)
    requires Inv(delay, s) && delay <= RENEWAL && Enabled(delay, s, ClaimReply(w))
    ensures Inv(delay, Effect(s, ClaimReply(w)))
  {
    var s' := Effect(s, ClaimReply(w));
    assert WorkerOk(delay, s.queue, s.workers[w]);
    TokensBelowNext(delay, s);
    OneWorkerChanges(delay, s, s', w, s'.workers[w], s.queue.nextToken);
  }

  lemma RenewApplyKeepsInv(delay: nat, s: System, w: nat)
    requires Inv(delay, s) && WorkerAt(s, w).Attempting? && WorkerAt(s, w).keeping.Renewing?
    ensures Inv(delay, Effect(s, RenewApply(w)))
  {
    var s' := Effect(s, RenewApply(w));
    var worker := s.workers[w];
    assert WorkerOk(delay, s.queue, worker);
    TokensBelowNext(delay, s);
    RenewKeepsValid(s.queue, worker.id, worker.token);
    RenewRespects(s.queue, worker.id, worker.token);
    OthersKeep(delay, s.queue, s'.queue, s.queue.nextToken, worker);
    OneWorkerChanges(delay, s, s', w, s'.workers[w], s.queue.nextToken);
  }

  /** The steps of `keep_lease` that leave the table alone. */
  lemma KeepingKeepsInv(delay: nat, s: System, e: Event)
    requires Inv(delay, s) && Enabled(delay, s, e) && (e.Wake? || e.RenewReply? || e.RenewError?)
    ensures Inv(delay, Effect(s, e))
  {
    var s' := Effect(s, e);
    assert WorkerOk(delay, s.queue, s.workers[e.w]);
    TokensBelowNext(delay, s);
    if e.RenewReply? && !s.workers[e.w].keeping.renewed {
      DropKeepsInv(delay, s, e.w);
    } else {
      OneWorkerChanges(delay, s, s', e.w, s'.workers[e.w], s.queue.nextToken);
    }
  }

  lemma KeepsToken(s: System, w: nat, worker: Worker)
    requires TokensApart(s) && w in s.workers && SameToken(s.workers[w], worker)
    ensures TokensApart(Put(s, w, worker))
  {
  }

  lemma FinishKeepsInv(delay: nat, s: System, w: nat, outcome: Outcome)
    requires Inv(delay, s) && WorkerAt(s, w).Attempting?
    ensures Inv(delay, Effect(s, Finish(w, outcome)))
  {
    var s', done := Effect(s, Finish(w, outcome)), Acknowledging(s.workers[w].id, s.workers[w].token, outcome);
    FinishShape(s, w, outcome);
    assert WorkerOk(delay, s.queue, s.workers[w]);
    TokensBelowNext(delay, s);
    KeepsToken(s, w, done);
    OneWorkerChanges(delay, s, s', w, done, s.queue.nextToken);
  }

  lemma FinishShape(s: System, w: nat, outcome: Outcome)
    requires WorkerAt(s, w).Attempting?
    ensures var s', worker := Effect(s, Finish(w, outcome)), s.workers[w];
      && s'.queue == s.queue && s'.lateAcks == s.lateAcks
      && s'.workers == s.workers[w := Acknowledging(worker.id, worker.token, outcome)]
  {
    assert Drop(s, w).workers == s.workers[w := Idle];
  }

  lemma AckApplyKeepsInv(delay: nat, s: System, w: nat)
    requires Inv(delay, s) && WorkerAt(s, w).Acknowledging?
    ensures Inv(delay, Effect(s, AckApply(w)))
  {
    var worker := s.workers[w];
    assert WorkerOk(delay, s.queue, worker);
    AcknowledgeKeepsValid(s.queue, worker.id, worker.token, worker.outcome);
    AcknowledgeRespects(s.queue, worker.id, worker.token, worker.outcome);
    assert forall v :: v in s.workers && v != w ==> !SameToken(s.workers[v], worker);
    OneWorkerChanges(delay, s, Effect(s, AckApply(w)), w, Idle, worker.token);
  }

  lemma ApplyKeepsInv(delay: nat, s: System, e: Event)
    requires Inv(delay, s) && delay <= RENEWAL
    ensures Inv(delay, Apply(delay, s, e))
  {
    if Enabled(delay, s, e) {
      match e
      case Other(step) =>
        Runs.ApplyKeepsValid(s.queue, step);
        if step.Tick? {
          TickKeepsInv(delay, s, step.elapsed);
        } else {
          OtherRespects(s.queue, step);
          TokensBelowNext(delay, s);
          TableChanges(delay, s, Effect(s, e), s.queue.nextToken);
        }
      case ClaimApply(w, id) => ClaimApplyKeepsInv(delay, s, w, id);
      case ClaimReply(w) => ClaimReplyKeepsInv(delay, s, w);
      case Wake(w) => KeepingKeepsInv(delay, s, e);
      case RenewReply(w) => KeepingKeepsInv(delay, s, e);
      case RenewError(w) => KeepingKeepsInv(delay, s, e);
      case RenewApply(w) => RenewApplyKeepsInv(delay, s, w);
      case Finish(w, outcome) => FinishKeepsInv(delay, s, w, outcome);
      case AckApply(w) => AckApplyKeepsInv(delay, s, w);
      case ClaimLost(w) => DropKeepsInv(delay, s, w);
      case GiveUp(w) => DropKeepsInv(delay, s, w);
      case AckError(w) => DropKeepsInv(delay, s, w);
      case Crash(w) => DropKeepsInv(delay, s, w);
      case LateRenew(id, token) =>
        RenewKeepsValid(s.queue, id, token);
        RenewRespects(s.queue, id, token);
        TokensBelowNext(delay, s);
        TableChanges(delay, s, Effect(s, e), s.queue.nextToken);
      case LateAck(id, token, outcome) =>
        AcknowledgeKeepsValid(s.queue, id, token, outcome);
        AcknowledgeRespects(s.queue, id, token, outcome);
        assert (id, token, outcome) in s.lateAcks;
        TableChanges(delay, s, Effect(s, e), token);
    }
  }

  lemma {:induction false} RunKeepsInv(delay: nat, events: seq<Event>)
    requires delay <= RENEWAL
    ensures Inv(delay, Run(delay, events))
  {
    if events != [] {
      RunKeepsInv(delay, events[..|events| - 1]);
      ApplyKeepsInv(delay, Run(delay, events[..|events| - 1]), events[|events| - 1]);
    }
  }

  // ---- The main results ----

  /** In every run, an executing worker holds its row's token under an unexpired lease, with a renewal
      period to spare less the delay of the claim's reply, and a whole one once a renewal was confirmed. */
  lemma ExecutingHoldsLease(delay: nat, events: seq<Event>, w: nat, id: nat)
    requires delay <= RENEWAL && Executing(Run(delay, events), w, id)
    ensures var s := Run(delay, events);
      && Holds(s.queue, id, s.workers[w].token)
      && s.queue.now <= s.workers[w].giveUpAt <= LeaseEnd(s.queue, id)
      && s.workers[w].giveUpAt + RENEWAL <= LeaseEnd(s.queue, id) + delay
      && (s.workers[w].confirmed ==> s.workers[w].giveUpAt + RENEWAL <= LeaseEnd(s.queue, id))
      && !Eligible(s.queue.rows[id], s.queue.now)
  {
    RunKeepsInv(delay, events);
    var s := Run(delay, events);
    assert WorkerOk(delay, s.queue, s.workers[w]);
  }

  /** Timed mutual exclusion. */
  lemma MutualExclusion(delay: nat, events: seq<Event>)
    requires delay <= RENEWAL
    ensures Exclusive(Run(delay, events))
  {
    var s := Run(delay, events);
    forall v, w, id {:trigger Executing(s, v, id), Executing(s, w, id)} | Executing(s, v, id) && Executing(s, w, id)
      ensures v == w
    {
      ExecutingHoldsLease(delay, events, v, id);
      ExecutingHoldsLease(delay, events, w, id);
      RunKeepsInv(delay, events);
      assert SameToken(s.workers[v], s.workers[w]);
    }
  }

  // ---- The loop of `keep_lease` ----

  datatype Answer = Extended | Refused | Errored

  /** What one pass of the loop meets: how late its timer fires, what the renewal brings back, and how
      long after it was sent. */
  datatype Round = Round(late: nat, answer: Answer, took: nat)

  /** Where a pass leaves the loop: asleep again from `now` on, or out of it. */
  datatype Pass = Goes(giveUpAt: Time, now: Time) | Stops

  /** When a round that sleeps from `now` on sends its renewal. */
  function SentAt(giveUpAt: Time, now: Time, round: Round): Time { NextWake(giveUpAt, now) + round.late }

  /** A pass ends the attempt when it is too late to send, unanswered by the deadline, or refused. */
  function AfterRound(giveUpAt: Time, now: Time, round: Round): Pass {
    var started := SentAt(giveUpAt, now, round);
    if started >= giveUpAt || started + round.took > giveUpAt || round.answer.Refused? then Stops
    else Goes(if round.answer.Extended? then started + 2 * RENEWAL else giveUpAt, started + round.took)
  }

  ghost function AfterRounds(start: Time, rounds: seq<Round>): Pass {
    if rounds == [] then Goes(start + 2 * RENEWAL, start)
    else
      var before := AfterRounds(start, rounds[..|rounds| - 1]);
      if before.Stops? then Stops else AfterRound(before.giveUpAt, before.now, rounds[|rounds| - 1])
  }

  /** When the last confirmed renewal was sent; the start of the attempt if none was. */
  ghost function LastConfirmed(start: Time, rounds: seq<Round>): Time {
    if rounds == [] then start
    else
      var before, last := AfterRounds(start, rounds[..|rounds| - 1]), rounds[|rounds| - 1];
      if last.answer.Extended? && before.Goes? then SentAt(before.giveUpAt, before.now, last)
      else LastConfirmed(start, rounds[..|rounds| - 1])
  }

  lemma NextRound(start: Time, rounds: seq<Round>, n: nat)
    requires n < |rounds|
    ensures rounds[..n + 1][..n] == rounds[..n] && rounds[..n + 1][n] == rounds[n]
  {
  }

  /** Stops at the first round that ends the attempt. Until then the deadline is two periods after
      the last confirmed renewal was sent, whatever failed in between. */
  method KeepLease(start: Time, rounds: seq<Round>) returns (passed: nat, giveUpAt: Time, now: Time)
    ensures passed <= |rounds|
    ensures AfterRounds(start, rounds[..passed]) == Goes(giveUpAt, now)
    ensures giveUpAt == LastConfirmed(start, rounds[..passed]) + 2 * RENEWAL
    ensures passed < |rounds| ==> AfterRound(giveUpAt, now, rounds[passed]).Stops?
  {
    giveUpAt, now := start + 2 * RENEWAL, start;
    passed := 0;
    while passed < |rounds|
      invariant passed <= |rounds|
      invariant AfterRounds(start, rounds[..passed]) == Goes(giveUpAt, now)
      invariant giveUpAt == LastConfirmed(start, rounds[..passed]) + 2 * RENEWAL
    {
      var round := rounds[passed];
      NextRound(start, rounds, passed);
      var started := NextWake(giveUpAt, now) + round.late;
      if started >= giveUpAt || started + round.took > giveUpAt {
        break;
      }
      match round.answer {
        case Extended => giveUpAt := started + 2 * RENEWAL;
        case Refused => break;
        case Errored =>
      }
      now := started + round.took;
      passed := passed + 1;
    }
  }

  // ---- Every attempt runs the loop ----

  /** The worker is where the loop is after a pass that left it at `at`: asleep, or past its timer with a
      renewal sent in time. */
  ghost predicate IsAt(worker: Worker, now: Time, at: Pass) {
    && worker.Attempting? && at.Goes? && worker.giveUpAt == at.giveUpAt
    && at.now <= now <= at.giveUpAt <= at.now + 2 * RENEWAL
    && match worker.keeping
       case Sleeping(wakeAt) => wakeAt == NextWake(at.giveUpAt, at.now)
       case Renewing(started) => NextWake(at.giveUpAt, at.now) <= started <= now && started < at.giveUpAt
       case Answered(started, _) => NextWake(at.giveUpAt, at.now) <= started <= now && started < at.giveUpAt
  }

  /** The attempt started at `start` and has met `rounds`. */
  ghost predicate RunsLoop(worker: Worker, now: Time, start: Time, rounds: seq<Round>) {
    IsAt(worker, now, AfterRounds(start, rounds)) && (worker.confirmed <==> HasExtended(rounds))
  }

  predicate HasExtended(rounds: seq<Round>) { exists i :: 0 <= i < |rounds| && rounds[i].answer.Extended? }

  lemma RoundsAppend(start: Time, rounds: seq<Round>, round: Round)
    ensures AfterRounds(start, rounds + [round]) ==
      var before := AfterRounds(start, rounds);
      if before.Stops? then Stops else AfterRound(before.giveUpAt, before.now, round)
    ensures HasExtended(rounds + [round]) <==> HasExtended(rounds) || round.answer.Extended?
  {
    var all := rounds + [round];
    assert all[..|rounds|] == rounds && all[|rounds|] == round;
    if HasExtended(rounds) {
      var i :| 0 <= i < |rounds| && rounds[i].answer.Extended?;
      assert all[i].answer.Extended?;
    }
  }

  /** The round a worker is in when its renewal is answered now. */
  function RoundOf(at: Pass, started: Time, now: Time, answer: Answer): Round
    requires at.Goes? && NextWake(at.giveUpAt, at.now) <= started <= now
  {
    Round(started - NextWake(at.giveUpAt, at.now), answer, now - started)
  }

  /** An answer ends a round, and the loop goes on exactly when the worker does. */
  lemma ReplyEndsRound(s: System, w: nat, start: Time, rounds: seq<Round>, round: Round)
    requires RunsLoop(WorkerAt(s, w), s.queue.now, start, rounds) && WorkerAt(s, w).keeping.Answered?
    requires var keeping := WorkerAt(s, w).keeping;
      round == RoundOf(AfterRounds(start, rounds), keeping.started, s.queue.now,
                       if keeping.renewed then Extended else Refused)
    ensures var worker' := WorkerAt(Effect(s, RenewReply(w)), w);
      if worker'.Attempting? then RunsLoop(worker', s.queue.now, start, rounds + [round])
      else AfterRounds(start, rounds + [round]).Stops?
  {
    RoundsAppend(start, rounds, round);
  }

  lemma ErrorEndsRound(s: System, w: nat, start: Time, rounds: seq<Round>, round: Round)
    requires RunsLoop(WorkerAt(s, w), s.queue.now, start, rounds) && !WorkerAt(s, w).keeping.Sleeping?
    requires round == RoundOf(AfterRounds(start, rounds), WorkerAt(s, w).keeping.started, s.queue.now, Errored)
    ensures RunsLoop(WorkerAt(Effect(s, RenewError(w)), w), s.queue.now, start, rounds + [round])
  {
    var at := AfterRounds(start, rounds);
    RoundsAppend(start, rounds, round);
    ErrorPasses(at.giveUpAt, at.now, round, WorkerAt(s, w).keeping.started, s.queue.now);
  }

  lemma ErrorPasses(giveUpAt: Time, slept: Time, round: Round, started: Time, now: Time)
    requires NextWake(giveUpAt, slept) <= started < giveUpAt && started <= now <= giveUpAt
    requires round == Round(started - NextWake(giveUpAt, slept), Errored, now - started)
    ensures AfterRound(giveUpAt, slept, round) == Goes(giveUpAt, now)
  {
  }

  /** A worker's own steps, other than leaving, are a pass of the loop or part of one. */
  lemma OwnStepRunsLoop(delay: nat, s: System, e: Event, w: nat, start: Time, rounds: seq<Round>)
    returns (rounds': seq<Round>)
    requires Enabled(delay, s, e) && RunsLoop(WorkerAt(s, w), s.queue.now, start, rounds)
    requires e == Wake(w) || e == RenewApply(w) || e == RenewReply(w) || e == RenewError(w)
    ensures WorkerAt(Effect(s, e), w).Attempting? ==> RunsLoop(WorkerAt(Effect(s, e), w), s.queue.now, start, rounds')
  {
    var worker, at := WorkerAt(s, w), AfterRounds(start, rounds);
    rounds' := rounds;
    if e.RenewReply? {
      var answer := if worker.keeping.renewed then Extended else Refused;
      var round := RoundOf(at, worker.keeping.started, s.queue.now, answer);
      ReplyEndsRound(s, w, start, rounds, round);
      rounds' := rounds + [round];
    } else if e.RenewError? {
      var round := RoundOf(at, worker.keeping.started, s.queue.now, Errored);
      ErrorEndsRound(s, w, start, rounds, round);
      rounds' := rounds + [round];
    }
  }

  /** Steps of others leave a worker alone, and time stops at its deadline. */
  lemma OthersKeepAttempt(delay: nat, s: System, e: Event, w: nat)
    requires WorkerAt(Apply(delay, s, e), w).Attempting? && WorkerAt(s, w).Attempting?
    requires e != Wake(w) && e != RenewApply(w) && e != RenewReply(w) && e != RenewError(w)
    ensures WorkerAt(Apply(delay, s, e), w) == WorkerAt(s, w)
    ensures s.queue.now <= Apply(delay, s, e).queue.now
    ensures s.queue.now <= WorkerAt(s, w).giveUpAt ==> Apply(delay, s, e).queue.now <= WorkerAt(s, w).giveUpAt
  {
  }

  lemma OnlyRepliesStart(delay: nat, s: System, e: Event, w: nat)
    requires WorkerAt(Apply(delay, s, e), w).Attempting? && !WorkerAt(s, w).Attempting?
    ensures RunsLoop(WorkerAt(Apply(delay, s, e), w), Apply(delay, s, e).queue.now, s.queue.now, [])
  {
  }

  lemma {:induction false} DeadlineFollows(start: Time, rounds: seq<Round>)
    requires AfterRounds(start, rounds).Goes?
    ensures AfterRounds(start, rounds).giveUpAt == LastConfirmed(start, rounds) + 2 * RENEWAL
  {
    if rounds != [] { DeadlineFollows(start, rounds[..|rounds| - 1]); }
  }

  lemma {:induction false} AttemptInLoop(delay: nat, events: seq<Event>, w: nat)
    returns (start: Time, rounds: seq<Round>)
    requires WorkerAt(Run(delay, events), w).Attempting?
    ensures RunsLoop(WorkerAt(Run(delay, events), w), Run(delay, events).queue.now, start, rounds)
  {
    var s, e := Run(delay, events[..|events| - 1]), events[|events| - 1];
    if !WorkerAt(s, w).Attempting? {
      start, rounds := s.queue.now, [];
      OnlyRepliesStart(delay, s, e, w);
    } else {
      start, rounds := AttemptInLoop(delay, events[..|events| - 1], w);
      if Enabled(delay, s, e) && (e == Wake(w) || e == RenewApply(w) || e == RenewReply(w) || e == RenewError(w)) {
        rounds := OwnStepRunsLoop(delay, s, e, w, start, rounds);
      } else if Enabled(delay, s, e) {
        OthersKeepAttempt(delay, s, e, w);
      }
    }
  }

  /** In every run, an attempt is where the loop is after some rounds: its deadline is two periods after its
      last confirmed renewal was sent, or after its start, and has not passed. */
  lemma AttemptRunsLoop(delay: nat, events: seq<Event>, w: nat) returns (start: Time, rounds: seq<Round>)
    requires WorkerAt(Run(delay, events), w).Attempting?
    ensures var s := Run(delay, events);
      && RunsLoop(WorkerAt(s, w), s.queue.now, start, rounds)
      && s.queue.now <= WorkerAt(s, w).giveUpAt == LastConfirmed(start, rounds) + 2 * RENEWAL
  {
    start, rounds := AttemptInLoop(delay, events, w);
    DeadlineFollows(start, rounds);
  }

  /** And it ends by itself only where the loop stops: at its deadline, asleep or unanswered, or refused. */
  lemma AttemptStopsWithLoop(delay: nat, events: seq<Event>, e: Event, w: nat)
    returns (start: Time, rounds: seq<Round>, last: Round)
    requires WorkerAt(Run(delay, events), w).Attempting? && Enabled(delay, Run(delay, events), e)
    requires !WorkerAt(Effect(Run(delay, events), e), w).Attempting? && !e.Crash? && !e.Finish?
    ensures var s := Run(delay, events);
      && RunsLoop(WorkerAt(s, w), s.queue.now, start, rounds) && AfterRounds(start, rounds + [last]).Stops?
      && (last.answer.Refused? || s.queue.now == WorkerAt(s, w).giveUpAt)
  {
    var s := Run(delay, events);
    start, rounds := AttemptInLoop(delay, events, w);
    last := StoppingRound(delay, s, e, w, start, rounds);
  }

  lemma StoppingRound(delay: nat, s: System, e: Event, w: nat, start: Time, rounds: seq<Round>)
    returns (last: Round)
    requires Enabled(delay, s, e) && RunsLoop(WorkerAt(s, w), s.queue.now, start, rounds)
    requires !WorkerAt(Effect(s, e), w).Attempting? && !e.Crash? && !e.Finish?
    ensures AfterRounds(start, rounds + [last]).Stops?
    ensures last.answer.Refused? || s.queue.now == WorkerAt(s, w).giveUpAt
  {
    var worker, at := WorkerAt(s, w), AfterRounds(start, rounds);
    var wake := NextWake(at.giveUpAt, at.now);
    last := match worker.keeping
      case Sleeping(_) => Round(s.queue.now - wake, Errored, 0)
      case Renewing(started) => Round(started - wake, Errored, at.giveUpAt - started + 1)
      case Answered(started, _) =>
        if e.RenewReply? then RoundOf(at, started, s.queue.now, Refused)
        else Round(started - wake, Errored, at.giveUpAt - started + 1);
    RoundsAppend(start, rounds, last);
  }

  // ---- The condition is exact ----

  lemma RunStep(delay: nat, events: seq<Event>, n: nat)
    requires n < |events|
    ensures Run(delay, events[..n + 1]) == Apply(delay, Run(delay, events[..n]), events[n])
  {
    var prefix := events[..n + 1];
    assert prefix[..|prefix| - 1] == events[..n] && prefix[|prefix| - 1] == events[n];
  }

  /** A reply one microsecond later than a renewal period, then a renewal that stalls. */
  ghost function LateReply(): seq<Event> {
    [Other(Runs.Enqueue(None, "", Cleared, 0, 0, None)), ClaimApply(0, 0), Other(Runs.Tick(RENEWAL + 1)), ClaimReply(0),
     Other(Runs.Tick(RENEWAL)), Wake(0), Other(Runs.Tick(RENEWAL)), ClaimApply(1, 0), ClaimReply(1)]
  }

  lemma LateReplyStarts(delay: nat)
    requires delay > RENEWAL
    ensures var s := Run(delay, LateReply()[..4]);
      && s.queue.now == RENEWAL + 1 && 0 in s.queue.rows && Holds(s.queue, 0, 0) && LeaseEnd(s.queue, 0) == LEASE
      && s.queue.rows[0].attempts == 1 && s.queue.rows[0].maxAttempts == DEFAULT_MAX_ATTEMPTS
      && s.workers == map[0 := Attempting(0, 0, LEASE + 1, Sleeping(2 * RENEWAL + 1), false)]
  {
    var events := LateReply();
    assert events[..0] == [];
    RunStep(delay, events, 0);
    var s1 := Run(delay, events[..1]);
    assert Eligible(s1.queue.rows[0], s1.queue.now);
    RunStep(delay, events, 1);
    RunStep(delay, events, 2);
    RunStep(delay, events, 3);
  }

  lemma LateReplyLapses(delay: nat)
    requires delay > RENEWAL
    ensures var s := Run(delay, LateReply()[..7]);
      && s.queue.now == LEASE + 1 && 0 in s.queue.rows && Eligible(s.queue.rows[0], s.queue.now)
      && s.workers == map[0 := Attempting(0, 0, LEASE + 1, Renewing(2 * RENEWAL + 1), false)]
  {
    var events := LateReply();
    LateReplyStarts(delay);
    RunStep(delay, events, 4);
    RunStep(delay, events, 5);
    RunStep(delay, events, 6);
  }

  lemma LateReplyOverlaps(delay: nat)
    requires delay > RENEWAL
    ensures var s := Run(delay, LateReply());
      Executing(s, 0, 0) && Executing(s, 1, 0)
  {
    var events := LateReply();
    LateReplyLapses(delay);
    RunStep(delay, events, 7);
    RunStep(delay, events, 8);
    assert events[..9] == events;
  }

  /** No two workers ever execute one job, in any run, if and only if a claim's reply takes
      at most one renewal period. */
  lemma ExclusionIffPromptReply(delay: nat)
    ensures delay <= RENEWAL <==>
      forall events: seq<Event> {:trigger Run(delay, events)} :: Exclusive(Run(delay, events))
  {
    if delay <= RENEWAL {
      forall events: seq<Event> {:trigger Run(delay, events)} ensures Exclusive(Run(delay, events)) {
        MutualExclusion(delay, events);
      }
    } else {
      LateReplyOverlaps(delay);
      assert !Exclusive(Run(delay, LateReply()));
    }
  }

  // ---- The margin ----

  /** Every executing worker gives up a whole renewal period before its lease ends. */
  ghost predicate WholeMargin(s: System) {
    forall w, id {:trigger Executing(s, w, id)} ::
      Executing(s, w, id) ==> WorkerAt(s, w).giveUpAt + RENEWAL <= LeaseEnd(s.queue, id)
  }

  /** A claim whose reply takes the whole `delay`. */
  ghost function SlowReply(delay: nat): seq<Event> {
    [Other(Runs.Enqueue(None, "", Cleared, 0, 0, None)), ClaimApply(0, 0), Other(Runs.Tick(delay)), ClaimReply(0)]
  }

  /** The bound is attained: such a claim's first deadline leaves a renewal period less `delay`. */
  lemma SlowReplyMargin(delay: nat)
    ensures var s := Run(delay, SlowReply(delay));
      Executing(s, 0, 0) && WorkerAt(s, 0).giveUpAt + RENEWAL == LeaseEnd(s.queue, 0) + delay
  {
    var events := SlowReply(delay);
    assert events[..0] == [];
    RunStep(delay, events, 0);
    var s1 := Run(delay, events[..1]);
    assert Eligible(s1.queue.rows[0], s1.queue.now);
    RunStep(delay, events, 1);
    RunStep(delay, events, 2);
    RunStep(delay, events, 3);
    assert events[..4] == events;
  }

  /** Every attempt in every run gives up a whole period before its lease ends if and only if a claim's
      reply takes no time at all. */
  lemma WholeMarginIffInstantReply(delay: nat)
    ensures delay == 0 <==> forall events: seq<Event> {:trigger Run(delay, events)} :: WholeMargin(Run(delay, events))
  {
    if delay == 0 {
      forall events: seq<Event> {:trigger Run(delay, events)} ensures WholeMargin(Run(delay, events)) {
        forall w, id {:trigger Executing(Run(delay, events), w, id)} | Executing(Run(delay, events), w, id)
          ensures WorkerAt(Run(delay, events), w).giveUpAt + RENEWAL <= LeaseEnd(Run(delay, events).queue, id)
        {
          ExecutingHoldsLease(delay, events, w, id);
        }
      }
    } else {
      SlowReplyMargin(delay);
      assert !WholeMargin(Run(delay, SlowReply(delay)));
    }
  }
}
