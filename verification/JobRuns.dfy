/** Runs of the job table: any number of workers issue the statements of
    `JobQueue` in any order, with any time between them. What holds in every
    reachable state, and what can happen to one job, one token and one dedupe
    key over a whole history. */
module JobRuns {
  import opened Wrappers
  import opened JobQueue

  /** `Claim` may take any eligible row: SKIP LOCKED passes over the rows before it. */
  datatype Step =
    | Tick(elapsed: nat)
    | Enqueue(owner: Option<nat>, kind: string, payload: Payload, priority: int, runAt: Time, key: Option<Key>)
    | Sweep
    | Claim(id: nat)
    | Renew(id: nat, token: nat)
    | Acknowledge(id: nat, token: nat, outcome: Outcome)
    | Prune(olderThan: nat)

  ghost function Apply(q: Queue, step: Step): Queue {
    match step
    case Tick(elapsed) => Ticked(q, elapsed)
    case Enqueue(owner, kind, payload, priority, runAt, key) => Enqueued(q, owner, kind, payload, priority, runAt, key)
    case Sweep => Swept(q)
    case Claim(id) => if id in q.rows && Eligible(q.rows[id], q.now) then Claimed(q, id) else q
    case Renew(id, token) => Renewed(q, id, token)
    case Acknowledge(id, token, outcome) => Acknowledged(q, id, token, outcome)
    case Prune(olderThan) => Pruned(q, olderThan)
  }

  /** The table after `steps`, from empty at time `start`. */
  ghost function Run(start: Time, steps: seq<Step>): Queue {
    if steps == [] then EmptyQueue(start)
    else Apply(Run(start, steps[..|steps| - 1]), steps[|steps| - 1])
  }

  lemma ApplyKeepsValid(q: Queue, step: Step)
    requires Valid(q)
    ensures Valid(Apply(q, step))
  {
    match step
    case Tick(elapsed) =>
    case Enqueue(owner, kind, payload, priority, runAt, key) =>
      EnqueueKeepsValid(q, owner, kind, payload, priority, runAt, key);
    case Sweep => SweepKeepsValid(q);
    case Claim(id) => if id in q.rows && Eligible(q.rows[id], q.now) { ClaimKeepsValid(q, id); }
    case Renew(id, token) => RenewKeepsValid(q, id, token);
    case Acknowledge(id, token, outcome) => AcknowledgeKeepsValid(q, id, token, outcome);
    case Prune(olderThan) => PruneKeepsValid(q, olderThan);
  }

  /** The lifecycle invariant holds in every reachable state. */
  lemma {:induction false} RunIsValid(start: Time, steps: seq<Step>)
    ensures Valid(Run(start, steps))
  {
    if steps != [] {
      RunIsValid(start, steps[..|steps| - 1]);
      ApplyKeepsValid(Run(start, steps[..|steps| - 1]), steps[|steps| - 1]);
    }
  }

  /** A row of a reachable state, spelled out. */
  lemma Lifecycle(start: Time, steps: seq<Step>, id: nat)
    requires id in Run(start, steps).rows
    ensures var r := Run(start, steps).rows[id];
      && (r.status == Running <==> r.token.Some?)
      && r.attempts <= r.maxAttempts == DEFAULT_MAX_ATTEMPTS
      && (r.status == Pending ==> r.attempts < r.maxAttempts)
      && (r.status == Failed ==> r.attempts == r.maxAttempts)
  {
    RunIsValid(start, steps);
    MaxAttemptsFixed(start, steps, id);
  }

  lemma {:induction false} MaxAttemptsFixed(start: Time, steps: seq<Step>, id: nat)
    requires id in Run(start, steps).rows
    ensures Run(start, steps).rows[id].maxAttempts == DEFAULT_MAX_ATTEMPTS
  {
    var before := Run(start, steps[..|steps| - 1]);
    if id in before.rows {
      MaxAttemptsFixed(start, steps[..|steps| - 1], id);
    }
  }

  // ---- What one step may do to one row ----

  /** (attempts left, status rank) as one number: running 2, pending 1, finished 0. */
  ghost function Progress(r: Row): nat
    requires r.attempts <= r.maxAttempts
  {
    3 * (r.maxAttempts - r.attempts) +
    match r.status
    case Running => 2
    case Pending => 1
    case _ => 0
  }

  /** Every step but a renewal either leaves a row alone or brings it closer to its end;
      finished rows only ever disappear, and only completed ones do. */
  lemma StepsProgress(q: Queue, step: Step, id: nat)
    requires Valid(q) && id in q.rows
    ensures id !in Apply(q, step).rows ==> step.Prune? && q.rows[id].status == Completed
    ensures id in Apply(q, step).rows ==>
      var r, r' := q.rows[id], Apply(q, step).rows[id];
      && (r'.attempts <= r'.maxAttempts)
      && (r' == r || Progress(r') < Progress(r) || (step.Renew? && r' == r.(leaseUntil := r'.leaseUntil)))
      && (r.status == Completed || r.status == Failed ==> r' == r)
  {
    assert RowOk(q.rows[id], q.now);
    if step.Sweep? {
      SweptRowOk(q.rows[id], q.now);
    }
  }

  /** How often a claim started `id`'s handler. */
  ghost function Claims(start: Time, steps: seq<Step>, id: nat): nat {
    if steps == [] then 0
    else
      var before, step := Run(start, steps[..|steps| - 1]), steps[|steps| - 1];
      Claims(start, steps[..|steps| - 1], id) +
      if step == Claim(id) && id in before.rows && Eligible(before.rows[id], before.now) then 1 else 0
  }

  /** One step counts a claim exactly when it raises `attempts`. */
  lemma StepCountsClaim(q: Queue, step: Step, id: nat)
    requires Valid(q)
    ensures var claimed := step == Claim(id) && id in q.rows && Eligible(q.rows[id], q.now);
      && (claimed ==> id < q.nextId && q.rows[id].attempts < q.rows[id].maxAttempts)
      && (id in q.rows && id in Apply(q, step).rows ==>
            Apply(q, step).rows[id].attempts == q.rows[id].attempts + if claimed then 1 else 0)
      && (id !in q.rows && id in Apply(q, step).rows ==> id == q.nextId && Apply(q, step).rows[id].attempts == 0)
      && q.nextId <= Apply(q, step).nextId
  {
  }

  /** `attempts` counts the claims, so a handler starts at most `max_attempts` times,
      even if its row is later pruned. */
  lemma {:induction false} AttemptsCountClaims(start: Time, steps: seq<Step>, id: nat)
    ensures Claims(start, steps, id) <= DEFAULT_MAX_ATTEMPTS
    ensures id in Run(start, steps).rows ==> Claims(start, steps, id) == Run(start, steps).rows[id].attempts
    ensures id >= Run(start, steps).nextId ==> Claims(start, steps, id) == 0
  {
    if steps != [] {
      var init := steps[..|steps| - 1];
      AttemptsCountClaims(start, init, id);
      RunIsValid(start, init);
      StepCountsClaim(Run(start, init), steps[|steps| - 1], id);
      if id in Run(start, init).rows {
        MaxAttemptsFixed(start, init, id);
      }
    }
  }

  /** How many outcomes were recorded under `token`. */
  ghost function Outcomes(start: Time, steps: seq<Step>, token: nat): nat {
    if steps == [] then 0
    else
      var before, step := Run(start, steps[..|steps| - 1]), steps[|steps| - 1];
      Outcomes(start, steps[..|steps| - 1], token) +
      if step.Acknowledge? && step.token == token && Holds(before, step.id, token) then 1 else 0
  }

  ghost predicate Live(q: Queue, token: nat) {
    exists id :: id in q.rows && q.rows[id].token == Some(token)
  }

  lemma LiveTokenOrigin(q: Queue, step: Step, token: nat)
    requires Valid(q) && token < q.nextToken && Live(Apply(q, step), token)
    ensures Live(q, token)
  {
    var q' := Apply(q, step);
    var id :| id in q'.rows && q'.rows[id].token == Some(token);
    if id in q.rows && q.rows[id].token == Some(token) {
    } else {
      assert RowsOk(q);
      if step.Sweep? { SweptRowOk(q.rows[id], q.now); }
      assert false;
    }
  }

  /** Each token records at most one outcome, and none once another claim holds the job. */
  lemma {:induction false} TokenRecordsOnce(start: Time, steps: seq<Step>, token: nat)
    ensures Outcomes(start, steps, token) <= 1
    ensures Live(Run(start, steps), token) ==> Outcomes(start, steps, token) == 0
    ensures token >= Run(start, steps).nextToken ==> Outcomes(start, steps, token) == 0
  {
    if steps != [] {
      var init, step := steps[..|steps| - 1], steps[|steps| - 1];
      var before, after := Run(start, init), Run(start, steps);
      TokenRecordsOnce(start, init, token);
      RunIsValid(start, init);
      if token < before.nextToken && Live(after, token) {
        LiveTokenOrigin(before, step, token);
      }
      if step.Acknowledge? && step.token == token && Holds(before, step.id, token) {
        assert Live(before, token);
        RecordingEndsToken(before, step.id, token, step.outcome);
      }
    }
  }

  lemma RecordingEndsToken(q: Queue, id: nat, token: nat, outcome: Outcome)
    requires Valid(q) && Holds(q, id, token)
    ensures !Live(Acknowledged(q, id, token, outcome), token)
  {
    assert TokensOk(q);
  }

  // ---- Backoff ----

  /** The row of a failed attempt, waiting for `due`. */
  ghost predicate Waiting(q: Queue, id: nat, due: Time, attempts: nat) {
    && id in q.rows && q.rows[id].status == Pending && q.rows[id].token.None?
    && q.rows[id].runAt == due && q.rows[id].attempts == attempts
  }

  lemma WaitingStep(q: Queue, step: Step, id: nat, due: Time, attempts: nat)
    requires Valid(q) && Waiting(q, id, due, attempts) && q.now < due
    ensures Waiting(Apply(q, step), id, due, attempts) && q.now <= Apply(q, step).now
  {
    assert id < q.nextId;
  }

  lemma {:induction false} StillWaiting(start: Time, steps: seq<Step>, after: seq<Step>, id: nat, due: Time,
      attempts: nat)
    requires Waiting(Run(start, steps), id, due, attempts) && Run(start, steps + after).now < due
    ensures Waiting(Run(start, steps + after), id, due, attempts)
    ensures Claims(start, steps + after, id) == Claims(start, steps, id)
  {
    if after == [] {
      assert steps + after == steps;
    } else {
      var all, init := steps + after, after[..|after| - 1];
      assert all[..|all| - 1] == steps + init;
      RunIsValid(start, steps + init);
      TimeGrows(Run(start, steps + init), all[|all| - 1]);
      StillWaiting(start, steps, init, id, due, attempts);
      WaitingStep(Run(start, steps + init), all[|all| - 1], id, due, attempts);
    }
  }

  lemma TimeGrows(q: Queue, step: Step)
    ensures q.now <= Apply(q, step).now
  {
  }

  /** When the backoff of a failure recorded now is over. */
  function RetryAt(q: Queue, id: nat, outcome: Outcome): Time
    requires id in q.rows && outcome.Failure?
  {
    q.now + Backoff(q.rows[id].attempts, outcome.retryAfter) * SECOND
  }

  /** After a failed attempt that is not the last, nothing that happens during the backoff changes the
      row, and no worker claims it. */
  lemma RetryWaits(start: Time, steps: seq<Step>, id: nat, token: nat, outcome: Outcome, after: seq<Step>)
    requires var q := Run(start, steps);
      Holds(q, id, token) && outcome.Failure? && q.rows[id].attempts < q.rows[id].maxAttempts
    requires var q := Run(start, steps);
      Run(start, steps + [Acknowledge(id, token, outcome)] + after).now < RetryAt(q, id, outcome)
    ensures var q, all := Run(start, steps), steps + [Acknowledge(id, token, outcome)] + after;
      && Waiting(Run(start, all), id, RetryAt(q, id, outcome), q.rows[id].attempts)
      && Claims(start, all, id) == Claims(start, steps, id)
  {
    var q, failed := Run(start, steps), steps + [Acknowledge(id, token, outcome)];
    assert failed[..|failed| - 1] == steps;
    StillWaiting(start, failed, after, id, RetryAt(q, id, outcome), q.rows[id].attempts);
  }

  // ---- Statistics ----

  lemma ValidDueIsEligible(q: Queue)
    requires RowsOk(q)
    ensures DueIds(q) == EligibleIds(q)
  {
    forall id | id in q.rows ensures Due(q.rows[id], q.now) <==> Eligible(q.rows[id], q.now) {
      assert RowOk(q.rows[id], q.now);
    }
  }

  /** In every reachable state `due` counts exactly the rows `claim` accepts at that
      instant, and the counters partition the unfinished rows. */
  lemma StatsAgreeWithClaim(start: Time, steps: seq<Step>)
    ensures var q := Run(start, steps);
      && DueIds(q) == EligibleIds(q)
      && |DueIds(q)| + |ScheduledIds(q)| + |RunningIds(q)| + |ExhaustedIds(q)| == |OpenIds(q)|
  {
    RunIsValid(start, steps);
    ValidDueIsEligible(Run(start, steps));
    OpenRowsPartition(Run(start, steps));
  }

  lemma OpenRowsPartition(q: Queue)
    requires RowsOk(q)
    ensures |DueIds(q)| + |ScheduledIds(q)| + |RunningIds(q)| + |ExhaustedIds(q)| == |OpenIds(q)|
  {
    var d, s, r, e := DueIds(q), ScheduledIds(q), RunningIds(q), ExhaustedIds(q);
    forall id | id in q.rows ensures id in OpenIds(q) <==> id in d || id in s || id in r || id in e {
      OpenRowOnce(q.rows[id], q.now);
    }
    assert OpenIds(q) == d + s + (r + e);
    assert d !! s && (d + s) !! (r + e) && r !! e;
    assert |d + s + (r + e)| == |d + s| + |r + e|;
    assert |d + s| == |d| + |s| && |r + e| == |r| + |e|;
  }

  lemma OpenRowOnce(r: Row, now: Time)
    requires RowOk(r, now)
    ensures (r.status == Pending || r.status == Running) <==>
      Due(r, now) || (r.status == Pending && !Due(r, now)) || (r.status == Running && !Lapsed(r, now)) ||
      (Lapsed(r, now) && r.attempts >= r.maxAttempts)
  {
  }

  /** A sweep moves failures from the lapsed to the failed rows without changing
      `failed_24h`, whenever it is read afterwards. */
  lemma SweepKeepsFailures(q: Queue, elapsed: nat)
    requires Valid(q)
    ensures FailedRecentlyIds(Ticked(Swept(q), elapsed)) == FailedRecentlyIds(Ticked(q, elapsed))
  {
    var q' := Swept(q);
    forall id | id in q.rows
      ensures FailedRecently(q'.rows[id], q.now + elapsed) <==> FailedRecently(q.rows[id], q.now + elapsed)
    {
      assert RowOk(q.rows[id], q.now);
    }
  }

  // ---- Deduplication over a history ----

  ghost predicate HasKey(q: Queue, id: nat, key: Key) {
    id in q.rows && q.rows[id].key == Some(key)
  }

  /** How many rows were ever inserted for `key`. */
  ghost function Inserted(start: Time, steps: seq<Step>, key: Key): nat {
    if steps == [] then 0
    else
      var before, step := Run(start, steps[..|steps| - 1]), steps[|steps| - 1];
      Inserted(start, steps[..|steps| - 1], key) +
      if step.Enqueue? && step.key == Some(key) && !KeyTaken(before.rows, step.key) then 1 else 0
  }

  /** `step` records the completion of a job of `key`. */
  ghost predicate Completes(q: Queue, step: Step, key: Key) {
    step.Acknowledge? && step.outcome == Success && Holds(q, step.id, step.token) && HasKey(q, step.id, key)
  }

  /** How many times a job of `key` was recorded as completed. */
  ghost function Completions(start: Time, steps: seq<Step>, key: Key): nat {
    if steps == [] then 0
    else
      var before, step := Run(start, steps[..|steps| - 1]), steps[|steps| - 1];
      Completions(start, steps[..|steps| - 1], key) +
      if Completes(before, step, key) then 1 else 0
  }

  /** Every enqueue of `key` falls in [from, from + span], and no prune uses an age below `age`. */
  ghost predicate InBucket(start: Time, steps: seq<Step>, key: Key, from: Time, span: nat, age: nat) {
    forall i {:trigger steps[i]} :: 0 <= i < |steps| ==>
      && (steps[i].Enqueue? && steps[i].key == Some(key) ==> from <= Run(start, steps[..i]).now <= from + span)
      && (steps[i].Prune? ==> steps[i].olderThan >= age)
  }

  lemma InBucketPrefix(start: Time, steps: seq<Step>, key: Key, from: Time, span: nat, age: nat)
    requires steps != [] && InBucket(start, steps, key, from, span, age)
    ensures InBucket(start, steps[..|steps| - 1], key, from, span, age)
  {
    var init := steps[..|steps| - 1];
    forall i {:trigger init[i]} | 0 <= i < |init|
      ensures init[i].Enqueue? && init[i].key == Some(key) ==> from <= Run(start, init[..i]).now <= from + span
      ensures init[i].Prune? ==> init[i].olderThan >= age
    {
      assert init[i] == steps[i] && init[..i] == steps[..i];
    }
  }

  /** What a history within the bucket leaves behind for `key`. */
  ghost predicate KeyHistory(q: Queue, key: Key, inserted: nat, completed: nat, from: Time, age: nat) {
    && inserted <= 1 && completed <= inserted
    && (inserted == 0 ==> !KeyTaken(q.rows, Some(key)))
    && (inserted == 1 && !KeyTaken(q.rows, Some(key)) ==> q.now > from + age)
    && (forall id {:trigger HasKey(q, id, key)} :: HasKey(q, id, key) ==>
          q.rows[id].createdAt >= from && (completed == 1 ==> q.rows[id].status == Completed))
  }

  /** If a key's enqueues all fall within `age` of `from` and prunes keep rows that long,
      the key has at most one row over the whole history, and completes at most once. */
  lemma {:induction false} KeyRunsOnce(start: Time, steps: seq<Step>, key: Key, from: Time, span: nat, age: nat)
    requires InBucket(start, steps, key, from, span, age) && span <= age
    ensures Inserted(start, steps, key) <= 1 && Completions(start, steps, key) <= 1
    ensures KeyHistory(Run(start, steps), key, Inserted(start, steps, key), Completions(start, steps, key), from, age)
  {
    if steps != [] {
      var init, step := steps[..|steps| - 1], steps[|steps| - 1];
      var q, q' := Run(start, init), Run(start, steps);
      InBucketPrefix(start, steps, key, from, span, age);
      KeyRunsOnce(start, init, key, from, span, age);
      RunIsValid(start, init);
      assert steps[|init|] == step && steps[..|init|] == init;
      KeyStep(q, step, key, Inserted(start, init, key), Completions(start, init, key), from, span, age);
    }
  }

  lemma KeyStep(q: Queue, step: Step, key: Key, inserted: nat, completed: nat, from: Time, span: nat, age: nat)
    requires Valid(q) && KeyHistory(q, key, inserted, completed, from, age) && span <= age
    requires step.Enqueue? && step.key == Some(key) ==> from <= q.now <= from + span
    requires step.Prune? ==> step.olderThan >= age
    ensures KeyHistory(Apply(q, step), key,
      inserted + (if step.Enqueue? && step.key == Some(key) && !KeyTaken(q.rows, step.key) then 1 else 0),
      completed + (if Completes(q, step, key) then 1 else 0),
      from, age)
  {
    match step
    case Enqueue(_, _, _, _, _, _) => KeyEnqueue(q, step, key, inserted, completed, from, span, age);
    case Prune(olderThan) => KeyPrune(q, olderThan, key, inserted, completed, from, age);
    case Acknowledge(id, token, outcome) => KeyAcknowledge(q, id, token, outcome, key, inserted, completed, from, age);
    case _ => KeyQuiet(q, Apply(q, step), key, inserted, completed, from, age) by { QuietSteps(q, step); }
  }

  ghost predicate Quiet(q: Queue, q': Queue) {
    && q'.rows.Keys == q.rows.Keys && q'.now >= q.now
    && (forall id :: id in q.rows ==>
          && q'.rows[id].key == q.rows[id].key && q'.rows[id].createdAt == q.rows[id].createdAt
          && (q.rows[id].status == Completed ==> q'.rows[id].status == Completed))
  }

  lemma QuietSteps(q: Queue, step: Step)
    requires Valid(q) && (step.Tick? || step.Sweep? || step.Claim? || step.Renew?)
    ensures Quiet(q, Apply(q, step))
  {
  }

  lemma KeyQuiet(q: Queue, q': Queue, key: Key, inserted: nat, completed: nat, from: Time, age: nat)
    requires KeyHistory(q, key, inserted, completed, from, age) && Quiet(q, q')
    ensures KeyHistory(q', key, inserted, completed, from, age)
  {
    KeySurvives(q, q', key);
  }

  lemma KeyEnqueue(q: Queue, step: Step,
                   key: Key, inserted: nat, completed: nat, from: Time, span: nat, age: nat)
    requires Valid(q) && KeyHistory(q, key, inserted, completed, from, age) && span <= age
    requires step.Enqueue? && (step.key == Some(key) ==> from <= q.now <= from + span)
    ensures KeyHistory(Apply(q, step), key,
      inserted + (if step.key == Some(key) && !KeyTaken(q.rows, step.key) then 1 else 0), completed, from, age)
  {
    var q', k := Apply(q, step), step.key;
    if q' != q {
      KeyKept(q, q', key);
      assert HasKey(q', q.nextId, key) <==> k == Some(key);
      forall id | HasKey(q', id, key) && id != q.nextId ensures HasKey(q, id, key) {}
      if k == Some(key) {
        assert KeyTaken(q'.rows, k);
        assert inserted == 0;
      } else if KeyTaken(q'.rows, Some(key)) {
        var id :| id in q'.rows && q'.rows[id].key == Some(key);
        assert HasKey(q, id, key);
      }
    }
  }

  lemma KeyPrune(q: Queue, olderThan: nat, key: Key, inserted: nat, completed: nat, from: Time, age: nat)
    requires Valid(q) && KeyHistory(q, key, inserted, completed, from, age) && olderThan >= age
    ensures KeyHistory(Pruned(q, olderThan), key, inserted, completed, from, age)
  {
    var q' := Pruned(q, olderThan);
    forall id | HasKey(q', id, key) ensures HasKey(q, id, key) && q'.rows[id] == q.rows[id] {}
    if KeyTaken(q.rows, Some(key)) && !KeyTaken(q'.rows, Some(key)) {
      var id :| id in q.rows && q.rows[id].key == Some(key);
      assert HasKey(q, id, key) && RowOk(q.rows[id], q.now);
      assert id !in q'.rows;
    }
    if KeyTaken(q'.rows, Some(key)) {
      var id :| HasKey(q', id, key);
      assert HasKey(q, id, key);
    }
  }

  lemma KeyAcknowledge(q: Queue, id: nat, token: nat, outcome: Outcome,
                       key: Key, inserted: nat, completed: nat, from: Time, age: nat)
    requires Valid(q) && KeyHistory(q, key, inserted, completed, from, age)
    ensures KeyHistory(Acknowledged(q, id, token, outcome), key, inserted,
      completed + (if outcome == Success && Holds(q, id, token) && HasKey(q, id, key) then 1 else 0), from, age)
  {
    var q' := Acknowledged(q, id, token, outcome);
    KeySurvives(q, q', key);
    if Holds(q, id, token) && HasKey(q, id, key) {
      assert completed == 0 && inserted == 1;
      forall other | HasKey(q', other, key) ensures other == id {
        assert KeysOk(q);
      }
    }
  }

  lemma KeyKept(q: Queue, q': Queue, key: Key)
    requires forall id :: id in q.rows ==> id in q'.rows && q'.rows[id].key == q.rows[id].key
    ensures KeyTaken(q.rows, Some(key)) ==> KeyTaken(q'.rows, Some(key))
  {
    if KeyTaken(q.rows, Some(key)) {
      var id :| id in q.rows && q.rows[id].key == Some(key);
      assert id in q'.rows && q'.rows[id].key == Some(key);
    }
  }

  lemma KeySurvives(q: Queue, q': Queue, key: Key)
    requires q'.rows.Keys == q.rows.Keys
    requires forall id :: id in q.rows ==> q'.rows[id].key == q.rows[id].key
    ensures KeyTaken(q.rows, Some(key)) <==> KeyTaken(q'.rows, Some(key))
    ensures forall id {:trigger HasKey(q', id, key)} :: HasKey(q', id, key) <==> HasKey(q, id, key)
  {
    KeyKept(q, q', key);
    KeyKept(q', q, key);
  }

  /** The history of `KeyRunsTwice`: complete, wait out the age, prune, enqueue again. */
  ghost function TwiceSteps(key: Key, span: nat, age: nat): seq<Step> {
    var enqueue := Enqueue(None, "", Cleared, 0, 0, Some(key));
    [enqueue, Claim(0), Acknowledge(0, 0, Success), Tick(span), Prune(age), enqueue, Claim(1),
        Acknowledge(1, 1, Success)]
  }

  /** The bound is tight: a bucket any longer than the age prunes keep lets the work run twice. */
  lemma KeyRunsTwice(key: Key, span: nat, age: nat)
    requires span > age
    ensures InBucket(0, TwiceSteps(key, span, age), key, 0, span, age)
    ensures Inserted(0, TwiceSteps(key, span, age), key) == 2
    ensures Completions(0, TwiceSteps(key, span, age), key) == 2
  {
    var steps := TwiceSteps(key, span, age);
    FirstCompletion(key, span, age);
    SecondCompletion(key, span, age);
    assert steps[..8] == steps;
  }

  ghost predicate Counts(steps: seq<Step>, key: Key, inserted: nat, completed: nat) {
    Inserted(0, steps, key) == inserted && Completions(0, steps, key) == completed
  }

  lemma FirstClaim(key: Key, span: nat, age: nat)
    ensures var steps := TwiceSteps(key, span, age);
      && Run(0, steps[..0]).now == 0
      && Counts(steps[..1], key, 1, 0) && Counts(steps[..2], key, 1, 0)
      && Run(0, steps[..2]).now == 0 && Run(0, steps[..2]).rows.Keys == {0}
      && HasKey(Run(0, steps[..2]), 0, key) && Holds(Run(0, steps[..2]), 0, 0)
      && Run(0, steps[..2]).nextId == 1 && Run(0, steps[..2]).nextToken == 1
  {
    var steps := TwiceSteps(key, span, age);
    assert steps[..0] == [];
    KeyCountsPrefix(steps, 0, key);
    var q1 := Run(0, steps[..1]);
    KeyCountsPrefix(steps, 1, key);
    assert Eligible(q1.rows[0], q1.now);
  }

  lemma FirstSuccess(key: Key, span: nat, age: nat)
    ensures var steps := TwiceSteps(key, span, age); var q := Run(0, steps[..3]);
      && Counts(steps[..3], key, 1, 1)
      && q.now == 0 && q.rows.Keys == {0} && q.nextId == 1 && q.nextToken == 1
      && q.rows[0].status == Completed && q.rows[0].finishedAt == Some(0)
  {
    FirstClaim(key, span, age);
    KeyCountsPrefix(TwiceSteps(key, span, age), 2, key);
  }

  lemma FirstCompletion(key: Key, span: nat, age: nat)
    requires span > age
    ensures var steps := TwiceSteps(key, span, age);
      && Run(0, steps[..5]) == Queue(map[], span, 1, 1)
      && Counts(steps[..5], key, 1, 1)
      && Run(0, steps[..0]).now == 0
  {
    var steps := TwiceSteps(key, span, age);
    FirstClaim(key, span, age);
    FirstSuccess(key, span, age);
    KeyCountsPrefix(steps, 3, key);
    KeyCountsPrefix(steps, 4, key);
    assert Run(0, steps[..5]).rows == map[];
  }

  lemma SecondCompletion(key: Key, span: nat, age: nat)
    requires var steps := TwiceSteps(key, span, age);
      Run(0, steps[..5]) == Queue(map[], span, 1, 1) && Counts(steps[..5], key, 1, 1)
    ensures Counts(TwiceSteps(key, span, age)[..8], key, 2, 2)
  {
    var steps := TwiceSteps(key, span, age);
    KeyCountsPrefix(steps, 5, key);
    var q6 := Run(0, steps[..6]);
    KeyCountsPrefix(steps, 6, key);
    assert Eligible(q6.rows[1], q6.now);
    KeyCountsPrefix(steps, 7, key);
  }

  lemma KeyCountsPrefix(steps: seq<Step>, n: nat, key: Key)
    requires n < |steps|
    ensures var q, step := Run(0, steps[..n]), steps[n];
      && Run(0, steps[..n + 1]) == Apply(q, step)
      && Inserted(0, steps[..n + 1], key) == Inserted(0, steps[..n], key) +
           (if step.Enqueue? && step.key == Some(key) && !KeyTaken(q.rows, step.key) then 1 else 0)
      && Completions(0, steps[..n + 1], key) == Completions(0, steps[..n], key) +
           (if Completes(q, step, key) then 1 else 0)
  {
    var prefix := steps[..n + 1];
    assert prefix[..|prefix| - 1] == steps[..n] && prefix[|prefix| - 1] == steps[n];
  }

  /** `prune`'s advice is exact: work keyed by a bucket runs once in every history if and
      only if prunes keep rows at least as long as the bucket. */
  lemma BucketIsExact(key: Key, span: nat, age: nat)
    ensures span <= age <==>
      forall start: Time, steps: seq<Step>, from: Time {:trigger InBucket(start, steps, key, from, span, age)} ::
        InBucket(start, steps, key, from, span, age) ==>
          Inserted(start, steps, key) <= 1 && Completions(start, steps, key) <= 1
  {
    if span <= age {
      forall start: Time, steps: seq<Step>, from: Time {:trigger InBucket(start, steps, key, from, span, age)} |
        InBucket(start, steps, key, from, span, age)
        ensures Inserted(start, steps, key) <= 1 && Completions(start, steps, key) <= 1
      {
        KeyRunsOnce(start, steps, key, from, span, age);
      }
    } else {
      KeyRunsTwice(key, span, age);
    }
  }
}
