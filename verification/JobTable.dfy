/** The mutable table behind `JobQueue`'s statements. */
module JobTable {
  import opened Wrappers
  import opened JobQueue

  /** A claimed attempt: what `claim` returns. */
  datatype Job = Job(id: nat, owner: Option<nat>, kind: string, payload: Payload, attempts: nat, maxAttempts: nat,
      token: nat)

  /** Some candidate precedes all the others, so LIMIT 1 has a row to return. */
  lemma {:induction false} FirstExists(q: Queue, candidates: set<nat>) returns (first: nat)
    requires candidates != {} && candidates <= q.rows.Keys
    ensures first in candidates
    ensures forall other :: other in candidates ==> Precedes(q.rows[first], q.rows[other])
    decreases candidates
  {
    var any :| any in candidates;
    var rest := candidates - {any};
    if rest == {} {
      first := any;
      forall other | other in candidates ensures other == any {
        assert other !in rest;
      }
    } else {
      var best := FirstExists(q, rest);
      first := if Precedes(q.rows[any], q.rows[best]) then any else best;
      forall other | other in candidates ensures Precedes(q.rows[first], q.rows[other]) {
        assert other == any || other in rest;
      }
    }
  }

  /** What makes `due` agree with `claim`: a valid row that is due has attempts left. */
  lemma DueIsEligible(r: Row, now: Time)
    requires RowOk(r, now)
    ensures Due(r, now) <==> Eligible(r, now)
    ensures Due(r, now) ==> r.runAt <= now
  {
  }

  /** `wait` is the longest any of `ids` has waited, 0 when there is none. */
  ghost predicate IsOldest(q: Queue, ids: set<nat>, wait: int)
    requires ids <= q.rows.Keys
  {
    && wait >= 0
    && (forall id :: id in ids ==> q.now - q.rows[id].runAt <= wait)
    && if ids == {} then wait == 0 else exists id :: id in ids && q.now - q.rows[id].runAt == wait
  }

  function PrunableIds(q: Queue, olderThan: nat): set<nat> {
    set id | id in q.rows && Prunable(q.rows[id], q.now, olderThan)
  }

  /** A prune removes exactly the prunable rows. */
  lemma PruneRemoves(q: Queue, olderThan: nat)
    ensures |Pruned(q, olderThan).rows| + |PrunableIds(q, olderThan)| == |q.rows|
  {
    var gone, kept := PrunableIds(q, olderThan), Pruned(q, olderThan).rows;
    assert kept.Keys !! gone;
    assert |kept.Keys + gone| == |kept.Keys| + |gone|;
    assert q.rows.Keys == kept.Keys + gone;
    assert |kept.Keys| == |kept| && |q.rows.Keys| == |q.rows|;
  }

  lemma OldestGrows(q: Queue, ids: set<nat>, id: nat, wait: int)
    requires ids <= q.rows.Keys && id in q.rows && IsOldest(q, ids, wait)
    requires q.rows[id].runAt <= q.now
    ensures IsOldest(q, ids + {id}, Max(wait, q.now - q.rows[id].runAt))
  {
    var wait' := Max(wait, q.now - q.rows[id].runAt);
    if ids != {} && wait' == wait {
      var longest :| longest in ids && q.now - q.rows[longest].runAt == wait;
      assert longest in ids + {id};
    } else {
      assert id in ids + {id};
    }
  }

  /** What `Enqueued` adds, and that it changes nothing else. */
  lemma EnqueueAdds(q: Queue, owner: Option<nat>, kind: string, payload: Payload, priority: int, runAt: Time,
      key: Option<Key>)
    requires Valid(q)
    ensures q.nextId !in q.rows
    ensures var rows := Enqueued(q, owner, kind, payload, priority, runAt, key).rows;
      && (key.Some? ==> exists id :: id in rows && rows[id].key == key)
      && (forall id :: id in q.rows ==> id in rows && rows[id] == q.rows[id])
      && |rows| == |q.rows| + if KeyTaken(q.rows, key) then 0 else 1
  {
    assert q.nextId !in q.rows;
    if !KeyTaken(q.rows, key) {
      var rows := Enqueued(q, owner, kind, payload, priority, runAt, key).rows;
      assert rows[q.nextId].key == key;
    }
  }

  // ---- What the statements mean, in the columns of the rows ----

  /** Attempts left, and either waiting for a time that has come or held under a lease that has ended. */
  ghost predicate IsReady(r: Row, now: Time) {
    && r.attempts < r.maxAttempts
    && ((r.status == Pending && r.runAt <= now) ||
        (r.status == Running && r.leaseUntil.Some? && r.leaseUntil.value < now))
  }

  /** Failed less than 24 hours ago, or to be failed with its lease ended less than 24 hours ago. */
  ghost predicate FailedInLastDay(r: Row, now: Time) {
    || (r.status == Failed && r.finishedAt.Some? && r.finishedAt.value > now - 86_400 * SECOND)
    || (r.status == Running && r.leaseUntil.Some? && now - 86_400 * SECOND < r.leaseUntil.value < now &&
          r.attempts >= r.maxAttempts)
  }

  /** `id` is ready and free, and of all such rows none has a higher priority, none of its priority was to run
      earlier, and none of its priority and time was made earlier. */
  ghost predicate GoesFirst(rows: map<nat, Row>, now: Time, locked: set<nat>, id: nat) {
    && id in rows && id !in locked && IsReady(rows[id], now)
    && forall other :: other in rows && other !in locked && IsReady(rows[other], now) ==>
         && rows[other].priority <= rows[id].priority
         && (rows[other].priority == rows[id].priority ==>
               && rows[other].runAt >= rows[id].runAt
               && (rows[other].runAt == rows[id].runAt ==> rows[other].createdAt >= rows[id].createdAt))
  }

  /** The claim's order in its own columns. */
  lemma CandidateGoesFirst(q: Queue, locked: set<nat>, id: nat)
    ensures FirstUnlocked(q, locked, id) <==> GoesFirst(q.rows, q.now, locked, id)
  {
  }

  /** The sets that `stats` counts. */
  lemma SetsInColumns(q: Queue)
    requires RowsOk(q)
    ensures EligibleIds(q) == set id | id in q.rows && IsReady(q.rows[id], q.now)
    ensures ScheduledIds(q) == set id | id in q.rows && q.rows[id].status == Pending && q.rows[id].runAt > q.now
    ensures RunningIds(q) == set id | id in q.rows && q.rows[id].status == Running && q.rows[id].leaseUntil.Some? &&
      q.rows[id].leaseUntil.value >= q.now
    ensures FailedRecentlyIds(q) == set id | id in q.rows && FailedInLastDay(q.rows[id], q.now)
  {
    forall id | id in q.rows
      ensures q.rows[id].status == Running ==> q.rows[id].leaseUntil.Some?
      ensures q.rows[id].status == Pending ==> q.rows[id].attempts < q.rows[id].maxAttempts
    {
      assert RowOk(q.rows[id], q.now);
    }
  }

  /** The sweep fails exactly the lapsed final attempts, dated at the end of their lease. */
  lemma SweepInColumns(q: Queue, id: nat)
    requires id in q.rows
    ensures var r, rows := q.rows[id], Swept(q).rows;
      && rows.Keys == q.rows.Keys
      && rows[id] ==
        if r.status == Running && r.leaseUntil.Some? && r.leaseUntil.value < q.now && r.attempts >= r.maxAttempts then
          r.(status := Failed, lastError := Some("Worker lease expired"), finishedAt := r.leaseUntil,
             leaseUntil := None, token := None)
        else r
  {
  }

  class JobTable {
    var rows: map<nat, Row>
    var now: Time
    var nextId: nat
    var nextToken: nat

    ghost function State(): Queue
      reads this
    {
      Queue(rows, now, nextId, nextToken)
    }

    ghost predicate Valid()
      reads this
    {
      JobQueue.Valid(State())
    }

    constructor (start: Time)
      ensures Valid() && State() == EmptyQueue(start)
    {
      rows, now, nextId, nextToken := map[], start, 0, 0;
    }

    /** A taken key makes this a no-op; otherwise exactly one row is added. */
    method Enqueue(owner: Option<nat>, kind: string, payload: Payload, priority: int, runAt: Time, key: Option<Key>)
      requires Valid()
      modifies this`rows, this`nextId
      ensures Valid() && State() == Enqueued(old(State()), owner, kind, payload, priority, runAt, key)
      ensures key.Some? ==> exists id :: id in rows && rows[id].key == key
      ensures forall id :: id in old(rows) ==> id in rows && rows[id] == old(rows)[id]
      ensures key.Some? && (exists id :: id in old(rows) && old(rows)[id].key == key) ==> rows == old(rows)
      ensures key.None? || (forall id :: id in old(rows) ==> old(rows)[id].key != key) ==>
        && old(nextId) !in old(rows)
        && rows == old(rows)[old(nextId) :=
             Row(owner, kind, payload, priority, runAt, now, key, Pending, 0, 5, None, None, None, None)]
    {
      EnqueueKeepsValid(State(), owner, kind, payload, priority, runAt, key);
      EnqueueAdds(State(), owner, kind, payload, priority, runAt, key);
      if !KeyTaken(rows, key) {
        rows := rows[nextId := Row(owner, kind, payload, priority, runAt, now, key, Pending, 0,
                                   DEFAULT_MAX_ATTEMPTS, None, None, None, None)];
        nextId := nextId + 1;
      }
    }

    /** The first statement of `claim`. Returns the jobs that failed for good. */
    method FailLapsed() returns (lapsed: set<nat>)
      requires Valid()
      modifies this`rows
      ensures Valid() && State() == Swept(old(State()))
      ensures lapsed == old(ExhaustedIds(State())) && ExhaustedIds(State()) == {}
      ensures rows.Keys == old(rows).Keys
      ensures forall id :: id in rows ==>
        var r := old(rows)[id];
        rows[id] ==
          if r.status == Running && r.leaseUntil.Some? && r.leaseUntil.value < now && r.attempts >= r.maxAttempts then
            r.(status := Failed, lastError := Some("Worker lease expired"), finishedAt := r.leaseUntil,
               leaseUntil := None, token := None)
          else r
    {
      SweepKeepsValid(State());
      lapsed := set id | id in rows && Lapsed(rows[id], now) && rows[id].attempts >= rows[id].maxAttempts;
      rows := map id | id in rows ::
        if id in lapsed then
          rows[id].(status := Failed, lastError := Some(LEASE_EXPIRED), finishedAt := rows[id].leaseUntil,
                    token := None, leaseUntil := None)
        else rows[id];
      assert State() == Swept(old(State()));
      forall id | id in rows ensures id in old(rows) {
        SweepInColumns(old(State()), id);
      }
    }

    /** The candidate of `claim`: the first due job no other transaction has locked. */
    method Candidate(locked: set<nat>) returns (pick: Option<nat>)
      requires Valid()
      ensures pick.None? <==> EligibleIds(State()) <= locked
      ensures pick.None? <==> forall id :: id in rows && IsReady(rows[id], now) ==> id in locked
      ensures pick.Some? ==> FirstUnlocked(State(), locked, pick.value) && GoesFirst(rows, now, locked, pick.value)
    {
      ghost var q := State();
      var candidates := (set id | id in rows && Eligible(rows[id], now)) - locked;
      assert candidates == EligibleIds(q) - locked;
      if candidates == {} {
        assert forall id :: id in EligibleIds(q) ==> id in candidates || id in locked;
        return None;
      }
      ghost var first := FirstExists(q, candidates);
      var id :| id in candidates && forall other :: other in candidates ==> Precedes(rows[id], rows[other]);
      forall other | other in q.rows && other !in locked && Eligible(q.rows[other], q.now)
        ensures Precedes(q.rows[id], q.rows[other])
      {
        assert other in candidates;
      }
      CandidateGoesFirst(q, locked, id);
      pick := Some(id);
    }

    /** The second statement of `claim`. */
    method ClaimNext(locked: set<nat>) returns (job: Option<Job>)
      requires Valid()
      modifies this`rows, this`nextToken
      ensures Valid()
      ensures job.None? <==> old(EligibleIds(State())) <= locked
      ensures job.None? ==>
        State() == old(State()) && forall id :: id in rows && IsReady(rows[id], now) ==> id in locked
      ensures job.Some? ==>
        var j := job.value;
        && FirstUnlocked(old(State()), locked, j.id)
        && State() == Claimed(old(State()), j.id)
        && Holds(State(), j.id, j.token)
        && j == Job(j.id, rows[j.id].owner, rows[j.id].kind, rows[j.id].payload, rows[j.id].attempts,
            rows[j.id].maxAttempts, old(nextToken))
      ensures job.Some? ==>
        var j := job.value;
        && GoesFirst(old(rows), now, locked, j.id)
        && rows == old(rows)[j.id := old(rows)[j.id].(status := Running, attempts := old(rows)[j.id].attempts + 1,
             leaseUntil := Some(now + 90 * SECOND), token := Some(j.token))]
        && forall id :: id in old(rows) ==> old(rows)[id].token != Some(j.token)
    {
      var pick := Candidate(locked);
      if pick.None? {
        return None;
      }
      ghost var q := State();
      var id := pick.value;
      ClaimKeepsValid(q, id);
      var r := rows[id].(status := Running, attempts := rows[id].attempts + 1,
                         leaseUntil := Some(now + LEASE), token := Some(nextToken));
      rows := rows[id := r];
      nextToken := nextToken + 1;
      job := Some(Job(id, r.owner, r.kind, r.payload, r.attempts, r.maxAttempts, r.token.value));
      assert State() == Claimed(q, id);
    }

    /** Extends the lease of whoever holds the row, and of no one else. */
    method Renew(job: Job) returns (renewed: bool)
      requires Valid()
      modifies this`rows
      ensures Valid() && State() == Renewed(old(State()), job.id, job.token)
      ensures renewed <==> old(Holds(State(), job.id, job.token))
      ensures renewed <==>
        job.id in old(rows) && old(rows)[job.id].token == Some(job.token) && old(rows)[job.id].status == Running
      ensures rows ==
        if renewed then old(rows)[job.id := old(rows)[job.id].(leaseUntil := Some(now + 90 * SECOND))] else old(rows)
    {
      renewed := job.id in rows && rows[job.id].token == Some(job.token) && rows[job.id].status == Running;
      if renewed {
        rows := rows[job.id := rows[job.id].(leaseUntil := Some(now + LEASE))];
      }
    }

    /** Records an outcome for whoever holds the row, and for no one else. */
    method Acknowledge(job: Job, outcome: Outcome) returns (recorded: bool)
      requires Valid()
      modifies this`rows
      ensures Valid() && State() == Acknowledged(old(State()), job.id, job.token, outcome)
      ensures recorded <==> old(Holds(State(), job.id, job.token))
      ensures !recorded ==> State() == old(State())
      ensures recorded ==>
        && rows.Keys == old(rows).Keys && (forall id :: id in rows && id != job.id ==> rows[id] == old(rows)[id])
        && var r, r' := old(rows)[job.id], rows[job.id];
        && r'.token.None? && r'.leaseUntil.None? && r'.attempts == r.attempts
        && (r'.status == Completed <==> outcome == Success)
        && (r'.status == Failed <==> outcome != Success && r.attempts >= r.maxAttempts)
        && (r'.status == Pending <==> outcome != Success && r.attempts < r.maxAttempts)
        && (r'.status == Pending ==> now + 5 * SECOND <= r'.runAt <= now + MAX_I32 * SECOND)
        && (r'.payload == if outcome == Success then Cleared else r.payload)
        && (r'.lastError == if outcome == Success then None else Some(outcome.reason))
        && (r'.finishedAt == if r'.status == Pending then None else Some(now))
        && (r'.runAt ==
              if r'.status == Pending then now + Backoff(r.attempts, outcome.retryAfter) * SECOND else r.runAt)
    {
      AcknowledgeKeepsValid(State(), job.id, job.token, outcome);
      var error, retryAfter := None, 0;
      match outcome {
        case Success =>
        case Failure(reason, secs) => error, retryAfter := Some(reason), if secs <= MAX_I32 then secs else MAX_I32;
      }
      recorded := job.id in rows && rows[job.id].token == Some(job.token) && rows[job.id].status == Running;
      if recorded {
        var r := rows[job.id];
        var last := r.attempts >= r.maxAttempts;
        var r' := r.(
          status := if error.None? then Completed else if last then Failed else Pending,
          lastError := error,
          runAt := if error.Some? && !last then now + Backoff(r.attempts, retryAfter) * SECOND else r.runAt,
          finishedAt := if error.None? || last then Some(now) else None,
          payload := if error.None? then Cleared else r.payload,
          leaseUntil := None, token := None);
        assert r' == AcknowledgedRow(r, now, outcome);
        BackoffDoubles(r.attempts, retryAfter);
        rows := rows[job.id := r'];
      }
    }

    /** Deletes the completed jobs finished more than `olderThan` ago, and nothing else. */
    method Prune(olderThan: nat) returns (pruned: nat)
      requires Valid()
      modifies this`rows
      ensures Valid() && State() == Pruned(old(State()), olderThan)
      ensures pruned + |rows| == |old(rows)|
      ensures rows.Keys <= old(rows).Keys
      ensures forall id :: id in old(rows) ==>
        var r := old(rows)[id];
        id !in rows <==> r.status == Completed && r.finishedAt.Some? && r.finishedAt.value < now - olderThan
      ensures forall id :: id in rows ==> rows[id] == old(rows)[id]
    {
      PruneKeepsValid(State(), olderThan);
      PruneRemoves(State(), olderThan);
      var gone := set id | id in rows && Prunable(rows[id], now, olderThan);
      assert gone == PrunableIds(State(), olderThan);
      pruned := |gone|;
      rows := map id | id in rows && !Prunable(rows[id], now, olderThan) :: rows[id];
    }

    /** The counters of `stats`, in one scan. `due` counts exactly what `claim` would accept. The wait is cast to
        whole seconds: to the nearest, a half upwards. */
    method ReadStats() returns (s: Stats)
      requires Valid()
      ensures s.due == |EligibleIds(State())|
      ensures s.scheduled == |ScheduledIds(State())|
      ensures s.running == |RunningIds(State())|
      ensures s.failed24h == |FailedRecentlyIds(State())|
      ensures exists wait ::
        && IsOldest(State(), EligibleIds(State()), wait)
        && s.oldestDueSeconds * SECOND - SECOND / 2 <= wait < s.oldestDueSeconds * SECOND + SECOND / 2
      ensures s.due == |set id | id in rows && IsReady(rows[id], now)|
      ensures s.scheduled == |set id | id in rows && rows[id].status == Pending && rows[id].runAt > now|
      ensures s.running ==
        |set id | id in rows && rows[id].status == Running && rows[id].leaseUntil.Some? &&
          rows[id].leaseUntil.value >= now|
      ensures s.failed24h == |set id | id in rows && FailedInLastDay(rows[id], now)|
    {
      ghost var q := State();
      var due := set id | id in rows && Due(rows[id], now);
      var scheduled := set id | id in rows && rows[id].status == Pending && !Due(rows[id], now);
      var running := set id | id in rows && rows[id].status == Running && !Lapsed(rows[id], now);
      var failed := set id | id in rows && FailedRecently(rows[id], now);
      assert due == EligibleIds(q) by {
        forall id | id in rows ensures Due(rows[id], now) <==> Eligible(rows[id], now) {
          DueIsEligible(rows[id], now);
        }
      }
      assert scheduled == ScheduledIds(q) && running == RunningIds(q) && failed == FailedRecentlyIds(q);
      SetsInColumns(q);
      var oldest := OldestWait(due);
      s := Stats(|due|, |scheduled|, |running|, |failed|, (oldest + SECOND / 2) / SECOND);
    }

    /** COALESCE(NOW() - min(run_at) FILTER (WHERE due), 0), before the cast to BIGINT. */
    method OldestWait(due: set<nat>) returns (wait: int)
      requires due <= rows.Keys && forall id :: id in due ==> rows[id].runAt <= now
      ensures IsOldest(State(), due, wait)
    {
      ghost var q := State();
      var todo, seen := due, {};
      wait := 0;
      while todo != {}
        invariant todo <= due && seen == due - todo
        invariant IsOldest(q, seen, wait)
      {
        var id :| id in todo;
        todo := todo - {id};
        OldestGrows(q, seen, id, wait);
        seen := seen + {id};
        wait := Max(wait, now - rows[id].runAt);
      }
      assert seen == due;
    }
  }
}
