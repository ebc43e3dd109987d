/** The `background_jobs` table of `oxidt-jobs`: its rows, the SQL statements
    that change them as functions on a table value, and a mutable table whose
    methods are proved against those functions.

    Every statement is one atomic step. Times are microseconds of the database
    clock. Row ids and lease tokens are fresh UUIDs in the source; here they are
    drawn from counters that only grow. */
module JobQueue {
  import opened Wrappers

  type Time = int

  const SECOND: nat := 1_000_000
  const LEASE: nat := 90 * SECOND
  const RENEWAL: nat := 30 * SECOND
  const DAY: nat := 86_400 * SECOND
  const DEFAULT_MAX_ATTEMPTS: nat := 5
  const MAX_I32: nat := 0x7FFF_FFFF
  const LEASE_EXPIRED := "Worker lease expired"

  datatype Status = Pending | Running | Completed | Failed

  /** Dedupe keys. `ForAction` is the key `durable.rs` derives from a request id. */
  datatype Key = ForAction(request: nat) | ForApp(name: string)

  /** Completing a job clears its payload to `{}`. */
  datatype Payload = Cleared | ActionRequest(request: nat) | Task(body: string)

  datatype Row = Row(
    owner: Option<nat>,
    kind: string,
    payload: Payload,
    priority: int,
    runAt: Time,
    createdAt: Time,
    key: Option<Key>,
    status: Status,
    attempts: nat,
    maxAttempts: nat,
    token: Option<nat>,
    leaseUntil: Option<Time>,
    finishedAt: Option<Time>,
    lastError: Option<string>)

  datatype Queue = Queue(rows: map<nat, Row>, now: Time, nextId: nat, nextToken: nat)

  /** What a worker reports. `retryAfter` is 0 for a plain failure. */
  datatype Outcome = Success | Failure(reason: string, retryAfter: nat)

  // ---- Predicates the SQL conditions are built from ----

  predicate Lapsed(r: Row, now: Time) {
    r.status == Running && r.leaseUntil.Some? && r.leaseUntil.value < now
  }

  /** The WHERE clause of `claim`'s candidate query. */
  predicate Eligible(r: Row, now: Time) {
    r.attempts < r.maxAttempts && ((r.status == Pending && r.runAt <= now) || Lapsed(r, now))
  }

  /** ORDER BY priority DESC, run_at, created_at. */
  predicate Precedes(a: Row, b: Row) {
    if a.priority != b.priority then a.priority > b.priority
    else if a.runAt != b.runAt then a.runAt < b.runAt
    else a.createdAt <= b.createdAt
  }

  /** FOR UPDATE SKIP LOCKED LIMIT 1: the first candidate no other transaction holds. */
  predicate FirstUnlocked(q: Queue, locked: set<nat>, id: nat) {
    id in q.rows && id !in locked && Eligible(q.rows[id], q.now) &&
    forall other :: other in q.rows && other !in locked && Eligible(q.rows[other], q.now) ==>
      Precedes(q.rows[id], q.rows[other])
  }

  predicate Holds(q: Queue, id: nat, token: nat) {
    id in q.rows && q.rows[id].token == Some(token) && q.rows[id].status == Running
  }

  predicate KeyTaken(rows: map<nat, Row>, key: Option<Key>) {
    key.Some? && exists id :: id in rows && rows[id].key == key
  }

  // ---- The statements, as functions on the table ----

  function NewRow(q: Queue, owner: Option<nat>, kind: string, payload: Payload, priority: int, runAt: Time,
      key: Option<Key>): Row {
    Row(owner, kind, payload, priority, runAt, q.now, key, Pending, 0, DEFAULT_MAX_ATTEMPTS, None, None, None, None)
  }

  function Enqueued(q: Queue, owner: Option<nat>, kind: string, payload: Payload, priority: int, runAt: Time,
      key: Option<Key>): Queue {
    if KeyTaken(q.rows, key) then q
    else q.(rows := q.rows[q.nextId := NewRow(q, owner, kind, payload, priority, runAt, key)], nextId := q.nextId + 1)
  }

  function SweptRow(r: Row, now: Time): Row {
    if Lapsed(r, now) && r.attempts >= r.maxAttempts then
      r.(status := Failed, lastError := Some(LEASE_EXPIRED), finishedAt := r.leaseUntil,
         leaseUntil := None, token := None)
    else r
  }

  /** The first statement of `claim`: fail the rows whose final attempt lapsed. */
  function Swept(q: Queue): Queue {
    q.(rows := map id | id in q.rows :: SweptRow(q.rows[id], q.now))
  }

  /** The second statement of `claim`, for the candidate it picked. */
  function Claimed(q: Queue, id: nat): Queue
    requires id in q.rows
  {
    var r := q.rows[id];
    q.(rows := q.rows[id := r.(status := Running, attempts := r.attempts + 1,
                               leaseUntil := Some(q.now + LEASE), token := Some(q.nextToken))],
       nextToken := q.nextToken + 1)
  }

  function Renewed(q: Queue, id: nat, token: nat): Queue {
    if Holds(q, id, token) then
      q.(rows := q.rows[id := q.rows[id].(leaseUntil := Some(q.now + LEASE))])
    else q
  }

  function Power2(n: nat): (p: nat)
    ensures p >= 1
  {
    if n == 0 then 1 else 2 * Power2(n - 1)
  }

  function Min(a: int, b: int): int { if a < b then a else b }

  function Max(a: int, b: int): int { if a < b then b else a }

  /** Seconds until the next attempt: exponential, at most an hour, at least `retryAfter`. */
  function Backoff(attempts: nat, retryAfter: nat): int {
    Max(Min(retryAfter, MAX_I32), Min(3600, 5 * Power2(attempts)))
  }

  /** Without a requested delay, 5 seconds doubling with every attempt up to an hour; a requested delay
      only ever lengthens that. */
  lemma BackoffDoubles(attempts: nat, retryAfter: nat)
    ensures Backoff(0, 0) == 5 && Backoff(attempts + 1, 0) == Min(3600, 2 * Backoff(attempts, 0))
    ensures retryAfter <= MAX_I32 ==> Backoff(attempts, retryAfter) == Max(retryAfter, Backoff(attempts, 0))
    ensures retryAfter > MAX_I32 ==> Backoff(attempts, retryAfter) == MAX_I32
    ensures 5 <= Backoff(attempts, 0) <= 3600
  {
    assert Power2(attempts + 1) == 2 * Power2(attempts);
  }

  function AcknowledgedRow(r: Row, now: Time, outcome: Outcome): Row {
    match outcome
    case Success =>
      r.(status := Completed, lastError := None, finishedAt := Some(now), payload := Cleared,
         leaseUntil := None, token := None)
    case Failure(reason, retryAfter) =>
      if r.attempts >= r.maxAttempts then
        r.(status := Failed, lastError := Some(reason), finishedAt := Some(now), leaseUntil := None, token := None)
      else
        r.(status := Pending, lastError := Some(reason), runAt := now + Backoff(r.attempts, retryAfter) * SECOND,
           finishedAt := None, leaseUntil := None, token := None)
  }

  function Acknowledged(q: Queue, id: nat, token: nat, outcome: Outcome): Queue {
    if Holds(q, id, token) then q.(rows := q.rows[id := AcknowledgedRow(q.rows[id], q.now, outcome)])
    else q
  }

  predicate Prunable(r: Row, now: Time, olderThan: nat) {
    r.status == Completed && r.finishedAt.Some? && r.finishedAt.value < now - olderThan
  }

  function Pruned(q: Queue, olderThan: nat): Queue {
    q.(rows := map id | id in q.rows && !Prunable(q.rows[id], q.now, olderThan) :: q.rows[id])
  }

  function Ticked(q: Queue, elapsed: nat): Queue {
    q.(now := q.now + elapsed)
  }

  function EmptyQueue(now: Time): Queue { Queue(map[], now, 0, 0) }

  // ---- The lifecycle invariant ----

  predicate RowOk(r: Row, now: Time) {
    && 1 <= r.maxAttempts <= 20
    && r.attempts <= r.maxAttempts
    && (r.status == Running <==> r.token.Some?)
    && (r.token.Some? <==> r.leaseUntil.Some?)
    && (r.finishedAt.Some? <==> r.status == Completed || r.status == Failed)
    && (r.status == Pending ==> r.attempts < r.maxAttempts)
    && (r.status != Pending ==> r.attempts >= 1)
    && (r.status == Failed ==> r.attempts >= r.maxAttempts)
    && (r.status == Running ==> r.leaseUntil.value <= now + LEASE && r.runAt <= now)
    && (r.finishedAt.Some? ==> r.createdAt <= r.finishedAt.value <= now)
    && (r.status == Running ==> r.createdAt <= r.leaseUntil.value)
    && r.createdAt <= now
  }

  ghost predicate RowsOk(q: Queue) {
    forall id :: id in q.rows ==> id < q.nextId && RowOk(q.rows[id], q.now)
  }

  ghost predicate TokensOk(q: Queue) {
    && (forall id :: id in q.rows && q.rows[id].token.Some? ==> q.rows[id].token.value < q.nextToken)
    && (forall a, b ::
          a in q.rows && b in q.rows && q.rows[a].token.Some? && q.rows[a].token == q.rows[b].token ==> a == b)
  }

  /** `dedupe_key TEXT UNIQUE`. */
  ghost predicate KeysOk(q: Queue) {
    forall a, b :: a in q.rows && b in q.rows && q.rows[a].key.Some? && q.rows[a].key == q.rows[b].key ==> a == b
  }

  ghost predicate Valid(q: Queue) {
    RowsOk(q) && TokensOk(q) && KeysOk(q)
  }

  // ---- Statistics ----

  /** `due` as `stats` defines it: it does not test attempts on pending rows. */
  predicate Due(r: Row, now: Time) {
    (r.status == Pending && r.runAt <= now) || (Lapsed(r, now) && r.attempts < r.maxAttempts)
  }

  predicate FailedRecently(r: Row, now: Time) {
    (r.status == Failed && r.finishedAt.Some? && r.finishedAt.value > now - DAY) ||
    (Lapsed(r, now) && r.attempts >= r.maxAttempts && r.leaseUntil.value > now - DAY)
  }

  function DueIds(q: Queue): set<nat> { set id | id in q.rows && Due(q.rows[id], q.now) }

  function ScheduledIds(q: Queue): set<nat> {
    set id | id in q.rows && q.rows[id].status == Pending && !Due(q.rows[id], q.now)
  }

  function RunningIds(q: Queue): set<nat> {
    set id | id in q.rows && q.rows[id].status == Running && !Lapsed(q.rows[id], q.now)
  }

  function FailedRecentlyIds(q: Queue): set<nat> {
    set id | id in q.rows && FailedRecently(q.rows[id], q.now)
  }

  function EligibleIds(q: Queue): set<nat> { set id | id in q.rows && Eligible(q.rows[id], q.now) }

  /** Rows whose final attempt lapsed and that no sweep has failed yet. */
  function ExhaustedIds(q: Queue): set<nat> {
    set id | id in q.rows && Lapsed(q.rows[id], q.now) && q.rows[id].attempts >= q.rows[id].maxAttempts
  }

  function OpenIds(q: Queue): set<nat> {
    set id | id in q.rows && (q.rows[id].status == Pending || q.rows[id].status == Running)
  }

  datatype Stats = Stats(due: nat, scheduled: nat, running: nat, failed24h: nat, oldestDueSeconds: nat)

  // ---- Statement lemmas: each keeps the lifecycle invariant ----

  lemma EnqueueKeepsValid(q: Queue, owner: Option<nat>, kind: string, payload: Payload, priority: int, runAt: Time,
      key: Option<Key>)
    requires Valid(q)
    ensures Valid(Enqueued(q, owner, kind, payload, priority, runAt, key))
  {
    if !KeyTaken(q.rows, key) { RowAdds(q, NewRow(q, owner, kind, payload, priority, runAt, key)); }
  }

  /** A row under the next id, with a key of its own and no token. */
  lemma RowAdds(q: Queue, row: Row)
    requires Valid(q) && RowOk(row, q.now) && row.token.None? && !KeyTaken(q.rows, row.key)
    ensures Valid(q.(rows := q.rows[q.nextId := row], nextId := q.nextId + 1))
    ensures q.nextId !in q.rows
  {
  }

  lemma SweepKeepsValid(q: Queue)
    requires Valid(q)
    ensures Valid(Swept(q))
  {
    var q' := Swept(q);
    forall id | id in q'.rows
      ensures RowOk(q'.rows[id], q'.now) && q'.rows[id].key == q.rows[id].key
      ensures q'.rows[id].token.Some? ==> q'.rows[id].token == q.rows[id].token
    {
      SweptRowOk(q.rows[id], q.now);
    }
  }

  lemma SweptRowOk(r: Row, now: Time)
    requires RowOk(r, now)
    ensures RowOk(SweptRow(r, now), now)
    ensures SweptRow(r, now).key == r.key
    ensures SweptRow(r, now).token.Some? ==> SweptRow(r, now) == r
  {
  }

  lemma ClaimKeepsValid(q: Queue, id: nat)
    requires Valid(q) && id in q.rows && Eligible(q.rows[id], q.now)
    ensures Valid(Claimed(q, id))
    ensures Holds(Claimed(q, id), id, q.nextToken)
  {
  }

  lemma RenewKeepsValid(q: Queue, id: nat, token: nat)
    requires Valid(q)
    ensures Valid(Renewed(q, id, token))
  {
  }

  lemma AcknowledgeKeepsValid(q: Queue, id: nat, token: nat, outcome: Outcome)
    requires Valid(q)
    ensures Valid(Acknowledged(q, id, token, outcome))
  {
    if Holds(q, id, token) { AcknowledgedRowOk(q.rows[id], q.now, outcome); }
  }

  lemma AcknowledgedRowOk(r: Row, now: Time, outcome: Outcome)
    requires RowOk(r, now) && r.status == Running
    ensures RowOk(AcknowledgedRow(r, now, outcome), now)
    ensures AcknowledgedRow(r, now, outcome).token.None? && AcknowledgedRow(r, now, outcome).key == r.key
  {
  }

  lemma PruneKeepsValid(q: Queue, olderThan: nat)
    requires Valid(q)
    ensures Valid(Pruned(q, olderThan))
  {
  }
}
