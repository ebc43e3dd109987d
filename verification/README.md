# Verification model of oxidt

A Dafny model of the parts of oxidt whose correctness depends on many steps, many workers or many
inputs, with proofs of what they promise. `dafny verify dfyconfig.toml` checks all of it.

## What is modelled

**The leased job queue** (`JobQueue`, `JobTable`, `JobRuns`, `Leases`). `JobQueue` gives each SQL statement
of `oxidt-jobs` as a function on a table value, `JobTable` the same statements as methods that change a
mutable table, each proved equal to its function. `JobRuns` is any sequence of statements, by any number
of workers, with any time between them. `Leases` adds the workers: claim, renewal and acknowledgement are
sent, applied and answered as separate steps with arbitrary delay, replies may be lost, workers may crash,
and a statement whose sender is gone may still take effect later.

**Durable approved actions** (`DurableActions`, `DurableSafety`, `DurableTheorems`, `ActionStore`,
`DurablePolicy`) on top of
that queue. Submission reads the allowances before it inserts its row; decisions, allowance upserts and
revocations are transactions; `execute` is lock, checks, identity resolution, handler in a savepoint, status
write and commit, with a crash, an error or a lost commit reply possible between any two of them, and with a
different registry in every process. Lease exclusivity is not assumed: any number of attempts may overlap.
`ActionStore` is the same transactions on mutable tables, one at a time, and `DurablePolicy` what they decide, in
the columns of the rows.

**The fresh email proof** (`EmailProof`, `EmailProofSafety`, `EmailProofDelivery`, `EmailProofStore`). `request`
and `confirm` as sequences of backend calls, any number of them interleaved with each other, with expiry, changes
of address and changes of ownership. The backend calls follow the trait's documentation and the reference backend of
its tests.

**The S3 client**. `Calendar` and `SigningTime`: the signer's date conversion and timestamps.
`PercentEncoding` and `CanonicalQuery`: key and query encoding on UTF-8 bytes. `ObjectKeys`: key order and the
configured path prefix. `DeleteXml`: the batch delete body, and what an XML parser reads from it.
`ObjectStore`: the server's answers and the operations as functions on a bucket. `ObjectListing`,
`BatchDelete` and `PrefixCopy`: what those functions compute. `S3Client`: the client's loops, changing the
bucket in place. What the server answers (page sizes, refusals, partial failures, failures after the work was
done) is a parameter of each operation, so every statement holds for all of it.

**PKCE and one-time codes**. `Pkce`: base64url, the challenge recogniser and the comparison, on bit-vectors.
`Authorize`: the order of the authorization endpoint's checks. `Otp`: rejection sampling from a byte stream.

## What is assumed

- A SQL statement, and a transaction from its first row lock to its commit, is one step or a group of steps
  under the locks it takes. Rows that `settle`, `submit` or `execute` lock stay locked between their steps.
- The database clock never goes back. In `Leases`, local timers advance with it and an attempt is dropped no
  later than its `give_up_at`.
- Lease tokens, row ids, allowance ids and code hashes are fresh each time; they are drawn from counters.
- Other users of the job table use neither the agent's dedupe keys and payloads nor `finish` on its jobs.
- Only `prune` deletes job rows; nothing deletes action or allowance rows.
- Hash functions are parameters. A code verifies against a hash exactly when it is the code that was hashed.
- A wait in whole seconds is rounded to the nearest, a half upwards, as a cast of a numeric to BIGINT is.
- The bucket does not change while a listing, delete or copy of this client is under way, other than by it.

## What turned out not to hold, and exactly when it does

- Mutual exclusion of attempts holds if and only if a claim's reply starts the attempt within one renewal
  period (`Leases.ExclusionIffPromptReply`).
- The comment at lib.rs:25-27 of `oxidt-jobs` promises a whole renewal period between the drop of an attempt
  and the lapse of its lease. Every attempt in every run has it if and only if a claim's reply takes no time at
  all (`Leases.WholeMarginIffInstantReply`): the first `give_up_at` is measured from the start of the attempt, so
  the margin is a period less the delay of the reply (`Leases.ExecutingHoldsLease`), which is attained
  (`Leases.SlowReplyMargin`).
- Work keyed by a bucket runs once in every history if and only if prunes keep rows at least as long as the
  bucket lasts (`JobRuns.BucketIsExact`).
- The body of a batch delete carries a key faithfully if and only if the key is XML text without a carriage
  return; `a\rb` is read as `a\nb`, so `delete_many` answers Ok and removes another object
  (`DeleteXml.DeleteRoundTrip`, `BatchDelete.DeleteManyExact`, `BatchDelete.WrongObjectDeleted`).
- `delete_many` takes any 2xx body without readable errors as success. Its Ok can be trusted, whatever the bucket
  and whatever unreadable answers hide, if and only if every key as read is named by a batch whose answer is
  readable (`BatchDelete.TrustedIffReadable`); a server that answers unreadably may leave everything
  (`BatchDelete.GarbledLooksDone`).
- `list_paged` takes a truncated page without a continuation token for the last one. With given answers, a listing
  that succeeds is whole for every bucket if and only if no request that the client gets to is answered with a
  page that leaves out its token if it needs one (`ObjectListing.WholeIffTokensGiven`, `ObjectListing.CutListing`).
- `copy_prefix` copies one object after another. That is the same as copying all of them at once, whatever the
  contents, if and only if no object is written before it is read (`PrefixCopy.CopyIsRenameIff`,
  `PrefixCopy.CollisionExample`). Some bucket makes that happen if and only if the destination prefix properly
  extends the source prefix, or the source the destination by more than repetitions of the last character there is
  (`PrefixCopy.CanCollideIff`).
- The comment at action_proof.rs:256 says that nothing was granted when `confirm` answers `Backend`. That is so if
  and only if its own COMMIT was not made and then reported as an error (`EmailProofSafety.OkIffPerformed`); if it
  was, the action is performed, once, behind that answer (`EmailProofSafety.BackendMayGrant`).
- `delete_prefix` succeeds only if every listed key is one that `validate_key` accepts once the path prefix is
  stripped; an object stored under the bare path prefix, or with a second slash after it, makes it fail
  (`BatchDelete.DeletePrefixExact`, `BatchDelete.UnnameableFails`, `BatchDelete.UnnameableExamples`).

## Model

| member | source | states |
|---|---|---|
| `JobTable.JobTable.Enqueue` | crates/oxidt-jobs/src/lib.rs:35-48 | a taken dedupe key changes nothing; otherwise one pending row with these columns is added and every other row is untouched |
| `JobTable.JobTable.FailLapsed` | crates/oxidt-jobs/src/lib.rs:79-84 | exactly the rows whose final attempt lapsed fail, dated when their lease ended, and none is left |
| `JobTable.JobTable.Candidate` | crates/oxidt-jobs/src/lib.rs:85-92 | a row that is ready and unlocked, of the highest priority among those, then of the earliest run time, then of the earliest creation; none only if every ready row is locked |
| `JobTable.JobTable.ClaimNext` | crates/oxidt-jobs/src/lib.rs:85-103 | that row, now running for 90 seconds under a token no row had, with its attempt counted, and every other row as it was; no job leaves the table unchanged |
| `JobTable.JobTable.Renew` | crates/oxidt-jobs/src/lib.rs:105-111 | true exactly for the token that holds the row, whose lease then ends a full lease from now |
| `JobTable.JobTable.Acknowledge` | crates/oxidt-jobs/src/lib.rs:123-144 | recorded exactly for the holder's token, with backoff, final failure and cleared payload; otherwise nothing changes |
| `JobTable.JobTable.Prune` | crates/oxidt-jobs/src/lib.rs:146-155 | removes exactly the completed rows older than the age, and counts them |
| `JobTable.JobTable.ReadStats` | crates/oxidt-jobs/src/lib.rs:174-197 | each counter is the size of its set of rows, given in the columns, `due` the number of rows a claim would accept, and the oldest wait that of some due row and the longest, to the nearest second |
| `JobQueue.BackoffDoubles` | crates/oxidt-jobs/src/lib.rs:137-137 | 5 seconds doubling per attempt up to an hour, only ever lengthened by a requested delay, which saturates at 32 bits |
| `JobTable.FirstExists` | crates/oxidt-jobs/src/lib.rs:91-91 | among any candidates one precedes all the others, so LIMIT 1 is well defined |
| `JobTable.CandidateGoesFirst` | crates/oxidt-jobs/src/lib.rs:87-91 | the order of the candidate query in the columns: higher priority, then earlier run time, then earlier creation |
| `JobTable.SetsInColumns` | crates/oxidt-jobs/src/lib.rs:178-190 | the sets that the statistics count, in the columns |
| `JobRuns.RunIsValid` | crates/oxidt-jobs/src/lib.rs:78-155 | the lifecycle invariant (row fields, unique live tokens, unique keys) holds in every reachable state |
| `JobRuns.Lifecycle` | crates/oxidt-jobs/src/lib.rs:78-144 | in every reachable state a row runs exactly when it has a token, attempts never exceed the maximum, a pending row has attempts left, a failed one has none |
| `JobRuns.StepsProgress` | crates/oxidt-jobs/src/lib.rs:78-155 | every step but a renewal leaves a row alone or lowers (attempts left, status rank); finished rows never change, and only completed ones are pruned |
| `JobRuns.AttemptsCountClaims` | crates/oxidt-jobs/src/lib.rs:85-97 | over any run a job is claimed at most the maximum number of times, even counting a pruned row's past |
| `JobRuns.TokenRecordsOnce` | crates/oxidt-jobs/src/lib.rs:113-144 | over any run each lease token records at most one outcome, and none while it is live |
| `JobRuns.RetryWaits` | crates/oxidt-jobs/src/lib.rs:134-141 | after a failed attempt that is not the last, nothing that happens during the backoff changes the row, and no worker claims it |
| `JobRuns.StatsAgreeWithClaim` | crates/oxidt-jobs/src/lib.rs:157-197 | in every reachable state `due` is exactly what `claim` accepts, and due, scheduled, running and exhausted rows partition the unfinished ones |
| `JobRuns.SweepKeepsFailures` | crates/oxidt-jobs/src/lib.rs:166-190 | the sweep in `claim` leaves `failed_24h` the same, whenever it is read afterwards |
| `JobRuns.KeyRunsOnce` | crates/oxidt-jobs/src/lib.rs:146-155 | if a key's enqueues fall within the age prunes keep, it gets at most one row and completes at most once over the whole history |
| `JobRuns.KeyRunsTwice` | crates/oxidt-jobs/src/lib.rs:146-155 | for every longer bucket there is a history in which the key's work completes twice |
| `JobRuns.BucketIsExact` | crates/oxidt-jobs/src/lib.rs:146-155 | keyed work runs once in every history if and only if the bucket is no longer than the age prunes keep |
| `Leases.RunKeepsInv` | crates/oxidt-jobs/src/lib.rs:335-372 | the lease invariant holds in every run of any number of workers |
| `Leases.ExecutingHoldsLease` | crates/oxidt-jobs/src/lib.rs:335-372 | an executing worker holds its row's token and gives up a period less the reply's delay before the lease ends, a whole period once a renewal was confirmed |
| `Leases.MutualExclusion` | crates/oxidt-jobs/src/lib.rs:25-28 | in every run with prompt claim replies at most one worker executes a job |
| `Leases.LateReplyOverlaps` | crates/oxidt-jobs/src/lib.rs:344-345 | with any later reply allowed, a run in which two workers execute the same job |
| `Leases.ExclusionIffPromptReply` | crates/oxidt-jobs/src/lib.rs:22-28 | exclusion in every run if and only if replies take at most one renewal period |
| `Leases.SlowReplyMargin` | crates/oxidt-jobs/src/lib.rs:344-345 | for every delay, a run whose first deadline leaves exactly a renewal period less the delay |
| `Leases.WholeMarginIffInstantReply` | crates/oxidt-jobs/src/lib.rs:25-28 | every attempt in every run gives up a whole period before its lease ends if and only if claim replies take no time |
| `Leases.KeepLease` | crates/oxidt-jobs/src/lib.rs:344-360 | however late timers fire and whatever renewals bring, the deadline is two periods after the last confirmed renewal was sent, and the loop stops at the first round past it or refused |
| `Leases.AttemptRunsLoop` | crates/oxidt-jobs/src/lib.rs:335-372 | in every run an attempt is where the loop is after the rounds it has met: its deadline, not yet passed, is two periods after its last confirmed renewal was sent, or after its start |
| `Leases.AttemptStopsWithLoop` | crates/oxidt-jobs/src/lib.rs:347-372 | in every run an attempt ends by itself only where the loop stops: at its deadline, or when its renewal is refused |
| `DurableSafety.RunKeepsInv` | crates/oxidt-agent/src/durable.rs:424-651 | the invariant over actions, jobs, allowances, attempts and in-flight commits holds in every run |
| `DurableTheorems.ExactlyOnce` | crates/oxidt-agent/src/durable.rs:548-651 | in every run a request has one committed handler mutation if it is completed and none otherwise |
| `DurableTheorems.CompletedJobSettled` | crates/oxidt-agent/src/durable.rs:556-650 | in every run a completed job's action has a final status |
| `DurableTheorems.ShownQueuedHasJob` | crates/oxidt-agent/src/durable.rs:341-360 | in every run an action shown as queued has a pending job with attempts left, whatever was pruned |
| `DurableTheorems.ShownPendingDecides` | crates/oxidt-agent/src/durable.rs:344-352 | a pending request is shown as pending exactly when a decision on it now would not find it expired |
| `DurableTheorems.OneJobPerAction` | crates/oxidt-agent/src/durable.rs:657-669 | over every run an action enters queued at most once, and as many jobs were ever inserted for it |
| `DurableTheorems.RevocationIsFinal` | crates/oxidt-agent/src/durable.rs:405-422 | after a revocation returns, in every continuation, no effect under that allowance commits and it stays revoked |
| `DurableTheorems.EffectsRunUnderLiveAllowances` | crates/oxidt-agent/src/durable.rs:576-589 | in every run, whatever step adds an effect, a worker's commit or one whose worker is gone, adds just one, while the allowance its request carries is unrevoked |
| `DurableTheorems.ApprovalGate` | crates/oxidt-agent/src/durable.rs:443-497 | every effect that needed approval was approved by its user, or submitted under that user's then unexpired allowance for the same grant, name and definition |
| `DurableTheorems.ConflictUnreachable` | crates/oxidt-agent/src/durable.rs:606-612 | in every reachable state, whatever registries the processes run, the conflict guard of `execute` cannot fire |
| `ActionStore.ActionStore.FindAllowance` | crates/oxidt-agent/src/durable.rs:695-715 | an allowance is found exactly when an active, unexpired one of this grant and definition exists |
| `ActionStore.ActionStore.Submit` | crates/oxidt-agent/src/durable.rs:717-760 | the whole new state, and which answer: a repeat gets its row, another request under the same id is refused, and both change nothing |
| `ActionStore.ActionStore.Allow` | crates/oxidt-agent/src/durable.rs:671-693 | the active allowance of the grant and capability is replaced, or a new one made, and nothing else changes |
| `ActionStore.ActionStore.EnqueueAction` | crates/oxidt-agent/src/durable.rs:654-669 | the request's one job, under the key derived from its id |
| `ActionStore.ActionStore.Refusal` | crates/oxidt-agent/src/durable.rs:386-466 | the answers that write nothing: refusals in their order, and repeats of the decision |
| `ActionStore.ActionStore.WriteDecision` | crates/oxidt-agent/src/durable.rs:485-498 | the allowance, the row and the job of a decision, written together |
| `ActionStore.ActionStore.Decide` | crates/oxidt-agent/src/durable.rs:466-483 | the status that a pending request gets: expired, rejected, queued or invalidated |
| `ActionStore.ActionStore.Settle` | crates/oxidt-agent/src/durable.rs:424-501 | the whole new state and the answer, for every order of the refusals, repeats, expiry, rejection and invalidation |
| `ActionStore.ActionStore.RevokeAllowance` | crates/oxidt-agent/src/durable.rs:405-422 | revoked exactly when the reviewer owns it, and nothing else changes |
| `ActionStore.ActionStore.Execute` | crates/oxidt-agent/src/durable.rs:548-651 | the whole new state and the answer, with the handler's mutations rolled back on every error, including a resolver, a statement or a COMMIT that fails |
| `ActionStore.ActionStore.Check` | crates/oxidt-agent/src/durable.rs:568-612 | the verdict of the checks, in their order |
| `ActionStore.ActionStore.Handle` | crates/oxidt-agent/src/durable.rs:613-650 | the handler's mutations and its status are written together or not at all |
| `ActionStore.DecidedOnce` | crates/oxidt-agent/src/durable.rs:374-466 | a request is decided once: no later decision changes anything, and the same one again is answered with its status, or with a conflict if it had come out expired, invalidated, or as a rejection asking for an allowance |
| `ActionStore.ExecutedOnce` | crates/oxidt-agent/src/durable.rs:548-651 | an attempt leaves nothing behind or a final status, with one effect more exactly for a completion, and answers success only for a request that is no longer queued |
| `ActionStore.IdleIffSettled` | crates/oxidt-agent/src/durable.rs:556-567 | an undisturbed attempt does nothing and answers success exactly when the request is no longer queued |
| `ActionStore.ExecuteIsAttempt` | crates/oxidt-agent/src/durable.rs:548-651 | the in-place execution and the concurrent attempt run without interruption give the same store and answer |
| `DurablePolicy.ExecutesExactly` | crates/oxidt-agent/src/durable.rs:572-650 | in the columns, exactly when an undisturbed attempt at a queued request completes, fails, expires or invalidates it: it adds its effect if and only if the request has not lapsed, its allowance stands, the registry has its definition, the resolver gives its requester with the permission, its review is there, and the handler succeeds |
| `DurablePolicy.FaultsExactly` | crates/oxidt-agent/src/durable.rs:554-650 | a failing statement or COMMIT leaves nothing behind, or all that would have been written, and is not answered with success |
| `DurablePolicy.LapsedNeverRuns` | crates/oxidt-agent/src/durable.rs:572-604 | in every run, once an attempt vets a request past its expiry, the request has no effect in any continuation |
| `DurablePolicy.SettlesExactly` | crates/oxidt-agent/src/durable.rs:434-497 | in the columns, exactly which decisions change something, and the row, allowance and job they leave |
| `DurablePolicy.SettleAnswers` | crates/oxidt-agent/src/durable.rs:396-466 | in the columns, exactly when `settle` answers with each error, with a repeat, or with the decision |
| `DurablePolicy.UpsertsExactly` | crates/oxidt-agent/src/durable.rs:671-693 | the allowance row that is written: the unrevoked one of the grant and capability, or a new one |
| `DurablePolicy.SubmitsExactly` | crates/oxidt-agent/src/durable.rs:695-760 | in the columns, the row and job that a new submission leaves: queued at once exactly when no approval is required or a usable allowance stands in for it, for a day |
| `EmailProofSafety.RunKeepsInv` | crates/oxidt-auth/src/action_proof.rs:264-360 | the invariant over proofs, counters, hashes and running calls is kept by every interleaving |
| `EmailProofSafety.CodeSpentOnce` | crates/oxidt-auth/src/action_proof.rs:214-232 | over every run a hash authorises at most one performed action, with its own code, for exactly its action, user, session and target |
| `EmailProofSafety.OkIffPerformed` | crates/oxidt-auth/src/action_proof.rs:242-360 | in every run `confirm` performs at most once; Ok means it did, every other answer but `Backend` that it did not, and `Backend` that it did exactly when its COMMIT was made and reported as an error |
| `EmailProofSafety.BackendMayGrant` | crates/oxidt-auth/src/action_proof.rs:256-257 | for every binding, address and code a run in which `confirm` answers `Backend` and the passkey is removed |
| `EmailProofDelivery.PerformedInTime` | crates/oxidt-auth/src/action_proof.rs:214-232 | in every run, whatever step performs an action, the address its code was minted for is then the account's, the code was stored less than five minutes ago, and the user owns the target |
| `EmailProofDelivery.MintedForOwner` | crates/oxidt-auth/src/action_proof.rs:171-176 | a code is minted for the current address of the account that owns the target, or not at all |
| `EmailProofSafety.DeadForGood` | crates/oxidt-auth/src/action_proof.rs:193-232 | a hash that was stored and is no longer pending never performs again, in any continuation |
| `EmailProofSafety.ResendWins` | crates/oxidt-auth/src/action_proof.rs:178-183 | once a newer proof is stored for the same action, user and session, no older code performs, not even one already verified |
| `EmailProofSafety.PendingEnds` | crates/oxidt-auth/src/action_proof.rs:193-199 | in every run a pending proof ends only by being spent, by a newer one, or by the failed mail of its own request, so a failed send spares every other code |
| `EmailProofSafety.GuessBound` | crates/oxidt-auth/src/action_proof.rs:22-28 | over every run at most five guesses are charged per stored code, malformed ones included, and per action and user there are no more verifications than the quota nor than five per stored proof |
| `EmailProofStore.ProofStore.ChargeIssue` | crates/oxidt-auth/src/action_proof.rs:437-462 | counts one issuance for the action and user and says whether it is within quota |
| `EmailProofStore.ProofStore.ChargeGuess` | crates/oxidt-auth/src/action_proof.rs:437-466 | counts one guess for the action and user and says whether it is within quota |
| `EmailProofStore.ProofStore.StorePending` | crates/oxidt-auth/src/action_proof.rs:474-485 | replaces the one pending proof of the action, user and session |
| `EmailProofStore.ProofStore.DiscardPending` | crates/oxidt-auth/src/action_proof.rs:506-517 | removes the proof only if it still has this hash; every proof with another hash stays |
| `EmailProofStore.ProofStore.ChargeAttempt` | crates/oxidt-auth/src/action_proof.rs:519-534 | one attempt is charged and the hash returned exactly when a matching, unexpired proof has attempts left |
| `EmailProofStore.ProofStore.ConsumeAndPerform` | crates/oxidt-auth/src/action_proof.rs:536-559 | the proof is spent and the action performed together exactly when the proof matches in every column, has not lapsed, was mailed to the current address, and the user owns the target; otherwise nothing changes |
| `EmailProofStore.Request` | crates/oxidt-auth/src/action_proof.rs:264-313 | which answer, and the pending proofs after it: replaced on success, none after a failed send, untouched when refused |
| `EmailProofStore.Confirm` | crates/oxidt-auth/src/action_proof.rs:315-360 | Ok exactly when quota, target, time, attempts, the six digits, the address and the ownership all fit, and then the proof is spent and the action performed; otherwise neither |
| `Calendar.SteppedCounts` | crates/oxidt-s3/src/signer.rs:248-261 | stepping day by day in either direction stays on valid dates and counts days |
| `Calendar.CivilCounts` | crates/oxidt-s3/src/signer.rs:248-261 | for every day count the result is a valid date whose day number gives the count back |
| `Calendar.CivilIsStepped` | crates/oxidt-s3/src/signer.rs:248-261 | for every day count, negative ones included, the result is the date reached by stepping the calendar from 1970-01-01 |
| `Calendar.CivilInverts` | crates/oxidt-s3/src/signer.rs:248-261 | every valid date is the result for exactly one day count, the forward day count |
| `Calendar.CivilMonotone` | crates/oxidt-s3/src/signer.rs:248-261 | a later day count gives a later date, and conversely |
| `SigningTime.StampNamesSecond` | crates/oxidt-s3/src/signer.rs:230-246 | reading the timestamp's digits back gives the second it was made for, clamped to the epoch, in every year |
| `SigningTime.StampShape` | crates/oxidt-s3/src/signer.rs:230-244 | digits, with a `T` before the time and a `Z` after it |
| `SigningTime.StampWidth` | crates/oxidt-s3/src/signer.rs:230-246 | the timestamp has 16 characters and the date 8 exactly before the year 10000, and the date is the timestamp's first part |
| `PercentEncoding.DecodeEncode` | crates/oxidt-s3/src/signer.rs:21-48 | percent-decoding undoes both the key and the query encoder |
| `PercentEncoding.EncodeCharset` | crates/oxidt-s3/src/signer.rs:21-35 | only unreserved characters, `%` and, for keys, `/` are left |
| `PercentEncoding.EncodesExactly` | crates/oxidt-s3/src/signer.rs:21-31 | exactly the 66 unreserved characters, and `/` in keys, stay; any other byte is `%` and two upper-case hexadecimal digits, the high one first |
| `PercentEncoding.CanonicalIsEncoded` | crates/oxidt-s3/src/signer.rs:21-48 | a string is an encoder's output exactly when every byte outside the set is `%` and two upper-case hexadecimal digits and every byte in it stands for itself |
| `CanonicalQuery.Sort` | crates/oxidt-s3/src/signer.rs:63-65 | the encoded pairs are sorted in place |
| `CanonicalQuery.EncodeQuery` | crates/oxidt-s3/src/signer.rs:50-71 | the encoded pairs, sorted in place by encoded name and then encoded value and joined, read back in that byte order and decode to a permutation of the parameters |
| `CanonicalQuery.SortedOrdered` | crates/oxidt-s3/src/signer.rs:63-65 | sorting gives an ordered permutation, by encoded name and then encoded value |
| `CanonicalQuery.SortUnique` | crates/oxidt-s3/src/signer.rs:63-65 | a list has only one ordered permutation, whatever sorts it |
| `CanonicalQuery.QueryParsesBack` | crates/oxidt-s3/src/signer.rs:50-71 | the query splits back into the sorted encoded pairs, which decode to a permutation of the parameters |
| `CanonicalQuery.QueryInByteOrder` | crates/oxidt-s3/src/signer.rs:63-65 | read back, the names come in byte order, and the values of one name in byte order |
| `CanonicalQuery.QueryText` | crates/oxidt-s3/src/signer.rs:66-70 | a parameter is name, `=` and value, and two are joined by `&`, the smaller encoded name first |
| `CanonicalQuery.SameQueryIffPermuted` | crates/oxidt-s3/src/signer.rs:50-71 | two parameter lists give the same query if and only if one is a permutation of the other |
| `ObjectKeys.PrefixIsTrimmed` | crates/oxidt-s3/src/config.rs:85-91 | the prefix is the configured one less exactly its surrounding slashes, none when only slashes are left |
| `ObjectKeys.StoredKey` | crates/oxidt-s3/src/config.rs:85-111 | whatever slashes surround the configured prefix `p`, a key is stored as `p/key`, without a prefix as itself, and a key outside the prefix is not stripped |
| `ObjectKeys.PrefixRoundTrip` | crates/oxidt-s3/src/config.rs:93-111 | stripping undoes prefixing for every key, and prefixing undoes stripping for every key under the prefix |
| `ObjectKeys.PrefixIsKept` | crates/oxidt-s3/src/config.rs:93-99 | a stored key starts with a stored prefix exactly when the caller's key starts with the caller's prefix |
| `DeleteXml.DeleteRequest` | crates/oxidt-s3/src/xml.rs:72-92 | the nested loops write the header, every key escaped in its element, and the footer |
| `DeleteXml.BodyInFull` | crates/oxidt-s3/src/xml.rs:72-92 | the body literally: its start and end, what each key adds, and the five entities |
| `DeleteXml.DeleteReadsBack` | crates/oxidt-s3/src/xml.rs:72-92 | a parser reads back every key in order with its line ends normalised, or rejects the body exactly when a character is outside XML |
| `DeleteXml.DeleteRoundTrip` | crates/oxidt-s3/src/xml.rs:72-92 | unescaping undoes escaping if and only if every key is XML text without a carriage return |
| `DeleteXml.CarriageReturnIsLost` | crates/oxidt-s3/src/xml.rs:79-87 | a key with a carriage return is read as the key with a line feed there |
| `ObjectListing.PageContinues` | crates/oxidt-s3/src/client.rs:234-261 | the keys after a page's last one are exactly the rest of the listing |
| `ObjectListing.ListingExact` | crates/oxidt-s3/src/client.rs:218-261 | a listing holds exactly the objects under the prefix, each once, in key order, under the caller's keys |
| `ObjectListing.ListingOutcome` | crates/oxidt-s3/src/client.rs:234-261 | a listing that succeeds is a prefix of the full one, and the full one if and only if its last page was not a truncated one |
| `ObjectListing.WholeIffTokensGiven` | crates/oxidt-s3/src/client.rs:234-261 | for given answers, a successful listing is whole for every bucket if and only if no request it gets to is answered with a page that leaves out its token |
| `ObjectListing.CutListing` | crates/oxidt-s3/src/client.rs:257-260 | a first page of one object without a token is returned as the whole listing |
| `BatchDelete.ChunksPartition` | crates/oxidt-s3/src/client.rs:179-183 | the batches concatenate to the list, with 1000 keys each but for a shorter last one |
| `BatchDelete.BatchOutcome` | crates/oxidt-s3/src/client.rs:183-213 | a batch succeeds exactly when its keys are valid and XML and the answer reports nothing, readable or not, and what it then removes |
| `BatchDelete.DeleteManyOutcome` | crates/oxidt-s3/src/client.rs:179-216 | exactly when `delete_many` succeeds, and exactly when the bucket is then the original less the keys as read |
| `BatchDelete.TrustedIffReadable` | crates/oxidt-s3/src/xml.rs:94-108 | Ok means the original less the keys as read, for every bucket and whatever unreadable answers hide, if and only if every such key is named by a batch with a readable answer |
| `BatchDelete.ReadableAnswers` | crates/oxidt-s3/src/client.rs:179-216 | with readable answers, success means the original less the keys as read |
| `BatchDelete.GarbledLooksDone` | crates/oxidt-s3/src/xml.rs:94-108 | with answers that are no `DeleteResult`, Ok while every object is still there |
| `BatchDelete.WrongObjectDeleted` | crates/oxidt-s3/src/client.rs:179-216 | `a\rb` is deleted with Ok, and `a\nb` is gone instead |
| `BatchDelete.DeleteManyExact` | crates/oxidt-s3/src/client.rs:179-216 | every bucket loses exactly the named objects if and only if every key is valid and readable |
| `BatchDelete.RunStops` | crates/oxidt-s3/src/client.rs:179-213 | an error stops at one batch: those before are done, those after not sent |
| `BatchDelete.BatchError` | crates/oxidt-s3/src/client.rs:184-211 | a failing batch touches only its own keys: none for a bad key, all but the reported ones for a partial failure |
| `BatchDelete.DeletePrefixExact` | crates/oxidt-s3/src/client.rs:296-307 | `delete_prefix` removes exactly the objects under the prefix if and only if each has a key the client can name |
| `BatchDelete.UnnameableFails` | crates/oxidt-s3/src/client.rs:296-307 | `delete_prefix` fails on an object that `validate_key` does not let the client name, and removes nothing |
| `BatchDelete.UnnameableExamples` | crates/oxidt-s3/src/config.rs:101-111 | such as `p/` and `p//x` under the path prefix `p` |
| `PrefixCopy.CopyIsRename` | crates/oxidt-s3/src/client.rs:309-319 | without a collision, one copy after another is all of them at once, for all contents |
| `PrefixCopy.CopyIsRenameIff` | crates/oxidt-s3/src/client.rs:309-319 | with distinct contents the two agree if and only if no object is written before it is read |
| `PrefixCopy.CollisionExample` | crates/oxidt-s3/src/client.rs:309-319 | with the objects `aab` and `ab`, stripping the prefix `a` answers Ok, and `b` holds the content of `aab` |
| `PrefixCopy.UnrelatedPrefixes` | crates/oxidt-s3/src/client.rs:309-319 | there is no collision unless one prefix properly extends the other |
| `PrefixCopy.CanCollideIff` | crates/oxidt-s3/src/client.rs:309-319 | some bucket makes two prefixes collide if and only if the destination properly extends the source, or the source the destination by more than repetitions of the last character there is |
| `PrefixCopy.CopyPrefixOutcome` | crates/oxidt-s3/src/client.rs:309-319 | a successful `copy_prefix` leaves the sequential copies, and the bucket plus its renamed copies when the prefixes are unrelated |
| `PrefixCopy.CopyPrefixStops` | crates/oxidt-s3/src/client.rs:309-319 | a failing `copy_prefix` has copied the first objects, and the next has a bad key or is refused, with or without its copy made; no error is `NotFound` |
| `PrefixCopy.CopiesExactly` | crates/oxidt-s3/src/client.rs:264-294 | exactly when one copy succeeds, and exactly when it answers with each error |
| `S3Client.Client.ListPaged` | crates/oxidt-s3/src/client.rs:226-261 | for every page size above 0 a prefix of the listing, and all of it however the server cuts its pages as long as no request it gets to is answered with a page that leaves out its token |
| `S3Client.Client.SendBatch` | crates/oxidt-s3/src/client.rs:183-213 | one batch: validated as a whole before anything is sent, then the request and its answer |
| `S3Client.Client.DeleteMany` | crates/oxidt-s3/src/client.rs:182-216 | the bucket and the answer are those of the run of batches that `BatchDelete` describes |
| `S3Client.Client.Copy` | crates/oxidt-s3/src/client.rs:264-294 | on success the destination holds what the source held; which error when, and that nothing but the destination ever changes |
| `S3Client.Client.DeletePrefix` | crates/oxidt-s3/src/client.rs:296-307 | the bucket and the answer are those of the run of batches over the listing, and the count is its length |
| `S3Client.Client.CopyPrefix` | crates/oxidt-s3/src/client.rs:309-319 | the slice is always in range, and the bucket and the answer are those of the run of copies over the listing |
| `Pkce.VerifyPkce` | crates/oxidt-crypto/src/pkce.rs:47-57 | the accumulated difference is zero exactly when the challenge is the verifier's, which is to say 43 characters of the alphabet that are its digest as a number |
| `Pkce.EncodesNumber` | crates/oxidt-crypto/src/pkce.rs:25-27 | read as base-64 digits by their places in the RFC 4648 alphabet, the characters are the bytes as a base-256 number, shifted by the bits that fill the last one |
| `Pkce.NamesExactly` | crates/oxidt-crypto/src/pkce.rs:25-27 | 43 characters of the alphabet that are the digest as a number are its encoding, and nothing else is |
| `Pkce.DecodeEncode` | crates/oxidt-crypto/src/pkce.rs:25-27 | decoding undoes unpadded base64url encoding for every byte string |
| `Pkce.CanonicalIsEncoded` | crates/oxidt-crypto/src/pkce.rs:25-27 | a text is an encoding exactly when it is in the alphabet, of a possible length, and has no bits beyond the last byte |
| `Pkce.ChallengeExact` | crates/oxidt-mcp-oauth/src/authorize.rs:145-155 | the recogniser accepts a string if and only if it encodes some 32 bytes |
| `Pkce.ChallengeBinds` | crates/oxidt-crypto/src/pkce.rs:11-57 | every challenge made is recognised, and two verifiers share one exactly when they hash alike |
| `Authorize.AcceptedExactly` | crates/oxidt-mcp-oauth/src/authorize.rs:81-135 | a request is accepted exactly when its target is trusted, its parameters well-formed, and its challenge the encoding of a digest, which the kept challenge decodes to |
| `Authorize.RefusedExactly` | crates/oxidt-mcp-oauth/src/authorize.rs:95-128 | exactly when each error is given, and that an untrusted target gets no redirect |
| `Authorize.AcceptedBinds` | crates/oxidt-mcp-oauth/src/authorize.rs:81-135 | an honest client is never refused for its challenge, and the kept challenge admits exactly the verifiers with its digest |
| `Otp.GenerateOtp` | crates/oxidt-crypto/src/random.rs:52-84 | on every byte stream digit `i` is the `i`-th byte below 250 modulo ten, however the rounds fall |
| `Otp.AcceptedAre` | crates/oxidt-crypto/src/random.rs:73-79 | the bytes that count are exactly those below 250, in their order |
| `Otp.CodeIsWellFormed` | crates/oxidt-auth/src/action_proof.rs:287-341 | a generated code always has the form `confirm` insists on |
| `Otp.PreimagesExact` | crates/oxidt-crypto/src/random.rs:73-79 | the preimages of a digit string are exactly the accepted byte strings that give it |
| `Otp.PreimagesCount` | crates/oxidt-crypto/src/random.rs:73-79 | every digit string of a length has the same number of preimages, 25 for each digit |

## Left out

- Statements about progress under fairness: that a due job is eventually claimed, or that a listing of a changing bucket ends.
- `DurableTheorems.ShownQueuedHasJob`: says nothing about what is shown while a commit is in flight after a timeout, which the code does not promise to be stable.
- `DurableTheorems.RevocationIsFinal`: says nothing about allowances that the host deletes; an action whose allowance row is missing is stopped by the same check.
- `EmailProofSafety.GuessBound`: one quota window; counters that an application resets start a new run.
- `S3Client.Client.Copy`: the 200 answer with an error body is one of the refusals.
- `Calendar.CivilIsStepped`: day counts within 146,096 days of the limits of `i64`, where the additions overflow.
- The XML of a listing page: keys that the server's XML cannot carry, and pages without it.
- Host-side retention of finished actions, `record` for other readers than the reviewer, and the status tool.
- HTTP transport, retries, headers, signatures, URL normalisation (keys with `.` or `..` segments), presigning and public URLs.
- The shape of `scope` strings and of redirect allowlists: parameters of `Authorize`.
- Argon2, SHA-256, HMAC and AES themselves, and anything about timing.
- Everything else in the workspace: network plumbing, document builders and single-branch checks would only add easy members.
