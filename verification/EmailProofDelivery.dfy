/** A code is good only at the address it was minted for, and only for as long as it lasts. */
module EmailProofDelivery {
  import opened EmailProof
  import opened EmailProofSafety

  const LIFETIME := 300

  /** A request about to store its code has it under the address it was minted for. */
  ghost predicate StoringOk(requests: map<nat, Requesting>, addressOf: map<nat, string>) {
    forall p :: p in requests && requests[p].Storing? ==>
      requests[p].pending.hash in addressOf && addressOf[requests[p].pending.hash] == requests[p].pending.recipient
  }

  /** A pending proof goes to that address, and lapses five minutes after it was stored. */
  ghost predicate RowTimed(row: Row, addressOf: map<nat, string>, storedAt: map<nat, int>, now: int) {
    && row.hash in addressOf && addressOf[row.hash] == row.recipient
    && row.hash in storedAt && storedAt[row.hash] <= now && row.expiresAt == storedAt[row.hash] + LIFETIME
  }

  ghost predicate PendingOk(proofs: map<Key, Row>, addressOf: map<nat, string>, storedAt: map<nat, int>, now: int) {
    forall k :: k in proofs ==> RowTimed(proofs[k], addressOf, storedAt, now)
  }

  ghost predicate Timed(s: System, addressOf: map<nat, string>, storedAt: map<nat, int>) {
    && addressOf.Keys == s.codes.Keys
    && StoringOk(s.requests, addressOf)
    && PendingOk(s.db.proofs, addressOf, storedAt, s.db.now)
  }

  // ---- The history of a run ----

  /** The address a hash is minted for at `e`. */
  ghost function AddressesAfter(addressOf: map<nat, string>, s: System, e: Event): map<nat, string> {
    if e.Mint? && e.p in s.requests && s.requests[e.p].Minting? && WellFormed(e.code) then
      addressOf[s.nextHash := s.requests[e.p].recipient]
    else addressOf
  }

  /** When the request of `e` stores its hash, also in a call that then fails. */
  ghost function TimesAfter(storedAt: map<nat, int>, s: System, e: Event): map<nat, int> {
    if (e.Store? || (e.FailRequest? && e.applied)) && e.p in s.requests && s.requests[e.p].Storing? then
      storedAt[s.requests[e.p].pending.hash := s.db.now]
    else storedAt
  }

  /** The address each hash was minted for in the run. */
  ghost function Addresses(start: System, events: seq<Event>): map<nat, string> {
    if events == [] then map[]
    else
      var init := events[..|events| - 1];
      AddressesAfter(Addresses(start, init), Run(start, init), events[|events| - 1])
  }

  /** When each hash was stored in the run. */
  ghost function Times(start: System, events: seq<Event>): map<nat, int> {
    if events == [] then map[]
    else
      var init := events[..|events| - 1];
      TimesAfter(Times(start, init), Run(start, init), events[|events| - 1])
  }

  // ---- Every step keeps it ----

  lemma MintKeepsTimed(s: System, e: Event, addressOf: map<nat, string>, storedAt: map<nat, int>)
    requires Timed(s, addressOf, storedAt) && HashesOk(s.codes, s.issuedFor, s.nextHash, s.stored) && e.Mint?
    ensures Timed(MintStep(s, e.p, e.code), AddressesAfter(addressOf, s, e), storedAt)
  {
  }

  lemma StoreKeepsTimed(s: System, e: Event, addressOf: map<nat, string>, storedAt: map<nat, int>)
    requires Timed(s, addressOf, storedAt) && RequestsOk(s.requests, s.issuedFor, s.stored)
    requires ProofsOk(s.db.proofs, s.issuedFor, s.stored) && (e.Store? || (e.FailRequest? && e.applied))
    ensures Timed(StoreStep(s, e.p), addressOf, TimesAfter(storedAt, s, e))
  {
    if e.p in s.requests && s.requests[e.p].Storing? {
      var h := s.requests[e.p].pending.hash;
      assert forall k :: k in s.db.proofs ==> s.db.proofs[k].hash != h;
    }
  }

  /** Fewer proofs, and at most one request that moved, but not to storing a code. */
  ghost predicate MovesOnly(s: System, s': System, p: nat) {
    && s'.codes == s.codes && s'.db.now == s.db.now && FewerPending(s.db.proofs, s'.db.proofs)
    && (forall q :: q in s'.requests && q != p ==> q in s.requests && s'.requests[q] == s.requests[q])
    && (p in s'.requests && s'.requests[p].Storing? ==> p in s.requests && s'.requests[p] == s.requests[p])
  }

  lemma LessKeepsTimed(s: System, s': System, p: nat, addressOf: map<nat, string>, storedAt: map<nat, int>)
    requires Timed(s, addressOf, storedAt) && MovesOnly(s, s', p)
    ensures Timed(s', addressOf, storedAt)
  {
  }

  lemma IssueMovesOnly(s: System, p: nat)
    ensures MovesOnly(s, IssueStep(s, p), p)
  {
  }

  lemma DiscardMovesOnly(s: System, p: nat, ok: bool)
    ensures MovesOnly(s, DiscardStep(s, p, ok), p)
  {
  }

  lemma AddressMovesOnly(s: System, p: nat)
    ensures MovesOnly(s, AddressStep(s, p), p)
  {
  }

  lemma SendMovesOnly(s: System, p: nat, ok: bool)
    ensures MovesOnly(s, SendStep(s, p, ok), p)
  {
  }

  /** A failure, whatever its call did, ends the request. */
  lemma EndMovesOnly(s: System, s1: System, p: nat)
    requires MovesOnly(s, s1, p)
    ensures MovesOnly(s, SetRequest(s1, p, Requested(Backend)), p)
  {
  }

  lemma FailureMovesOnly(s: System, p: nat, applied: bool)
    requires !applied || p !in s.requests || !s.requests[p].Storing?
    ensures MovesOnly(s, FailRequestStep(s, p, applied), p)
  {
    IssueMovesOnly(s, p);
    DiscardMovesOnly(s, p, true);
    if p in s.requests { EndMovesOnly(s, if applied then RequestCall(s, p) else s, p); }
  }

  lemma OtherRequestKeepsTimed(s: System, e: Event, addressOf: map<nat, string>, storedAt: map<nat, int>)
    requires Timed(s, addressOf, storedAt)
    requires !e.Mint? && !e.Store? && !e.FailRequest?
    ensures Timed(ApplyRequest(s, e), addressOf, storedAt)
  {
    match e
    case ChargeIssue(p) =>
      IssueMovesOnly(s, p);
      LessKeepsTimed(s, IssueStep(s, p), p, addressOf, storedAt);
    case Address(p) =>
      AddressMovesOnly(s, p);
      LessKeepsTimed(s, AddressStep(s, p), p, addressOf, storedAt);
    case Send(p, ok) =>
      SendMovesOnly(s, p, ok);
      LessKeepsTimed(s, SendStep(s, p, ok), p, addressOf, storedAt);
    case Discard(p, ok) =>
      DiscardMovesOnly(s, p, ok);
      LessKeepsTimed(s, DiscardStep(s, p, ok), p, addressOf, storedAt);
    case _ =>
  }

  lemma FailedRequestKeepsTimed(s: System, e: Event, addressOf: map<nat, string>, storedAt: map<nat, int>)
    requires Timed(s, addressOf, storedAt) && RequestsOk(s.requests, s.issuedFor, s.stored)
    requires ProofsOk(s.db.proofs, s.issuedFor, s.stored) && e.FailRequest?
    ensures Timed(FailRequestStep(s, e.p, e.applied), addressOf, TimesAfter(storedAt, s, e))
  {
    if e.applied && e.p in s.requests && s.requests[e.p].Storing? {
      var s1 := StoreStep(s, e.p);
      StoreKeepsTimed(s, e, addressOf, storedAt);
      EndMovesOnly(s1, s1, e.p);
      LessKeepsTimed(s1, FailRequestStep(s, e.p, true), e.p, addressOf, TimesAfter(storedAt, s, e));
    } else {
      FailureMovesOnly(s, e.p, e.applied);
      LessKeepsTimed(s, FailRequestStep(s, e.p, e.applied), e.p, addressOf, storedAt);
    }
  }

  lemma RequestKeepsTimed(s: System, e: Event, addressOf: map<nat, string>, storedAt: map<nat, int>)
    requires Timed(s, addressOf, storedAt) && HashesOk(s.codes, s.issuedFor, s.nextHash, s.stored)
    requires RequestsOk(s.requests, s.issuedFor, s.stored) && ProofsOk(s.db.proofs, s.issuedFor, s.stored)
    ensures Timed(ApplyRequest(s, e), AddressesAfter(addressOf, s, e), TimesAfter(storedAt, s, e))
  {
    if e.Mint? {
      MintKeepsTimed(s, e, addressOf, storedAt);
    } else if e.Store? {
      StoreKeepsTimed(s, e, addressOf, storedAt);
    } else if e.FailRequest? {
      FailedRequestKeepsTimed(s, e, addressOf, storedAt);
    } else {
      OtherRequestKeepsTimed(s, e, addressOf, storedAt);
    }
  }

  lemma AttemptKeepsTimed(s: System, p: nat, addressOf: map<nat, string>, storedAt: map<nat, int>)
    requires Timed(s, addressOf, storedAt)
    ensures Timed(AttemptStep(s, p), addressOf, storedAt)
  {
  }

  ghost predicate KeepsRequests(s: System, s': System) {
    && s'.requests == s.requests && s'.codes == s.codes && s'.db.now == s.db.now
    && FewerPending(s.db.proofs, s'.db.proofs)
  }

  lemma GuessKeeps(s: System, p: nat)
    ensures KeepsRequests(s, GuessStep(s, p))
  {
  }

  lemma VerifyKeeps(s: System, p: nat)
    ensures KeepsRequests(s, VerifyStep(s, p))
  {
  }

  lemma ConsumeKeeps(s: System, p: nat)
    ensures KeepsRequests(s, ConsumeStep(s, p))
  {
  }

  lemma ConfirmKeepsTimed(s: System, e: Event, addressOf: map<nat, string>, storedAt: map<nat, int>)
    requires Timed(s, addressOf, storedAt)
    ensures Timed(ApplyConfirm(s, e), addressOf, storedAt)
  {
    match e
    case ChargeAttempt(p) => AttemptKeepsTimed(s, p, addressOf, storedAt);
    case ChargeGuess(p) => GuessKeeps(s, p);
    case Verify(p) => VerifyKeeps(s, p);
    case Consume(p) => ConsumeKeeps(s, p);
    case FailConfirm(p, applied) => FailedConfirmKeepsTimed(s, p, applied, addressOf, storedAt);
    case _ =>
  }

  lemma FailedConfirmKeepsTimed(s: System, p: nat, applied: bool, addressOf: map<nat, string>,
      storedAt: map<nat, int>)
    requires Timed(s, addressOf, storedAt)
    ensures Timed(FailConfirmStep(s, p, applied), addressOf, storedAt)
  {
    AttemptKeepsTimed(s, p, addressOf, storedAt);
    GuessKeeps(s, p);
    ConsumeKeeps(s, p);
  }

  lemma StepKeepsTimed(s: System, e: Event, addressOf: map<nat, string>, storedAt: map<nat, int>)
    requires Timed(s, addressOf, storedAt) && HashesOk(s.codes, s.issuedFor, s.nextHash, s.stored)
    requires RequestsOk(s.requests, s.issuedFor, s.stored) && ProofsOk(s.db.proofs, s.issuedFor, s.stored)
    ensures Timed(Apply(s, e), AddressesAfter(addressOf, s, e), TimesAfter(storedAt, s, e))
  {
    RequestKeepsTimed(s, e, addressOf, storedAt);
    ConfirmKeepsTimed(s, e, addressOf, storedAt);
  }

  lemma {:induction false} RunKeepsTimed(issueLimit: nat, guessLimit: nat, events: seq<Event>)
    ensures var start := Start(issueLimit, guessLimit);
      Timed(Run(start, events), Addresses(start, events), Times(start, events))
  {
    if events != [] {
      var start, init := Start(issueLimit, guessLimit), events[..|events| - 1];
      RunKeepsTimed(issueLimit, guessLimit, init);
      StartIsOk(issueLimit, guessLimit);
      RunKeepsInv(start, init);
      StepKeepsTimed(Run(start, init), events[|events| - 1], Addresses(start, init), Times(start, init));
    }
  }

  // ---- The main results ----

  /** The code of `d` was minted for the address that the account has now, stored less than five minutes ago, and
      the user has the passkey that goes. */
  ghost predicate InTime(s: System, addressOf: map<nat, string>, storedAt: map<nat, int>, d: Performed) {
    && d.hash in addressOf && d.b.user in s.db.emails && s.db.emails[d.b.user] == addressOf[d.hash]
    && d.hash in storedAt && storedAt[d.hash] <= s.db.now < storedAt[d.hash] + LIFETIME
    && (d.b.user, d.b.target) in s.db.passkeys
  }

  lemma ConsumesInTime(s: System, p: nat, addressOf: map<nat, string>, storedAt: map<nat, int>)
    returns (d: Performed)
    requires Timed(s, addressOf, storedAt) && ConsumeStep(s, p).performed != s.performed
    ensures ConsumeStep(s, p).performed == s.performed + [d] && InTime(s, addressOf, storedAt, d)
  {
    var c := s.confirms[p];
    d := Performed(p, c.b, c.hash, c.code);
    assert RowTimed(s.db.proofs[KeyOf(c.b)], addressOf, storedAt, s.db.now);
  }

  lemma FailedConsumesInTime(s: System, p: nat, applied: bool, addressOf: map<nat, string>, storedAt: map<nat, int>)
    returns (d: Performed)
    requires Timed(s, addressOf, storedAt) && FailConfirmStep(s, p, applied).performed != s.performed
    ensures FailConfirmStep(s, p, applied).performed == s.performed + [d] && InTime(s, addressOf, storedAt, d)
  {
    GuessPerformsNone(s, p, p);
    AttemptPerformsNone(s, p, p);
    d := ConsumesInTime(s, p, addressOf, storedAt);
  }

  lemma ConfirmInTime(s: System, e: Event, addressOf: map<nat, string>, storedAt: map<nat, int>)
    returns (d: Performed)
    requires Timed(s, addressOf, storedAt) && ApplyConfirm(s, e).performed != s.performed
    ensures ApplyConfirm(s, e).performed == s.performed + [d] && InTime(s, addressOf, storedAt, d)
  {
    match e
    case Consume(p) => d := ConsumesInTime(s, p, addressOf, storedAt);
    case FailConfirm(p, applied) => d := FailedConsumesInTime(s, p, applied, addressOf, storedAt);
    case ChargeGuess(p) => GuessPerformsNone(s, p, p);
    case ChargeAttempt(p) => AttemptPerformsNone(s, p, p);
    case Verify(p) => VerifyPerformsNone(s, p, p);
    case _ =>
  }

  /** In every run, whatever step performs an action, it does so while the address the code was minted for is still
      the account's, while the code has not lapsed, and while the user owns the target. */
  lemma PerformedInTime(issueLimit: nat, guessLimit: nat, events: seq<Event>, e: Event) returns (d: Performed)
    requires var s := Run(Start(issueLimit, guessLimit), events); Apply(s, e).performed != s.performed
    ensures var start := Start(issueLimit, guessLimit);
      var s := Run(start, events);
      && Apply(s, e).performed == s.performed + [d]
      && InTime(s, Addresses(start, events), Times(start, events), d)
  {
    var start := Start(issueLimit, guessLimit);
    var s := Run(start, events);
    RunKeepsTimed(issueLimit, guessLimit, events);
    RequestKeepsConfirms(s, e);
    d := ConfirmInTime(s, e, Addresses(start, events), Times(start, events));
  }

  /** And a code is minted for the address of the account that owns the target, or not at all. */
  lemma MintedForOwner(s: System, p: nat)
    requires p in s.requests && s.requests[p].Addressing?
    ensures var b, s' := s.requests[p].b, Apply(s, Address(p));
      s'.requests[p] == if (b.user, b.target) in s.db.passkeys && b.user in s.db.emails
                        then Minting(b, s.db.emails[b.user]) else Requested(NotFound)
  {
  }
}
