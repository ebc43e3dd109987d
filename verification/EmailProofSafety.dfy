/** What every interleaving of `request` and `confirm` keeps, and the guarantees
    `action_proof.rs` makes: a code is spent once and only for its binding, a
    resend wins, and guesses are bounded. */
module EmailProofSafety {
  import opened Wrappers
  import opened EmailProof

  // ---- The invariant ----

  ghost predicate HashesOk(codes: map<nat, string>, issuedFor: map<nat, Binding>, nextHash: nat, stored: set<nat>) {
    && codes.Keys == issuedFor.Keys
    && (forall h :: h in codes ==> h < nextHash)
    && stored <= issuedFor.Keys
  }

  ghost predicate SameHash(a: Requesting, b: Requesting) {
    a.Storing? && b.Storing? && a.pending.hash == b.pending.hash
  }

  /** A hash about to be stored belongs to one request, and was never stored. */
  ghost predicate RequestsOk(requests: map<nat, Requesting>, issuedFor: map<nat, Binding>, stored: set<nat>) {
    && (forall p :: p in requests && requests[p].Storing? ==>
          requests[p].pending.hash in issuedFor && requests[p].pending.hash !in stored &&
          issuedFor[requests[p].pending.hash] == requests[p].pending.binding)
    && (forall p, q :: p in requests && q in requests && SameHash(requests[p], requests[q]) ==> p == q)
  }

  /** Each pending proof holds a stored hash, minted for exactly its key and target. */
  ghost predicate ProofsOk(proofs: map<Key, Row>, issuedFor: map<nat, Binding>, stored: set<nat>) {
    forall k :: k in proofs ==>
      && proofs[k].hash in stored && proofs[k].hash in issuedFor
      && KeyOf(issuedFor[proofs[k].hash]) == k && issuedFor[proofs[k].hash].target == proofs[k].target
      && proofs[k].attempts <= MAX_ATTEMPTS
  }

  ghost predicate IsPending(proofs: map<Key, Row>, issuedFor: map<nat, Binding>, h: nat) {
    h in issuedFor && KeyOf(issuedFor[h]) in proofs && proofs[KeyOf(issuedFor[h])].hash == h
  }

  function ChargedWith(charged: map<nat, nat>, h: nat): set<nat> { set p | p in charged && charged[p] == h }

  function PassedFor(passed: map<nat, Binding>, action: string, user: string): set<nat> {
    set p | p in passed && passed[p].action == action && passed[p].user == user
  }

  /** A pending proof's counter counts exactly the confirmations charged on its hash. */
  ghost predicate ChargesOk(proofs: map<Key, Row>, issuedFor: map<nat, Binding>, charged: map<nat, nat>) {
    forall h {:trigger ChargedWith(charged, h)} ::
      && |ChargedWith(charged, h)| <= MAX_ATTEMPTS
      && (IsPending(proofs, issuedFor, h) ==> |ChargedWith(charged, h)| == proofs[KeyOf(issuedFor[h])].attempts)
  }

  ghost predicate QuotaOk(guessed: map<(string, string), nat>, guessLimit: nat, passed: map<nat, Binding>) {
    forall a, u {:trigger PassedFor(passed, a, u)} ::
      |PassedFor(passed, a, u)| <= CountOf(guessed, a, u) && |PassedFor(passed, a, u)| <= guessLimit
  }

  /** The history of confirmation `p` agrees with where it is. */
  ghost predicate ConfirmOk(p: nat, c: Confirming, passed: map<nat, Binding>, charged: map<nat, nat>, checked: set<nat>,
                            codes: map<nat, string>, issuedFor: map<nat, Binding>) {
    && (c.Guessing? ==> p !in passed && p !in charged)
    && (c.Charging? ==> p in passed && passed[p] == c.b && p !in charged)
    && (c.Checking? || c.Consuming? ==>
          p in passed && passed[p] == c.b && p in charged && charged[p] == c.hash &&
          c.hash in issuedFor && issuedFor[c.hash] == c.b)
    && (c.Consuming? ==> p in checked && c.hash in codes && codes[c.hash] == c.code)
  }

  ghost predicate ConfirmsOk(confirms: map<nat, Confirming>, passed: map<nat, Binding>, charged: map<nat, nat>,
                             checked: set<nat>, codes: map<nat, string>, issuedFor: map<nat, Binding>) {
    && passed.Keys <= confirms.Keys
    && (forall p :: p in confirms ==> ConfirmOk(p, confirms[p], passed, charged, checked, codes, issuedFor))
  }

  ghost predicate HistoryOk(passed: map<nat, Binding>, charged: map<nat, nat>, checked: set<nat>,
                            issuedFor: map<nat, Binding>, stored: set<nat>) {
    && checked <= charged.Keys <= passed.Keys
    && (forall p :: p in charged ==>
          charged[p] in stored && charged[p] in issuedFor && issuedFor[charged[p]] == passed[p])
  }

  ghost function PerformedBy(performed: seq<Performed>, p: nat): nat {
    if performed == [] then 0
    else PerformedBy(performed[..|performed| - 1], p) + if performed[|performed| - 1].p == p then 1 else 0
  }

  /** A performed action used a code minted for exactly its binding, and its hash is spent. */
  ghost predicate SpentOk(d: Performed, proofs: map<Key, Row>, issuedFor: map<nat, Binding>, codes: map<nat, string>,
                          stored: set<nat>) {
    && d.hash in stored && !IsPending(proofs, issuedFor, d.hash)
    && d.hash in issuedFor && issuedFor[d.hash] == d.b
    && d.hash in codes && codes[d.hash] == d.code
  }

  ghost predicate PerformedOk(performed: seq<Performed>, proofs: map<Key, Row>, issuedFor: map<nat, Binding>,
                              codes: map<nat, string>, stored: set<nat>) {
    && (forall i :: 0 <= i < |performed| ==> SpentOk(performed[i], proofs, issuedFor, codes, stored))
    && (forall i, j :: 0 <= i < j < |performed| ==> performed[i].hash != performed[j].hash)
  }

  /** Ok for one action performed, `Backend` for one or none, every other answer for none. */
  ghost predicate AnswerOk(performed: seq<Performed>, confirms: map<nat, Confirming>, p: nat) {
    if p in confirms && confirms[p] == Confirmed(Done) then PerformedBy(performed, p) == 1
    else if p in confirms && confirms[p] == Confirmed(Backend) then PerformedBy(performed, p) <= 1
    else PerformedBy(performed, p) == 0
  }

  ghost predicate AnswersOk(performed: seq<Performed>, confirms: map<nat, Confirming>) {
    forall p :: AnswerOk(performed, confirms, p)
  }

  ghost predicate Inv(s: System) {
    && HashesOk(s.codes, s.issuedFor, s.nextHash, s.stored)
    && RequestsOk(s.requests, s.issuedFor, s.stored)
    && ProofsOk(s.db.proofs, s.issuedFor, s.stored)
    && ChargesOk(s.db.proofs, s.issuedFor, s.charged)
    && QuotaOk(s.db.guessed, s.db.guessLimit, s.passed)
    && ConfirmsOk(s.confirms, s.passed, s.charged, s.checked, s.codes, s.issuedFor)
    && HistoryOk(s.passed, s.charged, s.checked, s.issuedFor, s.stored)
    && PerformedOk(s.performed, s.db.proofs, s.issuedFor, s.codes, s.stored)
    && AnswersOk(s.performed, s.confirms)
  }

  // ---- Request steps ----

  lemma EnvironmentKeepsInv(s: System, e: Event)
    requires Inv(s) && (e.Tick? || e.ChangeEmail? || e.ChangePasskeys?)
    ensures Inv(Apply(s, e))
  {
  }

  lemma RequestMoves(s: System, p: nat, r: Requesting)
    requires RequestsOk(s.requests, s.issuedFor, s.stored) && !r.Storing?
    ensures RequestsOk(s.requests[p := r], s.issuedFor, s.stored)
  {
  }

  /** Request steps that touch no proof. */
  lemma QuietRequestKeepsInv(s: System, e: Event)
    requires Inv(s)
    requires e.StartRequest? || e.Address? || e.Send?
    ensures Inv(ApplyRequest(s, e))
  {
    var s' := ApplyRequest(s, e);
    if s' != s { RequestMoves(s, e.p, s'.requests[e.p]); }
  }

  lemma IssueKeepsInv(s: System, p: nat)
    requires Inv(s)
    ensures Inv(IssueStep(s, p))
  {
    var s' := IssueStep(s, p);
    if s' != s { RequestMoves(s, p, s'.requests[p]); }
  }

  /** Minting adds a hash no one has seen. */
  lemma MintKeepsInv(s: System, p: nat, code: string)
    requires Inv(s)
    ensures Inv(MintStep(s, p, code))
  {
    if p in s.requests && s.requests[p].Minting? && WellFormed(code) {
      var h, b := s.nextHash, s.requests[p].b;
      MintKeepsHashes(s, p, code);
      GrowKeepsConfirms(s, s.codes[h := code], s.issuedFor[h := b]);
      GrowKeepsProofs(s, s.codes[h := code], s.issuedFor[h := b], h);
    }
  }

  lemma MintKeepsHashes(s: System, p: nat, code: string)
    requires HashesOk(s.codes, s.issuedFor, s.nextHash, s.stored) && RequestsOk(s.requests, s.issuedFor, s.stored)
    requires p in s.requests && s.requests[p].Minting?
    ensures var h, b := s.nextHash, s.requests[p].b;
      && HashesOk(s.codes[h := code], s.issuedFor[h := b], h + 1, s.stored)
      && RequestsOk(s.requests[p := Storing(Pending(b, s.requests[p].recipient, h))], s.issuedFor[h := b], s.stored)
  {
  }

  lemma GrowKeepsConfirms(s: System, codes': map<nat, string>, issuedFor': map<nat, Binding>)
    requires ConfirmsOk(s.confirms, s.passed, s.charged, s.checked, s.codes, s.issuedFor)
    requires HistoryOk(s.passed, s.charged, s.checked, s.issuedFor, s.stored)
    requires forall h :: h in s.codes ==> h in codes' && codes'[h] == s.codes[h]
    requires forall h :: h in s.issuedFor ==> h in issuedFor' && issuedFor'[h] == s.issuedFor[h]
    ensures ConfirmsOk(s.confirms, s.passed, s.charged, s.checked, codes', issuedFor')
    ensures HistoryOk(s.passed, s.charged, s.checked, issuedFor', s.stored)
  {
  }

  lemma GrowKeepsProofs(s: System, codes': map<nat, string>, issuedFor': map<nat, Binding>, h: nat)
    requires ProofsOk(s.db.proofs, s.issuedFor, s.stored) && ChargesOk(s.db.proofs, s.issuedFor, s.charged)
    requires PerformedOk(s.performed, s.db.proofs, s.issuedFor, s.codes, s.stored)
    requires h !in s.issuedFor && issuedFor'.Keys == s.issuedFor.Keys + {h} && s.stored <= s.issuedFor.Keys
    requires forall g :: g in s.codes ==> g in codes' && codes'[g] == s.codes[g]
    requires forall g :: g in s.issuedFor ==> issuedFor'[g] == s.issuedFor[g]
    ensures ProofsOk(s.db.proofs, issuedFor', s.stored) && ChargesOk(s.db.proofs, issuedFor', s.charged)
    ensures PerformedOk(s.performed, s.db.proofs, issuedFor', codes', s.stored)
  {
    forall g | IsPending(s.db.proofs, issuedFor', g) ensures IsPending(s.db.proofs, s.issuedFor, g) {
      assert s.db.proofs[KeyOf(issuedFor'[g])].hash in s.stored;
    }
    forall i | 0 <= i < |s.performed| ensures SpentOk(s.performed[i], s.db.proofs, issuedFor', codes', s.stored) {
      assert SpentOk(s.performed[i], s.db.proofs, s.issuedFor, s.codes, s.stored);
    }
  }

  /** Nothing becomes pending, and what stays pending keeps its row. */
  ghost predicate FewerPending(proofs: map<Key, Row>, proofs': map<Key, Row>) {
    forall k :: k in proofs' ==> k in proofs && proofs'[k] == proofs[k]
  }

  lemma FewerPendingOk(s: System, proofs': map<Key, Row>)
    requires ProofsOk(s.db.proofs, s.issuedFor, s.stored) && ChargesOk(s.db.proofs, s.issuedFor, s.charged)
    requires PerformedOk(s.performed, s.db.proofs, s.issuedFor, s.codes, s.stored)
    requires FewerPending(s.db.proofs, proofs')
    ensures ProofsOk(proofs', s.issuedFor, s.stored) && ChargesOk(proofs', s.issuedFor, s.charged)
    ensures PerformedOk(s.performed, proofs', s.issuedFor, s.codes, s.stored)
  {
    forall h {:trigger IsPending(proofs', s.issuedFor, h)} | IsPending(proofs', s.issuedFor, h)
      ensures IsPending(s.db.proofs, s.issuedFor, h) {}
    forall i | 0 <= i < |s.performed| ensures SpentOk(s.performed[i], proofs', s.issuedFor, s.codes, s.stored) {
      assert SpentOk(s.performed[i], s.db.proofs, s.issuedFor, s.codes, s.stored);
    }
  }

  lemma StoreKeepsProofs(s: System, pending: Pending, row: Row)
    requires ProofsOk(s.db.proofs, s.issuedFor, s.stored) && ChargesOk(s.db.proofs, s.issuedFor, s.charged)
    requires PerformedOk(s.performed, s.db.proofs, s.issuedFor, s.codes, s.stored)
    requires HistoryOk(s.passed, s.charged, s.checked, s.issuedFor, s.stored)
    requires pending.hash in s.issuedFor && pending.hash !in s.stored && s.issuedFor[pending.hash] == pending.binding
    requires row.hash == pending.hash && row.target == pending.binding.target && row.attempts == 0
    ensures var proofs', stored' := s.db.proofs[KeyOf(pending.binding) := row], s.stored + {pending.hash};
      && ProofsOk(proofs', s.issuedFor, stored') && ChargesOk(proofs', s.issuedFor, s.charged)
      && PerformedOk(s.performed, proofs', s.issuedFor, s.codes, stored')
  {
    var h := pending.hash;
    var proofs', stored' := s.db.proofs[KeyOf(pending.binding) := row], s.stored + {h};
    forall g {:trigger IsPending(proofs', s.issuedFor, g)} | IsPending(proofs', s.issuedFor, g) && g != h
      ensures IsPending(s.db.proofs, s.issuedFor, g)
      ensures proofs'[KeyOf(s.issuedFor[g])] == s.db.proofs[KeyOf(s.issuedFor[g])] {}
    assert ChargedWith(s.charged, h) == {};
    forall i | 0 <= i < |s.performed| ensures SpentOk(s.performed[i], proofs', s.issuedFor, s.codes, stored') {
      assert SpentOk(s.performed[i], s.db.proofs, s.issuedFor, s.codes, s.stored);
    }
  }

  lemma StoreKeepsRequests(s: System, p: nat)
    requires RequestsOk(s.requests, s.issuedFor, s.stored) && p in s.requests && s.requests[p].Storing?
    ensures RequestsOk(s.requests[p := Sending(s.requests[p].pending)], s.issuedFor,
        s.stored + {s.requests[p].pending.hash})
  {
    forall q | q in s.requests && q != p && s.requests[q].Storing?
      ensures s.requests[q].pending.hash != s.requests[p].pending.hash
    {
      assert !SameHash(s.requests[q], s.requests[p]);
    }
  }

  lemma StoreKeepsInv(s: System, p: nat)
    requires Inv(s)
    ensures Inv(StoreStep(s, p))
  {
    if p in s.requests && s.requests[p].Storing? {
      var pending := s.requests[p].pending;
      StoreKeepsRequests(s, p);
      StoreKeepsProofs(s, pending, Row(pending.binding.target, pending.recipient, pending.hash, 0,
          s.db.now + CODE_TTL));
      assert HistoryOk(s.passed, s.charged, s.checked, s.issuedFor, s.stored + {pending.hash});
    }
  }

  lemma DiscardKeepsInv(s: System, p: nat, ok: bool)
    requires Inv(s)
    ensures Inv(DiscardStep(s, p, ok))
  {
    if p in s.requests && s.requests[p].Discarding? {
      RequestMoves(s, p, Requested(Delivery));
      FewerPendingOk(s, DiscardStep(s, p, ok).db.proofs);
    }
  }

  /** A failure, after the call's effect or before it. */
  lemma FailRequestKeepsInv(s: System, p: nat, applied: bool)
    requires Inv(s)
    ensures Inv(FailRequestStep(s, p, applied))
  {
    if p in s.requests && !s.requests[p].Requested? {
      var s1 := if applied then RequestCall(s, p) else s;
      if applied { RequestCallKeepsInv(s, p); }
      RequestMoves(s1, p, Requested(Backend));
    }
  }

  lemma RequestCallKeepsInv(s: System, p: nat)
    requires Inv(s) && p in s.requests
    ensures Inv(RequestCall(s, p))
  {
    match s.requests[p]
    case Asking(_) => IssueKeepsInv(s, p);
    case Storing(_) => StoreKeepsInv(s, p);
    case Discarding(_) => DiscardKeepsInv(s, p, true);
    case _ =>
  }

  // ---- Confirm steps ----

  lemma ConfirmMoves(s: System, p: nat, c: Confirming)
    requires ConfirmsOk(s.confirms, s.passed, s.charged, s.checked, s.codes, s.issuedFor)
    requires ConfirmOk(p, c, s.passed, s.charged, s.checked, s.codes, s.issuedFor)
    ensures ConfirmsOk(s.confirms[p := c], s.passed, s.charged, s.checked, s.codes, s.issuedFor)
  {
  }

  lemma AnswerMoves(s: System, p: nat, c: Confirming)
    requires AnswersOk(s.performed, s.confirms) && c != Confirmed(Done)
    requires p in s.confirms ==> !s.confirms[p].Confirmed?
    ensures AnswersOk(s.performed, s.confirms[p := c])
  {
    var confirms' := s.confirms[p := c];
    forall q ensures AnswerOk(s.performed, confirms', q) {
      assert AnswerOk(s.performed, s.confirms, q);
    }
  }

  /** Starting, failing, and every rejection change nothing but the confirmation itself. */
  lemma EndingKeepsInv(s: System, p: nat, c: Confirming)
    requires Inv(s) && (c.Confirmed? || (c.Guessing? && p !in s.confirms)) && c != Confirmed(Done)
    requires p in s.confirms ==> !s.confirms[p].Confirmed?
    ensures Inv(SetConfirm(s, p, c))
  {
    assert p !in s.confirms ==> p !in s.passed;
    ConfirmMoves(s, p, c);
    AnswerMoves(s, p, c);
  }

  lemma PassedGrows(passed: map<nat, Binding>, p: nat, b: Binding, action: string, user: string)
    requires p !in passed
    ensures |PassedFor(passed[p := b], action, user)| ==
      |PassedFor(passed, action, user)| + if b.action == action && b.user == user then 1 else 0
  {
    var now, before := PassedFor(passed[p := b], action, user), PassedFor(passed, action, user);
    assert now == if b.action == action && b.user == user then before + {p} else before;
  }

  lemma ChargeGuessKeepsQuota(s: System, p: nat, b: Binding)
    requires QuotaOk(s.db.guessed, s.db.guessLimit, s.passed) && p !in s.passed
    ensures var (db, ok) := GuessCharged(s.db, b.action, b.user);
      db.guessLimit == s.db.guessLimit && QuotaOk(db.guessed, db.guessLimit, if ok then s.passed[p := b] else s.passed)
  {
    var (db, ok) := GuessCharged(s.db, b.action, b.user);
    var passed' := if ok then s.passed[p := b] else s.passed;
    forall a, u {:trigger PassedFor(passed', a, u)} | true
      ensures |PassedFor(passed', a, u)| <= CountOf(db.guessed, a, u) && |PassedFor(passed', a, u)| <= db.guessLimit
    {
      PassedGrows(s.passed, p, b, a, u);
      var before := |PassedFor(s.passed, a, u)|;
      assert before <= CountOf(s.db.guessed, a, u) && before <= s.db.guessLimit;
    }
  }

  lemma ChargeGuessKeepsInv(s: System, p: nat)
    requires Inv(s)
    ensures Inv(GuessStep(s, p))
  {
    if p in s.confirms && s.confirms[p].Guessing? {
      var c := s.confirms[p];
      assert ConfirmOk(p, c, s.passed, s.charged, s.checked, s.codes, s.issuedFor);
      ChargeGuessKeepsQuota(s, p, c.b);
      var (db, ok) := GuessCharged(s.db, c.b.action, c.b.user);
      if ok {
        PassingKeepsConfirms(s, p, c);
        AnswerMoves(s, p, Charging(c.b, c.code));
      } else {
        EndingKeepsInv(s, p, Confirmed(LimitExceeded));
      }
    }
  }

  lemma PassingKeepsConfirms(s: System, p: nat, c: Confirming)
    requires ConfirmsOk(s.confirms, s.passed, s.charged, s.checked, s.codes, s.issuedFor)
    requires HistoryOk(s.passed, s.charged, s.checked, s.issuedFor, s.stored)
    requires p in s.confirms && s.confirms[p] == c && c.Guessing? && p !in s.passed
    ensures ConfirmsOk(s.confirms[p := Charging(c.b, c.code)], s.passed[p := c.b], s.charged, s.checked, s.codes,
        s.issuedFor)
    ensures HistoryOk(s.passed[p := c.b], s.charged, s.checked, s.issuedFor, s.stored)
  {
  }

  lemma ChargingKeepsCharges(s: System, p: nat, b: Binding, k: Key)
    requires ProofsOk(s.db.proofs, s.issuedFor, s.stored) && ChargesOk(s.db.proofs, s.issuedFor, s.charged)
    requires k == KeyOf(b) && Chargeable(s.db, b) && p !in s.charged
    ensures var h := s.db.proofs[k].hash;
      ChargesOk(AttemptCharged(s.db, b).proofs, s.issuedFor, s.charged[p := h])
  {
    var h, proofs' := s.db.proofs[k].hash, AttemptCharged(s.db, b).proofs;
    var charged' := s.charged[p := h];
    assert IsPending(s.db.proofs, s.issuedFor, h);
    forall g {:trigger ChargedWith(charged', g)} | true
      ensures |ChargedWith(charged', g)| <= MAX_ATTEMPTS
      ensures IsPending(proofs', s.issuedFor, g) ==>
        |ChargedWith(charged', g)| == proofs'[KeyOf(s.issuedFor[g])].attempts
    {
      assert ChargedWith(charged', g) == if g == h then ChargedWith(s.charged, g) + {p} else ChargedWith(s.charged, g);
      assert IsPending(proofs', s.issuedFor, g) ==> IsPending(s.db.proofs, s.issuedFor, g);
    }
  }

  lemma ChargingKeepsProofs(s: System, b: Binding)
    requires ProofsOk(s.db.proofs, s.issuedFor, s.stored) && Chargeable(s.db, b)
    requires PerformedOk(s.performed, s.db.proofs, s.issuedFor, s.codes, s.stored)
    ensures ProofsOk(AttemptCharged(s.db, b).proofs, s.issuedFor, s.stored)
    ensures PerformedOk(s.performed, AttemptCharged(s.db, b).proofs, s.issuedFor, s.codes, s.stored)
    ensures s.issuedFor[s.db.proofs[KeyOf(b)].hash] == b
  {
    var proofs' := AttemptCharged(s.db, b).proofs;
    assert forall g :: IsPending(proofs', s.issuedFor, g) <==> IsPending(s.db.proofs, s.issuedFor, g);
    forall i | 0 <= i < |s.performed| ensures SpentOk(s.performed[i], proofs', s.issuedFor, s.codes, s.stored) {
      assert SpentOk(s.performed[i], s.db.proofs, s.issuedFor, s.codes, s.stored);
    }
  }

  lemma ChargingKeepsConfirms(s: System, p: nat, c: Confirming, h: nat)
    requires ConfirmsOk(s.confirms, s.passed, s.charged, s.checked, s.codes, s.issuedFor)
    requires HistoryOk(s.passed, s.charged, s.checked, s.issuedFor, s.stored)
    requires p in s.confirms && s.confirms[p] == c && c.Charging? && h in s.stored && h in s.issuedFor
    requires s.issuedFor[h] == c.b
    ensures ConfirmsOk(s.confirms[p := Checking(c.b, c.code, h)], s.passed, s.charged[p := h], s.checked, s.codes,
        s.issuedFor)
    ensures HistoryOk(s.passed, s.charged[p := h], s.checked, s.issuedFor, s.stored)
  {
    assert ConfirmOk(p, c, s.passed, s.charged, s.checked, s.codes, s.issuedFor);
  }

  lemma ChargeAttemptKeepsInv(s: System, p: nat)
    requires Inv(s)
    ensures Inv(AttemptStep(s, p))
  {
    if p in s.confirms && s.confirms[p].Charging? {
      var c := s.confirms[p];
      if Chargeable(s.db, c.b) {
        var h := s.db.proofs[KeyOf(c.b)].hash;
        assert ConfirmOk(p, c, s.passed, s.charged, s.checked, s.codes, s.issuedFor);
        ChargingKeepsProofs(s, c.b);
        ChargingKeepsCharges(s, p, c.b, KeyOf(c.b));
        ChargingKeepsConfirms(s, p, c, h);
        AnswerMoves(s, p, Checking(c.b, c.code, h));
      } else {
        EndingKeepsInv(s, p, Confirmed(Rejected));
      }
    }
  }

  lemma CheckingKeepsConfirms(s: System, p: nat, c': Confirming)
    requires ConfirmsOk(s.confirms, s.passed, s.charged, s.checked, s.codes, s.issuedFor)
    requires HistoryOk(s.passed, s.charged, s.checked, s.issuedFor, s.stored)
    requires p in s.confirms && s.confirms[p].Checking?
    requires ConfirmOk(p, c', s.passed, s.charged, s.checked + {p}, s.codes, s.issuedFor)
    ensures ConfirmsOk(s.confirms[p := c'], s.passed, s.charged, s.checked + {p}, s.codes, s.issuedFor)
    ensures HistoryOk(s.passed, s.charged, s.checked + {p}, s.issuedFor, s.stored)
  {
    assert ConfirmOk(p, s.confirms[p], s.passed, s.charged, s.checked, s.codes, s.issuedFor);
    forall q | q in s.confirms && q != p
      ensures ConfirmOk(q, s.confirms[q], s.passed, s.charged, s.checked + {p}, s.codes, s.issuedFor)
    {
      assert ConfirmOk(q, s.confirms[q], s.passed, s.charged, s.checked, s.codes, s.issuedFor);
    }
  }

  lemma VerifyKeepsInv(s: System, p: nat)
    requires Inv(s)
    ensures Inv(VerifyStep(s, p))
  {
    if p in s.confirms && s.confirms[p].Checking? {
      var c := s.confirms[p];
      if !WellFormed(c.code) {
        EndingKeepsInv(s, p, Confirmed(Rejected));
      } else {
        var c' := VerifyStep(s, p).confirms[p];
        assert ConfirmOk(p, c, s.passed, s.charged, s.checked, s.codes, s.issuedFor);
        CheckingKeepsConfirms(s, p, c');
        AnswerMoves(s, p, c');
      }
    }
  }

  lemma PerformedAppend(performed: seq<Performed>, d: Performed, q: nat)
    ensures PerformedBy(performed + [d], q) == PerformedBy(performed, q) + if d.p == q then 1 else 0
  {
    assert (performed + [d])[..|performed|] == performed;
  }

  lemma PerformKeepsAnswers(s: System, d: Performed)
    requires AnswersOk(s.performed, s.confirms) && d.p in s.confirms && !s.confirms[d.p].Confirmed?
    ensures AnswersOk(s.performed + [d], s.confirms[d.p := Confirmed(Done)])
  {
    var performed', confirms' := s.performed + [d], s.confirms[d.p := Confirmed(Done)];
    forall q ensures AnswerOk(performed', confirms', q) {
      PerformedAppend(s.performed, d, q);
      assert AnswerOk(s.performed, s.confirms, q);
    }
  }

  /** Spending a pending hash: it was not spent before, and is not pending afterwards. */
  lemma PerformKeepsPerformed(s: System, d: Performed)
    requires PerformedOk(s.performed, s.db.proofs, s.issuedFor, s.codes, s.stored)
    requires d.hash in s.stored && IsPending(s.db.proofs, s.issuedFor, d.hash)
    requires s.issuedFor[d.hash] == d.b && d.hash in s.codes && s.codes[d.hash] == d.code
    ensures PerformedOk(s.performed + [d], s.db.proofs - {KeyOf(d.b)}, s.issuedFor, s.codes, s.stored)
  {
    var performed', proofs' := s.performed + [d], s.db.proofs - {KeyOf(d.b)};
    forall i | 0 <= i < |performed'|
      ensures SpentOk(performed'[i], proofs', s.issuedFor, s.codes, s.stored)
      ensures i < |s.performed| ==> performed'[i].hash != d.hash
    {
      if i < |s.performed| {
        assert SpentOk(s.performed[i], s.db.proofs, s.issuedFor, s.codes, s.stored);
      }
    }
  }

  lemma ConsumeKeepsInv(s: System, p: nat)
    requires Inv(s)
    ensures Inv(ConsumeStep(s, p))
  {
    if p in s.confirms && s.confirms[p].Consuming? {
      var c := s.confirms[p];
      var (db, outcome) := Consumed(s.db, c.b, c.hash);
      assert ConfirmOk(p, c, s.passed, s.charged, s.checked, s.codes, s.issuedFor);
      if outcome == Some(true) {
        var d := Performed(p, c.b, c.hash, c.code);
        assert IsPending(s.db.proofs, s.issuedFor, c.hash);
        PerformKeepsPerformed(s, d);
        PerformKeepsAnswers(s, d);
        FewerPendingOk(s, db.proofs);
        ConfirmMoves(s, p, Confirmed(Done));
      } else {
        EndingKeepsInv(s, p, Confirmed(if outcome.None? then Rejected else Backend));
      }
    }
  }

  lemma ConfirmCallKeepsInv(s: System, p: nat)
    requires Inv(s) && p in s.confirms && !s.confirms[p].Confirmed?
    ensures Inv(ConfirmCall(s, p)) && p in ConfirmCall(s, p).confirms
  {
    match s.confirms[p]
    case Guessing(_, _) => ChargeGuessKeepsInv(s, p);
    case Charging(_, _) => ChargeAttemptKeepsInv(s, p);
    case Consuming(_, _, _) => ConsumeKeepsInv(s, p);
    case _ =>
  }

  /** A failure answers `Backend`, whether or not its call took effect. */
  lemma FailingKeepsInv(s: System, p: nat)
    requires Inv(s) && p in s.confirms
    ensures Inv(SetConfirm(s, p, Confirmed(Backend)))
  {
    var confirms' := s.confirms[p := Confirmed(Backend)];
    ConfirmMoves(s, p, Confirmed(Backend));
    forall q ensures AnswerOk(s.performed, confirms', q) {
      assert AnswerOk(s.performed, s.confirms, q);
    }
  }

  lemma FailConfirmKeepsInv(s: System, p: nat, applied: bool)
    requires Inv(s)
    ensures Inv(FailConfirmStep(s, p, applied))
  {
    if p in s.confirms && !s.confirms[p].Confirmed? {
      if applied {
        ConfirmCallKeepsInv(s, p);
        FailingKeepsInv(ConfirmCall(s, p), p);
      } else {
        FailingKeepsInv(s, p);
      }
    }
  }

  lemma RequestKeepsInv(s: System, e: Event)
    requires Inv(s)
    ensures Inv(ApplyRequest(s, e))
  {
    match e
    case StartRequest(p, b) => QuietRequestKeepsInv(s, e);
    case ChargeIssue(p) => IssueKeepsInv(s, p);
    case Address(p) => QuietRequestKeepsInv(s, e);
    case Mint(p, code) => MintKeepsInv(s, p, code);
    case Store(p) => StoreKeepsInv(s, p);
    case Send(p, ok) => QuietRequestKeepsInv(s, e);
    case Discard(p, ok) => DiscardKeepsInv(s, p, ok);
    case FailRequest(p, applied) => FailRequestKeepsInv(s, p, applied);
    case _ =>
  }

  lemma ConfirmKeepsInv(s: System, e: Event)
    requires Inv(s)
    ensures Inv(ApplyConfirm(s, e))
  {
    match e
    case StartConfirm(p, b, code) => if p !in s.confirms { EndingKeepsInv(s, p, Guessing(b, code)); }
    case ChargeGuess(p) => ChargeGuessKeepsInv(s, p);
    case ChargeAttempt(p) => ChargeAttemptKeepsInv(s, p);
    case Verify(p) => VerifyKeepsInv(s, p);
    case Consume(p) => ConsumeKeepsInv(s, p);
    case FailConfirm(p, applied) => FailConfirmKeepsInv(s, p, applied);
    case _ =>
  }

  lemma ApplyKeepsInv(s: System, e: Event)
    requires Inv(s)
    ensures Inv(Apply(s, e))
  {
    if e.Tick? || e.ChangeEmail? || e.ChangePasskeys? {
      EnvironmentKeepsInv(s, e);
    } else {
      RequestKeepsInv(s, e);
      ConfirmKeepsInv(s, e);
    }
  }

  lemma StartIsOk(issueLimit: nat, guessLimit: nat)
    ensures Inv(Start(issueLimit, guessLimit))
  {
    var s := Start(issueLimit, guessLimit);
    forall h {:trigger ChargedWith(s.charged, h)} | true ensures |ChargedWith(s.charged, h)| <= MAX_ATTEMPTS {
      assert ChargedWith(s.charged, h) == {};
    }
    forall a, u {:trigger PassedFor(s.passed, a, u)} | true ensures |PassedFor(s.passed, a, u)| == 0 {
      assert PassedFor(s.passed, a, u) == {};
    }
  }

  lemma {:induction false} RunKeepsInv(s: System, events: seq<Event>)
    requires Inv(s)
    ensures Inv(Run(s, events))
  {
    if events != [] {
      RunKeepsInv(s, events[..|events| - 1]);
      ApplyKeepsInv(Run(s, events[..|events| - 1]), events[|events| - 1]);
    }
  }

  // ---- The guarantees ----

  /** Each hash authorises at most one performed action, by whoever entered exactly the code
      it was minted from, for exactly the action, user, session and target it was minted for. */
  lemma CodeSpentOnce(issueLimit: nat, guessLimit: nat, events: seq<Event>)
    ensures var s := Run(Start(issueLimit, guessLimit), events);
      && (forall i, j :: 0 <= i < j < |s.performed| ==> s.performed[i].hash != s.performed[j].hash)
      && (forall i :: 0 <= i < |s.performed| ==>
            var d := s.performed[i];
            d.hash in s.issuedFor && s.issuedFor[d.hash] == d.b && d.hash in s.codes && s.codes[d.hash] == d.code)
  {
    StartIsOk(issueLimit, guessLimit);
    RunKeepsInv(Start(issueLimit, guessLimit), events);
    var s := Run(Start(issueLimit, guessLimit), events);
    forall i | 0 <= i < |s.performed| ensures SpentOk(s.performed[i], s.db.proofs, s.issuedFor, s.codes, s.stored) {}
  }

  // ---- What the answers of `confirm` mean ----

  predicate AnswersOkTo(s: System, p: nat) { p in s.confirms && s.confirms[p] == Confirmed(Done) }

  /** The transaction that `p` is about to make performs its action. */
  predicate Performs(s: System, q: nat) {
    && q in s.confirms && s.confirms[q].Consuming?
    && Consumed(s.db, s.confirms[q].b, s.confirms[q].hash).1 == Some(true)
  }

  /** At `e` the COMMIT of `p` is made, and then reported to have failed. */
  ghost predicate LosesCommit(s: System, e: Event, p: nat) {
    e == FailConfirm(p, true) && Performs(s, p)
  }

  ghost predicate CommitLost(start: System, events: seq<Event>, p: nat) {
    events != [] && (CommitLost(start, events[..|events| - 1], p) ||
                     LosesCommit(Run(start, events[..|events| - 1]), events[|events| - 1], p))
  }

  /** From `s` to `s'` the actions performed for `p` grow by one exactly when `p` comes to answer Ok, or `lost`. */
  ghost predicate CountsAnswer(s: System, s': System, p: nat, lost: bool) {
    && (AnswersOkTo(s, p) ==> AnswersOkTo(s', p))
    && PerformedBy(s'.performed, p)
        == PerformedBy(s.performed, p) + if lost || AnswersOkTo(s', p) != AnswersOkTo(s, p) then 1 else 0
  }

  /** Nothing is performed, and no answer becomes Ok or stops to be. */
  ghost predicate PerformsNone(s: System, s': System, p: nat) {
    s'.performed == s.performed && AnswersOkTo(s', p) == AnswersOkTo(s, p)
  }

  lemma GuessPerformsNone(s: System, q: nat, p: nat)
    ensures PerformsNone(s, GuessStep(s, q), p)
  {
  }

  lemma AttemptPerformsNone(s: System, q: nat, p: nat)
    ensures PerformsNone(s, AttemptStep(s, q), p)
  {
  }

  lemma VerifyPerformsNone(s: System, q: nat, p: nat)
    ensures PerformsNone(s, VerifyStep(s, q), p)
  {
  }

  lemma ConsumeShape(s: System, q: nat) returns (d: Performed)
    requires q in s.confirms && s.confirms[q].Consuming?
    ensures d.p == q
    ensures ConsumeStep(s, q).performed == if Performs(s, q) then s.performed + [d] else s.performed
    ensures ConsumeStep(s, q).confirms.Keys == s.confirms.Keys
    ensures forall p :: p in s.confirms && p != q ==> ConsumeStep(s, q).confirms[p] == s.confirms[p]
    ensures AnswersOkTo(ConsumeStep(s, q), q) <==> Performs(s, q)
  {
    d := Performed(q, s.confirms[q].b, s.confirms[q].hash, s.confirms[q].code);
  }

  lemma ConsumeCounts(s: System, q: nat, p: nat)
    ensures CountsAnswer(s, ConsumeStep(s, q), p, false)
  {
    if q in s.confirms && s.confirms[q].Consuming? {
      var d := ConsumeShape(s, q);
      PerformedAppend(s.performed, d, p);
    }
  }

  lemma LostCounts(s: System, q: nat, p: nat)
    requires q in s.confirms && s.confirms[q].Consuming?
    ensures CountsAnswer(s, FailConfirmStep(s, q, true), p, p == q && Performs(s, q))
  {
    var d := ConsumeShape(s, q);
    ConsumeCounts(s, q, p);
    BackendCounts(s, ConsumeStep(s, q), q, p);
  }

  /** The Ok that `q` would have answered is lost. */
  lemma BackendCounts(s: System, s1: System, q: nat, p: nat)
    requires CountsAnswer(s, s1, p, false) && !AnswersOkTo(s, q) && (AnswersOkTo(s1, q) <==> Performs(s, q))
    ensures CountsAnswer(s, SetConfirm(s1, q, Confirmed(Backend)), p, p == q && Performs(s, q))
  {
  }

  lemma FailurePerformsNone(s: System, q: nat, applied: bool, p: nat)
    requires !applied || q !in s.confirms || !s.confirms[q].Consuming?
    ensures PerformsNone(s, FailConfirmStep(s, q, applied), p)
  {
    if q in s.confirms && applied {
      GuessPerformsNone(s, q, p);
      AttemptPerformsNone(s, q, p);
    }
  }

  lemma ConfirmCounts(s: System, e: Event, p: nat)
    ensures CountsAnswer(s, ApplyConfirm(s, e), p, LosesCommit(s, e, p))
  {
    match e
    case FailConfirm(q, applied) =>
      if applied && q in s.confirms && s.confirms[q].Consuming? {
        LostCounts(s, q, p);
      } else {
        FailurePerformsNone(s, q, applied, p);
      }
    case Consume(q) => ConsumeCounts(s, q, p);
    case ChargeGuess(q) => GuessPerformsNone(s, q, p);
    case ChargeAttempt(q) => AttemptPerformsNone(s, q, p);
    case Verify(q) => VerifyPerformsNone(s, q, p);
    case _ =>
  }

  ghost predicate SameConfirms(s: System, s': System) { s'.performed == s.performed && s'.confirms == s.confirms }

  lemma CallsKeepConfirms(s: System, p: nat, ok: bool)
    ensures SameConfirms(s, IssueStep(s, p)) && SameConfirms(s, StoreStep(s, p))
    ensures SameConfirms(s, DiscardStep(s, p, ok))
  {
  }

  lemma OtherStepsKeepConfirms(s: System, p: nat, code: string, ok: bool)
    ensures SameConfirms(s, AddressStep(s, p)) && SameConfirms(s, SendStep(s, p, ok))
    ensures SameConfirms(s, MintStep(s, p, code))
  {
  }

  lemma FailureKeepsConfirms(s: System, p: nat, applied: bool)
    ensures SameConfirms(s, FailRequestStep(s, p, applied))
  {
    CallsKeepConfirms(s, p, true);
  }

  lemma RequestKeepsConfirms(s: System, e: Event)
    ensures SameConfirms(s, ApplyRequest(s, e))
  {
    match e
    case ChargeIssue(p) => CallsKeepConfirms(s, p, true);
    case Address(p) => OtherStepsKeepConfirms(s, p, "", true);
    case Mint(p, code) => OtherStepsKeepConfirms(s, p, code, true);
    case Store(p) => CallsKeepConfirms(s, p, true);
    case Send(p, ok) => OtherStepsKeepConfirms(s, p, "", ok);
    case Discard(p, ok) => CallsKeepConfirms(s, p, ok);
    case FailRequest(p, applied) => FailureKeepsConfirms(s, p, applied);
    case _ =>
  }

  lemma StepCounts(s: System, e: Event, p: nat)
    ensures CountsAnswer(s, Apply(s, e), p, LosesCommit(s, e, p))
  {
    if Apply(s, e) == ApplyConfirm(s, e) {
      ConfirmCounts(s, e, p);
    } else {
      RequestKeepsConfirms(s, e);
    }
  }

  lemma {:induction false} PerformedExactly(start: System, events: seq<Event>, p: nat)
    requires Inv(start) && start.performed == [] && start.confirms == map[]
    ensures var s := Run(start, events);
      PerformedBy(s.performed, p) == if AnswersOkTo(s, p) || CommitLost(start, events, p) then 1 else 0
  {
    if events != [] {
      var init := events[..|events| - 1];
      PerformedExactly(start, init, p);
      StepCounts(Run(start, init), events[|events| - 1], p);
      RunKeepsInv(start, events);
      assert AnswerOk(Run(start, events).performed, Run(start, events).confirms, p);
    }
  }

  /** `confirm` performs at most one action. Ok means it did; any answer but Ok and `Backend` means it did not;
      and `Backend` means it did exactly when its own COMMIT was made and then reported to have failed. */
  lemma OkIffPerformed(issueLimit: nat, guessLimit: nat, events: seq<Event>, p: nat)
    requires p in Run(Start(issueLimit, guessLimit), events).confirms
    ensures var s := Run(Start(issueLimit, guessLimit), events);
      var performed, lost := PerformedBy(s.performed, p), CommitLost(Start(issueLimit, guessLimit), events, p);
      && performed <= 1
      && (s.confirms[p] == Confirmed(Done) ==> performed == 1)
      && (performed == 1 ==> s.confirms[p] == Confirmed(Done) || s.confirms[p] == Confirmed(Backend))
      && (s.confirms[p] == Confirmed(Backend) ==> (performed == 1 <==> lost))
  {
    var start := Start(issueLimit, guessLimit);
    StartIsOk(issueLimit, guessLimit);
    RunKeepsInv(start, events);
    PerformedExactly(start, events, p);
    assert AnswerOk(Run(start, events).performed, Run(start, events).confirms, p);
  }

  // ---- A `Backend` answer that granted something ----

  ghost predicate Reached(start: System, s: System) { exists events :: Run(start, events) == s }

  lemma ReachStep(start: System, s: System, e: Event, s': System)
    requires Reached(start, s) && Apply(s, e) == s'
    ensures Reached(start, s')
  {
    var events :| Run(start, events) == s;
    assert (events + [e])[..|events|] == events;
    assert Run(start, events + [e]) == s';
  }

  lemma ReachCharges(start: System, s: System)
    requires Reached(start, s)
    ensures Reached(start, GuessStep(s, 0)) && Reached(start, AttemptStep(s, 0)) && Reached(start, IssueStep(s, 0))
  {
    ReachStep(start, s, ChargeGuess(0), GuessStep(s, 0));
    ReachStep(start, s, ChargeAttempt(0), AttemptStep(s, 0));
    ReachStep(start, s, ChargeIssue(0), IssueStep(s, 0));
  }

  lemma ReachRequest(start: System, s: System, code: string)
    requires Reached(start, s)
    ensures Reached(start, AddressStep(s, 0)) && Reached(start, MintStep(s, 0, code)) && Reached(start, StoreStep(s, 0))
  {
    ReachStep(start, s, Address(0), AddressStep(s, 0));
    ReachStep(start, s, Mint(0, code), MintStep(s, 0, code));
    ReachStep(start, s, Store(0), StoreStep(s, 0));
  }

  lemma ReachEnd(start: System, s: System)
    requires Reached(start, s)
    ensures Reached(start, VerifyStep(s, 0)) && Reached(start, FailConfirmStep(s, 0, true))
  {
    ReachStep(start, s, Verify(0), VerifyStep(s, 0));
    ReachStep(start, s, FailConfirm(0, true), FailConfirmStep(s, 0, true));
  }

  /** The account, and nothing requested yet. */
  predicate Fresh(s: System, b: Binding, address: string) {
    && s.db.now == 0 && s.confirms == map[] && s.performed == [] && s.db.removed == []
    && s.db.emails == map[b.user := address] && s.db.passkeys == {(b.user, b.target)} && s.db.proofs == map[]
    && s.db.guessed == map[] && s.db.guessLimit == 1 && s.db.issued == map[] && s.db.issueLimit == 1
    && s.nextHash == 0 && s.codes == map[] && s.requests == map[]
  }

  /** The code is pending, and its confirmation is at `c`. */
  predicate CodeIsOut(s: System, b: Binding, address: string, code: string, attempts: nat, c: map<nat, Confirming>) {
    && s.db.now == 0 && s.confirms == c && s.performed == [] && s.db.removed == []
    && s.db.emails == map[b.user := address] && s.db.passkeys == {(b.user, b.target)}
    && s.db.proofs == map[KeyOf(b) := Row(b.target, address, 0, attempts, CODE_TTL)]
    && s.codes == map[0 := code]
  }

  predicate Unguessed(s: System) { s.db.guessed == map[] && s.db.guessLimit == 1 }

  lemma OpensAccount(b: Binding, address: string) returns (s: System)
    ensures Reached(Start(1, 1), s) && Fresh(s, b, address)
  {
    var start := Start(1, 1);
    assert Run(start, []) == start;
    var s1 := Apply(start, ChangeEmail(b.user, address));
    ReachStep(start, start, ChangeEmail(b.user, address), s1);
    s := Apply(s1, ChangePasskeys({(b.user, b.target)}));
    ReachStep(start, s1, ChangePasskeys({(b.user, b.target)}), s);
  }

  lemma RequestsCode(s: System, b: Binding, address: string)
    requires Fresh(s, b, address)
    ensures var s' := AddressStep(IssueStep(SetRequest(s, 0, Asking(b)), 0), 0);
      && s'.requests == map[0 := Minting(b, address)]
      && Fresh(s'.(requests := map[], db := s'.db.(issued := map[])), b, address)
  {
    assert IssueStep(SetRequest(s, 0, Asking(b)), 0).requests == map[0 := Addressing(b)];
  }

  lemma StoresCode(s: System, b: Binding, address: string, code: string)
    requires s.requests == map[0 := Minting(b, address)] && WellFormed(code)
    requires Fresh(s.(requests := map[], db := s.db.(issued := map[])), b, address)
    ensures var s' := StoreStep(MintStep(s, 0, code), 0);
      CodeIsOut(s', b, address, code, 0, map[]) && Unguessed(s')
  {
    assert MintStep(s, 0, code).requests == map[0 := Storing(Pending(b, address, 0))];
  }

  lemma EntersCode(s: System, b: Binding, address: string, code: string)
    requires CodeIsOut(s, b, address, code, 0, map[]) && Unguessed(s)
    ensures CodeIsOut(GuessStep(SetConfirm(s, 0, Guessing(b, code)), 0), b, address, code, 0,
        map[0 := Charging(b, code)])
  {
  }

  lemma ChargesCode(s: System, b: Binding, address: string, code: string)
    requires CodeIsOut(s, b, address, code, 0, map[0 := Charging(b, code)])
    ensures CodeIsOut(AttemptStep(s, 0), b, address, code, 1, map[0 := Checking(b, code, 0)])
  {
    assert KeyOf(b) in s.db.proofs && s.db.proofs[KeyOf(b)].hash == 0;
    assert Chargeable(s.db, b);
    assert AttemptCharged(s.db, b).proofs == map[KeyOf(b) := Row(b.target, address, 0, 1, CODE_TTL)];
  }

  lemma VerifiesCode(s: System, b: Binding, address: string, code: string)
    requires CodeIsOut(s, b, address, code, 1, map[0 := Checking(b, code, 0)]) && WellFormed(code)
    ensures CodeIsOut(VerifyStep(s, 0), b, address, code, 1, map[0 := Consuming(b, code, 0)])
  {
  }

  lemma LosesReply(s: System, b: Binding, address: string, code: string)
    requires CodeIsOut(s, b, address, code, 1, map[0 := Consuming(b, code, 0)])
    ensures var s' := FailConfirmStep(s, 0, true);
      s'.confirms == map[0 := Confirmed(Backend)] && s'.db.removed == [b.target] && s'.db.passkeys == {}
  {
  }

  lemma CodeRequested(start: System, s: System, b: Binding, address: string, code: string) returns (s': System)
    requires Reached(start, s) && Fresh(s, b, address) && WellFormed(code)
    ensures Reached(start, s') && CodeIsOut(s', b, address, code, 0, map[]) && Unguessed(s')
  {
    s' := SetRequest(s, 0, Asking(b));
    ReachStep(start, s, StartRequest(0, b), s');
    ReachCharges(start, s');
    s' := IssueStep(s', 0);
    ReachRequest(start, s', code);
    s' := AddressStep(s', 0);
    RequestsCode(s, b, address);
    StoresCode(s', b, address, code);
    ReachRequest(start, s', code);
    s' := MintStep(s', 0, code);
    ReachRequest(start, s', code);
    s' := StoreStep(s', 0);
  }

  lemma CodeEntered(start: System, s: System, b: Binding, address: string, code: string) returns (s': System)
    requires Reached(start, s) && CodeIsOut(s, b, address, code, 0, map[]) && Unguessed(s) && WellFormed(code)
    ensures Reached(start, s') && CodeIsOut(s', b, address, code, 1, map[0 := Consuming(b, code, 0)])
  {
    s' := SetConfirm(s, 0, Guessing(b, code));
    ReachStep(start, s, StartConfirm(0, b, code), s');
    ReachCharges(start, s');
    EntersCode(s, b, address, code);
    s' := GuessStep(s', 0);
    ReachCharges(start, s');
    ChargesCode(s', b, address, code);
    s' := AttemptStep(s', 0);
    ReachEnd(start, s');
    VerifiesCode(s', b, address, code);
    s' := VerifyStep(s', 0);
  }

  /** What the comment on `Backend` rules out: a run with that answer, in which the passkey was removed. */
  lemma BackendMayGrant(b: Binding, address: string, code: string) returns (events: seq<Event>)
    requires WellFormed(code)
    ensures var s := Run(Start(1, 1), events);
      s.confirms == map[0 := Confirmed(Backend)] && s.db.removed == [b.target] && s.db.passkeys == {}
  {
    var start := Start(1, 1);
    var s := OpensAccount(b, address);
    s := CodeRequested(start, s, b, address, code);
    s := CodeEntered(start, s, b, address, code);
    LosesReply(s, b, address, code);
    ReachEnd(start, s);
    events :| Run(start, events) == FailConfirmStep(s, 0, true);
  }

  /** A hash that was stored and is no longer pending is dead. */
  ghost predicate Dead(s: System, h: nat) {
    h in s.stored && !IsPending(s.db.proofs, s.issuedFor, h)
  }

  ghost predicate SparesHash(s: System, s': System, h: nat) {
    s'.performed == s.performed || exists d :: s'.performed == s.performed + [d] && d.hash != h
  }

  lemma DeadConsume(s: System, p: nat, h: nat)
    requires ConfirmsOk(s.confirms, s.passed, s.charged, s.checked, s.codes, s.issuedFor)
    requires Dead(s, h)
    ensures Dead(ConsumeStep(s, p), h) && SparesHash(s, ConsumeStep(s, p), h)
  {
    if p in s.confirms && s.confirms[p].Consuming? {
      var c := s.confirms[p];
      assert ConfirmOk(p, c, s.passed, s.charged, s.checked, s.codes, s.issuedFor);
      if c.hash != h {
        assert Performed(p, c.b, c.hash, c.code).hash != h;
      }
    }
  }

  ghost predicate KeepsProofs(s: System, s': System) {
    s'.db.proofs == s.db.proofs && s'.issuedFor == s.issuedFor && s'.stored == s.stored && s'.performed == s.performed
  }

  lemma IssueKeepsProofs(s: System, p: nat)
    ensures KeepsProofs(s, IssueStep(s, p))
  {
  }

  lemma QuietKeepsProofs(s: System, e: Event)
    requires e.StartRequest? || e.ChargeIssue? || e.Address? || e.Send?
    ensures KeepsProofs(s, ApplyRequest(s, e))
  {
    match e
    case ChargeIssue(p) => IssueKeepsProofs(s, p);
    case _ =>
  }

  ghost predicate StaysDead(s: System, s': System, h: nat) { Dead(s', h) && s'.performed == s.performed }

  lemma DeadMint(s: System, p: nat, code: string, h: nat)
    requires HashesOk(s.codes, s.issuedFor, s.nextHash, s.stored) && Dead(s, h)
    ensures StaysDead(s, MintStep(s, p, code), h)
  {
  }

  lemma DeadStore(s: System, p: nat, h: nat)
    requires RequestsOk(s.requests, s.issuedFor, s.stored) && Dead(s, h)
    ensures StaysDead(s, StoreStep(s, p), h)
  {
  }

  lemma DeadDiscard(s: System, p: nat, ok: bool, h: nat)
    requires Dead(s, h)
    ensures StaysDead(s, DiscardStep(s, p, ok), h)
  {
  }

  lemma DeadFailedRequest(s: System, p: nat, applied: bool, h: nat)
    requires RequestsOk(s.requests, s.issuedFor, s.stored) && Dead(s, h)
    ensures StaysDead(s, FailRequestStep(s, p, applied), h)
  {
    if applied && p in s.requests {
      match s.requests[p]
      case Asking(_) => IssueKeepsProofs(s, p);
      case Storing(_) => DeadStore(s, p, h);
      case Discarding(_) => DeadDiscard(s, p, true, h);
      case _ =>
    }
  }

  lemma DeadRequest(s: System, e: Event, h: nat)
    requires HashesOk(s.codes, s.issuedFor, s.nextHash, s.stored) && RequestsOk(s.requests, s.issuedFor, s.stored)
    requires Dead(s, h)
    ensures StaysDead(s, ApplyRequest(s, e), h)
  {
    match e
    case Mint(p, code) => DeadMint(s, p, code, h);
    case Store(p) => DeadStore(s, p, h);
    case Discard(p, ok) => DeadDiscard(s, p, ok, h);
    case FailRequest(p, applied) => DeadFailedRequest(s, p, applied, h);
    case ChargeIssue(p) => IssueKeepsProofs(s, p);
    case _ => if e.StartRequest? || e.Address? || e.Send? { QuietKeepsProofs(s, e); }
  }

  lemma DeadCharged(s: System, b: Binding, h: nat)
    requires Chargeable(s.db, b) && !IsPending(s.db.proofs, s.issuedFor, h)
    ensures !IsPending(AttemptCharged(s.db, b).proofs, s.issuedFor, h)
  {
  }

  lemma DeadChargeAttempt(s: System, p: nat, h: nat)
    requires Dead(s, h)
    ensures StaysDead(s, AttemptStep(s, p), h)
  {
    if p in s.confirms && s.confirms[p].Charging? && Chargeable(s.db, s.confirms[p].b) {
      DeadCharged(s, s.confirms[p].b, h);
    }
  }

  lemma VerifyKeepsProofs(s: System, p: nat)
    ensures KeepsProofs(s, VerifyStep(s, p))
  {
  }

  lemma ChargeGuessKeepsProofs(s: System, p: nat)
    ensures KeepsProofs(s, GuessStep(s, p))
  {
  }

  lemma DeadConfirm(s: System, e: Event, h: nat)
    requires ConfirmsOk(s.confirms, s.passed, s.charged, s.checked, s.codes, s.issuedFor)
    requires Dead(s, h)
    ensures Dead(ApplyConfirm(s, e), h) && SparesHash(s, ApplyConfirm(s, e), h)
  {
    match e
    case ChargeAttempt(p) => DeadChargeAttempt(s, p, h);
    case Verify(p) => VerifyKeepsProofs(s, p);
    case ChargeGuess(p) => ChargeGuessKeepsProofs(s, p);
    case Consume(p) => DeadConsume(s, p, h);
    case FailConfirm(p, applied) => DeadFailure(s, p, applied, h);
    case _ =>
  }

  lemma DeadFailure(s: System, p: nat, applied: bool, h: nat)
    requires ConfirmsOk(s.confirms, s.passed, s.charged, s.checked, s.codes, s.issuedFor)
    requires Dead(s, h)
    ensures Dead(FailConfirmStep(s, p, applied), h) && SparesHash(s, FailConfirmStep(s, p, applied), h)
  {
    if applied && p in s.confirms {
      match s.confirms[p]
      case Guessing(_, _) => ChargeGuessKeepsProofs(s, p);
      case Charging(_, _) => DeadChargeAttempt(s, p, h);
      case Consuming(_, _, _) => DeadConsume(s, p, h);
      case _ =>
    }
  }

  lemma DeadStep(s: System, e: Event, h: nat)
    requires HashesOk(s.codes, s.issuedFor, s.nextHash, s.stored) && RequestsOk(s.requests, s.issuedFor, s.stored)
    requires ConfirmsOk(s.confirms, s.passed, s.charged, s.checked, s.codes, s.issuedFor)
    requires Dead(s, h)
    ensures Dead(Apply(s, e), h) && SparesHash(s, Apply(s, e), h)
  {
    DeadConfirm(s, e, h);
    DeadRequest(s, e, h);
  }

  lemma {:induction false} DeadForGood(s: System, events: seq<Event>, h: nat)
    requires Inv(s) && Dead(s, h)
    ensures Dead(Run(s, events), h)
    ensures s.performed <= Run(s, events).performed
    ensures forall i :: |s.performed| <= i < |Run(s, events).performed| ==> Run(s, events).performed[i].hash != h
  {
    if events != [] {
      var init := events[..|events| - 1];
      DeadForGood(s, init, h);
      RunKeepsInv(s, init);
      DeadStep(Run(s, init), events[|events| - 1], h);
    }
  }

  /** A resend wins: once a newer proof is stored for the same action, user and session, the
      older code never performs, even for a confirmation that already verified it. */
  lemma ResendWins(issueLimit: nat, guessLimit: nat, before: seq<Event>, p: nat, older: nat, after: seq<Event>)
    requires var s := Run(Start(issueLimit, guessLimit), before);
      && older in s.stored && older in s.issuedFor
      && p in s.requests && s.requests[p].Storing? && KeyOf(s.requests[p].pending.binding) == KeyOf(s.issuedFor[older])
    ensures var s := Apply(Run(Start(issueLimit, guessLimit), before), Store(p));
      forall i :: |s.performed| <= i < |Run(s, after).performed| ==> Run(s, after).performed[i].hash != older
  {
    StartIsOk(issueLimit, guessLimit);
    RunKeepsInv(Start(issueLimit, guessLimit), before);
    var s := Run(Start(issueLimit, guessLimit), before);
    ApplyKeepsInv(s, Store(p));
    assert Dead(Apply(s, Store(p)), older);
    DeadForGood(Apply(s, Store(p)), after, older);
  }

  ghost predicate Pends(s: System, h: nat) { IsPending(s.db.proofs, s.issuedFor, h) }

  /** `e` stores a newer proof for the same action, user and session. */
  ghost predicate Supersedes(s: System, e: Event, h: nat) {
    && (e.Store? || (e.FailRequest? && e.applied))
    && e.p in s.requests && s.requests[e.p].Storing? && h in s.issuedFor
    && KeyOf(s.requests[e.p].pending.binding) == KeyOf(s.issuedFor[h])
  }

  /** `e` discards the proof of the very request whose mail could not be sent. */
  ghost predicate DiscardsOwn(s: System, e: Event, h: nat) {
    && (e.Discard? || (e.FailRequest? && e.applied))
    && e.p in s.requests && s.requests[e.p].Discarding? && s.requests[e.p].pending.hash == h
  }

  lemma StoreEnds(s: System, p: nat, h: nat)
    requires Pends(s, h) && !Pends(StoreStep(s, p), h)
    ensures Supersedes(s, Store(p), h)
  {
  }

  lemma DiscardEnds(s: System, p: nat, ok: bool, h: nat)
    requires Pends(s, h) && !Pends(DiscardStep(s, p, ok), h)
    ensures DiscardsOwn(s, Discard(p, ok), h)
  {
  }

  lemma MintEndsNone(s: System, p: nat, code: string, h: nat)
    requires HashesOk(s.codes, s.issuedFor, s.nextHash, s.stored) && Pends(s, h)
    ensures Pends(MintStep(s, p, code), h)
  {
  }

  lemma RequestEnds(s: System, e: Event, h: nat)
    requires HashesOk(s.codes, s.issuedFor, s.nextHash, s.stored)
    requires Pends(s, h) && !Pends(ApplyRequest(s, e), h)
    ensures Supersedes(s, e, h) || DiscardsOwn(s, e, h)
  {
    match e
    case Store(p) => StoreEnds(s, p, h);
    case Discard(p, ok) => DiscardEnds(s, p, ok, h);
    case FailRequest(p, applied) =>
      IssueKeepsProofs(s, p);
      if !Pends(StoreStep(s, p), h) { StoreEnds(s, p, h); }
      if !Pends(DiscardStep(s, p, true), h) { DiscardEnds(s, p, true, h); }
    case Mint(p, code) => MintEndsNone(s, p, code, h);
    case StartRequest(_, _) => QuietKeepsProofs(s, e);
    case ChargeIssue(_) => QuietKeepsProofs(s, e);
    case Address(_) => QuietKeepsProofs(s, e);
    case Send(_, _) => QuietKeepsProofs(s, e);
    case _ =>
  }

  lemma AttemptEndsNone(s: System, p: nat, h: nat)
    requires Pends(s, h)
    ensures Pends(AttemptStep(s, p), h)
  {
  }

  ghost predicate Spends(s: System, s': System, h: nat) {
    |s'.performed| == |s.performed| + 1 && s'.performed[|s.performed|].hash == h
  }

  lemma ConsumeEnds(s: System, p: nat, h: nat)
    requires ConfirmsOk(s.confirms, s.passed, s.charged, s.checked, s.codes, s.issuedFor)
    requires Pends(s, h) && !Pends(ConsumeStep(s, p), h)
    ensures Spends(s, ConsumeStep(s, p), h)
  {
    assert p in s.confirms && s.confirms[p].Consuming?;
    assert ConfirmOk(p, s.confirms[p], s.passed, s.charged, s.checked, s.codes, s.issuedFor);
  }

  lemma ConfirmEnds(s: System, e: Event, h: nat)
    requires ConfirmsOk(s.confirms, s.passed, s.charged, s.checked, s.codes, s.issuedFor)
    requires Pends(s, h) && !Pends(ApplyConfirm(s, e), h)
    ensures Spends(s, ApplyConfirm(s, e), h)
  {
    match e
    case Consume(p) => ConsumeEnds(s, p, h);
    case Verify(p) => VerifyKeepsProofs(s, p);
    case ChargeGuess(p) => ChargeGuessKeepsProofs(s, p);
    case ChargeAttempt(p) => AttemptEndsNone(s, p, h);
    case FailConfirm(p, applied) =>
      ChargeGuessKeepsProofs(s, p);
      AttemptEndsNone(s, p, h);
      if !Pends(ConsumeStep(s, p), h) { ConsumeEnds(s, p, h); }
    case _ =>
  }

  /** A pending proof ends in one of three ways: it is spent, a newer one replaces it, or the mail of its
      own request failed. In every run a failed send therefore spares every other code. */
  lemma PendingEnds(issueLimit: nat, guessLimit: nat, events: seq<Event>, e: Event, h: nat)
    requires var s := Run(Start(issueLimit, guessLimit), events); Pends(s, h) && !Pends(Apply(s, e), h)
    ensures var s := Run(Start(issueLimit, guessLimit), events);
      || Supersedes(s, e, h)
      || DiscardsOwn(s, e, h)
      || Spends(s, Apply(s, e), h)
  {
    StartIsOk(issueLimit, guessLimit);
    RunKeepsInv(Start(issueLimit, guessLimit), events);
    var s := Run(Start(issueLimit, guessLimit), events);
    if Apply(s, e) == ApplyRequest(s, e) {
      RequestEnds(s, e, h);
    } else if Apply(s, e) == ApplyConfirm(s, e) {
      ConfirmEnds(s, e, h);
    }
  }

  // ---- The guess bound ----

  function CheckedWith(s: System, h: nat): set<nat> { set p | p in s.checked && p in s.charged && s.charged[p] == h }

  function CheckedFor(s: System, action: string, user: string): set<nat> {
    set p | p in s.checked && p in s.passed && s.passed[p].action == action && s.passed[p].user == user
  }

  function StoredFor(s: System, action: string, user: string): set<nat> {
    set h | h in s.stored && h in s.issuedFor && s.issuedFor[h].action == action && s.issuedFor[h].user == user
  }

  lemma SubsetSize<T>(a: set<T>, b: set<T>)
    requires a <= b
    ensures |a| <= |b|
  {
    assert |b| == |b - a| + |a| by { assert b == (b - a) + a; }
  }

  /** If every element of `items` has its labelOf in `labels`, and no labelOf has more than `most`. */
  lemma {:induction false} LabelledSize(items: set<nat>, labelOf: map<nat, nat>, labels: set<nat>, most: nat)
    requires forall p :: p in items ==> p in labelOf && labelOf[p] in labels
    requires forall h {:trigger ChargedWith(labelOf, h)} :: |ChargedWith(labelOf, h)| <= most
    ensures |items| <= most * |labels|
    decreases labels
  {
    if labels == {} {
      assert items == {};
    } else {
      var h :| h in labels;
      var mine := set p | p in items && labelOf[p] == h;
      SubsetSize(mine, ChargedWith(labelOf, h));
      LabelledSize(items - mine, labelOf, labels - {h}, most);
      assert items == (items - mine) + mine;
      assert |items| == |items - mine| + |mine|;
      assert |labels| == |labels - {h}| + 1;
    }
  }

  /** At most `MAX_ATTEMPTS` guesses are ever charged on a stored code, malformed ones included, and no
      more are verified. For an action and user there are never more verifications than the guess quota,
      nor than `MAX_ATTEMPTS` per proof stored for them, whatever sessions, targets, resends and parallel
      guesses there were. */
  lemma GuessBound(issueLimit: nat, guessLimit: nat, events: seq<Event>, h: nat, action: string, user: string)
    ensures var s := Run(Start(issueLimit, guessLimit), events);
      && |CheckedWith(s, h)| <= |ChargedWith(s.charged, h)| <= MAX_ATTEMPTS
      && |CheckedFor(s, action, user)| <= guessLimit
      && |CheckedFor(s, action, user)| <= MAX_ATTEMPTS * |StoredFor(s, action, user)|
  {
    StartIsOk(issueLimit, guessLimit);
    RunKeepsInv(Start(issueLimit, guessLimit), events);
    LimitsFixed(Start(issueLimit, guessLimit), events);
    var s := Run(Start(issueLimit, guessLimit), events);
    SubsetSize(CheckedWith(s, h), ChargedWith(s.charged, h));
    SubsetSize(CheckedFor(s, action, user), PassedFor(s.passed, action, user));
    LabelledSize(CheckedFor(s, action, user), s.charged, StoredFor(s, action, user), MAX_ATTEMPTS);
  }

  predicate SameLimit(s: System, s': System) { s'.db.guessLimit == s.db.guessLimit }

  lemma ChargesKeepLimit(s: System, p: nat)
    ensures SameLimit(s, GuessStep(s, p)) && SameLimit(s, AttemptStep(s, p))
  {
  }

  lemma ConsumeKeepsLimit(s: System, p: nat)
    ensures SameLimit(s, VerifyStep(s, p)) && SameLimit(s, ConsumeStep(s, p))
  {
  }

  lemma ConfirmKeepsLimit(s: System, e: Event)
    ensures SameLimit(s, ApplyConfirm(s, e))
  {
    match e
    case ChargeGuess(p) => ChargesKeepLimit(s, p);
    case ChargeAttempt(p) => ChargesKeepLimit(s, p);
    case Verify(p) => ConsumeKeepsLimit(s, p);
    case Consume(p) => ConsumeKeepsLimit(s, p);
    case FailConfirm(p, _) =>
      ChargesKeepLimit(s, p);
      ConsumeKeepsLimit(s, p);
    case _ =>
  }

  lemma RequestKeepsLimit(s: System, e: Event)
    ensures SameLimit(s, ApplyRequest(s, e))
  {
  }

  lemma StepKeepsLimit(s: System, e: Event)
    ensures SameLimit(s, Apply(s, e))
  {
    RequestKeepsLimit(s, e);
    ConfirmKeepsLimit(s, e);
  }

  lemma {:induction false} LimitsFixed(s: System, events: seq<Event>)
    ensures Run(s, events).db.guessLimit == s.db.guessLimit
  {
    if events != [] {
      LimitsFixed(s, events[..|events| - 1]);
      StepKeepsLimit(Run(s, events[..|events| - 1]), events[|events| - 1]);
    }
  }
}
