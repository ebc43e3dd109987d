/** The fresh email proof for one sensitive action: `request` and `confirm` as
    sequences of separately atomic backend calls, any number of them
    interleaving with each other, with resends, failed sends, expiry, and
    changes of address and ownership.

    Hashing is abstract: each issue gets a hash of its own, and verification
    succeeds exactly for the code that was hashed. The protected action is the
    reference backend's: removing a passkey its user owns. */
module EmailProof {
  import opened Wrappers

  const CODE_TTL: nat := 5 * 60
  const MAX_ATTEMPTS: nat := 5
  const CODE_DIGITS: nat := 6

  datatype Binding = Binding(action: string, user: string, session: string, target: string)

  datatype Key = Key(action: string, user: string, session: string)

  function KeyOf(b: Binding): Key { Key(b.action, b.user, b.session) }

  datatype Row = Row(target: string, recipient: string, hash: nat, attempts: nat, expiresAt: int)

  /** The tables of the shared database, as in the reference backend. */
  datatype Db = Db(
    now: int,
    emails: map<string, string>,
    passkeys: set<(string, string)>,
    proofs: map<Key, Row>,
    issued: map<(string, string), nat>,
    guessed: map<(string, string), nat>,
    issueLimit: nat,
    guessLimit: nat,
    removed: seq<string>)

  datatype Pending = Pending(binding: Binding, recipient: string, hash: nat)

  // ---- The backend calls, each one atomic ----

  function CountOf(counts: map<(string, string), nat>, action: string, user: string): nat {
    if (action, user) in counts then counts[(action, user)] else 0
  }

  function IssueCharged(db: Db, action: string, user: string): (Db, bool) {
    var count := CountOf(db.issued, action, user) + 1;
    (db.(issued := db.issued[(action, user) := count]), count <= db.issueLimit)
  }

  function GuessCharged(db: Db, action: string, user: string): (Db, bool) {
    var count := CountOf(db.guessed, action, user) + 1;
    (db.(guessed := db.guessed[(action, user) := count]), count <= db.guessLimit)
  }

  function Recipient(db: Db, b: Binding): Option<string> {
    if (b.user, b.target) in db.passkeys && b.user in db.emails then Some(db.emails[b.user]) else None
  }

  function PendingStored(db: Db, p: Pending): Db {
    db.(proofs := db.proofs[KeyOf(p.binding) := Row(p.binding.target, p.recipient, p.hash, 0, db.now + CODE_TTL)])
  }

  function PendingDiscarded(db: Db, p: Pending): Db {
    var k := KeyOf(p.binding);
    if k in db.proofs && db.proofs[k].hash == p.hash then db.(proofs := db.proofs - {k}) else db
  }

  predicate Chargeable(db: Db, b: Binding) {
    KeyOf(b) in db.proofs &&
    var r := db.proofs[KeyOf(b)];
    r.target == b.target && r.expiresAt > db.now && r.attempts < MAX_ATTEMPTS
  }

  function AttemptCharged(db: Db, b: Binding): Db
    requires Chargeable(db, b)
  {
    var r := db.proofs[KeyOf(b)];
    db.(proofs := db.proofs[KeyOf(b) := r.(attempts := r.attempts + 1)])
  }

  predicate Spendable(db: Db, b: Binding, hash: nat) {
    KeyOf(b) in db.proofs &&
    var r := db.proofs[KeyOf(b)];
    r.target == b.target && r.hash == hash && r.expiresAt > db.now &&
    b.user in db.emails && db.emails[b.user] == r.recipient
  }

  /** `None`: nothing to spend. `Some(false)`: the action failed and the proof survives. */
  function Consumed(db: Db, b: Binding, hash: nat): (Db, Option<bool>) {
    if !Spendable(db, b, hash) then (db, None)
    else if (b.user, b.target) !in db.passkeys then (db, Some(false))
    else
      (db.(passkeys := db.passkeys - {(b.user, b.target)}, proofs := db.proofs - {KeyOf(b)},
           removed := db.removed + [b.target]), Some(true))
  }

  predicate WellFormed(code: string) {
    |code| == CODE_DIGITS && forall i :: 0 <= i < |code| ==> '0' <= code[i] <= '9'
  }

  // ---- The two protocols, step by step ----

  datatype Answer = Done | LimitExceeded | Rejected | NotFound | Delivery | Backend

  datatype Requesting =
    | Asking(b: Binding)
    | Addressing(b: Binding)
    | Minting(b: Binding, recipient: string)
    | Storing(pending: Pending)
    | Sending(pending: Pending)
    | Discarding(pending: Pending)
    | Requested(answer: Answer)

  datatype Confirming =
    | Guessing(b: Binding, code: string)
    | Charging(b: Binding, code: string)
    | Checking(b: Binding, code: string, hash: nat)
    | Consuming(b: Binding, code: string, hash: nat)
    | Confirmed(answer: Answer)

  /** History: process `p` performed the action of `b` by spending `hash` with `code`. */
  datatype Performed = Performed(p: nat, b: Binding, hash: nat, code: string)

  /** `codes` and `issuedFor` record what each hash was minted from and for; `stored` the
      hashes ever pending; `passed`, `charged` and `checked` which confirmations were
      within the guess quota, charged an attempt (and on which hash), and verified a hash. */
  datatype System = System(
    db: Db,
    requests: map<nat, Requesting>,
    confirms: map<nat, Confirming>,
    nextHash: nat,
    codes: map<nat, string>,
    issuedFor: map<nat, Binding>,
    stored: set<nat>,
    passed: map<nat, Binding>,
    charged: map<nat, nat>,
    checked: set<nat>,
    performed: seq<Performed>)

  datatype Event =
    | Tick(elapsed: nat)
    | ChangeEmail(user: string, address: string)
    | ChangePasskeys(passkeys: set<(string, string)>)
    | StartRequest(p: nat, b: Binding)
    | ChargeIssue(p: nat)
    | Address(p: nat)
    | Mint(p: nat, code: string)
    | Store(p: nat)
    | Send(p: nat, ok: bool)
    | Discard(p: nat, ok: bool)
    | FailRequest(p: nat, applied: bool)
    | StartConfirm(p: nat, b: Binding, code: string)
    | ChargeGuess(p: nat)
    | ChargeAttempt(p: nat)
    | Verify(p: nat)
    | Consume(p: nat)
    | FailConfirm(p: nat, applied: bool)

  function SetRequest(s: System, p: nat, r: Requesting): System { s.(requests := s.requests[p := r]) }

  function SetConfirm(s: System, p: nat, c: Confirming): System { s.(confirms := s.confirms[p := c]) }

  // Each step below belongs to the process at that point of its protocol, and is nothing for any other.

  ghost function IssueStep(s: System, p: nat): System {
    if p in s.requests && s.requests[p].Asking? then
      var b := s.requests[p].b;
      var (db, ok) := IssueCharged(s.db, b.action, b.user);
      SetRequest(s, p, if ok then Addressing(b) else Requested(LimitExceeded)).(db := db)
    else s
  }

  ghost function AddressStep(s: System, p: nat): System {
    if p in s.requests && s.requests[p].Addressing? then
      var recipient := Recipient(s.db, s.requests[p].b);
      SetRequest(s, p, if recipient.Some? then Minting(s.requests[p].b, recipient.value) else Requested(NotFound))
    else s
  }

  ghost function MintStep(s: System, p: nat, code: string): System {
    if p in s.requests && s.requests[p].Minting? && WellFormed(code) then
      SetRequest(s, p, Storing(Pending(s.requests[p].b, s.requests[p].recipient, s.nextHash)))
        .(nextHash := s.nextHash + 1, codes := s.codes[s.nextHash := code],
          issuedFor := s.issuedFor[s.nextHash := s.requests[p].b])
    else s
  }

  ghost function StoreStep(s: System, p: nat): System {
    if p in s.requests && s.requests[p].Storing? then
      var pending := s.requests[p].pending;
      SetRequest(s, p, Sending(pending)).(db := PendingStored(s.db, pending), stored := s.stored + {pending.hash})
    else s
  }

  ghost function SendStep(s: System, p: nat, ok: bool): System {
    if p in s.requests && s.requests[p].Sending? then
      SetRequest(s, p, if ok then Requested(Done) else Discarding(s.requests[p].pending))
    else s
  }

  ghost function DiscardStep(s: System, p: nat, ok: bool): System {
    if p in s.requests && s.requests[p].Discarding? then
      SetRequest(s, p, Requested(Delivery))
        .(db := if ok then PendingDiscarded(s.db, s.requests[p].pending) else s.db)
    else s
  }

  /** The backend call `p` is about to make. */
  ghost function RequestCall(s: System, p: nat): System
    requires p in s.requests
  {
    match s.requests[p]
    case Asking(_) => IssueStep(s, p)
    case Storing(_) => StoreStep(s, p)
    case Discarding(_) => DiscardStep(s, p, true)
    case _ => s
  }

  /** A call that fails, or a process that stops, may leave its effect behind: `applied`. */
  ghost function FailRequestStep(s: System, p: nat, applied: bool): System {
    if p in s.requests && !s.requests[p].Requested? then
      SetRequest(if applied then RequestCall(s, p) else s, p, Requested(Backend))
    else s
  }

  ghost function ApplyRequest(s: System, e: Event): System {
    match e
    case StartRequest(p, b) => if p in s.requests then s else SetRequest(s, p, Asking(b))
    case ChargeIssue(p) => IssueStep(s, p)
    case Address(p) => AddressStep(s, p)
    case Mint(p, code) => MintStep(s, p, code)
    case Store(p) => StoreStep(s, p)
    case Send(p, ok) => SendStep(s, p, ok)
    case Discard(p, ok) => DiscardStep(s, p, ok)
    case FailRequest(p, applied) => FailRequestStep(s, p, applied)
    case _ => s
  }

  ghost function GuessStep(s: System, p: nat): System {
    if p in s.confirms && s.confirms[p].Guessing? then
      var c := s.confirms[p];
      var (db, ok) := GuessCharged(s.db, c.b.action, c.b.user);
      if ok then SetConfirm(s, p, Charging(c.b, c.code)).(db := db, passed := s.passed[p := c.b])
      else SetConfirm(s, p, Confirmed(LimitExceeded)).(db := db)
    else s
  }

  ghost function AttemptStep(s: System, p: nat): System {
    if p in s.confirms && s.confirms[p].Charging? then
      var c := s.confirms[p];
      if Chargeable(s.db, c.b) then
        var hash := s.db.proofs[KeyOf(c.b)].hash;
        SetConfirm(s, p, Checking(c.b, c.code, hash))
          .(db := AttemptCharged(s.db, c.b), charged := s.charged[p := hash])
      else SetConfirm(s, p, Confirmed(Rejected))
    else s
  }

  ghost function VerifyStep(s: System, p: nat): System {
    if p in s.confirms && s.confirms[p].Checking? then
      var c := s.confirms[p];
      if !WellFormed(c.code) then SetConfirm(s, p, Confirmed(Rejected))
      else if c.hash in s.codes && s.codes[c.hash] == c.code then
        SetConfirm(s, p, Consuming(c.b, c.code, c.hash)).(checked := s.checked + {p})
      else SetConfirm(s, p, Confirmed(Rejected)).(checked := s.checked + {p})
    else s
  }

  ghost function ConsumeStep(s: System, p: nat): System {
    if p in s.confirms && s.confirms[p].Consuming? then
      var c := s.confirms[p];
      var (db, outcome) := Consumed(s.db, c.b, c.hash);
      if outcome == Some(true) then
        SetConfirm(s, p, Confirmed(Done)).(db := db, performed := s.performed + [Performed(p, c.b, c.hash, c.code)])
      else SetConfirm(s, p, Confirmed(if outcome.None? then Rejected else Backend))
    else s
  }

  /** The backend call `p` is about to make. */
  ghost function ConfirmCall(s: System, p: nat): System
    requires p in s.confirms
  {
    match s.confirms[p]
    case Guessing(_, _) => GuessStep(s, p)
    case Charging(_, _) => AttemptStep(s, p)
    case Consuming(_, _, _) => ConsumeStep(s, p)
    case _ => s
  }

  ghost function FailConfirmStep(s: System, p: nat, applied: bool): System {
    if p in s.confirms && !s.confirms[p].Confirmed? then
      SetConfirm(if applied then ConfirmCall(s, p) else s, p, Confirmed(Backend))
    else s
  }

  ghost function ApplyConfirm(s: System, e: Event): System {
    match e
    case StartConfirm(p, b, code) => if p in s.confirms then s else SetConfirm(s, p, Guessing(b, code))
    case ChargeGuess(p) => GuessStep(s, p)
    case ChargeAttempt(p) => AttemptStep(s, p)
    case Verify(p) => VerifyStep(s, p)
    case Consume(p) => ConsumeStep(s, p)
    case FailConfirm(p, applied) => FailConfirmStep(s, p, applied)
    case _ => s
  }

  ghost function Apply(s: System, e: Event): System {
    match e
    case Tick(elapsed) => s.(db := s.db.(now := s.db.now + elapsed))
    case ChangeEmail(user, address) => s.(db := s.db.(emails := s.db.emails[user := address]))
    case ChangePasskeys(passkeys) => s.(db := s.db.(passkeys := passkeys))
    case StartConfirm(_, _, _) => ApplyConfirm(s, e)
    case ChargeGuess(_) => ApplyConfirm(s, e)
    case ChargeAttempt(_) => ApplyConfirm(s, e)
    case Verify(_) => ApplyConfirm(s, e)
    case Consume(_) => ApplyConfirm(s, e)
    case FailConfirm(_, _) => ApplyConfirm(s, e)
    case _ => ApplyRequest(s, e)
  }

  /** An empty proof table with these limits. */
  function Start(issueLimit: nat, guessLimit: nat): System {
    System(Db(0, map[], {}, map[], map[], map[], issueLimit, guessLimit, []),
           map[], map[], 0, map[], map[], {}, map[], map[], {}, [])
  }

  ghost function Run(s: System, events: seq<Event>): System {
    if events == [] then s else Apply(Run(s, events[..|events| - 1]), events[|events| - 1])
  }
}
