/** The mutable backend behind `EmailProof`, shaped like the reference backend, and
    the two protocol functions as one caller runs them when no one interferes. */
module EmailProofStore {
  import opened Wrappers
  import opened EmailProof

  class ProofStore {
    var now: int
    var emails: map<string, string>
    var passkeys: set<(string, string)>
    var proofs: map<Key, Row>
    var issued: map<(string, string), nat>
    var guessed: map<(string, string), nat>
    var issueLimit: nat
    var guessLimit: nat
    var removed: seq<string>

    ghost function Tables(): Db
      reads this
    {
      Db(now, emails, passkeys, proofs, issued, guessed, issueLimit, guessLimit, removed)
    }

    constructor (issueLimit: nat, guessLimit: nat)
      ensures Tables() == Start(issueLimit, guessLimit).db
    {
      now, emails, passkeys, proofs := 0, map[], {}, map[];
      issued, guessed, this.issueLimit, this.guessLimit, removed := map[], map[], issueLimit, guessLimit, [];
    }

    method ChargeIssue(action: string, user: string) returns (ok: bool)
      modifies this`issued
      ensures (Tables(), ok) == IssueCharged(old(Tables()), action, user)
      ensures ok <==> CountOf(old(issued), action, user) < issueLimit
      ensures CountOf(issued, action, user) == CountOf(old(issued), action, user) + 1
      ensures forall a, u :: (a, u) != (action, user) ==> CountOf(issued, a, u) == CountOf(old(issued), a, u)
    {
      var count := if (action, user) in issued then issued[(action, user)] + 1 else 1;
      issued := issued[(action, user) := count];
      ok := count <= issueLimit;
    }

    method ChargeGuess(action: string, user: string) returns (ok: bool)
      modifies this`guessed
      ensures (Tables(), ok) == GuessCharged(old(Tables()), action, user)
      ensures ok <==> CountOf(old(guessed), action, user) < guessLimit
      ensures CountOf(guessed, action, user) == CountOf(old(guessed), action, user) + 1
      ensures forall a, u :: (a, u) != (action, user) ==> CountOf(guessed, a, u) == CountOf(old(guessed), a, u)
    {
      var count := if (action, user) in guessed then guessed[(action, user)] + 1 else 1;
      guessed := guessed[(action, user) := count];
      ok := count <= guessLimit;
    }

    method StorePending(p: Pending)
      modifies this`proofs
      ensures Tables() == PendingStored(old(Tables()), p)
      ensures Chargeable(Tables(), p.binding) && proofs[KeyOf(p.binding)].hash == p.hash
      ensures proofs[KeyOf(p.binding)].attempts == 0 && proofs[KeyOf(p.binding)].recipient == p.recipient
      ensures forall k :: k in old(proofs) && k != KeyOf(p.binding) ==> k in proofs && proofs[k] == old(proofs)[k]
      ensures proofs.Keys == old(proofs).Keys + {KeyOf(p.binding)}
    {
      proofs := proofs[KeyOf(p.binding) := Row(p.binding.target, p.recipient, p.hash, 0, now + CODE_TTL)];
    }

    method DiscardPending(p: Pending)
      modifies this`proofs
      ensures Tables() == PendingDiscarded(old(Tables()), p)
      ensures forall k :: k in old(proofs) && old(proofs)[k].hash != p.hash ==>
        k in proofs && proofs[k] == old(proofs)[k]
    {
      var k := KeyOf(p.binding);
      if k in proofs && proofs[k].hash == p.hash {
        proofs := proofs - {k};
      }
    }

    /** One guess on the matching proof, and its hash. */
    method ChargeAttempt(b: Binding) returns (hash: Option<nat>)
      modifies this`proofs
      ensures hash.Some? <==> old(Chargeable(Tables(), b))
      ensures hash.Some? <==>
        && KeyOf(b) in old(proofs)
        && var r := old(proofs)[KeyOf(b)];
        && r.target == b.target && r.expiresAt > now && r.attempts < 5
      ensures hash.Some? ==>
        && var r := old(proofs)[KeyOf(b)];
        proofs == old(proofs)[KeyOf(b) := r.(attempts := r.attempts + 1)]
      ensures hash.Some? ==> Tables() == AttemptCharged(old(Tables()), b) && hash.value == old(proofs)[KeyOf(b)].hash
      ensures hash.None? ==> Tables() == old(Tables())
    {
      var k := KeyOf(b);
      hash := None;
      if k in proofs {
        var r := proofs[k];
        if r.target == b.target && r.expiresAt > now && r.attempts < MAX_ATTEMPTS {
          proofs := proofs[k := r.(attempts := r.attempts + 1)];
          hash := Some(r.hash);
        }
      }
    }

    method ConsumeAndPerform(b: Binding, hash: nat) returns (outcome: Option<bool>)
      modifies this`passkeys, this`proofs, this`removed
      ensures (Tables(), outcome) == Consumed(old(Tables()), b, hash)
      ensures outcome.None? <==> !old(Spendable(Tables(), b, hash))
      ensures outcome.Some? <==>
        && KeyOf(b) in old(proofs)
        && var r := old(proofs)[KeyOf(b)];
        && r.target == b.target && r.hash == hash && r.expiresAt > now
        && b.user in emails && emails[b.user] == r.recipient
      ensures outcome == Some(true) <==> outcome.Some? && (b.user, b.target) in old(passkeys)
      ensures outcome == Some(true) ==>
        && proofs == old(proofs) - {KeyOf(b)} && passkeys == old(passkeys) - {(b.user, b.target)}
        && removed == old(removed) + [b.target]
      ensures outcome != Some(true) ==> Tables() == old(Tables())
    {
      var k := KeyOf(b);
      var spendable := k in proofs && proofs[k].target == b.target && proofs[k].hash == hash &&
                       proofs[k].expiresAt > now && b.user in emails && emails[b.user] == proofs[k].recipient;
      if !spendable {
        return None;
      }
      if (b.user, b.target) !in passkeys {
        return Some(false);
      }
      passkeys := passkeys - {(b.user, b.target)};
      proofs := proofs - {k};
      removed := removed + [b.target];
      return Some(true);
    }
  }

  /** `request`, with the hash it minted and whether its mail was sent. The previous code is
      replaced exactly when a new one was stored; a failed send leaves no code at all. */
  method Request(store: ProofStore, b: Binding, hash: nat, sent: bool) returns (answer: Answer)
    modifies store`issued, store`proofs
    ensures answer == LimitExceeded <==> CountOf(old(store.issued), b.action, b.user) >= store.issueLimit
    ensures answer == NotFound <==>
      answer != LimitExceeded && ((b.user, b.target) !in store.passkeys || b.user !in store.emails)
    ensures answer == LimitExceeded || answer == NotFound ==> store.proofs == old(store.proofs)
    ensures answer == Done ==>
      store.proofs == old(store.proofs)[KeyOf(b) := Row(b.target, store.emails[b.user], hash, 0, store.now + 300)]
    ensures answer == Delivery ==> store.proofs == old(store.proofs) - {KeyOf(b)}
    ensures answer == LimitExceeded || answer == NotFound || answer == if sent then Done else Delivery
  {
    var within := store.ChargeIssue(b.action, b.user);
    if !within {
      return LimitExceeded;
    }
    if (b.user, b.target) !in store.passkeys || b.user !in store.emails {
      return NotFound;
    }
    var pending := Pending(b, store.emails[b.user], hash);
    store.StorePending(pending);
    if !sent {
      store.DiscardPending(pending);
      return Delivery;
    }
    return Done;
  }

  /** What `confirm` must find to answer Ok: guesses left in the quota; a pending proof for this target, not lapsed,
      with attempts left; its code, in six digits; the address it was mailed to still the account's; and the passkey
      still the user's. */
  ghost predicate Confirmable(db: Db, b: Binding, code: string, codes: map<nat, string>) {
    && CountOf(db.guessed, b.action, b.user) < db.guessLimit
    && KeyOf(b) in db.proofs
    && var r := db.proofs[KeyOf(b)];
    && r.target == b.target && r.expiresAt > db.now && r.attempts < 5
    && |code| == 6 && (forall i :: 0 <= i < 6 ==> '0' <= code[i] <= '9')
    && r.hash in codes && codes[r.hash] == code
    && b.user in db.emails && db.emails[b.user] == r.recipient
    && (b.user, b.target) in db.passkeys
  }

  /** `confirm`: Ok exactly when everything matches, and then the proof is spent and the action
      performed; otherwise neither the passkeys nor the removals change. */
  method Confirm(store: ProofStore, b: Binding, code: string, codes: map<nat, string>) returns (answer: Answer)
    modifies store`guessed, store`proofs, store`passkeys, store`removed
    ensures answer == Done <==> Confirmable(old(store.Tables()), b, code, codes)
    ensures answer == Done ==>
      && store.proofs == old(store.proofs) - {KeyOf(b)}
      && store.passkeys == old(store.passkeys) - {(b.user, b.target)}
      && store.removed == old(store.removed) + [b.target]
    ensures answer != Done ==> store.passkeys == old(store.passkeys) && store.removed == old(store.removed)
    ensures answer != Done ==> store.proofs.Keys == old(store.proofs).Keys
  {
    var within := store.ChargeGuess(b.action, b.user);
    if !within {
      return LimitExceeded;
    }
    var hash := store.ChargeAttempt(b);
    if hash.None? {
      return Rejected;
    }
    if !WellFormed(code) {
      return Rejected;
    }
    if hash.value !in codes || codes[hash.value] != code {
      return Rejected;
    }
    var outcome := store.ConsumeAndPerform(b, hash.value);
    answer := if outcome == Some(true) then Done else if outcome.None? then Rejected else Backend;
  }
}
