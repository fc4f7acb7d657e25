/**
 * What every interleaving of sign-ins, allowlist edits, operator decisions, claims and settlements
 * keeps: unique identifiers, decisions that only operators move, markers that are armed and closed
 * once, and claims that respect each other's leases.
 */
module BetaAccessProof {
  import opened Prelude
  import opened Lists
  import opened Runs
  import opened BetaAccess

  // ----- Records keep their place -----

  predicate Place(v: World, i: nat, subject: Key) {
    i < |v.users| && v.users[i].subject == subject
  }

  lemma StepKeepsPlace(w: World, op: Op, i: nat, subject: Key)
    requires Place(w, i, subject)
    ensures Place(Next(w, op), i, subject)
  {
  }

  // ----- Decisions -----

  /** One of the entry's identifiers is the record's. */
  predicate Covers(e: Entry, email: Option<Key>, wallet: Option<Wallet>) {
    (e.email.Some? && e.email == email) || (e.wallet.Some? && WalletKey(e.wallet) == WalletKey(wallet))
  }

  predicate OnList(entries: seq<Entry>, id: Key, u: User) {
    exists k :: 0 <= k < |entries| && entries[k].id == id && Covers(entries[k], u.email, u.wallet)
  }

  lemma MatchIsOnList(entries: seq<Entry>, u: User)
    ensures MatchEntry(entries, u.email, u.wallet).Some? ==>
              OnList(entries, MatchEntry(entries, u.email, u.wallet).value, u)
    ensures MatchEntry(entries, u.email, u.wallet).None? ==>
              forall k :: 0 <= k < |entries| ==> !Covers(entries[k], u.email, u.wallet)
  {
    var byEmail, byWallet := EntryByEmail(entries, u.email), EntryByWallet(entries, WalletKey(u.wallet));
    if byEmail.Some? {
      assert Covers(entries[byEmail.value], u.email, u.wallet);
    } else if byWallet.Some? {
      assert Covers(entries[byWallet.value], u.email, u.wallet);
    }
  }

  lemma CandidateIsCovered(users: seq<User>, e: Entry, i: nat)
    requires i in Candidates(users, e.email, e.wallet)
    ensures i < |users| && Covers(e, users[i].email, users[i].wallet)
  {
    var byEmail := UsersByEmail(users, e.email);
    if i in byEmail {
      PositionsMember(users, (u: User) => u.email == e.email, |users|, i);
    } else {
      FilterMembers(UsersByWallet(users, e.wallet), Outside(byEmail));
      PositionsMember(users, (u: User) => WalletKey(u.wallet) == WalletKey(e.wallet), |users|, i);
    }
  }

  /** An operator's step on this record that leaves it with decision `d`. */
  predicate OperatorMove(op: Op, u: User, d: Decision) {
    op.Decide? && op.subject == u.subject && d == Decision(op.target, ByOperator(op.operator), op.now)
  }

  /** An admission naming an entry that is on the list and covers the record. */
  predicate ListMove(entries: seq<Entry>, u: User, d: Decision) {
    d.state == Approved && d.authority.ByAllowlist? && OnList(entries, d.authority.entry, u)
  }

  lemma RefreshMovesOnlyTheAwaiting(entries: seq<Entry>, u: User, a: Identity, now: Time)
    ensures var v := Refreshed(entries, u, a, now);
            DecisionOf(v) == DecisionOf(u) || (Awaiting(u) && ListMove(entries, v, DecisionOf(v)))
  {
    MatchIsOnList(entries, Merged(u, a));
  }

  lemma AdmissionMovesOnlyTheAwaiting(w: World, e: Entry, now: Time, i: nat)
    requires i < |w.users| && e in w.entries
    ensures var v := AdmitFor(w, e, now).0.users[i];
            DecisionOf(v) == DecisionOf(w.users[i]) || (Awaiting(w.users[i]) && ListMove(w.entries, v, DecisionOf(v)))
  {
    var candidates := Candidates(w.users, e.email, e.wallet);
    if i in candidates && Awaiting(w.users[i]) {
      CandidateIsCovered(w.users, e, i);
      var k :| 0 <= k < |w.entries| && w.entries[k] == e;
      assert Covers(w.entries[k], w.users[i].email, w.users[i].wallet);
    }
  }

  /** The only ways a stored record's decision moves. */
  lemma DecisionMoves(w: World, op: Op, i: nat)
    requires i < |w.users|
    ensures var u, v := w.users[i], Step(w, op).0.users[i];
            || DecisionOf(v) == DecisionOf(u)
            || OperatorMove(op, u, DecisionOf(v))
            || (Awaiting(u) && ListMove(Step(w, op).0.entries, v, DecisionOf(v)))
  {
    match op {
      case Establish(a, now) =>
        RefreshMovesOnlyTheAwaiting(w.entries, w.users[i], a, now);
      case CreateEntry(email, wallet, caption, operator, now) =>
        var e := Entry(w.next, email, wallet, caption, now, now, operator);
        AdmissionMovesOnlyTheAwaiting(w.(entries := w.entries + [e], next := w.next + 1), e, now, i);
      case UpdateEntry(id, _, _, _, now) =>
        var at := FindEntry(w.entries, id);
        if at.Some? {
          var e := EditedEntry(w.entries[at.value], op);
          assert w.entries[at.value := e][at.value] == e;
          AdmissionMovesOnlyTheAwaiting(w.(entries := w.entries[at.value := e]), e, now, i);
        }
      case _ =>
    }
  }

  /** A new record is awaiting review, or admitted by an entry that covers it. */
  lemma NewDecision(w: World, op: Op)
    requires |w.users| < |Step(w, op).0.users|
    ensures var v := Step(w, op).0.users[|w.users|];
            Awaiting(v) || ListMove(Step(w, op).0.entries, v, DecisionOf(v))
  {
    if op.Establish? {
      MatchIsOnList(w.entries, NewUser(w.entries, op.identity, op.now));
    }
  }

  predicate NotTheOperator(op: Op, subject: Key) {
    !(op.Decide? && op.subject == subject)
  }

  predicate Holds(v: World, i: nat, subject: Key, d: Decision) {
    Place(v, i, subject) && DecisionOf(v.users[i]) == d
  }

  lemma StepKeepsDecision(w: World, op: Op, i: nat, subject: Key, d: Decision)
    requires Holds(w, i, subject, d) && d.state != AwaitingReview && NotTheOperator(op, subject)
    ensures Holds(Next(w, op), i, subject, d)
  {
    DecisionMoves(w, op, i);
    StepKeepsPlace(w, op, i, subject);
  }

  /** An approved or declined decision stands until an operator moves it, whatever else happens. */
  lemma DecisionStands(w: World, ops: seq<Op>, m: nat, n: nat, i: nat, subject: Key, d: Decision)
    requires m <= n <= |ops| && Holds(After(w, ops, m), i, subject, d) && d.state != AwaitingReview
    requires forall k :: m <= k < n ==> NotTheOperator(ops[k], subject)
    ensures Holds(After(w, ops, n), i, subject, d)
  {
    forall v, op | Holds(v, i, subject, d) && NotTheOperator(op, subject) ensures Holds(Next(v, op), i, subject, d) {
      StepKeepsDecision(v, op, i, subject, d);
    }
    KeptAlong(Next, w, ops, m, n, op => NotTheOperator(op, subject), v => Holds(v, i, subject, d));
  }

  /** This step gave the record decision `d`: an operator did, or an entry on the list that covered it. */
  predicate Gives(v: World, op: Op, i: nat, d: Decision) {
    && i < |Next(v, op).users| && DecisionOf(Next(v, op).users[i]) == d
    && (OperatorMove(op, Next(v, op).users[i], d) || ListMove(Next(v, op).entries, Next(v, op).users[i], d))
  }

  /** A decision other than the default was there before the step, or the step gave it. */
  lemma DecisionIsOldOrGiven(v: World, op: Op, i: nat)
    requires i < |Next(v, op).users| && !Awaiting(Next(v, op).users[i])
    ensures var d := DecisionOf(Next(v, op).users[i]);
            Gives(v, op, i, d) || (i < |v.users| && DecisionOf(v.users[i]) == d)
  {
    OneNewRecord(v, op);
    if i == |v.users| {
      NewDecision(v, op);
    } else {
      DecisionMoves(v, op, i);
      StepKeepsPlace(v, op, i, v.users[i].subject);
    }
  }

  lemma OneNewRecord(w: World, op: Op)
    ensures |Next(w, op).users| <= |w.users| + 1
  {
  }

  /** In every run from an empty directory each approval or refusal was given at some step. */
  lemma {:induction false} DecisionHasAnOrigin(w: World, ops: seq<Op>, n: nat, i: nat) returns (k: nat)
    requires w.users == [] && n <= |ops| && i < |After(w, ops, n).users| && !Awaiting(After(w, ops, n).users[i])
    ensures k < n && Gives(After(w, ops, k), ops[k], i, DecisionOf(After(w, ops, n).users[i]))
  {
    k := n - 1;
    DecisionIsOldOrGiven(After(w, ops, n - 1), ops[n - 1], i);
    if !Gives(After(w, ops, n - 1), ops[n - 1], i, DecisionOf(After(w, ops, n).users[i])) {
      k := DecisionHasAnOrigin(w, ops, n - 1, i);
    }
  }

  // ----- Markers -----

  lemma RefreshMarks(entries: seq<Entry>, u: User, a: Identity, now: Time)
    ensures var v := Refreshed(entries, u, a, now);
            && (u.welcome.Some? ==> v.welcome == u.welcome)
            && (u.welcome.None? && v.welcome.Some? ==>
                  EffectiveAccess(Some(v)) == Admitted && (v.welcome.value.Due? || v.welcome.value.NotApplicable?))
            && (EffectiveAccess(Some(v)) == Admitted ==> v.welcome.Some?)
  {
  }

  /** The only ways a stored record's marker moves. */
  lemma MarkerMoves(w: World, op: Op, i: nat)
    requires i < |w.users|
    ensures var u, v := w.users[i], Step(w, op).0.users[i];
            || v.welcome == u.welcome
            || (op.Establish? && op.identity.subject == u.subject && u.welcome.None? && v.welcome.Some?
                && EffectiveAccess(Some(v)) == Admitted && (v.welcome.value.Due? || v.welcome.value.NotApplicable?))
            || (Takes(w, op, i) && v == ClaimedUser(u, op.now, Lease(op.lease)))
            || (op.Settle? && op.subject == u.subject && Open(u.welcome)
                && v.welcome == Some(SettledMarker(u.welcome.value, op.sent, op.now)))
  {
    match op {
      case Establish(a, now) => RefreshMarks(w.entries, w.users[i], a, now);
      case Claim(limit, lease, now) =>
      case _ =>
    }
  }

  predicate ClaimValid(op: Op) {
    op.Claim? && 1 <= op.limit <= CLAIM_MAX_BATCH && CLAIM_MIN_LEASE <= Lease(op.lease) <= CLAIM_MAX_LEASE
  }

  /** This step claims record `i`. */
  predicate Takes(w: World, op: Op, i: nat) {
    ClaimValid(op) && i < |w.users| && i in Chosen(w.users, op.limit, op.now)
  }

  /** A marker past `due` that no claim before `bound` can take. */
  predicate HeldUntil(u: User, bound: Time) {
    Terminal(u.welcome) || (u.welcome.Some? && u.welcome.value.Claimed? && u.welcome.value.expiresAt >= bound)
  }

  lemma TakenIsClaimable(w: World, op: Op, i: nat)
    requires Takes(w, op, i)
    ensures Claimable(w.users[i], op.now)
  {
    ChosenAreClaimable(w.users, op.limit, op.now);
  }

  lemma TakenIsHeld(w: World, op: Op, i: nat)
    requires Takes(w, op, i)
    ensures HeldUntil(Step(w, op).0.users[i], op.now + Lease(op.lease))
  {
    TakenIsClaimable(w, op, i);
  }

  predicate Held(v: World, i: nat, bound: Time) {
    i < |v.users| && HeldUntil(v.users[i], bound)
  }

  lemma HoldStays(w: World, op: Op, i: nat, bound: Time)
    requires Held(w, i, bound)
    ensures Held(Next(w, op), i, bound)
  {
    MarkerMoves(w, op, i);
    if Takes(w, op, i) {
      TakenIsClaimable(w, op, i);
    }
    StepKeepsPlace(w, op, i, w.users[i].subject);
  }

  lemma HoldBlocks(v: World, op: Op, i: nat, bound: Time)
    requires Held(v, i, bound) && Takes(v, op, i)
    ensures op.now >= bound
  {
    TakenIsClaimable(v, op, i);
  }

  function Clock(op: Op): Time {
    if op.Claim? then op.now else 0
  }

  function Until(op: Op): Time {
    if op.Claim? then op.now + Lease(op.lease) else 0
  }

  /**
   * Two claims of one record are separated by at least the earlier claim's lease, whatever the clock does
   * in between.
   */
  lemma ClaimsAreSeparated(w: World, ops: seq<Op>, a: nat, b: nat, i: nat)
    requires a < b < |ops| && Takes(After(w, ops, a), ops[a], i) && Takes(After(w, ops, b), ops[b], i)
    ensures Clock(ops[b]) >= Until(ops[a])
  {
    forall v, op | Takes(v, op, i) ensures Held(Next(v, op), i, Until(op)) {
      TakenIsHeld(v, op, i);
      StepKeepsPlace(v, op, i, v.users[i].subject);
    }
    forall v, op, t: int | Held(v, i, t) ensures Held(Next(v, op), i, t) {
      HoldStays(v, op, i, t);
    }
    forall v, op, t: int | Held(v, i, t) && Takes(v, op, i) ensures Clock(op) >= t {
      HoldBlocks(v, op, i, t);
    }
    TakesAreSpaced(Next, w, ops, a, b, (v, op) => Takes(v, op, i), (v, t) => Held(v, i, t), Clock, Until);
  }

  predicate Marked(v: World, i: nat, m: Marker) {
    i < |v.users| && v.users[i].welcome == Some(m)
  }

  lemma StepKeepsTerminalMarker(w: World, op: Op, i: nat, m: Marker)
    requires Marked(w, i, m) && Terminal(Some(m))
    ensures Marked(Next(w, op), i, m)
  {
    MarkerMoves(w, op, i);
    if Takes(w, op, i) {
      TakenIsClaimable(w, op, i);
    }
    StepKeepsPlace(w, op, i, w.users[i].subject);
  }

  /** A `sent` or `not_applicable` marker never changes. */
  lemma TerminalMarkerStands(w: World, ops: seq<Op>, m: nat, n: nat, i: nat, marker: Marker)
    requires m <= n <= |ops| && Marked(After(w, ops, m), i, marker) && Terminal(Some(marker))
    ensures Marked(After(w, ops, n), i, marker)
  {
    forall v, op | Marked(v, i, marker) ensures Marked(Next(v, op), i, marker) {
      StepKeepsTerminalMarker(v, op, i, marker);
    }
    KeptAlong(Next, w, ops, m, n, op => true, v => Marked(v, i, marker));
  }

  /** This step settles the marker of record `i`. */
  predicate Settles(v: World, op: Op, i: nat) {
    i < |v.users| && op.Settle? && op.subject == v.users[i].subject && FindUser(v.users, op.subject) == Some(i)
    && Step(v, op).1.Settled?
  }

  predicate Closed(v: World, i: nat) {
    i < |v.users| && Terminal(v.users[i].welcome)
  }

  lemma SettlingCloses(v: World, op: Op, i: nat)
    requires Settles(v, op, i)
    ensures Closed(Next(v, op), i)
  {
  }

  lemma ClosedStaysClosed(v: World, op: Op, i: nat)
    requires Closed(v, i)
    ensures Closed(Next(v, op), i) && !Settles(v, op, i)
  {
    StepKeepsTerminalMarker(v, op, i, v.users[i].welcome.value);
  }

  /** A welcome is settled at most once. */
  lemma SettledOnce(w: World, ops: seq<Op>, a: nat, b: nat, i: nat)
    requires a < b < |ops| && Settles(After(w, ops, a), ops[a], i)
    ensures !Settles(After(w, ops, b), ops[b], i)
  {
    forall v, op | Settles(v, op, i) ensures Closed(Next(v, op), i) {
      SettlingCloses(v, op, i);
    }
    forall v, op | Closed(v, i) ensures Closed(Next(v, op), i) && !Settles(v, op, i) {
      ClosedStaysClosed(v, op, i);
    }
    HappensOnce(Next, w, ops, a, b, (v, op) => Settles(v, op, i), v => Closed(v, i));
  }

  /** After any contact of an admitted, unsuspended record its welcome is decided. */
  lemma AdmittedContactIsMarked(w: World, a: Identity, now: Time, i: nat)
    requires FindUser(w.users, a.subject) == Some(i) && !Ambiguous(w.users, a.subject)
    requires EffectiveAccess(Some(EstablishStep(w, a, now).0.users[i])) == Admitted
    ensures EstablishStep(w, a, now).0.users[i].welcome.Some?
  {
    RefreshMarks(w.entries, w.users[i], a, now);
  }
}
