/**
 * What each closed-beta operation answers and what it leaves on the rows, for every branch: whose
 * record it concerns, which requests are refused and why, every field of what is written, and that
 * nothing else changes. Everything is stated on the rows of the directory and of the allowlist.
 */
module BetaAnswers {
  import opened Prelude
  import opened Runs
  import opened BetaAccess
  import P = BetaAccessProof
  import A = BetaAllowlistProof

  function Answer(w: World, op: Op): Outcome {
    Step(w, op).1
  }

  // ----- Whose record -----

  predicate Absent(users: seq<User>, subject: Key) {
    forall j :: 0 <= j < |users| ==> users[j].subject != subject
  }

  /** Record `i` is the only one of the subject. */
  predicate Only(users: seq<User>, i: nat, subject: Key) {
    i < |users| && users[i].subject == subject
    && forall j :: 0 <= j < |users| && j != i ==> users[j].subject != subject
  }

  predicate Twice(users: seq<User>, i: nat, j: nat, subject: Key) {
    i < j < |users| && users[i].subject == users[j].subject == subject
  }

  /** The operations that look a subject up. */
  predicate Concerns(op: Op, subject: Key) {
    match op
    case Establish(a, _) => a.subject == subject
    case Decide(s, _, _, _) => s == subject
    case Settle(s, _, _) => s == subject
    case _ => false
  }

  lemma TwoRecordsAreRefused(w: World, op: Op, subject: Key, i: nat, j: nat)
    requires Concerns(op, subject) && Twice(w.users, i, j, subject)
    ensures Step(w, op) == (w, Refusal(StateConflict))
  {
    assert Ambiguous(w.users, subject);
  }

  lemma OnlyIsFound(users: seq<User>, i: nat, subject: Key)
    requires Only(users, i, subject)
    ensures FindUser(users, subject) == Some(i) && !Ambiguous(users, subject)
  {
  }

  lemma AbsentIsNotFound(users: seq<User>, subject: Key)
    requires Absent(users, subject)
    ensures FindUser(users, subject).None? && !Ambiguous(users, subject)
  {
  }

  // ----- Invitations -----

  predicate SameEmail(a: Option<Key>, b: Option<Key>) {
    a.Some? && b.Some? && a.value == b.value
  }

  /** Two addresses are one wallet whatever their casing. */
  predicate SameWallet(a: Option<Wallet>, b: Option<Wallet>) {
    a.Some? && b.Some? && a.value.key == b.value.key
  }

  predicate FirstByEmail(entries: seq<Entry>, k: nat, email: Option<Key>) {
    k < |entries| && SameEmail(entries[k].email, email)
    && forall j :: 0 <= j < k ==> !SameEmail(entries[j].email, email)
  }

  predicate FirstByWallet(entries: seq<Entry>, k: nat, wallet: Option<Wallet>) {
    k < |entries| && SameWallet(entries[k].wallet, wallet)
    && forall j :: 0 <= j < k ==> !SameWallet(entries[j].wallet, wallet)
  }

  predicate NamesEmail(entries: seq<Entry>, email: Option<Key>) {
    exists k :: 0 <= k < |entries| && SameEmail(entries[k].email, email)
  }

  predicate NamesWallet(entries: seq<Entry>, wallet: Option<Wallet>) {
    exists k :: 0 <= k < |entries| && SameWallet(entries[k].wallet, wallet)
  }

  predicate Invited(entries: seq<Entry>, email: Option<Key>, wallet: Option<Wallet>) {
    NamesEmail(entries, email) || NamesWallet(entries, wallet)
  }

  /** The entry that admits an identity: the first that names its email, else the first with its wallet. */
  predicate InvitedBy(entries: seq<Entry>, k: nat, email: Option<Key>, wallet: Option<Wallet>) {
    if NamesEmail(entries, email) then FirstByEmail(entries, k, email) else FirstByWallet(entries, k, wallet)
  }

  lemma InvitationIsTheMatch(entries: seq<Entry>, email: Option<Key>, wallet: Option<Wallet>)
    ensures Invited(entries, email, wallet) <==> MatchEntry(entries, email, wallet).Some?
    ensures forall k: nat :: InvitedBy(entries, k, email, wallet) ==>
                               MatchEntry(entries, email, wallet) == Some(entries[k].id)
  {
    var byEmail, byWallet := EntryByEmail(entries, email), EntryByWallet(entries, WalletKey(wallet));
    assert byEmail.Some? ==> SameEmail(entries[byEmail.value].email, email);
    assert byWallet.Some? ==> SameWallet(entries[byWallet.value].wallet, wallet);
    assert byEmail.Some? <==> NamesEmail(entries, email);
    assert byWallet.Some? <==> NamesWallet(entries, wallet);
  }

  /** An admission of record or identity `u` at `now` by the entry that invites it. */
  predicate AdmittedBy(entries: seq<Entry>, d: Decision, email: Option<Key>, wallet: Option<Wallet>, now: Time) {
    d.state == Approved && d.decidedAt == now && d.authority.ByAllowlist?
    && forall k :: 0 <= k < |entries| && InvitedBy(entries, k, email, wallet) ==>
                     d.authority == ByAllowlist(entries[k].id)
  }

  // ----- First contact -----

  /** A new record holds what the identity exposes; an invited one is admitted and its welcome is armed. */
  lemma FirstContactAnswers(w: World, a: Identity, now: Time)
    requires Absent(w.users, a.subject)
    ensures Answer(w, Establish(a, now)) == Established(true, false)
    ensures |Next(w, Establish(a, now)).users| == |w.users| + 1
    ensures var v := Next(w, Establish(a, now)).users[|w.users|];
            && Next(w, Establish(a, now)) == w.(users := w.users + [v])
            && v.subject == a.subject && v.authMethod == a.authMethod && v.email == a.email && v.wallet == a.wallet
            && v.firstSeenAt == v.lastSeenAt == now && !v.suspended && v.access.Some?
            && (if Invited(w.entries, a.email, a.wallet) then
                  && AdmittedBy(w.entries, v.access.value, a.email, a.wallet, now)
                  && v.welcome == Some(if a.email.Some? then Due(now) else NotApplicable(NoVerifiedEmail, now))
                else v.access.value == Decision(AwaitingReview, ByDefault, now) && v.welcome.None?)
  {
    AbsentIsNotFound(w.users, a.subject);
    InvitationIsTheMatch(w.entries, a.email, a.wallet);
  }

  // ----- Return -----

  /** What is known after a contact: what the identity exposes now, else what was known. */
  function Known<T>(exposed: Option<T>, stored: Option<T>): Option<T> {
    match exposed
    case Some(x) => Some(x)
    case None => stored
  }

  predicate Waits(u: User) {
    u.access.None? || u.access.value.state.AwaitingReview?
  }

  /** This contact admits the record: it was waiting, and the list names an identifier known now. */
  predicate AdmittedNow(w: World, u: User, a: Identity) {
    Waits(u) && Invited(w.entries, Known(a.email, u.email), Known(a.wallet, u.wallet))
  }

  /** The contact is that of an admitted record in good standing without a marker. */
  predicate MarksNow(w: World, u: User, a: Identity) {
    u.welcome.None? && !u.suspended && (AdmittedNow(w, u, a) || (u.access.Some? && u.access.value.state.Approved?))
  }

  /** The contact leaves a trace. */
  predicate WritesNow(w: World, u: User, a: Identity, now: Time) {
    || u.authMethod != a.authMethod || u.email != Known(a.email, u.email) || u.wallet != Known(a.wallet, u.wallet)
    || now < u.lastSeenAt || now - u.lastSeenAt >= 60_000 || u.access.None? || AdmittedNow(w, u, a) || MarksNow(w, u, a)
  }

  lemma ReturnAnswers(w: World, a: Identity, now: Time, i: nat)
    requires Only(w.users, i, a.subject)
    ensures Answer(w, Establish(a, now)) == Established(false, w.users[i].suspended)
    ensures |Next(w, Establish(a, now)).users| == |w.users|
    ensures var u, v := w.users[i], Next(w, Establish(a, now)).users[i];
            && Next(w, Establish(a, now)) == w.(users := w.users[i := v])
            && (v.subject, v.firstSeenAt, v.suspended) == (u.subject, u.firstSeenAt, u.suspended)
            && v.authMethod == a.authMethod && v.email == Known(a.email, u.email)
            && v.wallet == Known(a.wallet, u.wallet)
            && v.lastSeenAt == (if WritesNow(w, u, a, now) then now else u.lastSeenAt)
  {
    OnlyIsFound(w.users, i, a.subject);
    InvitationIsTheMatch(w.entries, Known(a.email, w.users[i].email), Known(a.wallet, w.users[i].wallet));
  }

  /** The decision after a contact: an admission, the default made explicit, or the one that stood. */
  lemma ReturnDecides(w: World, a: Identity, now: Time, i: nat)
    requires Only(w.users, i, a.subject)
    ensures |Next(w, Establish(a, now)).users| == |w.users|
    ensures var u, v := w.users[i], Next(w, Establish(a, now)).users[i];
            && v.access.Some?
            && (if AdmittedNow(w, u, a) then
                  AdmittedBy(w.entries, v.access.value, Known(a.email, u.email), Known(a.wallet, u.wallet), now)
                else if u.access.None? then v.access.value == Decision(AwaitingReview, ByDefault, u.firstSeenAt)
                else v.access == u.access)
  {
    OnlyIsFound(w.users, i, a.subject);
    InvitationIsTheMatch(w.entries, Known(a.email, w.users[i].email), Known(a.wallet, w.users[i].wallet));
  }

  /**
   * The welcome after a contact: a marker never changes; a record first admitted now or since its last
   * contact is armed if an address is known, and one that was seen while admitted is grandfathered.
   */
  lemma ReturnMarks(w: World, a: Identity, now: Time, i: nat)
    requires Only(w.users, i, a.subject)
    ensures |Next(w, Establish(a, now)).users| == |w.users|
    ensures var u, v := w.users[i], Next(w, Establish(a, now)).users[i];
            v.welcome ==
            if !MarksNow(w, u, a) then u.welcome
            else if !AdmittedNow(w, u, a) && u.access.value.decidedAt <= u.lastSeenAt then
              Some(NotApplicable(Grandfathered, now))
            else if Known(a.email, u.email).None? then Some(NotApplicable(NoVerifiedEmail, now))
            else Some(Due(now))
  {
    OnlyIsFound(w.users, i, a.subject);
    InvitationIsTheMatch(w.entries, Known(a.email, w.users[i].email), Known(a.wallet, w.users[i].wallet));
  }

  // ----- Allowlist -----

  /** An entry other than `except` has the identifier. */
  predicate EmailTaken(entries: seq<Entry>, email: Option<Key>, except: Option<Key>) {
    exists k :: 0 <= k < |entries| && SameEmail(entries[k].email, email) && Some(entries[k].id) != except
  }

  predicate WalletTaken(entries: seq<Entry>, wallet: Option<Wallet>, except: Option<Key>) {
    exists k :: 0 <= k < |entries| && SameWallet(entries[k].wallet, wallet) && Some(entries[k].id) != except
  }

  /** Why an entry with these identifiers is refused, if it is. */
  predicate RefusedFor(entries: seq<Entry>, e: Error, email: Option<Key>, wallet: Option<Wallet>, except: Option<Key>) {
    match e
    case IdentifierRequired => email.None? && wallet.None?
    case DuplicateEmail => EmailTaken(entries, email, except)
    case DuplicateWallet => !EmailTaken(entries, email, except) && WalletTaken(entries, wallet, except)
    case _ => false
  }

  predicate Acceptable(entries: seq<Entry>, email: Option<Key>, wallet: Option<Wallet>, except: Option<Key>) {
    (email.Some? || wallet.Some?) && !EmailTaken(entries, email, except) && !WalletTaken(entries, wallet, except)
  }

  lemma GuardAnswers(entries: seq<Entry>, email: Option<Key>, wallet: Option<Wallet>, except: Option<Key>)
    requires A.EntriesDiffer(entries)
    ensures var r := DuplicateGuard(entries, email, wallet, except);
            && (r == Some(DuplicateEmail) <==> EmailTaken(entries, email, except))
            && (r == Some(DuplicateWallet) <==>
                !EmailTaken(entries, email, except) && WalletTaken(entries, wallet, except))
            && (r.Some? ==> r.value.DuplicateEmail? || r.value.DuplicateWallet?)
  {
    var byEmail, byWallet := EntryByEmail(entries, email), EntryByWallet(entries, WalletKey(wallet));
    if byEmail.Some? {
      assert SameEmail(entries[byEmail.value].email, email);
      forall k | 0 <= k < |entries| && SameEmail(entries[k].email, email) ensures k == byEmail.value {
        assert A.SharesIdentifier(entries[k], entries[byEmail.value]);
        assert A.SharesIdentifier(entries[byEmail.value], entries[k]);
      }
    }
    if byWallet.Some? {
      assert SameWallet(entries[byWallet.value].wallet, wallet);
      forall k | 0 <= k < |entries| && SameWallet(entries[k].wallet, wallet) ensures k == byWallet.value {
        assert A.SharesIdentifier(entries[k], entries[byWallet.value]);
        assert A.SharesIdentifier(entries[byWallet.value], entries[k]);
      }
    }
  }

  /** Fewer than a hundred earlier records have the entry's email, or fewer than a hundred its wallet. */
  ghost predicate WithinScans(users: seq<User>, e: Entry, i: nat)
    requires i < |users|
  {
    || (SameEmail(users[i].email, e.email) && |set j | 0 <= j < i && SameEmail(users[j].email, e.email)| < 100)
    || (SameWallet(users[i].wallet, e.wallet) && |set j | 0 <= j < i && SameWallet(users[j].wallet, e.wallet)| < 100)
  }

  lemma {:induction false} EarlierEmails(users: seq<User>, e: Entry, i: nat)
    requires i <= |users| && e.email.Some?
    ensures A.Earlier(users, (u: User) => u.email == e.email, i) ==
            |set j | 0 <= j < i && SameEmail(users[j].email, e.email)|
  {
    if i > 0 {
      EarlierEmails(users, e, i - 1);
      var before := set j | 0 <= j < i - 1 && SameEmail(users[j].email, e.email);
      assert (set j | 0 <= j < i && SameEmail(users[j].email, e.email)) ==
             before + if SameEmail(users[i - 1].email, e.email) then {i - 1} else {};
    }
  }

  lemma {:induction false} EarlierWallets(users: seq<User>, e: Entry, i: nat)
    requires i <= |users| && e.wallet.Some?
    ensures A.Earlier(users, (u: User) => WalletKey(u.wallet) == WalletKey(e.wallet), i) ==
            |set j | 0 <= j < i && SameWallet(users[j].wallet, e.wallet)|
  {
    if i > 0 {
      EarlierWallets(users, e, i - 1);
      var before := set j | 0 <= j < i - 1 && SameWallet(users[j].wallet, e.wallet);
      assert (set j | 0 <= j < i && SameWallet(users[j].wallet, e.wallet)) ==
             before + if SameWallet(users[i - 1].wallet, e.wallet) then {i - 1} else {};
    }
  }

  lemma ReachIsRank(users: seq<User>, e: Entry, i: nat)
    requires i < |users|
    ensures A.Reached(users, e, i) <==> WithinScans(users, e, i)
  {
    if e.email.Some? {
      EarlierEmails(users, e, i);
    }
    if e.wallet.Some? {
      EarlierWallets(users, e, i);
    }
  }

  /** The records after entry `e` is written: every waiting one within the scans is admitted by it. */
  ghost predicate Admits(w: World, w': World, e: Entry, now: Time) {
    && |w'.users| == |w.users|
    && forall i :: 0 <= i < |w.users| ==>
         w'.users[i] ==
         if Waits(w.users[i]) && WithinScans(w.users, e, i) then
           w.users[i].(access := Some(Decision(Approved, ByAllowlist(e.id), now)))
         else w.users[i]
  }

  lemma WriteAdmits(w: World, e: Entry, now: Time)
    ensures Admits(w, AdmitFor(w, e, now).0, e, now)
  {
    var w' := AdmitFor(w, e, now).0;
    assert |w'.users| == |w.users|;
    forall i | 0 <= i < |w.users|
      ensures w'.users[i] ==
              if Waits(w.users[i]) && WithinScans(w.users, e, i) then
                w.users[i].(access := Some(Decision(Approved, ByAllowlist(e.id), now)))
              else w.users[i]
    {
      A.AdmissionIsExact(w, e, now, i);
      ReachIsRank(w.users, e, i);
    }
  }

  ghost predicate Counts(w: World, w': World, e: Entry, r: Outcome)
    requires |w'.users| == |w.users|
  {
    r == EntryWritten(Some(e), |set i | 0 <= i < |w.users| && w'.users[i] != w.users[i]|)
  }

  lemma WriteIsAnswered(w: World, e: Entry, now: Time)
    ensures var (w', r) := AdmitFor(w, e, now);
            Admits(w, w', e, now) && Counts(w, w', e, r) && w'.entries == w.entries && w'.next == w.next
  {
    WriteAdmits(w, e, now);
    A.ReportedCountIsExact(w, e, now);
  }

  /** An entry is created unless it names nobody or somebody already named; and it admits those who wait. */
  lemma CreateAnswers(w: World, op: Op)
    requires op.CreateEntry? && A.Inv(w)
    ensures var e := Entry(w.next, op.email, op.wallet, op.caption, op.now, op.now, op.operator);
            var r, w' := Answer(w, op), Next(w, op);
            && (r.EntryWritten? <==> Acceptable(w.entries, op.email, op.wallet, None))
            && (forall x :: r == Refusal(x) <==> RefusedFor(w.entries, x, op.email, op.wallet, None))
            && (r.EntryWritten? ==>
                  && w'.entries == w.entries + [e] && w'.next == w.next + 1
                  && Admits(w, w', e, op.now) && Counts(w, w', e, r))
            && (!r.EntryWritten? ==> w' == w)
  {
    var e := Entry(w.next, op.email, op.wallet, op.caption, op.now, op.now, op.operator);
    GuardAnswers(w.entries, op.email, op.wallet, None);
    WriteIsAnswered(w.(entries := w.entries + [e], next := w.next + 1), e, op.now);
  }

  /** The value of a field after an edit: an omitted edit keeps it. */
  function Kept<T>(stored: Option<T>, edit: Edit<T>): Option<T> {
    match edit
    case Keep => stored
    case Put(x) => x
  }

  predicate Stored(entries: seq<Entry>, k: nat, id: Key) {
    k < |entries| && entries[k].id == id
  }

  lemma MissingEntryIsReported(w: World, op: Op)
    requires op.UpdateEntry? && forall k: nat :: !Stored(w.entries, k, op.id)
    ensures Step(w, op) == (w, EntryWritten(None, 0))
  {
    var at := FindEntry(w.entries, op.id);
    assert at.Some? ==> Stored(w.entries, at.value, op.id);
  }

  /** The entry after an update: its edited fields, dated now exactly if one of them changed. */
  predicate IsEdited(e: Entry, e': Entry, op: Op)
    requires op.UpdateEntry?
  {
    && (e'.id, e'.createdAt, e'.createdBy) == (e.id, e.createdAt, e.createdBy)
    && e'.email == Kept(e.email, op.emailEdit) && e'.wallet == Kept(e.wallet, op.walletEdit)
    && e'.caption == Kept(e.caption, op.captionEdit)
    && e'.updatedAt ==
       if e'.email != e.email || e'.wallet != e.wallet || e'.caption != e.caption then op.now else e.updatedAt
  }

  lemma StoredIsFound(entries: seq<Entry>, k: nat, id: Key)
    requires A.EntriesDiffer(entries) && Stored(entries, k, id)
    ensures FindEntry(entries, id) == Some(k)
  {
  }

  lemma UpdateAnswers(w: World, op: Op, k: nat)
    requires op.UpdateEntry? && A.Inv(w) && Stored(w.entries, k, op.id)
    ensures var e, r, w' := w.entries[k], Answer(w, op), Next(w, op);
            var email, wallet := Kept(e.email, op.emailEdit), Kept(e.wallet, op.walletEdit);
            && (r.EntryWritten? <==> Acceptable(w.entries, email, wallet, Some(op.id)))
            && (forall x :: r == Refusal(x) <==> RefusedFor(w.entries, x, email, wallet, Some(op.id)))
            && (r.EntryWritten? ==>
                  && |w'.entries| == |w.entries| && IsEdited(e, w'.entries[k], op) && w'.next == w.next
                  && w'.entries == w.entries[k := w'.entries[k]] && Admits(w, w', w'.entries[k], op.now)
                  && Counts(w, w', w'.entries[k], r))
            && (!r.EntryWritten? ==> w' == w)
  {
    StoredIsFound(w.entries, k, op.id);
    var e := EditedEntry(w.entries[k], op);
    GuardAnswers(w.entries, e.email, e.wallet, Some(op.id));
    WriteIsAnswered(w.(entries := w.entries[k := e]), e, op.now);
  }

  /** Only the named entry goes; no record moves. */
  lemma RemoveAnswers(w: World, op: Op)
    requires op.RemoveEntry? && A.Inv(w)
    ensures var r, w' := Answer(w, op), Next(w, op);
            && r == EntryRemoved(exists k: nat :: Stored(w.entries, k, op.id))
            && w'.users == w.users && w'.next == w.next
            && (forall e :: e in w'.entries <==> e in w.entries && e.id != op.id)
            && |w.entries| == |w'.entries| + if r.removed then 1 else 0
  {
    var at := FindEntry(w.entries, op.id);
    if at.Some? {
      assert Stored(w.entries, at.value, op.id);
      var s := w.entries;
      assert s == s[..at.value] + [s[at.value]] + s[at.value + 1..];
    }
  }

  // ----- Operator decisions -----

  lemma NobodyToDecide(w: World, op: Op)
    requires op.Decide? && Absent(w.users, op.subject)
    ensures Step(w, op) == (w, NothingToDecide)
  {
    AbsentIsNotFound(w.users, op.subject);
  }

  /** The decision a record reads as. */
  function Reads(u: User): Decision {
    match u.access
    case Some(d) => d
    case None => Decision(AwaitingReview, ByDefault, u.firstSeenAt)
  }

  /** What a decision and a standing come to. */
  function Comes(s: State, suspended: bool): Effective {
    match s
    case Approved => if suspended then Suspended else Admitted
    case AwaitingReview => Barred(AwaitingReview)
    case Declined => Barred(Declined)
  }

  /** A decision moves unless the state already holds; then it keeps its provenance. */
  lemma DecideAnswers(w: World, op: Op, i: nat)
    requires op.Decide? && Only(w.users, i, op.subject)
    ensures var u, r := w.users[i], Answer(w, op);
            var d := if Reads(u).state == op.target then Reads(u)
                     else Decision(op.target, ByOperator(op.operator), op.now);
            && r == Decided(Reads(u).state != op.target, Reads(u), d, Comes(op.target, u.suspended))
            && Next(w, op) == if r.changed then w.(users := w.users[i := u.(access := Some(d))]) else w
  {
    OnlyIsFound(w.users, i, op.subject);
  }

  // ----- Claims -----

  function LeaseOf(op: Op): int
    requires op.Claim?
  {
    match op.lease
    case Some(l) => l
    case None => 300_000
  }

  predicate ClaimInRange(op: Op)
    requires op.Claim?
  {
    1 <= op.limit <= 20 && 1_000 <= LeaseOf(op) <= 900_000
  }

  predicate Waiting(u: User, now: Time) {
    match u.welcome
    case Some(Due(_)) => true
    case Some(Claimed(_, _, expiresAt)) => expiresAt <= now
    case _ => false
  }

  lemma PassTakesTheWaiting(users: seq<User>, limit: nat, now: Time, lease: int, i: nat)
    requires i < |users|
    ensures var v := ClaimedUsers(users, Chosen(users, limit, now), now, lease)[i];
            v == users[i]
            || (Waiting(users[i], now)
                && v == users[i].(welcome := Some(Claimed(users[i].welcome.value.dueAt, now, now + lease))))
  {
    ChosenAreClaimable(users, limit, now);
  }

  /** A pass takes due and lapsed markers only, under a fresh lease; every other record stays as it is. */
  lemma ClaimAnswers(w: World, op: Op)
    requires op.Claim?
    ensures var r, w' := Answer(w, op), Next(w, op);
            && (r.ClaimsTaken? <==> ClaimInRange(op))
            && (!r.ClaimsTaken? ==> r == Refusal(ClaimInvalid) && w' == w)
            && w'.entries == w.entries && w'.next == w.next && |w'.users| == |w.users|
            && (forall i :: 0 <= i < |w.users| && w'.users[i] != w.users[i] ==>
                  && Waiting(w.users[i], op.now)
                  && w'.users[i] ==
                     w.users[i].(welcome :=
                       Some(Claimed(w.users[i].welcome.value.dueAt, op.now, op.now + LeaseOf(op)))))
  {
    if ClaimInRange(op) {
      var users := ClaimedUsers(w.users, Chosen(w.users, op.limit, op.now), op.now, LeaseOf(op));
      assert Next(w, op) == w.(users := users);
      forall i | 0 <= i < |w.users|
        ensures users[i] == w.users[i]
                || (Waiting(w.users[i], op.now)
                    && users[i] ==
                       w.users[i].(welcome :=
                         Some(Claimed(w.users[i].welcome.value.dueAt, op.now, op.now + LeaseOf(op)))))
      {
        PassTakesTheWaiting(w.users, op.limit, op.now, LeaseOf(op), i);
      }
    }
  }

  /** The order in which a pass serves: due records in creation order, then lapsed claims by expiry. */
  predicate ServedBefore(users: seq<User>, i: nat, j: nat) {
    && i < |users| && j < |users| && users[i].welcome.Some? && users[j].welcome.Some?
    && match (users[i].welcome.value, users[j].welcome.value)
       case (Due(_), Due(_)) => i < j
       case (Due(_), Claimed(_, _, _)) => true
       case (Claimed(_, _, s), Claimed(_, _, t)) => s <= t && i != j
       case _ => false
  }

  lemma {:induction false} DistinctCounts(s: seq<nat>)
    requires A.Distinct(s)
    ensures forall i :: multiset(s)[i] <= 1
  {
    if s != [] {
      var init, last := s[..|s| - 1], s[|s| - 1];
      assert s == init + [last];
      DistinctCounts(init);
      assert last !in init;
    }
  }

  lemma CountsDistinct(s: seq<nat>, x: nat, y: nat)
    requires x < y < |s| && multiset(s)[s[y]] <= 1
    ensures s[x] != s[y]
  {
    assert s == s[..y] + [s[y]] + s[y + 1..];
    assert s[x] in s[..y];
  }

  lemma LapsedAreDistinct(users: seq<User>, now: Time, x: nat, y: nat)
    requires x < y < |LapsedUsers(users, now)|
    ensures LapsedUsers(users, now)[x] != LapsedUsers(users, now)[y]
  {
    var lapsed := Positions(users, (u: User) => Lapsed(u, now), |users|);
    PositionsAscend(users, (u: User) => Lapsed(u, now), |users|);
    DistinctCounts(lapsed);
    ExpiryOrderKeepsContents(users, lapsed);
    CountsDistinct(ByExpiry(users, lapsed), x, y);
  }

  lemma PassIsOrdered(users: seq<User>, limit: nat, now: Time, x: nat, y: nat)
    requires x < y < |Chosen(users, limit, now)|
    ensures ServedBefore(users, Chosen(users, limit, now)[x], Chosen(users, limit, now)[y])
  {
    var due, lapsed, chosen := Take(limit, DueUsers(users)), LapsedUsers(users, now), Chosen(users, limit, now);
    if y < |due| {
      PositionsAscend(users, IsDue, |users|);
      DueMember(users, chosen[x]);
      DueMember(users, chosen[y]);
    } else if x < |due| {
      DueMember(users, chosen[x]);
      LapsedMember(users, now, lapsed[y - |due|]);
    } else {
      LapsedMember(users, now, lapsed[x - |due|]);
      LapsedMember(users, now, lapsed[y - |due|]);
      A.LapsedAscend(users, now, x - |due|, y - |due|);
      LapsedAreDistinct(users, now, x - |due|, y - |due|);
    }
  }

  /** The reported claims name the records taken, once each, in the order of service. */
  predicate Reports(users: seq<User>, taken: seq<nat>, claims: seq<(Key, Option<Key>)>) {
    && |claims| == |taken|
    && (forall k :: 0 <= k < |taken| ==>
          taken[k] < |users| && claims[k] == (users[taken[k]].subject, users[taken[k]].email))
    && (forall x, y :: 0 <= x < y < |taken| ==> ServedBefore(users, taken[x], taken[y]))
  }

  lemma TakenAreReclaimed(users: seq<User>, chosen: seq<nat>, now: Time, lease: int, i: nat)
    requires i < |users| && lease > 0 && (i in chosen ==> Waiting(users[i], now))
    ensures i in chosen <==> ClaimedUsers(users, chosen, now, lease)[i] != users[i]
  {
  }

  /** What a pass reports is exactly what it takes: no more than the limit, every changed record, no other. */
  lemma ClaimsAreReported(w: World, op: Op) returns (taken: seq<nat>)
    requires op.Claim? && Answer(w, op).ClaimsTaken?
    ensures |taken| <= op.limit && Reports(w.users, taken, Answer(w, op).claims)
    ensures forall i: nat :: i < |w.users| ==> (i in taken <==> Next(w, op).users[i] != w.users[i])
  {
    taken := Chosen(w.users, op.limit, op.now);
    ChosenAreClaimable(w.users, op.limit, op.now);
    forall x, y | 0 <= x < y < |taken| ensures ServedBefore(w.users, taken[x], taken[y]) {
      PassIsOrdered(w.users, op.limit, op.now, x, y);
    }
    forall i: nat | i < |w.users| ensures i in taken <==> Next(w, op).users[i] != w.users[i] {
      TakenAreReclaimed(w.users, taken, op.now, LeaseOf(op), i);
    }
  }

  // ----- Settlements -----

  /** Nobody, or nobody who was ever armed. */
  lemma NothingIsSettled(w: World, op: Op)
    requires op.Settle? && (Absent(w.users, op.subject) || exists i: nat :: Unmarked(w.users, i, op.subject))
    ensures Step(w, op) == (w, NothingToSettle)
  {
    if Absent(w.users, op.subject) {
      AbsentIsNotFound(w.users, op.subject);
    } else {
      var i: nat :| Unmarked(w.users, i, op.subject);
      OnlyIsFound(w.users, i, op.subject);
    }
  }

  predicate Unmarked(users: seq<User>, i: nat, subject: Key) {
    Only(users, i, subject) && users[i].welcome.None?
  }

  /** An open marker is closed as the request says; a closed one is reported as it stands. */
  lemma SettleAnswers(w: World, op: Op, i: nat)
    requires op.Settle? && Only(w.users, i, op.subject) && w.users[i].welcome.Some?
    ensures var u, r := w.users[i], Answer(w, op);
            match u.welcome.value
            case Sent(_, _) => Step(w, op) == (w, AlreadySettled(u.welcome.value))
            case NotApplicable(_, _) => Step(w, op) == (w, AlreadySettled(u.welcome.value))
            case _ =>
              && r.Settled?
              && (op.sent ==> r.marker == Sent(u.welcome.value.dueAt, op.now))
              && (!op.sent ==> r.marker == NotApplicable(NoVerifiedEmail, op.now))
              && Next(w, op) == w.(users := w.users[i := u.(welcome := Some(r.marker))])
  {
    OnlyIsFound(w.users, i, op.subject);
  }

  /** The standing of the subject's record, and nothing else, follows the edit. */
  lemma StandingAnswers(w: World, op: Op, i: nat)
    requires op.SetStanding? && Only(w.users, i, op.subject)
    ensures Step(w, op) == (w.(users := w.users[i := w.users[i].(suspended := op.suspended)]), StandingSet)
  {
    OnlyIsFound(w.users, i, op.subject);
  }

  // ----- Where a stored welcome comes from -----

  /** The step settles record `i` as sent, under an open marker armed at the marker's own time. */
  predicate SettlesAsSent(v: World, op: Op, i: nat, m: Marker) {
    && i < |v.users| && m.Sent? && op == Settle(v.users[i].subject, true, m.sentAt)
    && v.users[i].welcome.Some? && (v.users[i].welcome.value.Due? || v.users[i].welcome.value.Claimed?)
    && v.users[i].welcome.value.dueAt == m.dueAt
  }

  lemma SentIsOldOrSettled(v: World, op: Op, i: nat, m: Marker)
    requires i < |Next(v, op).users| && Next(v, op).users[i].welcome == Some(m) && m.Sent?
    ensures SettlesAsSent(v, op, i, m) || (i < |v.users| && v.users[i].welcome == Some(m))
  {
    P.OneNewRecord(v, op);
    if i < |v.users| {
      P.MarkerMoves(v, op, i);
    }
  }

  predicate MarkedAs(v: World, i: nat, m: Marker) {
    i < |v.users| && v.users[i].welcome == Some(m)
  }

  /** In every run from an empty directory a welcome reads as sent only because a settlement said so, then. */
  lemma SentHasASettlement(w: World, ops: seq<Op>, n: nat, i: nat, m: Marker) returns (k: nat)
    requires w.users == [] && n <= |ops| && MarkedAs(After(w, ops, n), i, m) && m.Sent?
    ensures k < n && SettlesAsSent(After(w, ops, k), ops[k], i, m)
  {
    forall v, op | MarkedAs(Next(v, op), i, m) && !MarkedAs(v, i, m) ensures SettlesAsSent(v, op, i, m) {
      SentIsOldOrSettled(v, op, i, m);
    }
    k := GivenOnTheWay(Next, w, ops, n, v => MarkedAs(v, i, m), (v, op) => SettlesAsSent(v, op, i, m));
  }

  /** The contact arms record `i`: approved, in good standing and with an address. */
  predicate Arms(v: World, op: Op, i: nat, dueAt: Time) {
    && op.Establish? && op.now == dueAt && i < |Next(v, op).users|
    && var u := Next(v, op).users[i];
       && u.subject == op.identity.subject && u.welcome == Some(Due(dueAt)) && u.email.Some? && !u.suspended
       && u.access.Some? && u.access.value.state == Approved
  }

  predicate ArmedAt(v: World, i: nat, dueAt: Time) {
    && i < |v.users| && v.users[i].welcome.Some?
    && match v.users[i].welcome.value
       case Due(t) => t == dueAt
       case Claimed(t, _, _) => t == dueAt
       case Sent(t, _) => t == dueAt
       case NotApplicable(_, _) => false
  }

  lemma ArmedIsOldOrArms(v: World, op: Op, i: nat, dueAt: Time)
    requires ArmedAt(Next(v, op), i, dueAt)
    ensures Arms(v, op, i, dueAt) || ArmedAt(v, i, dueAt)
  {
    P.OneNewRecord(v, op);
    if i < |v.users| {
      P.MarkerMoves(v, op, i);
    }
  }

  /** Every welcome that is due, claimed or sent was armed by an admitted contact at the time it keeps. */
  lemma WelcomeWasArmed(w: World, ops: seq<Op>, n: nat, i: nat, dueAt: Time) returns (k: nat)
    requires w.users == [] && n <= |ops| && ArmedAt(After(w, ops, n), i, dueAt)
    ensures k < n && Arms(After(w, ops, k), ops[k], i, dueAt)
  {
    forall v, op | ArmedAt(Next(v, op), i, dueAt) && !ArmedAt(v, i, dueAt) ensures Arms(v, op, i, dueAt) {
      ArmedIsOldOrArms(v, op, i, dueAt);
    }
    k := GivenOnTheWay(Next, w, ops, n, v => ArmedAt(v, i, dueAt), (v, op) => Arms(v, op, i, dueAt));
  }
}
