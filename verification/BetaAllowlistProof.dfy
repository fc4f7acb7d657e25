/**
 * The allowlist's uniqueness over every run, what one entry write reaches, and what one claim pass takes.
 */
module BetaAllowlistProof {
  import opened Prelude
  import opened Lists
  import opened Runs
  import opened BetaAccess
  import P = BetaAccessProof

  // ----- No two entries share an identifier -----

  ghost predicate SubjectsDiffer(users: seq<User>) {
    forall i, j :: 0 <= i < j < |users| ==> users[i].subject != users[j].subject
  }

  predicate SharesIdentifier(a: Entry, b: Entry) {
    (a.email.Some? && a.email == b.email) || (a.wallet.Some? && WalletKey(a.wallet) == WalletKey(b.wallet))
  }

  ghost predicate EntriesDiffer(entries: seq<Entry>) {
    forall i, j ::
      0 <= i < j < |entries| ==> entries[i].id != entries[j].id && !SharesIdentifier(entries[i], entries[j])
  }

  ghost predicate EntriesIdentified(entries: seq<Entry>, next: Key) {
    forall i :: 0 <= i < |entries| ==> entries[i].id < next && (entries[i].email.Some? || entries[i].wallet.Some?)
  }

  ghost predicate Inv(w: World) {
    SubjectsDiffer(w.users) && EntriesDiffer(w.entries) && EntriesIdentified(w.entries, w.next)
  }

  lemma GuardExcludesSharers(entries: seq<Entry>, e: Entry, excluding: Option<Key>, j: nat)
    requires EntriesDiffer(entries) && j < |entries| && Some(entries[j].id) != excluding
    requires excluding.Some? ==> exists k :: 0 <= k < |entries| && entries[k].id == excluding.value
    requires DuplicateGuard(entries, e.email, e.wallet, excluding).None?
    ensures !SharesIdentifier(e, entries[j]) && !SharesIdentifier(entries[j], e)
  {
  }

  lemma CreateKeepsEntries(w: World, op: Op)
    requires op.CreateEntry? && Inv(w)
    ensures EntriesDiffer(CreateStep(w, op).0.entries)
            && EntriesIdentified(CreateStep(w, op).0.entries, CreateStep(w, op).0.next)
  {
    var w' := CreateStep(w, op).0;
    if w' != w {
      var e := w'.entries[|w.entries|];
      forall i, j | 0 <= i < j < |w'.entries|
        ensures w'.entries[i].id != w'.entries[j].id && !SharesIdentifier(w'.entries[i], w'.entries[j])
      {
        if j == |w.entries| {
          GuardExcludesSharers(w.entries, e, None, i);
        }
      }
    }
  }

  lemma UpdateKeepsEntries(w: World, op: Op)
    requires op.UpdateEntry? && Inv(w)
    ensures EntriesDiffer(UpdateStep(w, op).0.entries)
            && EntriesIdentified(UpdateStep(w, op).0.entries, UpdateStep(w, op).0.next)
  {
    var w', at := UpdateStep(w, op).0, FindEntry(w.entries, op.id);
    if w' != w {
      var k := at.value;
      var e := EditedEntry(w.entries[k], op);
      assert w'.entries == w.entries[k := e];
      forall i, j | 0 <= i < j < |w'.entries|
        ensures w'.entries[i].id != w'.entries[j].id && !SharesIdentifier(w'.entries[i], w'.entries[j])
      {
        if i == k {
          GuardExcludesSharers(w.entries, e, Some(op.id), j);
        } else if j == k {
          GuardExcludesSharers(w.entries, e, Some(op.id), i);
        }
      }
    }
  }

  lemma RemoveKeepsEntries(w: World, id: Key)
    requires Inv(w)
    ensures EntriesDiffer(RemoveStep(w, id).0.entries) && EntriesIdentified(RemoveStep(w, id).0.entries, w.next)
  {
    var at := FindEntry(w.entries, id);
    if at.Some? {
      var kept := RemoveStep(w, id).0.entries;
      forall i, j | 0 <= i < j < |kept| ensures kept[i].id != kept[j].id && !SharesIdentifier(kept[i], kept[j]) {
        var x, y := if i < at.value then i else i + 1, if j < at.value then j else j + 1;
        assert kept[i] == w.entries[x] && kept[j] == w.entries[y];
      }
    }
  }

  lemma StepKeepsEntries(w: World, op: Op)
    requires Inv(w)
    ensures EntriesDiffer(Next(w, op).entries) && EntriesIdentified(Next(w, op).entries, Next(w, op).next)
  {
    match op {
      case CreateEntry(_, _, _, _, _) => CreateKeepsEntries(w, op);
      case UpdateEntry(_, _, _, _, _) => UpdateKeepsEntries(w, op);
      case RemoveEntry(id) => RemoveKeepsEntries(w, id);
      case _ =>
    }
  }

  lemma NewSubjectIsNew(w: World, op: Op)
    requires |w.users| < |Next(w, op).users|
    ensures forall i :: 0 <= i < |w.users| ==> w.users[i].subject != Next(w, op).users[|w.users|].subject
  {
  }

  lemma StepKeepsSubjects(w: World, op: Op)
    requires SubjectsDiffer(w.users)
    ensures SubjectsDiffer(Next(w, op).users)
  {
    var users := Next(w, op).users;
    P.OneNewRecord(w, op);
    forall i, j | 0 <= i < j < |users| ensures users[i].subject != users[j].subject {
      P.StepKeepsPlace(w, op, i, w.users[i].subject);
      if j < |w.users| {
        P.StepKeepsPlace(w, op, j, w.users[j].subject);
      } else {
        NewSubjectIsNew(w, op);
      }
    }
  }

  lemma StepKeepsInv(w: World, op: Op)
    requires Inv(w)
    ensures Inv(Next(w, op))
  {
    StepKeepsEntries(w, op);
    StepKeepsSubjects(w, op);
  }

  /** Over every interleaving no two entries share an email or a wallet key, and no subject has two records. */
  lemma RunKeepsInv(w: World, ops: seq<Op>, n: nat)
    requires n <= |ops| && Inv(w)
    ensures Inv(After(w, ops, n))
  {
    forall v, op | Inv(v) ensures Inv(Next(v, op)) {
      StepKeepsInv(v, op);
    }
    KeptAlong(Next, w, ops, 0, n, op => true, Inv);
  }

  /** The refusal of two records for one subject never fires. */
  lemma NoStateConflict(w: World, op: Op)
    requires Inv(w)
    ensures Step(w, op).1 != Refusal(StateConflict)
  {
  }

  // ----- What an entry write reaches -----

  /** How many earlier records satisfy `p`. */
  function Earlier(users: seq<User>, p: User -> bool, i: nat): nat
    requires i <= |users|
  {
    |Positions(users, p, i)|
  }

  lemma {:induction false} PositionsPrefix(users: seq<User>, p: User -> bool, i: nat, n: nat)
    requires i <= n <= |users|
    ensures |Positions(users, p, i)| <= |Positions(users, p, n)|
    ensures Positions(users, p, n)[..|Positions(users, p, i)|] == Positions(users, p, i)
  {
    if i < n {
      PositionsPrefix(users, p, i, n - 1);
    }
  }

  /** A record is among the first `limit` matches exactly if fewer than `limit` earlier records match. */
  lemma TakenByRank(users: seq<User>, p: User -> bool, limit: nat, i: nat)
    requires i < |users| && p(users[i])
    ensures i in Take(limit, Positions(users, p, |users|)) <==> Earlier(users, p, i) < limit
  {
    var all, rank := Positions(users, p, |users|), Earlier(users, p, i);
    PositionsPrefix(users, p, i + 1, |users|);
    PositionsPrefix(users, p, i, i + 1);
    assert Positions(users, p, i + 1)[rank] == i;
    assert all[rank] == i;
    if rank < limit {
      assert Take(limit, all)[rank] == i;
    } else {
      PositionsAscend(users, p, |users|);
      forall x | 0 <= x < |Take(limit, all)| ensures Take(limit, all)[x] != i {
        assert all[x] < all[rank];
      }
    }
  }

  predicate EmailIs(u: User, email: Option<Key>) {
    email.Some? && u.email == email
  }

  predicate WalletIs(u: User, wallet: Option<Wallet>) {
    wallet.Some? && WalletKey(u.wallet) == WalletKey(wallet)
  }

  /** The scan reaches a matching record exactly if fewer than a hundred earlier ones match by the same identifier. */
  predicate Reached(users: seq<User>, e: Entry, i: nat)
    requires i < |users|
  {
    || (EmailIs(users[i], e.email) && Earlier(users, (u: User) => u.email == e.email, i) < ADMISSION_SCAN_LIMIT)
    || (WalletIs(users[i], e.wallet)
        && Earlier(users, (u: User) => WalletKey(u.wallet) == WalletKey(e.wallet), i) < ADMISSION_SCAN_LIMIT)
  }

  lemma ReachedByEmail(users: seq<User>, e: Entry, i: nat)
    requires i < |users|
    ensures i in UsersByEmail(users, e.email) <==>
            EmailIs(users[i], e.email) && Earlier(users, (u: User) => u.email == e.email, i) < ADMISSION_SCAN_LIMIT
  {
    var p := (u: User) => u.email == e.email;
    if e.email.Some? {
      PositionsMember(users, p, |users|, i);
      if p(users[i]) {
        TakenByRank(users, p, ADMISSION_SCAN_LIMIT, i);
      }
    }
  }

  lemma ReachedByWallet(users: seq<User>, e: Entry, i: nat)
    requires i < |users|
    ensures i in UsersByWallet(users, e.wallet) <==>
            WalletIs(users[i], e.wallet)
            && Earlier(users, (u: User) => WalletKey(u.wallet) == WalletKey(e.wallet), i) < ADMISSION_SCAN_LIMIT
  {
    var p := (u: User) => WalletKey(u.wallet) == WalletKey(e.wallet);
    if e.wallet.Some? {
      PositionsMember(users, p, |users|, i);
      if p(users[i]) {
        TakenByRank(users, p, ADMISSION_SCAN_LIMIT, i);
      }
    }
  }

  lemma CandidatesAreReached(users: seq<User>, e: Entry, i: nat)
    requires i < |users|
    ensures i in Candidates(users, e.email, e.wallet) <==> Reached(users, e, i)
  {
    var byEmail := UsersByEmail(users, e.email);
    FilterMembers(UsersByWallet(users, e.wallet), Outside(byEmail));
    ReachedByEmail(users, e, i);
    ReachedByWallet(users, e, i);
  }

  /** An entry write admits exactly the waiting records its scan reaches, and touches no other record. */
  lemma AdmissionIsExact(w: World, e: Entry, now: Time, i: nat)
    requires i < |w.users|
    ensures AdmitFor(w, e, now).0.users[i]
         == if Awaiting(w.users[i]) && Reached(w.users, e, i) then w.users[i].(access := Some(Admission(e.id, now)))
            else w.users[i]
  {
    CandidatesAreReached(w.users, e, i);
  }

  // ----- The reported count -----

  predicate Distinct(s: seq<nat>) {
    forall x, y :: 0 <= x < y < |s| ==> s[x] != s[y]
  }

  lemma ScansAreDistinct(users: seq<User>, e: Entry)
    ensures Distinct(UsersByEmail(users, e.email)) && Distinct(UsersByWallet(users, e.wallet))
  {
    PositionsAscend(users, (u: User) => u.email == e.email, |users|);
    PositionsAscend(users, (u: User) => WalletKey(u.wallet) == WalletKey(e.wallet), |users|);
  }

  lemma {:induction false} FilterDistinct(s: seq<nat>, p: nat -> bool)
    requires Distinct(s)
    ensures Distinct(Filter(s, p))
  {
    if s != [] {
      var init := s[..|s| - 1];
      FilterDistinct(init, p);
      FilterMembers(init, p);
      assert s[|s| - 1] !in init;
      assert s[|s| - 1] !in Filter(init, p);
    }
  }

  lemma DistinctJoin(a: seq<nat>, b: seq<nat>)
    requires Distinct(a) && Distinct(b) && forall i :: i in b ==> i !in a
    ensures Distinct(a + b)
  {
    forall x, y | 0 <= x < y < |a + b| ensures (a + b)[x] != (a + b)[y] {
      if x < |a| <= y {
        assert b[y - |a|] in b;
        assert a[x] in a;
      }
    }
  }

  lemma CandidatesAreDistinct(users: seq<User>, e: Entry)
    ensures Distinct(Candidates(users, e.email, e.wallet))
  {
    var byEmail, byWallet := UsersByEmail(users, e.email), UsersByWallet(users, e.wallet);
    var rest := Filter(byWallet, Outside(byEmail));
    ScansAreDistinct(users, e);
    FilterDistinct(byWallet, Outside(byEmail));
    FilterMembers(byWallet, Outside(byEmail));
    DistinctJoin(byEmail, rest);
  }

  ghost function Changed(users: seq<User>, candidates: seq<nat>): set<nat> {
    set i | i in candidates && 0 <= i < |users| && Awaiting(users[i])
  }

  lemma ChangedGrows(users: seq<User>, init: seq<nat>, last: nat)
    requires last < |users| && last !in init
    ensures last !in Changed(users, init)
    ensures Changed(users, init + [last]) == Changed(users, init) + if Awaiting(users[last]) then {last} else {}
  {
  }

  lemma ChangedStep(users: seq<User>, candidates: seq<nat>, n: nat)
    requires Distinct(candidates) && 0 < n <= |candidates| && candidates[n - 1] < |users|
    ensures |Changed(users, candidates[..n])|
         == |Changed(users, candidates[..n - 1])| + if Awaiting(users[candidates[n - 1]]) then 1 else 0
  {
    assert candidates[..n] == candidates[..n - 1] + [candidates[n - 1]];
    ChangedGrows(users, candidates[..n - 1], candidates[n - 1]);
  }

  lemma {:induction false} CountIsCardinality(users: seq<User>, candidates: seq<nat>, n: nat)
    requires Distinct(candidates) && n <= |candidates| && forall k :: 0 <= k < |candidates| ==> candidates[k] < |users|
    ensures AdmittedCount(users, candidates[..n]) == |Changed(users, candidates[..n])|
  {
    if n == 0 {
      assert Changed(users, candidates[..0]) == {};
    } else {
      CountIsCardinality(users, candidates, n - 1);
      OneMoreAdmitted(users, candidates, n - 1, Admission(0, 0));
      ChangedStep(users, candidates, n);
    }
  }

  /** The count an entry write reports is the number of records it changed. */
  lemma ReportedCountIsExact(w: World, e: Entry, now: Time)
    ensures AdmitFor(w, e, now).1
         == EntryWritten(Some(e), |set i | 0 <= i < |w.users| && AdmitFor(w, e, now).0.users[i] != w.users[i]|)
  {
    var candidates, after := Candidates(w.users, e.email, e.wallet), AdmitFor(w, e, now).0.users;
    CandidatesAreDistinct(w.users, e);
    CandidatesExist(w.users, e.email, e.wallet);
    CountIsCardinality(w.users, candidates, |candidates|);
    assert candidates[..|candidates|] == candidates;
    assert Changed(w.users, candidates) == set i | 0 <= i < |w.users| && after[i] != w.users[i];
  }

  lemma {:induction false} EarlierSame(a: seq<User>, b: seq<User>, p: User -> bool, n: nat)
    requires |a| == |b| && n <= |a| && forall i :: 0 <= i < |a| ==> p(a[i]) == p(b[i])
    ensures Positions(a, p, n) == Positions(b, p, n)
  {
    if n > 0 {
      EarlierSame(a, b, p, n - 1);
    }
  }

  lemma AdmissionKeepsReach(users: seq<User>, candidates: seq<nat>, d: Decision, e: Entry, i: nat)
    requires i < |users|
    ensures Reached(AdmittedUsers(users, candidates, d), e, i) == Reached(users, e, i)
  {
    var after := AdmittedUsers(users, candidates, d);
    EarlierSame(users, after, (u: User) => u.email == e.email, i);
    EarlierSame(users, after, (u: User) => WalletKey(u.wallet) == WalletKey(e.wallet), i);
  }

  // ----- Repeating an entry write -----

  const START: World := World([], [], 0)

  /** The entry is stored, no other shares an identifier with it, and its scans reach nobody who waits. */
  ghost predicate Spent(w: World, e: Entry) {
    && FindEntry(w.entries, e.id).Some? && w.entries[FindEntry(w.entries, e.id).value] == e
    && (e.email.Some? || e.wallet.Some?) && DuplicateGuard(w.entries, e.email, e.wallet, Some(e.id)).None?
    && forall i :: 0 <= i < |w.users| && Awaiting(w.users[i]) ==> !Reached(w.users, e, i)
  }

  /** A create or an update that is accepted and leaves entry `e` behind. */
  predicate Writes(w: World, op: Op, e: Entry) {
    (op.CreateEntry? || op.UpdateEntry?) && Step(w, op).1.EntryWritten? && Step(w, op).1.entry == Some(e)
  }

  /** An update that leaves every column as it is: the retry that is meant to go on admitting. */
  predicate Repeats(op: Op, e: Entry) {
    && op.UpdateEntry? && op.id == e.id && (op.emailEdit.Keep? || op.emailEdit.value == e.email)
    && (op.walletEdit.Keep? || op.walletEdit.value == e.wallet)
    && (op.captionEdit.Keep? || op.captionEdit.value == e.caption)
  }

  lemma RepetitionAdmitsNobody(w: World, op: Op, e: Entry)
    requires Spent(w, e) && Repeats(op, e)
    ensures Step(w, op) == (w, EntryWritten(Some(e), 0))
  {
    var at := FindEntry(w.entries, e.id).value;
    assert w.entries[at := e] == w.entries;
    forall i | 0 <= i < |w.users| ensures AdmitFor(w, e, op.now).0.users[i] == w.users[i] {
      AdmissionIsExact(w, e, op.now, i);
    }
    assert AdmitFor(w, e, op.now).0.users == w.users;
    ReportedCountIsExact(w, e, op.now);
    assert (set i | 0 <= i < |w.users| && AdmitFor(w, e, op.now).0.users[i] != w.users[i]) == {};
  }

  /** What an accepted write leaves of the records. */
  lemma WriteAdmits(w: World, op: Op, e: Entry, i: nat)
    requires Writes(w, op, e) && i < |w.users|
    ensures |Next(w, op).users| == |w.users|
    ensures Next(w, op).users[i]
         == if Awaiting(w.users[i]) && Reached(w.users, e, i) then w.users[i].(access := Some(Admission(e.id, op.now)))
            else w.users[i]
    ensures Reached(Next(w, op).users, e, i) == Reached(w.users, e, i)
  {
    var written := w.(entries := Next(w, op).entries, next := Next(w, op).next);
    assert Next(w, op) == AdmitFor(written, e, op.now).0;
    AdmissionIsExact(written, e, op.now, i);
    AdmissionKeepsReach(w.users, Candidates(w.users, e.email, e.wallet), Admission(e.id, op.now), e, i);
  }

  lemma WriteStores(w: World, op: Op, e: Entry)
    requires Writes(w, op, e)
    ensures e in Next(w, op).entries && (e.email.Some? || e.wallet.Some?)
  {
    if op.UpdateEntry? {
      var at := FindEntry(w.entries, op.id).value;
      assert Next(w, op).entries[at] == e;
    } else {
      assert Next(w, op).entries[|w.entries|] == e;
    }
  }

  /** A stored entry is found by its id, and the duplicate check passes it. */
  lemma StoredEntryPasses(entries: seq<Entry>, e: Entry)
    requires EntriesDiffer(entries) && e in entries
    ensures FindEntry(entries, e.id).Some? && entries[FindEntry(entries, e.id).value] == e
    ensures DuplicateGuard(entries, e.email, e.wallet, Some(e.id)).None?
  {
    var k :| 0 <= k < |entries| && entries[k] == e;
  }

  lemma WriteSpends(w: World, op: Op, e: Entry)
    requires Inv(w) && Writes(w, op, e)
    ensures Spent(Next(w, op), e)
  {
    StepKeepsInv(w, op);
    WriteStores(w, op, e);
    StoredEntryPasses(Next(w, op).entries, e);
    forall i | 0 <= i < |Next(w, op).users| && Awaiting(Next(w, op).users[i])
      ensures !Reached(Next(w, op).users, e, i)
    {
      assert |Next(w, op).users| == |w.users|;
      WriteAdmits(w, op, e, i);
    }
  }

  lemma OneMore(w: World, ops: seq<Op>, n: nat)
    requires n < |ops|
    ensures After(w, ops, n + 1) == Next(After(w, ops, n), ops[n])
  {
  }

  function Repeating(e: Entry): Op -> bool {
    op => Repeats(op, e)
  }

  ghost function Resting(e: Entry): World -> bool {
    w => Spent(w, e)
  }

  /** The first operation writes the entry, and from then on until `n` it is only repeated. */
  ghost predicate WritesAndRepeats(w: World, ops: seq<Op>, n: nat, e: Entry) {
    0 < n <= |ops| && Writes(w, ops[0], e) && Only(ops, 1, n, Repeating(e))
  }

  lemma WrittenRests(w: World, ops: seq<Op>, e: Entry)
    requires Inv(w) && 0 < |ops| && Writes(w, ops[0], e)
    ensures Resting(e)(After(w, ops, 1))
  {
    OneMore(w, ops, 0);
    WriteSpends(w, ops[0], e);
  }

  lemma RepetitionsStay(w: World, ops: seq<Op>, m: nat, n: nat, e: Entry)
    requires m <= n <= |ops| && Resting(e)(After(w, ops, m)) && Only(ops, m, n, Repeating(e))
    ensures After(w, ops, n) == After(w, ops, m)
  {
    forall v, op | Resting(e)(v) && Repeating(e)(op) ensures Next(v, op) == v {
      RepetitionAdmitsNobody(v, op, e);
    }
    StaysPut(Next, w, ops, m, n, Resting(e), Repeating(e));
  }

  /**
   * However often an update is repeated, nobody else is admitted and nothing changes: the scans take the
   * first hundred matches whatever their decision, so a repetition never gets past them.
   */
  lemma RerunAdmitsNobody(w: World, ops: seq<Op>, n: nat, e: Entry)
    requires Inv(w) && WritesAndRepeats(w, ops, n, e)
    ensures After(w, ops, n) == Next(w, ops[0])
  {
    WrittenRests(w, ops, e);
    RepetitionsStay(w, ops, 1, n, e);
    OneMore(w, ops, 0);
  }

  predicate Matches(u: User, e: Entry) {
    EmailIs(u, e.email) || WalletIs(u, e.wallet)
  }

  /**
   * A write and any number of repetitions leave no matching record waiting exactly if the write's scans
   * reach every matching record that waits.
   */
  lemma AdmissionIsCompleteIff(w: World, ops: seq<Op>, n: nat, e: Entry)
    requires Inv(w) && WritesAndRepeats(w, ops, n, e)
    ensures var users := After(w, ops, n).users;
            (forall i :: 0 <= i < |users| && Matches(users[i], e) ==> !Awaiting(users[i])) <==>
            (forall i ::
               0 <= i < |w.users| && Matches(w.users[i], e) && Awaiting(w.users[i]) ==> Reached(w.users, e, i))
  {
    RerunAdmitsNobody(w, ops, n, e);
    WriteKeepsSize(w, ops[0], e);
    var after := Next(w, ops[0]).users;
    forall i | 0 <= i < |w.users|
      ensures Matches(after[i], e) == Matches(w.users[i], e)
      ensures Awaiting(after[i]) <==> Awaiting(w.users[i]) && !Reached(w.users, e, i)
    {
      WriteAdmits(w, ops[0], e, i);
    }
  }

  lemma WriteKeepsSize(w: World, op: Op, e: Entry)
    requires Writes(w, op, e)
    ensures |Next(w, op).users| == |w.users|
  {
  }

  // ----- A run that leaves a match waiting -----

  function SignedIn(a: Identity, at: Time): User {
    User(a.subject, a.authMethod, a.email, a.wallet, at, at, false, Some(Decision(AwaitingReview, ByDefault, at)), None)
  }

  lemma FirstContact(w: World, a: Identity, now: Time)
    requires w.entries == [] && forall i :: 0 <= i < |w.users| ==> w.users[i].subject != a.subject
    ensures Next(w, Establish(a, now)) == w.(users := w.users + [SignedIn(a, now)])
  {
  }

  function Sharer(k: nat): Identity {
    Identity(k, 0, Some(7), None)
  }

  lemma {:induction false} EverybodyMatches(users: seq<User>, p: User -> bool, n: nat)
    requires n <= |users| && forall i :: 0 <= i < |users| ==> p(users[i])
    ensures |Positions(users, p, n)| == n
  {
    if n > 0 {
      EverybodyMatches(users, p, n - 1);
    }
  }

  /** The records that `k` sign-ins with one email leave. */
  function Sharers(k: nat): seq<User> {
    seq(k, i requires 0 <= i < k => SignedIn(Sharer(i), i))
  }

  lemma {:induction false} SharersSignIn(ops: seq<Op>, k: nat)
    requires k <= |ops| && forall i :: 0 <= i < k ==> ops[i] == Establish(Sharer(i), i)
    ensures After(START, ops, k) == World(Sharers(k), [], 0)
  {
    if k == 0 {
      assert Sharers(0) == [];
    } else {
      SharersSignIn(ops, k - 1);
      OneMore(START, ops, k - 1);
      FirstContact(World(Sharers(k - 1), [], 0), Sharer(k - 1), k - 1);
      assert Sharers(k) == Sharers(k - 1) + [SignedIn(Sharer(k - 1), k - 1)];
    }
  }

  lemma FirstEntryIsWritten(w: World, op: Op)
    requires w.entries == [] && op.CreateEntry? && op.email.Some?
    ensures Writes(w, op, Entry(w.next, op.email, op.wallet, op.caption, op.now, op.now, op.operator))
  {
  }

  lemma LastSharerIsOutOfReach(users: seq<User>, e: Entry)
    requires users == Sharers(101) && e.email == Some(7) && e.wallet.None?
    ensures !Reached(users, e, 100)
  {
    EverybodyMatches(users, (u: User) => u.email == e.email, 100);
  }

  lemma LastSharerIsPassedOver(w: World, op: Op, e: Entry)
    requires w == World(Sharers(101), [], 0)
    requires e == Entry(0, Some(7), None, e.caption, e.createdAt, e.createdAt, e.createdBy)
    requires op == CreateEntry(Some(7), None, e.caption, e.createdBy, e.createdAt)
    ensures Writes(w, op, e) && |Next(w, op).users| == 101 && Next(w, op).users[100] == SignedIn(Sharer(100), 100)
  {
    FirstEntryIsWritten(w, op);
    LastSharerIsOutOfReach(w.users, e);
    WriteAdmits(w, op, e, 100);
  }

  /**
   * A hundred and one sign-ins with one email, then an entry for that email and any number of
   * repetitions: the last record matches and is left waiting.
   */
  lemma HundredAndFirstIsLeftWaiting(signIns: seq<Op>, ops: seq<Op>, n: nat, e: Entry)
    requires |signIns| == 101 && forall i :: 0 <= i < 101 ==> signIns[i] == Establish(Sharer(i), i)
    requires 0 < n <= |ops| && ops[0] == CreateEntry(Some(7), None, e.caption, e.createdBy, e.createdAt)
    requires e == Entry(0, Some(7), None, e.caption, e.createdAt, e.createdAt, e.createdBy)
    requires Only(ops, 1, n, Repeating(e))
    ensures var users := After(After(START, signIns, 101), ops, n).users;
            |users| == 101 && Matches(users[100], e) && Awaiting(users[100])
  {
    var w := After(START, signIns, 101);
    SharersSignIn(signIns, 101);
    RunKeepsInv(START, signIns, 101);
    LastSharerIsPassedOver(w, ops[0], e);
    RerunAdmitsNobody(w, ops, n, e);
  }

  // ----- What a claim pass takes -----

  ghost predicate ExpiryOrdered(users: seq<User>, order: seq<nat>) {
    forall x, y :: 0 <= x < y < |order| ==> Expiry(users, order[x]) <= Expiry(users, order[y])
  }

  ghost predicate ExpireBy(users: seq<User>, order: seq<nat>, bound: Time) {
    forall x :: 0 <= x < |order| ==> Expiry(users, order[x]) <= bound
  }

  lemma {:induction false} InsertionKeepsBound(users: seq<User>, order: seq<nat>, i: nat, bound: Time)
    requires ExpireBy(users, order, bound) && Expiry(users, i) <= bound
    ensures ExpireBy(users, InsertByExpiry(users, order, i), bound)
  {
    if !(order == [] || Expiry(users, order[|order| - 1]) <= Expiry(users, i)) {
      InsertionKeepsBound(users, order[..|order| - 1], i, bound);
    }
  }

  lemma {:induction false} InsertionKeepsOrder(users: seq<User>, order: seq<nat>, i: nat)
    requires ExpiryOrdered(users, order)
    ensures ExpiryOrdered(users, InsertByExpiry(users, order, i))
  {
    if !(order == [] || Expiry(users, order[|order| - 1]) <= Expiry(users, i)) {
      var init := order[..|order| - 1];
      InsertionKeepsOrder(users, init, i);
      InsertionKeepsBound(users, init, i, Expiry(users, order[|order| - 1]));
    }
  }

  /** Lapsed claims are served oldest expiry first. */
  lemma {:induction false} ExpiryOrderAscends(users: seq<User>, s: seq<nat>)
    ensures ExpiryOrdered(users, ByExpiry(users, s))
  {
    if s != [] {
      ExpiryOrderAscends(users, s[..|s| - 1]);
      InsertionKeepsOrder(users, ByExpiry(users, s[..|s| - 1]), s[|s| - 1]);
    }
  }

  /** A pass that is not full leaves nothing that could be claimed, and a lapsed claim waits for every due record. */
  lemma PassIsExhaustive(users: seq<User>, limit: nat, now: Time, i: nat)
    requires i < |users| && Claimable(users[i], now) && i !in Chosen(users, limit, now)
    ensures |Chosen(users, limit, now)| == limit
    ensures users[i].welcome.value.Due? ==>
              forall k :: 0 <= k < limit ==> Chosen(users, limit, now)[k] in DueUsers(users)
  {
    DueMember(users, i);
    LapsedMember(users, now, i);
  }

  lemma LapsedFrontIsServed(users: seq<User>, limit: nat, now: Time, x: nat)
    requires x < |LapsedUsers(users, now)|
    ensures LapsedUsers(users, now)[x] in Chosen(users, limit, now) || |Take(limit, DueUsers(users))| + x >= limit
  {
    var lapsed, due := LapsedUsers(users, now), Take(limit, DueUsers(users));
    if |due| + x < limit {
      assert Chosen(users, limit, now)[|due| + x] == lapsed[x];
    }
  }

  lemma LapsedAscend(users: seq<User>, now: Time, x: nat, y: nat)
    requires x <= y < |LapsedUsers(users, now)|
    ensures Expiry(users, LapsedUsers(users, now)[x]) <= Expiry(users, LapsedUsers(users, now)[y])
  {
    ExpiryOrderAscends(users, Positions(users, (u: User) => Lapsed(u, now), |users|));
  }

  /** A lapsed claim is left out only for due records and for claims that expired no later. */
  lemma LapsedServedOldestFirst(users: seq<User>, limit: nat, now: Time, i: nat, k: nat)
    requires i < |users| && Lapsed(users[i], now) && i !in Chosen(users, limit, now) && k < |Chosen(users, limit, now)|
    ensures Chosen(users, limit, now)[k] in DueUsers(users)
            || Expiry(users, Chosen(users, limit, now)[k]) <= Expiry(users, i)
  {
    var lapsed, due := LapsedUsers(users, now), Take(limit, DueUsers(users));
    LapsedMember(users, now, i);
    var x :| 0 <= x < |lapsed| && lapsed[x] == i;
    LapsedFrontIsServed(users, limit, now, x);
    if k >= |due| {
      LapsedAscend(users, now, k - |due|, x);
    }
  }

  // ----- In which order due records are served -----

  function DueAt(u: User): Time {
    if IsDue(u) then u.welcome.value.dueAt else 0
  }

  /** The pass takes a due record exactly if fewer than `limit` due ones were created before it. */
  lemma DueTakenByRank(w: World, op: Op, i: nat)
    requires P.ClaimValid(op) && i < |w.users| && IsDue(w.users[i])
    ensures IsDue(Next(w, op).users[i]) <==> Earlier(w.users, IsDue, i) >= op.limit
  {
    var limit: nat := op.limit;
    TakenByRank(w.users, IsDue, limit, i);
    LapsedMember(w.users, op.now, i);
    var due := Take(limit, DueUsers(w.users));
    assert i in Chosen(w.users, limit, op.now) <==> i in due;
  }

  /** The pass takes due record `i` and leaves due record `k`. */
  predicate TakesAndLeaves(w: World, op: Op, i: nat, k: nat) {
    && P.ClaimValid(op) && i < |w.users| && k < |w.users| && IsDue(w.users[i]) && IsDue(w.users[k])
    && !IsDue(Next(w, op).users[i]) && IsDue(Next(w, op).users[k])
  }

  /** Every due record the pass leaves due was armed no earlier than every due record it takes. */
  ghost predicate ServesOldestArmed(w: World, op: Op) {
    forall i: nat, k: nat :: TakesAndLeaves(w, op, i, k) ==> DueAt(w.users[i]) <= DueAt(w.users[k])
  }

  /** Due records within reach of a pass were armed no later than every due record created after them. */
  ghost predicate ArmedInCreationOrder(users: seq<User>) {
    forall i, k | 0 <= i < k < |users| && IsDue(users[i]) && IsDue(users[k])
        && Earlier(users, IsDue, i) < CLAIM_MAX_BATCH
      :: DueAt(users[i]) <= DueAt(users[k])
  }

  lemma EarlierGrows(users: seq<User>, i: nat, k: nat)
    requires i < k <= |users|
    ensures Earlier(users, IsDue, i) + (if IsDue(users[i]) then 1 else 0) <= Earlier(users, IsDue, k)
  {
    PositionsPrefix(users, IsDue, i + 1, k);
  }

  lemma RankFollowsCreation(users: seq<User>, i: nat, k: nat, limit: int)
    requires i < |users| && k < |users| && IsDue(users[i]) && IsDue(users[k]) && ArmedInCreationOrder(users)
    requires Earlier(users, IsDue, i) < limit <= Earlier(users, IsDue, k) && limit <= CLAIM_MAX_BATCH
    ensures DueAt(users[i]) <= DueAt(users[k])
  {
    if k < i {
      EarlierGrows(users, k, i);
    }
  }

  lemma CreationOrderServesOldest(w: World, op: Op)
    requires P.ClaimValid(op) && ArmedInCreationOrder(w.users)
    ensures ServesOldestArmed(w, op)
  {
    forall i: nat, k: nat | TakesAndLeaves(w, op, i, k) ensures DueAt(w.users[i]) <= DueAt(w.users[k]) {
      DueTakenByRank(w, op, i);
      DueTakenByRank(w, op, k);
      RankFollowsCreation(w.users, i, k, op.limit);
    }
  }

  /** The pass that reaches just as far as record `i` separates it from every later one. */
  lemma ServedFirst(w: World, op: Op, i: nat, k: nat)
    requires i < k < |w.users| && IsDue(w.users[i]) && IsDue(w.users[k]) && P.ClaimValid(op)
    requires op.limit == Earlier(w.users, IsDue, i) + 1 && ServesOldestArmed(w, op)
    ensures DueAt(w.users[i]) <= DueAt(w.users[k])
  {
    DueTakenByRank(w, op, i);
    DueTakenByRank(w, op, k);
    EarlierGrows(w.users, i, k);
    assert TakesAndLeaves(w, op, i, k);
  }

  /**
   * Due records are served in creation order: every valid pass serves the oldest-armed first exactly
   * if the due records a pass can reach were armed in the order in which all were created.
   */
  lemma OldestArmedFirstIff(w: World)
    ensures (forall op :: P.ClaimValid(op) ==> ServesOldestArmed(w, op)) <==> ArmedInCreationOrder(w.users)
  {
    if ArmedInCreationOrder(w.users) {
      forall op | P.ClaimValid(op) ensures ServesOldestArmed(w, op) {
        CreationOrderServesOldest(w, op);
      }
    } else {
      var i, k :| 0 <= i < k < |w.users| && IsDue(w.users[i]) && IsDue(w.users[k])
                  && Earlier(w.users, IsDue, i) < CLAIM_MAX_BATCH && DueAt(w.users[i]) > DueAt(w.users[k]);
      var op := Claim(Earlier(w.users, IsDue, i) + 1, None, 0);
      assert P.ClaimValid(op);
      if ServesOldestArmed(w, op) {
        ServedFirst(w, op, i, k);
      }
    }
  }

  // ----- A run that serves the later-armed first -----

  const EARLY: Identity := Identity(1, 0, Some(7), None)
  const LATE: Identity := Identity(2, 0, Some(8), None)

  /** Two sign-ins; the second identity is approved and returns, then the first. */
  const RETURNS: seq<Op> := [
    Establish(EARLY, 0), Establish(LATE, 1), Decide(2, Approved, 9, 2), Establish(LATE, 5), Decide(1, Approved, 9, 6),
    Establish(EARLY, 9)]

  function ApprovedAt(u: User, at: Time): User {
    u.(access := Some(Decision(Approved, ByOperator(9), at)))
  }

  lemma ApprovalOf(w: World, i: nat, now: Time)
    requires |w.users| == 2 && i < 2 && w.users[0].subject == 1 && w.users[1].subject == 2 && Awaiting(w.users[i])
    ensures Next(w, Decide(w.users[i].subject, Approved, 9, now)) ==
              w.(users := w.users[i := ApprovedAt(w.users[i], now)])
  {
    assert FindUser(w.users, w.users[i].subject) == Some(i);
  }

  lemma ReturnArms(w: World, a: Identity, i: nat, at: Time, now: Time)
    requires |w.users| == 2 && i < 2 && w.users[0].subject == 1 && w.users[1].subject == 2 && a.subject == i + 1
    requires w.users[i] == ApprovedAt(SignedIn(a, w.users[i].firstSeenAt), at) && a.email.Some?
    requires w.users[i].lastSeenAt < at <= now
    ensures Next(w, Establish(a, now)).users
         == w.users[i := w.users[i].(lastSeenAt := now, welcome := Some(Due(now)))]
    ensures Next(w, Establish(a, now)).entries == w.entries
  {
    assert FindUser(w.users, a.subject) == Some(i);
  }

  lemma SignInsWait()
    ensures After(START, RETURNS, 2) == World([SignedIn(EARLY, 0), SignedIn(LATE, 1)], [], 0)
  {
    var w0 := START;
    OneMore(w0, RETURNS, 0);
    FirstContact(w0, EARLY, 0);
    OneMore(w0, RETURNS, 1);
    FirstContact(World([SignedIn(EARLY, 0)], [], 0), LATE, 1);
  }

  lemma SecondReturnsFirst()
    ensures var late := ApprovedAt(SignedIn(LATE, 1), 2).(lastSeenAt := 5, welcome := Some(Due(5)));
            var w := After(START, RETURNS, 4);
            w.users == [SignedIn(EARLY, 0), late] && w.entries == []
  {
    var w0, a, b := START, SignedIn(EARLY, 0), SignedIn(LATE, 1);
    SignInsWait();
    OneMore(w0, RETURNS, 2);
    ApprovalOf(World([a, b], [], 0), 1, 2);
    var w3 := World([a, ApprovedAt(b, 2)], [], 0);
    assert After(w0, RETURNS, 3) == w3;
    OneMore(w0, RETURNS, 3);
    ReturnArms(w3, LATE, 1, 2, 5);
    assert After(w0, RETURNS, 4).users == [a, ApprovedAt(b, 2).(lastSeenAt := 5, welcome := Some(Due(5)))];
  }

  /** After the two returns the record created first is due at 9, the one created second at 5. */
  lemma ReturnsArm()
    ensures var w := After(START, RETURNS, 6);
            |w.users| == 2 && w.users[0].welcome == Some(Due(9)) && w.users[1].welcome == Some(Due(5))
  {
    var w0 := START;
    SecondReturnsFirst();
    OneMore(w0, RETURNS, 4);
    ApprovalOf(After(w0, RETURNS, 4), 0, 6);
    OneMore(w0, RETURNS, 5);
    ReturnArms(After(w0, RETURNS, 5), EARLY, 0, 6, 9);
  }

  lemma FirstOfTwoIsTaken(w: World, op: Op)
    requires P.ClaimValid(op) && op.limit == 1
    requires |w.users| == 2 && w.users[0].welcome == Some(Due(9)) && w.users[1].welcome == Some(Due(5))
    ensures TakesAndLeaves(w, op, 0, 1) && !ServesOldestArmed(w, op)
  {
    DueTakenByRank(w, op, 0);
    DueTakenByRank(w, op, 1);
    EarlierGrows(w.users, 0, 1);
    assert DueAt(w.users[0]) > DueAt(w.users[1]);
  }

  /** After that run a pass of one takes the later-armed welcome, and the older one waits. */
  lemma LaterArmedServedFirst(op: Op)
    requires P.ClaimValid(op) && op.limit == 1
    ensures var w := After(START, RETURNS, 6);
            TakesAndLeaves(w, op, 0, 1) && !ServesOldestArmed(w, op)
  {
    ReturnsArm();
    FirstOfTwoIsTaken(After(START, RETURNS, 6), op);
  }
}
