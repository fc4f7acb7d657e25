/**
 * Closed-beta admission and the once-ever welcome marker as atomic steps over the directory and the
 * allowlist (`establishProductUserRecord`, `createEntry`, `updateEntry`, `removeEntry`,
 * `decideProductUserAccess`, `claimDueWelcomes`, `settleWelcome`). Both tables are listed in creation
 * order, which is how an index breaks ties.
 */
module BetaAccess {
  import opened Prelude
  import opened Lists
  import opened Runs

  const LAST_SEEN_REFRESH: int := 60_000
  const ADMISSION_SCAN_LIMIT: nat := 100
  const CLAIM_MAX_BATCH: int := 20
  const CLAIM_MIN_LEASE: int := 1_000
  const CLAIM_MAX_LEASE: int := 900_000
  const CLAIM_DEFAULT_LEASE: int := 300_000

  datatype State = AwaitingReview | Approved | Declined
  datatype Authority = ByDefault | ByAllowlist(entry: Key) | ByOperator(operator: Key)
  datatype Decision = Decision(state: State, authority: Authority, decidedAt: Time)

  datatype Reason = Grandfathered | NoVerifiedEmail
  datatype Marker =
    | Due(dueAt: Time)
    | Claimed(dueAt: Time, claimedAt: Time, expiresAt: Time)
    | Sent(dueAt: Time, sentAt: Time)
    | NotApplicable(reason: Reason, recordedAt: Time)

  /** A wallet address: its lowercase key and the casing that is kept verbatim. */
  datatype Wallet = Wallet(key: Key, casing: int)

  /** What the verified identity exposes. */
  datatype Identity = Identity(subject: Key, authMethod: Key, email: Option<Key>, wallet: Option<Wallet>)

  datatype User = User(
    subject: Key, authMethod: Key, email: Option<Key>, wallet: Option<Wallet>, firstSeenAt: Time, lastSeenAt: Time,
    suspended: bool, access: Option<Decision>, welcome: Option<Marker>)

  datatype Entry = Entry(
    id: Key, email: Option<Key>, wallet: Option<Wallet>, caption: Option<int>, createdAt: Time, updatedAt: Time,
    createdBy: Key)

  /** `next` is the id of the next entry inserted. */
  datatype World = World(users: seq<User>, entries: seq<Entry>, next: Key)

  datatype Edit<T> = Keep | Put(value: Option<T>)

  /** `SetStanding` is an edit by hand: no mutation writes the standing. */
  datatype Op =
    | Establish(identity: Identity, now: Time)
    | CreateEntry(email: Option<Key>, wallet: Option<Wallet>, caption: Option<int>, operator: Key, now: Time)
    | UpdateEntry(id: Key, emailEdit: Edit<Key>, walletEdit: Edit<Wallet>, captionEdit: Edit<int>, now: Time)
    | RemoveEntry(id: Key)
    | Decide(subject: Key, target: State, operator: Key, now: Time)
    | Claim(limit: int, lease: Option<int>, now: Time)
    | Settle(subject: Key, sent: bool, now: Time)
    | SetStanding(subject: Key, suspended: bool)

  datatype Effective = Admitted | Barred(state: State) | Suspended
  datatype Error = IdentifierRequired | DuplicateEmail | DuplicateWallet | ClaimInvalid | StateConflict

  datatype Outcome =
    | Established(created: bool, suspended: bool)
    | EntryWritten(entry: Option<Entry>, admitted: nat)
    | EntryRemoved(removed: bool)
    | Decided(changed: bool, previous: Decision, resulting: Decision, effective: Effective)
    | NothingToDecide
    | ClaimsTaken(claims: seq<(Key, Option<Key>)>)
    | Settled(marker: Marker)
    | AlreadySettled(marker: Marker)
    | NothingToSettle
    | StandingSet
    | Refusal(error: Error)

  // ----- Lookups -----

  function FirstFrom<T(!new)>(s: seq<T>, p: T -> bool, i: nat): (first: Option<nat>)
    requires i <= |s|
    ensures first.Some? ==> i <= first.value < |s| && p(s[first.value]) && forall j :: i <= j < first.value ==> !p(s[j])
    ensures first.None? ==> forall j :: i <= j < |s| ==> !p(s[j])
    decreases |s| - i
  {
    if i == |s| then None else if p(s[i]) then Some(i) else FirstFrom(s, p, i + 1)
  }

  function First<T(!new)>(s: seq<T>, p: T -> bool): (first: Option<nat>)
    ensures first.Some? ==> first.value < |s| && p(s[first.value]) && forall j :: 0 <= j < first.value ==> !p(s[j])
    ensures first.None? ==> forall j :: 0 <= j < |s| ==> !p(s[j])
  {
    FirstFrom(s, p, 0)
  }

  /** The positions before `n` that satisfy `p`, in order. */
  function Positions<T(!new)>(s: seq<T>, p: T -> bool, n: nat): seq<nat>
    requires n <= |s|
  {
    if n == 0 then [] else Positions(s, p, n - 1) + if p(s[n - 1]) then [n - 1] else []
  }

  lemma {:induction false} PositionsMember<T(!new)>(s: seq<T>, p: T -> bool, n: nat, i: nat)
    requires n <= |s|
    ensures i in Positions(s, p, n) <==> i < n && p(s[i])
  {
    if n > 0 {
      PositionsMember(s, p, n - 1, i);
    }
  }

  lemma {:induction false} PositionsAscend<T(!new)>(s: seq<T>, p: T -> bool, n: nat)
    requires n <= |s|
    ensures forall x, y :: 0 <= x < y < |Positions(s, p, n)| ==> Positions(s, p, n)[x] < Positions(s, p, n)[y]
  {
    if n > 0 {
      PositionsAscend(s, p, n - 1);
      var init := Positions(s, p, n - 1);
      forall x | 0 <= x < |init| ensures init[x] < n - 1 {
        PositionsMember(s, p, n - 1, init[x]);
      }
    }
  }

  function Take<T>(limit: nat, s: seq<T>): seq<T> {
    if |s| <= limit then s else s[..limit]
  }

  function Or<T>(a: Option<T>, b: Option<T>): Option<T> {
    if a.Some? then a else b
  }

  function WalletKey(w: Option<Wallet>): Option<Key> {
    if w.None? then None else Some(w.value.key)
  }

  function FindUser(users: seq<User>, subject: Key): Option<nat> {
    First(users, (u: User) => u.subject == subject)
  }

  /** Two records for one subject: the lookup refuses. */
  predicate Ambiguous(users: seq<User>, subject: Key) {
    exists i, j :: 0 <= i < j < |users| && users[i].subject == subject && users[j].subject == subject
  }

  function FindEntry(entries: seq<Entry>, id: Key): Option<nat> {
    First(entries, (e: Entry) => e.id == id)
  }

  function EntryByEmail(entries: seq<Entry>, email: Option<Key>): Option<nat> {
    if email.None? then None else First(entries, (e: Entry) => e.email == email)
  }

  function EntryByWallet(entries: seq<Entry>, key: Option<Key>): Option<nat> {
    if key.None? then None else First(entries, (e: Entry) => WalletKey(e.wallet) == key)
  }

  /** `findBetaAllowlistMatch`: the email is consulted first. */
  function MatchEntry(entries: seq<Entry>, email: Option<Key>, wallet: Option<Wallet>): Option<Key> {
    var byEmail, byWallet := EntryByEmail(entries, email), EntryByWallet(entries, WalletKey(wallet));
    if byEmail.Some? then Some(entries[byEmail.value].id)
    else if byWallet.Some? then Some(entries[byWallet.value].id)
    else None
  }

  // ----- Decisions and markers -----

  function DecisionOf(u: User): Decision {
    if u.access.Some? then u.access.value else Decision(AwaitingReview, ByDefault, u.firstSeenAt)
  }

  predicate Awaiting(u: User) {
    DecisionOf(u).state == AwaitingReview
  }

  /** `composeProductUserEffectiveAccess`. */
  function EffectiveAccess(u: Option<User>): Effective {
    if u.None? then Barred(AwaitingReview)
    else if DecisionOf(u.value).state != Approved then Barred(DecisionOf(u.value).state)
    else if u.value.suspended then Suspended
    else Admitted
  }

  predicate Terminal(m: Option<Marker>) {
    m.Some? && (m.value.Sent? || m.value.NotApplicable?)
  }

  /** A marker that a claim may take or a settlement may close. */
  predicate Open(m: Option<Marker>) {
    m.Some? && (m.value.Due? || m.value.Claimed?)
  }

  /** `welcomeMarkerAtEstablishment`: the marker to write, if any. */
  function MarkerAt(existing: Option<Marker>, d: Decision, suspended: bool, here: bool, previous: Option<Time>,
                    email: Option<Key>, now: Time): Option<Marker>
  {
    if existing.Some? || d.state != Approved || suspended then None
    else if !(here || previous.None? || d.decidedAt > previous.value) then Some(NotApplicable(Grandfathered, now))
    else if email.None? then Some(NotApplicable(NoVerifiedEmail, now))
    else Some(Due(now))
  }

  // ----- Establishment -----

  function NewUser(entries: seq<Entry>, a: Identity, now: Time): User {
    var invitation := MatchEntry(entries, a.email, a.wallet);
    var access := if invitation.None? then Decision(AwaitingReview, ByDefault, now)
                  else Decision(Approved, ByAllowlist(invitation.value), now);
    User(a.subject, a.authMethod, a.email, a.wallet, now, now, false, Some(access),
         MarkerAt(None, access, false, invitation.Some?, None, a.email, now))
  }

  /** `mergeAttributes`: a contact never erases what is known. */
  function Merged(u: User, a: Identity): User {
    u.(authMethod := a.authMethod, email := Or(a.email, u.email), wallet := Or(a.wallet, u.wallet))
  }

  /** Only an undecided identity consults the allowlist. */
  function Invitation(entries: seq<Entry>, u: User, a: Identity): Option<Key> {
    if Awaiting(u) then MatchEntry(entries, Merged(u, a).email, Merged(u, a).wallet) else None
  }

  function Refreshed(entries: seq<Entry>, u: User, a: Identity, now: Time): User {
    var m, invitation := Merged(u, a), Invitation(entries, u, a);
    var access := if invitation.Some? then Decision(Approved, ByAllowlist(invitation.value), now) else DecisionOf(u);
    var welcome := MarkerAt(u.welcome, access, u.suspended, invitation.Some?, Some(u.lastSeenAt), m.email, now);
    if m != u || now - u.lastSeenAt >= LAST_SEEN_REFRESH || now < u.lastSeenAt || u.access.None?
       || invitation.Some? || welcome.Some?
    then m.(lastSeenAt := now, access := Some(access), welcome := Or(welcome, u.welcome))
    else u
  }

  function EstablishStep(w: World, a: Identity, now: Time): (World, Outcome) {
    var at := FindUser(w.users, a.subject);
    if Ambiguous(w.users, a.subject) then (w, Refusal(StateConflict))
    else if at.None? then (w.(users := w.users + [NewUser(w.entries, a, now)]), Established(true, false))
    else
      (w.(users := w.users[at.value := Refreshed(w.entries, w.users[at.value], a, now)]),
       Established(false, w.users[at.value].suspended))
  }

  // ----- Allowlist -----

  /** `refuseDuplicateIdentifiers`. */
  function DuplicateGuard(entries: seq<Entry>, email: Option<Key>, wallet: Option<Wallet>,
                          excluding: Option<Key>): Option<Error>
  {
    var byEmail, byWallet := EntryByEmail(entries, email), EntryByWallet(entries, WalletKey(wallet));
    if byEmail.Some? && Some(entries[byEmail.value].id) != excluding then Some(DuplicateEmail)
    else if byWallet.Some? && Some(entries[byWallet.value].id) != excluding then Some(DuplicateWallet)
    else None
  }

  function UsersByEmail(users: seq<User>, email: Option<Key>): seq<nat> {
    if email.None? then [] else Take(ADMISSION_SCAN_LIMIT, Positions(users, (u: User) => u.email == email, |users|))
  }

  function UsersByWallet(users: seq<User>, wallet: Option<Wallet>): seq<nat> {
    if wallet.None? then []
    else Take(ADMISSION_SCAN_LIMIT, Positions(users, (u: User) => WalletKey(u.wallet) == WalletKey(wallet), |users|))
  }

  function Outside(s: seq<nat>): nat -> bool {
    i => i !in s
  }

  /** The records one entry write looks at, each once. */
  function Candidates(users: seq<User>, email: Option<Key>, wallet: Option<Wallet>): seq<nat> {
    var byEmail := UsersByEmail(users, email);
    byEmail + Filter(UsersByWallet(users, wallet), Outside(byEmail))
  }

  lemma CandidatesExist(users: seq<User>, email: Option<Key>, wallet: Option<Wallet>)
    ensures var r := Candidates(users, email, wallet); forall k :: 0 <= k < |r| ==> r[k] < |users|
  {
    var r, byEmail := Candidates(users, email, wallet), UsersByEmail(users, email);
    forall k | 0 <= k < |r| ensures r[k] < |users| {
      if k < |byEmail| {
        PositionsMember(users, (u: User) => u.email == email, |users|, byEmail[k]);
      } else {
        var rest := Filter(UsersByWallet(users, wallet), Outside(byEmail));
        FilterMembers(UsersByWallet(users, wallet), Outside(byEmail));
        assert r[k] in rest;
        PositionsMember(users, (u: User) => WalletKey(u.wallet) == WalletKey(wallet), |users|, r[k]);
      }
    }
  }

  function AdmittedUser(u: User, d: Decision): User {
    if Awaiting(u) then u.(access := Some(d)) else u
  }

  function AdmittedUsers(users: seq<User>, candidates: seq<nat>, d: Decision): seq<User> {
    seq(|users|, i requires 0 <= i < |users| => if i in candidates then AdmittedUser(users[i], d) else users[i])
  }

  function AdmittedCount(users: seq<User>, candidates: seq<nat>): nat {
    |Filter(candidates, i => 0 <= i < |users| && Awaiting(users[i]))|
  }

  lemma OneMoreAdmitted(users: seq<User>, candidates: seq<nat>, k: nat, d: Decision)
    requires k < |candidates| && candidates[k] < |users|
    ensures var i := candidates[k];
            && AdmittedUsers(users, candidates[..k + 1], d) ==
              AdmittedUsers(users, candidates[..k], d)[i := AdmittedUser(users[i], d)]
            && AdmittedCount(users, candidates[..k + 1]) ==
              AdmittedCount(users, candidates[..k]) + if Awaiting(users[i]) then 1 else 0
  {
    assert candidates[..k + 1] == candidates[..k] + [candidates[k]];
    FilterLast(candidates[..k], candidates[k], i => 0 <= i < |users| && Awaiting(users[i]));
  }

  function Admission(id: Key, now: Time): Decision {
    Decision(Approved, ByAllowlist(id), now)
  }

  /** `admitMatchingAwaitingReviewAccounts` after the entry is written. */
  function AdmitFor(w: World, e: Entry, now: Time): (World, Outcome) {
    var candidates := Candidates(w.users, e.email, e.wallet);
    (w.(users := AdmittedUsers(w.users, candidates, Admission(e.id, now))),
     EntryWritten(Some(e), AdmittedCount(w.users, candidates)))
  }

  function CreateStep(w: World, op: Op): (World, Outcome)
    requires op.CreateEntry?
  {
    if op.email.None? && op.wallet.None? then (w, Refusal(IdentifierRequired))
    else if DuplicateGuard(w.entries, op.email, op.wallet, None).Some? then
      (w, Refusal(DuplicateGuard(w.entries, op.email, op.wallet, None).value))
    else
      var e := Entry(w.next, op.email, op.wallet, op.caption, op.now, op.now, op.operator);
      AdmitFor(w.(entries := w.entries + [e], next := w.next + 1), e, op.now)
  }

  function Edited<T>(current: Option<T>, edit: Edit<T>): Option<T> {
    if edit.Keep? then current else edit.value
  }

  function EditedEntry(e: Entry, op: Op): Entry
    requires op.UpdateEntry?
  {
    var edited := e.(email := Edited(e.email, op.emailEdit), wallet := Edited(e.wallet, op.walletEdit),
                     caption := Edited(e.caption, op.captionEdit));
    if edited != e then edited.(updatedAt := op.now) else e
  }

  function UpdateStep(w: World, op: Op): (World, Outcome)
    requires op.UpdateEntry?
  {
    var at := FindEntry(w.entries, op.id);
    if at.None? then (w, EntryWritten(None, 0))
    else
      var e := EditedEntry(w.entries[at.value], op);
      if e.email.None? && e.wallet.None? then (w, Refusal(IdentifierRequired))
      else if DuplicateGuard(w.entries, e.email, e.wallet, Some(op.id)).Some? then
        (w, Refusal(DuplicateGuard(w.entries, e.email, e.wallet, Some(op.id)).value))
      else AdmitFor(w.(entries := w.entries[at.value := e]), e, op.now)
  }

  function RemoveStep(w: World, id: Key): (World, Outcome) {
    var at := FindEntry(w.entries, id);
    if at.None? then (w, EntryRemoved(false))
    else (w.(entries := w.entries[..at.value] + w.entries[at.value + 1..]), EntryRemoved(true))
  }

  // ----- Operator decisions -----

  function DecideStep(w: World, op: Op): (World, Outcome)
    requires op.Decide?
  {
    var at := FindUser(w.users, op.subject);
    if Ambiguous(w.users, op.subject) then (w, Refusal(StateConflict))
    else if at.None? then (w, NothingToDecide)
    else
      var u := w.users[at.value];
      var d := Decision(op.target, ByOperator(op.operator), op.now);
      if DecisionOf(u).state == op.target then
        (w, Decided(false, DecisionOf(u), DecisionOf(u), EffectiveAccess(Some(u))))
      else
        (w.(users := w.users[at.value := u.(access := Some(d))]),
         Decided(true, DecisionOf(u), d, EffectiveAccess(Some(u.(access := Some(d))))))
  }

  // ----- Welcome -----

  function Expiry(users: seq<User>, i: nat): Time {
    if i < |users| && users[i].welcome.Some? && users[i].welcome.value.Claimed? then users[i].welcome.value.expiresAt
    else 0
  }

  function InsertByExpiry(users: seq<User>, order: seq<nat>, i: nat): seq<nat> {
    if order == [] || Expiry(users, order[|order| - 1]) <= Expiry(users, i) then order + [i]
    else InsertByExpiry(users, order[..|order| - 1], i) + [order[|order| - 1]]
  }

  function ByExpiry(users: seq<User>, s: seq<nat>): seq<nat> {
    if s == [] then [] else InsertByExpiry(users, ByExpiry(users, s[..|s| - 1]), s[|s| - 1])
  }

  lemma {:induction false} InsertionKeepsContents(users: seq<User>, order: seq<nat>, i: nat)
    ensures multiset(InsertByExpiry(users, order, i)) == multiset(order) + multiset{i}
  {
    if !(order == [] || Expiry(users, order[|order| - 1]) <= Expiry(users, i)) {
      assert order == order[..|order| - 1] + [order[|order| - 1]];
      InsertionKeepsContents(users, order[..|order| - 1], i);
    }
  }

  lemma {:induction false} ExpiryOrderKeepsContents(users: seq<User>, s: seq<nat>)
    ensures multiset(ByExpiry(users, s)) == multiset(s)
  {
    if s != [] {
      assert s == s[..|s| - 1] + [s[|s| - 1]];
      ExpiryOrderKeepsContents(users, s[..|s| - 1]);
      InsertionKeepsContents(users, ByExpiry(users, s[..|s| - 1]), s[|s| - 1]);
    }
  }

  predicate IsDue(u: User) {
    u.welcome.Some? && u.welcome.value.Due?
  }

  function DueUsers(users: seq<User>): seq<nat> {
    Positions(users, IsDue, |users|)
  }

  predicate Lapsed(u: User, now: Time) {
    u.welcome.Some? && u.welcome.value.Claimed? && u.welcome.value.expiresAt <= now
  }

  /** Claims that have expired, oldest expiry first. */
  function LapsedUsers(users: seq<User>, now: Time): seq<nat> {
    ByExpiry(users, Positions(users, (u: User) => Lapsed(u, now), |users|))
  }

  /** The records one pass takes: due ones in creation order, and lapsed claims in the room that is left. */
  function Chosen(users: seq<User>, limit: nat, now: Time): seq<nat> {
    var due := Take(limit, DueUsers(users));
    due + Take(limit - |due|, LapsedUsers(users, now))
  }

  function ClaimedUser(u: User, now: Time, lease: int): User
    requires Open(u.welcome)
  {
    u.(welcome := Some(Claimed(u.welcome.value.dueAt, now, now + lease)))
  }

  function ClaimedUsers(users: seq<User>, chosen: seq<nat>, now: Time, lease: int): seq<User> {
    seq(|users|, i requires 0 <= i < |users| =>
      if i in chosen && Open(users[i].welcome) then ClaimedUser(users[i], now, lease) else users[i])
  }

  function ClaimList(users: seq<User>, chosen: seq<nat>): seq<(Key, Option<Key>)>
    requires forall k :: 0 <= k < |chosen| ==> chosen[k] < |users|
  {
    seq(|chosen|, k requires 0 <= k < |chosen| => (users[chosen[k]].subject, users[chosen[k]].email))
  }

  function Lease(lease: Option<int>): int {
    if lease.Some? then lease.value else CLAIM_DEFAULT_LEASE
  }

  lemma DueMember(users: seq<User>, i: nat)
    ensures i in DueUsers(users) <==> i < |users| && IsDue(users[i])
  {
    PositionsMember(users, IsDue, |users|, i);
  }

  lemma LapsedMember(users: seq<User>, now: Time, i: nat)
    ensures i in LapsedUsers(users, now) <==>
            i < |users| && users[i].welcome.Some? && users[i].welcome.value.Claimed?
            && users[i].welcome.value.expiresAt <= now
  {
    var lapsed := Positions(users, (u: User) => Lapsed(u, now), |users|);
    PositionsMember(users, (u: User) => Lapsed(u, now), |users|, i);
    ExpiryOrderKeepsContents(users, lapsed);
    assert i in ByExpiry(users, lapsed) <==> i in multiset(ByExpiry(users, lapsed));
    assert i in lapsed <==> i in multiset(lapsed);
  }

  predicate Claimable(u: User, now: Time) {
    u.welcome.Some? && (u.welcome.value.Due? || (u.welcome.value.Claimed? && u.welcome.value.expiresAt <= now))
  }

  /** Every record a pass takes is due or lapsed; the refusal for any other marker never fires. */
  lemma ChosenAreClaimable(users: seq<User>, limit: nat, now: Time)
    ensures forall k :: 0 <= k < |Chosen(users, limit, now)| ==>
                          Chosen(users, limit, now)[k] < |users| && Claimable(users[Chosen(users, limit, now)[k]], now)
    ensures |Chosen(users, limit, now)| <= limit
  {
    var chosen := Chosen(users, limit, now);
    forall k | 0 <= k < |chosen| ensures chosen[k] < |users| && Claimable(users[chosen[k]], now) {
      if k < |Take(limit, DueUsers(users))| {
        DueMember(users, chosen[k]);
      } else {
        assert chosen[k] in LapsedUsers(users, now);
        LapsedMember(users, now, chosen[k]);
      }
    }
  }

  function ClaimStep(w: World, op: Op): (World, Outcome)
    requires op.Claim?
  {
    if !(1 <= op.limit <= CLAIM_MAX_BATCH) || !(CLAIM_MIN_LEASE <= Lease(op.lease) <= CLAIM_MAX_LEASE) then
      (w, Refusal(ClaimInvalid))
    else
      var chosen := Chosen(w.users, op.limit, op.now);
      ChosenAreClaimable(w.users, op.limit, op.now);
      (w.(users := ClaimedUsers(w.users, chosen, op.now, Lease(op.lease))), ClaimsTaken(ClaimList(w.users, chosen)))
  }

  function SettledMarker(m: Marker, sent: bool, now: Time): Marker
    requires m.Due? || m.Claimed?
  {
    if sent then Sent(m.dueAt, now) else NotApplicable(NoVerifiedEmail, now)
  }

  function SettleStep(w: World, op: Op): (World, Outcome)
    requires op.Settle?
  {
    var at := FindUser(w.users, op.subject);
    if Ambiguous(w.users, op.subject) then (w, Refusal(StateConflict))
    else if at.None? || w.users[at.value].welcome.None? then (w, NothingToSettle)
    else
      var m := w.users[at.value].welcome.value;
      if m.Sent? || m.NotApplicable? then (w, AlreadySettled(m))
      else
        (w.(users := w.users[at.value := w.users[at.value].(welcome := Some(SettledMarker(m, op.sent, op.now)))]),
         Settled(SettledMarker(m, op.sent, op.now)))
  }

  function StandingStep(w: World, subject: Key, suspended: bool): (World, Outcome) {
    var at := FindUser(w.users, subject);
    if at.None? then (w, StandingSet)
    else (w.(users := w.users[at.value := w.users[at.value].(suspended := suspended)]), StandingSet)
  }

  // ----- Runs -----

  function Step(w: World, op: Op): (World, Outcome) {
    match op
    case Establish(a, now) => EstablishStep(w, a, now)
    case CreateEntry(_, _, _, _, _) => CreateStep(w, op)
    case UpdateEntry(_, _, _, _, _) => UpdateStep(w, op)
    case RemoveEntry(id) => RemoveStep(w, id)
    case Decide(_, _, _, _) => DecideStep(w, op)
    case Claim(_, _, _) => ClaimStep(w, op)
    case Settle(_, _, _) => SettleStep(w, op)
    case SetStanding(subject, suspended) => StandingStep(w, subject, suspended)
  }

  function Next(w: World, op: Op): World {
    Step(w, op).0
  }

  /** The world after the first `n` steps. */
  function After(w: World, ops: seq<Op>, n: nat): World
    requires n <= |ops|
  {
    Run(Next, w, ops, n)
  }
}
