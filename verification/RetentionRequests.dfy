/**
 * The two retention requests as steps over the published store, the receipt journal and the
 * retention-state row that carries the reference audit from one request to the next
 * (`retainManifestsRequest`, `retainProviderRequest`, `advanceCatalogRetentionReferenceAudit`),
 * interleaved with every publication step.
 */
module RetentionRequests {
  import opened Prelude
  import opened RetentionSelection
  import A = ReferenceAudit
  import I = ManifestInvariants
  import J = RetentionJournal
  import M = ManifestPublication
  import P = RetentionProtection
  import Q = AuditPaging

  /** The audit columns of the retention-state row; `digest` names the proof snapshot the audit runs under. */
  datatype Audit = Audit(digest: Key, progress: Q.Progress, manifestPhaseComplete: bool)

  datatype State = State(world: M.World, journal: J.World, audit: Option<Audit>)

  const START: State := State(M.EMPTY, J.World([], 0), None)
  const FROM_THE_TOP: Q.Progress := Q.Progress(Q.Manifests, None, false)

  /** A manifest request and its proof: the time it was evaluated at and the manifests it protects. */
  datatype ManifestRequest = ManifestRequest(
    call: J.Request, now: Time, digest: Key, at: Time, external: seq<P.Protection>, maximumDocuments: nat)

  /** A provider request; `releases` and `pending` are the releases its proof protects. */
  datatype ReleaseRequest = ReleaseRequest(
    call: J.Request, now: Time, digest: Key, at: Time, external: seq<P.Protection>, platform: Key,
    releases: seq<P.Protection>, pending: seq<Key>, maximumDocuments: nat)

  /**
   * The index listings of the stored manifests and edges, and the manifests that Heat names; `proven`
   * is the verdict on the proof itself: its digest, its predecessors and operations and, for a manifest
   * request, the provider protections of every platform.
   */
  datatype Reads = Reads(listing: A.Store, rows: seq<Row>, heat: set<Key>, proven: bool)

  /**
   * The listings of one platform's releases and edges, and its completed head; `proven` is the verdict
   * on the chosen release's publication row and completion proof, `nextProven` that on the completion
   * record of the complete release the second selection finds, if it finds one.
   */
  datatype ReleaseReads = ReleaseReads(
    rows: seq<Row>, references: seq<P.Reference>, head: Option<Key>, proven: bool, nextProven: bool)

  /** An accepted request with what it selected; a refused one changes nothing. */
  datatype Event =
    | Other(step: M.Event)
    | RetainManifests(q: ManifestRequest, seen: Reads, selected: Option<Row>)
    | RetainReleases(r: ReleaseRequest, seen: Reads, releaseSeen: ReleaseReads, selected: Option<Row>)

  // ----- The audit, one page a request -----

  /** `advanceCatalogRetentionReferenceAudit`: on from the stored record, or from the top under another digest. */
  function Advance(audit: Option<Audit>, digest: Key, listing: A.Store): Result<Audit, Q.Error> {
    if audit.Some? && audit.value.digest == digest && audit.value.progress.complete then
      Success(Audit(digest, Q.Progress(Q.Edges, None, true), audit.value.manifestPhaseComplete))
    else
      var from := if audit.Some? && audit.value.digest == digest then audit.value.progress else FROM_THE_TOP;
      var page := A.AuditStep(listing, from);
      if page.Refused? then Refused(page.error) else Success(Audit(digest, page.value, false))
  }

  // ----- One request -----

  predicate Executes(s: State, call: J.Request, now: Time) {
    J.Step(s.journal, call, now).1.Executed?
  }

  ghost predicate ReadsOf(seen: Reads, w: M.World) {
    A.Listing(seen.listing, w) && M.ListsDocuments(seen.rows, w)
  }

  ghost function Protected(w: M.World, seen: Reads, external: seq<P.Protection>, at: Time): set<Key> {
    M.Protected(w, seen.rows, external, seen.heat, at)
  }

  /** No manifest but the selected one is removable. */
  predicate NothingElse(rows: seq<Row>, protected: set<Key>, at: Time, selected: Option<Row>) {
    forall x :: x in rows && Removable(x, protected, at) ==> selected == Some(x)
  }

  /** The protection graph is built: the proof holds, and no more is protected than may be. */
  ghost predicate GraphBuilds(w: M.World, seen: Reads, external: seq<P.Protection>, at: Time) {
    seen.proven && |Protected(w, seen, external, at)| <= P.MAX_PROTECTED
  }

  /** What a manifest request selects: nothing before the audit is complete, then the least removable manifest. */
  ghost predicate SelectsManifest(
    w: M.World, q: ManifestRequest, seen: Reads, complete: bool, selected: Option<Row>
  ) {
    var protected := Protected(w, seen, q.external, q.at);
    && (if complete then IsLeast(selected, seen.rows, (x: Row) => Removable(x, protected, q.at)) else selected.None?)
    && (selected.Some? ==>
          && selected.value.id in w.documents
          && |w.documents[selected.value.id].manifest.references| + 1 <= q.maximumDocuments)
  }

  ghost function ReleaseProtections(w: M.World, r: ReleaseRequest, rr: ReleaseReads): set<Key> {
    P.Ids(P.ReleaseProtections(rr.rows, r.releases, r.pending, rr.references, M.ActiveId(w), rr.head, r.at))
  }

  ghost predicate ReleaseReadsOf(rr: ReleaseReads, w: M.World, platform: Key) {
    M.ListsReleases(rr.rows, w, platform) && M.ListsReferences(rr.references, w, platform)
  }

  /** What a provider request selects, with the checks of the retirement. */
  ghost predicate SelectsRelease(w: M.World, r: ReleaseRequest, rr: ReleaseReads, selected: Option<Row>) {
    var protected := ReleaseProtections(w, r, rr);
    && |rr.references| <= P.MAX_PROTECTED && P.Resolves(rr.rows, rr.head) && |protected| <= P.MAX_PROTECTED_RELEASES
    && IsProviderChoice(selected, rr.rows, protected, r.at)
    && (selected.Some? ==> MayRetire(rr, protected, selected.value.id))
  }

  /** The chosen release is unprotected, no edge references it, it is not the head, and its records agree. */
  ghost predicate MayRetire(rr: ReleaseReads, protected: set<Key>, id: Key) {
    && id !in protected && rr.head != Some(id) && rr.proven
    && (forall x :: x in rr.references ==> x.release != id)
    && exists x: Row :: x in rr.rows && x.id == id
  }

  // ----- The second selection of a provider request -----

  /** The release index once the chosen release is gone, or only retired. */
  function RowsLeft(rows: seq<Row>, chosen: Row, gone: bool): seq<Row> {
    if rows == [] then []
    else
      var last := rows[|rows| - 1];
      RowsLeft(rows[..|rows| - 1], chosen, gone)
      + (if last != chosen then [last]
         else if gone then []
         else [last.(lifecycle := M.Retiring(last.lifecycle))])
  }

  function RowsAfter(w: M.World, r: ReleaseRequest, rr: ReleaseReads, selected: Option<Row>): seq<Row> {
    if selected.None? then rr.rows
    else
      var id := M.ReleaseId(r.platform, selected.value.id);
      RowsLeft(rr.rows, selected.value, id in w.releases && w.releases[id].owned < r.maximumDocuments)
  }

  /** What is found among the rows left passes the checks of the selection; they can still refuse the request. */
  ghost predicate Reselects(w: M.World, r: ReleaseRequest, rr: ReleaseReads, selected: Option<Row>) {
    forall x: Row ::
      IsProviderChoice(Some(x), RowsAfter(w, r, rr, selected), ReleaseProtections(w, r, rr), r.at) ==>
        PassesAgain(rr, ReleaseProtections(w, r, rr), x)
  }

  predicate PassesAgain(rr: ReleaseReads, protected: set<Key>, x: Row) {
    && x.id !in protected && (forall e :: e in rr.references ==> e.release != x.id)
    && (x.lifecycle.Complete? ==> rr.nextProven)
  }

  /** Whether an event can happen. */
  ghost predicate Enabled(s: State, e: Event) {
    match e
    case Other(step) => (step.Publish? || step.ChangeReleases?) && M.Enabled(s.world, step)
    case RetainManifests(q, seen, selected) =>
      && Executes(s, q.call, q.now) && ReadsOf(seen, s.world)
      && Advance(s.audit, q.digest, seen.listing).Success?
      && GraphBuilds(s.world, seen, q.external, q.at)
      && SelectsManifest(s.world, q, seen, Advance(s.audit, q.digest, seen.listing).value.progress.complete, selected)
    case RetainReleases(r, seen, rr, selected) =>
      && Executes(s, r.call, r.now) && ReadsOf(seen, s.world) && ReleaseReadsOf(rr, s.world, r.platform)
      && Advance(s.audit, r.digest, seen.listing).Success?
      && Advance(s.audit, r.digest, seen.listing).value.progress.complete
      && GraphBuilds(s.world, seen, r.external, r.at)
      && (Advance(s.audit, r.digest, seen.listing).value.manifestPhaseComplete || ManifestsCleared(s.world, r, seen))
      && SelectsRelease(s.world, r, rr, selected) && Reselects(s.world, r, rr, selected)
  }

  /** No manifest is removable: what a provider request asks when the manifest phase has not said so yet. */
  ghost predicate ManifestsCleared(w: M.World, r: ReleaseRequest, seen: Reads) {
    NothingElse(seen.rows, Protected(w, seen, r.external, r.at), r.at, None)
  }

  ghost function Next(s: State, e: Event): State
    requires Enabled(s, e)
  {
    match e
    case Other(step) => s.(world := M.Next(s.world, step))
    case RetainManifests(q, seen, selected) =>
      var a := Advance(s.audit, q.digest, seen.listing).value;
      var cleared := NothingElse(seen.rows, Protected(s.world, seen, q.external, q.at), q.at, selected);
      State(if selected.Some? then M.WithoutManifest(s.world, selected.value.id) else s.world,
            J.Step(s.journal, q.call, q.now).0,
            Some(a.(manifestPhaseComplete := a.progress.complete && cleared)))
    case RetainReleases(r, seen, rr, selected) =>
      var a := Advance(s.audit, r.digest, seen.listing).value;
      State(if selected.Some? then
              M.RetireRelease(s.world, M.ReleaseId(r.platform, selected.value.id), r.maximumDocuments)
            else s.world,
            J.Step(s.journal, r.call, r.now).0,
            Some(a.(manifestPhaseComplete := true)))
  }

  // ----- Runs -----

  ghost predicate Runs(events: seq<Event>, n: nat)
    requires n <= |events|
    decreases n, 0
  {
    n > 0 ==> Runs(events, n - 1) && Enabled(Run(events, n - 1), events[n - 1])
  }

  /** The state after the first `n` events. */
  ghost function Run(events: seq<Event>, n: nat): State
    requires n <= |events| && Runs(events, n)
    decreases n, 1
  {
    if n == 0 then START else Next(Run(events, n - 1), events[n - 1])
  }

  lemma {:induction false} RunsBefore(events: seq<Event>, m: nat, n: nat)
    requires m <= n <= |events| && Runs(events, n)
    ensures Runs(events, m)
    decreases n
  {
    if m < n {
      RunsBefore(events, m, n - 1);
    }
  }

  /** The row loads: a complete audit has no cursor left, and the manifest phase ends only after it. */
  predicate AuditLoads(audit: Option<Audit>) {
    audit.Some? ==>
      && (audit.value.progress.complete ==> audit.value.progress == Q.Progress(Q.Edges, None, true))
      && (audit.value.manifestPhaseComplete ==> audit.value.progress.complete)
  }

  ghost predicate Inv(s: State) {
    I.Inv(s.world) && J.Inv(s.journal) && AuditLoads(s.audit)
  }

  /** A page over a sound store is accepted, and goes on at a stored manifest. */
  lemma AdvanceIsAccepted(s: State, digest: Key, listing: A.Store)
    requires Inv(s) && A.Listing(listing, s.world)
    ensures Advance(s.audit, digest, listing).Success? && AuditLoads(Some(Advance(s.audit, digest, listing).value))
  {
    var from := if s.audit.Some? && s.audit.value.digest == digest then s.audit.value.progress else FROM_THE_TOP;
    A.SoundStorePasses(listing, s.world, from);
  }

  /** A manifest request's deletion is one the manifest machine allows. */
  lemma ManifestSelectionIsEnabled(s: State, q: ManifestRequest, seen: Reads, selected: Row)
    requires I.Inv(s.world) && ReadsOf(seen, s.world) && GraphBuilds(s.world, seen, q.external, q.at)
    requires SelectsManifest(s.world, q, seen, true, Some(selected))
    ensures M.Enabled(s.world, M.DeleteManifest(seen.rows, q.external, seen.heat, q.at, selected.id))
  {
    assert IsLeast(Some(selected), seen.rows,
                   (x: Row) => Removable(x, M.Protected(s.world, seen.rows, q.external, seen.heat, q.at), q.at));
  }

  lemma ReleaseSelectionIsEnabled(w: M.World, r: ReleaseRequest, rr: ReleaseReads, selected: Row)
    requires ReleaseReadsOf(rr, w, r.platform) && SelectsRelease(w, r, rr, Some(selected))
    ensures M.Enabled(w, M.DeleteRelease(M.ReleaseId(r.platform, selected.id), r.maximumDocuments))
  {
    forall e | e in w.edges ensures e.reference.release != M.ReleaseId(r.platform, selected.id) {
      if e.reference.release.platform == r.platform {
        assert P.Reference(e.reference.release.publicId, e.manifest) in rr.references;
      }
    }
  }

  lemma NextKeepsInv(s: State, e: Event)
    requires Inv(s) && Enabled(s, e)
    ensures Inv(Next(s, e))
  {
    match e {
      case Other(step) => I.NextKeepsInv(s.world, step);
      case RetainManifests(q, seen, selected) =>
        AdvanceIsAccepted(s, q.digest, seen.listing);
        J.StepKeepsInv(s.journal, q.call, q.now);
        if selected.Some? {
          ManifestSelectionIsEnabled(s, q, seen, selected.value);
          I.NextKeepsInv(s.world, M.DeleteManifest(seen.rows, q.external, seen.heat, q.at, selected.value.id));
        }
      case RetainReleases(r, seen, rr, selected) =>
        AdvanceIsAccepted(s, r.digest, seen.listing);
        J.StepKeepsInv(s.journal, r.call, r.now);
        if selected.Some? {
          ReleaseSelectionIsEnabled(s.world, r, rr, selected.value);
          I.NextKeepsInv(s.world, M.DeleteRelease(M.ReleaseId(r.platform, selected.value.id), r.maximumDocuments));
        }
    }
  }

  /** Over every interleaving of publication and retention requests the store stays sound and the state row loads. */
  lemma {:induction false} RunKeepsInv(events: seq<Event>, n: nat)
    requires n <= |events| && Runs(events, n)
    ensures Inv(Run(events, n))
  {
    if n > 0 {
      RunKeepsInv(events, n - 1);
      NextKeepsInv(Run(events, n - 1), events[n - 1]);
    }
  }

  /**
   * No audit page is ever refused: after every run, whatever the stored record and the digest of the
   * request, the page over the store's listings passes, although any publications came in between.
   */
  lemma NoPageIsRefused(events: seq<Event>, n: nat, digest: Key, listing: A.Store)
    requires n <= |events| && Runs(events, n) && A.Listing(listing, Run(events, n).world)
    ensures A.ExactStore(listing) && Advance(Run(events, n).audit, digest, listing).Success?
  {
    RunKeepsInv(events, n);
    A.ListingIsExact(listing, Run(events, n).world);
    AdvanceIsAccepted(Run(events, n), digest, listing);
  }

  // ----- The audit completes -----

  ghost function Above(keys: set<Key>, cursor: Option<Key>): set<Key> {
    set k | k in keys && (cursor.Some? ==> k > cursor.value)
  }

  /** What is left to audit, when every manifest ever stored has its id among `keys`. */
  ghost function Left(keys: set<Key>, p: Q.Progress): nat {
    if p.complete then 0
    else if p.phase.Manifests? then |Above(keys, p.cursor)| + |keys| + 2
    else |Above(keys, p.cursor)| + 1
  }

  lemma SubsetSize(a: set<Key>, b: set<Key>)
    requires a <= b
    ensures |a| <= |b| && (a != b ==> |a| < |b|)
  {
    assert b == a + (b - a);
  }

  lemma ForwardLeavesLess(keys: set<Key>, ids: seq<Key>, groups: seq<Key>, p: Q.Progress, next: Q.Progress)
    requires Q.Forward(ids, groups, p, next) && !p.complete && (next.cursor.Some? ==> next.cursor.value in keys)
    ensures Left(keys, next) < Left(keys, p)
  {
    SubsetSize(Above(keys, next.cursor), keys);
    if !next.complete && next.phase == p.phase {
      assert Above(keys, next.cursor) <= Above(keys, p.cursor);
      assert next.cursor.value in Above(keys, p.cursor) && next.cursor.value !in Above(keys, next.cursor);
      SubsetSize(Above(keys, next.cursor), Above(keys, p.cursor));
    }
  }

  /** How many pages one digest may still need. */
  ghost function ToDo(audit: Option<Audit>, digest: Key, keys: set<Key>): nat {
    if audit.Some? && audit.value.digest == digest then Left(keys, audit.value.progress) else 2 * |keys| + 3
  }

  lemma AdvanceLeavesLess(s: State, digest: Key, listing: A.Store, keys: set<Key>)
    requires Inv(s) && A.Listing(listing, s.world) && s.world.documents.Keys <= keys
    requires Advance(s.audit, digest, listing).Success?
    ensures var next := Some(Advance(s.audit, digest, listing).value);
            ToDo(next, digest, keys) < ToDo(s.audit, digest, keys)
            || ToDo(s.audit, digest, keys) == ToDo(next, digest, keys) == 0
  {
    var from := if s.audit.Some? && s.audit.value.digest == digest then s.audit.value.progress else FROM_THE_TOP;
    if !from.complete {
      A.SoundStorePasses(listing, s.world, from);
      ForwardLeavesLess(keys, A.ManifestKeys(listing), A.EdgeKeys(listing), from, A.AuditStep(listing, from).value);
      assert Above(keys, None) == keys;
    }
  }

  /** Retention requests of one proof snapshot; publication steps of any kind. */
  predicate SameSnapshot(e: Event, digest: Key) {
    match e
    case Other(_) => true
    case RetainManifests(q, _, _) => q.digest == digest
    case RetainReleases(r, _, _, _) => r.digest == digest
  }

  lemma EventLeavesLess(s: State, e: Event, digest: Key, keys: set<Key>)
    requires Inv(s) && Enabled(s, e) && SameSnapshot(e, digest) && s.world.documents.Keys <= keys
    ensures ToDo(Next(s, e).audit, digest, keys) <= ToDo(s.audit, digest, keys)
    ensures !e.Other? ==> ToDo(Next(s, e).audit, digest, keys) < ToDo(s.audit, digest, keys)
                          || ToDo(Next(s, e).audit, digest, keys) == 0
  {
    match e {
      case Other(_) =>
      case RetainManifests(q, seen, _) => AdvanceLeavesLess(s, digest, seen.listing, keys);
      case RetainReleases(r, seen, _, _) => AdvanceLeavesLess(s, digest, seen.listing, keys);
    }
  }

  /** How many accepted requests there are among the events from `m` to `n`. */
  function Requests(events: seq<Event>, m: nat, n: nat): nat
    requires m <= n <= |events|
    decreases n
  {
    if m == n then 0 else Requests(events, m, n - 1) + if events[n - 1].Other? then 0 else 1
  }

  /** The ids of the manifests stored at any time from `m` to `n` are among `keys`. */
  ghost predicate StoredAmong(events: seq<Event>, m: nat, n: nat, keys: set<Key>)
    requires m <= n <= |events| && Runs(events, n)
    decreases n
  {
    Run(events, n).world.documents.Keys <= keys && (m < n ==> StoredAmong(events, m, n - 1, keys))
  }

  lemma {:induction false} RequestsMakeProgress(events: seq<Event>, m: nat, n: nat, digest: Key, keys: set<Key>)
    requires m <= n <= |events| && Runs(events, n) && Runs(events, m) && StoredAmong(events, m, n, keys)
    requires forall k :: m <= k < n ==> SameSnapshot(events[k], digest)
    ensures var todo := ToDo(Run(events, n).audit, digest, keys);
            todo == 0 || todo + Requests(events, m, n) <= ToDo(Run(events, m).audit, digest, keys)
    decreases n
  {
    if m < n {
      RequestsMakeProgress(events, m, n - 1, digest, keys);
      RunKeepsInv(events, n - 1);
      EventLeavesLess(Run(events, n - 1), events[n - 1], digest, keys);
    }
  }

  lemma ToDoIsBounded(audit: Option<Audit>, digest: Key, keys: set<Key>)
    ensures ToDo(audit, digest, keys) <= 2 * |keys| + 3
    ensures ToDo(audit, digest, keys) == 0 ==>
              audit.Some? && audit.value.digest == digest && audit.value.progress.complete
  {
    if audit.Some? && audit.value.digest == digest {
      SubsetSize(Above(keys, audit.value.progress.cursor), keys);
    }
  }

  /**
   * The audit completes: whatever publications come in between, once as many requests of one proof
   * snapshot were accepted as twice the number of manifests ever stored meanwhile, and three more, the
   * audit of that snapshot is complete.
   */
  lemma AuditCompletes(events: seq<Event>, m: nat, n: nat, digest: Key, keys: set<Key>)
    requires m <= n <= |events| && Runs(events, n) && StoredAmong(events, m, n, keys)
    requires forall k :: m <= k < n ==> SameSnapshot(events[k], digest)
    requires Requests(events, m, n) >= 2 * |keys| + 3
    ensures Run(events, n).audit.Some?
    ensures Run(events, n).audit.value.digest == digest && Run(events, n).audit.value.progress.complete
  {
    RunsBefore(events, m, n);
    RequestsMakeProgress(events, m, n, digest, keys);
    ToDoIsBounded(Run(events, m).audit, digest, keys);
    ToDoIsBounded(Run(events, n).audit, digest, keys);
  }

  // ----- When the second selection refuses -----

  lemma {:induction false} RowsLeftMembers(rows: seq<Row>, chosen: Row, gone: bool)
    ensures forall x :: x in RowsLeft(rows, chosen, gone) <==>
                        (x in rows && x != chosen)
                        || (!gone && chosen in rows && x == chosen.(lifecycle := M.Retiring(chosen.lifecycle)))
  {
    if rows != [] {
      assert rows == rows[..|rows| - 1] + [rows[|rows| - 1]];
      RowsLeftMembers(rows[..|rows| - 1], chosen, gone);
    }
  }

  lemma EarlierIsBefore(rows: seq<Row>, x: Row)
    requires Listing(rows) && rows != [] && x in rows[..|rows| - 1]
    ensures Before(x, rows[|rows| - 1]) && x.id != rows[|rows| - 1].id
  {
    var i :| 0 <= i < |rows| - 1 && rows[..|rows| - 1][i] == x;
    assert rows[i] == x;
  }

  lemma {:induction false} RowsLeftIsAListing(rows: seq<Row>, chosen: Row, gone: bool)
    requires Listing(rows)
    ensures Listing(RowsLeft(rows, chosen, gone))
  {
    if rows != [] {
      var init, last := rows[..|rows| - 1], rows[|rows| - 1];
      RowsLeftIsAListing(init, chosen, gone);
      RowsLeftMembers(init, chosen, gone);
      forall x | x in RowsLeft(init, chosen, gone) ensures Before(x, last) && x.id != last.id {
        EarlierIsBefore(rows, if x in init then x else chosen);
      }
    }
  }

  /** The rows of the second selection are the index of the store that the retirement leaves. */
  lemma RowsLeftAreListed(w: M.World, r: ReleaseRequest, rr: ReleaseReads, chosen: Row)
    requires ReleaseReadsOf(rr, w, r.platform) && chosen in rr.rows
    ensures M.ListsReleases(RowsAfter(w, r, rr, Some(chosen)),
                            M.RetireRelease(w, M.ReleaseId(r.platform, chosen.id), r.maximumDocuments), r.platform)
  {
    var id := M.ReleaseId(r.platform, chosen.id);
    var gone := w.releases[id].owned < r.maximumDocuments;
    RowsLeftIsAListing(rr.rows, chosen, gone);
    RowsLeftMembers(rr.rows, chosen, gone);
    forall x | x in rr.rows && x.id == chosen.id ensures x == chosen {
      var i :| 0 <= i < |rr.rows| && rr.rows[i] == x;
      var k :| 0 <= k < |rr.rows| && rr.rows[k] == chosen;
    }
  }

  lemma ReferencedIsProtected(w: M.World, r: ReleaseRequest, rr: ReleaseReads, e: P.Reference)
    requires e in rr.references
    ensures e.release in ReleaseProtections(w, r, rr)
  {
    assert (e.release, P.RetainedManifestReference) in
           P.ReleaseProtections(rr.rows, r.releases, r.pending, rr.references, M.ActiveId(w), rr.head, r.at);
  }

  predicate FailsAgain(rr: ReleaseReads, protected: set<Key>, x: Row) {
    (x.lifecycle.Retired? && x.id in protected) || (x.lifecycle.Complete? && !rr.nextProven)
  }

  lemma ChoiceIsRetiredOrFree(x: Row, rows: seq<Row>, protected: set<Key>, at: Time)
    ensures IsProviderChoice(Some(x), rows, protected, at) ==> x.lifecycle.Retired? || x.id !in protected
  {
  }

  lemma PassesAgainIff(rr: ReleaseReads, rows: seq<Row>, protected: set<Key>, at: Time)
    requires forall e :: e in rr.references ==> e.release in protected
    ensures forall x: Row :: IsProviderChoice(Some(x), rows, protected, at) ==>
                               (PassesAgain(rr, protected, x) <==> !FailsAgain(rr, protected, x))
  {
    forall x: Row | IsProviderChoice(Some(x), rows, protected, at)
      ensures PassesAgain(rr, protected, x) <==> !FailsAgain(rr, protected, x)
    {
      ChoiceIsRetiredOrFree(x, rows, protected, at);
    }
  }

  /**
   * The second selection refuses a request exactly if what it finds is a retired release that is still
   * protected, or a complete one whose completion record does not hold; a reference never refuses it.
   */
  lemma SecondSelectionRefusesIff(w: M.World, r: ReleaseRequest, rr: ReleaseReads, selected: Option<Row>)
    ensures !Reselects(w, r, rr, selected) <==>
            exists x: Row ::
              && IsProviderChoice(Some(x), RowsAfter(w, r, rr, selected), ReleaseProtections(w, r, rr), r.at)
              && FailsAgain(rr, ReleaseProtections(w, r, rr), x)
  {
    var protected := ReleaseProtections(w, r, rr);
    forall e | e in rr.references ensures e.release in protected {
      ReferencedIsProtected(w, r, rr, e);
    }
    PassesAgainIff(rr, RowsAfter(w, r, rr, selected), protected, r.at);
  }

  // ----- Releases wait for manifests -----

  /** This request of the snapshot met a complete audit and left no removable manifest. */
  ghost predicate Clears(s: State, e: Event, digest: Key)
    requires Enabled(s, e)
  {
    match e
    case Other(_) => false
    case RetainManifests(q, seen, selected) =>
      && q.digest == digest && Advance(s.audit, q.digest, seen.listing).value.progress.complete
      && NothingElse(seen.rows, Protected(s.world, seen, q.external, q.at), q.at, selected)
    case RetainReleases(r, seen, _, _) => r.digest == digest && ManifestsCleared(s.world, r, seen)
  }

  /** One of the first `n` events cleared the manifest phase of this snapshot. */
  ghost predicate ClearedBefore(events: seq<Event>, n: nat, digest: Key)
    requires n <= |events| && Runs(events, n)
  {
    n > 0 && (ClearedBefore(events, n - 1, digest) || Clears(Run(events, n - 1), events[n - 1], digest))
  }

  lemma AdvanceCompletesNothing(audit: Option<Audit>, digest: Key, listing: A.Store)
    requires Advance(audit, digest, listing).Success?
    ensures var next := Advance(audit, digest, listing).value;
            next.digest == digest && (next.manifestPhaseComplete ==> Completed(audit, digest))
  {
  }

  /** The phase becomes complete only at a request that clears it, and stays complete only under one digest. */
  lemma PhaseCompletesWhenCleared(s: State, e: Event, digest: Key)
    requires Enabled(s, e) && !Clears(s, e, digest)
    requires Completed(Next(s, e).audit, digest)
    ensures Completed(s.audit, digest)
  {
    match e {
      case Other(_) =>
      case RetainManifests(q, seen, _) => AdvanceCompletesNothing(s.audit, q.digest, seen.listing);
      case RetainReleases(r, seen, _, _) => AdvanceCompletesNothing(s.audit, r.digest, seen.listing);
    }
  }

  /** The row says that the manifest phase of this snapshot is complete. */
  predicate Completed(audit: Option<Audit>, digest: Key) {
    audit.Some? && audit.value.digest == digest && audit.value.manifestPhaseComplete
  }

  /** A manifest phase that the state row calls complete was cleared by some request of its snapshot. */
  lemma {:induction false} PhaseWasCleared(events: seq<Event>, n: nat, digest: Key)
    requires n <= |events| && Runs(events, n) && Completed(Run(events, n).audit, digest)
    ensures ClearedBefore(events, n, digest)
  {
    if !Clears(Run(events, n - 1), events[n - 1], digest) {
      PhaseCompletesWhenCleared(Run(events, n - 1), events[n - 1], digest);
      PhaseWasCleared(events, n - 1, digest);
    }
  }

  /** The audit of this snapshot is complete, and so is its manifest phase. */
  predicate Finished(audit: Option<Audit>, digest: Key) {
    Completed(audit, digest) && audit.value.progress.complete
  }

  lemma RequestFinishes(s: State, e: Event)
    requires Enabled(s, e) && e.RetainReleases?
    ensures Finished(Next(s, e).audit, e.r.digest)
  {
  }

  lemma RequestLeavesFinished(events: seq<Event>, n: nat)
    requires n < |events| && Runs(events, n + 1) && events[n].RetainReleases?
    ensures Finished(Run(events, n + 1).audit, events[n].r.digest)
  {
    RequestFinishes(Run(events, n), events[n]);
  }

  /**
   * Every accepted provider request, whether or not it retires a release, comes with a complete audit
   * of its own proof snapshot, and it makes or follows a request of that snapshot that left no removable
   * manifest.
   */
  lemma ReleasesWaitForManifests(events: seq<Event>, n: nat)
    requires n < |events| && Runs(events, n + 1) && events[n].RetainReleases?
    ensures Finished(Run(events, n + 1).audit, events[n].r.digest)
    ensures ClearedBefore(events, n + 1, events[n].r.digest)
  {
    RequestLeavesFinished(events, n);
    PhaseWasCleared(events, n + 1, events[n].r.digest);
  }
}
