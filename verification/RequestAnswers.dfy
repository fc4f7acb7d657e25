/**
 * What a retention request answers and what it leaves, for every branch: when the receipt journal
 * replays, refuses or executes it and which receipts it prunes, and in a reachable store exactly which
 * manifest and provider requests are accepted. Everything is stated on the rows.
 */
module RequestAnswers {
  import opened Prelude
  import opened RetentionSelection
  import opened RetentionRequests
  import opened ProtectionAnswers
  import A = ReferenceAudit
  import I = ManifestInvariants
  import J = RetentionJournal
  import M = ManifestPublication
  import P = RetentionProtection
  import Q = AuditPaging

  // ----- The receipt journal -----

  /** The row was stored for this operation id, or for this key and kind. */
  predicate Shares(row: J.Row, q: J.Request) {
    || row.request.operationId == q.operationId
    || (row.request.kind == q.kind && row.request.idempotencyKey == q.idempotencyKey)
  }

  predicate Fresh(w: J.World, q: J.Request) {
    forall row :: row in w.rows ==> !Shares(row, q)
  }

  predicate Answered(w: J.World, q: J.Request) {
    exists row :: row in w.rows && row.request == q
  }

  lemma JournalAnswers(w: J.World, q: J.Request, now: Time)
    requires J.Inv(w)
    ensures var (w', r) := J.Step(w, q, now);
            && (r.Replayed? <==> Answered(w, q))
            && (r.Replayed? ==> r.row in w.rows && r.row.request == q)
            && (r.OperationConflict? <==> !Fresh(w, q) && !Answered(w, q))
            && (r.PredecessorConflict? <==> Fresh(w, q) && w.generation != q.expectedGeneration)
            && (r.Executed? <==> Fresh(w, q) && w.generation == q.expectedGeneration)
            && (if r.Executed? then w'.generation == w.generation + 1 else w' == w)
  {
    forall row: J.Row ensures Shares(row, q) <==> J.SameOperation(row, q) || J.SameKey(row, q) {
    }
    if row :| row in w.rows && row.request == q {
      J.ExactReplayReturnsTheReceipt(w, q, now, row);
    }
  }

  /** A week after it was completed a receipt may go. */
  predicate PastItsTime(row: J.Row, now: Time) {
    row.completedAt + 604_800_000 <= now
  }

  /** The first `expired` receipts, and no others, are past their time. */
  predicate ExpiredUpTo(rows: seq<J.Row>, now: Time, expired: nat) {
    expired <= |rows| && forall i :: 0 <= i < |rows| ==> (PastItsTime(rows[i], now) <==> i < expired)
  }

  function AtMost(a: int, b: int): int {
    if a <= b then a else b
  }

  /** The larger of the expired receipts and those beyond the hundred and twenty-seventh, but no more than ten. */
  function Pruned(rows: seq<J.Row>, expired: nat): int {
    AtMost(10, if expired <= |rows| - 127 then |rows| - 127 else expired)
  }

  lemma ExpiredAreCounted(rows: seq<J.Row>, now: Time, expired: nat)
    requires J.Ordered(rows) && ExpiredUpTo(rows, now, expired)
    ensures J.ExpiredCount(rows, now) == expired
  {
    J.ExpiredComeFirst(rows, now);
    var n := J.ExpiredCount(rows, now);
    assert n < |rows| ==> (PastItsTime(rows[n], now) <==> n < expired);
    assert expired < |rows| ==> (J.Expired(rows[expired], now) <==> expired < n);
  }

  lemma NoneIsExpired(rows: seq<J.Row>, now: Time)
    requires J.Ordered(rows)
    ensures J.ExpiredCount(rows, now) == 0 <==> forall row :: row in rows ==> !PastItsTime(row, now)
  {
    J.ExpiredComeFirst(rows, now);
    if J.ExpiredCount(rows, now) > 0 {
      assert PastItsTime(rows[0], now) && rows[0] in rows;
    }
  }

  /**
   * An executed request deletes the oldest receipts, stores its own under the next generation, and
   * says whether another would find more to delete.
   */
  lemma ExecutionPrunes(w: J.World, q: J.Request, now: Time, expired: nat)
    requires J.Inv(w) && J.Step(w, q, now).1.Executed? && ExpiredUpTo(w.rows, now, expired)
    ensures var (w', r) := J.Step(w, q, now);
            && r.deleted == Pruned(w.rows, expired) <= |w.rows|
            && multiset(w'.rows) == multiset(w.rows[r.deleted..]) + multiset{J.Row(q, w.generation + 1, now)}
            && (forall i, j :: 0 <= i < j < |w'.rows| ==> w'.rows[i].completedAt <= w'.rows[j].completedAt)
            && (r.hasMore <==>
                |w.rows| - r.deleted >= 128 || exists row :: row in w.rows[r.deleted..] && PastItsTime(row, now))
  {
    ExpiredAreCounted(w.rows, now, expired);
    J.SurvivingKeeps(w.rows, now);
    J.InsertKeeps(J.Surviving(w.rows, now), J.Row(q, w.generation + 1, now));
    NoneIsExpired(J.Surviving(w.rows, now), now);
  }

  lemma Executing(s: State, call: J.Request, now: Time)
    requires J.Inv(s.journal)
    ensures Executes(s, call, now) <==> Fresh(s.journal, call) && s.journal.generation == call.expectedGeneration
  {
    JournalAnswers(s.journal, call, now);
  }

  // ----- The audit -----

  /** The stored record is of this snapshot. */
  predicate Continues(audit: Option<Audit>, digest: Key) {
    audit.Some? && audit.value.digest == digest
  }

  /** A complete audit is kept with its manifest phase; otherwise one page follows, from the top under a new digest. */
  lemma AuditGoesOn(audit: Option<Audit>, digest: Key, listing: A.Store)
    ensures var r := Advance(audit, digest, listing);
            if Continues(audit, digest) && audit.value.progress.complete then
              r.Success? && r.value.digest == digest && r.value.progress.complete
              && r.value.manifestPhaseComplete == audit.value.manifestPhaseComplete
            else
              var page := A.AuditStep(listing, if Continues(audit, digest) then audit.value.progress
                                               else Q.Progress(Q.Manifests, None, false));
              && (r.Success? <==> page.Success?)
              && (r.Success? ==> r.value == Audit(digest, page.value, false))
  {
  }

  // ----- Manifest requests -----

  /** The manifests kept: at most forty, under a proof that holds. */
  ghost predicate KeepsFew(w: M.World, seen: Reads, external: seq<P.Protection>, at: Time) {
    seen.proven && |Protected(w, seen, external, at)| <= 40
  }

  ghost function AuditAfter(s: State, digest: Key, seen: Reads): Audit
    requires Inv(s) && A.Listing(seen.listing, s.world)
  {
    AdvanceIsAccepted(s, digest, seen.listing);
    Advance(s.audit, digest, seen.listing).value
  }

  /** What a manifest request takes: nothing before the audit is complete, then the oldest that may go. */
  ghost predicate Takes(s: State, q: ManifestRequest, seen: Reads, complete: bool, selected: Option<Row>) {
    if !complete then selected.None?
    else
      && IsOldest(selected, seen.rows, Protected(s.world, seen, q.external, q.at), q.at)
      && (selected.Some? ==>
            && selected.value.id in s.world.documents
            && |s.world.documents[selected.value.id].manifest.references| < q.maximumDocuments)
  }

  lemma TakesIsSelected(s: State, q: ManifestRequest, seen: Reads, complete: bool, selected: Option<Row>)
    ensures SelectsManifest(s.world, q, seen, complete, selected) <==> Takes(s, q, seen, complete, selected)
  {
    SelectionTakesTheOldest(selected, seen.rows, Protected(s.world, seen, q.external, q.at), q.at);
  }

  /** After every run a manifest request is accepted exactly if it executes, keeps few and takes what it must. */
  lemma ManifestRequestAnswers(s: State, q: ManifestRequest, seen: Reads, selected: Option<Row>)
    requires Inv(s) && ReadsOf(seen, s.world)
    ensures Enabled(s, RetainManifests(q, seen, selected)) <==>
            && Fresh(s.journal, q.call) && s.journal.generation == q.call.expectedGeneration
            && KeepsFew(s.world, seen, q.external, q.at)
            && Takes(s, q, seen, AuditAfter(s, q.digest, seen).progress.complete, selected)
  {
    Executing(s, q.call, q.now);
    AdvanceIsAccepted(s, q.digest, seen.listing);
    TakesIsSelected(s, q, seen, AuditAfter(s, q.digest, seen).progress.complete, selected);
  }

  lemma NothingElseMayGo(rows: seq<Row>, protected: set<Key>, at: Time, selected: Option<Row>)
    ensures NothingElse(rows, protected, at, selected) <==>
            forall x :: x in rows && MayGo(x, protected, at) ==> selected == Some(x)
  {
    forall r: Row ensures Removable(r, protected, at) <==> MayGo(r, protected, at) {
    }
  }

  /** The store without manifest `id`, if one is given: its document and its edges are gone, and nothing else. */
  ghost predicate Without(w: M.World, w': M.World, id: Option<Key>) {
    && w'.documents.Keys == (if id.Some? then w.documents.Keys - {id.value} else w.documents.Keys)
    && (forall x :: x in w'.documents ==> x in w.documents && w'.documents[x] == w.documents[x])
    && (forall e :: e in w'.edges <==> e in w.edges && (id.Some? ==> e.manifest != id.value))
    && w' == w.(documents := w'.documents, edges := w'.edges)
  }

  lemma DeletionLeaves(w: M.World, id: Key)
    ensures Without(w, M.WithoutManifest(w, id), Some(id))
  {
  }

  lemma NothingIsDeleted(w: M.World)
    ensures Without(w, w, None)
  {
  }

  /** It deletes exactly the selected manifest, with its edges. */
  lemma ManifestRequestDeletes(s: State, q: ManifestRequest, seen: Reads, selected: Option<Row>)
    requires Enabled(s, RetainManifests(q, seen, selected))
    ensures Without(s.world, Next(s, RetainManifests(q, seen, selected)).world,
                    if selected.Some? then Some(selected.value.id) else None)
  {
    NothingIsDeleted(s.world);
    if selected.Some? {
      DeletionLeaves(s.world, selected.value.id);
    }
  }

  /** The receipt and the audit a manifest request leaves, with the question it asks of the rows. */
  lemma ManifestRequestRecords(s: State, q: ManifestRequest, seen: Reads, selected: Option<Row>, a: Audit)
    requires Enabled(s, RetainManifests(q, seen, selected)) && Advance(s.audit, q.digest, seen.listing) == Success(a)
    ensures var s' := Next(s, RetainManifests(q, seen, selected));
            var cleared := NothingElse(seen.rows, Protected(s.world, seen, q.external, q.at), q.at, selected);
            && s'.journal == J.Step(s.journal, q.call, q.now).0
            && s'.audit == Some(Audit(q.digest, a.progress, a.progress.complete && cleared))
  {
  }

  /** Its receipt is recorded; the manifest phase is settled once the audit is complete and nothing else may go. */
  lemma ManifestRequestLeaves(s: State, q: ManifestRequest, seen: Reads, selected: Option<Row>, a: Audit)
    requires Enabled(s, RetainManifests(q, seen, selected)) && Advance(s.audit, q.digest, seen.listing) == Success(a)
    ensures var s' := Next(s, RetainManifests(q, seen, selected));
            var kept := Protected(s.world, seen, q.external, q.at);
            var settled :=
              a.progress.complete && forall x :: x in seen.rows && MayGo(x, kept, q.at) ==> selected == Some(x);
            s'.journal == J.Step(s.journal, q.call, q.now).0 && s'.audit == Some(Audit(q.digest, a.progress, settled))
  {
    ManifestRequestRecords(s, q, seen, selected, a);
    NothingElseMayGo(seen.rows, Protected(s.world, seen, q.external, q.at), q.at, selected);
  }

  // ----- Provider requests -----

  /** A release is kept exactly for its proof, attempts, edges, the active manifest, the head or an allowance. */
  lemma ReleasesAreKept(w: M.World, r: ReleaseRequest, rr: ReleaseReads, id: Key)
    ensures id in ReleaseProtections(w, r, rr) <==>
            exists reason :: (id, reason) in P.ReleaseProtections(rr.rows, r.releases, r.pending, rr.references,
                                                                  M.ActiveId(w), rr.head, r.at)
    ensures rr.head == Some(id) || id in r.pending || (exists e :: e in rr.references && e.release == id)
            || (exists p :: p in r.releases && p.id == id) ==>
              id in ReleaseProtections(w, r, rr)
  {
    var kept := P.ReleaseProtections(rr.rows, r.releases, r.pending, rr.references, M.ActiveId(w), rr.head, r.at);
    if reason :| (id, reason) in kept {
      assert (id, reason).0 in P.Ids(kept);
    }
    assert rr.head == Some(id) ==> (id, P.CompletedHead) in kept;
    assert id in r.pending ==> (id, P.InFlightAttempt) in kept;
    assert forall e :: e in rr.references ==> (e.release, P.RetainedManifestReference) in kept;
    assert forall p :: p in r.releases ==> (p.id, P.External(p.code)) in kept;
  }

  /** The chosen release is listed and nothing stands in its way. */
  ghost predicate Unneeded(rr: ReleaseReads, protected: set<Key>, id: Key) {
    && id !in protected && rr.head != Some(id) && rr.proven
    && forall i :: 0 <= i < |rr.references| ==> rr.references[i].release != id
  }

  predicate HeadIsComplete(rr: ReleaseReads) {
    rr.head.Some? ==> exists x :: x in rr.rows && x.id == rr.head.value && x.lifecycle == Complete
  }

  lemma HeadResolves(rr: ReleaseReads)
    ensures P.Resolves(rr.rows, rr.head) <==> HeadIsComplete(rr)
  {
    PointersResolve(rr.rows, rr.head);
  }

  lemma UnneededMayRetire(rr: ReleaseReads, protected: set<Key>, x: Row)
    requires x in rr.rows
    ensures MayRetire(rr, protected, x.id) <==> Unneeded(rr, protected, x.id)
  {
    if Unneeded(rr, protected, x.id) {
      forall e | e in rr.references ensures e.release != x.id {
        var i :| 0 <= i < |rr.references| && rr.references[i] == e;
      }
    }
  }

  /** What a provider request takes: the next release, if nothing stands in its way. */
  ghost predicate TakesRelease(s: State, r: ReleaseRequest, rr: ReleaseReads, selected: Option<Row>) {
    var protected := ReleaseProtections(s.world, r, rr);
    && |rr.references| <= 40 && |protected| <= 80 && HeadIsComplete(rr)
    && IsNextRelease(selected, rr.rows, protected, r.at)
    && (selected.Some? ==> Unneeded(rr, protected, selected.value.id))
  }

  lemma TakesReleaseIsSelected(s: State, r: ReleaseRequest, rr: ReleaseReads, selected: Option<Row>)
    ensures SelectsRelease(s.world, r, rr, selected) <==> TakesRelease(s, r, rr, selected)
  {
    HeadResolves(rr);
    ProviderTakesRetiredFirst(selected, rr.rows, ReleaseProtections(s.world, r, rr), r.at);
    if selected.Some? && selected.value in rr.rows {
      UnneededMayRetire(rr, ReleaseProtections(s.world, r, rr), selected.value);
    }
  }

  /** Row `x` is listed once the chosen row is gone, or only retired or failed. */
  predicate IsLeft(rows: seq<Row>, chosen: Option<Row>, gone: bool, x: Row) {
    if chosen.None? then x in rows
    else
      || (x in rows && x != chosen.value)
      || (!gone && chosen.value in rows
          && x == chosen.value.(lifecycle := match chosen.value.lifecycle
                                             case Staging => Failed
                                             case Complete => Retired
                                             case other => other))
  }

  /** The release with its rows fits the request's budget. */
  predicate IsEmptied(w: M.World, r: ReleaseRequest, id: Key) {
    M.ReleaseId(r.platform, id) in w.releases && w.releases[M.ReleaseId(r.platform, id)].owned < r.maximumDocuments
  }

  lemma RowsAfterAreLeft(w: M.World, r: ReleaseRequest, rr: ReleaseReads, selected: Option<Row>, x: Row)
    ensures x in RowsAfter(w, r, rr, selected) <==>
            IsLeft(rr.rows, selected, selected.Some? && IsEmptied(w, r, selected.value.id), x)
  {
    if selected.Some? {
      RowsLeftMembers(rr.rows, selected.value, IsEmptied(w, r, selected.value.id));
    }
  }

  /** What the second selection finds is not a protected retired release, nor a complete one without its record. */
  ghost predicate FindsNoFault(s: State, r: ReleaseRequest, rr: ReleaseReads, selected: Option<Row>) {
    var protected := ReleaseProtections(s.world, r, rr);
    forall x: Row :: IsNextRelease(Some(x), RowsAfter(s.world, r, rr, selected), protected, r.at) ==>
                       (x.lifecycle == Retired ==> x.id !in protected) && (x.lifecycle == Complete ==> rr.nextProven)
  }

  lemma FaultsRefuse(s: State, r: ReleaseRequest, rr: ReleaseReads, selected: Option<Row>)
    ensures Reselects(s.world, r, rr, selected) <==> FindsNoFault(s, r, rr, selected)
  {
    var rows, protected := RowsAfter(s.world, r, rr, selected), ReleaseProtections(s.world, r, rr);
    SecondSelectionRefusesIff(s.world, r, rr, selected);
    forall x: Row
      ensures IsProviderChoice(Some(x), rows, protected, r.at) <==> IsNextRelease(Some(x), rows, protected, r.at)
    {
      ProviderTakesRetiredFirst(Some(x), rows, protected, r.at);
    }
  }

  /**
   * After every run a provider request is accepted exactly if it executes, the audit of its snapshot is
   * complete, few manifests are kept and none may go, and both selections hold.
   */
  lemma ReleaseRequestAnswers(s: State, r: ReleaseRequest, seen: Reads, rr: ReleaseReads, selected: Option<Row>)
    requires Inv(s) && ReadsOf(seen, s.world) && ReleaseReadsOf(rr, s.world, r.platform)
    ensures Enabled(s, RetainReleases(r, seen, rr, selected)) <==>
            && Fresh(s.journal, r.call) && s.journal.generation == r.call.expectedGeneration
            && AuditAfter(s, r.digest, seen).progress.complete && KeepsFew(s.world, seen, r.external, r.at)
            && (AuditAfter(s, r.digest, seen).manifestPhaseComplete
                || forall x :: x in seen.rows ==> !MayGo(x, Protected(s.world, seen, r.external, r.at), r.at))
            && TakesRelease(s, r, rr, selected) && FindsNoFault(s, r, rr, selected)
  {
    Executing(s, r.call, r.now);
    AdvanceIsAccepted(s, r.digest, seen.listing);
    NothingElseMayGo(seen.rows, Protected(s.world, seen, r.external, r.at), r.at, None);
    TakesReleaseIsSelected(s, r, rr, selected);
    FaultsRefuse(s, r, rr, selected);
  }

  /** The store with release `id` ended: deleted if its rows fit the budget, else retired or failed with fewer rows. */
  ghost predicate Ended(w: M.World, w': M.World, id: M.ReleaseId, budget: nat) {
    && id in w.releases && w' == w.(releases := w'.releases)
    && w'.releases.Keys == (if w.releases[id].owned < budget then w.releases.Keys - {id} else w.releases.Keys)
    && (forall x :: x in w'.releases && x != id ==> x in w.releases && w'.releases[x] == w.releases[x])
    && (id in w'.releases ==>
          var was, now := w.releases[id], w'.releases[id];
          && now.owned == was.owned - budget && now.proof == was.proof && now.eligibleAt == was.eligibleAt
          && now.lifecycle == match was.lifecycle
                               case Staging => Failed
                               case Complete => Retired
                               case other => other)
  }

  lemma RetirementLeaves(w: M.World, id: M.ReleaseId, budget: nat)
    requires id in w.releases
    ensures Ended(w, M.RetireRelease(w, id, budget), id, budget)
  {
  }

  /** It ends exactly the chosen release, if there is one. */
  lemma ReleaseRequestEnds(s: State, r: ReleaseRequest, seen: Reads, rr: ReleaseReads, selected: Option<Row>)
    requires Enabled(s, RetainReleases(r, seen, rr, selected))
    ensures var w' := Next(s, RetainReleases(r, seen, rr, selected)).world;
            if selected.None? then w' == s.world
            else Ended(s.world, w', M.ReleaseId(r.platform, selected.value.id), r.maximumDocuments)
  {
    if selected.Some? {
      ChosenIsStored(s.world, r, rr, selected.value);
      RetirementLeaves(s.world, M.ReleaseId(r.platform, selected.value.id), r.maximumDocuments);
    }
  }

  lemma ChosenIsStored(w: M.World, r: ReleaseRequest, rr: ReleaseReads, x: Row)
    requires ReleaseReadsOf(rr, w, r.platform) && SelectsRelease(w, r, rr, Some(x))
    ensures M.ReleaseId(r.platform, x.id) in w.releases
  {
  }

  /** Its receipt is recorded, and the manifest phase of its snapshot is settled. */
  lemma ReleaseRequestLeaves(s: State, r: ReleaseRequest, seen: Reads, rr: ReleaseReads, selected: Option<Row>,
                             a: Audit)
    requires Enabled(s, RetainReleases(r, seen, rr, selected)) && Advance(s.audit, r.digest, seen.listing) == Success(a)
    ensures var s' := Next(s, RetainReleases(r, seen, rr, selected));
            s'.journal == J.Step(s.journal, r.call, r.now).0 && s'.audit == Some(Audit(r.digest, a.progress, true))
  {
  }
}
