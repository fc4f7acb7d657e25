/**
 * The retention mutations over the manifest tables, the receipt journal and the retention-state row.
 * Each accepted request is proved to take exactly the step of `RetentionRequests`, and a request is
 * refused only when no such step is possible.
 */
module RetentionStore {
  import opened Prelude
  import opened Lists
  import opened RetentionSelection
  import opened RetentionRequests
  import A = ReferenceAudit
  import I = ManifestInvariants
  import J = RetentionJournal
  import M = ManifestPublication
  import P = RetentionProtection
  import Q = AuditPaging
  import S = ManifestStore

  datatype Refusal =
    | Answered(outcome: J.Outcome) | InvalidReference | ProofIncomplete | Unsafe | RequestInvalid

  class Store {
    const manifests: S.Store
    const journal: J.Journal
    var audit: Option<Audit>

    function State(): State
      reads this, manifests, journal
    {
      RetentionRequests.State(manifests.Rows(), journal.Rows(), audit)
    }

    constructor ()
      ensures fresh(manifests) && fresh(journal) && State() == START && Inv(State())
    {
      manifests := new S.Store();
      journal := new J.Journal();
      audit := None;
    }

    /** `advanceCatalogRetentionReferenceAudit`. */
    method AdvanceAudit(digest: Key, listing: A.Store) returns (r: Result<Audit, Q.Error>)
      requires A.InIndexOrder(listing)
      ensures r == Advance(audit, digest, listing)
    {
      var from := FROM_THE_TOP;
      if audit.Some? && audit.value.digest == digest {
        if audit.value.progress.complete {
          return Success(Audit(digest, Q.Progress(Q.Edges, None, true), audit.value.manifestPhaseComplete));
        }
        from := audit.value.progress;
      }
      var page := A.AuditPage(listing, from);
      if page.Refused? {
        return Refused(page.error);
      }
      return Success(Audit(digest, page.value, false));
    }

    /** What both mutations begin with: replay, the generation check, one audit page. */
    method Begin(call: J.Request, now: Time, digest: Key, seen: Reads) returns (r: Result<Audit, Refusal>)
      requires I.Inv(manifests.Rows()) && A.Listing(seen.listing, manifests.Rows())
      ensures r.Success? <==> Executes(State(), call, now) && Advance(audit, digest, seen.listing).Success?
      ensures r.Success? ==> r.value == Advance(audit, digest, seen.listing).value
    {
      var answer := journal.Admit(call);
      if answer.Some? {
        assert J.Step(journal.Rows(), call, now) == (journal.Rows(), answer.value);
        return Refused(Answered(answer.value));
      }
      A.ListingIsExact(seen.listing, manifests.Rows());
      var advanced := AdvanceAudit(digest, seen.listing);
      return if advanced.Refused? then Refused(InvalidReference) else Success(advanced.value);
    }

    /** The manifest half of `buildCatalogRetentionGraph`. */
    method BuildGraph(seen: Reads, external: seq<P.Protection>, at: Time) returns (r: Result<set<Key>, Refusal>)
      requires I.Inv(manifests.Rows()) && M.ListsDocuments(seen.rows, manifests.Rows())
      ensures r.Success? <==> GraphBuilds(manifests.Rows(), seen, external, at)
      ensures r.Success? ==> r.value == Protected(manifests.Rows(), seen, external, at)
    {
      if !seen.proven {
        return Refused(ProofIncomplete);
      }
      PointersAreListed(manifests.Rows(), seen.rows);
      var active, previous := M.ActiveId(manifests.Rows()), M.PreviousId(manifests.Rows());
      var entries := P.BuildManifestProtections(seen.rows, external, active, previous, seen.heat, at);
      if entries.Refused? {
        return Refused(Unsafe);
      }
      return Success(P.Ids(entries.value));
    }

    /** Whether anything but the selected row can still be removed. */
    method NoneLeft(rows: seq<Row>, protected: set<Key>, at: Time, selected: Option<Row>) returns (ok: bool)
      requires Listing(rows) && |protected| <= P.MAX_PROTECTED
      ensures ok == NothingElse(rows, protected, at, selected)
    {
      FilteredListing(rows, (x: Row) => selected != Some(x));
      var rest := Filter(rows, (x: Row) => selected != Some(x));
      var next := SelectRemovable(rest, protected, P.MAX_PROTECTED, at);
      return next.None?;
    }

    /**
     * Everything `retainManifests` decides before its first write; the third part says that nothing else
     * is removable.
     */
    method DecideManifests(q: ManifestRequest, seen: Reads) returns (r: Result<(Audit, Option<Row>, bool), Refusal>)
      requires I.Inv(manifests.Rows()) && ReadsOf(seen, manifests.Rows())
      ensures r.Success? ==> Enabled(State(), Event.RetainManifests(q, seen, r.value.1))
      ensures r.Success? ==> r.value.0 == Advance(audit, q.digest, seen.listing).value
      ensures r.Success? ==>
                r.value.2 == NothingElse(seen.rows, Protected(manifests.Rows(), seen, q.external, q.at), q.at,
                                         r.value.1)
      ensures r.Refused? ==> forall x :: !Enabled(State(), Event.RetainManifests(q, seen, x))
    {
      var advanced := Begin(q.call, q.now, q.digest, seen);
      if advanced.Refused? {
        return Refused(advanced.error);
      }
      var graph := BuildGraph(seen, q.external, q.at);
      if graph.Refused? {
        return Refused(graph.error);
      }
      var selected: Option<Row> := None;
      if advanced.value.progress.complete {
        selected := SelectRemovable(seen.rows, graph.value, P.MAX_PROTECTED, q.at);
        if selected.Some? && |manifests.documents[selected.value.id].manifest.references| + 1 > q.maximumDocuments {
          OtherSelectionsAreNone(manifests.Rows(), q, seen, selected.value);
          return Refused(RequestInvalid);
        }
      }
      var cleared := NoneLeft(seen.rows, graph.value, q.at, selected);
      return Success((advanced.value, selected, cleared));
    }

    /** The writes of `retainManifests`: the selected manifest and its edges go, the journal and the row advance. */
    method Commit(selected: Option<Row>, call: J.Request, now: Time, next: Audit)
      requires Inv(State()) && Executes(State(), call, now)
      requires selected.Some? ==> selected.value.id in manifests.documents
      modifies this, manifests, journal
      ensures manifests.Rows() ==
              if selected.Some? then M.WithoutManifest(old(manifests.Rows()), selected.value.id)
              else old(manifests.Rows())
      ensures journal.Rows() == J.Step(old(journal.Rows()), call, now).0 && audit == Some(next)
    {
      if selected.Some? {
        I.StoredEdgesAreExact(manifests.Rows(), selected.value.id);
        manifests.DeleteWithEdges(selected.value.id);
      }
      var outcome := journal.Record(call, now);
      audit := Some(next);
    }

    /**
     * `retainManifests`: one audit page, and once the audit is complete the deletion of the least
     * removable manifest.
     */
    method RetainManifests(q: ManifestRequest, seen: Reads) returns (r: Result<Option<Row>, Refusal>)
      requires Inv(State()) && ReadsOf(seen, manifests.Rows())
      modifies this, manifests, journal
      ensures r.Success? ==> Enabled(old(State()), Event.RetainManifests(q, seen, r.value))
      ensures r.Success? ==> State() == Next(old(State()), Event.RetainManifests(q, seen, r.value))
      ensures r.Refused? ==> State() == old(State())
      ensures r.Refused? ==> forall x :: !Enabled(old(State()), Event.RetainManifests(q, seen, x))
    {
      var decision := DecideManifests(q, seen);
      if decision.Refused? {
        return Refused(decision.error);
      }
      var (advanced, selected, cleared) := decision.value;
      Commit(selected, q.call, q.now, advanced.(manifestPhaseComplete := advanced.progress.complete && cleared));
      return Success(selected);
    }

    /** The provider half of `buildCatalogRetentionGraph`. */
    method BuildReleaseGraph(q: ReleaseRequest, rr: ReleaseReads) returns (r: Result<set<Key>, Refusal>)
      requires ReleaseReadsOf(rr, manifests.Rows(), q.platform)
      ensures r.Success? <==>
              && |rr.references| <= P.MAX_PROTECTED && P.Resolves(rr.rows, rr.head)
              && |ReleaseProtections(manifests.Rows(), q, rr)| <= P.MAX_PROTECTED_RELEASES
      ensures r.Success? ==> r.value == ReleaseProtections(manifests.Rows(), q, rr)
    {
      if |rr.references| > P.MAX_PROTECTED {
        return Refused(InvalidReference);
      }
      var active := M.ActiveId(manifests.Rows());
      var entries :=
        P.BuildProviderProtections(rr.rows, q.releases, q.pending, rr.references, active, rr.head, q.at);
      if entries.Refused? {
        return Refused(Unsafe);
      }
      return Success(P.Ids(entries.value));
    }

    /** The first selection, with the checks of `retireProviderCandidate`. */
    method ChooseRelease(q: ReleaseRequest, rr: ReleaseReads, protected: set<Key>)
      returns (r: Result<Option<Row>, Refusal>)
      requires Listing(rr.rows) && |rr.references| <= P.MAX_PROTECTED && P.Resolves(rr.rows, rr.head)
      requires protected == ReleaseProtections(manifests.Rows(), q, rr) && |protected| <= P.MAX_PROTECTED_RELEASES
      ensures r.Success? ==> SelectsRelease(manifests.Rows(), q, rr, r.value)
      ensures r.Refused? ==> forall x :: !SelectsRelease(manifests.Rows(), q, rr, x)
    {
      ghost var w := manifests.Rows();
      var referenced := set x | x in rr.references :: x.release;
      var choice := SelectProvider(rr.rows, protected, referenced, P.MAX_PROTECTED_RELEASES, q.at);
      if choice.Refused? {
        ghost var c: Row :| IsProviderChoice(Some(c), rr.rows, protected, q.at)
                            && (c.id in protected || c.id in referenced);
        OtherChoicesAreNone(w, q, rr, c);
        return Refused(Unsafe);
      }
      var selected := choice.value;
      if selected.Some? && (rr.head == Some(selected.value.id) || !rr.proven) {
        OtherChoicesAreNone(w, q, rr, selected.value);
        return Refused(Unsafe);
      }
      return Success(selected);
    }

    /** The second selection, over the rows the retirement leaves. */
    method SelectAgain(q: ReleaseRequest, rr: ReleaseReads, protected: set<Key>, selected: Option<Row>)
      returns (ok: bool)
      requires Listing(rr.rows) && protected == ReleaseProtections(manifests.Rows(), q, rr)
      requires |protected| <= P.MAX_PROTECTED_RELEASES
      ensures ok == Reselects(manifests.Rows(), q, rr, selected)
    {
      var rows := RowsAfter(manifests.Rows(), q, rr, selected);
      RowsAfterIsAListing(manifests.Rows(), q, rr, selected);
      var referenced := set x | x in rr.references :: x.release;
      var next := SelectProvider(rows, protected, referenced, P.MAX_PROTECTED_RELEASES, q.at);
      if next.Refused? {
        ghost var c: Row :| IsProviderChoice(Some(c), rows, protected, q.at)
                            && (c.id in protected || c.id in referenced);
        assert !PassesAgain(rr, protected, c);
        return false;
      }
      ChoiceIsOne(next.value, rows, protected, q.at);
      return next.value.None? || !next.value.value.lifecycle.Complete? || rr.nextProven;
    }

    /** Graph and both selections. */
    method DecideRelease(q: ReleaseRequest, rr: ReleaseReads) returns (r: Result<Option<Row>, Refusal>)
      requires ReleaseReadsOf(rr, manifests.Rows(), q.platform)
      ensures r.Success? ==>
                SelectsRelease(manifests.Rows(), q, rr, r.value) && Reselects(manifests.Rows(), q, rr, r.value)
      ensures r.Refused? ==>
                forall x :: SelectsRelease(manifests.Rows(), q, rr, x) ==> !Reselects(manifests.Rows(), q, rr, x)
    {
      var protected := BuildReleaseGraph(q, rr);
      if protected.Refused? {
        return Refused(protected.error);
      }
      r := ChooseRelease(q, rr, protected.value);
      if r.Refused? {
        return;
      }
      var again := SelectAgain(q, rr, protected.value, r.value);
      if !again {
        SelectionIsOne(manifests.Rows(), q, rr, r.value);
        return Refused(Unsafe);
      }
    }

    /** Everything `retainProviderReleases` decides before its first write. */
    method DecideReleases(q: ReleaseRequest, seen: Reads, rr: ReleaseReads)
      returns (r: Result<(Audit, Option<Row>), Refusal>)
      requires I.Inv(manifests.Rows()) && ReadsOf(seen, manifests.Rows())
      requires ReleaseReadsOf(rr, manifests.Rows(), q.platform)
      ensures r.Success? ==> Enabled(State(), Event.RetainReleases(q, seen, rr, r.value.1))
      ensures r.Success? ==> r.value.0 == Advance(audit, q.digest, seen.listing).value
      ensures r.Refused? ==> forall x :: !Enabled(State(), Event.RetainReleases(q, seen, rr, x))
    {
      var advanced := Begin(q.call, q.now, q.digest, seen);
      if advanced.Refused? {
        return Refused(advanced.error);
      }
      if !advanced.value.progress.complete {
        return Refused(ProofIncomplete);
      }
      var graph := BuildGraph(seen, q.external, q.at);
      if graph.Refused? {
        return Refused(graph.error);
      }
      if !advanced.value.manifestPhaseComplete {
        var cleared := NoneLeft(seen.rows, graph.value, q.at, None);
        if !cleared {
          return Refused(Unsafe);
        }
      }
      var selected := DecideRelease(q, rr);
      if selected.Refused? {
        return Refused(selected.error);
      }
      return Success((advanced.value, selected.value));
    }

    /** The writes of `retainProviderReleases`. */
    method CommitRelease(q: ReleaseRequest, selected: Option<Row>, next: Audit)
      requires Inv(State()) && Executes(State(), q.call, q.now)
      requires selected.Some? ==> M.ReleaseId(q.platform, selected.value.id) in manifests.releases
      modifies this, manifests, journal
      ensures manifests.Rows() ==
              if selected.Some? then
                M.RetireRelease(old(manifests.Rows()), M.ReleaseId(q.platform, selected.value.id), q.maximumDocuments)
              else old(manifests.Rows())
      ensures journal.Rows() == J.Step(old(journal.Rows()), q.call, q.now).0 && audit == Some(next)
    {
      if selected.Some? {
        manifests.Retire(M.ReleaseId(q.platform, selected.value.id), q.maximumDocuments);
      }
      var outcome := journal.Record(q.call, q.now);
      audit := Some(next);
    }

    /**
     * `retainProviderReleases`: only with a complete audit and no removable manifest, retires the
     * chosen release and deletes what the request allows of it.
     */
    method RetainReleases(q: ReleaseRequest, seen: Reads, rr: ReleaseReads) returns (r: Result<Option<Row>, Refusal>)
      requires Inv(State()) && ReadsOf(seen, manifests.Rows()) && ReleaseReadsOf(rr, manifests.Rows(), q.platform)
      modifies this, manifests, journal
      ensures r.Success? ==> Enabled(old(State()), Event.RetainReleases(q, seen, rr, r.value))
      ensures r.Success? ==> State() == Next(old(State()), Event.RetainReleases(q, seen, rr, r.value))
      ensures r.Refused? ==> State() == old(State())
      ensures r.Refused? ==> forall x :: !Enabled(old(State()), Event.RetainReleases(q, seen, rr, x))
    {
      var decision := DecideReleases(q, seen, rr);
      if decision.Refused? {
        return Refused(decision.error);
      }
      var selected := decision.value.1;
      CommitRelease(q, selected, decision.value.0.(manifestPhaseComplete := true));
      return Success(selected);
    }
  }

  lemma PointersAreListed(w: M.World, rows: seq<Row>)
    requires I.Inv(w) && M.ListsDocuments(rows, w)
    ensures P.Resolves(rows, M.ActiveId(w)) && P.Resolves(rows, M.PreviousId(w))
  {
    forall pointer | pointer in {M.ActiveId(w), M.PreviousId(w)} && pointer.Some? ensures P.Resolves(rows, pointer) {
      var id := pointer.value;
      assert Row(id, w.documents[id].lifecycle, w.documents[id].eligibleAt) in rows;
    }
  }

  /** What is least is the only least. */
  lemma LeastIsOne(a: Row, found: Option<Row>, rows: seq<Row>, p: Row -> bool)
    requires IsLeast(Some(a), rows, p) && IsLeast(found, rows, p)
    ensures found == Some(a)
  {
  }

  lemma OtherSelectionsAreNone(w: M.World, q: ManifestRequest, seen: Reads, least: Row)
    requires IsLeast(Some(least), seen.rows, (x: Row) => Removable(x, Protected(w, seen, q.external, q.at), q.at))
    ensures forall x :: SelectsManifest(w, q, seen, true, x) ==> x == Some(least)
  {
    forall x | SelectsManifest(w, q, seen, true, x) ensures x == Some(least) {
      LeastIsOne(least, x, seen.rows, (x: Row) => Removable(x, Protected(w, seen, q.external, q.at), q.at));
    }
  }

  lemma ChoiceIsOne(choice: Option<Row>, rows: seq<Row>, protected: set<Key>, at: Time)
    requires IsProviderChoice(choice, rows, protected, at)
    ensures forall x :: IsProviderChoice(x, rows, protected, at) ==> x == choice
  {
    forall x | IsProviderChoice(x, rows, protected, at) ensures x == choice {
      var p: Row -> bool :=
        if exists r :: r in rows && r.lifecycle.Retired? then (r: Row) => r.lifecycle.Retired?
        else (r: Row) => Removable(r, protected, at);
      if choice.Some? {
        LeastIsOne(choice.value, x, rows, p);
      } else if x.Some? {
        LeastIsOne(x.value, choice, rows, p);
      }
    }
  }

  lemma OtherChoicesAreNone(w: M.World, q: ReleaseRequest, rr: ReleaseReads, choice: Row)
    requires IsProviderChoice(Some(choice), rr.rows, ReleaseProtections(w, q, rr), q.at)
    ensures forall x :: SelectsRelease(w, q, rr, x) ==> x == Some(choice)
  {
    ChoiceIsOne(Some(choice), rr.rows, ReleaseProtections(w, q, rr), q.at);
  }

  lemma SelectionIsOne(w: M.World, q: ReleaseRequest, rr: ReleaseReads, selected: Option<Row>)
    requires SelectsRelease(w, q, rr, selected)
    ensures forall x :: SelectsRelease(w, q, rr, x) ==> x == selected
  {
    ChoiceIsOne(selected, rr.rows, ReleaseProtections(w, q, rr), q.at);
  }

  lemma RowsAfterIsAListing(w: M.World, q: ReleaseRequest, rr: ReleaseReads, selected: Option<Row>)
    requires Listing(rr.rows)
    ensures Listing(RowsAfter(w, q, rr, selected))
  {
    if selected.Some? {
      var id := M.ReleaseId(q.platform, selected.value.id);
      RowsLeftIsAListing(rr.rows, selected.value, id in w.releases && w.releases[id].owned < q.maximumDocuments);
    }
  }
}
