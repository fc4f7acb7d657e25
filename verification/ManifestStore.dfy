/**
 * The manifest tables as the mutations update them. Each publication method is proved to take
 * exactly the step of `ManifestPublication` for its operation. The deletions are made for retention
 * requests, which choose what to delete.
 */
module ManifestStore {
  import opened Prelude
  import opened RetentionSelection
  import opened ManifestPublication
  import I = ManifestInvariants

  class Store {
    var documents: map<Key, Document>
    var edges: set<Edge>
    var releases: map<ReleaseId, Release>
    var blocks: map<Key, BlockRow>
    var state: Option<Stored>
    var receipts: seq<Receipt>

    function Rows(): World
      reads this
    {
      World(documents, edges, releases, blocks, state, receipts)
    }

    constructor ()
      ensures Rows() == EMPTY && I.Inv(Rows())
    {
      documents, edges, releases, blocks, state, receipts := map[], {}, map[], map[], None, [];
    }

    /**
     * `loadExactCatalogManifestReplay`: none exactly if no stored receipt has either identity of the
     * request. Otherwise its answer is that of the whole request, which then changes nothing: the
     * receipt of this very request, or a conflict; and while identities are unique, the receipt
     * whenever there is one.
     */
    method LoadReplay(op: Op, now: Time) returns (r: Option<Outcome>)
      ensures r.None? <==> forall x :: x in receipts ==> !SameOperation(x, op.call) && !SameKey(x, op.call)
      ensures r.None? ==> Find(receipts, op.call).None?
      ensures r.Some? ==> Step(Rows(), op, now) == (Rows(), r.value)
      ensures r.Some? ==>
                r.value == Declined(OperationConflict)
                || exists x :: x in receipts && x.call == op.call && r.value == Replayed(x)
      ensures I.UniqueReceipts(receipts) ==> forall x :: x in receipts && x.call == op.call ==> r == Some(Replayed(x))
    {
      var found := Find(receipts, op.call);
      I.FindHits(receipts, op.call);
      if found.None? {
        I.FindMisses(receipts, op.call);
        return None;
      }
      if I.UniqueReceipts(receipts) {
        forall x | x in receipts && x.call == op.call ensures x == found.value {
          I.OneReceipt(receipts, x, found.value);
        }
      }
      return Some(if found.value.call == op.call then Replayed(found.value) else Declined(OperationConflict));
    }

    /** `storeCatalogManifestReceipt` and `writeActiveCatalogManifestState`. */
    method WriteState(c: Call, core: Core, activeId: Option<Key>, previousId: Option<Key>, now: Time)
      returns (receipt: Receipt)
      modifies this`receipts, this`state
      ensures receipt == Receipt(c, now, Some(core)) && receipts == old(receipts) + [receipt]
      ensures state == Some(Stored(core, activeId, previousId, c.operationId, receipt))
    {
      receipt := Receipt(c, now, Some(core));
      receipts := receipts + [receipt];
      state := Some(Stored(core, activeId, previousId, c.operationId, receipt));
    }

    /** Inserts a manifest and, one by one, its edges. */
    method InsertManifest(d: Document)
      modifies this`documents, this`edges
      ensures documents == old(documents)[d.manifest.publicId := d]
      ensures edges == old(edges) + EdgesFor(d.manifest)
    {
      documents := documents[d.manifest.publicId := d];
      var references := d.manifest.references;
      for i := 0 to |references|
        invariant documents == old(documents)[d.manifest.publicId := d]
        invariant edges == old(edges) + set r | r in references[..i] :: Edge(d.manifest.publicId, r)
      {
        edges := edges + {Edge(d.manifest.publicId, references[i])};
        assert references[..i + 1] == references[..i] + [references[i]];
      }
      assert references[..|references|] == references;
    }

    method ActivateManifest(op: Op, now: Time) returns (outcome: Outcome)
      requires op.Activate? && Parsed(op)
      modifies this
      ensures (Rows(), outcome) == Step(old(Rows()), op, now)
    {
      var replay := LoadReplay(op, now);
      if replay.Some? {
        return replay.value;
      }
      ghost var w := Rows();
      if !op.manifest.canonical && !op.allowMock {
        return Declined(RequestInvalid);
      }
      var guard := StateGuard(Rows(), op.expected);
      if guard.Some? {
        return Declined(guard.value);
      }
      var before := ActiveDocument(Rows());
      if before.Refused? {
        return Declined(before.error);
      }
      if before.value.Some? && before.value.value.manifest.references == op.manifest.references {
        return Declined(ReferenceSetUnchanged);
      }
      if op.manifest.fingerprint in blocks {
        return Declined(FingerprintBlocked);
      }
      if !op.policy || !Live(Rows(), op.manifest.references) {
        return Declined(PolicyRefused);
      }
      var ensured := EnsureManifest(Rows(), op.manifest, now);
      if ensured.Refused? {
        return Declined(ensured.error);
      }
      var document := ensured.value.0;
      var current, activeId := CoreOf(Rows()), ActiveId(Rows());
      if ensured.value.1 {
        InsertManifest(document);
      }
      var receipt :=
        WriteState(op.call,
                   Core(current.generation + 1, Some(PointerTo(document, now)), current.active, Some(op.observation)),
                                Some(op.manifest.publicId), activeId, now);
      assert ActivateEffect(w, op, now).Success?;
      return Done(receipt);
    }

    method RefreshActiveState(op: Op, now: Time) returns (outcome: Outcome)
      requires op.Refresh? && Parsed(op)
      modifies this
      ensures (Rows(), outcome) == Step(old(Rows()), op, now)
    {
      var replay := LoadReplay(op, now);
      if replay.Some? {
        return replay.value;
      }
      var guard := StateGuard(Rows(), op.expected);
      if guard.Some? {
        return Declined(guard.value);
      }
      var current := CoreOf(Rows());
      if current.active.None? || current.observation.None? || state.None? || state.value.activeId.None? {
        return Declined(StateConflict);
      }
      var found := FindDocument(Rows(), op.target.publicId);
      if found.Refused? {
        return Declined(found.error);
      }
      if found.value.None? || state.value.activeId != Some(found.value.value.manifest.publicId)
         || IdentityOf(found.value.value.manifest) != op.target || !found.value.value.manifest.canonical
      {
        return Declined(IdentityMismatch);
      }
      if op.target.fingerprint in blocks {
        return Declined(FingerprintBlocked);
      }
      if !op.policy || !Live(Rows(), op.target.references) {
        return Declined(PolicyRefused);
      }
      var advances := Advances(current.observation.value, op.observation);
      if !advances {
        return Declined(RefreshStale);
      }
      var receipt :=
        WriteState(op.call, current.(generation := current.generation + 1, observation := Some(op.observation)),
                                state.value.activeId, state.value.previousId, now);
      return Done(receipt);
    }

    /** Selection by selection, none may have moved back. */
    method Advances(previous: seq<Selection>, next: seq<Selection>) returns (ok: bool)
      ensures ok == NoneBehind(previous, next)
    {
      if |previous| != |next| {
        return false;
      }
      for i := 0 to |next|
        invariant forall k :: 0 <= k < i ==> NotBehind(previous[k], next[k])
      {
        if !NotBehind(previous[i], next[i]) {
          return false;
        }
      }
      return true;
    }

    method RollbackManifest(op: Op, now: Time) returns (outcome: Outcome)
      requires op.Rollback? && Parsed(op)
      modifies this
      ensures (Rows(), outcome) == Step(old(Rows()), op, now)
    {
      var replay := LoadReplay(op, now);
      if replay.Some? {
        return replay.value;
      }
      var guard := ActiveGuard(Rows(), op.expected);
      if guard.Some? {
        return Declined(guard.value);
      }
      var found := FindDocument(Rows(), op.target.publicId);
      if found.Refused? {
        return Declined(found.error);
      }
      if found.value.None? || IdentityOf(found.value.value.manifest) != op.target
         || !found.value.value.manifest.canonical
      {
        return Declined(RollbackUnsafe);
      }
      if op.target.fingerprint in blocks {
        return Declined(FingerprintBlocked);
      }
      if !op.policy || !Live(Rows(), op.target.references) {
        return Declined(PolicyRefused);
      }
      var current := CoreOf(Rows());
      var outgoingBlocked := current.active.value.identity.fingerprint in blocks;
      var receipt := WriteState(op.call,
                                Core(current.generation + 1, Some(PointerTo(found.value.value, now)),
                                     if outgoingBlocked then None else current.active, Some(op.observation)),
                                Some(op.target.publicId), if outgoingBlocked then None else state.value.activeId, now);
      return Done(receipt);
    }

    method ClearManifest(op: Op, now: Time) returns (outcome: Outcome)
      requires op.Clear? && Parsed(op)
      modifies this
      ensures (Rows(), outcome) == Step(old(Rows()), op, now)
    {
      var replay := LoadReplay(op, now);
      if replay.Some? {
        return replay.value;
      }
      var guard := ActiveGuard(Rows(), op.expected);
      if guard.Some? {
        return Declined(guard.value);
      }
      var receipt := WriteState(op.call, Core(CoreOf(Rows()).generation + 1, None, None, None), None, None, now);
      return Done(receipt);
    }

    method BlockManifest(op: Op, now: Time) returns (outcome: Outcome)
      requires op.Block? && Parsed(op)
      modifies this
      ensures (Rows(), outcome) == Step(old(Rows()), op, now)
    {
      var replay := LoadReplay(op, now);
      if replay.Some? {
        return replay.value;
      }
      if !StateLoads(Rows()) {
        return Declined(StateConflict);
      }
      var active := CoreOf(Rows()).active;
      if active.Some? && active.value.identity.fingerprint == op.fingerprint {
        return Declined(StateConflict);
      }
      var found := FindDocument(Rows(), op.publicId);
      if found.Refused? {
        return Declined(found.error);
      }
      if found.value.Some? && found.value.value.manifest.fingerprint != op.fingerprint {
        return Declined(IdentityMismatch);
      }
      if op.fingerprint in blocks && blocks[op.fingerprint].publicId != op.publicId {
        return Declined(IdentityMismatch);
      }
      if op.fingerprint in blocks && op.sequence <= blocks[op.fingerprint].sequence {
        return Declined(BlockSequenceRegressed);
      }
      var receipt := Receipt(op.call, now, None);
      receipts := receipts + [receipt];
      blocks := blocks[op.fingerprint := BlockRow(op.publicId, op.sequence)];
      return Done(receipt);
    }

    // ----- Retention -----

    /** Deletes a manifest's edges one by one, then the manifest. */
    method DeleteWithEdges(id: Key)
      requires id in documents && ExactEdges(Rows(), documents[id].manifest) && documents[id].manifest.publicId == id
      modifies this`documents, this`edges
      ensures Rows() == WithoutManifest(old(Rows()), id)
    {
      var m := documents[id].manifest;
      for i := 0 to |m.references|
        invariant documents == old(documents)
        invariant edges == old(edges) - set r | r in m.references[..i] :: Edge(id, r)
      {
        edges := edges - {Edge(id, m.references[i])};
        assert m.references[..i + 1] == m.references[..i] + [m.references[i]];
      }
      assert m.references[..|m.references|] == m.references;
      assert EdgesFor(m) == set e | e in old(edges) && e.manifest == id;
      documents := documents - {id};
    }

    /** Retires a release that nothing references, and deletes what the request allows of it. */
    method Retire(id: ReleaseId, budget: nat)
      requires id in releases
      modifies this`releases
      ensures Rows() == RetireRelease(old(Rows()), id, budget)
    {
      var release := releases[id];
      if release.lifecycle.Staging? {
        release := release.(lifecycle := Failed);
      } else if release.lifecycle.Complete? {
        release := release.(lifecycle := Retired);
      }
      if release.owned < budget {
        releases := releases - {id};
      } else {
        releases := releases[id := release.(owned := release.owned - budget)];
      }
    }
  }
}
