/**
 * What every run of publication and retention keeps: pointers resolve with exactly their edges, no
 * edge dangles, the active manifest is never blocked, the state row agrees with its terminal
 * receipt, and the generation counts the pointer operations.
 */
module ManifestInvariants {
  import opened Prelude
  import opened RetentionSelection
  import opened ManifestPublication
  import P = RetentionProtection

  // ----- The invariant, part by part -----

  ghost predicate DocumentsSound(w: World) {
    forall id :: id in w.documents ==> w.documents[id].manifest.publicId == id && WellFormed(w.documents[id].manifest)
  }

  ghost predicate FingerprintsDistinct(w: World) {
    forall a, b | a in w.documents && b in w.documents ::
      w.documents[a].manifest.fingerprint == w.documents[b].manifest.fingerprint ==> a == b
  }

  /** The edges are exactly those of the stored manifests. */
  ghost predicate EdgesExact(w: World) {
    forall e ::
      e in w.edges <==> e.manifest in w.documents && e.reference in w.documents[e.manifest].manifest.references
  }

  /** Every referenced release is stored and complete. */
  ghost predicate EdgesLive(w: World) {
    forall e :: e in w.edges ==>
                  && e.reference.release in w.releases && w.releases[e.reference.release].lifecycle.Complete?
                  && w.releases[e.reference.release].proof == e.reference.proof
  }

  /** `assertPointerDocument`: a pointer names a stored complete manifest, by id, identity and creation time. */
  ghost predicate PointerResolves(w: World, id: Option<Key>, pointer: Option<Pointer>) {
    && (id.Some? <==> pointer.Some?)
    && (id.Some? ==>
          && id.value in w.documents && w.documents[id.value].lifecycle.Complete?
          && IdentityOf(w.documents[id.value].manifest) == pointer.value.identity
          && w.documents[id.value].createdAt == pointer.value.createdAt)
  }

  ghost predicate PointersSound(w: World) {
    w.state.Some? ==>
      var s := w.state.value;
      && PointerResolves(w, s.activeId, s.core.active) && PointerResolves(w, s.previousId, s.core.previous)
      && (s.core.observation.Some? <==> s.core.active.Some?)
      && (s.core.active.Some? ==> s.core.active.value.identity.fingerprint !in w.blocks)
  }

  /** At most one receipt per operation id and one per kind and idempotency key. */
  ghost predicate UniqueReceipts(receipts: seq<Receipt>) {
    forall i, j :: 0 <= i < j < |receipts| ==>
                     !SameOperation(receipts[i], receipts[j].call) && !SameKey(receipts[i], receipts[j].call)
  }

  function PointerOperations(receipts: seq<Receipt>): nat {
    if receipts == [] then 0
    else
      PointerOperations(receipts[..|receipts| - 1])
      + (if receipts[|receipts| - 1].call.kind.BlockManifest? then 0 else 1)
  }

  ghost predicate LedgerSound(w: World) {
    && UniqueReceipts(w.receipts) && StateLoads(w)
    && CoreOf(w).generation == PointerOperations(w.receipts)
  }

  ghost predicate StoreSound(w: World) {
    DocumentsSound(w) && FingerprintsDistinct(w) && EdgesExact(w) && EdgesLive(w)
  }

  ghost predicate Inv(w: World) {
    StoreSound(w) && PointersSound(w) && LedgerSound(w)
  }

  // ----- Receipts -----

  lemma {:induction false} FindMisses(receipts: seq<Receipt>, c: Call)
    requires Find(receipts, c).None?
    ensures forall i :: 0 <= i < |receipts| ==> !SameOperation(receipts[i], c) && !SameKey(receipts[i], c)
  {
    if receipts != [] {
      FindMisses(receipts[..|receipts| - 1], c);
    }
  }

  lemma {:induction false} FindHits(receipts: seq<Receipt>, c: Call)
    ensures Find(receipts, c).Some? ==>
              exists i :: 0 <= i < |receipts| && receipts[i] == Find(receipts, c).value
                          && (SameOperation(receipts[i], c) || SameKey(receipts[i], c))
  {
    if receipts != [] && !(SameOperation(receipts[|receipts| - 1], c) || SameKey(receipts[|receipts| - 1], c)) {
      FindHits(receipts[..|receipts| - 1], c);
      if Find(receipts, c).Some? {
        var init := receipts[..|receipts| - 1];
        var i :| 0 <= i < |init| && init[i] == Find(receipts, c).value
                 && (SameOperation(init[i], c) || SameKey(init[i], c));
        assert receipts[i] == init[i];
      }
    }
  }

  lemma AppendKeepsUnique(receipts: seq<Receipt>, r: Receipt)
    requires UniqueReceipts(receipts) && Find(receipts, r.call).None?
    ensures UniqueReceipts(receipts + [r])
  {
    FindMisses(receipts, r.call);
  }

  lemma LastById(receipts: seq<Receipt>, r: Receipt, operationId: Key)
    ensures ById(receipts + [r], operationId) ==
              if r.call.operationId == operationId then Some(r) else ById(receipts, operationId)
    ensures PointerOperations(receipts + [r]) ==
              PointerOperations(receipts) + if r.call.kind.BlockManifest? then 0 else 1
  {
    assert (receipts + [r])[..|receipts|] == receipts;
  }

  lemma {:induction false} ByIdHasTheId(receipts: seq<Receipt>, operationId: Key)
    ensures ById(receipts, operationId).Some? ==>
              exists i :: 0 <= i < |receipts| && receipts[i] == ById(receipts, operationId).value
                          && receipts[i].call.operationId == operationId
  {
    if receipts != [] && receipts[|receipts| - 1].call.operationId != operationId {
      ByIdHasTheId(receipts[..|receipts| - 1], operationId);
      if ById(receipts, operationId).Some? {
        var init := receipts[..|receipts| - 1];
        var i :| 0 <= i < |init| && init[i] == ById(receipts, operationId).value
                 && init[i].call.operationId == operationId;
        assert receipts[i] == init[i];
      }
    }
  }

  /** An accepted operation keeps the ledger in step: one receipt more, one generation more unless it blocks. */
  lemma ApplyKeepsLedger(w: World, c: Call, e: Effect, now: Time)
    requires LedgerSound(w) && Find(w.receipts, c).None?
    requires e.core.Some? <==> !c.kind.BlockManifest?
    requires e.core.Some? ==>
               && e.core.value.generation == CoreOf(w).generation + 1
               && (e.activeId.Some? <==> e.core.value.active.Some?)
               && (e.previousId.Some? <==> e.core.value.previous.Some?)
    ensures LedgerSound(Apply(w, c, e, now))
  {
    var r := Receipt(c, now, e.core);
    AppendKeepsUnique(w.receipts, r);
    LastById(w.receipts, r, c.operationId);
    if w.state.Some? {
      var t := w.state.value.terminalOperation;
      LastById(w.receipts, r, t);
      FindMisses(w.receipts, c);
      ByIdHasTheId(w.receipts, t);
    }
  }

  // ----- Documents and edges -----

  lemma InsertKeepsStore(w: World, d: Document)
    requires StoreSound(w) && WellFormed(d.manifest) && Live(w, d.manifest.references)
    requires d.manifest.publicId !in w.documents && FingerprintUnused(w, d.manifest.fingerprint)
    ensures StoreSound(w.(documents := w.documents[d.manifest.publicId := d], edges := w.edges + EdgesFor(d.manifest)))
  {
    var id := d.manifest.publicId;
    var w' := w.(documents := w.documents[id := d], edges := w.edges + EdgesFor(d.manifest));
    forall e
      ensures e in w'.edges <==>
              e.manifest in w'.documents && e.reference in w'.documents[e.manifest].manifest.references
    {
      if e.manifest == id {
        assert e in EdgesFor(d.manifest) <==> e.reference in d.manifest.references by {
          assert e == Edge(id, e.reference);
        }
      }
    }
  }

  lemma DeleteKeepsStore(w: World, id: Key)
    requires StoreSound(w)
    ensures StoreSound(WithoutManifest(w, id))
  {
  }

  lemma StoredEdgesAreExact(w: World, id: Key)
    requires StoreSound(w) && id in w.documents
    ensures ExactEdges(w, w.documents[id].manifest)
  {
    var m := w.documents[id].manifest;
    forall e ensures e in (set e | e in w.edges && e.manifest == id) <==> e in EdgesFor(m) {
      assert e.manifest == id ==> e == Edge(id, e.reference);
    }
    forall r | r in m.references ensures Edge(id, r) in w.edges {
    }
  }

  // ----- Pointers -----

  lemma PointerSurvives(w: World, w': World, id: Option<Key>, pointer: Option<Pointer>)
    requires PointerResolves(w, id, pointer)
    requires id.Some? ==> id.value in w'.documents && w'.documents[id.value] == w.documents[id.value]
    ensures PointerResolves(w', id, pointer)
  {
  }

  /**
   * Why an effect is sound: what it inserts is new, what it selects is stored and not blocked, what it
   * blocks is not active.
   */
  ghost predicate SoundEffect(w: World, e: Effect) {
    && (e.insert.Some? ==>
          var d := e.insert.value;
          && d.lifecycle.Complete? && WellFormed(d.manifest) && Live(w, d.manifest.references)
          && d.manifest.publicId !in w.documents && FingerprintUnused(w, d.manifest.fingerprint))
    && (e.block.Some? ==> e.insert.None? && e.core.None?
                          && !(CoreOf(w).active.Some?
                               && CoreOf(w).active.value.identity.fingerprint == e.block.value.0))
    && (e.core.Some? ==>
          var c := e.core.value;
          && c.generation == CoreOf(w).generation + 1
          && (c.observation.Some? <==> c.active.Some?)
          && (c.active.Some? ==> c.active.value.identity.fingerprint !in w.blocks)
          && Selects(w, e.insert, e.activeId, c.active) && Selects(w, e.insert, e.previousId, c.previous))
  }

  /** What a pointer of the state names is a stored complete document, or the one being inserted. */
  ghost predicate Selects(w: World, insert: Option<Document>, id: Option<Key>, pointer: Option<Pointer>) {
    || PointerResolves(w, id, pointer)
    || (insert.Some? && id == Some(insert.value.manifest.publicId)
        && pointer.Some? && pointer.value.identity == IdentityOf(insert.value.manifest)
        && pointer.value.createdAt == insert.value.createdAt)
  }

  lemma ApplyKeepsStore(w: World, c: Call, e: Effect, now: Time)
    requires StoreSound(w) && SoundEffect(w, e)
    ensures StoreSound(Apply(w, c, e, now))
  {
    if e.insert.Some? {
      InsertKeepsStore(w, e.insert.value);
    }
  }

  lemma ApplyKeepsPointers(w: World, c: Call, e: Effect, now: Time)
    requires PointersSound(w) && SoundEffect(w, e)
    ensures PointersSound(Apply(w, c, e, now))
  {
    var w' := Apply(w, c, e, now);
    if e.core.Some? {
      if PointerResolves(w, e.activeId, e.core.value.active) {
        PointerSurvives(w, w', e.activeId, e.core.value.active);
      }
      if PointerResolves(w, e.previousId, e.core.value.previous) {
        PointerSurvives(w, w', e.previousId, e.core.value.previous);
      }
    } else if w.state.Some? {
      PointerSurvives(w, w', w.state.value.activeId, w.state.value.core.active);
      PointerSurvives(w, w', w.state.value.previousId, w.state.value.core.previous);
    }
  }

  // ----- Each operation's effect -----

  lemma ActivateIsSound(w: World, op: Op, now: Time)
    requires StoreSound(w) && PointersSound(w) && op.Activate? && Parsed(op) && ActivateEffect(w, op, now).Success?
    ensures SoundEffect(w, ActivateEffect(w, op, now).value)
  {
    var ensured := EnsureManifest(w, op.manifest, now).value;
    assert op.manifest.publicId in w.documents <==> !ensured.1;
  }

  lemma RefreshIsSound(w: World, op: Op, now: Time)
    requires PointersSound(w) && op.Refresh? && RefreshEffect(w, op).Success?
    ensures SoundEffect(w, RefreshEffect(w, op).value)
  {
  }

  lemma RollbackIsSound(w: World, op: Op, now: Time)
    requires PointersSound(w) && op.Rollback? && RollbackEffect(w, op, now).Success?
    ensures SoundEffect(w, RollbackEffect(w, op, now).value)
  {
  }

  lemma EffectIsSound(w: World, op: Op, now: Time)
    requires StoreSound(w) && PointersSound(w) && Parsed(op) && EffectOf(w, op, now).Success?
    ensures SoundEffect(w, EffectOf(w, op, now).value)
    ensures EffectOf(w, op, now).value.core.Some? <==> !op.call.kind.BlockManifest?
  {
    match op {
      case Activate(_, _, _, _, _, _) => ActivateIsSound(w, op, now);
      case Refresh(_, _, _, _, _) => RefreshIsSound(w, op, now);
      case Rollback(_, _, _, _, _) => RollbackIsSound(w, op, now);
      case Clear(_, _) =>
      case Block(_, _, _, _) =>
    }
  }

  lemma StepKeepsInv(w: World, op: Op, now: Time)
    requires Inv(w) && Parsed(op)
    ensures Inv(Step(w, op, now).0)
  {
    if Find(w.receipts, op.call).None? && EffectOf(w, op, now).Success? {
      var e := EffectOf(w, op, now).value;
      EffectIsSound(w, op, now);
      ApplyKeepsStore(w, op.call, e, now);
      ApplyKeepsPointers(w, op.call, e, now);
      ApplyKeepsLedger(w, op.call, e, now);
    }
  }

  // ----- Retention's deletions -----

  /**
   * A manifest that may be deleted is neither pointer's, not externally protected, not referenced by Heat,
   * not young and abandoned.
   */
  lemma DeletableManifestIsUnreferenced(w: World, rows: seq<Row>, external: seq<P.Protection>, heat: set<Key>, at: Time,
                                        id: Key)
    requires MayDeleteManifest(w, rows, external, heat, at, id)
    ensures ActiveId(w) != Some(id) && PreviousId(w) != Some(id) && id !in heat
    ensures forall p :: p in external ==> p.id != id
    ensures id in w.documents && (w.documents[id].lifecycle.Complete? || w.documents[id].eligibleAt <= at)
  {
    var r: Row :| r.id == id
                  && IsLeast(Some(r), rows, (x: Row) => Removable(x, Protected(w, rows, external, heat, at), at));
    P.SelectedManifestIsUnreferenced(rows, external, ActiveId(w), PreviousId(w), heat, at, r);
  }

  lemma DeleteManifestKeepsInv(w: World, id: Key)
    requires Inv(w) && ActiveId(w) != Some(id) && PreviousId(w) != Some(id)
    ensures Inv(WithoutManifest(w, id))
  {
    DeleteKeepsStore(w, id);
    if w.state.Some? {
      PointerSurvives(w, WithoutManifest(w, id), w.state.value.activeId, w.state.value.core.active);
      PointerSurvives(w, WithoutManifest(w, id), w.state.value.previousId, w.state.value.core.previous);
    }
  }

  /** Only the releases change, and none that an edge names stops being complete. */
  lemma ReleasesMayChange(w: World, releases: map<ReleaseId, Release>)
    requires Inv(w)
    requires forall e :: e in w.edges ==>
                           e.reference.release in releases && releases[e.reference.release].lifecycle.Complete?
                           && releases[e.reference.release].proof == e.reference.proof
    ensures Inv(w.(releases := releases))
  {
  }

  lemma NextKeepsInv(w: World, e: Event)
    requires Inv(w) && Enabled(w, e)
    ensures Inv(Next(w, e))
  {
    match e {
      case Publish(op, now) => StepKeepsInv(w, op, now);
      case DeleteManifest(rows, external, heat, at, id) =>
        DeletableManifestIsUnreferenced(w, rows, external, heat, at, id);
        DeleteManifestKeepsInv(w, id);
      case DeleteRelease(release, budget) =>
        ReleasesMayChange(w, RetireRelease(w, release, budget).releases);
      case ChangeReleases(releases) => ReleasesMayChange(w, releases);
    }
  }

  lemma {:induction false} RunKeepsInv(w: World, events: seq<Event>, n: nat)
    requires Inv(w) && n <= |events| && Runs(w, events, n)
    ensures Inv(Run(w, events, n))
  {
    if n > 0 {
      RunKeepsInv(w, events, n - 1);
      NextKeepsInv(Run(w, events, n - 1), events[n - 1]);
    }
  }

  // ----- What every run gives -----

  /**
   * After every interleaving of publication and retention, both pointers resolve to stored complete
   * manifests with exactly their edges, every edge belongs to a stored manifest and names a stored
   * complete release, and no integrity check on the state row or on a stored manifest can refuse.
   */
  lemma PointersResolveAfterEveryRun(events: seq<Event>, n: nat)
    requires n <= |events| && Runs(EMPTY, events, n)
    ensures var w := Run(EMPTY, events, n);
            && StateLoads(w)
            && PointerResolves(w, ActiveId(w), CoreOf(w).active)
            && PointerResolves(w, PreviousId(w), CoreOf(w).previous)
            && (forall id :: id in w.documents ==> ExactEdges(w, w.documents[id].manifest))
            && (forall id :: id in w.documents && w.documents[id].lifecycle.Complete? ==>
                               FindDocument(w, id) == Success(Some(w.documents[id])))
            && (forall e :: e in w.edges ==> e.manifest in w.documents && e.reference.release in w.releases
                                             && w.releases[e.reference.release].lifecycle.Complete?)
  {
    RunKeepsInv(EMPTY, events, n);
    var w := Run(EMPTY, events, n);
    forall id | id in w.documents ensures ExactEdges(w, w.documents[id].manifest) {
      StoredEdgesAreExact(w, id);
    }
  }

  /** The active manifest is never blocked, so a rollback always keeps the outgoing one as previous. */
  lemma OutgoingManifestIsNeverBlocked(events: seq<Event>, n: nat, op: Op, now: Time)
    requires n <= |events| && Runs(EMPTY, events, n) && op.Rollback?
    ensures var w := Run(EMPTY, events, n);
            && (CoreOf(w).active.Some? ==> CoreOf(w).active.value.identity.fingerprint !in w.blocks)
            && (RollbackEffect(w, op, now).Success? ==>
                  && RollbackEffect(w, op, now).value.core.value.previous == CoreOf(w).active
                  && RollbackEffect(w, op, now).value.previousId == ActiveId(w))
  {
    RunKeepsInv(EMPTY, events, n);
  }

  /** The generation of the state counts the stored pointer operations, replays and blocks aside. */
  lemma GenerationCountsPointerOperations(events: seq<Event>, n: nat)
    requires n <= |events| && Runs(EMPTY, events, n)
    ensures var w := Run(EMPTY, events, n);
            && CoreOf(w).generation == PointerOperations(w.receipts)
            && (w.state.Some? ==> w.state.value.terminalReceipt.core == Some(w.state.value.core)
                                  && w.state.value.terminalReceipt in w.receipts)
  {
    RunKeepsInv(EMPTY, events, n);
    var w := Run(EMPTY, events, n);
    if w.state.Some? {
      ByIdHasTheId(w.receipts, w.state.value.terminalOperation);
    }
  }

  /**
   * An exact repeat returns the stored receipt and changes nothing, for ever; any other request that
   * reuses either of its identities is refused and changes nothing.
   */
  lemma ExactReplayReturnsTheReceipt(w: World, r: Receipt, op: Op, now: Time)
    requires LedgerSound(w) && r in w.receipts
    ensures op.call == r.call ==> Step(w, op, now) == (w, Replayed(r))
    ensures op.call != r.call && (SameOperation(r, op.call) || SameKey(r, op.call)) ==>
              Step(w, op, now).0 == w && !Step(w, op, now).1.Done?
  {
    if SameOperation(r, op.call) || SameKey(r, op.call) {
      if Find(w.receipts, op.call).None? {
        FindMisses(w.receipts, op.call);
      } else {
        FindHits(w.receipts, op.call);
        if op.call == r.call {
          OneReceipt(w.receipts, r, Find(w.receipts, op.call).value);
        }
      }
    }
  }

  lemma OneReceipt(receipts: seq<Receipt>, a: Receipt, b: Receipt)
    requires UniqueReceipts(receipts) && a in receipts && b in receipts
             && (SameOperation(b, a.call) || SameKey(b, a.call))
    ensures a == b
  {
    var i :| 0 <= i < |receipts| && receipts[i] == a;
    var j :| 0 <= j < |receipts| && receipts[j] == b;
  }

  lemma NextKeepsReceipt(w: World, e: Event, r: Receipt)
    requires r in w.receipts
    ensures r in Next(w, e).receipts
  {
  }

  /** Receipts are only ever added. */
  lemma {:induction false} ReceiptsPersist(w: World, events: seq<Event>, n: nat, r: Receipt)
    requires n <= |events| && r in w.receipts
    ensures r in Run(w, events, n).receipts
  {
    if n > 0 {
      ReceiptsPersist(w, events, n - 1, r);
      NextKeepsReceipt(Run(w, events, n - 1), events[n - 1], r);
    }
  }

  // ----- Refreshing -----

  /** The event may refresh the observation but selects no manifest and clears none. */
  predicate KeepsSelection(e: Event) {
    e.Publish? ==> e.op.Refresh? || e.op.Block?
  }

  lemma NoneBehindIsTransitive(a: seq<Selection>, b: seq<Selection>, c: seq<Selection>)
    requires NoneBehind(a, b) && NoneBehind(b, c)
    ensures NoneBehind(a, c)
  {
    forall i | 0 <= i < |a| ensures NotBehind(a[i], c[i]) {
      assert NotBehind(a[i], b[i]) && NotBehind(b[i], c[i]);
    }
  }

  lemma NoneBehindItself(a: seq<Selection>)
    ensures NoneBehind(a, a)
  {
  }

  lemma StepAdvancesObservation(w: World, e: Event)
    requires KeepsSelection(e) && CoreOf(w).observation.Some?
    ensures CoreOf(Next(w, e)).active == CoreOf(w).active && CoreOf(Next(w, e)).observation.Some?
    ensures NoneBehind(CoreOf(w).observation.value, CoreOf(Next(w, e)).observation.value)
  {
    NoneBehindItself(CoreOf(w).observation.value);
  }

  /**
   * However often the active manifest is refreshed, no provider's settled facts, source head or
   * observation time ever moves back, and the manifest and its releases stay the same.
   */
  lemma {:induction false} RefreshesNeverRegress(w: World, events: seq<Event>, n: nat)
    requires n <= |events| && CoreOf(w).observation.Some?
    requires forall i :: 0 <= i < n ==> KeepsSelection(events[i])
    ensures CoreOf(Run(w, events, n)).active == CoreOf(w).active && CoreOf(Run(w, events, n)).observation.Some?
    ensures NoneBehind(CoreOf(w).observation.value, CoreOf(Run(w, events, n)).observation.value)
  {
    if n == 0 {
      NoneBehindItself(CoreOf(w).observation.value);
    } else {
      RefreshesNeverRegress(w, events, n - 1);
      var before := Run(w, events, n - 1);
      StepAdvancesObservation(before, events[n - 1]);
      NoneBehindIsTransitive(CoreOf(w).observation.value, CoreOf(before).observation.value,
                             CoreOf(Next(before, events[n - 1])).observation.value);
    }
  }
}
