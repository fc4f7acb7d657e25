/**
 * The published catalog manifest as a compare-and-swap state machine: activate, refresh, roll back,
 * clear and block, each stored with its receipt, and the deletions that retention performs beside
 * them. Every mutation is one step over a `World`.
 */
module ManifestPublication {
  import opened Prelude
  import opened RetentionSelection
  import P = RetentionProtection

  const MAX_REFERENCES: nat := 8
  const COMPLETE_RETENTION: nat := 604_800_000

  /** A provider release by its platform and public id; `proof` stands for its immutable proof. */
  datatype ReleaseId = ReleaseId(platform: Key, publicId: Key)
  datatype Reference = Reference(release: ReleaseId, proof: Key)

  /** A wire manifest; its reference list stands for the reference-set hash. */
  datatype Manifest = Manifest(publicId: Key, fingerprint: Key, epoch: Key, references: seq<Reference>, canonical: bool)
  datatype Document = Document(manifest: Manifest, lifecycle: Lifecycle, createdAt: Time, eligibleAt: Time)
  datatype Edge = Edge(manifest: Key, reference: Reference)

  /** A stored provider release; `owned` counts the rows that must be deleted before it. */
  datatype Release = Release(proof: Key, lifecycle: Lifecycle, eligibleAt: Time, owned: nat)

  datatype Identity = Identity(publicId: Key, fingerprint: Key, epoch: Key, references: seq<Reference>)
  datatype Pointer = Pointer(identity: Identity, createdAt: Time, completedAt: Time)

  /** The facts of one provider selection that a refresh may not move back. */
  datatype Selection =
    Selection(release: ReleaseId, settled: int, affected: int, sourceHead: int, observedAt: Time, staleAt: Time)

  /** The compared part of the active state. */
  datatype Core =
    Core(generation: nat, active: Option<Pointer>, previous: Option<Pointer>, observation: Option<seq<Selection>>)

  const PRISTINE: Core := Core(0, None, None, None)

  datatype Kind = ActivateManifest | RefreshActiveState | RollbackManifest | RollbackClear | BlockManifest

  /** The identity of one request. */
  datatype Call =
    Call(kind: Kind, operationId: Key, idempotencyKey: Key, digest: Key, publicId: Option<Key>,
         fingerprint: Option<Key>)

  /** A stored operation with its receipt; it stands for the receipt's hash too. */
  datatype Receipt = Receipt(call: Call, serverTime: Time, core: Option<Core>)

  /** The singleton state row. */
  datatype Stored =
    Stored(core: Core, activeId: Option<Key>, previousId: Option<Key>, terminalOperation: Key, terminalReceipt: Receipt)

  datatype BlockRow = BlockRow(publicId: Key, sequence: int)

  datatype World = World(
    documents: map<Key, Document>, edges: set<Edge>, releases: map<ReleaseId, Release>, blocks: map<Key, BlockRow>,
    state: Option<Stored>, receipts: seq<Receipt>)

  datatype Expected = Expected(core: Core, terminal: Option<Receipt>)

  datatype Error =
    | RequestInvalid | StateConflict | PredecessorConflict | OperationConflict | ReferenceSetUnchanged
    | FingerprintBlocked | PolicyRefused | IdentityMismatch | RollbackUnsafe | RefreshStale | BlockSequenceRegressed

  /** `policy` is the verdict of the selection policy beyond the release checks made here. */
  datatype Op =
    | Activate(call: Call, manifest: Manifest, observation: seq<Selection>, expected: Expected, policy: bool,
               allowMock: bool)
    | Refresh(call: Call, target: Identity, observation: seq<Selection>, expected: Expected, policy: bool)
    | Rollback(call: Call, target: Identity, observation: seq<Selection>, expected: Expected, policy: bool)
    | Clear(call: Call, expected: Expected)
    | Block(call: Call, publicId: Key, fingerprint: Key, sequence: int)

  // ----- Rows -----

  function IdentityOf(m: Manifest): Identity {
    Identity(m.publicId, m.fingerprint, m.epoch, m.references)
  }

  function EdgesFor(m: Manifest): set<Edge> {
    set r | r in m.references :: Edge(m.publicId, r)
  }

  predicate WellFormed(m: Manifest) {
    && 1 <= |m.references| <= MAX_REFERENCES
    && forall i, j ::
         0 <= i < j < |m.references| ==> m.references[i].release.platform < m.references[j].release.platform
  }

  /** Every referenced release is stored and complete with the proof the reference names. */
  predicate Live(w: World, references: seq<Reference>) {
    forall r :: r in references ==>
                  r.release in w.releases && w.releases[r.release].lifecycle.Complete?
                  && w.releases[r.release].proof == r.proof
  }

  /** `assertExactCatalogManifestProviderReferences`. */
  predicate ExactEdges(w: World, m: Manifest) {
    && WellFormed(m) && Live(w, m.references)
    && (set e | e in w.edges && e.manifest == m.publicId) == EdgesFor(m)
  }

  predicate FingerprintUnused(w: World, fingerprint: Key) {
    forall id :: id in w.documents ==> w.documents[id].manifest.fingerprint != fingerprint
  }

  predicate FingerprintUnique(w: World, id: Key)
    requires id in w.documents
  {
    forall k ::
      k in w.documents && w.documents[k].manifest.fingerprint == w.documents[id].manifest.fingerprint ==> k == id
  }

  /** `loadCatalogManifestByPublicReleaseId`. */
  function FindDocument(w: World, id: Key): Result<Option<Document>, Error> {
    if id !in w.documents then Success(None)
    else if !w.documents[id].lifecycle.Complete? || w.documents[id].manifest.publicId != id
            || !FingerprintUnique(w, id) then
      Refused(StateConflict)
    else Success(Some(w.documents[id]))
  }

  // ----- Receipts -----

  predicate SameOperation(r: Receipt, c: Call) {
    r.call.operationId == c.operationId
  }

  /** The idempotency index is by kind; both rollbacks are one kind. */
  function KindClass(k: Kind): Kind {
    if k.RollbackClear? then RollbackManifest else k
  }

  predicate SameKey(r: Receipt, c: Call) {
    KindClass(r.call.kind) == KindClass(c.kind) && r.call.idempotencyKey == c.idempotencyKey
  }

  function Find(receipts: seq<Receipt>, c: Call): Option<Receipt> {
    if receipts == [] then None
    else if SameOperation(receipts[|receipts| - 1], c) || SameKey(receipts[|receipts| - 1], c) then
      Some(receipts[|receipts| - 1])
    else Find(receipts[..|receipts| - 1], c)
  }

  function ById(receipts: seq<Receipt>, operationId: Key): Option<Receipt> {
    if receipts == [] then None
    else if receipts[|receipts| - 1].call.operationId == operationId then Some(receipts[|receipts| - 1])
    else ById(receipts[..|receipts| - 1], operationId)
  }

  // ----- The active state -----

  function CoreOf(w: World): Core {
    if w.state.Some? then w.state.value.core else PRISTINE
  }

  function CurrentState(w: World): Expected {
    if w.state.Some? then Expected(w.state.value.core, Some(w.state.value.terminalReceipt))
    else Expected(PRISTINE, None)
  }

  /** `loadActiveCatalogManifestState`: the row is consistent and its terminal receipt agrees with it. */
  predicate StateLoads(w: World) {
    w.state.Some? ==>
      var s := w.state.value;
      && (s.activeId.Some? <==> s.core.active.Some?) && (s.previousId.Some? <==> s.core.previous.Some?)
      && s.core.generation > 0
      && ById(w.receipts, s.terminalOperation) == Some(s.terminalReceipt)
      && !s.terminalReceipt.call.kind.BlockManifest? && s.terminalReceipt.core == Some(s.core)
  }

  /** `assertExpectedActiveCatalogManifestState`. */
  function StateGuard(w: World, expected: Expected): Option<Error> {
    if !StateLoads(w) then Some(StateConflict)
    else if CurrentState(w) != expected then Some(PredecessorConflict)
    else None
  }

  /** What an accepted operation writes, besides its receipt. */
  datatype Effect = Effect(
    insert: Option<Document>, core: Option<Core>, activeId: Option<Key>, previousId: Option<Key>,
    block: Option<(Key, BlockRow)>)

  function Selecting(insert: Option<Document>, core: Core, activeId: Option<Key>, previousId: Option<Key>): Effect {
    Effect(insert, Some(core), activeId, previousId, None)
  }

  function PointerTo(d: Document, at: Time): Pointer {
    Pointer(IdentityOf(d.manifest), d.createdAt, at)
  }

  // ----- Activate -----

  /** `expectedManifestDocument`: the document behind the active pointer. */
  function ActiveDocument(w: World): Result<Option<Document>, Error> {
    if CoreOf(w).active.None? then Success(None)
    else
      var found := FindDocument(w, CoreOf(w).active.value.identity.publicId);
      if found.Refused? then Refused(found.error)
      else if found.value.None? || w.state.value.activeId != Some(found.value.value.manifest.publicId)
              || IdentityOf(found.value.value.manifest) != CoreOf(w).active.value.identity
      then Refused(StateConflict)
      else found
  }

  /** `ensureImmutableCatalogManifest`: the document to select, and whether it must be inserted first. */
  function EnsureManifest(w: World, m: Manifest, at: Time): Result<(Document, bool), Error> {
    var found := FindDocument(w, m.publicId);
    if found.Refused? then Refused(found.error)
    else if found.value.Some? then
      if found.value.value.manifest != m then Refused(IdentityMismatch)
      else if !ExactEdges(w, m) then Refused(StateConflict)
      else Success((found.value.value, false))
    else if !FingerprintUnused(w, m.fingerprint) then Refused(IdentityMismatch)
    else if exists e :: e in w.edges && e.manifest == m.publicId then Refused(StateConflict)
    else Success((Document(m, Complete, at, at + COMPLETE_RETENTION), true))
  }

  function ActivateEffect(w: World, op: Op, now: Time): Result<Effect, Error>
    requires op.Activate?
  {
    if !op.manifest.canonical && !op.allowMock then Refused(RequestInvalid)
    else if StateGuard(w, op.expected).Some? then Refused(StateGuard(w, op.expected).value)
    else
      var before := ActiveDocument(w);
      if before.Refused? then Refused(before.error)
      else if before.value.Some? && before.value.value.manifest.references == op.manifest.references then
        Refused(ReferenceSetUnchanged)
      else if op.manifest.fingerprint in w.blocks then Refused(FingerprintBlocked)
      else if !op.policy || !Live(w, op.manifest.references) then Refused(PolicyRefused)
      else
        var ensured := EnsureManifest(w, op.manifest, now);
        if ensured.Refused? then Refused(ensured.error)
        else
          Success(Selecting(if ensured.value.1 then Some(ensured.value.0) else None,
                            Core(CoreOf(w).generation + 1, Some(PointerTo(ensured.value.0, now)), CoreOf(w).active,
                                 Some(op.observation)),
                            Some(op.manifest.publicId), if w.state.Some? then w.state.value.activeId else None))
  }

  // ----- Refresh -----

  /** `assertSelectionDidNotRegress`. */
  predicate NotBehind(previous: Selection, next: Selection) {
    && next.release == previous.release
    && next.settled >= previous.settled && next.affected >= previous.affected && next.sourceHead >= previous.sourceHead
    && next.observedAt >= previous.observedAt && next.staleAt >= previous.staleAt
  }

  predicate NoneBehind(previous: seq<Selection>, next: seq<Selection>) {
    |previous| == |next| && forall i :: 0 <= i < |previous| ==> NotBehind(previous[i], next[i])
  }

  function RefreshEffect(w: World, op: Op): Result<Effect, Error>
    requires op.Refresh?
  {
    if StateGuard(w, op.expected).Some? then Refused(StateGuard(w, op.expected).value)
    else if CoreOf(w).active.None? || CoreOf(w).observation.None? || w.state.None? || w.state.value.activeId.None? then
      Refused(StateConflict)
    else
      var found := FindDocument(w, op.target.publicId);
      if found.Refused? then Refused(found.error)
      else if found.value.None? || w.state.value.activeId != Some(found.value.value.manifest.publicId)
              || IdentityOf(found.value.value.manifest) != op.target || !found.value.value.manifest.canonical
      then Refused(IdentityMismatch)
      else if op.target.fingerprint in w.blocks then Refused(FingerprintBlocked)
      else if !op.policy || !Live(w, op.target.references) then Refused(PolicyRefused)
      else if !NoneBehind(CoreOf(w).observation.value, op.observation) then Refused(RefreshStale)
      else
        Success(Selecting(None, CoreOf(w).(generation := CoreOf(w).generation + 1, observation := Some(op.observation)),
                          w.state.value.activeId, w.state.value.previousId))
  }

  // ----- Roll back, clear -----

  function ActiveGuard(w: World, expected: Expected): Option<Error> {
    if StateGuard(w, expected).Some? then StateGuard(w, expected)
    else if CoreOf(w).active.None? || w.state.None? || w.state.value.activeId.None? then Some(RollbackUnsafe)
    else None
  }

  function RollbackEffect(w: World, op: Op, now: Time): Result<Effect, Error>
    requires op.Rollback?
  {
    if ActiveGuard(w, op.expected).Some? then Refused(ActiveGuard(w, op.expected).value)
    else
      var found := FindDocument(w, op.target.publicId);
      if found.Refused? then Refused(found.error)
      else if found.value.None? || IdentityOf(found.value.value.manifest) != op.target
              || !found.value.value.manifest.canonical then
        Refused(RollbackUnsafe)
      else if op.target.fingerprint in w.blocks then Refused(FingerprintBlocked)
      else if !op.policy || !Live(w, op.target.references) then Refused(PolicyRefused)
      else
        var outgoingBlocked := CoreOf(w).active.value.identity.fingerprint in w.blocks;
        Success(Selecting(None,
                          Core(CoreOf(w).generation + 1, Some(PointerTo(found.value.value, now)),
                               if outgoingBlocked then None else CoreOf(w).active, Some(op.observation)),
                          Some(op.target.publicId), if outgoingBlocked then None else w.state.value.activeId))
  }

  function ClearEffect(w: World, op: Op): Result<Effect, Error>
    requires op.Clear?
  {
    if ActiveGuard(w, op.expected).Some? then Refused(ActiveGuard(w, op.expected).value)
    else Success(Selecting(None, Core(CoreOf(w).generation + 1, None, None, None), None, None))
  }

  // ----- Block -----

  function BlockEffect(w: World, op: Op): Result<Effect, Error>
    requires op.Block?
  {
    if !StateLoads(w) then Refused(StateConflict)
    else if CoreOf(w).active.Some? && CoreOf(w).active.value.identity.fingerprint == op.fingerprint then
      Refused(StateConflict)
    else
      var found := FindDocument(w, op.publicId);
      if found.Refused? then Refused(found.error)
      else if found.value.Some? && found.value.value.manifest.fingerprint != op.fingerprint then
        Refused(IdentityMismatch)
      else if op.fingerprint in w.blocks && w.blocks[op.fingerprint].publicId != op.publicId then
        Refused(IdentityMismatch)
      else if op.fingerprint in w.blocks && op.sequence <= w.blocks[op.fingerprint].sequence then
        Refused(BlockSequenceRegressed)
      else Success(Effect(None, None, None, None, Some((op.fingerprint, BlockRow(op.publicId, op.sequence)))))
  }

  // ----- One operation -----

  function EffectOf(w: World, op: Op, now: Time): Result<Effect, Error> {
    match op
    case Activate(_, _, _, _, _, _) => ActivateEffect(w, op, now)
    case Refresh(_, _, _, _, _) => RefreshEffect(w, op)
    case Rollback(_, _, _, _, _) => RollbackEffect(w, op, now)
    case Clear(_, _) => ClearEffect(w, op)
    case Block(_, _, _, _) => BlockEffect(w, op)
  }

  /** Stores the document and its edges, the block, the receipt and the state row. */
  function Apply(w: World, c: Call, e: Effect, now: Time): World {
    var receipt := Receipt(c, now, e.core);
    World(if e.insert.Some? then w.documents[e.insert.value.manifest.publicId := e.insert.value] else w.documents,
          if e.insert.Some? then w.edges + EdgesFor(e.insert.value.manifest) else w.edges,
          w.releases,
          if e.block.Some? then w.blocks[e.block.value.0 := e.block.value.1] else w.blocks,
          if e.core.Some? then Some(Stored(e.core.value, e.activeId, e.previousId, c.operationId, receipt))
          else w.state, w.receipts + [receipt])
  }

  datatype Outcome = Replayed(receipt: Receipt) | Done(receipt: Receipt) | Declined(error: Error)

  /** The request names its own kind, manifest and fingerprint in its identity; its manifest parses. */
  predicate Parsed(op: Op) {
    match op
    case Activate(c, m, _, _, _, _) =>
      c.kind.ActivateManifest? && c.publicId == Some(m.publicId) && c.fingerprint == Some(m.fingerprint)
      && WellFormed(m)
    case Refresh(c, t, _, _, _) =>
      c.kind.RefreshActiveState? && c.publicId == Some(t.publicId) && c.fingerprint == Some(t.fingerprint)
    case Rollback(c, t, _, _, _) =>
      c.kind.RollbackManifest? && c.publicId == Some(t.publicId) && c.fingerprint == Some(t.fingerprint)
    case Clear(c, _) => c.kind.RollbackClear? && c.publicId.None? && c.fingerprint.None?
    case Block(c, id, fingerprint, _) =>
      c.kind.BlockManifest? && c.publicId == Some(id) && c.fingerprint == Some(fingerprint)
  }

  /** Replay first; only a request that no receipt matches takes effect. */
  function Step(w: World, op: Op, now: Time): (World, Outcome) {
    var found := Find(w.receipts, op.call);
    if found.Some? then (w, if found.value.call == op.call then Replayed(found.value) else Declined(OperationConflict))
    else
      var effect := EffectOf(w, op, now);
      if effect.Refused? then (w, Declined(effect.error))
      else (Apply(w, op.call, effect.value, now), Done(Receipt(op.call, now, effect.value.core)))
  }

  // ----- Retention -----

  /** The rows of the lifecycle indexes. */
  ghost predicate ListsDocuments(rows: seq<Row>, w: World) {
    && Listing(rows)
    && (forall r ::
          r in rows ==>
            r.id in w.documents && r == Row(r.id, w.documents[r.id].lifecycle, w.documents[r.id].eligibleAt))
    && (forall id :: id in w.documents ==> Row(id, w.documents[id].lifecycle, w.documents[id].eligibleAt) in rows)
  }

  /** The lifecycle index of one platform's releases. */
  ghost predicate ListsReleases(rows: seq<Row>, w: World, platform: Key) {
    && Listing(rows)
    && (forall r :: r in rows ==>
          && ReleaseId(platform, r.id) in w.releases
          && r.lifecycle == w.releases[ReleaseId(platform, r.id)].lifecycle
          && r.eligibleAt == w.releases[ReleaseId(platform, r.id)].eligibleAt)
    && (forall id :: id in w.releases && id.platform == platform ==>
          Row(id.publicId, w.releases[id].lifecycle, w.releases[id].eligibleAt) in rows)
  }

  /** The manifest edges of one platform, each once. */
  ghost predicate ListsReferences(references: seq<P.Reference>, w: World, platform: Key) {
    && (forall i, j :: 0 <= i < j < |references| ==> references[i] != references[j])
    && (forall e :: e in w.edges && e.reference.release.platform == platform ==>
          P.Reference(e.reference.release.publicId, e.manifest) in references)
    && (forall x :: x in references ==>
          exists e :: e in w.edges && e.reference.release == ReleaseId(platform, x.release) && e.manifest == x.manifest)
  }

  /** Deletes one manifest with its edges. */
  function WithoutManifest(w: World, id: Key): World {
    w.(documents := w.documents - {id}, edges := set e | e in w.edges && e.manifest != id)
  }

  function ActiveId(w: World): Option<Key> {
    if w.state.Some? then w.state.value.activeId else None
  }

  function PreviousId(w: World): Option<Key> {
    if w.state.Some? then w.state.value.previousId else None
  }

  /** The protections of the current pointers and the request's proof. */
  ghost function Protected(w: World, rows: seq<Row>, external: seq<P.Protection>, heat: set<Key>, now: Time): set<Key> {
    P.Ids(P.Protections(rows, external, ActiveId(w), PreviousId(w), heat, now))
  }

  /** Which deletions the manifest phase may perform, given what its bounded scans selected. */
  ghost predicate MayDeleteManifest(w: World, rows: seq<Row>, external: seq<P.Protection>, heat: set<Key>, now: Time,
                                    id: Key)
  {
    && ListsDocuments(rows, w)
    && |Protected(w, rows, external, heat, now)| <= P.MAX_PROTECTED
    && exists r: Row ::
         r.id == id && IsLeast(Some(r), rows, (x: Row) => Removable(x, Protected(w, rows, external, heat, now), now))
  }

  /** `retireProviderCandidate`: a staging release fails, a complete one is retired. */
  function Retiring(lifecycle: Lifecycle): Lifecycle {
    if lifecycle.Staging? then Failed else if lifecycle.Complete? then Retired else lifecycle
  }

  /**
   * A release no edge references is retired and its owned rows deleted, as many as the request allows; the
   * release last.
   */
  function RetireRelease(w: World, id: ReleaseId, budget: nat): World
    requires id in w.releases
  {
    var release := w.releases[id];
    if release.owned < budget then w.(releases := w.releases - {id})
    else
      w.(releases := w.releases[id := release.(lifecycle := Retiring(release.lifecycle),
                                               owned := release.owned - budget)])
  }

  /** The steps of every other mutation on provider releases: a new staging release, or one made complete. */
  predicate ReleasesGrow(w: World, releases: map<ReleaseId, Release>) {
    forall id :: id in w.releases && w.releases[id].lifecycle.Complete? ==>
                   id in releases && releases[id].lifecycle.Complete? && releases[id].proof == w.releases[id].proof
  }

  datatype Event =
    | Publish(op: Op, now: Time)
    | DeleteManifest(rows: seq<Row>, external: seq<P.Protection>, heat: set<Key>, at: Time, id: Key)
    | DeleteRelease(release: ReleaseId, budget: nat)
    | ChangeReleases(releases: map<ReleaseId, Release>)

  /** Whether an event can happen. */
  ghost predicate Enabled(w: World, e: Event) {
    match e
    case Publish(op, _) => Parsed(op)
    case DeleteManifest(rows, external, heat, at, id) =>
      StateLoads(w) && MayDeleteManifest(w, rows, external, heat, at, id)
    case DeleteRelease(id, _) => id in w.releases && forall edge :: edge in w.edges ==> edge.reference.release != id
    case ChangeReleases(releases) => ReleasesGrow(w, releases)
  }

  function Next(w: World, e: Event): World {
    match e
    case Publish(op, now) => Step(w, op, now).0
    case DeleteManifest(_, _, _, _, id) => WithoutManifest(w, id)
    case DeleteRelease(id, budget) => if id in w.releases then RetireRelease(w, id, budget) else w
    case ChangeReleases(releases) => w.(releases := releases)
  }

  /** The world after the first `n` events. */
  function Run(w: World, events: seq<Event>, n: nat): World
    requires n <= |events|
  {
    if n == 0 then w else Next(Run(w, events, n - 1), events[n - 1])
  }

  ghost predicate Runs(w: World, events: seq<Event>, n: nat)
    requires n <= |events|
  {
    n > 0 ==> Runs(w, events, n - 1) && Enabled(Run(w, events, n - 1), events[n - 1])
  }

  const EMPTY: World := World(map[], {}, map[], map[], None, [])
}
