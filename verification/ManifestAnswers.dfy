/**
 * What each publication request answers and what it leaves in the store, for every branch, in a store
 * that satisfies the invariant every run keeps: which requests are accepted, why the others are
 * declined, and where both pointers go. Everything is stated on the stored rows.
 */
module ManifestAnswers {
  import opened Prelude
  import opened RetentionSelection
  import opened ManifestPublication
  import I = ManifestInvariants
  import P = RetentionProtection

  function Answer(w: World, op: Op, now: Time): Outcome {
    Step(w, op, now).1
  }

  function Then(w: World, op: Op, now: Time): World {
    Step(w, op, now).0
  }

  // ----- Replays -----

  /** The requests that share idempotency keys: both rollbacks are one family. */
  function Family(k: Kind): nat {
    match k
    case ActivateManifest => 0
    case RefreshActiveState => 1
    case RollbackManifest => 2
    case RollbackClear => 2
    case BlockManifest => 3
  }

  /** The receipt was stored for this operation id, or for this key in the same family. */
  predicate Shares(r: Receipt, c: Call) {
    || r.call.operationId == c.operationId
    || (Family(r.call.kind) == Family(c.kind) && r.call.idempotencyKey == c.idempotencyKey)
  }

  predicate Fresh(w: World, c: Call) {
    forall r :: r in w.receipts ==> !Shares(r, c)
  }

  lemma SharesIsSame(r: Receipt, c: Call)
    ensures Shares(r, c) <==> SameOperation(r, c) || SameKey(r, c)
  {
  }

  lemma FreshIsNotFound(w: World, c: Call)
    ensures Fresh(w, c) <==> Find(w.receipts, c).None?
  {
    forall r ensures Shares(r, c) <==> SameOperation(r, c) || SameKey(r, c) {
      SharesIsSame(r, c);
    }
    I.FindHits(w.receipts, c);
    if Find(w.receipts, c).None? {
      I.FindMisses(w.receipts, c);
    }
  }

  /** Only a fresh request is looked at; the same request is replayed, another one is a conflict. */
  lemma ReplayAnswers(w: World, op: Op, now: Time)
    requires I.Inv(w)
    ensures Answer(w, op, now).Replayed? <==> exists r :: r in w.receipts && r.call == op.call
    ensures Answer(w, op, now).Replayed? ==> Answer(w, op, now).receipt in w.receipts
                                             && Answer(w, op, now).receipt.call == op.call
    ensures Answer(w, op, now) == Declined(OperationConflict) <==>
            !Fresh(w, op.call) && !Answer(w, op, now).Replayed?
    ensures !Answer(w, op, now).Done? ==> Then(w, op, now) == w
  {
    FreshIsNotFound(w, op.call);
    I.FindHits(w.receipts, op.call);
    forall r | r in w.receipts && r.call == op.call ensures Step(w, op, now) == (w, Replayed(r)) {
      I.ExactReplayReturnsTheReceipt(w, r, op, now);
    }
  }

  // ----- Rows -----

  /** The pointers, observation and generation; a store without a state row has none. */
  function Selected(w: World): Core {
    match w.state
    case Some(s) => s.core
    case None => Core(0, None, None, None)
  }

  /** The request states the state row, with its terminal receipt, as it is. */
  predicate Expects(w: World, e: Expected) {
    match w.state
    case Some(s) => e.core == s.core && e.terminal == Some(s.terminalReceipt)
    case None => e.core == Core(0, None, None, None) && e.terminal.None?
  }

  predicate Complete(w: World, id: Key) {
    id in w.documents && w.documents[id].lifecycle.Complete?
  }

  /** A row with this id that is not complete: every lookup refuses it. */
  predicate Broken(w: World, id: Key) {
    id in w.documents && !w.documents[id].lifecycle.Complete?
  }

  /** The complete manifest behind an identity, if it is canonical. */
  predicate IsTarget(w: World, t: Identity) {
    && Complete(w, t.publicId)
    && var m := w.documents[t.publicId].manifest;
       m.fingerprint == t.fingerprint && m.epoch == t.epoch && m.references == t.references && m.canonical
  }

  predicate Blocked(w: World, fingerprint: Key) {
    fingerprint in w.blocks
  }

  /** Every referenced release is stored, complete and the one that was proven. */
  predicate Served(w: World, references: seq<Reference>) {
    forall i :: 0 <= i < |references| ==>
                  && references[i].release in w.releases
                  && w.releases[references[i].release].lifecycle == Lifecycle.Complete
                  && w.releases[references[i].release].proof == references[i].proof
  }

  lemma ServedIsLive(w: World, references: seq<Reference>)
    ensures Served(w, references) <==> Live(w, references)
  {
    if Live(w, references) {
      forall i | 0 <= i < |references|
        ensures references[i].release in w.releases
                && w.releases[references[i].release].lifecycle == Lifecycle.Complete
                && w.releases[references[i].release].proof == references[i].proof
      {
        assert references[i] in references;
      }
    }
  }

  lemma CompleteIsFound(w: World, id: Key)
    requires I.Inv(w)
    ensures FindDocument(w, id) ==
            if Complete(w, id) then Success(Some(w.documents[id]))
            else if Broken(w, id) then Refused(StateConflict)
            else Success(None)
  {
  }

  lemma ExpectedIsGuarded(w: World, e: Expected)
    requires I.Inv(w)
    ensures StateGuard(w, e) == if Expects(w, e) then None else Some(PredecessorConflict)
  {
  }

  // ----- What an accepted request leaves -----

  /** The receipt is stored behind the others, and the state row, if `core` is given, is the one it records. */
  predicate Records(w: World, w': World, c: Call, now: Time, core: Option<Core>, activeId: Option<Key>,
                    previousId: Option<Key>, answer: Outcome)
  {
    var receipt := Receipt(c, now, core);
    && answer == Done(receipt) && w'.receipts == w.receipts + [receipt] && w'.releases == w.releases
    && w'.state == match core
                   case Some(x) => Some(Stored(x, activeId, previousId, c.operationId, receipt))
                   case None => w.state
  }

  /** No manifest and no edge is added. */
  predicate SameManifests(w: World, w': World) {
    w'.documents == w.documents && w'.edges == w.edges
  }

  // ----- Activate -----

  /** The manifest is the stored complete one of that id, or is new in id and fingerprint. */
  predicate Selectable(w: World, m: Manifest) {
    if m.publicId in w.documents then Complete(w, m.publicId) && w.documents[m.publicId].manifest == m
    else forall id :: id in w.documents ==> w.documents[id].manifest.fingerprint != m.fingerprint
  }

  /** The active manifest already has these references. */
  predicate Unchanged(w: World, m: Manifest) {
    Selected(w).active.Some? && Selected(w).active.value.identity.references == m.references
  }

  predicate Accepted(w: World, op: Op)
    requires op.Activate?
  {
    && (op.manifest.canonical || op.allowMock) && Expects(w, op.expected) && !Unchanged(w, op.manifest)
    && !Blocked(w, op.manifest.fingerprint) && op.policy && Served(w, op.manifest.references)
    && Selectable(w, op.manifest)
  }

  lemma ActiveIsFound(w: World)
    requires I.Inv(w)
    ensures ActiveDocument(w).Success?
    ensures ActiveDocument(w).value.Some? <==> Selected(w).active.Some?
    ensures Selected(w).active.Some? ==>
              ActiveDocument(w).value.value.manifest.references == Selected(w).active.value.identity.references
  {
    assert Selected(w) == CoreOf(w);
    if Selected(w).active.Some? {
      var id := ActiveId(w).value;
      assert w.documents[id].manifest.publicId == id;
      CompleteIsFound(w, id);
      assert FindDocument(w, Selected(w).active.value.identity.publicId) == Success(Some(w.documents[id]));
    }
  }

  lemma SelectableIsEnsured(w: World, m: Manifest, at: Time)
    requires I.Inv(w)
    ensures var r := EnsureManifest(w, m, at);
            && (r.Success? <==> Selectable(w, m))
            && (r.Refused? ==> r.error == if Broken(w, m.publicId) then StateConflict else IdentityMismatch)
            && (r.Success? && m.publicId in w.documents ==> r.value == (w.documents[m.publicId], false))
            && (r.Success? && m.publicId !in w.documents ==>
                  r.value == (Document(m, Lifecycle.Complete, at, at + 604_800_000), true))
  {
    CompleteIsFound(w, m.publicId);
    if m.publicId in w.documents {
      I.StoredEdgesAreExact(w, m.publicId);
    }
  }

  /** An activation is accepted exactly if it is canonical, expected, a change, unblocked, served and selectable. */
  lemma ActivationAnswers(w: World, op: Op, now: Time)
    requires I.Inv(w) && op.Activate? && Fresh(w, op.call)
    ensures var r, m := Answer(w, op, now), op.manifest;
            && (r.Done? <==> Accepted(w, op))
            && (r.Done? || r == Declined(
                                  if !m.canonical && !op.allowMock then RequestInvalid
                                  else if !Expects(w, op.expected) then PredecessorConflict
                                  else if Unchanged(w, m) then ReferenceSetUnchanged
                                  else if Blocked(w, m.fingerprint) then FingerprintBlocked
                                  else if !op.policy || !Served(w, m.references) then PolicyRefused
                                  else if Broken(w, m.publicId) then StateConflict
                                  else IdentityMismatch))
  {
    FreshIsNotFound(w, op.call);
    ExpectedIsGuarded(w, op.expected);
    ActiveIsFound(w);
    ServedIsLive(w, op.manifest.references);
    SelectableIsEnsured(w, op.manifest, now);
  }

  /**
   * The requested manifest becomes active and the one that was active becomes previous; a manifest that
   * is not stored yet is stored complete, with exactly its edges.
   */
  lemma ActivationLeaves(w: World, op: Op, now: Time)
    requires op.Activate? && Answer(w, op, now).Done?
    ensures var m, w' := op.manifest, Then(w, op, now);
            && m.publicId in w'.documents && w'.documents[m.publicId].manifest == m
            && (m.publicId in w.documents ==> w'.documents == w.documents)
            && (m.publicId !in w.documents ==>
                  w'.documents ==
                  w.documents[m.publicId := Document(m, Lifecycle.Complete, now, now + 604_800_000)])
            && (forall e :: e in w'.edges <==>
                              e in w.edges || (e.manifest == m.publicId && e.reference in m.references))
            && w'.blocks == w.blocks
    ensures var m, w' := op.manifest, Then(w, op, now);
            var pointer := Pointer(Identity(m.publicId, m.fingerprint, m.epoch, m.references),
                                   w'.documents[m.publicId].createdAt, now);
            Records(w, w', op.call, now,
                    Some(Core(Selected(w).generation + 1, Some(pointer), Selected(w).active, Some(op.observation))),
                    Some(m.publicId), ActiveId(w), Answer(w, op, now))
  {
    ActivationEdges(w, op, now);
    EnsuredDocument(w, op.manifest, now);
  }

  /** The document an activation selects: the stored one, or a new complete one. */
  lemma EnsuredDocument(w: World, m: Manifest, at: Time)
    requires EnsureManifest(w, m, at).Success?
    ensures var x := EnsureManifest(w, m, at).value;
            && x.0.manifest == m && (x.1 <==> m.publicId !in w.documents)
            && (!x.1 ==> x.0 == w.documents[m.publicId] && ExactEdges(w, m))
            && (x.1 ==> x.0 == Document(m, Lifecycle.Complete, at, at + 604_800_000))
  {
  }

  lemma EdgesAreThere(w: World, m: Manifest)
    requires ExactEdges(w, m)
    ensures forall e: Edge :: e.manifest == m.publicId && e.reference in m.references ==> e in w.edges
  {
    forall e: Edge | e.manifest == m.publicId && e.reference in m.references ensures e in w.edges {
      assert e == Edge(m.publicId, e.reference);
      assert e in EdgesFor(m);
    }
  }

  lemma ActivationEdges(w: World, op: Op, now: Time)
    requires op.Activate? && Answer(w, op, now).Done?
    ensures var m, w' := op.manifest, Then(w, op, now);
            forall e :: e in w'.edges <==>
                          e in w.edges || (e.manifest == m.publicId && e.reference in m.references)
  {
    EnsuredDocument(w, op.manifest, now);
    if op.manifest.publicId in w.documents {
      EdgesAreThere(w, op.manifest);
    }
    forall e ensures e in EdgesFor(op.manifest) <==>
                     e.manifest == op.manifest.publicId && e.reference in op.manifest.references
    {
      assert e == Edge(e.manifest, e.reference);
    }
  }

  // ----- Refresh -----

  /** The new observation covers the same releases in the same order, and nothing in it moved back. */
  predicate Advances(w: World, next: seq<Selection>) {
    && Selected(w).observation.Some?
    && var previous := Selected(w).observation.value;
       && |next| == |previous|
       && forall i :: 0 <= i < |next| ==>
            && next[i].release == previous[i].release && previous[i].settled <= next[i].settled
            && previous[i].affected <= next[i].affected && previous[i].sourceHead <= next[i].sourceHead
            && previous[i].observedAt <= next[i].observedAt && previous[i].staleAt <= next[i].staleAt
  }

  /** The request names the active manifest. */
  predicate NamesActive(w: World, t: Identity) {
    ActiveId(w) == Some(t.publicId) && IsTarget(w, t)
  }

  lemma AdvancesIsNoneBehind(w: World, next: seq<Selection>)
    requires Selected(w).observation.Some?
    ensures Advances(w, next) <==> NoneBehind(Selected(w).observation.value, next)
  {
    if NoneBehind(Selected(w).observation.value, next) {
      forall i | 0 <= i < |next| ensures NotBehind(Selected(w).observation.value[i], next[i]) {
      }
    }
  }

  lemma RefreshAnswers(w: World, op: Op, now: Time)
    requires I.Inv(w) && op.Refresh? && Fresh(w, op.call)
    ensures var r, t := Answer(w, op, now), op.target;
            && (r.Done? <==>
                && Expects(w, op.expected) && Selected(w).active.Some? && NamesActive(w, t) && op.policy
                && Served(w, t.references) && Advances(w, op.observation))
            && (r.Done? || r == Declined(
                                  if !Expects(w, op.expected) then PredecessorConflict
                                  else if Selected(w).active.None? || Broken(w, t.publicId) then StateConflict
                                  else if !NamesActive(w, t) then IdentityMismatch
                                  else if !op.policy || !Served(w, t.references) then PolicyRefused
                                  else RefreshStale))
  {
    FreshIsNotFound(w, op.call);
    ExpectedIsGuarded(w, op.expected);
    CompleteIsFound(w, op.target.publicId);
    ServedIsLive(w, op.target.references);
    if Selected(w).active.Some? {
      AdvancesIsNoneBehind(w, op.observation);
    }
  }

  /** A refresh replaces the observation and nothing else. */
  lemma RefreshLeaves(w: World, op: Op, now: Time)
    requires op.Refresh? && Answer(w, op, now).Done?
    ensures var s, w' := Selected(w), Then(w, op, now);
            && SameManifests(w, w') && w'.blocks == w.blocks
            && Records(w, w', op.call, now, Some(Core(s.generation + 1, s.active, s.previous, Some(op.observation))),
                       ActiveId(w), PreviousId(w), Answer(w, op, now))
  {
  }

  // ----- Roll back, clear -----

  lemma RollbackAnswers(w: World, op: Op, now: Time)
    requires I.Inv(w) && op.Rollback? && Fresh(w, op.call)
    ensures var r, t := Answer(w, op, now), op.target;
            && (r.Done? <==>
                && Expects(w, op.expected) && Selected(w).active.Some? && IsTarget(w, t)
                && !Blocked(w, t.fingerprint) && op.policy && Served(w, t.references))
            && (r.Done? || r == Declined(
                                  if !Expects(w, op.expected) then PredecessorConflict
                                  else if Selected(w).active.None? then RollbackUnsafe
                                  else if Broken(w, t.publicId) then StateConflict
                                  else if !IsTarget(w, t) then RollbackUnsafe
                                  else if Blocked(w, t.fingerprint) then FingerprintBlocked
                                  else PolicyRefused))
  {
    FreshIsNotFound(w, op.call);
    ExpectedIsGuarded(w, op.expected);
    CompleteIsFound(w, op.target.publicId);
    ServedIsLive(w, op.target.references);
  }

  /** The target becomes active, and the outgoing manifest, which is never blocked, becomes previous. */
  lemma RollbackLeaves(w: World, op: Op, now: Time)
    requires I.Inv(w) && op.Rollback? && Answer(w, op, now).Done?
    ensures var t, s, w' := op.target, Selected(w), Then(w, op, now);
            && t.publicId in w.documents && SameManifests(w, w') && w'.blocks == w.blocks
            && Records(w, w', op.call, now,
                       Some(Core(s.generation + 1, Some(Pointer(t, w.documents[t.publicId].createdAt, now)), s.active,
                                 Some(op.observation))),
                       Some(t.publicId), ActiveId(w), Answer(w, op, now))
  {
    CompleteIsFound(w, op.target.publicId);
  }

  lemma ClearAnswers(w: World, op: Op, now: Time)
    requires I.Inv(w) && op.Clear? && Fresh(w, op.call)
    ensures var r, w' := Answer(w, op, now), Then(w, op, now);
            && (r.Done? <==> Expects(w, op.expected) && Selected(w).active.Some?)
            && (r.Done? || r == Declined(if Expects(w, op.expected) then RollbackUnsafe else PredecessorConflict))
            && (r.Done? ==>
                  && SameManifests(w, w') && w'.blocks == w.blocks
                  && Records(w, w', op.call, now, Some(Core(Selected(w).generation + 1, None, None, None)), None, None,
                             r))
  {
    FreshIsNotFound(w, op.call);
    ExpectedIsGuarded(w, op.expected);
  }

  // ----- Block -----

  /** The active manifest has this fingerprint. */
  predicate IsActive(w: World, fingerprint: Key) {
    Selected(w).active.Some? && Selected(w).active.value.identity.fingerprint == fingerprint
  }

  /** The id and the fingerprint do not belong to different manifests, stored or blocked. */
  predicate SameManifest(w: World, id: Key, fingerprint: Key) {
    && (id in w.documents ==> w.documents[id].manifest.fingerprint == fingerprint)
    && (fingerprint in w.blocks ==> w.blocks[fingerprint].publicId == id)
  }

  predicate LaterBlock(w: World, fingerprint: Key, sequence: int) {
    fingerprint in w.blocks ==> w.blocks[fingerprint].sequence < sequence
  }

  lemma BlockAnswers(w: World, op: Op, now: Time)
    requires I.Inv(w) && op.Block? && Fresh(w, op.call)
    ensures var r, w' := Answer(w, op, now), Then(w, op, now);
            && (r.Done? <==>
                && !IsActive(w, op.fingerprint) && !Broken(w, op.publicId)
                && SameManifest(w, op.publicId, op.fingerprint) && LaterBlock(w, op.fingerprint, op.sequence))
            && (r.Done? || r == Declined(
                                  if IsActive(w, op.fingerprint) || Broken(w, op.publicId) then StateConflict
                                  else if !SameManifest(w, op.publicId, op.fingerprint) then IdentityMismatch
                                  else BlockSequenceRegressed))
            && (r.Done? ==>
                  && SameManifests(w, w')
                  && w'.blocks == w.blocks[op.fingerprint := BlockRow(op.publicId, op.sequence)]
                  && Records(w, w', op.call, now, None, None, None, r))
  {
    FreshIsNotFound(w, op.call);
    CompleteIsFound(w, op.publicId);
  }

  // ----- Any store, damaged or not -----

  /** The stored receipt of an operation: the last one under its id. */
  predicate IsReceiptOf(receipts: seq<Receipt>, operationId: Key, r: Receipt, i: nat) {
    && i < |receipts| && receipts[i] == r && r.call.operationId == operationId
    && forall j :: i < j < |receipts| ==> receipts[j].call.operationId != operationId
  }

  lemma {:induction false} StoredReceipt(receipts: seq<Receipt>, operationId: Key, r: Receipt)
    ensures ById(receipts, operationId) == Some(r) <==> exists i: nat :: IsReceiptOf(receipts, operationId, r, i)
  {
    if receipts != [] {
      var init, last := receipts[..|receipts| - 1], receipts[|receipts| - 1];
      StoredReceipt(init, operationId, r);
      if last.call.operationId == operationId {
        if r == last {
          assert IsReceiptOf(receipts, operationId, r, |init|);
        }
      } else {
        if i: nat :| IsReceiptOf(init, operationId, r, i) {
          assert IsReceiptOf(receipts, operationId, r, i);
        }
        if i: nat :| IsReceiptOf(receipts, operationId, r, i) {
          assert IsReceiptOf(init, operationId, r, i);
        }
      }
    }
  }

  /** The state row is consistent, and its terminal receipt is stored and records exactly this state. */
  predicate StateHolds(w: World) {
    match w.state
    case None => true
    case Some(s) =>
      && (s.activeId.Some? <==> s.core.active.Some?) && (s.previousId.Some? <==> s.core.previous.Some?)
      && s.core.generation >= 1
      && s.terminalReceipt.core == Some(s.core) && s.terminalReceipt.call.kind != BlockManifest
      && exists i :: 0 <= i < |w.receipts| && IsReceiptOf(w.receipts, s.terminalOperation, s.terminalReceipt, i)
  }

  lemma StateIsChecked(w: World, e: Expected)
    ensures StateLoads(w) <==> StateHolds(w)
    ensures StateGuard(w, e) ==
            if !StateHolds(w) then Some(StateConflict) else if !Expects(w, e) then Some(PredecessorConflict) else None
  {
    if w.state.Some? {
      StoredReceipt(w.receipts, w.state.value.terminalOperation, w.state.value.terminalReceipt);
    }
  }

  /** The row under this id is complete, names it, and is the only one with its fingerprint. */
  predicate Intact(w: World, id: Key) {
    && Complete(w, id) && w.documents[id].manifest.publicId == id
    && forall k :: k in w.documents && k != id ==>
                     w.documents[k].manifest.fingerprint != w.documents[id].manifest.fingerprint
  }

  lemma LookupIsChecked(w: World, id: Key)
    ensures FindDocument(w, id) ==
            if id !in w.documents then Success(None)
            else if Intact(w, id) then Success(Some(w.documents[id]))
            else Refused(StateConflict)
  {
  }

  /** The active pointer names an intact row by its id and identity. */
  predicate ActiveIntact(w: World) {
    Selected(w).active.Some? ==>
      var t := Selected(w).active.value.identity;
      && ActiveId(w) == Some(t.publicId) && Intact(w, t.publicId)
      && IsIdentity(w.documents[t.publicId].manifest, t)
  }

  predicate IsIdentity(m: Manifest, t: Identity) {
    m.publicId == t.publicId && m.fingerprint == t.fingerprint && m.epoch == t.epoch && m.references == t.references
  }

  lemma ActiveIsChecked(w: World)
    requires StateHolds(w)
    ensures ActiveDocument(w).Success? <==> ActiveIntact(w)
    ensures ActiveDocument(w).Refused? ==> ActiveDocument(w).error == StateConflict
    ensures ActiveDocument(w).Success? ==>
              && (ActiveDocument(w).value.Some? <==> Selected(w).active.Some?)
              && (Selected(w).active.Some? ==>
                    ActiveDocument(w).value.value.manifest.references == Selected(w).active.value.identity.references)
  {
    assert Selected(w) == CoreOf(w);
    if Selected(w).active.Some? {
      LookupIsChecked(w, Selected(w).active.value.identity.publicId);
    }
  }

  /** One to eight references, by platform, each served, and exactly their edges. */
  predicate EdgesIntact(w: World, m: Manifest) {
    && 1 <= |m.references| <= 8 && Served(w, m.references)
    && (forall i, j :: 0 <= i < j < |m.references| ==>
                         m.references[i].release.platform < m.references[j].release.platform)
    && (forall e :: e in w.edges && e.manifest == m.publicId ==> e.reference in m.references)
    && (forall r :: r in m.references ==> Edge(m.publicId, r) in w.edges)
  }

  lemma EdgesAreChecked(w: World, m: Manifest)
    ensures ExactEdges(w, m) <==> EdgesIntact(w, m)
  {
    ServedIsLive(w, m.references);
    var stored := set e | e in w.edges && e.manifest == m.publicId;
    if EdgesIntact(w, m) {
      forall e ensures e in stored <==> e in EdgesFor(m) {
        assert e.manifest == m.publicId ==> e == Edge(m.publicId, e.reference);
      }
    }
    if stored == EdgesFor(m) {
      forall r | r in m.references ensures Edge(m.publicId, r) in w.edges {
        assert Edge(m.publicId, r) in EdgesFor(m);
      }
      forall e | e in w.edges && e.manifest == m.publicId ensures e.reference in m.references {
        assert e in stored;
      }
    }
  }

  /** Why a manifest cannot be selected: its row, its edges, or another row with its id or fingerprint. */
  function Unselectable(w: World, m: Manifest): Option<ManifestPublication.Error> {
    if m.publicId in w.documents then
      if !Intact(w, m.publicId) then Some(StateConflict)
      else if w.documents[m.publicId].manifest != m then Some(IdentityMismatch)
      else if !EdgesIntact(w, m) then Some(StateConflict)
      else None
    else if exists id :: id in w.documents && w.documents[id].manifest.fingerprint == m.fingerprint then
      Some(IdentityMismatch)
    else if exists e :: e in w.edges && e.manifest == m.publicId then Some(StateConflict)
    else None
  }

  lemma SelectionIsChecked(w: World, m: Manifest, at: Time)
    ensures EnsureManifest(w, m, at).Success? <==> Unselectable(w, m).None?
    ensures EnsureManifest(w, m, at).Refused? ==> Unselectable(w, m) == Some(EnsureManifest(w, m, at).error)
  {
    LookupIsChecked(w, m.publicId);
    EdgesAreChecked(w, m);
  }

  /** In any store, an activation is declined for the first of these faults, and accepted only without one. */
  lemma ActivationIsChecked(w: World, op: Op, now: Time)
    requires op.Activate? && Fresh(w, op.call)
    ensures var r, m := Answer(w, op, now), op.manifest;
            var fault := if !m.canonical && !op.allowMock then Some(RequestInvalid)
                         else if !StateHolds(w) then Some(StateConflict)
                         else if !Expects(w, op.expected) then Some(PredecessorConflict)
                         else if !ActiveIntact(w) then Some(StateConflict)
                         else if Unchanged(w, m) then Some(ReferenceSetUnchanged)
                         else if Blocked(w, m.fingerprint) then Some(FingerprintBlocked)
                         else if !op.policy || !Served(w, m.references) then Some(PolicyRefused)
                         else Unselectable(w, m);
            (fault.None? <==> r.Done?) && (fault.Some? ==> r == Declined(fault.value))
  {
    FreshIsNotFound(w, op.call);
    StateIsChecked(w, op.expected);
    if StateHolds(w) {
      ActiveIsChecked(w);
    }
    ServedIsLive(w, op.manifest.references);
    SelectionIsChecked(w, op.manifest, now);
  }

  /** The target is the intact canonical row of that identity. */
  predicate IsIntactTarget(w: World, t: Identity) {
    Intact(w, t.publicId) && IsTarget(w, t)
  }

  predicate Damaged(w: World, id: Key) {
    id in w.documents && !Intact(w, id)
  }

  lemma RefreshIsChecked(w: World, op: Op, now: Time)
    requires op.Refresh? && Fresh(w, op.call)
    ensures var r, t := Answer(w, op, now), op.target;
            var fault := if !StateHolds(w) then Some(StateConflict)
                         else if !Expects(w, op.expected) then Some(PredecessorConflict)
                         else if Selected(w).active.None? || Selected(w).observation.None? then Some(StateConflict)
                         else if Damaged(w, t.publicId) then Some(StateConflict)
                         else if ActiveId(w) != Some(t.publicId) || !IsIntactTarget(w, t) then Some(IdentityMismatch)
                         else if Blocked(w, t.fingerprint) then Some(FingerprintBlocked)
                         else if !op.policy || !Served(w, t.references) then Some(PolicyRefused)
                         else if !Advances(w, op.observation) then Some(RefreshStale)
                         else None;
            (fault.None? <==> r.Done?) && (fault.Some? ==> r == Declined(fault.value))
  {
    FreshIsNotFound(w, op.call);
    StateIsChecked(w, op.expected);
    LookupIsChecked(w, op.target.publicId);
    ServedIsLive(w, op.target.references);
    if Selected(w).observation.Some? {
      AdvancesIsNoneBehind(w, op.observation);
    }
  }

  lemma RollbackIsChecked(w: World, op: Op, now: Time)
    requires op.Rollback? && Fresh(w, op.call)
    ensures var r, t := Answer(w, op, now), op.target;
            var fault := if !StateHolds(w) then Some(StateConflict)
                         else if !Expects(w, op.expected) then Some(PredecessorConflict)
                         else if Selected(w).active.None? then Some(RollbackUnsafe)
                         else if Damaged(w, t.publicId) then Some(StateConflict)
                         else if !IsIntactTarget(w, t) then Some(RollbackUnsafe)
                         else if Blocked(w, t.fingerprint) then Some(FingerprintBlocked)
                         else if !op.policy || !Served(w, t.references) then Some(PolicyRefused)
                         else None;
            (fault.None? <==> r.Done?) && (fault.Some? ==> r == Declined(fault.value))
  {
    FreshIsNotFound(w, op.call);
    StateIsChecked(w, op.expected);
    LookupIsChecked(w, op.target.publicId);
    ServedIsLive(w, op.target.references);
  }

  /** A blocked outgoing manifest, which no run makes active, is not kept as previous. */
  lemma BlockedOutgoingIsDropped(w: World, op: Op, now: Time)
    requires op.Rollback? && Answer(w, op, now).Done? && Selected(w).active.Some?
    ensures Then(w, op, now).state.Some?
    ensures var s := Then(w, op, now).state.value;
            var dropped := Blocked(w, Selected(w).active.value.identity.fingerprint);
            && s.core.previous == (if dropped then None else Selected(w).active)
            && s.previousId == (if dropped then None else ActiveId(w))
  {
  }

  lemma ClearIsChecked(w: World, op: Op, now: Time)
    requires op.Clear? && Fresh(w, op.call)
    ensures var r := Answer(w, op, now);
            var fault := if !StateHolds(w) then Some(StateConflict)
                         else if !Expects(w, op.expected) then Some(PredecessorConflict)
                         else if Selected(w).active.None? then Some(RollbackUnsafe)
                         else None;
            (fault.None? <==> r.Done?) && (fault.Some? ==> r == Declined(fault.value))
  {
    FreshIsNotFound(w, op.call);
    StateIsChecked(w, op.expected);
  }

  lemma BlockIsChecked(w: World, op: Op, now: Time)
    requires op.Block? && Fresh(w, op.call)
    ensures var r := Answer(w, op, now);
            var fault := if !StateHolds(w) || IsActive(w, op.fingerprint) || Damaged(w, op.publicId) then
                           Some(StateConflict)
                         else if !SameManifest(w, op.publicId, op.fingerprint) then Some(IdentityMismatch)
                         else if !LaterBlock(w, op.fingerprint, op.sequence) then Some(BlockSequenceRegressed)
                         else None;
            (fault.None? <==> r.Done?) && (fault.Some? ==> r == Declined(fault.value))
  {
    FreshIsNotFound(w, op.call);
    StateIsChecked(w, Expected(Selected(w), None));
    LookupIsChecked(w, op.publicId);
  }

  // ----- A displaced manifest can be returned to -----

  /** The previous pointer names `id`, and the manifest with its edges is still there. */
  predicate KeptAsPrevious(w: World, id: Key, m: Manifest) {
    && PreviousId(w) == Some(id) && id in w.documents && w.documents[id].manifest == m
    && forall r :: r in m.references ==> Edge(id, r) in w.edges
  }

  lemma ActiveIsStored(w: World, id: Key)
    requires I.Inv(w) && ActiveId(w) == Some(id)
    ensures Complete(w, id)
    ensures forall r :: r in w.documents[id].manifest.references ==> Edge(id, r) in w.edges
  {
  }

  /** What an activation displaces is kept as previous. */
  lemma ActivationKeepsTheDisplaced(w: World, op: Op, now: Time, id: Key)
    requires I.Inv(w) && Parsed(op) && op.Activate? && Answer(w, op, now).Done? && ActiveId(w) == Some(id)
    ensures id in w.documents && KeptAsPrevious(Then(w, op, now), id, w.documents[id].manifest)
  {
    ActiveIsStored(w, id);
    ActivationLeaves(w, op, now);
    assert Then(w, op, now).state.value.previousId == Some(id);
    if op.manifest.publicId == id {
      assert Then(w, op, now).documents == w.documents;
    }
  }

  lemma OtherEventsKeepIt(w: World, e: Event, id: Key, m: Manifest)
    requires I.Inv(w) && Enabled(w, e) && I.KeepsSelection(e) && KeptAsPrevious(w, id, m)
    ensures KeptAsPrevious(Next(w, e), id, m)
  {
    if e.DeleteManifest? {
      I.DeletableManifestIsUnreferenced(w, e.rows, e.external, e.heat, e.at, e.id);
    }
  }

  /** From event `m` to event `n` the pointers are not moved. */
  predicate OnlyObserved(events: seq<Event>, m: nat, n: nat)
    requires m <= n <= |events|
    decreases n
  {
    m < n ==> OnlyObserved(events, m, n - 1) && I.KeepsSelection(events[n - 1])
  }

  lemma KeptByOne(events: seq<Event>, n: nat, id: Key, m: Manifest)
    requires n < |events| && Runs(EMPTY, events, n + 1) && I.KeepsSelection(events[n])
    requires KeptAsPrevious(Run(EMPTY, events, n), id, m)
    ensures KeptAsPrevious(Next(Run(EMPTY, events, n), events[n]), id, m)
  {
    I.RunKeepsInv(EMPTY, events, n);
    OtherEventsKeepIt(Run(EMPTY, events, n), events[n], id, m);
  }

  lemma {:induction false} KeptUntilMoved(events: seq<Event>, from: nat, n: nat, id: Key, m: Manifest)
    requires from <= n <= |events| && Runs(EMPTY, events, n) && OnlyObserved(events, from, n)
    requires KeptAsPrevious(Run(EMPTY, events, from), id, m)
    ensures KeptAsPrevious(Run(EMPTY, events, n), id, m)
    decreases n
  {
    if from < n {
      var before, e := Run(EMPTY, events, n - 1), events[n - 1];
      KeptUntilMoved(events, from, n - 1, id, m);
      KeptByOne(events, n - 1, id, m);
      assert Run(EMPTY, events, n) == Next(before, e);
    }
  }

  lemma PreviousIsNotDeletable(w: World, id: Key, m: Manifest, rows: seq<Row>, external: seq<P.Protection>,
                               heat: set<Key>, at: Time)
    requires KeptAsPrevious(w, id, m)
    ensures !MayDeleteManifest(w, rows, external, heat, at, id)
  {
    if MayDeleteManifest(w, rows, external, heat, at, id) {
      I.DeletableManifestIsUnreferenced(w, rows, external, heat, at, id);
    }
  }

  /** The event at `k` is an accepted activation over the active manifest `id`. */
  ghost predicate DisplacesAt(events: seq<Event>, k: nat, id: Key)
    requires k < |events|
  {
    var w := Run(EMPTY, events, k);
    && events[k].Publish? && events[k].op.Activate? && Answer(w, events[k].op, events[k].now).Done?
    && ActiveId(w) == Some(id) && id in w.documents
  }

  lemma {:induction false} RunsBefore(events: seq<Event>, k: nat, n: nat)
    requires k <= n <= |events| && Runs(EMPTY, events, n)
    ensures Runs(EMPTY, events, k)
    decreases n
  {
    if k < n {
      RunsBefore(events, k, n - 1);
    }
  }

  lemma DisplacedIsPrevious(events: seq<Event>, k: nat, id: Key)
    requires k < |events| && Runs(EMPTY, events, k + 1) && DisplacesAt(events, k, id)
    ensures KeptAsPrevious(Run(EMPTY, events, k + 1), id, Run(EMPTY, events, k).documents[id].manifest)
  {
    I.RunKeepsInv(EMPTY, events, k);
    ActivationKeepsTheDisplaced(Run(EMPTY, events, k), events[k].op, events[k].now, id);
  }

  /**
   * In every run, from an activation until the pointers are moved again, whatever is observed, blocked
   * or deleted meanwhile: the manifest it displaced is the previous one, stored with its edges, and no
   * retention request may delete it.
   */
  lemma DisplacedManifestIsKept(events: seq<Event>, k: nat, n: nat, id: Key, m: Manifest, rows: seq<Row>,
                                external: seq<P.Protection>, heat: set<Key>, at: Time)
    requires k < n <= |events| && Runs(EMPTY, events, n) && DisplacesAt(events, k, id)
    requires m == Run(EMPTY, events, k).documents[id].manifest && OnlyObserved(events, k + 1, n)
    ensures KeptAsPrevious(Run(EMPTY, events, n), id, m)
    ensures !MayDeleteManifest(Run(EMPTY, events, n), rows, external, heat, at, id)
  {
    RunsBefore(events, k + 1, n);
    DisplacedIsPrevious(events, k, id);
    KeptUntilMoved(events, k + 1, n, id, m);
    PreviousIsNotDeletable(Run(EMPTY, events, n), id, m, rows, external, heat, at);
  }

  // ----- A run of two activations -----

  /** Two canonical manifests of served releases that share neither references, id nor fingerprint. */
  predicate TwoManifests(releases: map<ReleaseId, Release>, a: Op, b: Op) {
    && a.Activate? && b.Activate? && Parsed(a) && Parsed(b) && !Shares(Receipt(a.call, 0, None), b.call)
    && a.manifest.canonical && b.manifest.canonical && a.policy && b.policy
    && Served(EMPTY.(releases := releases), a.manifest.references)
    && Served(EMPTY.(releases := releases), b.manifest.references)
    && a.manifest.publicId != b.manifest.publicId && a.manifest.fingerprint != b.manifest.fingerprint
    && a.manifest.references != b.manifest.references
  }

  /** The state row after the first activation of a new store. */
  function AfterFirst(a: Op, at: Time): Expected
    requires a.Activate?
  {
    var m := a.manifest;
    var core := Core(1, Some(Pointer(Identity(m.publicId, m.fingerprint, m.epoch, m.references), at, at)), None,
                     Some(a.observation));
    Expected(core, Some(Receipt(a.call, at, Some(core))))
  }

  lemma FirstOfTwo(w: World, a: Op, b: Op, at: Time)
    requires I.Inv(w) && w == EMPTY.(releases := w.releases) && TwoManifests(w.releases, a, b)
    requires a.expected == Expected(Core(0, None, None, None), None)
    ensures var w' := Then(w, a, at);
            && Answer(w, a, at).Done? && I.Inv(w') && w'.releases == w.releases && w'.blocks == map[]
            && w'.documents.Keys == {a.manifest.publicId} && w'.documents[a.manifest.publicId].manifest == a.manifest
            && ActiveId(w') == Some(a.manifest.publicId) && Expects(w', AfterFirst(a, at))
            && Selected(w').active == AfterFirst(a, at).core.active && Fresh(w', b.call)
  {
    ActivationAnswers(w, a, at);
    ActivationLeaves(w, a, at);
    I.StepKeepsInv(w, a, at);
  }

  /** The second activation of a new store shows its manifest and keeps the first one as previous. */
  lemma SecondOfTwo(w: World, a: Op, b: Op, at: Time, now: Time)
    requires I.Inv(w) && w.blocks == map[] && TwoManifests(w.releases, a, b) && Fresh(w, b.call)
    requires w.documents.Keys == {a.manifest.publicId} && w.documents[a.manifest.publicId].manifest == a.manifest
    requires ActiveId(w) == Some(a.manifest.publicId) && Expects(w, b.expected)
    requires Selected(w).active == AfterFirst(a, at).core.active
    ensures Answer(w, b, now).Done? && ActiveId(Then(w, b, now)) == Some(b.manifest.publicId)
    ensures PreviousId(Then(w, b, now)) == Some(a.manifest.publicId)
    ensures KeptAsPrevious(Then(w, b, now), a.manifest.publicId, a.manifest)
  {
    ActivationAnswers(w, b, now);
    ActivationLeaves(w, b, now);
    ActivationKeepsTheDisplaced(w, b, now, a.manifest.publicId);
  }

  function TwoActivations(releases: map<ReleaseId, Release>, a: Op, at: Time, b: Op, now: Time): seq<Event> {
    [ChangeReleases(releases), Publish(a, at), Publish(b, now)]
  }

  lemma RunOfTwo(releases: map<ReleaseId, Release>, a: Op, at: Time, b: Op, now: Time)
    ensures var events, w := TwoActivations(releases, a, at, b, now), EMPTY.(releases := releases);
            && Run(EMPTY, events, 1) == w && Run(EMPTY, events, 2) == Then(w, a, at)
            && Run(EMPTY, events, 3) == Then(Then(w, a, at), b, now)
            && (Parsed(a) && Parsed(b) ==> Runs(EMPTY, events, 3))
  {
    var events := TwoActivations(releases, a, at, b, now);
    assert Run(EMPTY, events, 0) == EMPTY && Runs(EMPTY, events, 0);
    assert Run(EMPTY, events, 1) == Next(EMPTY, events[0]) && Enabled(EMPTY, events[0]);
    assert Runs(EMPTY, events, 1);
    assert Run(EMPTY, events, 2) == Next(Run(EMPTY, events, 1), events[1]);
    if Parsed(a) && Parsed(b) {
      assert Runs(EMPTY, events, 2);
    }
  }

  /** From an empty store: releases, an activation and a second one; the first manifest is kept as previous. */
  lemma TwoActivationsKeepBoth(releases: map<ReleaseId, Release>, a: Op, at: Time, b: Op, now: Time)
    requires TwoManifests(releases, a, b) && a.expected == Expected(Core(0, None, None, None), None)
    requires b.expected == AfterFirst(a, at)
    ensures var events := TwoActivations(releases, a, at, b, now);
            && Runs(EMPTY, events, 3) && DisplacesAt(events, 2, a.manifest.publicId)
            && ActiveId(Run(EMPTY, events, 3)) == Some(b.manifest.publicId)
            && KeptAsPrevious(Run(EMPTY, events, 3), a.manifest.publicId, a.manifest)
  {
    var w := EMPTY.(releases := releases);
    RunOfTwo(releases, a, at, b, now);
    assert I.Inv(w);
    FirstOfTwo(w, a, b, at);
    SecondOfTwo(Then(w, a, at), a, b, at, now);
  }
}
