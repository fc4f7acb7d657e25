/**
 * The pack store as a state machine: staging, finalizing and blocking snapshots, and the fenced
 * operations on one pack's head (`activate`, `hold`, `activateRetained`, `resume`).
 */
module PackHeads {
  import opened Prelude
  import opened PackSnapshot

  /** `latestAcceptedPackPublicationSequence` as the number it writes; see PublicationSequence. */
  datatype Head = Head(
    generation: nat, epoch: nat, held: bool, sequence: nat, active: Key, previous: Option<Key>)

  datatype Membership = Membership(collectible: Key, pack: Key, snapshot: Key)

  datatype World = World(roots: map<Key, Root>, heads: map<Key, Head>, memberships: set<Membership>)

  datatype Expected = Expected(generation: nat, epoch: nat, active: Option<Key>)

  /** `content` stands for the identity fields that the snapshot's digests determine. */
  datatype Intent = Intent(
    id: Key, pack: Key, content: Content, sequence: nat, evidence: Key, evidenceSequence: nat, expected: Expected,
    createdAt: Time, expiresAt: Time)

  datatype Op =
    | Start(id: Key, pack: Key, header: Header, manifest: seq<Entry>, valuationCount: nat, content: Content,
            sequence: nat, evidence: Key, summaryHolds: bool, providerHead: Option<Key>)
    | Batch(id: Key, pack: Key, index: nat, records: seq<Record>, collectibleHeads: map<Key, Key>)
    | Seal(id: Key, pack: Key, content: Content)
    | Activate(intent: Intent, now: Time, providerHead: Option<Key>)
    | Block(id: Key, pack: Key, reason: Reason)
    | Hold(pack: Key, generation: nat, epoch: nat)
    | ActivateRetained(pack: Key, generation: nat, epoch: nat, target: Key)
    | Resume(pack: Key, generation: nat, epoch: nat)

  /** The request schema: anything else is refused before the store is read. */
  predicate Parsed(op: Op) {
    match op
    case Start(_, _, h, _, _, _, _, _, _, _) => |h.categories| <= MAX_CATEGORIES
    case Batch(_, _, _, rs, _) => rs != []
    case _ => true
  }

  // ----- Staging steps -----

  function StartStep(w: World, op: Op): (World, Outcome)
    requires op.Start?
  {
    if !op.summaryHolds then (w, Declined(InvalidDomainData))
    else if op.id in w.roots then
      var root := w.roots[op.id];
      if root.state.Blocked? then (w, Declined(root.state.reason))
      else if (root.header, root.manifest, root.valuationCount, root.content, root.pack)
              != (op.header, op.manifest, op.valuationCount, op.content, op.pack) then (w, Conflict)
      else if op.sequence < root.sequence then (w, Conflict)
      else if op.sequence > root.sequence then
        (w.(roots := w.roots[op.id := root.(sequence := op.sequence, evidence := op.evidence)]), Applied)
      else (w, AlreadyApplied)
    else
      var required := op.pack !in w.heads;
      if required && op.providerHead != Some(op.header.providerProfile) then (w, Declined(ProfileHeadMissing))
      else
        (w.(roots := w.roots[op.id := Started(op.pack, op.header, op.manifest, op.valuationCount, op.content,
                                              op.sequence, op.evidence, required)]), Applied)
  }

  /** The root of a request that names both a snapshot and its pack. */
  predicate Names(w: World, id: Key, pack: Key) {
    id in w.roots && w.roots[id].pack == pack
  }

  function MembershipRows(id: Key, pack: Key, rs: seq<Record>): set<Membership> {
    set i | 0 <= i < |rs| :: Membership(rs[i].collectible, pack, id)
  }

  function BatchStep(w: World, op: Op): (World, Outcome)
    requires op.Batch? && op.records != []
  {
    if !Names(w, op.id, op.pack) then (w, Declined(IncompleteContents))
    else
      var (root, outcome) := ApplyBatch(w.roots[op.id], op.index, op.records, op.collectibleHeads);
      if !outcome.Applied? then (w, outcome)
      else
        (w.(roots := w.roots[op.id := root], memberships := w.memberships + MembershipRows(op.id, op.pack, op.records)),
         Applied)
  }

  function SealStep(w: World, op: Op): (World, Outcome)
    requires op.Seal?
  {
    if op.id !in w.roots then (w, Declined(IncompleteContents))
    else if (w.roots[op.id].pack, w.roots[op.id].content) != (op.pack, op.content) then (w, Declined(InvalidDomainData))
    else
      var (root, outcome) := Finalize(w.roots[op.id]);
      (w.(roots := w.roots[op.id := root]), outcome)
  }

  predicate IsActive(w: World, id: Key, pack: Key) {
    pack in w.heads && w.heads[pack].active == id
  }

  function BlockStep(w: World, op: Op): (World, Outcome)
    requires op.Block?
  {
    if !Names(w, op.id, op.pack) then (w, Declined(IncompleteContents))
    else if w.roots[op.id].state.Blocked? then (w, AlreadyApplied)
    else if IsActive(w, op.id, op.pack) then (w, Conflict)
    else (w.(roots := w.roots[op.id := w.roots[op.id].(state := Blocked(op.reason))]), Applied)
  }

  // ----- Head steps -----

  /** `initialProfileProofHolds`. */
  predicate InitialProofHolds(root: Root, providerHead: Option<Key>) {
    && providerHead == Some(root.header.providerProfile)
    && |root.dependencies| == |root.manifest|
    && DependencyCount(root.dependencies) == root.header.contentCount
  }

  function DependencyCount(ds: seq<Dependency>): nat {
    if ds == [] then 0 else DependencyCount(ds[..|ds| - 1]) + ds[|ds| - 1].count
  }

  predicate FirstActivationProven(root: Root, providerHead: Option<Key>) {
    && root.proof.required && root.proof.providerVerified
    && root.proof.collectiblesVerified == root.header.contentCount
    && InitialProofHolds(root, providerHead)
  }

  /** The checks of `activate` that read the snapshot alone. */
  function RootGuard(w: World, i: Intent, now: Time): Option<Outcome> {
    if i.id !in w.roots || w.roots[i.id].state.Staging? then Some(Declined(IncompleteContents))
    else
      var root := w.roots[i.id];
      if root.state.Blocked? then Some(Declined(root.state.reason))
      else if (root.pack, root.content) != (i.pack, i.content) || i.evidenceSequence != i.sequence then
        Some(Declined(InvalidDomainData))
      else if i.expiresAt <= now then Some(Declined(OperationExpired))
      else if i.sequence != root.sequence || i.evidence != root.evidence then Some(Conflict)
      else if i.createdAt >= root.header.evValidUntil then Some(Declined(EvInputsPending))
      else None
  }

  /** The checks of `activate` against the head, once the snapshot has passed. */
  function HeadGuard(w: World, i: Intent, providerHead: Option<Key>): Option<Outcome>
    requires i.id in w.roots
  {
    if i.pack !in w.heads then
      if i.expected != Expected(0, 0, None) then Some(Conflict)
      else if !FirstActivationProven(w.roots[i.id], providerHead) then Some(Declined(ProfileHeadMissing))
      else None
    else
      var head := w.heads[i.pack];
      if head.held then Some(Declined(OperatorHold))
      else if i.expected != Expected(head.generation, head.epoch, Some(head.active)) then Some(Conflict)
      else if head.active != i.id && i.sequence <= head.sequence then Some(Conflict)
      else None
  }

  /** A new head in place of `head`, with the displaced and the selected snapshot marked. */
  function Replaced(w: World, pack: Key, head: Head, cause: DisplacedBy): World
    requires head.active in w.roots
  {
    var marked :=
      if head.previous.Some? && head.previous.value in w.roots then
        w.roots[head.previous.value := w.roots[head.previous.value].(deactivatedBy := Some(cause))]
      else w.roots;
    w.(heads := w.heads[pack := head],
       roots := marked[head.active := marked[head.active].(deactivatedBy := None)])
  }

  function ActivateStep(w: World, op: Op): (World, Outcome)
    requires op.Activate?
  {
    var i := op.intent;
    var rootGuard := RootGuard(w, i, op.now);
    if rootGuard.Some? then (w, rootGuard.value)
    else
      var headGuard := HeadGuard(w, i, op.providerHead);
      if headGuard.Some? then (w, headGuard.value)
      else if i.pack !in w.heads then
        (Replaced(w, i.pack, Head(1, 0, false, i.sequence, i.id, None), ByActivation), Applied)
      else
        var head := w.heads[i.pack];
        if head.active == i.id then
          (if i.sequence > head.sequence then w.(heads := w.heads[i.pack := head.(sequence := i.sequence)]) else w,
           AlreadyActive)
        else
          (Replaced(w, i.pack, Head(head.generation + 1, head.epoch, false, i.sequence, i.id, Some(head.active)),
                    ByActivation), Applied)
  }

  predicate ExpectationMatches(w: World, pack: Key, held: bool, generation: nat, epoch: nat) {
    pack in w.heads && w.heads[pack].held == held && w.heads[pack].generation == generation
    && w.heads[pack].epoch == epoch
  }

  function HoldStep(w: World, op: Op): (World, Outcome)
    requires op.Hold?
  {
    if !ExpectationMatches(w, op.pack, false, op.generation, op.epoch) then (w, Conflict)
    else (w.(heads := w.heads[op.pack := w.heads[op.pack].(held := true, epoch := w.heads[op.pack].epoch + 1)]),
          Applied)
  }

  function RetainedStep(w: World, op: Op): (World, Outcome)
    requires op.ActivateRetained?
  {
    if !ExpectationMatches(w, op.pack, true, op.generation, op.epoch)
       || w.heads[op.pack].previous != Some(op.target) then
      (w, Conflict)
    else if op.target !in w.roots then (w, Declined(IncompleteContents))
    else if !w.roots[op.target].state.Complete? then
      (w, Declined(if w.roots[op.target].state.Blocked? then w.roots[op.target].state.reason else IncompleteContents))
    else
      var head := w.heads[op.pack];
      (Replaced(w, op.pack, Head(head.generation + 1, head.epoch, true, head.sequence, op.target, Some(head.active)),
                ByRollback), Applied)
  }

  function ResumeStep(w: World, op: Op): (World, Outcome)
    requires op.Resume?
  {
    if !ExpectationMatches(w, op.pack, true, op.generation, op.epoch) then (w, Conflict)
    else (w.(heads := w.heads[op.pack := w.heads[op.pack].(held := false)]), Applied)
  }

  function Step(w: World, op: Op): (World, Outcome)
    requires Parsed(op)
  {
    match op
    case Start(_, _, _, _, _, _, _, _, _, _) => StartStep(w, op)
    case Batch(_, _, _, _, _) => BatchStep(w, op)
    case Seal(_, _, _) => SealStep(w, op)
    case Activate(_, _, _) => ActivateStep(w, op)
    case Block(_, _, _) => BlockStep(w, op)
    case Hold(_, _, _) => HoldStep(w, op)
    case ActivateRetained(_, _, _, _) => RetainedStep(w, op)
    case Resume(_, _, _) => ResumeStep(w, op)
  }

  function Next(w: World, op: Op): World {
    if Parsed(op) then Step(w, op).0 else w
  }

  function Run(w: World, ops: seq<Op>): World {
    if ops == [] then w else Next(Run(w, ops[..|ops| - 1]), ops[|ops| - 1])
  }

  // ----- What every step keeps -----

  /** A complete snapshot satisfies the whole-pack schema, save for repeated valuations. */
  ghost predicate Whole(root: Root) {
    && |root.batches| == |root.manifest|
    && root.content == Content(root.header, root.content.profiles, root.content.valuations, root.manifest)
    && Sealed(root.header, Contents(root.batches), root.content.profiles, root.content.valuations)
  }

  ghost predicate SoundRoot(root: Root) {
    && |root.header.categories| <= MAX_CATEGORIES
    && Staged(root)
    && (root.state.Complete? ==> Whole(root))
  }

  ghost predicate SoundHead(roots: map<Key, Root>, pack: Key, head: Head) {
    && head.generation >= 1
    && head.active in roots && roots[head.active].pack == pack && roots[head.active].state.Complete?
    && (head.previous.Some? ==>
          && head.previous.value != head.active
          && head.previous.value in roots && roots[head.previous.value].pack == pack
          && !roots[head.previous.value].state.Staging?)
  }

  ghost predicate SoundRoots(w: World) {
    forall id :: id in w.roots ==> SoundRoot(w.roots[id])
  }

  ghost predicate SoundHeads(w: World) {
    forall pack :: pack in w.heads ==> SoundHead(w.roots, pack, w.heads[pack])
  }

  /** `publicPackMemberships` lists exactly the stored contents of every snapshot. */
  ghost predicate MembershipsMatch(w: World) {
    && (forall m :: m in w.memberships ==> Names(w, m.snapshot, m.pack) && Holds(w.roots[m.snapshot], m.collectible))
    && (forall id, c :: id in w.roots && Holds(w.roots[id], c) ==> Membership(c, w.roots[id].pack, id) in w.memberships)
  }

  /** The collectible is among the snapshot's stored contents. */
  predicate Holds(root: Root, collectible: Key) {
    collectible in Ids(Contents(root.batches))
  }

  ghost predicate Inv(w: World) {
    SoundRoots(w) && SoundHeads(w) && MembershipsMatch(w)
  }

  /** One root keeps its pack, never returns to staging, and stays complete while it is active. */
  ghost predicate Evolves(w: World, id: Key, root: Root) {
    id in w.roots ==>
      && root.pack == w.roots[id].pack
      && (!w.roots[id].state.Staging? ==> !root.state.Staging?)
      && (w.roots[id].state.Complete? && IsActive(w, id, root.pack) ==> root.state.Complete?)
  }

  lemma HeadsSurviveOneRoot(w: World, id: Key, root: Root)
    requires SoundHeads(w) && Evolves(w, id, root)
    ensures SoundHeads(w.(roots := w.roots[id := root]))
  {
    var roots := w.roots[id := root];
    forall pack | pack in w.heads ensures SoundHead(roots, pack, w.heads[pack]) {
      assert SoundHead(w.roots, pack, w.heads[pack]);
    }
  }

  lemma RootsSurviveOneRoot(w: World, id: Key, root: Root)
    requires SoundRoots(w) && SoundRoot(root)
    ensures SoundRoots(w.(roots := w.roots[id := root]))
  {
  }

  /** Changing one root without touching its contents. */
  lemma OneRootKeepsInv(w: World, id: Key, root: Root)
    requires Inv(w) && SoundRoot(root) && Evolves(w, id, root)
    requires if id in w.roots then root.batches == w.roots[id].batches else root.batches == []
    ensures Inv(w.(roots := w.roots[id := root]))
  {
    HeadsSurviveOneRoot(w, id, root);
    RootsSurviveOneRoot(w, id, root);
    var w' := w.(roots := w.roots[id := root]);
    forall m | m in w'.memberships ensures Names(w', m.snapshot, m.pack) && Holds(w'.roots[m.snapshot], m.collectible) {
      assert Names(w, m.snapshot, m.pack) && Holds(w.roots[m.snapshot], m.collectible);
    }
    forall k, c | k in w'.roots && Holds(w'.roots[k], c) ensures Membership(c, w'.roots[k].pack, k) in w'.memberships {
      assert k in w.roots && Holds(w.roots[k], c);
    }
  }

  lemma MarkingIsSound(root: Root, deactivatedBy: Option<DisplacedBy>)
    requires SoundRoot(root)
    ensures SoundRoot(root.(deactivatedBy := deactivatedBy))
  {
  }

  /** Two root tables that differ only in their displacement marks. */
  ghost predicate SameButMarks(roots: map<Key, Root>, roots': map<Key, Root>) {
    && roots.Keys == roots'.Keys
    && forall id :: id in roots ==> roots'[id] == roots[id].(deactivatedBy := roots'[id].deactivatedBy)
  }

  lemma ReplacedOnlyMarks(w: World, pack: Key, head: Head, cause: DisplacedBy)
    requires head.active in w.roots
    ensures SameButMarks(w.roots, Replaced(w, pack, head, cause).roots)
    ensures Replaced(w, pack, head, cause).heads == w.heads[pack := head]
    ensures Replaced(w, pack, head, cause).memberships == w.memberships
  {
  }

  lemma MarksKeepRoots(w: World, w': World)
    requires SoundRoots(w) && SameButMarks(w.roots, w'.roots)
    ensures SoundRoots(w')
  {
    forall id | id in w'.roots ensures SoundRoot(w'.roots[id]) {
      MarkingIsSound(w.roots[id], w'.roots[id].deactivatedBy);
    }
  }

  lemma NewHeadKeepsHeads(w: World, w': World, pack: Key, head: Head)
    requires SoundHeads(w) && SameButMarks(w.roots, w'.roots) && w'.heads == w.heads[pack := head]
    requires SoundHead(w.roots, pack, head)
    ensures SoundHeads(w')
  {
    forall p | p in w'.heads ensures SoundHead(w'.roots, p, w'.heads[p]) {
      assert p != pack ==> SoundHead(w.roots, p, w.heads[p]);
    }
  }

  lemma MarksKeepMemberships(w: World, w': World)
    requires MembershipsMatch(w) && SameButMarks(w.roots, w'.roots) && w'.memberships == w.memberships
    ensures MembershipsMatch(w')
  {
    forall m | m in w'.memberships ensures Names(w', m.snapshot, m.pack) && Holds(w'.roots[m.snapshot], m.collectible) {
      assert Names(w, m.snapshot, m.pack) && Holds(w.roots[m.snapshot], m.collectible);
    }
    forall k, c | k in w'.roots && Holds(w'.roots[k], c) ensures Membership(c, w'.roots[k].pack, k) in w'.memberships {
      assert k in w.roots && Holds(w.roots[k], c);
    }
  }

  /** A step that only replaces one head and marks roots. */
  lemma NewHeadKeepsInv(w: World, w': World, pack: Key, head: Head)
    requires Inv(w) && SameButMarks(w.roots, w'.roots) && w'.heads == w.heads[pack := head]
             && w'.memberships == w.memberships
    requires SoundHead(w.roots, pack, head)
    ensures Inv(w')
  {
    MarksKeepRoots(w, w');
    NewHeadKeepsHeads(w, w', pack, head);
    MarksKeepMemberships(w, w');
  }

  // ----- Each kind of step -----

  lemma RedeclaringIsSound(root: Root, sequence: nat, evidence: Key)
    requires SoundRoot(root)
    ensures SoundRoot(root.(sequence := sequence, evidence := evidence))
  {
  }

  lemma StartedIsSound(op: Op, required: bool)
    requires op.Start? && Parsed(op)
    ensures SoundRoot(Started(op.pack, op.header, op.manifest, op.valuationCount, op.content, op.sequence, op.evidence,
                              required))
  {
    StartedIsStaged(op.pack, op.header, op.manifest, op.valuationCount, op.content, op.sequence, op.evidence, required);
  }

  lemma RedeclaringKeepsInv(w: World, id: Key, sequence: nat, evidence: Key)
    requires Inv(w) && id in w.roots
    ensures Inv(w.(roots := w.roots[id := w.roots[id].(sequence := sequence, evidence := evidence)]))
  {
    RedeclaringIsSound(w.roots[id], sequence, evidence);
    OneRootKeepsInv(w, id, w.roots[id].(sequence := sequence, evidence := evidence));
  }

  lemma StartingKeepsInv(w: World, op: Op, required: bool)
    requires Inv(w) && op.Start? && Parsed(op) && op.id !in w.roots
    ensures Inv(w.(roots := w.roots[op.id := Started(op.pack, op.header, op.manifest, op.valuationCount, op.content,
                                                     op.sequence, op.evidence, required)]))
  {
    StartedIsSound(op, required);
    OneRootKeepsInv(w, op.id,
                    Started(op.pack, op.header, op.manifest, op.valuationCount, op.content, op.sequence, op.evidence,
                            required));
  }

  lemma StartChangesOneRoot(w: World, op: Op)
    requires op.Start?
    ensures op.id in w.roots ==>
              || StartStep(w, op).0 == w
              || StartStep(w, op).0 ==
                 w.(roots := w.roots[op.id := w.roots[op.id].(sequence := op.sequence, evidence := op.evidence)])
    ensures op.id !in w.roots ==>
              || StartStep(w, op).0 == w
              || StartStep(w, op).0
                 == w.(roots := w.roots[op.id := Started(op.pack, op.header, op.manifest, op.valuationCount, op.content,
                                                         op.sequence, op.evidence, op.pack !in w.heads)])
  {
  }

  lemma StartKeepsInv(w: World, op: Op)
    requires Inv(w) && op.Start? && Parsed(op)
    ensures Inv(StartStep(w, op).0)
  {
    StartChangesOneRoot(w, op);
    if op.id in w.roots {
      RedeclaringKeepsInv(w, op.id, op.sequence, op.evidence);
    } else {
      StartingKeepsInv(w, op, op.pack !in w.heads);
    }
  }

  lemma IdsAppend(a: seq<Record>, b: seq<Record>)
    ensures Ids(a + b) == Ids(a) + Ids(b)
  {
  }

  lemma RowsOfBatch(id: Key, pack: Key, rs: seq<Record>, m: Membership)
    ensures m in MembershipRows(id, pack, rs) <==> m.collectible in Ids(rs) && m.pack == pack && m.snapshot == id
  {
    if m.collectible in Ids(rs) && m.pack == pack && m.snapshot == id {
      var i :| 0 <= i < |Ids(rs)| && Ids(rs)[i] == m.collectible;
      assert m == Membership(rs[i].collectible, pack, id);
    }
    if m in MembershipRows(id, pack, rs) {
      var i :| 0 <= i < |rs| && m == Membership(rs[i].collectible, pack, id);
      assert Ids(rs)[i] == m.collectible;
    }
  }

  lemma BatchKeepsMemberships(w: World, id: Key, root: Root, rs: seq<Record>)
    requires MembershipsMatch(w) && id in w.roots && root.pack == w.roots[id].pack
    requires Contents(root.batches) == Contents(w.roots[id].batches) + rs
    ensures MembershipsMatch(w.(roots := w.roots[id := root],
                                memberships := w.memberships + MembershipRows(id, root.pack, rs)))
  {
    var w' := w.(roots := w.roots[id := root], memberships := w.memberships + MembershipRows(id, root.pack, rs));
    IdsAppend(Contents(w.roots[id].batches), rs);
    forall m | m in w'.memberships ensures Names(w', m.snapshot, m.pack) && Holds(w'.roots[m.snapshot], m.collectible) {
      RowsOfBatch(id, root.pack, rs, m);
    }
    forall k, c | k in w'.roots && Holds(w'.roots[k], c) ensures Membership(c, w'.roots[k].pack, k) in w'.memberships {
      RowsOfBatch(id, root.pack, rs, Membership(c, w'.roots[k].pack, k));
      assert k != id ==> Holds(w.roots[k], c);
      assert k == id && c !in Ids(rs) ==> Holds(w.roots[k], c);
    }
  }

  lemma AbsorbedIsSound(root: Root, rs: seq<Record>)
    requires SoundRoot(root) && rs != [] && root.state.Staging? && !BatchInvalid(root, |root.batches|, rs)
    requires root.probabilitySum + Probability(rs) <= PROBABILITY_TOTAL
    ensures SoundRoot(Absorbed(root, rs))
    ensures Contents(Absorbed(root, rs).batches) == Contents(root.batches) + rs
  {
    AbsorbKeepsStaged(root, rs);
    assert Absorbed(root, rs).header == root.header && Absorbed(root, rs).state == root.state;
  }

  lemma AppliedBatchIsAbsorbed(root: Root, index: nat, rs: seq<Record>, heads: map<Key, Key>)
    requires rs != [] && ApplyBatch(root, index, rs, heads).1.Applied?
    ensures ApplyBatch(root, index, rs, heads).0 == Absorbed(root, rs)
    ensures root.state.Staging? && !BatchInvalid(root, |root.batches|, rs)
    ensures root.probabilitySum + Probability(rs) <= PROBABILITY_TOTAL
    ensures Absorbed(root, rs).state == root.state && Absorbed(root, rs).pack == root.pack
  {
  }

  lemma BatchKeepsInv(w: World, op: Op)
    requires Inv(w) && op.Batch? && Parsed(op)
    ensures Inv(BatchStep(w, op).0)
  {
    if BatchStep(w, op).1.Applied? {
      AppliedBatchIsAbsorbed(w.roots[op.id], op.index, op.records, op.collectibleHeads);
      AbsorbedIsSound(w.roots[op.id], op.records);
      var root := Absorbed(w.roots[op.id], op.records);
      RootsSurviveOneRoot(w, op.id, root);
      HeadsSurviveOneRoot(w, op.id, root);
      BatchKeepsMemberships(w, op.id, root, op.records);
    }
  }

  lemma FinalizeOnlyEndsStaging(root: Root)
    ensures Finalize(root).0 == root.(state := Finalize(root).0.state)
    ensures !root.state.Staging? ==> Finalize(root).0 == root
    ensures root.state.Staging? && Finalize(root).0.state.Complete? ==> Finalize(root).1.Applied?
  {
  }

  lemma StateAloneKeepsStaged(root: Root, state: State)
    requires Staged(root)
    ensures Staged(root.(state := state))
  {
  }

  lemma FinalizeIsSound(root: Root)
    requires SoundRoot(root)
    ensures SoundRoot(Finalize(root).0)
  {
    FinalizeOnlyEndsStaging(root);
    StateAloneKeepsStaged(root, Finalize(root).0.state);
    if root.state.Staging? && Finalize(root).0.state.Complete? {
      FinalizeChecksTheWhole(root);
    }
  }

  lemma SealKeepsInv(w: World, op: Op)
    requires Inv(w) && op.Seal?
    ensures Inv(SealStep(w, op).0)
  {
    if op.id in w.roots {
      assert SoundRoot(w.roots[op.id]);
      FinalizeIsSound(w.roots[op.id]);
      FinalizeOnlyEndsStaging(w.roots[op.id]);
      OneRootKeepsInv(w, op.id, Finalize(w.roots[op.id]).0);
    }
  }

  lemma BlockKeepsInv(w: World, op: Op)
    requires Inv(w) && op.Block?
    ensures Inv(BlockStep(w, op).0)
  {
    if BlockStep(w, op).1.Applied? {
      assert SoundRoot(w.roots[op.id]);
      OneRootKeepsInv(w, op.id, w.roots[op.id].(state := Blocked(op.reason)));
    }
  }

  /** The head an accepted `activate` leaves. */
  function HeadAfter(w: World, i: Intent): Head {
    if i.pack !in w.heads then Head(1, 0, false, i.sequence, i.id, None)
    else
      var head := w.heads[i.pack];
      if head.active == i.id then head.(sequence := if i.sequence > head.sequence then i.sequence else head.sequence)
      else Head(head.generation + 1, head.epoch, false, i.sequence, i.id, Some(head.active))
  }

  lemma ActivateReplacesOneHead(w: World, op: Op)
    requires op.Activate? && RootGuard(w, op.intent, op.now).None? && HeadGuard(w, op.intent, op.providerHead).None?
    ensures var w' := ActivateStep(w, op).0;
            && w'.heads == w.heads[op.intent.pack := HeadAfter(w, op.intent)]
            && SameButMarks(w.roots, w'.roots) && w'.memberships == w.memberships
    ensures op.intent.id in w.roots && w.roots[op.intent.id].state.Complete?
            && w.roots[op.intent.id].pack == op.intent.pack
  {
    var head := HeadAfter(w, op.intent);
    if op.intent.pack in w.heads && w.heads[op.intent.pack].active == op.intent.id {
    } else {
      ReplacedOnlyMarks(w, op.intent.pack, head, ByActivation);
    }
  }

  lemma ActivateKeepsInv(w: World, op: Op)
    requires Inv(w) && op.Activate?
    ensures Inv(ActivateStep(w, op).0)
  {
    var i := op.intent;
    if RootGuard(w, i, op.now).None? && HeadGuard(w, i, op.providerHead).None? {
      ActivateReplacesOneHead(w, op);
      NextActiveIsSound(w, op);
      NewHeadKeepsInv(w, ActivateStep(w, op).0, i.pack, HeadAfter(w, i));
    }
  }

  lemma NextActiveIsSound(w: World, op: Op)
    requires SoundHeads(w) && op.Activate?
    requires RootGuard(w, op.intent, op.now).None? && HeadGuard(w, op.intent, op.providerHead).None?
    ensures SoundHead(w.roots, op.intent.pack, HeadAfter(w, op.intent))
  {
    ActivateReplacesOneHead(w, op);
    assert op.intent.pack in w.heads ==> SoundHead(w.roots, op.intent.pack, w.heads[op.intent.pack]);
  }

  /** The head an accepted retained activation leaves. */
  function HeadRetained(head: Head, target: Key): Head {
    Head(head.generation + 1, head.epoch, true, head.sequence, target, Some(head.active))
  }

  lemma RetainedReplacesOneHead(w: World, op: Op)
    requires op.ActivateRetained? && RetainedStep(w, op).1.Applied?
    ensures var w' := RetainedStep(w, op).0;
            && w'.heads == w.heads[op.pack := HeadRetained(w.heads[op.pack], op.target)]
            && SameButMarks(w.roots, w'.roots) && w'.memberships == w.memberships
  {
    ReplacedOnlyMarks(w, op.pack, HeadRetained(w.heads[op.pack], op.target), ByRollback);
  }

  lemma RetainedIsSound(w: World, op: Op)
    requires SoundHeads(w) && op.ActivateRetained? && RetainedStep(w, op).1.Applied?
    ensures SoundHead(w.roots, op.pack, HeadRetained(w.heads[op.pack], op.target))
  {
    assert SoundHead(w.roots, op.pack, w.heads[op.pack]);
  }

  lemma RetainedKeepsInv(w: World, op: Op)
    requires Inv(w) && op.ActivateRetained?
    ensures Inv(RetainedStep(w, op).0)
  {
    var (w', outcome) := RetainedStep(w, op);
    if outcome.Applied? {
      RetainedReplacesOneHead(w, op);
      RetainedIsSound(w, op);
      NewHeadKeepsInv(w, w', op.pack, HeadRetained(w.heads[op.pack], op.target));
    } else {
      assert w' == w;
    }
  }

  lemma FencingReplacesOneHead(w: World, op: Op)
    requires SoundHeads(w) && (op.Hold? || op.Resume?) && Step(w, op).1.Applied?
    ensures var head' :=
              w.heads[op.pack].(held := op.Hold?, epoch := w.heads[op.pack].epoch + if op.Hold? then 1 else 0);
            Step(w, op).0 == w.(heads := w.heads[op.pack := head']) && SoundHead(w.roots, op.pack, head')
  {
    assert SoundHead(w.roots, op.pack, w.heads[op.pack]);
  }

  lemma FencingKeepsInv(w: World, op: Op)
    requires Inv(w) && (op.Hold? || op.Resume?)
    ensures Inv(Step(w, op).0)
  {
    if Step(w, op).1.Applied? {
      FencingReplacesOneHead(w, op);
      NewHeadKeepsInv(w, Step(w, op).0, op.pack, Step(w, op).0.heads[op.pack]);
    }
  }

  lemma NextKeepsInv(w: World, op: Op)
    requires Inv(w)
    ensures Inv(Next(w, op))
  {
    if Parsed(op) {
      match op {
        case Start(_, _, _, _, _, _, _, _, _, _) => StartKeepsInv(w, op);
        case Batch(_, _, _, _, _) => BatchKeepsInv(w, op);
        case Seal(_, _, _) => SealKeepsInv(w, op);
        case Activate(_, _, _) => ActivateKeepsInv(w, op);
        case Block(_, _, _) => BlockKeepsInv(w, op);
        case Hold(_, _, _) => FencingKeepsInv(w, op);
        case ActivateRetained(_, _, _, _) => RetainedKeepsInv(w, op);
        case Resume(_, _, _) => FencingKeepsInv(w, op);
      }
    }
  }

  lemma {:induction false} RunKeepsInv(w: World, ops: seq<Op>)
    requires Inv(w)
    ensures Inv(Run(w, ops))
  {
    if ops != [] {
      RunKeepsInv(w, ops[..|ops| - 1]);
      NextKeepsInv(Run(w, ops[..|ops| - 1]), ops[|ops| - 1]);
    }
  }

  const EMPTY: World := World(map[], map[], {})

  /**
   * After every run, whatever a head shows is a complete snapshot of its own pack that satisfies the
   * whole-pack schema, it differs from the retained previous one, and the membership index lists
   * exactly the contents of every stored snapshot.
   */
  lemma ActiveSnapshotIsWhole(ops: seq<Op>, pack: Key)
    requires pack in Run(EMPTY, ops).heads
    ensures var w := Run(EMPTY, ops);
            var head := w.heads[pack];
            && head.active in w.roots && w.roots[head.active].pack == pack
            && w.roots[head.active].state.Complete? && Whole(w.roots[head.active])
            && head.previous != Some(head.active)
            && forall c :: Membership(c, pack, head.active) in w.memberships <==> Holds(w.roots[head.active], c)
  {
    RunKeepsInv(EMPTY, ops);
    var w := Run(EMPTY, ops);
    assert SoundHead(w.roots, pack, w.heads[pack]) && SoundRoot(w.roots[w.heads[pack].active]);
    forall c | Membership(c, pack, w.heads[pack].active) in w.memberships
      ensures Holds(w.roots[w.heads[pack].active], c)
    {
      assert Names(w, Membership(c, pack, w.heads[pack].active).snapshot, pack);
    }
  }

  lemma {:induction false} DependencyCountsContents(batches: seq<seq<Record>>)
    ensures DependencyCount(DependenciesOf(batches)) == |Contents(batches)|
  {
    if batches != [] {
      DependencyCountsContents(batches[..|batches| - 1]);
      var ds := DependenciesOf(batches);
      assert ds[..|ds| - 1] == DependenciesOf(batches[..|batches| - 1]);
    }
  }

  /**
   * The prerequisite proof sealed while staging is never short: a complete snapshot is refused its
   * first activation only because it was staged under an existing head or the provider's head moved.
   */
  lemma FirstActivationProofIsSealed(ops: seq<Op>, id: Key, providerHead: Option<Key>)
    requires id in Run(EMPTY, ops).roots && Run(EMPTY, ops).roots[id].state.Complete?
    ensures var root := Run(EMPTY, ops).roots[id];
            FirstActivationProven(root, providerHead) <==>
            root.proof.required && providerHead == Some(root.header.providerProfile)
  {
    RunKeepsInv(EMPTY, ops);
    var root := Run(EMPTY, ops).roots[id];
    assert SoundRoot(root);
    DependencyCountsContents(root.batches);
  }

  // ----- Fences over runs -----

  /** Generation, epoch and accepted sequence of a head never go back. */
  ghost predicate NotBefore(h: Head, h': Head) {
    h.generation <= h'.generation && h.epoch <= h'.epoch && h.sequence <= h'.sequence
  }

  /** One step on one head: who may move it, and how. */
  ghost predicate HeadMoves(w: World, op: Op, pack: Key, h: Head, h': Head) {
    && NotBefore(h, h')
    && (h'.active != h.active ==> h'.generation == h.generation + 1 && h'.previous == Some(h.active))
    && (h'.epoch != h.epoch <==> op.Hold? && op.pack == pack && HoldStep(w, op).1.Applied?)
  }

  lemma ActivateMoves(w: World, op: Op, pack: Key)
    requires op.Activate? && pack in w.heads
    ensures pack in ActivateStep(w, op).0.heads
            && HeadMoves(w, op, pack, w.heads[pack], ActivateStep(w, op).0.heads[pack])
  {
    if RootGuard(w, op.intent, op.now).None? && HeadGuard(w, op.intent, op.providerHead).None? {
      ActivateReplacesOneHead(w, op);
    }
  }

  lemma RetainedMoves(w: World, op: Op, pack: Key)
    requires op.ActivateRetained? && pack in w.heads
    ensures pack in RetainedStep(w, op).0.heads
            && HeadMoves(w, op, pack, w.heads[pack], RetainedStep(w, op).0.heads[pack])
  {
  }

  lemma NextIsMonotone(w: World, op: Op, pack: Key)
    requires pack in w.heads
    ensures pack in Next(w, op).heads && HeadMoves(w, op, pack, w.heads[pack], Next(w, op).heads[pack])
  {
    if Parsed(op) {
      match op {
        case Activate(_, _, _) => ActivateMoves(w, op, pack);
        case ActivateRetained(_, _, _, _) => RetainedMoves(w, op, pack);
        case Hold(_, _, _) =>
        case Resume(_, _, _) =>
        case Start(_, _, _, _, _, _, _, _, _, _) => assert StartStep(w, op).0.heads == w.heads;
        case Batch(_, _, _, _, _) => assert BatchStep(w, op).0.heads == w.heads;
        case Seal(_, _, _) => assert SealStep(w, op).0.heads == w.heads;
        case Block(_, _, _) => assert BlockStep(w, op).0.heads == w.heads;
      }
    }
  }

  lemma {:induction false} RunIsMonotone(w: World, ops: seq<Op>, pack: Key)
    requires pack in w.heads
    ensures pack in Run(w, ops).heads && NotBefore(w.heads[pack], Run(w, ops).heads[pack])
  {
    if ops != [] {
      RunIsMonotone(w, ops[..|ops| - 1], pack);
      NextIsMonotone(Run(w, ops[..|ops| - 1]), ops[|ops| - 1], pack);
    }
  }

  /** Once the epoch has moved on, `activate` changes nothing. */
  lemma StaleEpochIsRefused(w: World, op: Op)
    requires op.Activate? && op.intent.pack in w.heads && op.intent.expected.epoch < w.heads[op.intent.pack].epoch
    ensures ActivateStep(w, op).0 == w && !ActivateStep(w, op).1.Applied? && !ActivateStep(w, op).1.AlreadyActive?
  {
  }

  /**
   * An activation prepared before a hold is refused ever after, whatever happens in between: its
   * expectation names an older epoch, or no head at all.
   */
  lemma PreHoldActivationNeverApplies(w: World, before: seq<Op>, hold: Op, after: seq<Op>, op: Op)
    requires op.Activate? && hold.Hold? && hold.pack == op.intent.pack
    requires if hold.pack in w.heads then op.intent.expected.epoch <= w.heads[hold.pack].epoch
             else op.intent.expected == Expected(0, 0, None)
    requires HoldStep(Run(w, before), hold).1.Applied?
    ensures ActivateStep(Run(Next(Run(w, before), hold), after), op).0 == Run(Next(Run(w, before), hold), after)
    ensures !ActivateStep(Run(Next(Run(w, before), hold), after), op).1.Applied?
  {
    var held := Run(w, before);
    if hold.pack in w.heads {
      RunIsMonotone(w, before, hold.pack);
    }
    NextIsMonotone(held, hold, hold.pack);
    RunIsMonotone(Next(held, hold), after, hold.pack);
    StaleEpochIsRefused(Run(Next(held, hold), after), op);
  }

  /** `activate` selects another snapshot only under its own declared sequence, later than the accepted one. */
  lemma SwitchingNeedsALaterSequence(w: World, op: Op)
    requires op.Activate? && op.intent.pack in w.heads && w.heads[op.intent.pack].active != op.intent.id
    requires ActivateStep(w, op).1.Applied?
    ensures op.intent.id in w.roots && w.roots[op.intent.id].sequence == op.intent.sequence
    ensures op.intent.sequence > w.heads[op.intent.pack].sequence
  {
  }

  /**
   * A snapshot that was active, and has since been displaced by a later activation or by a retained
   * one, becomes active again through `activate` only when its declared sequence is later than every
   * sequence the head had accepted while the snapshot was showing.
   */
  lemma ReturnNeedsALaterSequence(w: World, ops: seq<Op>, op: Op)
    requires op.Activate? && op.intent.pack in w.heads && w.heads[op.intent.pack].active == op.intent.id
    requires op.intent.pack in Run(w, ops).heads && Run(w, ops).heads[op.intent.pack].active != op.intent.id
    requires ActivateStep(Run(w, ops), op).1.Applied?
    ensures op.intent.id in Run(w, ops).roots
    ensures Run(w, ops).roots[op.intent.id].sequence == op.intent.sequence > w.heads[op.intent.pack].sequence
  {
    RunIsMonotone(w, ops, op.intent.pack);
    SwitchingNeedsALaterSequence(Run(w, ops), op);
  }

  // ----- A sealed snapshot that the whole-pack schema refuses -----

  function StartPair(h: Header, a: Record, b: Record, id: Key, pack: Key): Op {
    Start(id, pack, h, PairManifest(a, b), 1, PairContent(h, a, b), 1, 0, true, Some(h.providerProfile))
  }

  function BatchPair(a: Record, b: Record, id: Key, pack: Key): Op {
    Batch(id, pack, 0, [a, b], PairHeads(a, b))
  }

  /** The start, the one batch and the seal of a pack of two contents. */
  function PairRun(h: Header, a: Record, b: Record, id: Key, pack: Key): seq<Op> {
    [StartPair(h, a, b, id, pack), BatchPair(a, b, id, pack), Seal(id, pack, PairContent(h, a, b))]
  }

  lemma RunOfThree(x: Op, y: Op, z: Op)
    ensures Run(EMPTY, [x, y]) == Next(Next(EMPTY, x), y)
    ensures Run(EMPTY, [x, y, z]) == Next(Run(EMPTY, [x, y]), z)
  {
    assert [x][..0] == [] && [x, y][..1] == [x] && [x, y, z][..2] == [x, y];
    assert Run(EMPTY, [x]) == Next(Run(EMPTY, []), x);
  }

  lemma PairStarts(h: Header, a: Record, b: Record, id: Key, pack: Key)
    requires |h.categories| <= MAX_CATEGORIES
    ensures Next(EMPTY, StartPair(h, a, b, id, pack)) == World(map[id := StartedPair(pack, h, a, b)], map[], {})
  {
  }

  lemma PairFills(w: World, h: Header, a: Record, b: Record, id: Key, pack: Key)
    requires SharesOneValuation(h, a, b) && w.roots == map[id := StartedPair(pack, h, a, b)]
    ensures Next(w, BatchPair(a, b, id, pack)).roots == map[id := FilledPair(pack, h, a, b)]
  {
    PairIsApplied(h, a, b, pack);
  }

  lemma PairSeals(w: World, h: Header, a: Record, b: Record, id: Key, pack: Key)
    requires SharesOneValuation(h, a, b) && w.roots == map[id := FilledPair(pack, h, a, b)]
    ensures Next(w, Seal(id, pack, PairContent(h, a, b))).roots ==
              map[id := FilledPair(pack, h, a, b).(state := Complete)]
  {
    PairFinalizes(h, a, b, pack);
  }

  /**
   * A run that starts, fills and seals a pack whose two eligible contents share a valuation: the
   * snapshot is complete, and the whole-pack schema refuses it.
   */
  lemma SealedButNotWhole(h: Header, a: Record, b: Record, id: Key, pack: Key)
    requires SharesOneValuation(h, a, b)
    ensures var w := Run(EMPTY, PairRun(h, a, b, id, pack));
            && id in w.roots && w.roots[id].state.Complete? && Contents(w.roots[id].batches) == [a, b]
            && !WholePack(h, Contents(w.roots[id].batches), w.roots[id].content.profiles,
                          w.roots[id].content.valuations)
  {
    var x, y, z := StartPair(h, a, b, id, pack), BatchPair(a, b, id, pack), Seal(id, pack, PairContent(h, a, b));
    RunOfThree(x, y, z);
    PairStarts(h, a, b, id, pack);
    PairFills(Next(EMPTY, x), h, a, b, id, pack);
    PairSeals(Run(EMPTY, [x, y]), h, a, b, id, pack);
    PairIsNotWhole(h, a, b, pack);
  }
}
