/**
 * What each mutation of the release pointer answers and what it leaves, for every branch: which
 * activations, rollbacks and initializations are accepted, why the others are refused, and where the
 * pointer, the journal and the marks go. Everything is stated on the stored rows.
 */
module RetainedEvAnswers {
  import opened Prelude
  import opened RetainedEvMerge
  import opened RetainedEvJournal
  import H = RetainedEvHistory

  // ----- The rows a request is about -----

  /** The public release, if any. */
  function Shown(w: World): Option<ReleaseId> {
    match w.state
    case Some(a) => a.active
    case None => None
  }

  function Generation(w: World): nat {
    match w.state
    case Some(a) => a.generation
    case None => 0
  }

  predicate Stored(w: World, id: Option<ReleaseId>) {
    id.Some? && id.value in w.releases
  }

  predicate Whole(w: World, id: ReleaseId) {
    id in w.releases && w.releases[id].complete
  }

  predicate WithFacts(w: World, id: ReleaseId) {
    Whole(w, id) && w.releases[id].facts.Some?
  }

  predicate Current(w: World, id: ReleaseId) {
    id in w.releases && w.releases[id].policyV3
  }

  /** The pointer row has no journal yet, and the release it would leave behind can start one. */
  predicate StartsFrom(w: World, id: Option<ReleaseId>) {
    (w.state.Some? ==> w.state.value.pointer.None?) && id.Some? && Current(w, id.value)
  }

  // ----- Releases -----

  /** A release is completed once, and its fact set is sealed once, after that. */
  lemma ReleaseAnswers(w: World, op: Op)
    requires op.Complete? || op.SealFacts?
    ensures op.Complete? ==>
              Step(w, op) == if op.id in w.releases then Refused(StateConflict)
                             else Success(w.(releases := w.releases[op.id := op.release]))
    ensures op.SealFacts? ==>
              && (Step(w, op).Success? <==> Whole(w, op.id) && w.releases[op.id].facts.None?)
              && (Step(w, op).Refused? ==> Step(w, op).error == StateConflict)
              && (Step(w, op).Success? ==>
                    Step(w, op).value ==
                    w.(releases := w.releases[op.id := w.releases[op.id].(facts := Some(op.facts))]))
  {
  }

  // ----- Activation -----

  /** The request names a complete release by its fingerprint. */
  predicate Names(w: World, op: Op)
    requires op.Activate?
  {
    Whole(w, op.id) && w.releases[op.id].fingerprint == op.fingerprint
  }

  /** The pointer is where the request expects it, and not yet at the requested release. */
  predicate Expects(w: World, op: Op)
    requires op.Activate?
  {
    Shown(w) == op.expectedActive && Shown(w) != Some(op.id)
  }

  /** The requested release is older than the stored one it would displace. */
  predicate Older(w: World, op: Op)
    requires op.Activate?
  {
    Stored(w, Shown(w)) && op.id in w.releases && w.releases[op.id].dataAsOf < w.releases[Shown(w).value].dataAsOf
  }

  /** The facts the activation reads are sealed, and no row it needs is missing. */
  predicate Ready(w: World, op: Op)
    requires op.Activate?
  {
    && Current(w, op.id) && WithFacts(w, op.id) && (Shown(w).Some? ==> Stored(w, Shown(w)))
    && (StartsFrom(w, Shown(w)) ==> WithFacts(w, Shown(w).value))
  }

  lemma ActivationIsRefused(w: World, op: Op)
    requires op.Activate?
    ensures var r := Step(w, op);
            && (!Whole(w, op.id) ==> r == Refused(StateConflict))
            && (r == Refused(ManifestMismatch) <==> Whole(w, op.id) && !Names(w, op))
            && (r == Refused(PredecessorConflict) <==> Names(w, op) && !Expects(w, op))
            && (r == Refused(DataRegression) <==>
                Names(w, op) && Expects(w, op) && Older(w, op) && !op.allowRegression)
            && (r.Refused? ==> r.error in {StateConflict, ManifestMismatch, PredecessorConflict, DataRegression})
  {
  }

  /** A stored value has a positive price, and any failure it keeps is later than its estimate. */
  predicate SoundAt(t: Table, k: Scope) {
    k in t ==>
      && t[k].priceMinor > 0
      && match t[k].failure
         case Some(x) => t[k].estimate.calculatedAt < x.calculatedAt
         case None => true
  }

  /** Every stored value of a pack in the release's facts is sound. */
  predicate SoundFor(w: World, id: ReleaseId) {
    WithFacts(w, id) ==> forall f :: f in w.releases[id].facts.value ==> SoundAt(w.table, f.scope)
  }

  lemma ScopesOnRows(w: World, seed: FactSet, candidates: FactSet)
    ensures |ScopesOf(seed + candidates)| <= MAX_CHANGES
    ensures SoundScopes(w.table, ScopesOf(seed + candidates)) <==>
            (forall f :: f in seed ==> SoundAt(w.table, f.scope))
            && forall f :: f in candidates ==> SoundAt(w.table, f.scope)
  {
    var ks := ScopesOf(seed + candidates);
    if SoundScopes(w.table, ks) {
      forall f | f in seed || f in candidates ensures SoundAt(w.table, f.scope) {
        assert f in seed + candidates;
        assert f.scope in ks;
      }
    }
  }

  /** What the retained step of an activation reads: sealed facts, and sound values of their packs. */
  predicate MayRetain(w: World, seed: Option<ReleaseId>, next: ReleaseId) {
    && WithFacts(w, next) && SoundFor(w, next)
    && (seed.Some? ==> WithFacts(w, seed.value) && SoundFor(w, seed.value))
  }

  lemma RetainedIsChecked(w: World, previous: Option<ReleaseId>, next: ReleaseId, seedPrevious: bool, operationId: Key)
    ensures var seed := if SeedsFrom(w, previous, seedPrevious) then previous else None;
            var r := ActivateRetained(w, previous, next, seedPrevious, operationId);
            && (r.Success? <==> MayRetain(w, seed, next))
            && (r.Refused? ==> r.error == StateConflict)
  {
    var seed := SeedFacts(w, previous, seedPrevious);
    if seed.Success? && WithFacts(w, next) {
      ScopesOnRows(w, seed.value, w.releases[next].facts.value);
    }
  }

  /** In any store, damaged or not, an activation also reads only sound values. */
  lemma ActivationIsChecked(w: World, op: Op)
    requires op.Activate?
    ensures Step(w, op).Success? <==>
            && Names(w, op) && Expects(w, op) && Ready(w, op) && (Older(w, op) ==> op.allowRegression)
            && SoundFor(w, op.id) && (StartsFrom(w, Shown(w)) ==> SoundFor(w, Shown(w).value))
  {
    RetainedIsChecked(w, Shown(w), op.id, SeedsNow(w), op.operationId);
  }

  lemma ValidIsSound(w: World, id: ReleaseId)
    requires ValidTable(w.table)
    ensures SoundFor(w, id)
  {
    forall k ensures SoundAt(w.table, k) {
      if k in w.table {
        assert ValidValue(w.table[k]);
      }
    }
  }

  lemma ActivationOverSoundValues(w: World, op: Op)
    requires op.Activate? && ValidTable(w.table)
    ensures Step(w, op).Success? <==>
            Names(w, op) && Expects(w, op) && Ready(w, op) && (Older(w, op) ==> op.allowRegression)
  {
    ActivationIsChecked(w, op);
    ValidIsSound(w, op.id);
    if StartsFrom(w, Shown(w)) {
      ValidIsSound(w, Shown(w).value);
    }
  }

  /** In a reachable store an activation is accepted exactly if it is named, expected, ready and not a regression. */
  lemma ActivationIsAccepted(w: World, l: H.Lineage, op: Op)
    requires op.Activate? && H.Inv(w, l)
    ensures Step(w, op).Success? <==>
            Names(w, op) && Expects(w, op) && Ready(w, op) && (Older(w, op) ==> op.allowRegression)
  {
    ActivationOverSoundValues(w, op);
  }

  /** Without the override, an accepted activation shows a release no older than the one it displaces. */
  lemma NoActivationGoesBack(w: World, op: Op)
    requires op.Activate? && !op.allowRegression && Step(w, op).Success? && Stored(w, Shown(w))
    ensures var w' := Step(w, op).value;
            && Shown(w') == Some(op.id) && Stored(w', Shown(w'))
            && w'.releases[op.id].dataAsOf >= w.releases[Shown(w).value].dataAsOf
  {
    ActivationIsRefused(w, op);
  }

  /** The marks are the same except that `id`, where stored, now needs its facts. */
  predicate Marked(r: map<ReleaseId, Release>, s: map<ReleaseId, Release>, marked: set<ReleaseId>) {
    && s.Keys == r.Keys
    && forall x :: x in r ==> s[x] == if x in marked then r[x].(evFactsRequired := true) else r[x]
  }

  /** One more transition, with one row for each scope whose value moved; the earlier ones stay. */
  predicate Journals(w: World, w': World, operationId: Key, from: Option<ReleaseId>, to: ReleaseId) {
    && |w'.transitions| == |w.transitions| + 1 && |w'.changes| == |w.changes| + 1
    && w'.transitions[..|w.transitions|] == w.transitions && w'.changes[..|w.changes|] == w.changes
    && var t, rows := w'.transitions[|w.transitions|], w'.changes[|w.changes|];
       && (t.operationId, t.from, t.to, t.changeCount) == (operationId, from, to, |rows|)
       && (forall c :: c in rows ==> c.after == Lookup(w'.table, c.scope) != Lookup(w.table, c.scope))
  }

  /** The pointer moves to the requested release, keeps the displaced one, and names the new transition. */
  lemma ActivationEffect(w: World, op: Op)
    requires op.Activate? && Step(w, op).Success?
    ensures var w' := Step(w, op).value;
            && w'.state ==
               Some(Active(Generation(w) + 1, Some(op.id), Shown(w), Some(Pointer(|w.transitions|, Forward)), true))
            && Marked(w.releases, w'.releases, if StartsFrom(w, Shown(w)) then {Shown(w).value} else {})
            && Journals(w, w', op.operationId, Shown(w), op.id)
  {
  }

  // ----- Rollback -----

  /** The target is the release kept behind the expected one, and may still be shown. */
  predicate MayReturn(w: World, op: Op)
    requires op.Rollback?
  {
    w.state.Some? && w.state.value.previous == Some(op.target) && Whole(w, op.target) && Current(w, op.target)
  }

  lemma GuardOnRows(w: World, op: Op)
    requires op.Rollback?
    ensures var guard := RollbackGuard(w, op.expected, op.target);
            && guard == (if Shown(w) != Some(op.expected) then Some(PredecessorConflict)
                         else if !MayReturn(w, op) then Some(RollbackUnsafe)
                         else None)
            && (guard.Some? ==> Step(w, op) == Refused(guard.value))
  {
  }

  lemma RollbackAnswers(w: World, l: H.Lineage, op: Op)
    requires op.Rollback? && H.Inv(w, l)
    ensures var r := Step(w, op);
            && (r.Success? <==> Shown(w) == Some(op.expected) && MayReturn(w, op))
            && (r == Refused(PredecessorConflict) <==> Shown(w) != Some(op.expected))
            && (r == Refused(RollbackUnsafe) <==> Shown(w) == Some(op.expected) && !MayReturn(w, op))
  {
    GuardOnRows(w, op);
    if RollbackGuard(w, op.expected, op.target).None? {
      H.RollbackKeepsInv(w, l, op);
    }
  }

  /** The journal pointer names a transition between exactly the two releases of the pointer row. */
  predicate PointsBetween(w: World, p: Pointer) {
    && w.state.Some? && p.transition < |w.transitions| && p.transition < |w.changes|
    && var a, t := w.state.value, w.transitions[p.transition];
       match p.direction
       case Forward => a.active == Some(t.to) && a.previous == t.from
       case Reverse => a.active == t.from && a.previous == Some(t.to)
  }

  /** The rows are those the transition was written with: as many, one for each scope, and the digested ones. */
  predicate RowsIntact(t: Transition, rows: seq<Change>) {
    && |rows| == t.changeCount <= 2_000
    && (forall i, j :: 0 <= i < j < |rows| ==> rows[i].scope != rows[j].scope)
    && (forall c :: c in rows ==> c.scope in t.digest && t.digest[c.scope] == c)
    && |t.digest| == |rows|
  }

  predicate SoundOption(v: Option<Value>) {
    match v
    case None => true
    case Some(x) =>
      && x.priceMinor > 0
      && match x.failure
         case Some(y) => x.estimate.calculatedAt < y.calculatedAt
         case None => true
  }

  /** Every scope of the rows still has the value they left, and both of its values are sound. */
  predicate ValuesIntact(t: Table, rows: seq<Change>, d: Direction) {
    forall c :: c in rows ==>
                  && SoundOption(c.before) && SoundOption(c.after)
                  && match (if d.Forward? then c.after else c.before)
                     case Some(v) => c.scope in t && t[c.scope] == v
                     case None => c.scope !in t
  }

  lemma {:induction false} DigestOnRows(rows: seq<Change>)
    requires forall i, j :: 0 <= i < j < |rows| ==> rows[i].scope != rows[j].scope
    ensures forall c :: c in rows ==> c.scope in DigestOf(rows) && DigestOf(rows)[c.scope] == c
    ensures |DigestOf(rows)| == |rows|
    ensures forall k :: k in DigestOf(rows) ==> exists c :: c in rows && c.scope == k
  {
    if rows != [] {
      var init, last := rows[..|rows| - 1], rows[|rows| - 1];
      DigestOnRows(init);
      assert rows == init + [last];
      assert last.scope !in DigestOf(init);
    }
  }

  lemma SameDigest(rows: seq<Change>, digest: map<Scope, Change>)
    requires forall i, j :: 0 <= i < j < |rows| ==> rows[i].scope != rows[j].scope
    ensures DigestOf(rows) == digest <==>
            |digest| == |rows| && forall c :: c in rows ==> c.scope in digest && digest[c.scope] == c
  {
    DigestOnRows(rows);
    var d := DigestOf(rows);
    if |digest| == |rows| && forall c :: c in rows ==> c.scope in digest && digest[c.scope] == c {
      assert d.Keys <= digest.Keys;
      SubsetOfSameSize(d.Keys, digest.Keys);
      forall k | k in d ensures d[k] == digest[k] {
        var c :| c in rows && c.scope == k;
      }
    }
  }

  lemma SubsetOfSameSize<T>(a: set<T>, b: set<T>)
    requires a <= b && |a| == |b|
    ensures a == b
  {
    assert b == a + (b - a);
  }

  lemma RowsAreIntact(t: Transition, rows: seq<Change>)
    ensures RowsAgree(t, rows) <==> RowsIntact(t, rows)
  {
    if forall i, j :: 0 <= i < j < |rows| ==> rows[i].scope != rows[j].scope {
      SameDigest(rows, t.digest);
    }
  }

  lemma ValuesAreIntact(t: Table, rows: seq<Change>, d: Direction)
    ensures TableAgrees(t, rows, d) <==> ValuesIntact(t, rows, d)
  {
    forall c ensures SoundOption(c) <==> ValidOption(c) {
    }
  }

  /** In any store a journal is read back only if pointer, rows and values are all as they were written. */
  lemma JournalIsRead(w: World)
    requires w.state.Some? && w.state.value.pointer.Some?
    ensures var p, r := w.state.value.pointer.value, RollbackRetained(w, w.state.value);
            if !PointsBetween(w, p) || !RowsIntact(w.transitions[p.transition], w.changes[p.transition]) then
              r == Refused(StateConflict)
            else if !ValuesIntact(w.table, w.changes[p.transition], p.direction) then r == Refused(JournalMismatch)
            else r.Success?
  {
    var p := w.state.value.pointer.value;
    if PointsBetween(w, p) {
      RowsAreIntact(w.transitions[p.transition], w.changes[p.transition]);
      ValuesAreIntact(w.table, w.changes[p.transition], p.direction);
    }
  }

  /** What a journal needs to be taken back: nothing if there is none. */
  predicate JournalIntact(w: World)
    requires w.state.Some?
  {
    w.state.value.pointer.Some? ==>
      var p := w.state.value.pointer.value;
      && PointsBetween(w, p) && RowsIntact(w.transitions[p.transition], w.changes[p.transition])
      && ValuesIntact(w.table, w.changes[p.transition], p.direction)
  }

  /** In any store, damaged or not, a rollback also needs an intact journal. */
  lemma RollbackIsChecked(w: World, op: Op)
    requires op.Rollback?
    ensures Step(w, op).Success? <==> Shown(w) == Some(op.expected) && MayReturn(w, op) && JournalIntact(w)
  {
    if Shown(w) == Some(op.expected) && MayReturn(w, op) && w.state.value.pointer.Some? {
      JournalIsRead(w);
    }
  }

  /** The two releases change places; the journal is read the other way, and no row of it is rewritten. */
  lemma RollbackEffect(w: World, op: Op)
    requires op.Rollback? && Step(w, op).Success?
    ensures var w', a := Step(w, op).value, w.state.value;
            && w'.state.Some? && w'.state.value.generation == a.generation + 1
            && w'.state.value.active == Some(op.target) && w'.state.value.previous == Some(op.expected)
            && !w'.state.value.activatedLast
            && w'.releases == w.releases && w'.transitions == w.transitions && w'.changes == w.changes
            && match (a.pointer, w'.state.value.pointer)
               case (None, None) => w'.table == w.table
               case (Some(p), Some(q)) => p.transition == q.transition && p.direction != q.direction
               case _ => false
  {
  }

  // ----- Initialization -----

  /** The request states the pointer row as it is, and its active release is complete and current. */
  predicate Confirms(w: World, op: Op)
    requires op.Initialize?
  {
    && w.state.Some? && w.state.value.active == Some(op.id) && w.state.value.generation == op.expectedGeneration
    && w.state.value.previous == op.previous && Whole(w, op.id) && Current(w, op.id)
  }

  /** The release was never marked, staged or moved by a transition. */
  predicate NeverCutOver(w: World, id: ReleaseId)
    requires id in w.releases
  {
    && !w.releases[id].evFactsRequired && !w.releases[id].staged
    && forall t :: t in w.transitions ==> t.from != Some(id) && t.to != id
  }

  /** What starting the journal needs: a recorded activation, a stored predecessor, and sealed facts. */
  predicate MayStart(w: World, op: Op)
    requires op.Initialize? && w.state.Some? && op.id in w.releases
  {
    && w.state.value.pointer.None? && NeverCutOver(w, op.id) && w.state.value.activatedLast && WithFacts(w, op.id)
    && (op.previous.Some? ==> Stored(w, op.previous))
    && (op.previous.Some? && Current(w, op.previous.value) ==> WithFacts(w, op.previous.value))
  }

  /** A pointer that has its journal only reports it, if the kept release is current and has its facts. */
  predicate HasStarted(w: World, op: Op)
    requires op.Initialize? && w.state.Some?
  {
    && w.state.value.pointer.Some?
    && (op.previous.Some? ==> Current(w, op.previous.value) && WithFacts(w, op.previous.value))
  }

  lemma LegacyOnRows(w: World, id: ReleaseId)
    requires id in w.releases
    ensures Legacy(w, id) <==> NeverCutOver(w, id)
  {
    if Legacy(w, id) {
      forall t | t in w.transitions ensures t.from != Some(id) && t.to != id {
        var i :| 0 <= i < |w.transitions| && w.transitions[i] == t;
      }
    }
  }

  lemma UnconfirmedIsRefused(w: World, op: Op)
    requires op.Initialize? && !Confirms(w, op)
    ensures Step(w, op) == Refused(StateConflict)
  {
  }

  lemma StartIsAnswered(w: World, op: Op)
    requires op.Initialize? && Confirms(w, op) && w.state.value.pointer.None? && ValidTable(w.table)
    ensures Step(w, op).Success? <==> MayStart(w, op)
    ensures Step(w, op).Refused? ==> Step(w, op).error == StateConflict
  {
    LegacyOnRows(w, op.id);
    H.ValidTableMeetsNoConflict(w, op.previous, op.id, true, op.operationId);
  }

  lemma RepeatOverAReadableJournal(w: World, op: Op)
    requires op.Initialize? && Confirms(w, op) && w.state.value.pointer.Some?
    requires RollbackRetained(w, w.state.value).Success? && WithFacts(w, op.id)
    ensures Step(w, op) == if HasStarted(w, op) then Success(w) else Refused(StateConflict)
  {
  }

  lemma RepeatIsAnswered(w: World, l: H.Lineage, op: Op)
    requires op.Initialize? && Confirms(w, op) && w.state.value.pointer.Some? && H.Inv(w, l)
    ensures Step(w, op) == if HasStarted(w, op) then Success(w) else Refused(StateConflict)
  {
    H.PointerLoads(w, l);
    ActiveIsSealed(w, l, op.id);
    RepeatOverAReadableJournal(w, op);
  }

  lemma ActiveIsSealed(w: World, l: H.Lineage, id: ReleaseId)
    requires H.Inv(w, l) && w.state.Some? && w.state.value.pointer.Some? && Shown(w) == Some(id)
    ensures WithFacts(w, id)
  {
    assert id in l.current;
  }

  /** In any store, a repeated initialization needs both releases with their facts and an intact journal. */
  lemma RepeatIsChecked(w: World, op: Op)
    requires op.Initialize? && Confirms(w, op) && w.state.value.pointer.Some?
    ensures Step(w, op) ==
            if WithFacts(w, op.id) && HasStarted(w, op) && JournalIntact(w) then Success(w) else Refused(StateConflict)
  {
    JournalIsRead(w);
  }

  /** In any store, the first initialization reads only sound values. */
  lemma StartIsChecked(w: World, op: Op)
    requires op.Initialize? && Confirms(w, op) && w.state.value.pointer.None?
    ensures Step(w, op).Success? <==>
            && MayStart(w, op) && SoundFor(w, op.id)
            && (op.previous.Some? && Current(w, op.previous.value) ==> SoundFor(w, op.previous.value))
    ensures Step(w, op).Refused? ==> Step(w, op).error == StateConflict
  {
    LegacyOnRows(w, op.id);
    RetainedIsChecked(w, op.previous, op.id, true, op.operationId);
  }

  /** In a reachable store: a confirmed row starts its journal once, and reports it from then on. */
  lemma InitializeAnswers(w: World, l: H.Lineage, op: Op)
    requires op.Initialize? && H.Inv(w, l)
    ensures var r := Step(w, op);
            && (r.Success? <==> Confirms(w, op) && (MayStart(w, op) || HasStarted(w, op)))
            && (r.Refused? ==> r.error == StateConflict)
            && (r.Success? && w.state.value.pointer.Some? ==> r.value == w)
  {
    if !Confirms(w, op) {
      UnconfirmedIsRefused(w, op);
    } else if w.state.value.pointer.None? {
      StartIsAnswered(w, op);
    } else {
      RepeatIsAnswered(w, l, op);
    }
  }

  /** Starting the journal moves no pointer and no generation; both releases now need their facts. */
  lemma InitializeEffect(w: World, op: Op)
    requires op.Initialize? && Step(w, op).Success? && w.state.value.pointer.None?
    ensures var w' := Step(w, op).value;
            && w'.state == Some(w.state.value.(pointer := Some(Pointer(|w.transitions|, Forward))))
            && Marked(w.releases, w'.releases, {op.id} + if op.previous.Some? then {op.previous.value} else {})
            && Journals(w, w', op.operationId, op.previous, op.id)
  {
  }

  // ----- The public data never goes back -----

  /** No rollback, and no activation with the override. */
  predicate OnlyForward(ops: seq<Op>) {
    forall k :: 0 <= k < |ops| ==> !ops[k].Rollback? && (ops[k].Activate? ==> !ops[k].allowRegression)
  }

  lemma ReleasesKeepTheirTime(w: World, op: Op, id: ReleaseId)
    requires id in w.releases
    ensures id in Next(w, op).releases && Next(w, op).releases[id].dataAsOf == w.releases[id].dataAsOf
  {
  }

  lemma StepNeverGoesBack(w: World, op: Op)
    requires Stored(w, Shown(w)) && !op.Rollback? && (op.Activate? ==> !op.allowRegression)
    ensures var w' := Next(w, op);
            && Stored(w', Shown(w')) && w'.releases[Shown(w').value].dataAsOf >= w.releases[Shown(w).value].dataAsOf
  {
    ReleasesKeepTheirTime(w, op, Shown(w).value);
    if op.Activate? && Step(w, op).Success? {
      NoActivationGoesBack(w, op);
    }
  }

  /**
   * Over any run without rollbacks and overrides, from a store that shows a stored release, the public
   * catalogue never moves back in time.
   */
  lemma {:induction false} PublicDataNeverGoesBack(w: World, ops: seq<Op>)
    requires Stored(w, Shown(w)) && OnlyForward(ops)
    ensures var w' := H.Run(w, ops);
            && Stored(w', Shown(w')) && w'.releases[Shown(w').value].dataAsOf >= w.releases[Shown(w).value].dataAsOf
  {
    if ops != [] {
      PublicDataNeverGoesBack(w, ops[..|ops| - 1]);
      StepNeverGoesBack(H.Run(w, ops[..|ops| - 1]), ops[|ops| - 1]);
    }
  }
}
