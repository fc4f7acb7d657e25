/**
 * The retained table with its journal, and the activation pointer that drives it:
 * `activateRetainedEv`, `rollbackRetainedEv`, the `activate` and `rollback` mutations and
 * the one-time `initializeActiveRetention`. Every mutation is one step over a `World`.
 */
module RetainedEvJournal {
  import opened Prelude
  import opened RetainedEvMerge

  const MAX_REPACKS: nat := 1_000
  const MAX_CHANGES: nat := MAX_REPACKS * 2

  type ReleaseId = Key
  type Table = map<Scope, Value>

  predicate AscendingFacts(fs: seq<Facts>) {
    forall i, j :: 0 <= i < j < |fs| ==> fs[i].scope.publicRepackId < fs[j].scope.publicRepackId
  }

  /** A sealed fact set: what `sealEvFactSet` has read back and checked; immutable afterwards. */
  type FactSet = fs: seq<Facts> | |fs| <= MAX_REPACKS && AscendingFacts(fs) && (forall f :: f in fs ==> ValidFacts(f))
    witness []

  /**
   * A release row; `facts` is absent until its fact set is sealed, `staged` tells a staged set from a
   * backfilled one.
   */
  datatype Release = Release(
    fingerprint: Key, complete: bool, policyV3: bool, dataAsOf: Time, evFactsRequired: bool, staged: bool,
    facts: Option<FactSet>)

  datatype Change = Change(scope: Scope, before: Option<Value>, after: Option<Value>)

  /** `digest` stands for the hash of the sorted change list: it identifies the changes by scope. */
  datatype Transition = Transition(
    operationId: Key, from: Option<ReleaseId>, to: ReleaseId, changeCount: nat, digest: map<Scope, Change>)

  datatype Direction = Forward | Reverse
  datatype Pointer = Pointer(transition: nat, direction: Direction)

  /** The singleton pointer row; `pointer` is absent on rows older than the journal. */
  datatype Active = Active(
    generation: nat, active: Option<ReleaseId>, previous: Option<ReleaseId>, pointer: Option<Pointer>,
    activatedLast: bool)

  datatype World = World(
    releases: map<ReleaseId, Release>, table: Table,
    transitions: seq<Transition>, changes: seq<seq<Change>>, state: Option<Active>)

  datatype Error =
    | StateConflict | ManifestMismatch | PredecessorConflict | DataRegression | RollbackUnsafe | JournalMismatch

  // ----- Tables -----

  function Lookup(t: Table, k: Scope): Option<Value> {
    if k in t then Some(t[k]) else None
  }

  /** `writeValue`: delete, insert or patch one row. */
  function Put(t: Table, k: Scope, v: Option<Value>): Table {
    if v.Some? then t[k := v.value] else t - {k}
  }

  lemma TablesAgree(s: Table, t: Table)
    requires forall k :: Lookup(s, k) == Lookup(t, k)
    ensures s == t
  {
    forall k ensures k in s <==> k in t {
      assert Lookup(s, k) == Lookup(t, k);
    }
    forall k | k in s ensures s[k] == t[k] {
      assert Lookup(s, k) == Lookup(t, k);
    }
  }

  ghost predicate ValidTable(t: Table) {
    forall k :: k in t ==> ValidValue(t[k])
  }

  // ----- Facts and their fold -----

  function ObserveFacts(t: Table, fs: seq<Facts>, release: ReleaseId): Table
    requires forall f :: f in fs ==> ValidFacts(f)
  {
    if fs == [] then t
    else
      var init := ObserveFacts(t, fs[..|fs| - 1], release);
      var last := fs[|fs| - 1];
      Put(init, last.scope, Observe(Lookup(init, last.scope), ObservationOf(last, release)))
  }

  lemma {:induction false} UnobservedScope(t: Table, fs: seq<Facts>, release: ReleaseId, k: Scope)
    requires forall f :: f in fs ==> ValidFacts(f) && f.scope != k
    ensures Lookup(ObserveFacts(t, fs, release), k) == Lookup(t, k)
  {
    if fs != [] {
      assert fs[|fs| - 1] in fs;
      UnobservedScope(t, fs[..|fs| - 1], release, k);
    }
  }

  /** Distinct scopes make the fold pointwise: each pack sees exactly its own observation. */
  lemma {:induction false} ObservedScope(t: Table, fs: seq<Facts>, release: ReleaseId, i: nat)
    requires AscendingFacts(fs) && (forall f :: f in fs ==> ValidFacts(f)) && i < |fs|
    ensures Lookup(ObserveFacts(t, fs, release), fs[i].scope)
            == Observe(Lookup(t, fs[i].scope), ObservationOf(fs[i], release))
  {
    var init, last := fs[..|fs| - 1], fs[|fs| - 1];
    assert last in fs;
    if i == |fs| - 1 {
      forall f | f in init ensures f.scope != last.scope {
        var j :| 0 <= j < |init| && init[j] == f;
        assert fs[j].scope.publicRepackId < fs[i].scope.publicRepackId;
      }
      UnobservedScope(t, init, release, last.scope);
    } else {
      ObservedScope(t, init, release, i);
      assert init[i] == fs[i] && fs[i].scope.publicRepackId < last.scope.publicRepackId;
    }
  }

  lemma {:induction false} ObserveFactsValid(t: Table, fs: seq<Facts>, release: ReleaseId)
    requires ValidTable(t) && forall f :: f in fs ==> ValidFacts(f)
    ensures ValidTable(ObserveFacts(t, fs, release))
    ensures forall k :: k in t ==> k in ObserveFacts(t, fs, release)
  {
    if fs != [] {
      var init, last := fs[..|fs| - 1], fs[|fs| - 1];
      assert last in fs;
      ObserveFactsValid(t, init, release);
      ObserveLaws(Lookup(ObserveFacts(t, init, release), last.scope), ObservationOf(last, release));
    }
  }

  // ----- Scopes and changes -----

  /** The keys of `new Map([...seed, ...candidates])`, in insertion order. */
  function ScopesOf(fs: seq<Facts>): (ks: seq<Scope>)
    ensures forall k :: k in ks <==> exists f :: f in fs && f.scope == k
    ensures forall i, j :: 0 <= i < j < |ks| ==> ks[i] != ks[j]
    ensures |ks| <= |fs|
  {
    if fs == [] then []
    else
      var init := ScopesOf(fs[..|fs| - 1]);
      assert fs == fs[..|fs| - 1] + [fs[|fs| - 1]];
      if fs[|fs| - 1].scope in init then init else init + [fs[|fs| - 1].scope]
  }

  /** The journal rows: the scopes whose stored value differs from the final one. */
  function ChangesOf(ks: seq<Scope>, existing: Table, before: Table, after: Table): (cs: seq<Change>)
    ensures |cs| <= |ks|
    ensures forall c :: c in cs <==>
                          && c.scope in ks && Lookup(existing, c.scope) != Lookup(after, c.scope)
                          && c == Change(c.scope, Lookup(before, c.scope), Lookup(after, c.scope))
  {
    if ks == [] then []
    else
      var init, k := ChangesOf(ks[..|ks| - 1], existing, before, after), ks[|ks| - 1];
      assert ks == ks[..|ks| - 1] + [k];
      if Lookup(existing, k) == Lookup(after, k) then init
      else init + [Change(k, Lookup(before, k), Lookup(after, k))]
  }

  predicate DistinctScopes(cs: seq<Change>) {
    forall i, j :: 0 <= i < j < |cs| ==> cs[i].scope != cs[j].scope
  }

  lemma {:induction false} ChangesAreDistinct(ks: seq<Scope>, existing: Table, before: Table, after: Table)
    requires forall i, j :: 0 <= i < j < |ks| ==> ks[i] != ks[j]
    ensures DistinctScopes(ChangesOf(ks, existing, before, after))
  {
    if ks != [] {
      var init, k := ks[..|ks| - 1], ks[|ks| - 1];
      ChangesAreDistinct(init, existing, before, after);
      var cs := ChangesOf(init, existing, before, after);
      forall i | 0 <= i < |cs| ensures cs[i].scope != k {
        assert cs[i] in cs;
        assert cs[i].scope in init;
      }
    }
  }

  function DigestOf(cs: seq<Change>): map<Scope, Change> {
    if cs == [] then map[]
    else DigestOf(cs[..|cs| - 1])[cs[|cs| - 1].scope := cs[|cs| - 1]]
  }

  // ----- Activation of the table -----

  function ReleaseFacts(w: World, id: ReleaseId): Result<FactSet, Error> {
    if id !in w.releases || !w.releases[id].complete || w.releases[id].facts.None? then Refused(StateConflict)
    else Success(w.releases[id].facts.value)
  }

  predicate SeedsFrom(w: World, previous: Option<ReleaseId>, seedPrevious: bool) {
    seedPrevious && previous.Some? && previous.value in w.releases && w.releases[previous.value].policyV3
  }

  /** The observations of the predecessor, when the journal starts here. */
  function SeedFacts(w: World, previous: Option<ReleaseId>, seedPrevious: bool): Result<FactSet, Error> {
    if SeedsFrom(w, previous, seedPrevious) then ReleaseFacts(w, previous.value) else Success([])
  }

  function Seeded(table: Table, previous: Option<ReleaseId>, seed: FactSet): Table {
    if previous.Some? then ObserveFacts(table, seed, previous.value) else table
  }

  /** The table an activation writes: the seed's observations, then the next release's. */
  function After(table: Table, previous: Option<ReleaseId>, seed: FactSet, next: ReleaseId,
                 candidates: FactSet): Table
  {
    ObserveFacts(Seeded(table, previous, seed), candidates, next)
  }

  function RowsFor(table: Table, previous: Option<ReleaseId>, seed: FactSet, next: ReleaseId,
                   candidates: FactSet): seq<Change>
  {
    ChangesOf(ScopesOf(seed + candidates), table, Seeded(table, previous, seed),
              After(table, previous, seed, next, candidates))
  }

  /** `loadRetainedEvForScopes`: every stored value that is read must be sound. */
  predicate SoundScopes(t: Table, ks: seq<Scope>) {
    forall k :: k in ks ==> ValidOption(Lookup(t, k))
  }

  function Recorded(w: World, operationId: Key, previous: Option<ReleaseId>, next: ReleaseId, rows: seq<Change>,
                    after: Table)
    : (World, Pointer)
  {
    (w.(table := after,
        transitions := w.transitions + [Transition(operationId, previous, next, |rows|, DigestOf(rows))],
        changes := w.changes + [rows]),
     Pointer(|w.transitions|, Forward))
  }

  /** `activateRetainedEv`: the new table, one transition, its rows, and the pointer to it. */
  function ActivateRetained(w: World, previous: Option<ReleaseId>, next: ReleaseId, seedPrevious: bool,
                            operationId: Key)
    : Result<(World, Pointer), Error>
  {
    var seed := SeedFacts(w, previous, seedPrevious);
    if seed.Refused? then Refused(seed.error)
    else
      var candidates := ReleaseFacts(w, next);
      if candidates.Refused? then Refused(candidates.error)
      else
        var scopes := ScopesOf(seed.value + candidates.value);
        if |scopes| > MAX_CHANGES || !SoundScopes(w.table, scopes) then Refused(StateConflict)
        else
          Success(Recorded(w, operationId, previous, next,
                           RowsFor(w.table, previous, seed.value, next, candidates.value),
                           After(w.table, previous, seed.value, next, candidates.value)))
  }

  // ----- Rollback of the table -----

  function Expected(c: Change, d: Direction): Option<Value> {
    if d.Forward? then c.after else c.before
  }

  function Target(c: Change, d: Direction): Option<Value> {
    if d.Forward? then c.before else c.after
  }

  /** `loadRetainedEvPointer`: the pointer row names the two ends of the transition. */
  predicate PointerAgrees(t: Transition, d: Direction, a: Active) {
    && a.active == (if d.Forward? then Some(t.to) else t.from)
    && a.previous == (if d.Forward? then t.from else Some(t.to))
  }

  /** `loadRetainedEvTransition`: the rows must be the ones the transition was written with. */
  predicate RowsAgree(t: Transition, rows: seq<Change>) {
    |rows| <= MAX_CHANGES && |rows| == t.changeCount && DistinctScopes(rows) && DigestOf(rows) == t.digest
  }

  /** Every stored value is what the journal says this direction left, and every target is sound. */
  predicate TableAgrees(t: Table, rows: seq<Change>, d: Direction) {
    forall c :: c in rows ==>
                  && Lookup(t, c.scope) == Expected(c, d)
                  && ValidOption(Lookup(t, c.scope)) && ValidOption(Target(c, d))
  }

  function Revert(t: Table, rows: seq<Change>, d: Direction): Table {
    if rows == [] then t
    else Put(Revert(t, rows[..|rows| - 1], d), rows[|rows| - 1].scope, Target(rows[|rows| - 1], d))
  }

  /** `rollbackRetainedEv`: undo the last transition, or redo it on a repeated rollback. */
  function RollbackRetained(w: World, a: Active): Result<(World, Option<Pointer>), Error> {
    if a.pointer.None? then Success((w, None))
    else
      var p := a.pointer.value;
      if p.transition >= |w.transitions| || p.transition >= |w.changes|
         || !PointerAgrees(w.transitions[p.transition], p.direction, a)
         || !RowsAgree(w.transitions[p.transition], w.changes[p.transition])
      then Refused(StateConflict)
      else if !TableAgrees(w.table, w.changes[p.transition], p.direction) then Refused(JournalMismatch)
      else Success((w.(table := Revert(w.table, w.changes[p.transition], p.direction)),
                    Some(p.(direction := if p.direction.Forward? then Reverse else Forward))))
  }

  // ----- Mutations -----

  datatype Op =
    | Complete(id: ReleaseId, release: Release)
    | SealFacts(id: ReleaseId, facts: FactSet)
    | Activate(id: ReleaseId, fingerprint: Key, expectedActive: Option<ReleaseId>, allowRegression: bool,
               operationId: Key)
    | Rollback(expected: ReleaseId, target: ReleaseId)
    | Initialize(id: ReleaseId, expectedGeneration: nat, previous: Option<ReleaseId>, operationId: Key)

  function ActiveOf(w: World): Option<ReleaseId> {
    if w.state.Some? then w.state.value.active else None
  }

  predicate Regresses(w: World, id: ReleaseId)
    requires id in w.releases
  {
    && ActiveOf(w).Some? && ActiveOf(w).value in w.releases
    && w.releases[id].dataAsOf < w.releases[ActiveOf(w).value].dataAsOf
  }

  predicate SeedsNow(w: World) {
    w.state.None? || w.state.value.pointer.None?
  }

  function MarkRequired(releases: map<ReleaseId, Release>, id: Option<ReleaseId>): map<ReleaseId, Release> {
    if id.Some? && id.value in releases then releases[id.value := releases[id.value].(evFactsRequired := true)]
    else releases
  }

  function ActivateStep(w: World, op: Op): Result<World, Error>
    requires op.Activate?
  {
    if op.id !in w.releases || !w.releases[op.id].complete then Refused(StateConflict)
    else if w.releases[op.id].fingerprint != op.fingerprint then Refused(ManifestMismatch)
    else if ActiveOf(w) != op.expectedActive || ActiveOf(w) == Some(op.id) then Refused(PredecessorConflict)
    else if !op.allowRegression && Regresses(w, op.id) then Refused(DataRegression)
    else if !w.releases[op.id].policyV3 || (ActiveOf(w).Some? && ActiveOf(w).value !in w.releases)
    then Refused(StateConflict)
    else
      var r := ActivateRetained(w, ActiveOf(w), op.id, SeedsNow(w), op.operationId);
      if r.Refused? then Refused(r.error)
      else
        var generation := if w.state.Some? then w.state.value.generation else 0;
        Success(r.value.0.(
                releases := if SeedsFrom(w, ActiveOf(w), SeedsNow(w)) then MarkRequired(w.releases, ActiveOf(w))
                            else w.releases,
                state := Some(Active(generation + 1, Some(op.id), ActiveOf(w), Some(r.value.1), true))))
  }

  /** The checks of the `rollback` mutation that precede the journal. */
  function RollbackGuard(w: World, expected: ReleaseId, target: ReleaseId): Option<Error> {
    if ActiveOf(w) != Some(expected) then Some(PredecessorConflict)
    else if w.state.value.previous != Some(target) then Some(RollbackUnsafe)
    else if target !in w.releases || !w.releases[target].complete || !w.releases[target].policyV3 then
      Some(RollbackUnsafe)
    else None
  }

  function RollbackStep(w: World, op: Op): Result<World, Error>
    requires op.Rollback?
  {
    var guard := RollbackGuard(w, op.expected, op.target);
    if guard.Some? then Refused(guard.value)
    else
      var a := w.state.value;
      var r := RollbackRetained(w, a);
      if r.Refused? then Refused(r.error)
      else Success(r.value.0.(state := Some(Active(a.generation + 1, a.previous, a.active, r.value.1, false))))
  }

  /** `usesLegacyEvSnapshot`: neither marker nor staged facts nor any transition of the release. */
  predicate Legacy(w: World, id: ReleaseId)
    requires id in w.releases
  {
    && !w.releases[id].evFactsRequired && !w.releases[id].staged
    && forall i :: 0 <= i < |w.transitions| ==> w.transitions[i].from != Some(id) && w.transitions[i].to != id
  }

  /** A pointer of the state names a complete release of this policy with sealed facts. */
  predicate PointerReads(w: World, id: Option<ReleaseId>) {
    id.Some? ==> id.value in w.releases && w.releases[id.value].policyV3 && ReleaseFacts(w, id.value).Success?
  }

  /** `loadEvMigrationState`, for a state row that has a journal pointer. */
  predicate MigrationHolds(w: World)
    requires w.state.Some? && w.state.value.pointer.Some?
  {
    var a := w.state.value;
    PointerReads(w, a.active) && PointerReads(w, a.previous) && RollbackRetained(w, a).Success?
  }

  /** A row that predates the journal, last moved by a recorded activation of this very release. */
  function InitializeStep(w: World, op: Op): Result<World, Error>
    requires op.Initialize?
  {
    if ActiveOf(w) != Some(op.id) || w.state.value.generation != op.expectedGeneration
       || w.state.value.previous != op.previous
       || op.id !in w.releases || !w.releases[op.id].complete || !w.releases[op.id].policyV3
    then Refused(StateConflict)
    else if w.state.value.pointer.Some? then if MigrationHolds(w) then Success(w) else Refused(StateConflict)
    else if !Legacy(w, op.id) || !w.state.value.activatedLast
            || (op.previous.Some? && op.previous.value !in w.releases)
    then Refused(StateConflict)
    else
      var r := ActivateRetained(w, op.previous, op.id, true, op.operationId);
      if r.Refused? then Refused(r.error)
      else Success(r.value.0.(
                   releases := MarkRequired(MarkRequired(w.releases, op.previous), Some(op.id)),
                   state := Some(w.state.value.(pointer := Some(r.value.1)))))
  }

  function Step(w: World, op: Op): Result<World, Error> {
    match op
    case Complete(id, release) =>
      if id in w.releases then Refused(StateConflict) else Success(w.(releases := w.releases[id := release]))
    case SealFacts(id, facts) =>
      if id !in w.releases || !w.releases[id].complete || w.releases[id].facts.Some? then Refused(StateConflict)
      else Success(w.(releases := w.releases[id := w.releases[id].(facts := Some(facts))]))
    case Activate(_, _, _, _, _) => ActivateStep(w, op)
    case Rollback(_, _) => RollbackStep(w, op)
    case Initialize(_, _, _, _) => InitializeStep(w, op)
  }

  /** A refused mutation changes nothing. */
  function Next(w: World, op: Op): World {
    var r := Step(w, op);
    if r.Success? then r.value else w
  }
}
