/**
 * The retained-estimate tables as the mutations update them, row by row. Each method is proved to
 * take exactly the step of `RetainedEvJournal` of the same name; a refusal leaves every row alone.
 */
module RetainedEvStore {
  import opened Prelude
  import opened RetainedEvMerge
  import opened RetainedEvJournal
  import H = RetainedEvHistory

  /** Writing the rows' final values onto the stored table yields the final table. */
  lemma WritingRowsReaches(ks: seq<Scope>, existing: Table, before: Table, after: Table)
    requires DistinctScopes(ChangesOf(ks, existing, before, after))
    requires forall k :: k !in ks ==> Lookup(existing, k) == Lookup(after, k)
    ensures Revert(existing, ChangesOf(ks, existing, before, after), Reverse) == after
  {
    var rows := ChangesOf(ks, existing, before, after);
    forall k ensures Lookup(Revert(existing, rows, Reverse), k) == Lookup(after, k) {
      if Lookup(existing, k) == Lookup(after, k) {
        H.UntouchedScope(existing, rows, Reverse, k);
      } else {
        var c := Change(k, Lookup(before, k), Lookup(after, k));
        assert c in rows;
        var i :| 0 <= i < |rows| && rows[i] == c;
        H.RevertedScope(existing, rows, Reverse, i);
      }
    }
    TablesAgree(Revert(existing, rows, Reverse), after);
  }

  lemma ActivationWrites(table: Table, previous: Option<ReleaseId>, seed: FactSet, next: ReleaseId, candidates: FactSet)
    ensures Revert(table, RowsFor(table, previous, seed, next, candidates), Reverse) ==
              After(table, previous, seed, next, candidates)
  {
    var before := Seeded(table, previous, seed);
    var after := ObserveFacts(before, candidates, next);
    var ks := ScopesOf(seed + candidates);
    ChangesAreDistinct(ks, table, before, after);
    forall k | k !in ks ensures Lookup(table, k) == Lookup(after, k) {
      H.UnlistedScopesAreUntouched(table, previous, seed, next, candidates, k);
    }
    WritingRowsReaches(ks, table, before, after);
  }

  /** Every fact of either release has its scope among the loaded ones. */
  lemma ScopesCover(seed: FactSet, candidates: FactSet)
    ensures forall f :: f in seed || f in candidates ==> f.scope in ScopesOf(seed + candidates)
  {
    assert forall f :: f in seed || f in candidates ==> f in seed + candidates;
  }

  class Store {
    var releases: map<ReleaseId, Release>
    var table: Table
    var transitions: seq<Transition>
    var changes: seq<seq<Change>>
    var state: Option<Active>

    function Rows(): World
      reads this
    {
      World(releases, table, transitions, changes, state)
    }

    constructor ()
      ensures H.Initial(Rows()) && Rows() == World(map[], map[], [], [], None)
    {
      releases, table, transitions, changes, state := map[], map[], [], [], None;
    }

    /** Folds a release's observations into the working copy of the loaded scopes. */
    method ObserveLoaded(loaded: map<Scope, Option<Value>>, fs: FactSet, release: ReleaseId, ghost t: Table)
      returns (result: map<Scope, Option<Value>>)
      requires forall f :: f in fs ==> f.scope in loaded
      requires forall k :: k in loaded ==> loaded[k] == Lookup(t, k)
      ensures result.Keys == loaded.Keys
      ensures forall k :: k in result ==> result[k] == Lookup(ObserveFacts(t, fs, release), k)
    {
      result := loaded;
      for i := 0 to |fs|
        invariant result.Keys == loaded.Keys
        invariant forall k :: k in result ==> result[k] == Lookup(ObserveFacts(t, fs[..i], release), k)
      {
        assert fs[..i + 1][..i] == fs[..i];
        assert fs[i] in fs;
        result := result[fs[i].scope := Observe(result[fs[i].scope], ObservationOf(fs[i], release))];
      }
      assert fs[..|fs|] == fs;
    }

    /** The distinct scopes of both releases, in order of first appearance. */
    method LoadScopes(fs: seq<Facts>) returns (scopes: seq<Scope>)
      ensures scopes == ScopesOf(fs)
    {
      scopes := [];
      for i := 0 to |fs|
        invariant scopes == ScopesOf(fs[..i])
      {
        assert fs[..i + 1][..i] == fs[..i];
        if fs[i].scope !in scopes {
          scopes := scopes + [fs[i].scope];
        }
      }
      assert fs[..|fs|] == fs;
    }

    /** `loadRetainedEvForScopes`: refuses on any stored value that is not sound. */
    method LoadExisting(scopes: seq<Scope>) returns (existing: Option<map<Scope, Option<Value>>>)
      ensures existing.None? <==> !SoundScopes(table, scopes)
      ensures existing.Some? ==>
                && existing.value.Keys == (set k | k in scopes)
                && forall k :: k in scopes ==> existing.value[k] == Lookup(table, k)
    {
      var loaded: map<Scope, Option<Value>> := map[];
      for i := 0 to |scopes|
        invariant loaded.Keys == (set k | k in scopes[..i])
        invariant forall k :: k in scopes[..i] ==> ValidOption(Lookup(table, k)) && loaded[k] == Lookup(table, k)
      {
        if !ValidOption(Lookup(table, scopes[i])) {
          assert scopes[i] in scopes;
          return None;
        }
        assert scopes[..i + 1] == scopes[..i] + [scopes[i]];
        loaded := loaded[scopes[i] := Lookup(table, scopes[i])];
      }
      assert scopes[..|scopes|] == scopes;
      return Some(loaded);
    }

    method CollectChanges(scopes: seq<Scope>, existing: map<Scope, Option<Value>>, before: map<Scope, Option<Value>>,
                          after: map<Scope, Option<Value>>, ghost b: Table, ghost a: Table)
      returns (rows: seq<Change>)
      requires forall k :: k in scopes ==> k in existing && k in before && k in after
      requires forall k :: k in scopes ==>
                             existing[k] == Lookup(table, k) && before[k] == Lookup(b, k) && after[k] == Lookup(a, k)
      ensures rows == ChangesOf(scopes, table, b, a)
    {
      rows := [];
      for i := 0 to |scopes|
        invariant rows == ChangesOf(scopes[..i], table, b, a)
      {
        assert scopes[..i + 1][..i] == scopes[..i];
        var k := scopes[i];
        assert k in scopes;
        if existing[k] != after[k] {
          rows := rows + [Change(k, before[k], after[k])];
        }
      }
      assert scopes[..|scopes|] == scopes;
    }

    /** Writes every row's final value. */
    method WriteRows(rows: seq<Change>)
      modifies this`table
      ensures table == Revert(old(table), rows, Reverse)
    {
      for i := 0 to |rows|
        invariant table == Revert(old(table), rows[..i], Reverse)
      {
        assert rows[..i + 1][..i] == rows[..i];
        table := Put(table, rows[i].scope, rows[i].after);
      }
      assert rows[..|rows|] == rows;
    }

    /** The `before` and `after` maps of one activation, and the rows that differ. */
    method BuildRows(scopes: seq<Scope>, existing: map<Scope, Option<Value>>, previous: Option<ReleaseId>,
                     seed: FactSet, next: ReleaseId, candidates: FactSet)
      returns (rows: seq<Change>)
      requires scopes == ScopesOf(seed + candidates) && existing.Keys == (set k | k in scopes)
      requires forall k :: k in scopes ==> existing[k] == Lookup(table, k)
      ensures rows == RowsFor(table, previous, seed, next, candidates)
    {
      ScopesCover(seed, candidates);
      ghost var b := Seeded(table, previous, seed);
      var before := existing;
      if previous.Some? {
        before := ObserveLoaded(before, seed, previous.value, table);
      }
      var after := ObserveLoaded(before, candidates, next, b);
      rows := CollectChanges(scopes, existing, before, after, b, ObserveFacts(b, candidates, next));
    }

    method ActivateRetained(previous: Option<ReleaseId>, next: ReleaseId, seedPrevious: bool, operationId: Key)
      returns (r: Result<Pointer, Error>)
      modifies this`table, this`transitions, this`changes
      ensures var spec := RetainedEvJournal.ActivateRetained(old(Rows()), previous, next, seedPrevious, operationId);
              if spec.Success? then r == Success(spec.value.1) && Rows() == spec.value.0
              else r == Refused(spec.error) && Rows() == old(Rows())
    {
      var seed := SeedFacts(Rows(), previous, seedPrevious);
      if seed.Refused? {
        return Refused(seed.error);
      }
      var candidates := ReleaseFacts(Rows(), next);
      if candidates.Refused? {
        return Refused(candidates.error);
      }
      var seedRows: seq<Facts>, candidateRows: seq<Facts> := seed.value, candidates.value;
      var scopes := LoadScopes(seedRows + candidateRows);
      if |scopes| > MAX_CHANGES {
        return Refused(StateConflict);
      }
      var existing := LoadExisting(scopes);
      if existing.None? {
        return Refused(StateConflict);
      }
      var rows := BuildRows(scopes, existing.value, previous, seed.value, next, candidates.value);
      ActivationWrites(table, previous, seed.value, next, candidates.value);
      var pointer := Record(operationId, previous, next, rows);
      return Success(pointer);
    }

    /** Inserts the transition and its rows, writes the values, and points forward. */
    method Record(operationId: Key, previous: Option<ReleaseId>, next: ReleaseId, rows: seq<Change>)
      returns (pointer: Pointer)
      modifies this`table, this`transitions, this`changes
      ensures (Rows(), pointer) == Recorded(old(Rows()), operationId, previous, next, rows,
                                            Revert(old(table), rows, Reverse))
    {
      pointer := Pointer(|transitions|, Forward);
      transitions := transitions + [Transition(operationId, previous, next, |rows|, DigestOf(rows))];
      changes := changes + [rows];
      WriteRows(rows);
    }

    /** Checks and writes row by row on a working copy, which a mismatch discards. */
    method RevertChecked(rows: seq<Change>, d: Direction) returns (next: Option<Table>)
      requires DistinctScopes(rows)
      ensures next == if TableAgrees(table, rows, d) then Some(Revert(table, rows, d)) else None
    {
      var t := table;
      for i := 0 to |rows|
        invariant t == Revert(table, rows[..i], d)
        invariant forall c :: c in rows[..i] ==>
                                && Lookup(table, c.scope) == Expected(c, d)
                                && ValidOption(Lookup(table, c.scope)) && ValidOption(Target(c, d))
      {
        H.UntouchedScope(table, rows[..i], d, rows[i].scope);
        var stored := Lookup(t, rows[i].scope);
        if stored != Expected(rows[i], d) || !ValidOption(stored) || !ValidOption(Target(rows[i], d)) {
          assert rows[i] in rows;
          return None;
        }
        assert rows[..i + 1] == rows[..i] + [rows[i]];
        assert rows[..i + 1][..i] == rows[..i];
        t := Put(t, rows[i].scope, Target(rows[i], d));
      }
      assert rows[..|rows|] == rows;
      return Some(t);
    }

    method RollbackRetained(a: Active) returns (r: Result<Option<Pointer>, Error>)
      modifies this`table
      ensures var spec := RetainedEvJournal.RollbackRetained(old(Rows()), a);
              if spec.Success? then r == Success(spec.value.1) && Rows() == spec.value.0
              else r == Refused(spec.error) && Rows() == old(Rows())
    {
      if a.pointer.None? {
        return Success(None);
      }
      var p := a.pointer.value;
      if p.transition >= |transitions| || p.transition >= |changes|
         || !PointerAgrees(transitions[p.transition], p.direction, a)
         || !RowsAgree(transitions[p.transition], changes[p.transition])
      {
        return Refused(StateConflict);
      }
      var next := RevertChecked(changes[p.transition], p.direction);
      if next.None? {
        return Refused(JournalMismatch);
      }
      table := next.value;
      return Success(Some(p.(direction := if p.direction.Forward? then Reverse else Forward)));
    }

    method Activate(op: Op) returns (r: Result<(), Error>)
      requires op.Activate?
      modifies this
      ensures var spec := ActivateStep(old(Rows()), op);
              if spec.Success? then r == Success(()) && Rows() == spec.value
              else r == Refused(spec.error) && Rows() == old(Rows())
    {
      if op.id !in releases || !releases[op.id].complete {
        return Refused(StateConflict);
      }
      if releases[op.id].fingerprint != op.fingerprint {
        return Refused(ManifestMismatch);
      }
      var active := ActiveOf(Rows());
      if active != op.expectedActive || active == Some(op.id) {
        return Refused(PredecessorConflict);
      }
      if !op.allowRegression && Regresses(Rows(), op.id) {
        return Refused(DataRegression);
      }
      if !releases[op.id].policyV3 || (active.Some? && active.value !in releases) {
        return Refused(StateConflict);
      }
      r := Promote(op.id, active, op.operationId);
    }

    /** The retained activation, the cutover mark and the new pointer. */
    method Promote(id: ReleaseId, active: Option<ReleaseId>, operationId: Key) returns (r: Result<(), Error>)
      requires active == ActiveOf(Rows())
      modifies this
      ensures var w := old(Rows());
              var spec := RetainedEvJournal.ActivateRetained(w, active, id, SeedsNow(w), operationId);
              if spec.Refused? then r == Refused(spec.error) && Rows() == w
              else
                var generation := if w.state.Some? then w.state.value.generation else 0;
                && r == Success(())
                && Rows() == spec.value.0.(
                               releases := if SeedsFrom(w, active, SeedsNow(w)) then MarkRequired(w.releases, active)
                                           else w.releases,
                               state := Some(Active(generation + 1, Some(id), active, Some(spec.value.1), true)))
    {
      var seeds := SeedsNow(Rows());
      var seedsFrom := SeedsFrom(Rows(), active, seeds);
      var retained := ActivateRetained(active, id, seeds, operationId);
      if retained.Refused? {
        return Refused(retained.error);
      }
      if seedsFrom {
        releases := MarkRequired(releases, active);
      }
      var generation := if state.Some? then state.value.generation else 0;
      state := Some(Active(generation + 1, Some(id), active, Some(retained.value), true));
      return Success(());
    }

    method Rollback(op: Op) returns (r: Result<(), Error>)
      requires op.Rollback?
      modifies this
      ensures var spec := RollbackStep(old(Rows()), op);
              if spec.Success? then r == Success(()) && Rows() == spec.value
              else r == Refused(spec.error) && Rows() == old(Rows())
    {
      var guard := RollbackGuard(Rows(), op.expected, op.target);
      if guard.Some? {
        return Refused(guard.value);
      }
      var a := state.value;
      var retained := RollbackRetained(a);
      if retained.Refused? {
        return Refused(retained.error);
      }
      state := Some(Active(a.generation + 1, a.previous, a.active, retained.value, false));
      return Success(());
    }

    method Initialize(op: Op) returns (r: Result<(), Error>)
      requires op.Initialize?
      modifies this
      ensures var spec := InitializeStep(old(Rows()), op);
              if spec.Success? then r == Success(()) && Rows() == spec.value
              else r == Refused(spec.error) && Rows() == old(Rows())
    {
      if ActiveOf(Rows()) != Some(op.id) || state.value.generation != op.expectedGeneration
         || state.value.previous != op.previous
         || op.id !in releases || !releases[op.id].complete || !releases[op.id].policyV3
      {
        return Refused(StateConflict);
      }
      if state.value.pointer.Some? {
        return if MigrationHolds(Rows()) then Success(()) else Refused(StateConflict);
      }
      if !Legacy(Rows(), op.id) || !state.value.activatedLast || (op.previous.Some? && op.previous.value !in releases) {
        return Refused(StateConflict);
      }
      var retained := ActivateRetained(op.previous, op.id, true, op.operationId);
      if retained.Refused? {
        return Refused(retained.error);
      }
      releases := MarkRequired(MarkRequired(releases, op.previous), Some(op.id));
      state := Some(state.value.(pointer := Some(retained.value)));
      return Success(());
    }
  }
}
