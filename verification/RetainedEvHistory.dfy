/**
 * What every run of the retained-estimate machine keeps: the table is the fold of the active
 * release's lineage, the journal bridges the two folds it separates, so a rollback restores
 * exactly the table its target left and no integrity check of a reachable store ever fires.
 */
module RetainedEvHistory {
  import opened Prelude
  import opened RetainedEvMerge
  import opened RetainedEvJournal

  // ----- Reverting rows -----

  lemma {:induction false} UntouchedScope(t: Table, rows: seq<Change>, d: Direction, k: Scope)
    requires forall c :: c in rows ==> c.scope != k
    ensures Lookup(Revert(t, rows, d), k) == Lookup(t, k)
  {
    if rows != [] {
      assert rows[|rows| - 1] in rows;
      UntouchedScope(t, rows[..|rows| - 1], d, k);
    }
  }

  lemma {:induction false} RevertedScope(t: Table, rows: seq<Change>, d: Direction, i: nat)
    requires i < |rows| && DistinctScopes(rows)
    ensures Lookup(Revert(t, rows, d), rows[i].scope) == Target(rows[i], d)
  {
    if i < |rows| - 1 {
      RevertedScope(t, rows[..|rows| - 1], d, i);
    }
  }

  /** The rows lead from the older table to the newer one and record both ends. */
  ghost predicate Bridges(rows: seq<Change>, older: Table, newer: Table) {
    && DistinctScopes(rows)
    && (forall c :: c in rows ==> c.before == Lookup(older, c.scope) && c.after == Lookup(newer, c.scope))
    && (forall k :: Lookup(older, k) != Lookup(newer, k) ==> exists c :: c in rows && c.scope == k)
  }

  /** Undo and redo are exact inverses, and every check made on the way holds. */
  lemma RevertCrossesTheBridge(rows: seq<Change>, older: Table, newer: Table)
    requires Bridges(rows, older, newer) && ValidTable(older) && ValidTable(newer)
    ensures TableAgrees(newer, rows, Forward) && Revert(newer, rows, Forward) == older
    ensures TableAgrees(older, rows, Reverse) && Revert(older, rows, Reverse) == newer
  {
    forall k
      ensures Lookup(Revert(newer, rows, Forward), k) == Lookup(older, k)
      ensures Lookup(Revert(older, rows, Reverse), k) == Lookup(newer, k)
    {
      if c :| c in rows && c.scope == k {
        var i :| 0 <= i < |rows| && rows[i] == c;
        RevertedScope(newer, rows, Forward, i);
        RevertedScope(older, rows, Reverse, i);
      } else {
        UntouchedScope(newer, rows, Forward, k);
        UntouchedScope(older, rows, Reverse, k);
      }
    }
    TablesAgree(Revert(newer, rows, Forward), older);
    TablesAgree(Revert(older, rows, Reverse), newer);
  }

  // ----- Activation -----

  lemma UnlistedScopesAreUntouched(table: Table, previous: Option<ReleaseId>, seed: FactSet, next: ReleaseId,
                                   candidates: FactSet, k: Scope)
    requires k !in ScopesOf(seed + candidates)
    ensures Lookup(table, k) == Lookup(Seeded(table, previous, seed), k)
            == Lookup(ObserveFacts(Seeded(table, previous, seed), candidates, next), k)
  {
    assert forall f :: f in seed || f in candidates ==> f in seed + candidates;
    if previous.Some? {
      UnobservedScope(table, seed, previous.value, k);
    }
    UnobservedScope(Seeded(table, previous, seed), candidates, next, k);
  }

  /** Reverting the rows of an activation restores `before` on the journaled scopes, and only there. */
  lemma RowsRevertAt(ks: seq<Scope>, existing: Table, before: Table, after: Table, k: Scope)
    requires DistinctScopes(ChangesOf(ks, existing, before, after))
    requires k !in ks ==> Lookup(existing, k) == Lookup(after, k)
    ensures var back := Revert(after, ChangesOf(ks, existing, before, after), Forward);
            Lookup(back, k) == if Lookup(existing, k) == Lookup(after, k) then Lookup(after, k) else Lookup(before, k)
  {
    var rows := ChangesOf(ks, existing, before, after);
    if Lookup(existing, k) == Lookup(after, k) {
      UntouchedScope(after, rows, Forward, k);
    } else {
      var c := Change(k, Lookup(before, k), Lookup(after, k));
      assert c in rows;
      var i :| 0 <= i < |rows| && rows[i] == c;
      RevertedScope(after, rows, Forward, i);
    }
  }

  /**
   * For any three tables: the rows lead back to the seeded table exactly when every scope left out
   * of the journal was not moved by the seed either, and then they bridge the two tables.
   */
  lemma RowsRevertExactly(ks: seq<Scope>, existing: Table, before: Table, after: Table)
    requires DistinctScopes(ChangesOf(ks, existing, before, after))
    requires forall k :: k !in ks ==> Lookup(existing, k) == Lookup(before, k) == Lookup(after, k)
    ensures var rows := ChangesOf(ks, existing, before, after);
            && (Revert(after, rows, Forward) == before <==>
                forall k :: Lookup(existing, k) == Lookup(after, k) ==> Lookup(before, k) == Lookup(after, k))
            && (Revert(after, rows, Forward) == before ==> Bridges(rows, before, after))
  {
    var rows := ChangesOf(ks, existing, before, after);
    var back := Revert(after, rows, Forward);
    forall k
      ensures Lookup(back, k) == if Lookup(existing, k) == Lookup(after, k) then Lookup(after, k) else Lookup(before, k)
    {
      RowsRevertAt(ks, existing, before, after, k);
    }
    if forall k :: Lookup(existing, k) == Lookup(after, k) ==> Lookup(before, k) == Lookup(after, k) {
      TablesAgree(back, before);
    }
    if back == before {
      forall k | Lookup(before, k) != Lookup(after, k) ensures exists c :: c in rows && c.scope == k {
        assert Change(k, Lookup(before, k), Lookup(after, k)) in rows;
      }
    }
  }

  /** The one fact of a release about a pack. */
  function FactAt(fs: seq<Facts>, k: Scope): Option<Facts> {
    if fs == [] then None else if fs[|fs| - 1].scope == k then Some(fs[|fs| - 1]) else FactAt(fs[..|fs| - 1], k)
  }

  function ObserveAt(v: Option<Value>, f: Option<Facts>, release: ReleaseId): Option<Value>
    requires f.Some? ==> ValidFacts(f.value)
  {
    if f.None? then v else Observe(v, ObservationOf(f.value, release))
  }

  lemma {:induction false} FactAtIsAFact(fs: seq<Facts>, k: Scope)
    ensures FactAt(fs, k).Some? ==> FactAt(fs, k).value in fs && FactAt(fs, k).value.scope == k
    ensures FactAt(fs, k).None? ==> forall f :: f in fs ==> f.scope != k
  {
    if fs != [] {
      assert fs == fs[..|fs| - 1] + [fs[|fs| - 1]];
      FactAtIsAFact(fs[..|fs| - 1], k);
    }
  }

  lemma ObservedAt(t: Table, fs: FactSet, release: ReleaseId, k: Scope)
    requires FactAt(fs, k).Some? ==> ValidFacts(FactAt(fs, k).value)
    ensures Lookup(ObserveFacts(t, fs, release), k) == ObserveAt(Lookup(t, k), FactAt(fs, k), release)
  {
    FactAtIsAFact(fs, k);
    if FactAt(fs, k).Some? {
      var i :| 0 <= i < |fs| && fs[i] == FactAt(fs, k).value;
      ObservedScope(t, fs, release, i);
    } else {
      UnobservedScope(t, fs, release, k);
    }
  }

  /**
   * The kept value carries a failure, the seed reports another failure of the same instant, and the
   * next release reports the kept one again.
   */
  predicate SwapsATiedFailure(v: Option<Value>, s: Option<Facts>, c: Option<Facts>) {
    && v.Some? && v.value.failure.Some? && s.Some? && s.value.report.Unavailable? && c.Some?
    && c.value.report.Unavailable?
    && s.value.report.failure.calculatedAt == v.value.failure.value.calculatedAt
    && s.value.report.failure != v.value.failure.value && c.value.report.failure == v.value.failure.value
  }

  /** Two observations undo each other exactly in that case. */
  lemma UndoneIff(v: Option<Value>, s: Option<Facts>, c: Option<Facts>, p: ReleaseId, next: ReleaseId)
    requires ValidOption(v) && (s.Some? ==> ValidFacts(s.value)) && (c.Some? ==> ValidFacts(c.value))
    ensures ObserveAt(ObserveAt(v, s, p), c, next) == v && ObserveAt(v, s, p) != v <==> SwapsATiedFailure(v, s, c)
  {
  }

  /**
   * The journal of an activation that seeds leads back to the seeded table exactly if no scope has a
   * kept value whose failure the seed and the next release swap and restore.
   */
  lemma SeededRowsRevertIff(table: Table, p: ReleaseId, seed: FactSet, next: ReleaseId, candidates: FactSet)
    requires ValidTable(table)
    ensures Revert(After(table, Some(p), seed, next, candidates), RowsFor(table, Some(p), seed, next, candidates),
                   Forward)
            == Seeded(table, Some(p), seed) <==>
            forall k :: !SwapsATiedFailure(Lookup(table, k), FactAt(seed, k), FactAt(candidates, k))
  {
    var before, after := Seeded(table, Some(p), seed), After(table, Some(p), seed, next, candidates);
    var ks := ScopesOf(seed + candidates);
    ChangesAreDistinct(ks, table, before, after);
    forall k | k !in ks ensures Lookup(table, k) == Lookup(before, k) == Lookup(after, k) {
      UnlistedScopesAreUntouched(table, Some(p), seed, next, candidates, k);
    }
    RowsRevertExactly(ks, table, before, after);
    forall k
      ensures Lookup(table, k) == Lookup(after, k) && Lookup(before, k) != Lookup(after, k) <==>
              SwapsATiedFailure(Lookup(table, k), FactAt(seed, k), FactAt(candidates, k))
    {
      FactAtIsAFact(seed, k);
      FactAtIsAFact(candidates, k);
      ObservedAt(table, seed, p, k);
      ObservedAt(before, candidates, next, k);
      UndoneIff(Lookup(table, k), FactAt(seed, k), FactAt(candidates, k), p, next);
    }
  }

  /**
   * A table and two fact sets that meet it: nothing is recorded, so a rollback would leave the next
   * release's table.
   */
  lemma SeedingOverKeptValuesLeavesAGap(k: Scope, table: Table, seed: FactSet, candidates: FactSet)
    requires table == map[k := Value(Estimate(1, 0), 1, 0, Some(Failure(7, 1)))]
    requires seed == [Facts(k, None, Unavailable(Failure(7, 2)))]
    requires candidates == [Facts(k, None, Unavailable(Failure(7, 1)))]
    ensures RowsFor(table, Some(8), seed, 9, candidates) == []
    ensures After(table, Some(8), seed, 9, candidates) == table != Seeded(table, Some(8), seed)
  {
    var before, after := Seeded(table, Some(8), seed), After(table, Some(8), seed, 9, candidates);
    ObservedScope(table, seed, 8, 0);
    ObservedScope(before, candidates, 9, 0);
    forall x ensures Lookup(after, x) == Lookup(table, x) {
      if x != k {
        UnobservedScope(table, seed, 8, x);
        UnobservedScope(before, candidates, 9, x);
      }
    }
    TablesAgree(after, table);
    NothingMoved(ScopesOf(seed + candidates), table, before, after);
  }

  lemma {:induction false} NothingMoved(ks: seq<Scope>, existing: Table, before: Table, after: Table)
    requires existing == after
    ensures ChangesOf(ks, existing, before, after) == []
  {
    if ks != [] {
      NothingMoved(ks[..|ks| - 1], existing, before, after);
    }
  }

  /** Without a seed, or from an empty table, the condition always holds. */
  lemma ActivationBridges(table: Table, previous: Option<ReleaseId>, seed: FactSet, next: ReleaseId,
                          candidates: FactSet)
    requires ValidTable(table) && (seed == [] || table == map[])
    ensures ValidTable(After(table, previous, seed, next, candidates))
    ensures Bridges(RowsFor(table, previous, seed, next, candidates), Seeded(table, previous, seed),
                    After(table, previous, seed, next, candidates))
  {
    var before := Seeded(table, previous, seed);
    var after := After(table, previous, seed, next, candidates);
    var ks := ScopesOf(seed + candidates);
    if previous.Some? {
      ObserveFactsValid(table, seed, previous.value);
    }
    ObserveFactsValid(before, candidates, next);
    ChangesAreDistinct(ks, table, before, after);
    forall k | k !in ks ensures Lookup(table, k) == Lookup(before, k) == Lookup(after, k) {
      UnlistedScopesAreUntouched(table, previous, seed, next, candidates, k);
    }
    RowsRevertExactly(ks, table, before, after);
  }

  // ----- Lineages -----

  /** The releases whose observations make up the table, oldest first; and those of the other pointer. */
  datatype Lineage = Lineage(current: seq<ReleaseId>, other: seq<ReleaseId>)

  function FactsOf(releases: map<ReleaseId, Release>, id: ReleaseId): FactSet {
    if id in releases && releases[id].facts.Some? then releases[id].facts.value else []
  }

  function Fold(releases: map<ReleaseId, Release>, ids: seq<ReleaseId>): Table {
    if ids == [] then map[]
    else ObserveFacts(Fold(releases, ids[..|ids| - 1]), FactsOf(releases, ids[|ids| - 1]), ids[|ids| - 1])
  }

  lemma FoldAppend(releases: map<ReleaseId, Release>, ids: seq<ReleaseId>, id: ReleaseId)
    ensures Fold(releases, ids + [id]) == ObserveFacts(Fold(releases, ids), FactsOf(releases, id), id)
  {
    assert (ids + [id])[..|ids|] == ids;
  }

  lemma {:induction false} FoldIsValid(releases: map<ReleaseId, Release>, ids: seq<ReleaseId>)
    ensures ValidTable(Fold(releases, ids))
  {
    if ids != [] {
      FoldIsValid(releases, ids[..|ids| - 1]);
      ObserveFactsValid(Fold(releases, ids[..|ids| - 1]), FactsOf(releases, ids[|ids| - 1]), ids[|ids| - 1]);
    }
  }

  lemma {:induction false} FoldFrame(r: map<ReleaseId, Release>, s: map<ReleaseId, Release>, ids: seq<ReleaseId>)
    requires forall id :: id in ids ==> FactsOf(r, id) == FactsOf(s, id)
    ensures Fold(r, ids) == Fold(s, ids)
  {
    if ids != [] {
      FoldFrame(r, s, ids[..|ids| - 1]);
    }
  }

  function SeedLineage(w: World, previous: Option<ReleaseId>): seq<ReleaseId> {
    if SeedsFrom(w, previous, true) then [previous.value] else []
  }

  /** The lineage an activation starts from. */
  function BaseOf(w: World, l: Lineage, previous: Option<ReleaseId>): seq<ReleaseId> {
    if SeedsNow(w) then SeedLineage(w, previous) else l.current
  }

  /** How each accepted mutation moves the lineage: activation extends it, rollback swaps the two. */
  function Advance(w: World, l: Lineage, op: Op): Lineage {
    if Step(w, op).Refused? then l
    else
      match op
      case Activate(id, _, _, _, _) =>
        Lineage(BaseOf(w, l, ActiveOf(w)) + [id], BaseOf(w, l, ActiveOf(w)))
      case Rollback(_, _) => if SeedsNow(w) then l else Lineage(l.other, l.current)
      case Initialize(id, _, previous, _) =>
        if SeedsNow(w) then Lineage(BaseOf(w, l, previous) + [id], BaseOf(w, l, previous)) else l
      case _ => l
  }

  /** Every release of a lineage is sealed, so no later mutation can change its facts. */
  ghost predicate Sealed(releases: map<ReleaseId, Release>, ids: seq<ReleaseId>) {
    forall id :: id in ids ==> id in releases && releases[id].complete && releases[id].facts.Some?
  }

  ghost predicate EndsWith(ids: seq<ReleaseId>, id: ReleaseId) {
    ids != [] && ids[|ids| - 1] == id
  }

  /** The lineages are one release apart, on the side the pointer's direction says. */
  ghost predicate LineageAgrees(releases: map<ReleaseId, Release>, l: Lineage, a: Active, d: Direction) {
    && a.active.Some? && EndsWith(l.current, a.active.value)
    && (a.previous.Some? ==> a.previous.value in releases)
    && match d
       case Forward =>
         && l.current == l.other + [a.active.value]
         && (a.previous.Some? && releases[a.previous.value].policyV3 ==> EndsWith(l.other, a.previous.value))
       case Reverse => a.previous.Some? && l.other == l.current + [a.previous.value]
  }

  ghost predicate JournalAgrees(rows: seq<Change>, d: Direction, current: Table, other: Table) {
    match d
    case Forward => Bridges(rows, other, current)
    case Reverse => Bridges(rows, current, other)
  }

  /** What holds of a store whose pointer row has a journal. */
  ghost predicate Journaled(w: World, l: Lineage)
    requires !SeedsNow(w)
  {
    var a := w.state.value;
    var p := a.pointer.value;
    && p.transition < |w.transitions| && p.transition < |w.changes|
    && PointerAgrees(w.transitions[p.transition], p.direction, a)
    && RowsAgree(w.transitions[p.transition], w.changes[p.transition])
    && Sealed(w.releases, l.current) && Sealed(w.releases, l.other)
    && LineageAgrees(w.releases, l, a, p.direction)
    && JournalAgrees(w.changes[p.transition], p.direction, Fold(w.releases, l.current), Fold(w.releases, l.other))
    && w.table == Fold(w.releases, l.current)
  }

  ghost predicate Inv(w: World, l: Lineage) {
    && ValidTable(w.table)
    && |w.transitions| == |w.changes|
    && (if SeedsNow(w) then w.table == map[] else Journaled(w, l))
  }

  /** A new deployment, or one whose pointer row is older than the journal; nothing retained yet. */
  predicate Initial(w: World) {
    SeedsNow(w) && w.table == map[] && w.transitions == [] && w.changes == []
  }

  lemma BeforeIsLineageFold(w: World, l: Lineage, previous: Option<ReleaseId>, seed: FactSet)
    requires Inv(w, l) && SeedFacts(w, previous, SeedsNow(w)) == Success(seed)
    ensures Seeded(w.table, previous, seed) == Fold(w.releases, BaseOf(w, l, previous))
    ensures Sealed(w.releases, BaseOf(w, l, previous))
    ensures seed == [] || w.table == map[]
  {
    if SeedsFrom(w, previous, SeedsNow(w)) {
      FoldAppend(w.releases, [], previous.value);
      assert [] + [previous.value] == [previous.value];
    }
  }

  /** The same releases, up to fields that no fold reads. */
  ghost predicate SameFacts(r: map<ReleaseId, Release>, s: map<ReleaseId, Release>) {
    && (forall x :: x in r <==> x in s)
    && (forall x ::
          x in r ==> r[x].complete == s[x].complete && r[x].policyV3 == s[x].policyV3 && r[x].facts == s[x].facts)
  }

  lemma SameFactsSameFold(r: map<ReleaseId, Release>, s: map<ReleaseId, Release>, ids: seq<ReleaseId>)
    requires SameFacts(r, s)
    ensures Fold(r, ids) == Fold(s, ids) && (Sealed(r, ids) ==> Sealed(s, ids))
  {
    forall id ensures FactsOf(r, id) == FactsOf(s, id) {
    }
    FoldFrame(r, s, ids);
  }

  lemma MarkingKeepsFacts(releases: map<ReleaseId, Release>, id: Option<ReleaseId>)
    ensures SameFacts(releases, MarkRequired(releases, id))
  {
  }

  /** The base of an activation, its result, and the rows between them, when both fact sets are at hand. */
  lemma ActivationCrosses(w: World, l: Lineage, previous: Option<ReleaseId>, seed: FactSet, next: ReleaseId,
                          candidates: FactSet)
    requires Inv(w, l)
    requires SeedFacts(w, previous, SeedsNow(w)) == Success(seed) && ReleaseFacts(w, next) == Success(candidates)
    ensures var base := BaseOf(w, l, previous);
            var after := After(w.table, previous, seed, next, candidates);
            && ValidTable(after) && Sealed(w.releases, base + [next])
            && after == Fold(w.releases, base + [next])
            && Bridges(RowsFor(w.table, previous, seed, next, candidates), Fold(w.releases, base), after)
  {
    BeforeIsLineageFold(w, l, previous, seed);
    ActivationBridges(w.table, previous, seed, next, candidates);
    FoldAppend(w.releases, BaseOf(w, l, previous), next);
    assert FactsOf(w.releases, next) == candidates;
  }

  lemma SealedPrefix(releases: map<ReleaseId, Release>, ids: seq<ReleaseId>, id: ReleaseId)
    requires Sealed(releases, ids + [id])
    ensures Sealed(releases, ids)
  {
    assert forall x :: x in ids ==> x in ids + [id];
  }

  /** Fields that no fold reads do not matter to the lineage either. */
  lemma LineageSurvivesMarking(r: map<ReleaseId, Release>, s: map<ReleaseId, Release>, ids: seq<ReleaseId>,
                               id: ReleaseId)
    requires SameFacts(r, s) && Sealed(r, ids + [id])
    ensures Sealed(s, ids) && Sealed(s, ids + [id])
    ensures Fold(s, ids) == Fold(r, ids) && Fold(s, ids + [id]) == Fold(r, ids + [id])
  {
    SealedPrefix(r, ids, id);
    SameFactsSameFold(r, s, ids);
    SameFactsSameFold(r, s, ids + [id]);
  }

  /** Recording rows that bridge two folds re-establishes the invariant for the longer lineage. */
  lemma RecordedIsJournaled(w: World, base: seq<ReleaseId>, rows: seq<Change>, after: Table,
                            previous: Option<ReleaseId>, next: ReleaseId, operationId: Key,
                            releases: map<ReleaseId, Release>, a: Active)
    requires |w.transitions| == |w.changes| && |rows| <= MAX_CHANGES && DistinctScopes(rows)
    requires Sealed(releases, base) && Sealed(releases, base + [next])
    requires ValidTable(after) && after == Fold(releases, base + [next]) && Bridges(rows, Fold(releases, base), after)
    requires previous.Some? ==>
               previous.value in releases && (releases[previous.value].policyV3 ==> EndsWith(base, previous.value))
    requires a.active == Some(next) && a.previous == previous && a.pointer == Some(Pointer(|w.transitions|, Forward))
    ensures var w' := Recorded(w, operationId, previous, next, rows, after).0.(releases := releases, state := Some(a));
            Inv(w', Lineage(base + [next], base))
  {
    var w' := Recorded(w, operationId, previous, next, rows, after).0.(releases := releases, state := Some(a));
    var t := w'.transitions[|w.transitions|];
    assert w'.changes[|w.transitions|] == rows;
    assert RowsAgree(t, rows) && PointerAgrees(t, Forward, a);
  }

  lemma BaseEndsWithPrevious(w: World, l: Lineage, previous: Option<ReleaseId>)
    requires Inv(w, l) && (previous.Some? ==> previous.value in w.releases)
    requires !SeedsNow(w) ==> previous == ActiveOf(w)
    ensures previous.Some? && w.releases[previous.value].policyV3 ==> EndsWith(BaseOf(w, l, previous), previous.value)
  {
  }

  /** The store an accepted activation leaves, whichever mutation made it. */
  function Activated(w: World, previous: Option<ReleaseId>, seed: FactSet, next: ReleaseId, candidates: FactSet,
                     operationId: Key, releases: map<ReleaseId, Release>, a: Active): World
  {
    Recorded(w, operationId, previous, next, RowsFor(w.table, previous, seed, next, candidates),
             After(w.table, previous, seed, next, candidates)).0.(releases := releases, state := Some(a))
  }

  /** Activation, by request or by initialization, from a store that satisfies the invariant. */
  lemma ActivationKeepsInv(w: World, l: Lineage, previous: Option<ReleaseId>, seed: FactSet, next: ReleaseId,
                           candidates: FactSet, operationId: Key, releases: map<ReleaseId, Release>, a: Active)
    requires Inv(w, l)
    requires SeedFacts(w, previous, SeedsNow(w)) == Success(seed) && ReleaseFacts(w, next) == Success(candidates)
    requires |ScopesOf(seed + candidates)| <= MAX_CHANGES
    requires previous.Some? ==> previous.value in w.releases
    requires !SeedsNow(w) ==> previous == ActiveOf(w)
    requires SameFacts(w.releases, releases)
    requires a.active == Some(next) && a.previous == previous && a.pointer == Some(Pointer(|w.transitions|, Forward))
    ensures Inv(Activated(w, previous, seed, next, candidates, operationId, releases, a),
                Lineage(BaseOf(w, l, previous) + [next], BaseOf(w, l, previous)))
  {
    ActivationCrosses(w, l, previous, seed, next, candidates);
    BaseEndsWithPrevious(w, l, previous);
    LineageSurvivesMarking(w.releases, releases, BaseOf(w, l, previous), next);
    RecordedIsJournaled(w, BaseOf(w, l, previous), RowsFor(w.table, previous, seed, next, candidates),
                        After(w.table, previous, seed, next, candidates), previous, next, operationId, releases, a);
  }

  lemma ActivateStepRecords(w: World, op: Op)
    requires op.Activate? && ActivateStep(w, op).Success?
    ensures var previous, w' := ActiveOf(w), ActivateStep(w, op).value;
            && SeedFacts(w, previous, SeedsNow(w)).Success? && ReleaseFacts(w, op.id).Success?
            && var seed, candidates := SeedFacts(w, previous, SeedsNow(w)).value, ReleaseFacts(w, op.id).value;
            && |ScopesOf(seed + candidates)| <= MAX_CHANGES && (previous.Some? ==> previous.value in w.releases)
            && w'.state.Some?
            && w' == Activated(w, previous, seed, op.id, candidates, op.operationId, w'.releases, w'.state.value)
    ensures var w' := ActivateStep(w, op).value;
            && (w'.releases == w.releases || w'.releases == MarkRequired(w.releases, ActiveOf(w)))
            && w'.state.value.active == Some(op.id) && w'.state.value.previous == ActiveOf(w)
            && w'.state.value.pointer == Some(Pointer(|w.transitions|, Forward))
  {
  }

  lemma ActivateStepKeepsInv(w: World, l: Lineage, op: Op)
    requires Inv(w, l) && op.Activate? && ActivateStep(w, op).Success?
    ensures SameFacts(w.releases, ActivateStep(w, op).value.releases)
    ensures Inv(ActivateStep(w, op).value, Lineage(BaseOf(w, l, ActiveOf(w)) + [op.id], BaseOf(w, l, ActiveOf(w))))
  {
    ActivateStepRecords(w, op);
    MarkingKeepsFacts(w.releases, ActiveOf(w));
    var w' := ActivateStep(w, op).value;
    ActivationKeepsInv(w, l, ActiveOf(w), SeedFacts(w, ActiveOf(w), SeedsNow(w)).value, op.id,
                       ReleaseFacts(w, op.id).value, op.operationId, w'.releases, w'.state.value);
  }

  lemma InitializeStepRecords(w: World, op: Op)
    requires op.Initialize? && InitializeStep(w, op).Success? && SeedsNow(w)
    ensures var w' := InitializeStep(w, op).value;
            && SeedFacts(w, op.previous, true).Success? && ReleaseFacts(w, op.id).Success?
            && var seed, candidates := SeedFacts(w, op.previous, true).value, ReleaseFacts(w, op.id).value;
            && |ScopesOf(seed + candidates)| <= MAX_CHANGES && (op.previous.Some? ==> op.previous.value in w.releases)
            && w'.state.Some?
            && w' == Activated(w, op.previous, seed, op.id, candidates, op.operationId, w'.releases, w'.state.value)
    ensures var w' := InitializeStep(w, op).value;
            && w'.releases == MarkRequired(MarkRequired(w.releases, op.previous), Some(op.id))
            && w'.state.value.active == Some(op.id) && w'.state.value.previous == op.previous
            && w'.state.value.pointer == Some(Pointer(|w.transitions|, Forward))
  {
  }

  lemma InitializeStepKeepsInv(w: World, l: Lineage, op: Op)
    requires Inv(w, l) && op.Initialize? && InitializeStep(w, op).Success?
    ensures SameFacts(w.releases, InitializeStep(w, op).value.releases)
    ensures Inv(InitializeStep(w, op).value,
                if SeedsNow(w) then Lineage(BaseOf(w, l, op.previous) + [op.id], BaseOf(w, l, op.previous)) else l)
  {
    if SeedsNow(w) {
      InitializeStepRecords(w, op);
      MarkingKeepsFacts(w.releases, op.previous);
      MarkingKeepsFacts(MarkRequired(w.releases, op.previous), Some(op.id));
      var w' := InitializeStep(w, op).value;
      ActivationKeepsInv(w, l, op.previous, SeedFacts(w, op.previous, true).value, op.id, ReleaseFacts(w, op.id).value,
                         op.operationId, w'.releases, w'.state.value);
    }
  }

  lemma RollbackKeepsInv(w: World, l: Lineage, op: Op)
    requires Inv(w, l) && op.Rollback? && RollbackGuard(w, op.expected, op.target).None?
    ensures Step(w, op).Success?
    ensures Inv(Step(w, op).value, Advance(w, l, op))
    ensures !SeedsNow(w) ==> Step(w, op).value.table == Fold(w.releases, l.other)
  {
    if !SeedsNow(w) {
      var p := w.state.value.pointer.value;
      FoldIsValid(w.releases, l.current);
      FoldIsValid(w.releases, l.other);
      match p.direction {
        case Forward =>
          RevertCrossesTheBridge(w.changes[p.transition], Fold(w.releases, l.other), Fold(w.releases, l.current));
        case Reverse =>
          RevertCrossesTheBridge(w.changes[p.transition], Fold(w.releases, l.current), Fold(w.releases, l.other));
      }
    }
  }

  lemma CompleteKeepsInv(w: World, l: Lineage, op: Op)
    requires Inv(w, l) && (op.Complete? || op.SealFacts?) && Step(w, op).Success?
    ensures Inv(Step(w, op).value, l)
  {
    ReleasesGrow(w, l, Step(w, op).value.releases);
  }

  lemma AcceptedKeepsInv(w: World, l: Lineage, op: Op)
    requires Inv(w, l) && Step(w, op).Success?
    ensures Inv(Step(w, op).value, Advance(w, l, op))
  {
    match op {
      case Complete(_, _) => CompleteKeepsInv(w, l, op);
      case SealFacts(_, _) => CompleteKeepsInv(w, l, op);
      case Activate(_, _, _, _, _) => ActivateStepKeepsInv(w, l, op);
      case Rollback(_, _) => RollbackKeepsInv(w, l, op);
      case Initialize(_, _, _, _) => InitializeStepKeepsInv(w, l, op);
    }
  }

  lemma StepKeepsInv(w: World, l: Lineage, op: Op)
    requires Inv(w, l)
    ensures Inv(Next(w, op), Advance(w, l, op))
  {
    if Step(w, op).Success? {
      AcceptedKeepsInv(w, l, op);
    }
  }

  ghost predicate Grows(r: map<ReleaseId, Release>, s: map<ReleaseId, Release>) {
    forall id :: id in r ==>
                   && id in s && s[id].complete == r[id].complete && s[id].policyV3 == r[id].policyV3
                   && (r[id].facts.Some? ==> s[id].facts == r[id].facts)
  }

  lemma GrowingKeepsFolds(r: map<ReleaseId, Release>, s: map<ReleaseId, Release>, ids: seq<ReleaseId>)
    requires Grows(r, s) && Sealed(r, ids)
    ensures Sealed(s, ids) && Fold(s, ids) == Fold(r, ids)
  {
    forall id | id in ids ensures FactsOf(r, id) == FactsOf(s, id) {
      assert id in r;
    }
    FoldFrame(r, s, ids);
  }

  lemma GrowingKeepsLineage(r: map<ReleaseId, Release>, s: map<ReleaseId, Release>, l: Lineage, a: Active, d: Direction)
    requires Grows(r, s) && LineageAgrees(r, l, a, d)
    ensures LineageAgrees(s, l, a, d)
  {
  }

  /** New releases, and fact sets sealed late, leave every lineage's facts alone. */
  lemma ReleasesGrow(w: World, l: Lineage, releases: map<ReleaseId, Release>)
    requires Inv(w, l) && Grows(w.releases, releases)
    ensures Inv(w.(releases := releases), l)
  {
    if !SeedsNow(w) {
      GrowingKeepsFolds(w.releases, releases, l.current);
      GrowingKeepsFolds(w.releases, releases, l.other);
      GrowingKeepsLineage(w.releases, releases, l, w.state.value, w.state.value.pointer.value.direction);
    }
  }

  // ----- Runs -----

  function Run(w: World, ops: seq<Op>): World {
    if ops == [] then w else Next(Run(w, ops[..|ops| - 1]), ops[|ops| - 1])
  }

  function RunLineage(w: World, ops: seq<Op>): Lineage {
    if ops == [] then Lineage([], [])
    else Advance(Run(w, ops[..|ops| - 1]), RunLineage(w, ops[..|ops| - 1]), ops[|ops| - 1])
  }

  /** The stored table that one mutation leaves behind when it moves or first records the pointer; `left` otherwise. */
  function LeftAfter(w: World, left: Table, op: Op): Table {
    if Step(w, op).Refused? then left
    else
      match op
      case Activate(_, _, _, _, _) => w.table
      case Rollback(_, _) => w.table
      case Initialize(_, _, _, _) => if SeedsNow(w) then w.table else left
      case _ => left
  }

  /** The stored table while the release now named `previous` was last active. */
  function LeftBehind(w: World, ops: seq<Op>): Table {
    if ops == [] then map[] else LeftAfter(Run(w, ops[..|ops| - 1]), LeftBehind(w, ops[..|ops| - 1]), ops[|ops| - 1])
  }

  function SeedOf(w: World, previous: Option<ReleaseId>): Option<ReleaseId> {
    if SeedsFrom(w, previous, SeedsNow(w)) then previous else None
  }

  function SeededAfter(w: World, seeded: Option<ReleaseId>, op: Op): Option<ReleaseId> {
    if Step(w, op).Refused? then seeded
    else
      match op
      case Activate(_, _, _, _, _) => SeedOf(w, ActiveOf(w))
      case Rollback(_, _) => None
      case Initialize(_, _, previous, _) => if SeedsNow(w) then SeedOf(w, previous) else seeded
      case _ => seeded
  }

  /** The release whose facts the last move of the pointer seeded the table with, if it seeded. */
  function SeedBehind(w: World, ops: seq<Op>): Option<ReleaseId> {
    if ops == [] then None else SeededAfter(Run(w, ops[..|ops| - 1]), SeedBehind(w, ops[..|ops| - 1]), ops[|ops| - 1])
  }

  lemma {:induction false} RunKeepsInv(w: World, ops: seq<Op>)
    requires Initial(w)
    ensures Inv(Run(w, ops), RunLineage(w, ops))
  {
    if ops != [] {
      RunKeepsInv(w, ops[..|ops| - 1]);
      StepKeepsInv(Run(w, ops[..|ops| - 1]), RunLineage(w, ops[..|ops| - 1]), ops[|ops| - 1]);
    }
  }

  /**
   * After every run the retained table is the fold of the observations along the active release's
   * lineage, which ends with that release.
   */
  lemma TableIsTheFoldOfItsLineage(w: World, ops: seq<Op>)
    requires Initial(w) && !SeedsNow(Run(w, ops))
    ensures var w', l := Run(w, ops), RunLineage(w, ops);
            && w'.table == Fold(w'.releases, l.current)
            && w'.state.value.active.Some? && EndsWith(l.current, w'.state.value.active.value)
            && ValidTable(w'.table)
  {
    RunKeepsInv(w, ops);
  }

  /** How the other lineage relates to the table left behind: its fold, unless the last move seeded. */
  ghost predicate LeftAgrees(releases: map<ReleaseId, Release>, other: seq<ReleaseId>, left: Table,
                             seeded: Option<ReleaseId>)
  {
    match seeded
    case None => left == Fold(releases, other)
    case Some(p) => left == map[] && other == [p]
  }

  lemma LeftAgreesIsFramed(r: map<ReleaseId, Release>, s: map<ReleaseId, Release>, other: seq<ReleaseId>, left: Table,
                           seeded: Option<ReleaseId>)
    requires LeftAgrees(r, other, left, seeded) && Fold(s, other) == Fold(r, other)
    ensures LeftAgrees(s, other, left, seeded)
  {
  }

  /** The base of a first record is its seed's lineage over an empty table; of a later one the table as it is. */
  lemma BaseIsLeft(w: World, l: Lineage, previous: Option<ReleaseId>)
    requires Inv(w, l)
    ensures LeftAgrees(w.releases, BaseOf(w, l, previous), w.table, SeedOf(w, previous))
  {
  }

  lemma ActivateMoves(w: World, l: Lineage, left: Table, seeded: Option<ReleaseId>, op: Op)
    requires op.Activate? && Step(w, op).Success?
    ensures LeftAfter(w, left, op) == w.table && SeededAfter(w, seeded, op) == SeedOf(w, ActiveOf(w))
    ensures Advance(w, l, op).other == BaseOf(w, l, ActiveOf(w))
  {
  }

  lemma ActivateKeepsFolds(w: World, l: Lineage, op: Op, ids: seq<ReleaseId>)
    requires Inv(w, l) && op.Activate? && ActivateStep(w, op).Success?
    ensures Fold(ActivateStep(w, op).value.releases, ids) == Fold(w.releases, ids)
  {
    ActivateStepKeepsInv(w, l, op);
    SameFactsSameFold(w.releases, ActivateStep(w, op).value.releases, ids);
  }

  lemma ActivationLeaves(w: World, l: Lineage, left: Table, seeded: Option<ReleaseId>, op: Op)
    requires Inv(w, l) && op.Activate? && Step(w, op).Success?
    ensures LeftAgrees(Step(w, op).value.releases, Advance(w, l, op).other, LeftAfter(w, left, op),
                       SeededAfter(w, seeded, op))
  {
    ActivateMoves(w, l, left, seeded, op);
    BaseIsLeft(w, l, ActiveOf(w));
    ActivateKeepsFolds(w, l, op, BaseOf(w, l, ActiveOf(w)));
    LeftAgreesIsFramed(w.releases, Step(w, op).value.releases, BaseOf(w, l, ActiveOf(w)), w.table,
                       SeedOf(w, ActiveOf(w)));
  }

  lemma InitializeMoves(w: World, l: Lineage, left: Table, seeded: Option<ReleaseId>, op: Op)
    requires op.Initialize? && Step(w, op).Success?
    ensures LeftAfter(w, left, op) == if SeedsNow(w) then w.table else left
    ensures SeededAfter(w, seeded, op) == if SeedsNow(w) then SeedOf(w, op.previous) else seeded
    ensures Advance(w, l, op).other == if SeedsNow(w) then BaseOf(w, l, op.previous) else l.other
  {
  }

  lemma InitializeKeepsFolds(w: World, l: Lineage, op: Op, ids: seq<ReleaseId>)
    requires Inv(w, l) && op.Initialize? && InitializeStep(w, op).Success?
    ensures Fold(InitializeStep(w, op).value.releases, ids) == Fold(w.releases, ids)
  {
    InitializeStepKeepsInv(w, l, op);
    SameFactsSameFold(w.releases, InitializeStep(w, op).value.releases, ids);
  }

  lemma InitializationLeaves(w: World, l: Lineage, left: Table, seeded: Option<ReleaseId>, op: Op)
    requires Inv(w, l) && op.Initialize? && Step(w, op).Success?
    requires !SeedsNow(w) ==> LeftAgrees(w.releases, l.other, left, seeded)
    ensures LeftAgrees(Step(w, op).value.releases, Advance(w, l, op).other, LeftAfter(w, left, op),
                       SeededAfter(w, seeded, op))
  {
    InitializeMoves(w, l, left, seeded, op);
    BaseIsLeft(w, l, op.previous);
    InitializeKeepsFolds(w, l, op, Advance(w, l, op).other);
    LeftAgreesIsFramed(w.releases, Step(w, op).value.releases, Advance(w, l, op).other, LeftAfter(w, left, op),
                       SeededAfter(w, seeded, op));
  }

  lemma RollbackMoves(w: World, l: Lineage, left: Table, seeded: Option<ReleaseId>, op: Op)
    requires op.Rollback? && Step(w, op).Success? && !SeedsNow(w)
    ensures LeftAfter(w, left, op) == w.table && SeededAfter(w, seeded, op) == None
    ensures Advance(w, l, op).other == l.current && Step(w, op).value.releases == w.releases
  {
  }

  lemma JournaledTable(w: World, l: Lineage)
    requires Inv(w, l) && !SeedsNow(w)
    ensures w.table == Fold(w.releases, l.current)
  {
  }

  lemma RollbackLeaves(w: World, l: Lineage, left: Table, seeded: Option<ReleaseId>, op: Op)
    requires Inv(w, l) && op.Rollback? && Step(w, op).Success? && !SeedsNow(w)
    ensures LeftAgrees(Step(w, op).value.releases, Advance(w, l, op).other, LeftAfter(w, left, op),
                       SeededAfter(w, seeded, op))
  {
    RollbackMoves(w, l, left, seeded, op);
    JournaledTable(w, l);
  }

  lemma RollbackKeepsPointerless(w: World, op: Op)
    requires op.Rollback? && Step(w, op).Success? && SeedsNow(w)
    ensures SeedsNow(Step(w, op).value)
  {
  }

  lemma StepLeavesTheOther(w: World, l: Lineage, left: Table, seeded: Option<ReleaseId>, op: Op)
    requires Inv(w, l) && Step(w, op).Success? && !SeedsNow(Step(w, op).value)
    requires !SeedsNow(w) ==> LeftAgrees(w.releases, l.other, left, seeded)
    ensures LeftAgrees(Step(w, op).value.releases, Advance(w, l, op).other, LeftAfter(w, left, op),
                       SeededAfter(w, seeded, op))
  {
    if op.Activate? {
      ActivationLeaves(w, l, left, seeded, op);
    } else if op.Rollback? {
      if SeedsNow(w) {
        RollbackKeepsPointerless(w, op);
      } else {
        RollbackLeaves(w, l, left, seeded, op);
      }
    } else if op.Initialize? {
      InitializationLeaves(w, l, left, seeded, op);
    } else {
      OtherLineageIsFramed(w, l, op);
      LeftAgreesIsFramed(w.releases, Step(w, op).value.releases, l.other, left, seeded);
    }
  }

  lemma {:induction false} LeftBehindAgrees(w: World, ops: seq<Op>)
    requires Initial(w) && !SeedsNow(Run(w, ops))
    ensures LeftAgrees(Run(w, ops).releases, RunLineage(w, ops).other, LeftBehind(w, ops), SeedBehind(w, ops))
  {
    var init, op := ops[..|ops| - 1], ops[|ops| - 1];
    RunKeepsInv(w, init);
    if !SeedsNow(Run(w, init)) {
      LeftBehindAgrees(w, init);
    }
    if Step(Run(w, init), op).Success? {
      StepLeavesTheOther(Run(w, init), RunLineage(w, init), LeftBehind(w, init), SeedBehind(w, init), op);
    }
  }

  lemma OtherLineageIsFramed(w: World, l: Lineage, op: Op)
    requires Inv(w, l) && !SeedsNow(w) && Step(w, op).Success? && (op.Complete? || op.SealFacts?)
    ensures Fold(Step(w, op).value.releases, l.other) == Fold(w.releases, l.other)
  {
    var releases := Step(w, op).value.releases;
    forall id | id in l.other ensures FactsOf(w.releases, id) == FactsOf(releases, id) {
      assert id in w.releases && w.releases[id].facts.Some?;
    }
    FoldFrame(w.releases, releases, l.other);
  }

  /**
   * After every run a rollback is refused only by the pointer checks that precede the journal: no
   * integrity check of the journal can fire. An accepted one restores exactly the table that was stored
   * while its target was last active; except that, if the last move of the pointer was a seeding one,
   * that table was empty and the rollback writes the fold of the seed's facts.
   */
  lemma RollbackRestoresWhatItsTargetLeft(w: World, ops: seq<Op>, op: Op)
    requires Initial(w) && op.Rollback?
    ensures Step(Run(w, ops), op).Success? <==> RollbackGuard(Run(w, ops), op.expected, op.target).None?
    ensures Step(Run(w, ops), op).Success? && !SeedsNow(Run(w, ops)) ==>
              match SeedBehind(w, ops)
              case None => Step(Run(w, ops), op).value.table == LeftBehind(w, ops)
              case Some(p) =>
                LeftBehind(w, ops) == map[] && Step(Run(w, ops), op).value.table == Fold(Run(w, ops).releases, [p])
  {
    RunKeepsInv(w, ops);
    var w', l := Run(w, ops), RunLineage(w, ops);
    if RollbackGuard(w', op.expected, op.target).Some? {
      GuardRefuses(w', op);
    } else {
      RollbackKeepsInv(w', l, op);
      if !SeedsNow(w') {
        LeftBehindAgrees(w, ops);
      }
    }
  }

  lemma {:induction false} SeedAddsNothingIff(fs: FactSet, p: ReleaseId)
    ensures ObserveFacts(map[], fs, p) == map[] <==> forall f :: f in fs ==> f.report.Unavailable?
  {
    var t := ObserveFacts(map[], fs, p);
    forall f | f in fs ensures f.scope in t <==> f.report.Available? {
      var i :| 0 <= i < |fs| && fs[i] == f;
      ObservedScope(map[], fs, p, i);
      assert Lookup(t, f.scope) == Observe(None, ObservationOf(f, p));
    }
    forall k | k in t ensures exists f :: f in fs && f.scope == k {
      if forall f :: f in fs ==> f.scope != k {
        UnobservedScope(map[], fs, p, k);
      }
    }
  }

  /**
   * The restored table is the stored one exactly if the last move of the pointer did not seed, or no
   * fact of the release it seeded from is an available estimate.
   */
  lemma RestoredIsStoredIff(w: World, ops: seq<Op>, op: Op)
    requires Initial(w) && op.Rollback? && Step(Run(w, ops), op).Success? && !SeedsNow(Run(w, ops))
    ensures Step(Run(w, ops), op).value.table == LeftBehind(w, ops) <==>
            (SeedBehind(w, ops).None?
             || forall f :: f in FactsOf(Run(w, ops).releases, SeedBehind(w, ops).value) ==> f.report.Unavailable?)
  {
    RollbackRestoresWhatItsTargetLeft(w, ops, op);
    if SeedBehind(w, ops).Some? {
      var p := SeedBehind(w, ops).value;
      FoldAppend(Run(w, ops).releases, [], p);
      assert [] + [p] == [p];
      SeedAddsNothingIff(FactsOf(Run(w, ops).releases, p), p);
    }
  }

  /** A legacy head with one available estimate, and a complete release to activate over it. */
  ghost predicate LegacyHead(w: World, p: ReleaseId, next: ReleaseId, f: Facts) {
    && Initial(w) && w.state == Some(Active(1, Some(p), None, None, true)) && p != next && ValidFacts(f)
    && f.report.Available?
    && p in w.releases && w.releases[p] == Release(1, true, true, 0, false, false, Some([f]))
    && next in w.releases && w.releases[next] == Release(2, true, true, 0, true, true, Some([]))
  }

  lemma FirstActivationSeeds(w: World, p: ReleaseId, next: ReleaseId, f: Facts)
    requires LegacyHead(w, p, next, f)
    ensures var op := Activate(next, 2, Some(p), false, 5);
            && Step(w, op).Success? && SeedOf(w, ActiveOf(w)) == Some(p)
            && var w' := Step(w, op).value;
               && w'.state == Some(Active(2, Some(next), Some(p), Some(Pointer(0, Forward)), true))
               && FactsOf(w'.releases, p) == [f] && RollbackGuard(w', next, p).None?
  {
    ValidTableMeetsNoConflict(w, Some(p), next, true, 5);
  }

  /**
   * The seeded case: while the legacy release was active the table was empty, and rolling back to it
   * leaves its estimate in the table.
   */
  lemma SeededRollbackIsNotWhatWasStored(w: World, p: ReleaseId, next: ReleaseId, f: Facts)
    requires LegacyHead(w, p, next, f)
    ensures var ops, back := [Activate(next, 2, Some(p), false, 5)], Rollback(next, p);
            && w.table == map[] == LeftBehind(w, ops) && ActiveOf(w) == Some(p)
            && Step(Run(w, ops), back).Success? && f.scope in Step(Run(w, ops), back).value.table
  {
    var op, back := Activate(next, 2, Some(p), false, 5), Rollback(next, p);
    FirstActivationSeeds(w, p, next, f);
    assert [op][..0] == [] && Run(w, []) == w && SeedBehind(w, []) == None;
    assert Run(w, [op]) == Step(w, op).value && SeedBehind(w, [op]) == Some(p);
    RollbackRestoresWhatItsTargetLeft(w, [op], back);
    SeedFold(Run(w, [op]).releases, p, f);
  }

  lemma SeedFold(releases: map<ReleaseId, Release>, p: ReleaseId, f: Facts)
    requires FactsOf(releases, p) == [f] && f.report.Available?
    ensures f.scope in Fold(releases, [p])
  {
    FoldAppend(releases, [], p);
    assert [] + [p] == [p];
    ObservedScope(map[], FactsOf(releases, p), p, 0);
    assert Lookup(Fold(releases, [p]), f.scope).Some?;
  }

  /** No reachable store can meet the seeding gap: whenever an activation would seed, the table is empty. */
  lemma SeedingMeetsAnEmptyTable(w: World, ops: seq<Op>, seed: FactSet, candidates: FactSet, k: Scope)
    requires Initial(w) && SeedsNow(Run(w, ops))
    ensures Run(w, ops).table == map[]
            && !SwapsATiedFailure(Lookup(Run(w, ops).table, k), FactAt(seed, k), FactAt(candidates, k))
  {
    RunKeepsInv(w, ops);
  }

  lemma GuardRefuses(w: World, op: Op)
    requires op.Rollback? && RollbackGuard(w, op.expected, op.target).Some?
    ensures Step(w, op).Refused?
  {
  }

  /** After every run an activation that passes its checks is refused only when a fact set is not sealed. */
  lemma ActivationMeetsNoConflict(w: World, ops: seq<Op>, previous: Option<ReleaseId>, next: ReleaseId,
                                  operationId: Key)
    requires Initial(w)
    ensures var w' := Run(w, ops);
            ActivateRetained(w', previous, next, SeedsNow(w'), operationId).Success? <==>
            SeedFacts(w', previous, SeedsNow(w')).Success? && ReleaseFacts(w', next).Success?
  {
    RunKeepsInv(w, ops);
    ValidTableMeetsNoConflict(Run(w, ops), previous, next, SeedsNow(Run(w, ops)), operationId);
  }

  lemma ValidTableMeetsNoConflict(w: World, previous: Option<ReleaseId>, next: ReleaseId, seedPrevious: bool,
                                  operationId: Key)
    requires ValidTable(w.table)
    ensures ActivateRetained(w, previous, next, seedPrevious, operationId).Success? <==>
            SeedFacts(w, previous, seedPrevious).Success? && ReleaseFacts(w, next).Success?
  {
  }

  // ----- Readers -----

  lemma PointerLoads(w: World, l: Lineage)
    requires Inv(w, l) && !SeedsNow(w)
    ensures RollbackRetained(w, w.state.value).Success?
  {
    var p := w.state.value.pointer.value;
    FoldIsValid(w.releases, l.current);
    FoldIsValid(w.releases, l.other);
    match p.direction {
      case Forward =>
        RevertCrossesTheBridge(w.changes[p.transition], Fold(w.releases, l.other), Fold(w.releases, l.current));
      case Reverse =>
        RevertCrossesTheBridge(w.changes[p.transition], Fold(w.releases, l.current), Fold(w.releases, l.other));
    }
  }

  /**
   * `readRetainedEvWitnessReadiness`: after every run the pointer loads, its rows are the ones recorded,
   * and every stored value is what the journal says this direction left; none of its refusals fires.
   */
  lemma ReadinessHolds(w: World, ops: seq<Op>)
    requires Initial(w) && !SeedsNow(Run(w, ops))
    ensures var w' := Run(w, ops);
            var p := w'.state.value.pointer.value;
            && p.transition < |w'.transitions| == |w'.changes|
            && PointerAgrees(w'.transitions[p.transition], p.direction, w'.state.value)
            && RowsAgree(w'.transitions[p.transition], w'.changes[p.transition])
            && TableAgrees(w'.table, w'.changes[p.transition], p.direction)
  {
    RunKeepsInv(w, ops);
    PointerLoads(Run(w, ops), RunLineage(w, ops));
  }

  /** `readRetainedEvWitness`: merging the active release's facts into the table again changes nothing. */
  lemma WitnessIsAFixedPoint(w: World, ops: seq<Op>, i: nat)
    requires Initial(w) && !SeedsNow(Run(w, ops))
    requires ActiveOf(Run(w, ops)).Some? && i < |FactsOf(Run(w, ops).releases, ActiveOf(Run(w, ops)).value)|
    ensures var w' := Run(w, ops);
            var id := ActiveOf(w').value;
            var f := FactsOf(w'.releases, id)[i];
            RetainedForFacts(f, Lookup(w'.table, f.scope), id) == Lookup(w'.table, f.scope)
  {
    RunKeepsInv(w, ops);
    var w', ids := Run(w, ops), RunLineage(w, ops).current;
    var id := ActiveOf(w').value;
    var fs := FactsOf(w'.releases, id);
    var older := Fold(w'.releases, ids[..|ids| - 1]);
    FoldIsValid(w'.releases, ids[..|ids| - 1]);
    ObservedScope(older, fs, id, i);
    ObserveLaws(Lookup(older, fs[i].scope), ObservationOf(fs[i], id));
  }

  /** `assertSourceFact`: the fact a retained value was copied from. */
  ghost predicate HasSourceFact(releases: map<ReleaseId, Release>, ids: seq<ReleaseId>, k: Scope, v: Value) {
    && v.source in ids && v.source in releases && releases[v.source].complete
    && exists f :: f in FactsOf(releases, v.source)
         && f.scope == k && f.report == Available(v.estimate) && f.priceMinor == Some(v.priceMinor)
  }

  /** Observing keeps the kept value's estimate, price and source, or takes all three from the observation. */
  lemma ObserveTakesOneSource(current: Option<Value>, o: Observation)
    requires Single(o) && Observe(current, o).Some?
    ensures var v := Observe(current, o).value.(failure := None);
            (current.Some? && v == current.value.(failure := None)) || o.value == Some(v)
  {
  }

  lemma {:induction false} ObservedValuesHaveSources(releases: map<ReleaseId, Release>, ids: seq<ReleaseId>, t: Table,
                                                     fs: seq<Facts>, id: ReleaseId, k: Scope)
    requires (forall f :: f in fs ==> ValidFacts(f) && f in FactsOf(releases, id)) && id in releases
             && releases[id].complete
    requires k in t ==> HasSourceFact(releases, ids, k, t[k])
    ensures k in ObserveFacts(t, fs, id) ==> HasSourceFact(releases, ids + [id], k, ObserveFacts(t, fs, id)[k])
  {
    if fs != [] {
      var init, last := fs[..|fs| - 1], fs[|fs| - 1];
      assert last in fs;
      ObservedValuesHaveSources(releases, ids, t, init, id, k);
      if last.scope == k && k in ObserveFacts(t, fs, id) {
        var kept := Lookup(ObserveFacts(t, init, id), k);
        ObserveTakesOneSource(kept, ObservationOf(last, id));
        var v := ObserveFacts(t, fs, id)[k];
        if kept.Some? && v.(failure := None) == kept.value.(failure := None) {
          assert v.source == kept.value.source && v.estimate == kept.value.estimate
                 && v.priceMinor == kept.value.priceMinor;
        } else {
          assert last.report == Available(v.estimate) && last.priceMinor == Some(v.priceMinor) && v.source == id;
        }
      }
    }
  }

  lemma {:induction false} FoldedValuesHaveSources(releases: map<ReleaseId, Release>, ids: seq<ReleaseId>)
    requires Sealed(releases, ids)
    ensures forall k :: k in Fold(releases, ids) ==> HasSourceFact(releases, ids, k, Fold(releases, ids)[k])
  {
    if ids != [] {
      var init, id := ids[..|ids| - 1], ids[|ids| - 1];
      FoldedValuesHaveSources(releases, init);
      assert ids == init + [id];
      forall k | k in Fold(releases, ids) ensures HasSourceFact(releases, ids, k, Fold(releases, ids)[k]) {
        ObservedValuesHaveSources(releases, init, Fold(releases, init), FactsOf(releases, id), id, k);
      }
    }
  }

  /**
   * After every run each retained value is backed by a sealed fact of the release it names, which is
   * stored and complete.
   */
  lemma RetainedValuesHaveSources(w: World, ops: seq<Op>)
    requires Initial(w) && !SeedsNow(Run(w, ops))
    ensures var w' := Run(w, ops);
            forall k :: k in w'.table ==> HasSourceFact(w'.releases, RunLineage(w, ops).current, k, w'.table[k])
  {
    RunKeepsInv(w, ops);
    FoldedValuesHaveSources(Run(w, ops).releases, RunLineage(w, ops).current);
  }
}
