/**
 * One release's tables as staging and the backfill update them. Each method is proved to take exactly
 * the step of `ReleaseStaging` or `EvFactsBackfill` of the same name; a refusal leaves every row alone.
 */
module ReleaseStore {
  import opened Prelude
  import opened RetainedEvMerge
  import opened ReleaseStaging
  import B = EvFactsBackfill

  class Store {
    var manifest: Manifest
    var complete: bool
    var categories: seq<Category>
    var collectibles: seq<Collectible>
    var repacks: seq<Repack>
    var chases: seq<Chase>
    var shards: seq<seq<Row>>
    var facts: seq<Facts>
    var factSet: Option<FactSet>
    var accepted: Counts
    var declaredTop: nat
    var verifiedTop: nat
    var chain: seq<Batch>
    var searchRows: nat
    var last: Option<Last>
    var latest: Option<Time>

    function Rows(): Release
      reads this
    {
      Release(manifest, complete, categories, collectibles, repacks, chases, shards, facts, factSet, accepted,
              declaredTop, verifiedTop, chain, searchRows, last, latest)
    }

    constructor (m: Manifest)
      ensures Rows() == Started(m)
    {
      manifest, complete := m, false;
      categories, collectibles, repacks, chases, shards, facts := [], [], [], [], [], [];
      factSet, accepted, declaredTop, verifiedTop := None, Counts(0, 0, 0, 0, 0), 0, 0;
      chain, searchRows, last, latest := [], 0, None, None;
    }

    // ----- Checks -----

    /** Comparing neighbours is enough. */
    method KeysAscend(ks: seq<(Key, Key)>) returns (ascend: bool)
      ensures ascend == Ascending(ks)
    {
      for i := 0 to |ks|
        invariant Ascending(ks[..i])
      {
        if i > 0 && !Less(ks[i - 1], ks[i]) {
          return false;
        }
        AscendingJoins(ks[..i], [ks[i]]);
        assert ks[..i] + [ks[i]] == ks[..i + 1];
      }
      assert ks[..|ks|] == ks;
      return true;
    }

    method CategoriesHold(ids: seq<Key>) returns (hold: bool)
      ensures hold == CategoriesKnown(Rows(), ids)
    {
      for i := 0 to |ids|
        invariant forall j :: 0 <= j < i ==> HasCategory(Rows(), ids[j])
      {
        if !HasCategory(Rows(), ids[i]) {
          return false;
        }
      }
      return true;
    }

    method CollectiblesHold(cs: seq<Collectible>) returns (hold: bool)
      ensures hold == BatchReferencesSound(Rows(), Collectibles(cs))
    {
      for i := 0 to |cs|
        invariant forall j :: 0 <= j < i ==> CategoriesKnown(Rows(), cs[j].categories)
      {
        var known := CategoriesHold(cs[i].categories);
        if !known {
          return false;
        }
      }
      return true;
    }

    method RepacksHold(rs: seq<Repack>) returns (hold: bool, declared: nat)
      ensures hold == BatchReferencesSound(Rows(), Repacks(rs))
      ensures hold ==> declared == Declared(rs)
    {
      declared := 0;
      for i := 0 to |rs|
        invariant forall j :: 0 <= j < i ==> RepackSound(Rows(), rs[j])
        invariant declared == Declared(rs[..i])
      {
        var known := CategoriesHold(rs[i].categories);
        if !known || (rs[i].topChase.Some? && !HasCollectible(Rows(), rs[i].topChase.value.collectible)) {
          return false, 0;
        }
        assert rs[..i + 1][..i] == rs[..i];
        if rs[i].topChase.Some? {
          declared := declared + 1;
        }
      }
      assert rs[..|rs|] == rs;
      return true, declared;
    }

    method ChasesHold(cs: seq<Chase>) returns (hold: bool, verified: nat)
      ensures hold == BatchReferencesSound(Rows(), Chases(cs))
      ensures hold ==> verified == Verified(cs)
    {
      verified := 0;
      for i := 0 to |cs|
        invariant forall j :: 0 <= j < i ==> ChaseSound(Rows(), cs[j])
        invariant verified == Verified(cs[..i])
      {
        var repack, collectible := FindRepack(repacks, cs[i].repack), FindCollectible(collectibles, cs[i].collectible);
        if repack.None? || collectible.None? || collectible.value.projection != cs[i].projection {
          return false, 0;
        }
        assert cs[..i + 1][..i] == cs[..i];
        if cs[i].top {
          if repack.value.topChase != Some(cs[i]) {
            return false, 0;
          }
          verified := verified + 1;
        }
      }
      assert cs[..|cs|] == cs;
      return true, verified;
    }

    method ReferencesHold(b: Batch) returns (hold: bool, declared: nat, verified: nat)
      ensures hold == BatchReferencesSound(Rows(), b)
      ensures hold ==> declared == (if b.Repacks? then Declared(b.repacks) else 0)
      ensures hold ==> verified == (if b.Chases? then Verified(b.chases) else 0)
    {
      hold, declared, verified := true, 0, 0;
      match b {
        case Categories(_) =>
        case Collectibles(cs) => hold := CollectiblesHold(cs);
        case Repacks(rs) => hold, declared := RepacksHold(rs);
        case Chases(cs) => hold, verified := ChasesHold(cs);
      }
    }

    /** The latest of the running timestamp and a batch's, one record at a time. */
    method LatestOf(current: Option<Time>, ts: seq<Time>) returns (result: Option<Time>)
      ensures result == Latest(current, ts)
    {
      result := current;
      for i := 0 to |ts|
        invariant result == Latest(current, ts[..i])
      {
        assert ts[..i + 1][..i] == ts[..i];
        if result.None? || ts[i] > result.value {
          result := Some(ts[i]);
        }
      }
      assert ts[..|ts|] == ts;
    }

    // ----- One batch -----

    method InsertRepacks(rs: seq<Repack>)
      requires rs != []
      modifies this`repacks, this`facts, this`factSet, this`shards
      ensures repacks == old(repacks) + rs && facts == old(facts) + FactsOf(rs) && shards == old(shards) + [RowsOf(rs)]
      ensures factSet == Some(FactSet(FromStaging, accepted.repacks + |rs|, Some(rs[|rs| - 1].id), None, None))
    {
      var rows: seq<Row> := [];
      for i := 0 to |rs|
        invariant repacks == old(repacks) + rs[..i] && facts == old(facts) + FactsOf(rs[..i]) && rows == RowsOf(rs[..i])
        invariant shards == old(shards)
      {
        repacks := repacks + [rs[i]];
        facts := facts + [FactsFrom(rs[i])];
        rows := rows + [RowOf(rs[i])];
      }
      assert rs[..|rs|] == rs;
      shards := shards + [rows];
      factSet := Some(FactSet(FromStaging, accepted.repacks + |rs|, Some(rs[|rs| - 1].id), None, None));
    }

    method InsertCategories(cs: seq<Category>)
      modifies this`categories
      ensures categories == old(categories) + cs
    {
      for i := 0 to |cs|
        invariant categories == old(categories) + cs[..i]
      {
        categories := categories + [cs[i]];
      }
      assert cs[..|cs|] == cs;
    }

    method InsertCollectibles(cs: seq<Collectible>)
      modifies this`collectibles
      ensures collectibles == old(collectibles) + cs
    {
      for i := 0 to |cs|
        invariant collectibles == old(collectibles) + cs[..i]
      {
        collectibles := collectibles + [cs[i]];
      }
      assert cs[..|cs|] == cs;
    }

    method InsertChases(cs: seq<Chase>)
      modifies this`chases
      ensures chases == old(chases) + cs
    {
      for i := 0 to |cs|
        invariant chases == old(chases) + cs[..i]
      {
        chases := chases + [cs[i]];
      }
      assert cs[..|cs|] == cs;
    }

    method StageRepacks(rs: seq<Repack>, declared: nat)
      requires rs != [] && declared == Declared(rs)
      modifies this
      ensures Rows() == Inserted(old(Rows()), Repacks(rs))
    {
      InsertRepacks(rs);
      searchRows, declaredTop := searchRows + |rs|, declaredTop + declared;
      accepted := accepted.(repacks := accepted.repacks + |rs|, shards := accepted.shards + 1);
      assert factSet == Some(StagedFactSet(old(Rows()), rs));
    }

    method StageOthers(b: Batch, verified: nat)
      requires Size(b) > 0 && !b.Repacks? && verified == (if b.Chases? then Verified(b.chases) else 0)
      modifies this
      ensures Rows() == Inserted(old(Rows()), b)
    {
      match b {
        case Categories(cs) =>
          InsertCategories(cs);
          accepted := accepted.(categories := accepted.categories + |cs|);
        case Collectibles(cs) =>
          InsertCollectibles(cs);
          accepted := accepted.(collectibles := accepted.collectibles + |cs|);
        case Chases(cs) =>
          InsertChases(cs);
          verifiedTop := verifiedTop + verified;
          accepted := accepted.(chases := accepted.chases + |cs|);
      }
    }

    method InsertRecords(b: Batch, declared: nat, verified: nat)
      requires Size(b) > 0
      requires declared == (if b.Repacks? then Declared(b.repacks) else 0)
      requires verified == (if b.Chases? then Verified(b.chases) else 0)
      modifies this
      ensures Rows() == Inserted(old(Rows()), b)
    {
      if b.Repacks? {
        StageRepacks(b.repacks, declared);
      } else {
        StageOthers(b, verified);
      }
    }

    /** Every check of a batch, in order, and its top-chase tallies. */
    method CheckBatch(index: nat, b: Batch) returns (error: Option<Error>, declared: nat, verified: nat)
      requires Size(b) > 0
      ensures error == BatchGuard(Rows(), index, b)
      ensures error.None? ==> declared == (if b.Repacks? then Declared(b.repacks) else 0)
      ensures error.None? ==> verified == (if b.Chases? then Verified(b.chases) else 0)
    {
      if complete {
        return Some(StateConflict), 0, 0;
      }
      if index != |chain| || index >= |manifest.chain| {
        return Some(OutOfOrder), 0, 0;
      }
      var ascend := KeysAscend(Keys(b));
      if !ascend
         || (last.Some?
             && (Rank(b) < last.value.rank || (Rank(b) == last.value.rank && !Less(last.value.key, Keys(b)[0]))))
      {
        return Some(OutOfOrder), 0, 0;
      }
      if Accepted(Rows(), b) + Size(b) > Expected(Rows(), b) {
        return Some(ReconciliationFailed), 0, 0;
      }
      var hold: bool;
      hold, declared, verified := ReferencesHold(b);
      if !hold {
        return Some(ReferenceInvalid), 0, 0;
      }
      if b.Repacks? && RepackGuard(Rows(), b.repacks).Some? {
        return RepackGuard(Rows(), b.repacks), 0, 0;
      }
      if b.Repacks? && !FactSetOpen(Rows()) {
        return Some(StateConflict), 0, 0;
      }
      error := None;
    }

    method ApplyBatch(index: nat, b: Batch) returns (error: Option<Error>)
      requires Size(b) > 0
      modifies this
      ensures match ReleaseStaging.ApplyBatch(old(Rows()), index, b)
              case Success(s) => error.None? && Rows() == s
              case Refused(e) => error == Some(e) && Rows() == old(Rows())
    {
      var declared: nat, verified: nat;
      error, declared, verified := CheckBatch(index, b);
      if error.Some? {
        return;
      }
      var later := LatestOf(latest, Times(b));
      InsertRecords(b, declared, verified);
      chain, last, latest := chain + [b], Some(Last(Rank(b), Keys(b)[Size(b) - 1])), later;
    }

    // ----- Finalize -----

    method HierarchyHolds() returns (hold: bool)
      ensures hold == HierarchySound(categories)
    {
      for i := 0 to |categories|
        invariant forall j :: 0 <= j < i && categories[j].parent.Some? ==>
                    FindCategory(categories, categories[j].parent.value).Some?
                    && FindCategory(categories, categories[j].parent.value).value.depth == categories[j].depth - 1
      {
        if categories[i].parent.None? {
          continue;
        }
        var parent := FindCategory(categories, categories[i].parent.value);
        if parent.None? || parent.value.depth != categories[i].depth - 1 {
          return false;
        }
      }
      return true;
    }

    method Finalize(expected: Manifest, hashesAgree: bool, now: Time) returns (error: Option<Error>)
      modifies this`complete, this`factSet
      ensures match ReleaseStaging.Finalize(old(Rows()), expected, hashesAgree, now)
              case Success(s) => error.None? && Rows() == s
              case Refused(e) => error == Some(e) && Rows() == old(Rows())
    {
      if complete {
        return Some(StateConflict);
      }
      if !Reconciles(Rows(), expected, hashesAgree) || |categories| > MAX_CATEGORIES {
        return Some(ReconciliationFailed);
      }
      var hold := HierarchyHolds();
      if !hold {
        return Some(ReferenceInvalid);
      }
      if manifest.dataAsOf > now {
        return Some(ReconciliationFailed);
      }
      if !FactSetReady(Rows()) {
        return Some(StateConflict);
      }
      factSet :=
        Some(if factSet.Some? then factSet.value.(sealed := Some(facts))
             else FactSet(FromStaging, 0, None, None, Some([])));
      complete := true;
      return None;
    }

    // ----- Backfill -----

    /** The page loop over the repacks after the cursor, on a working copy of the facts. */
    method ReadPage(at: nat, opening: B.Page) returns (page: Option<B.Page>)
      requires at <= |repacks|
      ensures page == B.ReadPage(Rows(), at, opening, 0)
    {
      var i: nat, bytesRead: nat := at, 0;
      var count, cursor, inserted, pageRows := opening.count, opening.cursor, opening.facts, opening.rows;
      while !B.PageEnds(repacks, i, pageRows, bytesRead)
        invariant i <= |repacks|
        invariant B.ReadPage(Rows(), i, B.Page(count, cursor, inserted, pageRows), bytesRead) ==
                    B.ReadPage(Rows(), at, opening, 0)
        decreases |repacks| - i
      {
        var stored := repacks[i];
        if !B.RowHolds(Rows(), count, cursor, inserted, stored) {
          return None;
        }
        bytesRead := bytesRead + stored.bytes;
        inserted := inserted + [FactsFrom(stored)];
        count, pageRows, cursor := count + 1, pageRows + 1, Some(stored.id);
        i := i + 1;
      }
      return Some(B.Page(count, cursor, inserted, pageRows));
    }

    method BackfillFacts(q: B.Request) returns (reply: Result<B.Reply, Error>)
      modifies this`facts, this`factSet
      ensures match B.Backfill(old(Rows()), q)
              case Success(next) => reply == Success(next.1) && Rows() == next.0
              case Refused(e) => reply == Refused(e) && Rows() == old(Rows())
    {
      if !q.admitted || !complete || manifest.counts.repacks > B.MAX_REPACKS {
        return Refused(StateConflict);
      }
      if factSet.Some? && factSet.value.sealed.Some? {
        var sealedSet := factSet.value;
        if sealedSet.count == manifest.counts.repacks && Readable(facts, sealedSet.count)
           && sealedSet.sealed.value == facts
        {
          return Success(B.ReplyOf(Rows()));
        }
        return Refused(StateConflict);
      }
      if factSet.Some? && factSet.value.source != FromBackfill {
        return Refused(StateConflict);
      }
      if B.Cursor(Rows()) != q.after {
        return if factSet.Some? && factSet.value.lastRequest == q.after then Success(B.ReplyOf(Rows()))
               else Refused(StateConflict);
      }
      var page := ReadPage(B.FirstAfter(repacks, q.after, 0), B.Opening(Rows()));
      if page.None? || page.value.count > manifest.counts.repacks
         || (page.value.rows == 0 && page.value.count != manifest.counts.repacks)
         || (page.value.count == manifest.counts.repacks && !Readable(page.value.facts, page.value.count))
      {
        return Refused(StateConflict);
      }
      facts := page.value.facts;
      factSet := Some(FactSet(FromBackfill, page.value.count, page.value.cursor, q.after, None));
      if page.value.count == manifest.counts.repacks {
        factSet := Some(factSet.value.(sealed := Some(facts)));
      }
      return Success(B.ReplyOf(Rows()));
    }
  }
}
