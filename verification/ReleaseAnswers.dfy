/**
 * What a batch and a finalize request answer and what they leave, for every branch, in a release as
 * staging leaves it: which are accepted, why the others are refused, and what is inserted. Everything
 * is stated on the staged tables, without the running totals.
 */
module ReleaseAnswers {
  import opened Prelude
  import opened RetainedEvMerge
  import opened ReleaseStaging
  import P = ReleaseStagingProof

  /** A complete release takes nothing more. */
  lemma CompleteReleaseIsClosed(r: Release, index: nat, b: Batch, expected: Manifest, hashesAgree: bool, now: Time)
    requires r.complete && Size(b) > 0
    ensures ApplyBatch(r, index, b) == Refused(StateConflict)
    ensures Finalize(r, expected, hashesAgree, now) == Refused(StateConflict)
  {
  }

  // ----- Order -----

  /** Ids ascend within the batch and follow the last staged record of the kind; no later kind has begun. */
  predicate Follows(r: Release, b: Batch)
    requires Size(b) > 0
  {
    match b
    case Categories(cs) =>
      && (forall i, j :: 0 <= i < j < |cs| ==> cs[i].id < cs[j].id)
      && (r.categories != [] ==> r.categories[|r.categories| - 1].id < cs[0].id)
      && r.collectibles == [] && r.repacks == [] && r.chases == []
    case Collectibles(cs) =>
      && (forall i, j :: 0 <= i < j < |cs| ==> cs[i].id < cs[j].id)
      && (r.collectibles != [] ==> r.collectibles[|r.collectibles| - 1].id < cs[0].id)
      && r.repacks == [] && r.chases == []
    case Repacks(rs) =>
      && (forall i, j :: 0 <= i < j < |rs| ==> rs[i].id < rs[j].id)
      && (r.repacks != [] ==> r.repacks[|r.repacks| - 1].id < rs[0].id)
      && r.chases == []
    case Chases(cs) =>
      && (forall i, j :: 0 <= i < j < |cs| ==> Before(cs[i], cs[j]))
      && (r.chases != [] ==> Before(r.chases[|r.chases| - 1], cs[0]))
  }

  /** Chase rows are ordered by repack, then by collectible. */
  predicate Before(a: Chase, b: Chase) {
    a.repack < b.repack || (a.repack == b.repack && a.collectible < b.collectible)
  }

  lemma AscendingOnRecords(b: Batch)
    requires Size(b) > 0
    ensures Ascending(Keys(b)) <==>
            match b
            case Categories(cs) => (forall i, j :: 0 <= i < j < |cs| ==> cs[i].id < cs[j].id)
            case Collectibles(cs) => (forall i, j :: 0 <= i < j < |cs| ==> cs[i].id < cs[j].id)
            case Repacks(rs) => (forall i, j :: 0 <= i < j < |rs| ==> rs[i].id < rs[j].id)
            case Chases(cs) => (forall i, j :: 0 <= i < j < |cs| ==> Before(cs[i], cs[j]))
  {
    var ks := Keys(b);
    if Ascending(ks) {
      forall i, j | 0 <= i < j < |ks| ensures Less(ks[i], ks[j]) {
      }
      match b {
        case Categories(cs) =>
          forall i, j | 0 <= i < j < |cs| ensures cs[i].id < cs[j].id { assert Less(ks[i], ks[j]); }
        case Collectibles(cs) =>
          forall i, j | 0 <= i < j < |cs| ensures cs[i].id < cs[j].id { assert Less(ks[i], ks[j]); }
        case Repacks(rs) =>
          forall i, j | 0 <= i < j < |rs| ensures rs[i].id < rs[j].id { assert Less(ks[i], ks[j]); }
        case Chases(cs) =>
          forall i, j | 0 <= i < j < |cs| ensures Before(cs[i], cs[j]) { assert Less(ks[i], ks[j]); }
      }
    }
  }

  lemma FollowingIsInOrder(r: Release, b: Batch)
    requires Size(b) > 0 && LastAgrees(r)
    ensures InOrder(r, b) <==> Follows(r, b)
  {
    AscendingOnRecords(b);
  }

  // ----- References -----

  predicate CategoryStaged(r: Release, id: Key) {
    exists k :: 0 <= k < |r.categories| && r.categories[k].id == id
  }

  predicate CollectibleStaged(r: Release, id: Key) {
    exists k :: 0 <= k < |r.collectibles| && r.collectibles[k].id == id
  }

  /** The chase repeats staged collectible `k`. */
  predicate Repeats(r: Release, c: Chase, k: nat) {
    k < |r.collectibles| && r.collectibles[k].id == c.collectible && r.collectibles[k].projection == c.projection
  }

  /** The chase belongs to staged repack `k`, and is the top chase that repack advertises if it is a top one. */
  predicate BelongsTo(r: Release, c: Chase, k: nat) {
    k < |r.repacks| && r.repacks[k].id == c.repack && (c.top ==> r.repacks[k].topChase == Some(c))
  }

  /** Everything a record names is staged, and a chase repeats what it names. */
  predicate Resolves(r: Release, b: Batch) {
    match b
    case Categories(_) => true
    case Collectibles(cs) =>
      forall i, j :: 0 <= i < |cs| && 0 <= j < |cs[i].categories| ==> CategoryStaged(r, cs[i].categories[j])
    case Repacks(rs) =>
      && (forall i, j :: 0 <= i < |rs| && 0 <= j < |rs[i].categories| ==> CategoryStaged(r, rs[i].categories[j]))
      && (forall i :: 0 <= i < |rs| && rs[i].topChase.Some? ==> CollectibleStaged(r, rs[i].topChase.value.collectible))
    case Chases(cs) =>
      forall i :: 0 <= i < |cs| ==> ChaseResolves(r, cs[i])
  }

  predicate ChaseResolves(r: Release, c: Chase) {
    (exists k: nat :: k < |r.repacks| && BelongsTo(r, c, k))
    && (exists k: nat :: k < |r.collectibles| && Repeats(r, c, k))
  }

  lemma {:induction false} FoundCollectible(cs: seq<Collectible>, k: nat)
    requires Ascending(CollectibleKeys(cs)) && k < |cs|
    ensures FindCollectible(cs, cs[k].id) == Some(cs[k])
  {
    if k < |cs| - 1 {
      assert Less(CollectibleKeys(cs)[k], CollectibleKeys(cs)[|cs| - 1]);
      CollectiblePrefix(cs);
      FoundCollectible(cs[..|cs| - 1], k);
    }
  }

  lemma CollectiblePrefix(cs: seq<Collectible>)
    requires Ascending(CollectibleKeys(cs)) && cs != []
    ensures Ascending(CollectibleKeys(cs[..|cs| - 1]))
  {
    assert CollectibleKeys(cs[..|cs| - 1]) == CollectibleKeys(cs)[..|cs| - 1];
  }

  lemma {:induction false} CollectibleIsThere(cs: seq<Collectible>, id: Key)
    ensures FindCollectible(cs, id).Some? ==>
              exists k :: 0 <= k < |cs| && cs[k] == FindCollectible(cs, id).value && cs[k].id == id
  {
    if cs != [] && cs[|cs| - 1].id != id {
      var init := cs[..|cs| - 1];
      CollectibleIsThere(init, id);
      if FindCollectible(cs, id).Some? {
        var k :| 0 <= k < |init| && init[k] == FindCollectible(cs, id).value && init[k].id == id;
        assert cs[k] == init[k];
      }
    }
  }

  lemma {:induction false} FoundRepack(rs: seq<Repack>, k: nat)
    requires Ascending(RepackKeys(rs)) && k < |rs|
    ensures FindRepack(rs, rs[k].id) == Some(rs[k])
  {
    if k < |rs| - 1 {
      assert Less(RepackKeys(rs)[k], RepackKeys(rs)[|rs| - 1]);
      assert RepackKeys(rs[..|rs| - 1]) == RepackKeys(rs)[..|rs| - 1];
      FoundRepack(rs[..|rs| - 1], k);
    }
  }

  lemma ChaseOnRows(r: Release, c: Chase)
    requires TablesOrdered(r)
    ensures ChaseSound(r, c) <==> ChaseResolves(r, c)
  {
    if ChaseSound(r, c) {
      P.FindRepackFinds(r.repacks, c.repack);
      CollectibleIsThere(r.collectibles, c.collectible);
      var i :| 0 <= i < |r.repacks| && r.repacks[i] == FindRepack(r.repacks, c.repack).value
               && r.repacks[i].id == c.repack;
      var j :| 0 <= j < |r.collectibles| && r.collectibles[j] == FindCollectible(r.collectibles, c.collectible).value
               && r.collectibles[j].id == c.collectible;
      assert BelongsTo(r, c, i) && Repeats(r, c, j);
    }
    if ChaseResolves(r, c) {
      var i: nat :| i < |r.repacks| && BelongsTo(r, c, i);
      var j: nat :| j < |r.collectibles| && Repeats(r, c, j);
      FoundRepack(r.repacks, i);
      FoundCollectible(r.collectibles, j);
    }
  }

  lemma CategoriesOnRows(r: Release, ids: seq<Key>)
    ensures CategoriesKnown(r, ids) <==> forall j :: 0 <= j < |ids| ==> CategoryStaged(r, ids[j])
  {
    forall id ensures HasCategory(r, id) <==> CategoryStaged(r, id) {
    }
  }

  lemma ReferencesOnRows(r: Release, b: Batch)
    requires TablesOrdered(r)
    ensures BatchReferencesSound(r, b) <==> Resolves(r, b)
  {
    match b {
      case Categories(_) =>
      case Collectibles(cs) =>
        forall i | 0 <= i < |cs| ensures CategoriesKnown(r, cs[i].categories) <==>
                                         forall j :: 0 <= j < |cs[i].categories| ==>
                                                       CategoryStaged(r, cs[i].categories[j])
        {
          CategoriesOnRows(r, cs[i].categories);
        }
      case Repacks(rs) => RepacksOnRows(r, rs);
      case Chases(cs) =>
        forall i | 0 <= i < |cs| ensures ChaseSound(r, cs[i]) <==> ChaseResolves(r, cs[i]) {
          ChaseOnRows(r, cs[i]);
        }
    }
  }

  lemma RepackOnRows(r: Release, p: Repack)
    ensures RepackSound(r, p) <==>
            && (forall j :: 0 <= j < |p.categories| ==> CategoryStaged(r, p.categories[j]))
            && (p.topChase.Some? ==> CollectibleStaged(r, p.topChase.value.collectible))
  {
    CategoriesOnRows(r, p.categories);
  }

  lemma RepacksOnRows(r: Release, rs: seq<Repack>)
    ensures BatchReferencesSound(r, Repacks(rs)) <==> Resolves(r, Repacks(rs))
  {
    forall i | 0 <= i < |rs|
      ensures RepackSound(r, rs[i]) <==>
              && (forall j :: 0 <= j < |rs[i].categories| ==> CategoryStaged(r, rs[i].categories[j]))
              && (rs[i].topChase.Some? ==> CollectibleStaged(r, rs[i].topChase.value.collectible))
    {
      RepackOnRows(r, rs[i]);
    }
  }

  // ----- One batch -----

  /** The declared and the staged number of records of the batch's kind. */
  function Announced(r: Release, b: Batch): nat {
    match b
    case Categories(_) => r.manifest.counts.categories
    case Collectibles(_) => r.manifest.counts.collectibles
    case Repacks(_) => r.manifest.counts.repacks
    case Chases(_) => r.manifest.counts.chases
  }

  function Present(r: Release, b: Batch): nat {
    match b
    case Categories(_) => |r.categories|
    case Collectibles(_) => |r.collectibles|
    case Repacks(_) => |r.repacks|
    case Chases(_) => |r.chases|
  }

  function Records(b: Batch): nat {
    match b
    case Categories(cs) => |cs|
    case Collectibles(cs) => |cs|
    case Repacks(rs) => |rs|
    case Chases(cs) => |cs|
  }

  /** The batch is the next one that the manifest announces. */
  predicate IsNext(r: Release, index: nat) {
    index == |r.chain| && index < |r.manifest.chain|
  }

  predicate Fits(r: Release, b: Batch) {
    Present(r, b) + Records(b) <= Announced(r, b)
  }

  predicate Eligible(b: Batch) {
    b.Repacks? ==> forall i :: 0 <= i < |b.repacks| ==> b.repacks[i].eligible
  }

  /** A repack batch is full, or holds all the repacks that are left. */
  predicate Full(r: Release, b: Batch) {
    b.Repacks? ==> |b.repacks| == 32 || (|b.repacks| < 32 && |r.repacks| + |b.repacks| == r.manifest.counts.repacks)
  }

  /** In a release as staging leaves it, the fact set is always open to the next repacks. */
  lemma FactSetStaysOpen(r: Release)
    requires FactsStaged(r) && TalliesAgree(r)
    ensures FactSetOpen(r)
  {
  }

  lemma FitsOnRows(r: Release, b: Batch)
    requires TalliesAgree(r)
    ensures Fits(r, b) <==> Accepted(r, b) + Size(b) <= Expected(r, b)
    ensures Records(b) == Size(b)
  {
  }

  lemma RepackGuardOnRows(r: Release, rs: seq<Repack>)
    requires TalliesAgree(r) && Fits(r, Repacks(rs))
    ensures RepackGuard(r, rs) ==
            if !Eligible(Repacks(rs)) then Some(EntityInvalid)
            else if !Full(r, Repacks(rs)) then Some(OutOfOrder)
            else None
  {
  }

  /** The first fault of a batch, given what each check finds. */
  function FirstFault(due: bool, fits: bool, resolves: bool, eligible: bool, full: bool): Option<Error> {
    if !due then Some(OutOfOrder)
    else if !fits then Some(ReconciliationFailed)
    else if !resolves then Some(ReferenceInvalid)
    else if !eligible then Some(EntityInvalid)
    else if !full then Some(OutOfOrder)
    else None
  }

  lemma GuardIsFirstFault(r: Release, index: nat, b: Batch, due: bool, fits: bool, resolves: bool, eligible: bool,
                          full: bool)
    requires Size(b) > 0 && !r.complete && (due <==> IsNext(r, index) && InOrder(r, b))
    requires (fits <==> Accepted(r, b) + Size(b) <= Expected(r, b)) && (resolves <==> BatchReferencesSound(r, b))
    requires b.Repacks? ==> FactSetOpen(r)
    requires b.Repacks? && fits ==>
               RepackGuard(r, b.repacks) ==
               if !eligible then Some(EntityInvalid) else if !full then Some(OutOfOrder) else None
    requires !b.Repacks? ==> eligible && full
    ensures BatchGuard(r, index, b) == FirstFault(due, fits, resolves, eligible, full)
  {
  }

  /**
   * A batch is accepted exactly if it is due and in order, within its count, closed, eligible and full;
   * otherwise the first of these that fails says why.
   */
  lemma BatchAnswers(r: Release, index: nat, b: Batch)
    requires Staged(r) && Size(b) > 0
    ensures var fault := FirstFault(IsNext(r, index) && Follows(r, b), Fits(r, b), Resolves(r, b), Eligible(b),
                                    Full(r, b));
            && (ApplyBatch(r, index, b).Success? <==> fault.None?)
            && (fault.Some? ==> ApplyBatch(r, index, b) == Refused(fault.value))
  {
    FollowingIsInOrder(r, b);
    ReferencesOnRows(r, b);
    FitsOnRows(r, b);
    FactSetStaysOpen(r);
    if b.Repacks? && Fits(r, b) {
      RepackGuardOnRows(r, b.repacks);
    }
    GuardIsFirstFault(r, index, b, IsNext(r, index) && Follows(r, b), Fits(r, b), Resolves(r, b), Eligible(b),
                      Full(r, b));
  }

  /** The batch is appended to its own table, and to the chain; the other tables and the manifest stay. */
  lemma BatchIsInserted(r: Release, index: nat, b: Batch)
    requires Size(b) > 0 && ApplyBatch(r, index, b).Success?
    ensures var s := ApplyBatch(r, index, b).value;
            && s.manifest == r.manifest && s.complete == r.complete && s.chain == r.chain + [b]
            && s.categories == r.categories + (if b.Categories? then b.categories else [])
            && s.collectibles == r.collectibles + (if b.Collectibles? then b.collectibles else [])
            && s.repacks == r.repacks + (if b.Repacks? then b.repacks else [])
            && s.chases == r.chases + (if b.Chases? then b.chases else [])
            && (!b.Repacks? ==> s.shards == r.shards && s.facts == r.facts && s.factSet == r.factSet)
  {
  }

  /** Search row and fact row of a repack. */
  predicate Projects(p: Repack, row: Row, f: Facts) {
    && row.id == p.id && row.projection == p.rowProjection
    && f.scope.vendorKey == p.vendorKey && f.scope.publicVendorId == p.publicVendorId
    && f.scope.publicRepackId == p.id && f.priceMinor == p.priceMinor && f.report == p.report
  }

  /** A repack batch becomes one shard and one fact row for each repack, in order. */
  lemma RepacksAreProjected(r: Release, rs: seq<Repack>, k: nat)
    requires k < |rs|
    ensures var s := Inserted(r, Repacks(rs));
            && |s.shards| == |r.shards| + 1 && s.shards[..|r.shards|] == r.shards && |s.shards[|r.shards|]| == |rs|
            && |s.facts| == |r.facts| + |rs| && s.facts[..|r.facts|] == r.facts
            && Projects(rs[k], s.shards[|r.shards|][k], s.facts[|r.facts| + k])
  {
  }

  lemma InsertedTables(r: Release, index: nat, b: Batch)
    requires Size(b) > 0 && ApplyBatch(r, index, b).Success?
    ensures var s, t := ApplyBatch(r, index, b).value, Inserted(r, b);
            s.shards == t.shards && s.facts == t.facts && s.factSet == t.factSet
  {
  }

  /** An accepted repack batch also moves the fact set's count and cursor on to its last repack. */
  lemma RepackBatchLeaves(r: Release, index: nat, b: Batch, k: nat)
    requires TalliesAgree(r) && b.Repacks? && k < |b.repacks| && ApplyBatch(r, index, b).Success?
    ensures var s, rs := ApplyBatch(r, index, b).value, b.repacks;
            && |s.shards| == |r.shards| + 1 && s.shards[..|r.shards|] == r.shards && |s.shards[|r.shards|]| == |rs|
            && |s.facts| == |r.facts| + |rs| && s.facts[..|r.facts|] == r.facts
            && Projects(rs[k], s.shards[|r.shards|][k], s.facts[|r.facts| + k])
            && s.factSet == Some(FactSet(FromStaging, |r.repacks| + |rs|, Some(rs[|rs| - 1].id), None, None))
  {
    InsertedTables(r, index, b);
    RepacksAreProjected(r, b.repacks, k);
  }

  /** In a run a request that is due, in order and sound is taken; any other leaves the release as it is. */
  lemma RunTakesTheDue(m: Manifest, requests: seq<(nat, Batch)>, n: nat)
    requires n < |requests| && forall i :: 0 <= i < |requests| ==> Size(requests[i].1) > 0
    ensures var r, s, index, b := P.Run(m, requests, n), P.Run(m, requests, n + 1), requests[n].0, requests[n].1;
            var due := IsNext(r, index) && Follows(r, b) && Fits(r, b) && Resolves(r, b) && Eligible(b) && Full(r, b);
            if due then
              && s.chain == r.chain + [b] && s.manifest == m
              && s.categories == r.categories + (if b.Categories? then b.categories else [])
              && s.collectibles == r.collectibles + (if b.Collectibles? then b.collectibles else [])
              && s.repacks == r.repacks + (if b.Repacks? then b.repacks else [])
              && s.chases == r.chases + (if b.Chases? then b.chases else [])
            else s == r
  {
    var r := P.Run(m, requests, n);
    P.RunIsStaged(m, requests, n);
    RunKeepsManifest(m, requests, n);
    BatchAnswers(r, requests[n].0, requests[n].1);
    if ApplyBatch(r, requests[n].0, requests[n].1).Success? {
      BatchIsInserted(r, requests[n].0, requests[n].1);
    }
  }

  lemma {:induction false} RunKeepsManifest(m: Manifest, requests: seq<(nat, Batch)>, n: nat)
    requires n <= |requests| && forall i :: 0 <= i < |requests| ==> Size(requests[i].1) > 0
    ensures P.Run(m, requests, n).manifest == m
  {
    if n > 0 {
      RunKeepsManifest(m, requests, n - 1);
    }
  }

  // ----- Finalize -----

  /** The staged tables, the manifest and the request agree in all sizes. */
  predicate SizesAgree(r: Release, expected: Manifest) {
    && r.manifest.counts == Counts(|r.categories|, |r.collectibles|, |r.repacks|, |r.chases|, |r.shards|)
    && expected.counts == r.manifest.counts
  }

  /** Each repack that advertises a top chase has its row, and they are as many as both sides declare. */
  ghost predicate TopChasesAgree(r: Release, expected: Manifest) {
    && P.VerifiedIds(r.chases) == P.DeclaredIds(r.repacks)
    && |P.DeclaredIds(r.repacks)| == r.manifest.topChases == expected.topChases
  }

  /** Exactly the announced batches were staged, and no record is later than the release. */
  ghost predicate ContentsAgree(r: Release, expected: Manifest, hashesAgree: bool) {
    r.chain == r.manifest.chain == expected.chain && hashesAgree && NoneLater(r, r.manifest.dataAsOf)
  }

  /** Every parent is a staged category one level up. */
  predicate Rooted(cs: seq<Category>) {
    forall i :: 0 <= i < |cs| && cs[i].parent.Some? ==>
                  exists k :: 0 <= k < |cs| && IsParent(cs[k], cs[i])
  }

  predicate IsParent(p: Category, c: Category) {
    c.parent == Some(p.id) && p.depth + 1 == c.depth
  }

  /** Every available estimate carries a positive price. */
  predicate Priced(rs: seq<Repack>) {
    forall i :: 0 <= i < |rs| && rs[i].report.Available? ==> rs[i].priceMinor.Some? && rs[i].priceMinor.value > 0
  }

  lemma {:induction false} FoundCategory(cs: seq<Category>, k: nat)
    requires Ascending(CategoryKeys(cs)) && k < |cs|
    ensures FindCategory(cs, cs[k].id) == Some(cs[k])
  {
    if k < |cs| - 1 {
      assert Less(CategoryKeys(cs)[k], CategoryKeys(cs)[|cs| - 1]);
      assert CategoryKeys(cs[..|cs| - 1]) == CategoryKeys(cs)[..|cs| - 1];
      FoundCategory(cs[..|cs| - 1], k);
    }
  }

  lemma {:induction false} CategoryIsThere(cs: seq<Category>, id: Key)
    ensures FindCategory(cs, id).Some? ==>
              exists k :: 0 <= k < |cs| && cs[k] == FindCategory(cs, id).value && cs[k].id == id
  {
    if cs != [] && cs[|cs| - 1].id != id {
      var init := cs[..|cs| - 1];
      CategoryIsThere(init, id);
      if FindCategory(cs, id).Some? {
        var k :| 0 <= k < |init| && init[k] == FindCategory(cs, id).value && init[k].id == id;
        assert cs[k] == init[k];
      }
    }
  }

  lemma HierarchyOnRows(cs: seq<Category>)
    requires Ascending(CategoryKeys(cs))
    ensures HierarchySound(cs) <==> Rooted(cs)
  {
    if HierarchySound(cs) {
      forall i | 0 <= i < |cs| && cs[i].parent.Some? ensures exists k :: 0 <= k < |cs| && IsParent(cs[k], cs[i]) {
        CategoryIsThere(cs, cs[i].parent.value);
        var k :| 0 <= k < |cs| && cs[k] == FindCategory(cs, cs[i].parent.value).value
                 && cs[k].id == cs[i].parent.value;
        assert IsParent(cs[k], cs[i]);
      }
    }
    if Rooted(cs) {
      forall i | 0 <= i < |cs| && cs[i].parent.Some?
        ensures FindCategory(cs, cs[i].parent.value).Some?
                && FindCategory(cs, cs[i].parent.value).value.depth == cs[i].depth - 1
      {
        var k :| 0 <= k < |cs| && IsParent(cs[k], cs[i]);
        FoundCategory(cs, k);
      }
    }
  }

  lemma TimesOnRows(r: Release)
    requires LatestAgrees(r)
    ensures (r.latest.Some? ==> r.latest.value <= r.manifest.dataAsOf) <==> NoneLater(r, r.manifest.dataAsOf)
    ensures r.latest.None? <==> |r.collectibles| + |r.repacks| + |r.chases| == 0
  {
  }

  lemma TotalsOnRows(r: Release, expected: Manifest, hashesAgree: bool)
    requires Staged(r)
    ensures Reconciles(r, expected, hashesAgree) <==>
            SizesAgree(r, expected) && TopChasesAgree(r, expected) && ContentsAgree(r, expected, hashesAgree)
  {
    TimesOnRows(r);
    P.TalliesAreSetSizes(r);
  }

  lemma FactsOnRows(r: Release)
    requires Staged(r) && r.manifest.counts.repacks == |r.repacks|
    ensures FactSetReady(r) <==> Priced(r.repacks)
  {
    if r.factSet.Some? {
      forall i | 0 < i < |r.facts| ensures r.facts[i - 1].scope.publicRepackId < r.facts[i].scope.publicRepackId {
        assert Less(RepackKeys(r.repacks)[i - 1], RepackKeys(r.repacks)[i]);
      }
      forall i | 0 <= i < |r.facts|
        ensures ValidFacts(r.facts[i]) <==>
                (r.repacks[i].report.Available? ==>
                   r.repacks[i].priceMinor.Some? && r.repacks[i].priceMinor.value > 0)
      {
        assert r.facts[i] == FactsFrom(r.repacks[i]);
      }
    }
  }

  /**
   * A release is finalized exactly if sizes, top chases, contents and hierarchy agree, it is not dated
   * ahead, and its facts are priced.
   */
  lemma FinalizeAnswers(r: Release, expected: Manifest, hashesAgree: bool, now: Time)
    requires Staged(r)
    ensures var f := Finalize(r, expected, hashesAgree, now);
            var agrees := SizesAgree(r, expected) && TopChasesAgree(r, expected)
                          && ContentsAgree(r, expected, hashesAgree) && |r.categories| <= 512;
            && (f.Success? <==> agrees && Rooted(r.categories) && r.manifest.dataAsOf <= now && Priced(r.repacks))
            && (f.Success? || f == Refused(
                                     if !agrees then ReconciliationFailed
                                     else if !Rooted(r.categories) then ReferenceInvalid
                                     else if r.manifest.dataAsOf > now then ReconciliationFailed
                                     else StateConflict))
  {
    TotalsOnRows(r, expected, hashesAgree);
    HierarchyOnRows(r.categories);
    if SizesAgree(r, expected) {
      FactsOnRows(r);
    }
  }

  /** Finalizing seals the facts and completes the release; no staged row changes. */
  lemma FinalizeSeals(r: Release, expected: Manifest, hashesAgree: bool, now: Time)
    requires Staged(r) && Finalize(r, expected, hashesAgree, now).Success?
    ensures var f := Finalize(r, expected, hashesAgree, now).value;
            && f == r.(complete := true, factSet := f.factSet)
            && f.factSet.Some? && f.factSet.value.count == |f.repacks|
            && match r.factSet
               case Some(x) => f.factSet.value == x.(sealed := Some(r.facts))
               case None => f.factSet.value == FactSet(FromStaging, 0, None, None, Some([]))
  {
    FinalizeAnswers(r, expected, hashesAgree, now);
  }

  // ----- Any release, damaged or not -----

  /** The fact set counts the accepted repacks and is still being staged. */
  predicate FactsOpen(r: Release) {
    match r.factSet
    case None => r.accepted.repacks == 0
    case Some(x) => x.count == r.accepted.repacks && x.sealed.None? && x.source == FromStaging
  }

  lemma OpenOnRows(r: Release)
    ensures FactSetOpen(r) <==> FactsOpen(r)
  {
  }

  /** A repack batch is also refused when the fact set is not in step with what was accepted. */
  lemma FactSetIsChecked(r: Release, index: nat, b: Batch)
    requires Size(b) > 0 && !r.complete && IsNext(r, index) && InOrder(r, b) && BatchReferencesSound(r, b)
    requires Accepted(r, b) + Size(b) <= Expected(r, b) && Eligible(b)
    requires b.Repacks? ==> |b.repacks| == Min(32, r.manifest.counts.repacks - r.accepted.repacks)
    ensures ApplyBatch(r, index, b).Success? <==> (b.Repacks? ==> FactsOpen(r))
    ensures ApplyBatch(r, index, b).Refused? ==> ApplyBatch(r, index, b).error == StateConflict
  {
    OpenOnRows(r);
  }

  /** The recorded totals, batches and times agree with manifest and request. */
  predicate TotalsAgree(r: Release, expected: Manifest, hashesAgree: bool) {
    && r.accepted == r.manifest.counts && r.accepted == expected.counts && r.searchRows == r.accepted.repacks
    && r.declaredTop == r.manifest.topChases && r.declaredTop == expected.topChases && r.verifiedTop == r.declaredTop
    && r.chain == r.manifest.chain && r.chain == expected.chain && hashesAgree
    && match r.latest
       case None => r.accepted.collectibles == 0 && r.accepted.repacks == 0 && r.accepted.chases == 0
       case Some(t) => t <= r.manifest.dataAsOf
  }

  /** The facts are the declared number, in id order and valid, under a set that is still open. */
  predicate FactsComplete(r: Release) {
    match r.factSet
    case None => r.manifest.counts.repacks == 0
    case Some(x) =>
      && x.sealed.None? && x.count == r.manifest.counts.repacks && |r.facts| == x.count
      && (forall i :: 0 < i < |r.facts| ==>
                        r.facts[i - 1].scope.publicRepackId < r.facts[i].scope.publicRepackId)
      && (forall i :: 0 <= i < |r.facts| && r.facts[i].report.Available? ==>
                        r.facts[i].priceMinor.Some? && r.facts[i].priceMinor.value > 0)
  }

  lemma FactsAreChecked(r: Release)
    ensures FactSetReady(r) <==> FactsComplete(r)
  {
    if r.factSet.Some? && FactSetReady(r) {
      forall i | 0 <= i < |r.facts| && r.facts[i].report.Available?
        ensures r.facts[i].priceMinor.Some? && r.facts[i].priceMinor.value > 0
      {
        assert ValidFacts(r.facts[i]);
      }
    }
  }

  /** In any release, finalize is refused for the first of these faults, and accepted only without one. */
  lemma FinalizeIsChecked(r: Release, expected: Manifest, hashesAgree: bool, now: Time)
    ensures var f := Finalize(r, expected, hashesAgree, now);
            var fault := if r.complete then Some(StateConflict)
                         else if !TotalsAgree(r, expected, hashesAgree) || |r.categories| > 512 then
                           Some(ReconciliationFailed)
                         else if !HierarchySound(r.categories) then Some(ReferenceInvalid)
                         else if now < r.manifest.dataAsOf then Some(ReconciliationFailed)
                         else if !FactsComplete(r) then Some(StateConflict)
                         else None;
            (fault.None? <==> f.Success?) && (fault.Some? ==> f == Refused(fault.value))
  {
    FactsAreChecked(r);
  }
}
