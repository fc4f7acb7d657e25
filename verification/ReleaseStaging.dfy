/**
 * Staging one data release: ordered batches, closed references, packed search shards and the two
 * top-chase tallies whose equality `finalize` demands (`applyBatch`, `assertStagedReferences`,
 * `insertBatchRecords`, `assertCategoryHierarchy`, `finalize`).
 */
module ReleaseStaging {
  import opened Prelude
  import opened RetainedEvMerge

  const SHARD_ROWS: nat := 32
  const MAX_CATEGORIES: nat := 512

  datatype Category = Category(id: Key, parent: Option<Key>, depth: int)

  /** `projection` is what a chase row repeats of the collectible. */
  datatype Collectible = Collectible(id: Key, categories: seq<Key>, projection: Key, updatedAt: Time)
  datatype Chase = Chase(repack: Key, collectible: Key, projection: Key, top: bool, updatedAt: Time)

  /** `rowProjection` is what the search row repeats of the repack; `eligible` the entity checks of its estimate. */
  datatype Repack = Repack(
    id: Key, categories: seq<Key>, topChase: Option<Chase>, eligible: bool, rowProjection: Key,
    vendorKey: Key, publicVendorId: Key, priceMinor: Option<int>, report: Report, updatedAt: Time, bytes: nat)

  datatype Row = Row(id: Key, projection: Key)

  datatype Batch =
    | Categories(categories: seq<Category>)
    | Collectibles(collectibles: seq<Collectible>)
    | Repacks(repacks: seq<Repack>)
    | Chases(chases: seq<Chase>)

  datatype Counts = Counts(categories: nat, collectibles: nat, repacks: nat, chases: nat, shards: nat)

  /** The manifest; `chain` stands for the batch-chain hash it declares. */
  datatype Manifest = Manifest(counts: Counts, topChases: nat, chain: seq<Batch>, dataAsOf: Time)

  datatype Source = FromStaging | FromBackfill

  /** The fact-set row; `facts` of the release are its rows, `sealed` stands for their digest. */
  datatype FactSet =
    FactSet(source: Source, count: nat, cursor: Option<Key>, lastRequest: Option<Key>, sealed: Option<seq<Facts>>)

  /** Where the last batch ended: its kind's rank and its last record's key. */
  datatype Last = Last(rank: nat, key: (Key, Key))

  datatype Release = Release(
    manifest: Manifest, complete: bool,
    categories: seq<Category>, collectibles: seq<Collectible>, repacks: seq<Repack>, chases: seq<Chase>,
    shards: seq<seq<Row>>, facts: seq<Facts>, factSet: Option<FactSet>,
    accepted: Counts, declaredTop: nat, verifiedTop: nat, chain: seq<Batch>, searchRows: nat,
    last: Option<Last>, latest: Option<Time>)

  datatype Error = StateConflict | OutOfOrder | ReconciliationFailed | ReferenceInvalid | EntityInvalid

  // ----- Keys and order -----

  function Rank(b: Batch): nat {
    match b
    case Categories(_) => 0
    case Collectibles(_) => 1
    case Repacks(_) => 2
    case Chases(_) => 3
  }

  /** `recordKey`, as a pair ordered lexicographically. */
  function Keys(b: Batch): seq<(Key, Key)> {
    match b
    case Categories(cs) => CategoryKeys(cs)
    case Collectibles(cs) => CollectibleKeys(cs)
    case Repacks(rs) => RepackKeys(rs)
    case Chases(cs) => ChaseKeys(cs)
  }

  function CategoryKeys(cs: seq<Category>): seq<(Key, Key)> {
    seq(|cs|, i requires 0 <= i < |cs| => (cs[i].id, 0))
  }

  function CollectibleKeys(cs: seq<Collectible>): seq<(Key, Key)> {
    seq(|cs|, i requires 0 <= i < |cs| => (cs[i].id, 0))
  }

  function RepackKeys(rs: seq<Repack>): seq<(Key, Key)> {
    seq(|rs|, i requires 0 <= i < |rs| => (rs[i].id, 0))
  }

  function ChaseKeys(cs: seq<Chase>): seq<(Key, Key)> {
    seq(|cs|, i requires 0 <= i < |cs| => (cs[i].repack, cs[i].collectible))
  }

  predicate Less(a: (Key, Key), b: (Key, Key)) {
    a.0 < b.0 || (a.0 == b.0 && a.1 < b.1)
  }

  predicate Ascending(ks: seq<(Key, Key)>) {
    forall i, j :: 0 <= i < j < |ks| ==> Less(ks[i], ks[j])
  }

  lemma AscendingJoins(a: seq<(Key, Key)>, b: seq<(Key, Key)>)
    requires Ascending(a) && Ascending(b) && (a != [] && b != [] ==> Less(a[|a| - 1], b[0]))
    ensures Ascending(a + b)
  {
    forall i, j | 0 <= i < j < |a + b| ensures Less((a + b)[i], (a + b)[j]) {
      if i < |a| <= j {
        assert i < |a| - 1 ==> Less(a[i], a[|a| - 1]);
        assert 0 < j - |a| ==> Less(b[0], b[j - |a|]);
      }
    }
  }

  // ----- References -----

  predicate HasCategory(r: Release, id: Key) {
    exists i :: 0 <= i < |r.categories| && r.categories[i].id == id
  }

  predicate HasCollectible(r: Release, id: Key) {
    exists i :: 0 <= i < |r.collectibles| && r.collectibles[i].id == id
  }

  predicate CategoriesKnown(r: Release, ids: seq<Key>) {
    forall i :: 0 <= i < |ids| ==> HasCategory(r, ids[i])
  }

  predicate RepackSound(r: Release, p: Repack) {
    CategoriesKnown(r, p.categories) && (p.topChase.Some? ==> HasCollectible(r, p.topChase.value.collectible))
  }

  function FindCollectible(cs: seq<Collectible>, id: Key): Option<Collectible> {
    if cs == [] then None else if cs[|cs| - 1].id == id then Some(cs[|cs| - 1]) else FindCollectible(cs[..|cs| - 1], id)
  }

  function FindRepack(rs: seq<Repack>, id: Key): Option<Repack> {
    if rs == [] then None else if rs[|rs| - 1].id == id then Some(rs[|rs| - 1]) else FindRepack(rs[..|rs| - 1], id)
  }

  /**
   * A chase row's repack and collectible are staged, it repeats the collectible exactly, and a top chase
   * is its repack's own.
   */
  predicate ChaseSound(r: Release, c: Chase) {
    var repack, collectible := FindRepack(r.repacks, c.repack), FindCollectible(r.collectibles, c.collectible);
    && repack.Some? && collectible.Some? && collectible.value.projection == c.projection
    && (c.top ==> repack.value.topChase == Some(c))
  }

  predicate BatchReferencesSound(r: Release, b: Batch) {
    match b
    case Categories(_) => true
    case Collectibles(cs) => forall i :: 0 <= i < |cs| ==> CategoriesKnown(r, cs[i].categories)
    case Repacks(rs) => forall i :: 0 <= i < |rs| ==> RepackSound(r, rs[i])
    case Chases(cs) => forall i :: 0 <= i < |cs| ==> ChaseSound(r, cs[i])
  }

  function Declared(rs: seq<Repack>): nat {
    if rs == [] then 0 else Declared(rs[..|rs| - 1]) + if rs[|rs| - 1].topChase.Some? then 1 else 0
  }

  function Verified(cs: seq<Chase>): nat {
    if cs == [] then 0 else Verified(cs[..|cs| - 1]) + if cs[|cs| - 1].top then 1 else 0
  }

  // ----- One batch -----

  function Size(b: Batch): nat {
    match b
    case Categories(cs) => |cs|
    case Collectibles(cs) => |cs|
    case Repacks(rs) => |rs|
    case Chases(cs) => |cs|
  }

  function Accepted(r: Release, b: Batch): nat {
    match b
    case Categories(_) => r.accepted.categories
    case Collectibles(_) => r.accepted.collectibles
    case Repacks(_) => r.accepted.repacks
    case Chases(_) => r.accepted.chases
  }

  function Expected(r: Release, b: Batch): nat {
    match b
    case Categories(_) => r.manifest.counts.categories
    case Collectibles(_) => r.manifest.counts.collectibles
    case Repacks(_) => r.manifest.counts.repacks
    case Chases(_) => r.manifest.counts.chases
  }

  /** Kinds in rank order, and keys strictly ascending across the batches of one kind. */
  predicate InOrder(r: Release, b: Batch)
    requires Size(b) > 0
  {
    && Ascending(Keys(b))
    && (r.last.Some? ==>
          && Rank(b) >= r.last.value.rank
          && (Rank(b) == r.last.value.rank ==> Less(r.last.value.key, Keys(b)[0])))
  }

  function Times(b: Batch): seq<Time> {
    match b
    case Categories(_) => []
    case Collectibles(cs) => seq(|cs|, i requires 0 <= i < |cs| => cs[i].updatedAt)
    case Repacks(rs) => seq(|rs|, i requires 0 <= i < |rs| => rs[i].updatedAt)
    case Chases(cs) => seq(|cs|, i requires 0 <= i < |cs| => cs[i].updatedAt)
  }

  /** The later of the running timestamp and a batch's latest one. */
  function Latest(current: Option<Time>, ts: seq<Time>): Option<Time> {
    if ts == [] then current
    else
      var init := Latest(current, ts[..|ts| - 1]);
      if init.None? || ts[|ts| - 1] > init.value then Some(ts[|ts| - 1]) else init
  }

  function RowOf(p: Repack): Row {
    Row(p.id, p.rowProjection)
  }

  function RowsOf(rs: seq<Repack>): seq<Row> {
    seq(|rs|, i requires 0 <= i < |rs| => RowOf(rs[i]))
  }

  /** `evFactsFromDetail`. */
  function FactsFrom(p: Repack): Facts {
    Facts(Scope(p.vendorKey, p.publicVendorId, p.id), p.priceMinor, p.report)
  }

  function FactsOf(rs: seq<Repack>): seq<Facts> {
    seq(|rs|, i requires 0 <= i < |rs| => FactsFrom(rs[i]))
  }

  function Min(a: int, b: int): int {
    if a < b then a else b
  }

  /** A repack batch is as full as it can be, and every record passes its entity checks. */
  function RepackGuard(r: Release, rs: seq<Repack>): Option<Error> {
    if exists i :: 0 <= i < |rs| && !rs[i].eligible then Some(EntityInvalid)
    else if |rs| != Min(r.manifest.counts.repacks - r.accepted.repacks, SHARD_ROWS) then Some(OutOfOrder)
    else None
  }

  /** `stageReleaseEvFacts`: the fact set is still being staged, in step with the accepted repacks. */
  predicate FactSetOpen(r: Release) {
    && (if r.factSet.Some? then r.factSet.value.count else 0) == r.accepted.repacks
    && (r.factSet.Some? ==> r.factSet.value.sealed.None? && r.factSet.value.source.FromStaging?)
  }

  function StagedFactSet(r: Release, rs: seq<Repack>): FactSet
    requires rs != []
  {
    FactSet(FromStaging, r.accepted.repacks + |rs|, Some(rs[|rs| - 1].id), None, None)
  }

  function BatchGuard(r: Release, index: nat, b: Batch): Option<Error>
    requires Size(b) > 0
  {
    if r.complete then Some(StateConflict)
    else if index != |r.chain| || index >= |r.manifest.chain| then Some(OutOfOrder)
    else if !InOrder(r, b) then Some(OutOfOrder)
    else if Accepted(r, b) + Size(b) > Expected(r, b) then Some(ReconciliationFailed)
    else if !BatchReferencesSound(r, b) then Some(ReferenceInvalid)
    else if b.Repacks? && RepackGuard(r, b.repacks).Some? then RepackGuard(r, b.repacks)
    else if b.Repacks? && !FactSetOpen(r) then Some(StateConflict)
    else None
  }

  /** The tables after the batch's records are inserted. */
  function Inserted(r: Release, b: Batch): Release
    requires Size(b) > 0
  {
    match b
    case Categories(cs) =>
      r.(categories := r.categories + cs, accepted := r.accepted.(categories := r.accepted.categories + |cs|))
    case Collectibles(cs) =>
      r.(collectibles := r.collectibles + cs, accepted := r.accepted.(collectibles := r.accepted.collectibles + |cs|))
    case Repacks(rs) =>
      r.(repacks := r.repacks + rs, facts := r.facts + FactsOf(rs), factSet := Some(StagedFactSet(r, rs)),
         shards := r.shards + [RowsOf(rs)], searchRows := r.searchRows + |rs|,
         declaredTop := r.declaredTop + Declared(rs),
         accepted := r.accepted.(repacks := r.accepted.repacks + |rs|, shards := r.accepted.shards + 1))
    case Chases(cs) =>
      r.(chases := r.chases + cs, verifiedTop := r.verifiedTop + Verified(cs),
         accepted := r.accepted.(chases := r.accepted.chases + |cs|))
  }

  function ApplyBatch(r: Release, index: nat, b: Batch): Result<Release, Error>
    requires Size(b) > 0
  {
    if BatchGuard(r, index, b).Some? then Refused(BatchGuard(r, index, b).value)
    else
      Success(Inserted(r, b).(chain := r.chain + [b], last := Some(Last(Rank(b), Keys(b)[Size(b) - 1])),
                              latest := Latest(r.latest, Times(b))))
  }

  function Started(m: Manifest): Release {
    Release(m, false, [], [], [], [], [], [], None, Counts(0, 0, 0, 0, 0), 0, 0, [], 0, None, None)
  }

  // ----- Finalize -----

  function FindCategory(cs: seq<Category>, id: Key): Option<Category> {
    if cs == [] then None else if cs[|cs| - 1].id == id then Some(cs[|cs| - 1]) else FindCategory(cs[..|cs| - 1], id)
  }

  predicate HierarchySound(cs: seq<Category>) {
    forall i :: 0 <= i < |cs| && cs[i].parent.Some? ==>
                  FindCategory(cs, cs[i].parent.value).Some?
                  && FindCategory(cs, cs[i].parent.value).value.depth == cs[i].depth - 1
  }

  /**
   * Accepted totals against the manifest's and the request's; `hashesAgree` is the verdict on the hashes
   * they declare.
   */
  predicate Reconciles(r: Release, expected: Manifest, hashesAgree: bool) {
    && r.accepted == expected.counts == r.manifest.counts
    && r.declaredTop == expected.topChases == r.manifest.topChases
    && r.verifiedTop == r.declaredTop
    && r.chain == expected.chain == r.manifest.chain
    && r.searchRows == r.manifest.counts.repacks
    && hashesAgree
    && (r.accepted.collectibles + r.accepted.repacks + r.accepted.chases > 0 ==> r.latest.Some?)
    && (r.latest.Some? ==> r.latest.value <= r.manifest.dataAsOf)
  }

  /** `readBoundedEvFacts`: exactly `count` rows, in strict id order, each of them valid. */
  predicate Readable(facts: seq<Facts>, count: nat) {
    && |facts| == count
    && (forall i :: 0 < i < |facts| ==> facts[i - 1].scope.publicRepackId < facts[i].scope.publicRepackId)
    && (forall i :: 0 <= i < |facts| ==> ValidFacts(facts[i]))
  }

  /** `completeReleaseEvFacts`. */
  predicate FactSetReady(r: Release) {
    if r.factSet.None? then r.manifest.counts.repacks == 0
    else
      && r.factSet.value.sealed.None? && r.factSet.value.count == r.manifest.counts.repacks
      && Readable(r.facts, r.factSet.value.count)
  }

  function Finalize(r: Release, expected: Manifest, hashesAgree: bool, now: Time): Result<Release, Error> {
    if r.complete then Refused(StateConflict)
    else if !Reconciles(r, expected, hashesAgree) then Refused(ReconciliationFailed)
    else if |r.categories| > MAX_CATEGORIES then Refused(ReconciliationFailed)
    else if !HierarchySound(r.categories) then Refused(ReferenceInvalid)
    else if r.manifest.dataAsOf > now then Refused(ReconciliationFailed)
    else if !FactSetReady(r) then Refused(StateConflict)
    else
      Success(r.(complete := true,
                 factSet := Some(if r.factSet.Some? then r.factSet.value.(sealed := Some(r.facts))
                                 else FactSet(FromStaging, 0, None, None, Some([])))))
  }

  // ----- What staging keeps -----

  /** Every table is strictly ordered, and the last batch's kind ends its own table and precedes the empty ones. */
  ghost predicate TablesOrdered(r: Release) {
    && Ascending(CategoryKeys(r.categories)) && Ascending(CollectibleKeys(r.collectibles))
    && Ascending(RepackKeys(r.repacks)) && Ascending(ChaseKeys(r.chases))
  }

  /** The last key is the last row's of its kind, and no later kind has rows yet. */
  ghost predicate LastAgrees(r: Release) {
    match r.last
    case None => r.categories == [] && r.collectibles == [] && r.repacks == [] && r.chases == []
    case Some(l) =>
      && (l.rank < 1 ==> r.collectibles == []) && (l.rank < 2 ==> r.repacks == []) && (l.rank < 3 ==> r.chases == [])
      && (l.rank == 0 ==> LastIs(CategoryKeys(r.categories), l.key))
      && (l.rank == 1 ==> LastIs(CollectibleKeys(r.collectibles), l.key))
      && (l.rank == 2 ==> LastIs(RepackKeys(r.repacks), l.key)) && (l.rank == 3 ==> LastIs(ChaseKeys(r.chases), l.key))
      && l.rank <= 3
  }

  ghost predicate LastIs(ks: seq<(Key, Key)>, k: (Key, Key)) {
    ks != [] && ks[|ks| - 1] == k
  }

  ghost predicate ReferencesClosed(r: Release) {
    && (forall i :: 0 <= i < |r.collectibles| ==> CategoriesKnown(r, r.collectibles[i].categories))
    && (forall i :: 0 <= i < |r.repacks| ==> RepackSound(r, r.repacks[i]))
    && (forall i :: 0 <= i < |r.chases| ==> ChaseSound(r, r.chases[i]))
  }

  ghost predicate TalliesAgree(r: Release) {
    && r.accepted.categories == |r.categories| && r.accepted.collectibles == |r.collectibles|
    && r.accepted.repacks == |r.repacks| == r.searchRows && r.accepted.chases == |r.chases|
    && r.accepted.shards == |r.shards|
    && r.declaredTop == Declared(r.repacks) && r.verifiedTop == Verified(r.chases)
  }

  /** Row `i` of the repacks is row `i % 32` of shard `i / 32`, and only the last shard may be short. */
  ghost predicate Packed(r: Release) {
    && r.accepted.repacks == |r.repacks| <= r.manifest.counts.repacks
    && |r.repacks| <= SHARD_ROWS * |r.shards|
    && (forall s ::
          0 <= s < |r.shards| ==> |r.shards[s]| == Min(SHARD_ROWS, |r.repacks| - SHARD_ROWS * s) && |r.shards[s]| > 0)
    && (forall s, k ::
          0 <= s < |r.shards| && 0 <= k < |r.shards[s]| ==> r.shards[s][k] == RowOf(r.repacks[SHARD_ROWS * s + k]))
    && (|r.repacks| == SHARD_ROWS * |r.shards| || |r.repacks| == r.manifest.counts.repacks)
  }

  ghost predicate FactsStaged(r: Release) {
    && r.facts == FactsOf(r.repacks)
    && (r.factSet.None? <==> r.repacks == [])
    && (r.factSet.Some? ==>
          && r.factSet.value.source.FromStaging? && r.factSet.value.sealed.None? && r.factSet.value.count == |r.repacks|
          && r.factSet.value.cursor == Some(r.repacks[|r.repacks| - 1].id))
  }

  /** No staged record was updated after `t`. */
  ghost predicate NoneLater(r: Release, t: Time) {
    && (forall i :: 0 <= i < |r.collectibles| ==> r.collectibles[i].updatedAt <= t)
    && (forall i :: 0 <= i < |r.repacks| ==> r.repacks[i].updatedAt <= t)
    && (forall i :: 0 <= i < |r.chases| ==> r.chases[i].updatedAt <= t)
  }

  /** Some staged record was updated at `t`. */
  ghost predicate UpdatedAt(r: Release, t: Time) {
    || (exists i :: 0 <= i < |r.collectibles| && r.collectibles[i].updatedAt == t)
    || (exists i :: 0 <= i < |r.repacks| && r.repacks[i].updatedAt == t)
    || (exists i :: 0 <= i < |r.chases| && r.chases[i].updatedAt == t)
  }

  /** The running timestamp is the latest of the staged records', and absent exactly without such a record. */
  ghost predicate LatestAgrees(r: Release) {
    match r.latest
    case None => r.collectibles == [] && r.repacks == [] && r.chases == []
    case Some(t) => NoneLater(r, t) && UpdatedAt(r, t)
  }

  ghost predicate Staged(r: Release) {
    TablesOrdered(r) && LastAgrees(r) && ReferencesClosed(r) && TalliesAgree(r) && Packed(r) && FactsStaged(r)
    && LatestAgrees(r) && !r.complete
  }
}
