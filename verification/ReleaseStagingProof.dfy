/**
 * What staging keeps batch by batch, and what a finalized release therefore satisfies as a whole.
 */
module ReleaseStagingProof {
  import opened Prelude
  import opened RetainedEvMerge
  import opened ReleaseStaging

  // ----- Order -----

  lemma KeysJoin(r: Release, b: Batch)
    requires Size(b) > 0
    ensures b.Categories? ==> CategoryKeys(Inserted(r, b).categories) == CategoryKeys(r.categories) + Keys(b)
    ensures b.Collectibles? ==>
              CollectibleKeys(Inserted(r, b).collectibles) == CollectibleKeys(r.collectibles) + Keys(b)
    ensures b.Repacks? ==> RepackKeys(Inserted(r, b).repacks) == RepackKeys(r.repacks) + Keys(b)
    ensures b.Chases? ==> ChaseKeys(Inserted(r, b).chases) == ChaseKeys(r.chases) + Keys(b)
  {
  }

  /** The keys of the batch's own table, before it. */
  function TableKeys(r: Release, b: Batch): seq<(Key, Key)> {
    match b
    case Categories(_) => CategoryKeys(r.categories)
    case Collectibles(_) => CollectibleKeys(r.collectibles)
    case Repacks(_) => RepackKeys(r.repacks)
    case Chases(_) => ChaseKeys(r.chases)
  }

  lemma BatchFollowsItsTable(r: Release, b: Batch)
    requires Size(b) > 0 && TablesOrdered(r) && LastAgrees(r) && InOrder(r, b)
    ensures Ascending(TableKeys(r, b) + Keys(b))
  {
    AscendingJoins(TableKeys(r, b), Keys(b));
  }

  lemma BatchKeepsOrder(r: Release, b: Batch)
    requires Size(b) > 0 && TablesOrdered(r) && LastAgrees(r) && InOrder(r, b)
    ensures TablesOrdered(Inserted(r, b))
  {
    BatchFollowsItsTable(r, b);
    KeysJoin(r, b);
  }

  lemma BatchMovesLast(r: Release, b: Batch)
    requires Size(b) > 0 && LastAgrees(r) && InOrder(r, b)
    ensures LastAgrees(Inserted(r, b).(last := Some(Last(Rank(b), Keys(b)[Size(b) - 1]))))
  {
    KeysJoin(r, b);
  }

  // ----- References -----

  lemma BatchKeepsReferences(r: Release, b: Batch)
    requires Size(b) > 0 && LastAgrees(r) && InOrder(r, b) && ReferencesClosed(r) && BatchReferencesSound(r, b)
    ensures ReferencesClosed(Inserted(r, b))
  {
    match b {
      case Categories(_) =>
      case Collectibles(_) => CollectiblesStayClosed(r, b);
      case Repacks(_) => RepacksStayClosed(r, b);
      case Chases(_) => ChasesStayClosed(r, b);
    }
  }

  lemma CollectiblesStayClosed(r: Release, b: Batch)
    requires b.Collectibles? && Size(b) > 0 && r.repacks == [] && r.chases == []
    requires ReferencesClosed(r) && BatchReferencesSound(r, b)
    ensures ReferencesClosed(Inserted(r, b))
  {
    var r' := Inserted(r, b);
    forall i | 0 <= i < |r'.collectibles| ensures CategoriesKnown(r', r'.collectibles[i].categories) {
      assert CategoriesKnown(r, r'.collectibles[i].categories) by {
        if i >= |r.collectibles| {
          assert r'.collectibles[i] == b.collectibles[i - |r.collectibles|];
        }
      }
      SameCategories(r, r', r'.collectibles[i].categories);
    }
  }

  lemma SameCategories(r: Release, s: Release, ids: seq<Key>)
    requires r.categories == s.categories && CategoriesKnown(r, ids)
    ensures CategoriesKnown(s, ids)
  {
    forall i | 0 <= i < |ids| ensures HasCategory(s, ids[i]) {
      assert HasCategory(r, ids[i]);
    }
  }

  lemma RepackStaysSound(r: Release, s: Release, p: Repack)
    requires r.categories == s.categories && r.collectibles == s.collectibles && RepackSound(r, p)
    ensures RepackSound(s, p)
  {
    SameCategories(r, s, p.categories);
    if p.topChase.Some? {
      assert HasCollectible(r, p.topChase.value.collectible);
    }
  }

  lemma RepacksStayClosed(r: Release, b: Batch)
    requires b.Repacks? && Size(b) > 0 && r.chases == []
    requires ReferencesClosed(r) && BatchReferencesSound(r, b)
    ensures ReferencesClosed(Inserted(r, b))
  {
    var r' := Inserted(r, b);
    forall i | 0 <= i < |r'.collectibles| ensures CategoriesKnown(r', r'.collectibles[i].categories) {
      SameCategories(r, r', r.collectibles[i].categories);
    }
    forall i | 0 <= i < |r'.repacks| ensures RepackSound(r', r'.repacks[i]) {
      assert RepackSound(r, r'.repacks[i]) by {
        if i >= |r.repacks| {
          assert r'.repacks[i] == b.repacks[i - |r.repacks|];
        }
      }
      RepackStaysSound(r, r', r'.repacks[i]);
    }
  }

  lemma ChasesStayClosed(r: Release, b: Batch)
    requires b.Chases? && Size(b) > 0
    requires ReferencesClosed(r) && BatchReferencesSound(r, b)
    ensures ReferencesClosed(Inserted(r, b))
  {
    var r' := Inserted(r, b);
    forall i | 0 <= i < |r'.collectibles| ensures CategoriesKnown(r', r'.collectibles[i].categories) {
      SameCategories(r, r', r.collectibles[i].categories);
    }
    forall i | 0 <= i < |r'.repacks| ensures RepackSound(r', r'.repacks[i]) {
      RepackStaysSound(r, r', r.repacks[i]);
    }
    forall i | 0 <= i < |r'.chases| ensures ChaseSound(r', r'.chases[i]) {
      assert ChaseSound(r, r'.chases[i]) by {
        if i >= |r.chases| {
          assert r'.chases[i] == b.chases[i - |r.chases|];
        }
      }
    }
  }

  // ----- Tallies -----

  lemma {:induction false} DeclaredJoins(a: seq<Repack>, b: seq<Repack>)
    ensures Declared(a + b) == Declared(a) + Declared(b)
  {
    if b == [] {
      assert a + b == a;
    } else {
      assert (a + b)[..|a + b| - 1] == a + b[..|b| - 1];
      DeclaredJoins(a, b[..|b| - 1]);
    }
  }

  lemma {:induction false} VerifiedJoins(a: seq<Chase>, b: seq<Chase>)
    ensures Verified(a + b) == Verified(a) + Verified(b)
  {
    if b == [] {
      assert a + b == a;
    } else {
      assert (a + b)[..|a + b| - 1] == a + b[..|b| - 1];
      VerifiedJoins(a, b[..|b| - 1]);
    }
  }

  lemma BatchKeepsTallies(r: Release, b: Batch)
    requires Size(b) > 0 && TalliesAgree(r)
    ensures TalliesAgree(Inserted(r, b))
  {
    match b {
      case Categories(_) =>
      case Collectibles(_) =>
      case Repacks(rs) => DeclaredJoins(r.repacks, rs);
      case Chases(cs) => VerifiedJoins(r.chases, cs);
    }
  }

  // ----- Shards and facts -----

  lemma FullShardsBeforeMore(r: Release, rs: seq<Repack>)
    requires Packed(r) && rs != [] && RepackGuard(r, rs).None?
    ensures |r.repacks| == SHARD_ROWS * |r.shards|
  {
  }

  lemma RepacksStayPacked(r: Release, rs: seq<Repack>)
    requires Packed(r) && rs != [] && RepackGuard(r, rs).None?
    ensures Packed(Inserted(r, Repacks(rs)))
  {
    FullShardsBeforeMore(r, rs);
    var r' := Inserted(r, Repacks(rs));
    var n := |r.shards|;
    forall s | 0 <= s < |r'.shards|
      ensures |r'.shards[s]| == Min(SHARD_ROWS, |r'.repacks| - SHARD_ROWS * s) && |r'.shards[s]| > 0
    {
      if s < n {
        assert r'.shards[s] == r.shards[s] && |r.repacks| - SHARD_ROWS * s >= SHARD_ROWS;
      }
    }
    forall s, k | 0 <= s < |r'.shards| && 0 <= k < |r'.shards[s]|
      ensures r'.shards[s][k] == RowOf(r'.repacks[SHARD_ROWS * s + k])
    {
      if s < n {
        assert r'.shards[s][k] == r.shards[s][k];
      } else {
        assert r'.shards[s][k] == RowOf(rs[k]) && r'.repacks[SHARD_ROWS * s + k] == rs[k];
      }
    }
  }

  lemma BatchKeepsPacking(r: Release, b: Batch)
    requires Size(b) > 0 && Packed(r) && (b.Repacks? ==> RepackGuard(r, b.repacks).None?)
    ensures Packed(Inserted(r, b))
  {
    if b.Repacks? {
      RepacksStayPacked(r, b.repacks);
    }
  }

  lemma FactsJoin(a: seq<Repack>, b: seq<Repack>)
    ensures FactsOf(a + b) == FactsOf(a) + FactsOf(b)
  {
  }

  lemma BatchKeepsFacts(r: Release, b: Batch)
    requires Size(b) > 0 && FactsStaged(r) && TalliesAgree(r)
    ensures FactsStaged(Inserted(r, b))
  {
    if b.Repacks? {
      FactsJoin(r.repacks, b.repacks);
    }
  }

  // ----- The latest timestamp -----

  lemma {:induction false} LatestIsTheMaximum(current: Option<Time>, ts: seq<Time>)
    ensures var r := Latest(current, ts);
            && (r.None? <==> current.None? && ts == [])
            && (r.Some? ==>
                  && (r == current || r.value in ts) && (current.Some? ==> current.value <= r.value)
                  && forall t :: t in ts ==> t <= r.value)
  {
    if ts != [] {
      LatestIsTheMaximum(current, ts[..|ts| - 1]);
      assert ts == ts[..|ts| - 1] + [ts[|ts| - 1]];
    }
  }

  lemma TimesAreStaged(r: Release, b: Batch, t: Time)
    requires Size(b) > 0 && t in Times(b)
    ensures UpdatedAt(Inserted(r, b), t)
  {
    var k :| 0 <= k < |Times(b)| && Times(b)[k] == t;
    match b {
      case Categories(_) =>
      case Collectibles(cs) =>
        assert Inserted(r, b).collectibles[|r.collectibles| + k] == cs[k];
      case Repacks(rs) =>
        assert Inserted(r, b).repacks[|r.repacks| + k] == rs[k];
      case Chases(cs) =>
        assert Inserted(r, b).chases[|r.chases| + k] == cs[k];
    }
  }

  lemma StaysUpdatedAt(r: Release, b: Batch, t: Time)
    requires Size(b) > 0 && UpdatedAt(r, t)
    ensures UpdatedAt(Inserted(r, b), t)
  {
    var s := Inserted(r, b);
    if i :| 0 <= i < |r.collectibles| && r.collectibles[i].updatedAt == t {
      assert s.collectibles[i] == r.collectibles[i];
    } else if i :| 0 <= i < |r.repacks| && r.repacks[i].updatedAt == t {
      assert s.repacks[i] == r.repacks[i];
    } else {
      var i :| 0 <= i < |r.chases| && r.chases[i].updatedAt == t;
      assert s.chases[i] == r.chases[i];
    }
  }

  /** `t` bounds what was staged and every timestamp of the batch. */
  lemma NoneLaterGrows(r: Release, b: Batch, t: Time)
    requires Size(b) > 0 && NoneLater(r, t) && forall x :: x in Times(b) ==> x <= t
    ensures NoneLater(Inserted(r, b), t)
  {
    var s := Inserted(r, b);
    forall i | 0 <= i < |s.collectibles| ensures s.collectibles[i].updatedAt <= t {
      assert i < |r.collectibles| || Times(b)[i - |r.collectibles|] == s.collectibles[i].updatedAt;
      assert i < |r.collectibles| || s.collectibles[i].updatedAt in Times(b);
    }
    forall i | 0 <= i < |s.repacks| ensures s.repacks[i].updatedAt <= t {
      assert i < |r.repacks| || Times(b)[i - |r.repacks|] == s.repacks[i].updatedAt;
      assert i < |r.repacks| || s.repacks[i].updatedAt in Times(b);
    }
    forall i | 0 <= i < |s.chases| ensures s.chases[i].updatedAt <= t {
      assert i < |r.chases| || Times(b)[i - |r.chases|] == s.chases[i].updatedAt;
      assert i < |r.chases| || s.chases[i].updatedAt in Times(b);
    }
  }

  lemma BatchKeepsLatest(r: Release, b: Batch)
    requires Size(b) > 0 && LatestAgrees(r)
    ensures LatestAgrees(Inserted(r, b).(latest := Latest(r.latest, Times(b))))
  {
    var latest := Latest(r.latest, Times(b));
    LatestIsTheMaximum(r.latest, Times(b));
    if latest.Some? {
      var t := latest.value;
      NoneLaterGrows(r, b, t);
      if latest == r.latest {
        StaysUpdatedAt(r, b, t);
      } else {
        TimesAreStaged(r, b, t);
      }
    }
  }

  // ----- Every batch -----

  lemma BookkeepingIsSeparate(r: Release, chain: seq<Batch>, last: Option<Last>, latest: Option<Time>)
    ensures var s := r.(chain := chain, last := last, latest := latest);
            && (TablesOrdered(r) ==> TablesOrdered(s)) && (TalliesAgree(r) ==> TalliesAgree(s))
            && (Packed(r) ==> Packed(s)) && (FactsStaged(r) ==> FactsStaged(s))
            && (LatestAgrees(r.(latest := latest)) ==> LatestAgrees(s))
            && (LastAgrees(r.(last := last)) ==> LastAgrees(s))
  {
  }

  lemma BookkeepingKeepsReferences(r: Release, chain: seq<Batch>, last: Option<Last>, latest: Option<Time>)
    requires ReferencesClosed(r)
    ensures ReferencesClosed(r.(chain := chain, last := last, latest := latest))
  {
    var s := r.(chain := chain, last := last, latest := latest);
    forall i | 0 <= i < |s.collectibles| ensures CategoriesKnown(s, s.collectibles[i].categories) {
      SameCategories(r, s, r.collectibles[i].categories);
    }
    forall i | 0 <= i < |s.repacks| ensures RepackSound(s, s.repacks[i]) {
      RepackStaysSound(r, s, r.repacks[i]);
    }
    forall i | 0 <= i < |s.chases| ensures ChaseSound(s, s.chases[i]) {
      assert ChaseSound(r, r.chases[i]);
    }
  }

  lemma ApplyBatchKeepsStaged(r: Release, index: nat, b: Batch)
    requires Size(b) > 0 && Staged(r) && ApplyBatch(r, index, b).Success?
    ensures Staged(ApplyBatch(r, index, b).value)
  {
    var last := Some(Last(Rank(b), Keys(b)[Size(b) - 1]));
    var s := Inserted(r, b);
    BatchKeepsOrder(r, b);
    BatchMovesLast(r, b);
    BatchKeepsReferences(r, b);
    BatchKeepsTallies(r, b);
    BatchKeepsPacking(r, b);
    BatchKeepsFacts(r, b);
    BatchKeepsLatest(r, b);
    BookkeepingIsSeparate(s, r.chain + [b], last, Latest(r.latest, Times(b)));
    BookkeepingKeepsReferences(s, r.chain + [b], last, Latest(r.latest, Times(b)));
  }

  lemma StartedIsStaged(m: Manifest)
    ensures Staged(Started(m))
  {
  }

  /** The state after the first `n` requests, each of which may be refused. */
  function Run(m: Manifest, requests: seq<(nat, Batch)>, n: nat): Release
    requires n <= |requests| && forall i :: 0 <= i < |requests| ==> Size(requests[i].1) > 0
  {
    if n == 0 then Started(m)
    else
      var r := Run(m, requests, n - 1);
      var next := ApplyBatch(r, requests[n - 1].0, requests[n - 1].1);
      if next.Success? then next.value else r
  }

  lemma {:induction false} RunIsStaged(m: Manifest, requests: seq<(nat, Batch)>, n: nat)
    requires n <= |requests| && forall i :: 0 <= i < |requests| ==> Size(requests[i].1) > 0
    ensures Staged(Run(m, requests, n))
  {
    if n == 0 {
      StartedIsStaged(m);
    } else {
      RunIsStaged(m, requests, n - 1);
      var r := Run(m, requests, n - 1);
      if ApplyBatch(r, requests[n - 1].0, requests[n - 1].1).Success? {
        ApplyBatchKeepsStaged(r, requests[n - 1].0, requests[n - 1].1);
      }
    }
  }

  // ----- Top chases -----

  /** The repacks that declare a top chase, and those whose top-chase row is staged. */
  ghost function DeclaredIds(rs: seq<Repack>): set<Key> {
    set i | 0 <= i < |rs| && rs[i].topChase.Some? :: rs[i].id
  }

  ghost function VerifiedIds(cs: seq<Chase>): set<Key> {
    set i | 0 <= i < |cs| && cs[i].top :: cs[i].repack
  }

  lemma {:induction false} FindRepackFinds(rs: seq<Repack>, id: Key)
    ensures FindRepack(rs, id).Some? ==>
              exists i :: 0 <= i < |rs| && rs[i] == FindRepack(rs, id).value && rs[i].id == id
  {
    if rs != [] && rs[|rs| - 1].id != id {
      FindRepackFinds(rs[..|rs| - 1], id);
      if FindRepack(rs, id).Some? {
        var init := rs[..|rs| - 1];
        var i :| 0 <= i < |init| && init[i] == FindRepack(rs, id).value && init[i].id == id;
        assert rs[i] == init[i];
      }
    }
  }

  lemma RepackIdsDiffer(rs: seq<Repack>, i: nat, j: nat)
    requires Ascending(RepackKeys(rs)) && i < j < |rs|
    ensures rs[i].id != rs[j].id
  {
    assert Less(RepackKeys(rs)[i], RepackKeys(rs)[j]);
  }

  lemma DeclaredIdsGrow(rs: seq<Repack>, p: Repack)
    ensures DeclaredIds(rs + [p]) == DeclaredIds(rs) + if p.topChase.Some? then {p.id} else {}
    ensures Declared(rs + [p]) == Declared(rs) + if p.topChase.Some? then 1 else 0
  {
    var grown := rs + [p];
    assert grown[..|rs|] == rs;
    forall id | id in DeclaredIds(rs) ensures id in DeclaredIds(grown) {
      var i :| 0 <= i < |rs| && rs[i].topChase.Some? && rs[i].id == id;
      assert grown[i] == rs[i];
    }
    assert p.topChase.Some? ==> grown[|rs|].id in DeclaredIds(grown);
  }

  lemma NextDeclaredIsNew(rs: seq<Repack>, n: nat)
    requires Ascending(RepackKeys(rs)) && n < |rs|
    ensures rs[n].id !in DeclaredIds(rs[..n])
  {
    if rs[n].id in DeclaredIds(rs[..n]) {
      var i :| 0 <= i < n && rs[..n][i].topChase.Some? && rs[..n][i].id == rs[n].id;
      RepackIdsDiffer(rs, i, n);
    }
  }

  lemma {:induction false} DeclaredCount(rs: seq<Repack>, n: nat)
    requires Ascending(RepackKeys(rs)) && n <= |rs|
    ensures |DeclaredIds(rs[..n])| == Declared(rs[..n])
  {
    if n > 0 {
      DeclaredCount(rs, n - 1);
      assert rs[..n] == rs[..n - 1] + [rs[n - 1]];
      DeclaredIdsGrow(rs[..n - 1], rs[n - 1]);
      NextDeclaredIsNew(rs, n - 1);
    }
  }

  /** Two staged top-chase rows of one repack would be one row. */
  lemma TopChaseRepacksDiffer(r: Release, i: nat, j: nat)
    requires TablesOrdered(r) && ReferencesClosed(r) && i < j < |r.chases| && r.chases[i].top && r.chases[j].top
    ensures r.chases[i].repack != r.chases[j].repack
  {
    assert ChaseSound(r, r.chases[i]) && ChaseSound(r, r.chases[j]);
    assert Less(ChaseKeys(r.chases)[i], ChaseKeys(r.chases)[j]);
  }

  lemma VerifiedIdsGrow(cs: seq<Chase>, c: Chase)
    ensures VerifiedIds(cs + [c]) == VerifiedIds(cs) + if c.top then {c.repack} else {}
  {
    var grown := cs + [c];
    forall id | id in VerifiedIds(cs) ensures id in VerifiedIds(grown) {
      var i :| 0 <= i < |cs| && cs[i].top && cs[i].repack == id;
      assert grown[i] == cs[i];
    }
    assert c.top ==> grown[|cs|].repack in VerifiedIds(grown);
  }

  lemma NextTopChaseIsNew(r: Release, n: nat)
    requires TablesOrdered(r) && ReferencesClosed(r) && n < |r.chases| && r.chases[n].top
    ensures r.chases[n].repack !in VerifiedIds(r.chases[..n])
  {
    if r.chases[n].repack in VerifiedIds(r.chases[..n]) {
      var i :| 0 <= i < n && r.chases[..n][i].top && r.chases[..n][i].repack == r.chases[n].repack;
      TopChaseRepacksDiffer(r, i, n);
    }
  }

  lemma VerifiedGrows(cs: seq<Chase>, c: Chase)
    requires c.top ==> c.repack !in VerifiedIds(cs)
    ensures |VerifiedIds(cs + [c])| == |VerifiedIds(cs)| + if c.top then 1 else 0
    ensures Verified(cs + [c]) == Verified(cs) + if c.top then 1 else 0
  {
    VerifiedIdsGrow(cs, c);
    VerifiedJoins(cs, [c]);
    OneVerified(c);
  }

  lemma {:induction false} VerifiedCount(r: Release, n: nat)
    requires TablesOrdered(r) && ReferencesClosed(r) && n <= |r.chases|
    ensures |VerifiedIds(r.chases[..n])| == Verified(r.chases[..n])
  {
    if n > 0 {
      VerifiedCount(r, n - 1);
      if r.chases[n - 1].top {
        NextTopChaseIsNew(r, n - 1);
      }
      VerifiedGrows(r.chases[..n - 1], r.chases[n - 1]);
      assert r.chases[..n] == r.chases[..n - 1] + [r.chases[n - 1]];
    }
  }

  lemma OneVerified(c: Chase)
    ensures Verified([c]) == if c.top then 1 else 0
  {
    assert [c][..0] == [];
  }

  lemma VerifiedAreDeclared(r: Release)
    requires ReferencesClosed(r)
    ensures VerifiedIds(r.chases) <= DeclaredIds(r.repacks)
  {
    forall id | id in VerifiedIds(r.chases) ensures id in DeclaredIds(r.repacks) {
      var i :| 0 <= i < |r.chases| && r.chases[i].top && r.chases[i].repack == id;
      assert ChaseSound(r, r.chases[i]);
      FindRepackFinds(r.repacks, id);
    }
  }

  lemma SubsetOfEqualSize(a: set<Key>, b: set<Key>)
    requires a <= b
    ensures |a| <= |b| && (|a| == |b| ==> a == b)
  {
    assert b == a + (b - a);
  }

  /** In every staging state the verified top chases never exceed the declared ones. */
  lemma VerifiedNeverExceedsDeclared(m: Manifest, requests: seq<(nat, Batch)>, n: nat)
    requires n <= |requests| && forall i :: 0 <= i < |requests| ==> Size(requests[i].1) > 0
    ensures Run(m, requests, n).verifiedTop <= Run(m, requests, n).declaredTop
  {
    RunIsStaged(m, requests, n);
    TalliesAreSetSizes(Run(m, requests, n));
  }

  lemma TalliesAreSetSizes(r: Release)
    requires Staged(r)
    ensures r.verifiedTop == |VerifiedIds(r.chases)| <= |DeclaredIds(r.repacks)| == r.declaredTop
    ensures r.verifiedTop == r.declaredTop ==> VerifiedIds(r.chases) == DeclaredIds(r.repacks)
  {
    DeclaredCount(r.repacks, |r.repacks|);
    assert r.repacks[..|r.repacks|] == r.repacks;
    VerifiedCount(r, |r.chases|);
    assert r.chases[..|r.chases|] == r.chases;
    VerifiedAreDeclared(r);
    SubsetOfEqualSize(VerifiedIds(r.chases), DeclaredIds(r.repacks));
  }

  // ----- Finalized releases -----

  /** Chase row `i` is the top-chase row of repack `k`. */
  predicate IsTopRowOf(r: Release, i: nat, k: nat) {
    i < |r.chases| && k < |r.repacks| && r.chases[i].top && r.repacks[k].topChase == Some(r.chases[i])
  }

  /** Equal tallies leave exactly one matching row for every repack that advertises a top chase. */
  lemma EveryDeclaredTopChaseIsStaged(r: Release, k: nat)
    requires Staged(r) && r.verifiedTop == r.declaredTop && k < |r.repacks| && r.repacks[k].topChase.Some?
    ensures exists i :: IsTopRowOf(r, i, k)
    ensures forall i, j :: IsTopRowOf(r, i, k) && IsTopRowOf(r, j, k) ==> i == j
  {
    TalliesAreSetSizes(r);
    assert r.repacks[k].id in DeclaredIds(r.repacks);
    var i :| 0 <= i < |r.chases| && r.chases[i].top && r.chases[i].repack == r.repacks[k].id;
    assert ChaseSound(r, r.chases[i]);
    FindRepackFinds(r.repacks, r.chases[i].repack);
    var x :| 0 <= x < |r.repacks| && r.repacks[x] == FindRepack(r.repacks, r.chases[i].repack).value
             && r.repacks[x].id == r.chases[i].repack;
    if x < k {
      RepackIdsDiffer(r.repacks, x, k);
    } else if k < x {
      RepackIdsDiffer(r.repacks, k, x);
    }
    assert IsTopRowOf(r, i, k);
    forall a, b | IsTopRowOf(r, a, k) && IsTopRowOf(r, b, k) ensures a == b {
      if a < b {
        TopChaseRepacksDiffer(r, a, b);
      } else if b < a {
        TopChaseRepacksDiffer(r, b, a);
      }
    }
  }

  /**
   * A finalized release is whole: every table has its declared size in strict order, every reference
   * is closed, the category tree is sound, every advertised top chase has exactly one chase row that
   * matches it and every top-chase row an advertising repack, the shards pack the repacks in order,
   * the sealed facts are those of the repacks, and no record is later than the release's watermark.
   */
  lemma FinalizedReleaseIsWhole(r: Release, expected: Manifest, hashesAgree: bool, now: Time)
    requires Staged(r) && Finalize(r, expected, hashesAgree, now).Success?
    ensures var f := Finalize(r, expected, hashesAgree, now).value;
            && f.complete
            && f.manifest.counts == Counts(|f.categories|, |f.collectibles|, |f.repacks|, |f.chases|, |f.shards|)
            && TablesOrdered(f) && HierarchySound(f.categories) && Packed(f)
            && f.factSet.Some? && f.factSet.value.sealed == Some(f.facts) && f.facts == FactsOf(f.repacks)
    ensures forall k :: 0 <= k < |r.repacks| && r.repacks[k].topChase.Some? ==> exists i :: IsTopRowOf(r, i, k)
    ensures forall i, j, k :: IsTopRowOf(r, i, k) && IsTopRowOf(r, j, k) ==> i == j
    ensures ReferencesClosed(r)
    ensures NoneLater(Finalize(r, expected, hashesAgree, now).value, r.manifest.dataAsOf) && r.manifest.dataAsOf <= now
  {
    forall k | 0 <= k < |r.repacks| && r.repacks[k].topChase.Some? ensures exists i :: IsTopRowOf(r, i, k) {
      EveryDeclaredTopChaseIsStaged(r, k);
    }
    forall i, j, k | IsTopRowOf(r, i, k) && IsTopRowOf(r, j, k) ensures i == j {
      EveryDeclaredTopChaseIsStaged(r, k);
    }
  }

  /** The i-th repack is row `i % 32` of shard `i / 32`. */
  lemma RowOfTheIthRepack(r: Release, i: nat)
    requires Packed(r) && i < |r.repacks|
    ensures i / SHARD_ROWS < |r.shards| && i % SHARD_ROWS < |r.shards[i / SHARD_ROWS]|
    ensures r.shards[i / SHARD_ROWS][i % SHARD_ROWS] == RowOf(r.repacks[i])
    ensures |r.shards[i / SHARD_ROWS]| == Min(SHARD_ROWS, |r.repacks| - SHARD_ROWS * (i / SHARD_ROWS))
  {
    var s, k := i / SHARD_ROWS, i % SHARD_ROWS;
    assert i == SHARD_ROWS * s + k;
  }
}
