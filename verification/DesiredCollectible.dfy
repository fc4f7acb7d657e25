/**
 * Packs that contain a desired collectible: the skip-scan over the membership index, and the
 * in-memory page over its candidates, which agrees with an index scan of unlimited budget.
 */
module DesiredCollectible {
  import opened Prelude
  import opened KeysetOrder
  import opened Lists
  import opened KeysetScan
  import H = PackHeads
  import T = KeysetTraversal

  const MEMBERSHIP_SCAN_LIMIT: nat := 2_000

  /** The empty string, which precedes every pack id. */
  const BEFORE_EVERY_PACK: Key := 0

  /** One membership row of the desired collectible. */
  datatype Membership = Membership(pack: Key, snapshot: Key)

  datatype Error = CatalogUnavailable

  predicate InIndexOrder(ms: seq<Membership>) {
    forall i, j :: 0 <= i < j < |ms| ==>
                     ms[i].pack < ms[j].pack || (ms[i].pack == ms[j].pack && ms[i].snapshot < ms[j].snapshot)
  }

  /** The pack's active snapshot still contains the collectible. */
  predicate ActiveSnapshotContains(ms: seq<Membership>, h: Head) {
    Membership(h.id, h.snapshot) in ms
  }

  /** The first row whose pack is past `last`. */
  function NextRow(ms: seq<Membership>, last: Key): (r: Option<Membership>)
    requires InIndexOrder(ms)
    ensures r.None? ==> forall m :: m in ms ==> m.pack <= last
    ensures r.Some? ==>
              && r.value in ms && r.value.pack > last
              && forall m :: m in ms && m.pack > last ==> m.pack >= r.value.pack
  {
    if ms == [] then None
    else
      assert ms == [ms[0]] + ms[1..];
      if ms[0].pack > last then
        assert forall m :: m in ms[1..] ==> m.pack >= ms[0].pack;
        Some(ms[0])
      else NextRow(ms[1..], last)
  }

  ghost function PacksUpTo(ms: seq<Membership>, last: Key): set<Key> {
    set m | m in ms && m.pack <= last :: m.pack
  }

  ghost function Packs(ms: seq<Membership>): set<Key> {
    set m | m in ms :: m.pack
  }

  lemma NextPackIsNext(ms: seq<Membership>, last: Key, m: Membership, k: Key)
    requires InIndexOrder(ms) && NextRow(ms, last) == Some(m)
    ensures k in PacksUpTo(ms, m.pack) <==> k in PacksUpTo(ms, last) || k == m.pack
  {
    assert m in ms;
    if k in PacksUpTo(ms, m.pack) {
      var x :| x in ms && x.pack == k;
      assert x.pack > last ==> x.pack >= m.pack;
    }
  }

  lemma SkipCountsOnePack(ms: seq<Membership>, last: Key, m: Membership)
    requires InIndexOrder(ms) && NextRow(ms, last) == Some(m)
    ensures |PacksUpTo(ms, m.pack)| == |PacksUpTo(ms, last)| + 1 <= |Packs(ms)|
  {
    forall k ensures k in PacksUpTo(ms, m.pack) <==> k in PacksUpTo(ms, last) || k == m.pack {
      NextPackIsNext(ms, last, m, k);
    }
    assert PacksUpTo(ms, m.pack) == PacksUpTo(ms, last) + {m.pack};
    assert m.pack !in PacksUpTo(ms, last);
    SubsetIsNoLarger(PacksUpTo(ms, m.pack), Packs(ms));
  }

  /** What the scan has kept once every pack up to `last` is visited. */
  ghost predicate KeptUpTo(candidates: seq<Head>, ms: seq<Membership>, heads: map<Key, Head>, last: Key) {
    && (forall h: Head ::
          h in candidates <==> h.id <= last && h.id in heads && heads[h.id] == h && ActiveSnapshotContains(ms, h))
    && (forall i, j :: 0 <= i < j < |candidates| ==> candidates[i].id < candidates[j].id)
  }

  lemma KeepNext(candidates: seq<Head>, ms: seq<Membership>, heads: map<Key, Head>, last: Key, m: Membership)
    requires InIndexOrder(ms) && NextRow(ms, last) == Some(m) && KeptUpTo(candidates, ms, heads, last)
    requires forall id :: id in heads ==> heads[id].id == id
    ensures m.pack in heads && ActiveSnapshotContains(ms, heads[m.pack]) ==>
              KeptUpTo(candidates + [heads[m.pack]], ms, heads, m.pack)
    ensures !(m.pack in heads && ActiveSnapshotContains(ms, heads[m.pack])) ==> KeptUpTo(candidates, ms, heads, m.pack)
  {
    forall h: Head | h.id in heads && heads[h.id] == h && ActiveSnapshotContains(ms, h)
      ensures h.id <= m.pack <==> h.id <= last || h.id == m.pack
    {
      assert Membership(h.id, h.snapshot) in ms;
    }
    forall i | 0 <= i < |candidates| ensures candidates[i].id <= last {
      assert candidates[i] in candidates;
    }
  }

  /**
   * The skip-scan collects exactly the packs whose active snapshot contains the collectible, once
   * each in id order, and fails closed exactly when more than the limit contain it in any snapshot.
   */
  method CollectCandidates(ms: seq<Membership>, heads: map<Key, Head>) returns (r: Result<seq<Head>, Error>)
    requires InIndexOrder(ms) && forall m :: m in ms ==> m.pack > BEFORE_EVERY_PACK
    requires forall id :: id in heads ==> heads[id].id == id
    ensures r.Refused? <==> |Packs(ms)| > MEMBERSHIP_SCAN_LIMIT
    ensures r.Success? ==>
              && (forall h: Head ::
                    h in r.value <==> h.id in heads && heads[h.id] == h && ActiveSnapshotContains(ms, h))
              && (forall i, j :: 0 <= i < j < |r.value| ==> r.value[i].id < r.value[j].id)
  {
    var candidates: seq<Head>, last: Key, distinct: nat := [], BEFORE_EVERY_PACK, 0;
    var next := NextRow(ms, last);
    assert PacksUpTo(ms, last) == {};
    while next.Some?
      invariant next == NextRow(ms, last) && last >= BEFORE_EVERY_PACK
      invariant distinct == |PacksUpTo(ms, last)| <= MEMBERSHIP_SCAN_LIMIT
      invariant KeptUpTo(candidates, ms, heads, last)
      decreases |Packs(ms)| - distinct
    {
      var m := next.value;
      SkipCountsOnePack(ms, last, m);
      KeepNext(candidates, ms, heads, last, m);
      distinct := distinct + 1;
      if distinct > MEMBERSHIP_SCAN_LIMIT {
        return Refused(CatalogUnavailable);
      }
      last := m.pack;
      if last in heads && ActiveSnapshotContains(ms, heads[last]) {
        candidates := candidates + [heads[last]];
      }
      next := NextRow(ms, last);
    }
    assert PacksUpTo(ms, last) == Packs(ms);
    return Success(candidates);
  }

  // ----- Over the stores that runs reach -----

  /** The collectible's rows of the membership index. */
  ghost predicate ListsMemberships(ms: seq<Membership>, w: H.World, collectible: Key) {
    forall m: Membership :: m in ms <==> H.Membership(collectible, m.pack, m.snapshot) in w.memberships
  }

  /** The head rows, each showing its pack's active snapshot. */
  ghost predicate ShowsHeads(heads: map<Key, Head>, w: H.World) {
    heads.Keys == w.heads.Keys
    && forall id :: id in heads ==> heads[id].id == id && heads[id].snapshot == w.heads[id].active
  }

  /** The contents of the pack's active snapshot have the collectible. */
  ghost predicate ShowsCollectible(w: H.World, pack: Key, collectible: Key) {
    pack in w.heads && w.heads[pack].active in w.roots && H.Holds(w.roots[w.heads[pack].active], collectible)
  }

  /**
   * In a reachable store a membership row of the active snapshot says exactly that its contents have the
   * collectible.
   */
  lemma MembershipIsContents(ops: seq<H.Op>, ms: seq<Membership>, heads: map<Key, Head>, collectible: Key, pack: Key)
    requires var w := H.Run(H.EMPTY, ops); ListsMemberships(ms, w, collectible) && ShowsHeads(heads, w) && pack in heads
    ensures ActiveSnapshotContains(ms, heads[pack]) <==> ShowsCollectible(H.Run(H.EMPTY, ops), pack, collectible)
  {
    H.ActiveSnapshotIsWhole(ops, pack);
  }

  /**
   * After every run the lookup collects exactly the packs whose active snapshot has the collectible
   * among its contents, once each in id order; it fails closed exactly when more packs than the limit
   * have it in any stored snapshot.
   */
  method FindDesired(ghost ops: seq<H.Op>, ms: seq<Membership>, heads: map<Key, Head>, ghost collectible: Key)
    returns (r: Result<seq<Head>, Error>)
    requires InIndexOrder(ms) && forall m :: m in ms ==> m.pack > BEFORE_EVERY_PACK
    requires ListsMemberships(ms, H.Run(H.EMPTY, ops), collectible) && ShowsHeads(heads, H.Run(H.EMPTY, ops))
    ensures r.Refused? <==> |Packs(ms)| > MEMBERSHIP_SCAN_LIMIT
    ensures r.Success? ==>
              forall h: Head :: h in r.value <==>
                                h.id in heads && heads[h.id] == h
                                && ShowsCollectible(H.Run(H.EMPTY, ops), h.id, collectible)
    ensures r.Success? ==> forall i, j :: 0 <= i < j < |r.value| ==> r.value[i].id < r.value[j].id
  {
    r := CollectCandidates(ms, heads);
    forall h: Head | h.id in heads && heads[h.id] == h
      ensures ActiveSnapshotContains(ms, h) <==> ShowsCollectible(H.Run(H.EMPTY, ops), h.id, collectible)
    {
      MembershipIsContents(ops, ms, heads, collectible, h.id);
    }
  }

  // ----- The in-memory page -----

  datatype CandidatePage = CandidatePage(items: seq<Head>, nextCursor: Option<Position>)

  /** Drops what the cursor has passed, by comparing each head with a probe placed at the cursor. */
  function AfterProbe(sorted: seq<Head>, position: Option<Position>, sort: Sort, direction: Direction): seq<Head> {
    if position.None? then sorted
    else Filter(sorted, (h: Head) => Compare(PositionOf(h, sort), position.value, direction) > 0)
  }

  /** Filter, sort, drop what the cursor has passed, and slice. */
  function PageOf(candidates: seq<Head>, sort: Sort, direction: Direction, position: Option<Position>, pageSize: nat,
                  matches: Head -> bool): CandidatePage
  {
    var remaining := AfterProbe(SortHeads(Filter(candidates, matches), sort, direction), position, sort, direction);
    var items := if |remaining| <= pageSize then remaining else remaining[..pageSize];
    CandidatePage(items,
                  if |remaining| > pageSize && items != [] then Some(PositionOf(items[|items| - 1], sort)) else None)
  }

  /** The candidates the cursor has not passed, sorted. */
  function Unpassed(candidates: seq<Head>, sort: Sort, direction: Direction, position: Option<Position>,
                    matches: Head -> bool)
    : seq<Head>
  {
    Filter(SortHeads(Filter(candidates, matches), sort, direction), (h: Head) => Beyond(h, position, sort, direction))
  }

  lemma {:induction false} FilterAgrees(s: seq<Head>, p: Head -> bool, q: Head -> bool)
    requires forall h :: p(h) <==> q(h)
    ensures Filter(s, p) == Filter(s, q)
  {
    if s != [] {
      FilterAgrees(s[..|s| - 1], p, q);
    }
  }

  lemma AfterProbeIsBeyond(sorted: seq<Head>, position: Option<Position>, sort: Sort, direction: Direction)
    ensures AfterProbe(sorted, position, sort, direction) ==
              Filter(sorted, (h: Head) => Beyond(h, position, sort, direction))
  {
    var rest := (h: Head) => Beyond(h, position, sort, direction);
    match position {
      case None => FilterAll(sorted, rest);
      case Some(p) => FilterAgrees(sorted, (h: Head) => Compare(PositionOf(h, sort), p, direction) > 0, rest);
    }
  }

  lemma PageSlicesUnpassed(candidates: seq<Head>, sort: Sort, direction: Direction, position: Option<Position>,
                           pageSize: nat, matches: Head -> bool)
    requires pageSize >= 1
    ensures var rest := Unpassed(candidates, sort, direction, position, matches);
            PageOf(candidates, sort, direction, position, pageSize, matches) ==
            if |rest| <= pageSize then CandidatePage(rest, None)
            else CandidatePage(rest[..pageSize], Some(PositionOf(rest[pageSize - 1], sort)))
  {
    AfterProbeIsBeyond(SortHeads(Filter(candidates, matches), sort, direction), position, sort, direction);
  }

  lemma {:induction false} FilterKeepsDistinct(s: seq<Head>, p: Head -> bool)
    requires DistinctIds(s)
    ensures DistinctIds(Filter(s, p))
  {
    if s != [] {
      var init, last := s[..|s| - 1], s[|s| - 1];
      FilterKeepsDistinct(init, p);
      FilterMembers(init, p);
      forall x | x in init ensures x.id != last.id {
      }
    }
  }

  lemma UnpassedMembers(candidates: seq<Head>, sort: Sort, direction: Direction, position: Option<Position>,
                        matches: Head -> bool)
    requires DistinctIds(candidates)
    ensures Ordered(Unpassed(candidates, sort, direction, position, matches), sort, direction)
    ensures forall h :: h in Unpassed(candidates, sort, direction, position, matches) <==>
                          h in candidates && matches(h) && Beyond(h, position, sort, direction)
  {
    var kept := Filter(candidates, matches);
    var sorted := SortHeads(kept, sort, direction);
    var rest := (h: Head) => Beyond(h, position, sort, direction);
    FilterKeepsDistinct(candidates, matches);
    SortIsOrdered(kept, sort, direction);
    FilterKeepsOrder(sorted, rest, sort, direction);
    FilterMembers(candidates, matches);
    FilterMembers(sorted, rest);
    SameMembers(sorted, kept);
  }

  /** The filtered list that an unlimited scan pages through is the sorted candidate list. */
  lemma UnpassedIsTheScannedList(candidates: seq<Head>, index: seq<Head>, among: Head -> bool, matches: Head -> bool,
                                 sort: Sort, direction: Direction, position: Option<Position>)
    requires Ordered(index, sort, Asc) && DistinctIds(candidates)
    requires forall h :: h in candidates <==> h in index && among(h)
    ensures Unpassed(candidates, sort, direction, position, matches)
            == Filter(Remaining(index, position, sort, direction), (h: Head) => among(h) && matches(h))
  {
    var both := (h: Head) => among(h) && matches(h);
    UnpassedMembers(candidates, sort, direction, position, matches);
    T.RemainingIsOrdered(index, position, sort, direction);
    var list := Remaining(index, position, sort, direction);
    FilterKeepsOrder(list, both, sort, direction);
    FilterMembers(list, both);
    OrderedListsAgree(Unpassed(candidates, sort, direction, position, matches), Filter(list, both), sort, direction);
  }

  /** A scan with budget to spare slices the filtered list. */
  lemma UnlimitedPageSlices(page: Page, list: seq<Head>, matches: Head -> bool, sort: Sort, pageSize: nat,
                            scanLimit: nat)
    requires pageSize >= 1 && IsPage(page, list, matches, sort, pageSize, scanLimit) && |list| < scanLimit
    ensures var all := Filter(list, matches);
            if |all| <= pageSize then page.items == all && page.resume == None
            else page.items == all[..pageSize] && page.resume == Some(PositionOf(all[pageSize - 1], sort))
  {
    var cut: nat :| Cuts(page, list, matches, sort, pageSize, scanLimit, cut);
    MatchingIsFilter(list, matches, |list|);
    assert list[..|list|] == list;
    MatchingGrows(list, matches, cut, |list|);
    if page.resume.Some? {
      assert page.items[pageSize - 1] == list[cut - 1];
    }
  }

  /**
   * Over the same heads, the in-memory page and the index scan with an unlimited budget give the
   * same items and the same cursor.
   */
  lemma CandidatePageIsAnUnlimitedScan(candidates: seq<Head>, index: seq<Head>, among: Head -> bool,
                                       matches: Head -> bool,
                                       sort: Sort, direction: Direction, position: Option<Position>, pageSize: nat,
                                       page: Page, scanLimit: nat)
    requires pageSize >= 1 && Ordered(index, sort, Asc) && |index| < scanLimit && DistinctIds(candidates)
    requires forall h :: h in candidates <==> h in index && among(h)
    requires IsPage(page, Remaining(index, position, sort, direction), (h: Head) => among(h) && matches(h), sort,
                    pageSize, scanLimit)
    ensures PageOf(candidates, sort, direction, position, pageSize, matches) == CandidatePage(page.items, page.resume)
  {
    assert |InOrder(index, direction)| == |index|;
    PageSlicesUnpassed(candidates, sort, direction, position, pageSize, matches);
    UnpassedIsTheScannedList(candidates, index, among, matches, sort, direction, position);
    UnlimitedPageSlices(page, Remaining(index, position, sort, direction), (h: Head) => among(h) && matches(h), sort,
                        pageSize, scanLimit);
  }
}
