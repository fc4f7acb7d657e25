/**
 * The paged backfill of the estimate facts of a release that was completed before facts were staged
 * (`backfillActiveReleaseEvFacts`), and its refinement of staging: whatever requests arrive, accepted,
 * retried or refused, it stores the release's facts in id order and ends with the very facts and digest
 * that staging would have left.
 */
module EvFactsBackfill {
  import opened Prelude
  import opened RetainedEvMerge
  import opened ReleaseStaging
  import P = ReleaseStagingProof

  const PAGE_ROWS: nat := 32
  const PAGE_BYTES: nat := 4_194_304
  const MAX_REPACKS: nat := 1_000

  /** `admitted` says that the release is the active or previous one and the expected pointers are the stored ones. */
  datatype Request = Request(admitted: bool, after: Option<Key>)
  datatype Reply = Reply(complete: bool, count: nat, next: Option<Key>)

  function ReplyOf(r: Release): Reply {
    if r.factSet.None? then Reply(false, 0, None)
    else Reply(r.factSet.value.sealed.Some?, r.factSet.value.count, r.factSet.value.cursor)
  }

  /** Where the range of ids after the cursor starts in the table. */
  function FirstAfter(rs: seq<Repack>, after: Option<Key>, i: nat): (first: nat)
    requires i <= |rs|
    ensures i <= first <= |rs|
    decreases |rs| - i
  {
    if i == |rs| || after.None? || rs[i].id > after.value then i else FirstAfter(rs, after, i + 1)
  }

  /** The shard of a row is there and holds as many rows as its number says. */
  predicate ShardHolds(r: Release, shard: nat) {
    shard < |r.shards| && |r.shards[shard]| == Min(SHARD_ROWS, r.manifest.counts.repacks - shard * SHARD_ROWS)
  }

  predicate FactStored(facts: seq<Facts>, id: Key) {
    exists i :: 0 <= i < |facts| && facts[i].scope.publicRepackId == id
  }

  /** The checks on one stored repack before its facts are inserted as fact number `count`. */
  predicate RowHolds(r: Release, count: nat, cursor: Option<Key>, facts: seq<Facts>, p: Repack) {
    && ShardHolds(r, count / SHARD_ROWS)
    && count % SHARD_ROWS < |r.shards[count / SHARD_ROWS]|
    && r.shards[count / SHARD_ROWS][count % SHARD_ROWS] == RowOf(p)
    && (cursor.Some? ==> p.id > cursor.value)
    && !FactStored(facts, p.id)
  }

  /** The page so far. */
  datatype Page = Page(count: nat, cursor: Option<Key>, facts: seq<Facts>, rows: nat)

  predicate PageEnds(rs: seq<Repack>, at: nat, rows: nat, bytes: nat)
    requires at <= |rs|
  {
    at == |rs| || rows == PAGE_ROWS || (bytes + rs[at].bytes > PAGE_BYTES && rows > 0)
  }

  /** Reads repacks from `at` until the page ends; a failed check refuses the whole request. */
  function ReadPage(r: Release, at: nat, page: Page, bytes: nat): Option<Page>
    requires at <= |r.repacks|
    decreases |r.repacks| - at
  {
    if PageEnds(r.repacks, at, page.rows, bytes) then Some(page)
    else
      var p := r.repacks[at];
      if !RowHolds(r, page.count, page.cursor, page.facts, p) then None
      else ReadPage(r, at + 1, Page(page.count + 1, Some(p.id), page.facts + [FactsFrom(p)], page.rows + 1),
                    bytes + p.bytes)
  }

  function Opening(r: Release): Page {
    if r.factSet.None? then Page(0, None, r.facts, 0)
    else Page(r.factSet.value.count, r.factSet.value.cursor, r.facts, 0)
  }

  /** The release once the page is stored, before sealing. */
  function Stored(r: Release, page: Page, after: Option<Key>): Release {
    r.(facts := page.facts, factSet := Some(FactSet(FromBackfill, page.count, page.cursor, after, None)))
  }

  function Sealed(r: Release): Release
    requires r.factSet.Some?
  {
    r.(factSet := Some(r.factSet.value.(sealed := Some(r.facts))))
  }

  function Settle(r: Release, page: Page, after: Option<Key>): Result<(Release, Reply), Error> {
    var s := Stored(r, page, after);
    if page.count > r.manifest.counts.repacks || (page.rows == 0 && page.count != r.manifest.counts.repacks)
    then Refused(StateConflict)
    else if page.count != r.manifest.counts.repacks then Success((s, ReplyOf(s)))
    else if !Readable(s.facts, page.count) then Refused(StateConflict)
    else Success((Sealed(s), ReplyOf(Sealed(s))))
  }

  function NextPage(r: Release, after: Option<Key>): Result<(Release, Reply), Error> {
    var page := ReadPage(r, FirstAfter(r.repacks, after, 0), Opening(r), 0);
    if page.None? then Refused(StateConflict) else Settle(r, page.value, after)
  }

  function Cursor(r: Release): Option<Key> {
    if r.factSet.None? then None else r.factSet.value.cursor
  }

  function Backfill(r: Release, q: Request): Result<(Release, Reply), Error> {
    if !q.admitted || !r.complete || r.manifest.counts.repacks > MAX_REPACKS then Refused(StateConflict)
    else if r.factSet.Some? && r.factSet.value.sealed.Some? then
      if r.factSet.value.count == r.manifest.counts.repacks && Readable(r.facts, r.factSet.value.count)
         && r.factSet.value.sealed.value == r.facts
      then Success((r, ReplyOf(r)))
      else Refused(StateConflict)
    else if r.factSet.Some? && r.factSet.value.source != FromBackfill then Refused(StateConflict)
    else if Cursor(r) != q.after then
      if r.factSet.Some? && r.factSet.value.lastRequest == q.after then Success((r, ReplyOf(r)))
      else Refused(StateConflict)
    else NextPage(r, q.after)
  }

  // ----- What every request keeps -----

  /** A release completed by staging, apart from its facts. */
  ghost predicate Whole(r: Release) {
    && r.complete && Packed(r) && Ascending(RepackKeys(r.repacks))
    && |r.repacks| == r.manifest.counts.repacks <= MAX_REPACKS
  }

  /** The id of the last of the first `n` repacks. */
  ghost function CursorAt(r: Release, n: nat): Option<Key>
    requires n <= |r.repacks|
  {
    if n == 0 then None else Some(r.repacks[n - 1].id)
  }

  /** The page that has stored the facts of the first `n` repacks. */
  ghost function PageAt(r: Release, n: nat, rows: nat): Page
    requires n <= |r.repacks|
  {
    Page(n, CursorAt(r, n), FactsOf(r.repacks[..n]), rows)
  }

  /** The stored facts are those of the first `n` repacks, and the fact set says so. */
  ghost predicate Prefix(r: Release, n: nat) {
    && n <= |r.repacks| && r.facts == FactsOf(r.repacks[..n])
    && (r.factSet.None? ==> n == 0)
    && (r.factSet.Some? ==>
          && r.factSet.value.source == FromBackfill && r.factSet.value.count == n
          && r.factSet.value.cursor == CursorAt(r, n)
          && (r.factSet.value.sealed.Some? <==> n == |r.repacks|)
          && (r.factSet.value.sealed.Some? ==> r.factSet.value.sealed.value == r.facts && Readable(r.facts, n)))
  }

  /** How many more repacks a page takes. */
  ghost function PageSize(rs: seq<Repack>, at: nat, rows: nat, bytes: nat): (size: nat)
    requires at <= |rs|
    ensures at + size <= |rs|
    decreases |rs| - at
  {
    if PageEnds(rs, at, rows, bytes) then 0 else 1 + PageSize(rs, at + 1, rows + 1, bytes + rs[at].bytes)
  }

  lemma IdsAscend(rs: seq<Repack>, i: nat, j: nat)
    requires Ascending(RepackKeys(rs)) && i < j < |rs|
    ensures rs[i].id < rs[j].id
  {
    assert Less(RepackKeys(rs)[i], RepackKeys(rs)[j]);
  }

  /** On a whole release no row check ever fires. */
  lemma NextRowHolds(r: Release, n: nat)
    requires Whole(r) && n < |r.repacks|
    ensures RowHolds(r, n, CursorAt(r, n), FactsOf(r.repacks[..n]), r.repacks[n])
  {
    P.RowOfTheIthRepack(r, n);
    if n > 0 {
      IdsAscend(r.repacks, n - 1, n);
    }
    if FactStored(FactsOf(r.repacks[..n]), r.repacks[n].id) {
      var i :| 0 <= i < n && FactsOf(r.repacks[..n])[i].scope.publicRepackId == r.repacks[n].id;
      IdsAscend(r.repacks, i, n);
    }
  }

  lemma OneMoreFact(r: Release, n: nat, rows: nat)
    requires n < |r.repacks|
    ensures PageAt(r, n + 1, rows + 1)
         == Page(n + 1, Some(r.repacks[n].id), PageAt(r, n, rows).facts + [FactsFrom(r.repacks[n])], rows + 1)
  {
  }

  lemma OneRowIsRead(r: Release, n: nat, rows: nat, bytes: nat)
    requires Whole(r) && n <= |r.repacks| && !PageEnds(r.repacks, n, rows, bytes)
    ensures ReadPage(r, n, PageAt(r, n, rows), bytes)
         == ReadPage(r, n + 1, PageAt(r, n + 1, rows + 1), bytes + r.repacks[n].bytes)
  {
    NextRowHolds(r, n);
    OneMoreFact(r, n, rows);
  }

  lemma {:induction false} PageReadsOn(r: Release, n: nat, rows: nat, bytes: nat)
    requires Whole(r) && n <= |r.repacks|
    ensures ReadPage(r, n, PageAt(r, n, rows), bytes)
         == Some(PageAt(r, n + PageSize(r.repacks, n, rows, bytes), rows + PageSize(r.repacks, n, rows, bytes)))
    decreases |r.repacks| - n
  {
    if !PageEnds(r.repacks, n, rows, bytes) {
      OneRowIsRead(r, n, rows, bytes);
      PageReadsOn(r, n + 1, rows + 1, bytes + r.repacks[n].bytes);
    }
  }

  /** The range after the cursor starts at the next repack. */
  lemma {:induction false} RangeStartsNext(r: Release, n: nat, i: nat)
    requires Whole(r) && i <= n <= |r.repacks|
    ensures FirstAfter(r.repacks, CursorAt(r, n), i) == if n == 0 then i else n
    decreases n - i
  {
    if i < n {
      if i < n - 1 {
        IdsAscend(r.repacks, i, n - 1);
      }
      RangeStartsNext(r, n, i + 1);
    } else if 0 < n < |r.repacks| {
      IdsAscend(r.repacks, n - 1, n);
    }
  }

  lemma FactsAreReadable(r: Release)
    requires Whole(r)
    ensures Readable(FactsOf(r.repacks), |r.repacks|) <==>
            forall i :: 0 <= i < |r.repacks| ==> ValidFacts(FactsFrom(r.repacks[i]))
  {
    var facts := FactsOf(r.repacks);
    forall i | 0 < i < |facts| ensures facts[i - 1].scope.publicRepackId < facts[i].scope.publicRepackId {
      IdsAscend(r.repacks, i - 1, i);
    }
    if Readable(facts, |facts|) {
      forall i | 0 <= i < |r.repacks| ensures ValidFacts(FactsFrom(r.repacks[i])) {
        assert ValidFacts(facts[i]);
      }
    }
  }

  /** What one page leaves, for every state the backfill can be resumed from. */
  lemma PageStores(r: Release, n: nat)
    requires Whole(r) && Prefix(r, n)
    ensures NextPage(r, CursorAt(r, n))
         == Settle(r, PageAt(r, n + PageSize(r.repacks, n, 0, 0), PageSize(r.repacks, n, 0, 0)), CursorAt(r, n))
  {
    RangeStartsNext(r, n, 0);
    PageReadsOn(r, n, 0, 0);
  }

  lemma WholeOnlyReadsTheRelease(r: Release, s: Release)
    requires Whole(r) && s == r.(facts := s.facts, factSet := s.factSet)
    ensures Whole(s)
  {
  }

  lemma StoredIsPrefix(r: Release, n: nat, rows: nat, after: Option<Key>)
    requires Whole(r) && n < |r.repacks|
    ensures Prefix(Stored(r, PageAt(r, n, rows), after), n)
  {
  }

  lemma SealedIsPrefix(r: Release, rows: nat, after: Option<Key>)
    requires Whole(r) && Readable(FactsOf(r.repacks[..|r.repacks|]), |r.repacks|)
    ensures Prefix(Sealed(Stored(r, PageAt(r, |r.repacks|, rows), after)), |r.repacks|)
  {
  }

  /** An accepted page extends the prefix by its rows; nothing else of the release changes. */
  lemma SettleExtends(r: Release, m: nat, rows: nat, after: Option<Key>)
    requires Whole(r) && m <= |r.repacks| && Settle(r, PageAt(r, m, rows), after).Success?
    ensures var s := Settle(r, PageAt(r, m, rows), after).value.0;
            s == r.(facts := s.facts, factSet := s.factSet) && Whole(s) && Prefix(s, m)
  {
    var s := Settle(r, PageAt(r, m, rows), after).value.0;
    WholeOnlyReadsTheRelease(r, s);
    if m < |r.repacks| {
      StoredIsPrefix(r, m, rows, after);
    } else {
      SealedIsPrefix(r, rows, after);
    }
  }

  /** What an accepted page leaves and answers: the first `m` facts, stored for the cursor `after`. */
  ghost predicate Extended(r: Release, s: Release, reply: Reply, m: nat, after: Option<Key>) {
    && s == r.(facts := s.facts, factSet := s.factSet) && Whole(s) && reply == ReplyOf(s) && Prefix(s, m)
    && s.factSet.Some? && s.factSet.value.lastRequest == after
  }

  lemma SettledPage(r: Release, m: nat, rows: nat, after: Option<Key>, x: Result<(Release, Reply), Error>)
    requires Whole(r) && m <= |r.repacks| && x == Settle(r, PageAt(r, m, rows), after) && x.Success?
    ensures Extended(r, x.value.0, x.value.1, m, after) && (rows == 0 ==> m == |r.repacks|)
  {
    SettleExtends(r, m, rows, after);
  }

  lemma CurrentRequestSettles(r: Release, n: nat, q: Request)
    requires Whole(r) && Prefix(r, n) && Backfill(r, q).Success?
    requires q.after == CursorAt(r, n) && (r.factSet.None? || r.factSet.value.sealed.None?)
    ensures var size := PageSize(r.repacks, n, 0, 0);
            Backfill(r, q) == Settle(r, PageAt(r, n + size, size), q.after)
  {
    PageStores(r, n);
  }

  /** At the current cursor of an unfinished backfill an accepted request stores one page. */
  lemma CurrentRequestStores(r: Release, n: nat, q: Request)
    requires Whole(r) && Prefix(r, n) && Backfill(r, q).Success?
    requires q.after == CursorAt(r, n) && (r.factSet.None? || r.factSet.value.sealed.None?)
    ensures var x, size := Backfill(r, q).value, PageSize(r.repacks, n, 0, 0);
            && Extended(r, x.0, x.1, n + size, q.after)
            && (size == 0 ==> n == |r.repacks| == 0)
  {
    var size := PageSize(r.repacks, n, 0, 0);
    CurrentRequestSettles(r, n, q);
    SettledPage(r, n + size, size, q.after, Backfill(r, q));
  }

  lemma OtherRequestStays(r: Release, n: nat, q: Request)
    requires Prefix(r, n) && Backfill(r, q).Success?
    requires q.after != CursorAt(r, n) || (r.factSet.Some? && r.factSet.value.sealed.Some?)
    ensures Backfill(r, q).value == (r, ReplyOf(r))
  {
  }

  /**
   * One request: either the release stays as it is (a refusal, a retry, or a set that is complete), or
   * the cursor was current and the prefix grows by the rows of one page, at least one unless none is left.
   */
  lemma BackfillStep(r: Release, n: nat, q: Request)
    requires Whole(r) && Prefix(r, n) && Backfill(r, q).Success?
    ensures var s := Backfill(r, q).value.0;
            && s == r.(facts := s.facts, factSet := s.factSet) && Whole(s) && Backfill(r, q).value.1 == ReplyOf(s)
            && ((s == r && (q.after != CursorAt(r, n) || (r.factSet.Some? && r.factSet.value.sealed.Some?)))
                || (q.after == CursorAt(r, n) && Prefix(s, n + PageSize(r.repacks, n, 0, 0)) && s.factSet.Some?
                    && s.factSet.value.lastRequest == q.after
                    && (PageSize(r.repacks, n, 0, 0) == 0 ==> n == |r.repacks| == 0)))
  {
    if q.after == CursorAt(r, n) && (r.factSet.None? || r.factSet.value.sealed.None?) {
      CurrentRequestStores(r, n, q);
    } else {
      OtherRequestStays(r, n, q);
    }
  }

  /**
   * A request at the current cursor of an unfinished backfill is refused exactly when its page reaches
   * the end of a release with an invalid fact; the row checks never refuse it.
   */
  lemma CurrentRequestAdvances(r: Release, n: nat, q: Request)
    requires Whole(r) && Prefix(r, n) && q.admitted && q.after == CursorAt(r, n)
    requires r.factSet.None? || r.factSet.value.sealed.None?
    ensures Backfill(r, q).Success? <==>
              (n + PageSize(r.repacks, n, 0, 0) < |r.repacks|
               || forall i :: 0 <= i < |r.repacks| ==> ValidFacts(FactsFrom(r.repacks[i])))
  {
    PageStores(r, n);
    FactsAreReadable(r);
    assert r.repacks[..|r.repacks|] == r.repacks;
  }

  // ----- Whole runs -----

  function Run(r: Release, requests: seq<Request>, k: nat): Release
    requires k <= |requests|
  {
    if k == 0 then r
    else
      var prior := Run(r, requests, k - 1);
      var next := Backfill(prior, requests[k - 1]);
      if next.Success? then next.value.0 else prior
  }

  /** What a release completed without facts starts from. */
  ghost predicate Unfilled(r: Release) {
    Whole(r) && r.facts == [] && r.factSet.None?
  }

  /** `s` is `r` apart from the facts, of which it holds the first `n`. */
  ghost predicate Filled(r: Release, s: Release, n: nat) {
    s == r.(facts := s.facts, factSet := s.factSet) && Whole(s) && Prefix(s, n)
  }

  lemma RequestFills(r: Release, s: Release, n: nat, q: Request) returns (m: nat)
    requires Filled(r, s, n) && Backfill(s, q).Success?
    ensures Filled(r, Backfill(s, q).value.0, m)
  {
    BackfillStep(s, n, q);
    m := if Backfill(s, q).value.0 == s then n else n + PageSize(s.repacks, n, 0, 0);
  }

  /** Over any requests the stored facts are a prefix of the release's facts, and nothing else changes. */
  lemma {:induction false} RunStoresAPrefix(r: Release, requests: seq<Request>, k: nat) returns (n: nat)
    requires Unfilled(r) && k <= |requests|
    ensures Filled(r, Run(r, requests, k), n)
  {
    if k == 0 {
      n := 0;
    } else {
      n := RunStoresAPrefix(r, requests, k - 1);
      if Backfill(Run(r, requests, k - 1), requests[k - 1]).Success? {
        n := RequestFills(r, Run(r, requests, k - 1), n, requests[k - 1]);
      }
    }
  }

  /** A release over the bound is never backfilled. */
  lemma {:induction false} OversizedStays(r: Release, requests: seq<Request>, k: nat)
    requires r.manifest.counts.repacks > MAX_REPACKS && k <= |requests|
    ensures Run(r, requests, k) == r
  {
    if k > 0 {
      OversizedStays(r, requests, k - 1);
    }
  }

  /**
   * The backfill refines staging: take a release that staging finalized, remove its facts and fact set,
   * and whenever any run of requests ends with a sealed set, the facts and their digest are again those
   * that staging stored.
   */
  lemma BackfillRefinesStaging(r: Release, expected: Manifest, hashesAgree: bool, now: Time, requests: seq<Request>,
                               k: nat)
    requires Staged(r) && Finalize(r, expected, hashesAgree, now).Success? && k <= |requests|
    ensures var f := Finalize(r, expected, hashesAgree, now).value;
            var s := Run(f.(facts := [], factSet := None), requests, k);
            s.factSet.Some? && s.factSet.value.sealed.Some? ==>
              s.facts == f.facts && s.factSet.value.sealed == f.factSet.value.sealed
              && s.factSet.value.count == f.factSet.value.count
  {
    P.FinalizedReleaseIsWhole(r, expected, hashesAgree, now);
    var f := Finalize(r, expected, hashesAgree, now).value;
    var u := f.(facts := [], factSet := None);
    if |f.repacks| <= MAX_REPACKS {
      var n := RunStoresAPrefix(u, requests, k);
      assert f.repacks[..|f.repacks|] == f.repacks;
    } else {
      OversizedStays(u, requests, k);
    }
  }

  /** Following the returned cursor from any resumable state. */
  ghost function Follow(r: Release, fuel: nat): Release
    decreases fuel
  {
    if fuel == 0 || Backfill(r, Request(true, Cursor(r))).Refused? then r
    else Follow(Backfill(r, Request(true, Cursor(r))).value.0, fuel - 1)
  }

  ghost predicate AllValid(rs: seq<Repack>) {
    forall i :: 0 <= i < |rs| ==> ValidFacts(FactsFrom(rs[i]))
  }

  ghost predicate Finished(r: Release, s: Release) {
    s.factSet.Some? && s.factSet.value.sealed == Some(FactsOf(r.repacks)) && s.facts == FactsOf(r.repacks)
  }

  lemma SealedIsFinished(r: Release, s: Release, n: nat)
    requires Filled(r, s, n) && s.factSet.Some? && s.factSet.value.sealed.Some?
    ensures Finished(r, s)
  {
    assert r.repacks[..|r.repacks|] == r.repacks;
  }

  /** One request at the cursor of an unfinished set takes a step towards the end. */
  lemma FollowingFills(r: Release, s: Release, n: nat) returns (m: nat)
    requires Filled(r, s, n) && AllValid(r.repacks) && (s.factSet.None? || s.factSet.value.sealed.None?)
    ensures Backfill(s, Request(true, Cursor(s))).Success?
            && Filled(r, Backfill(s, Request(true, Cursor(s))).value.0, m)
    ensures Backfill(s, Request(true, Cursor(s))).value.0.factSet.Some? && (n < m || n == m == |r.repacks|)
  {
    CurrentRequestAdvances(s, n, Request(true, Cursor(s)));
    BackfillStep(s, n, Request(true, Cursor(s)));
    m := n + PageSize(s.repacks, n, 0, 0);
  }

  lemma FilledBounds(r: Release, s: Release, n: nat)
    requires Filled(r, s, n)
    ensures n <= |r.repacks| && (s.factSet.Some? && n == |r.repacks| ==> s.factSet.value.sealed.Some?)
  {
  }

  /**
   * A client that follows the cursor completes the set within one request per remaining repack, plus one
   * for an empty release.
   */
  lemma {:induction false} FollowingCompletes(r: Release, s: Release, n: nat, fuel: nat)
    requires Filled(r, s, n) && AllValid(r.repacks) && fuel >= 1 + |r.repacks| - n
    ensures Finished(r, Follow(s, fuel))
    decreases fuel
  {
    if s.factSet.Some? && s.factSet.value.sealed.Some? {
      SealedIsFinished(r, s, n);
      FollowingStays(s, fuel);
    } else {
      var m := FollowingFills(r, s, n);
      var t := Backfill(s, Request(true, Cursor(s))).value.0;
      FilledBounds(r, t, m);
      if m == |r.repacks| {
        SealedIsFinished(r, t, m);
        FollowingStays(t, fuel - 1);
      } else {
        FollowingCompletes(r, t, m, fuel - 1);
      }
    }
  }

  lemma {:induction false} FollowingStays(r: Release, fuel: nat)
    requires r.factSet.Some? && r.factSet.value.sealed.Some?
    ensures Follow(r, fuel) == r
    decreases fuel
  {
    if fuel > 0 && Backfill(r, Request(true, Cursor(r))).Success? {
      FollowingStays(r, fuel - 1);
    }
  }
}
