/**
 * What a backfill request answers and what it leaves, for every branch: which rows one page takes,
 * when a set is reported, retried or refused, and what a page checks of each row in any store.
 * Everything is stated on the stored rows.
 */
module BackfillAnswers {
  import opened Prelude
  import opened RetainedEvMerge
  import opened ReleaseStaging
  import opened EvFactsBackfill

  // ----- Which rows a page takes -----

  /** The bytes of `n` repacks from position `at`. */
  function Bytes(rs: seq<Repack>, at: nat, n: nat): nat
    requires at + n <= |rs|
  {
    if n == 0 then 0 else Bytes(rs, at, n - 1) + rs[at + n - 1].bytes
  }

  /**
   * A page takes as many repacks as it can: at most thirty-two, and within four mebibytes except for
   * the first, which it always takes.
   */
  predicate TakesRows(rs: seq<Repack>, at: nat, n: nat) {
    && at + n <= |rs| && n <= 32 && (n > 1 ==> Bytes(rs, at, n) <= 4_194_304)
    && (at + n < |rs| && n < 32 ==> n > 0 && Bytes(rs, at, n + 1) > 4_194_304)
  }

  /** The rows taken from position `at` on, when `rows` rows of the page precede them. */
  lemma {:induction false} PageTakesRows(rs: seq<Repack>, start: nat, rows: nat)
    requires start + rows <= |rs| && rows <= 32 && (rows > 1 ==> Bytes(rs, start, rows) <= 4_194_304)
    ensures TakesRows(rs, start, rows + PageSize(rs, start + rows, rows, Bytes(rs, start, rows)))
    decreases |rs| - rows
  {
    if !PageEnds(rs, start + rows, rows, Bytes(rs, start, rows)) {
      assert Bytes(rs, start, rows + 1) == Bytes(rs, start, rows) + rs[start + rows].bytes;
      PageTakesRows(rs, start, rows + 1);
    }
  }

  lemma RowsTakenAreOne(rs: seq<Repack>, at: nat, m: nat, n: nat)
    requires TakesRows(rs, at, m) && TakesRows(rs, at, n)
    ensures m == n
  {
    if m < n {
      BytesGrow(rs, at, m + 1, n);
    } else if n < m {
      BytesGrow(rs, at, n + 1, m);
    }
  }

  lemma {:induction false} BytesGrow(rs: seq<Repack>, at: nat, m: nat, n: nat)
    requires m <= n && at + n <= |rs|
    ensures Bytes(rs, at, m) <= Bytes(rs, at, n)
    decreases n
  {
    if m < n {
      BytesGrow(rs, at, m, n - 1);
    }
  }

  // ----- Answers on a whole release -----

  /** The set of a release whose first `n` facts are stored is still open. */
  predicate Unsealed(r: Release) {
    match r.factSet
    case None => true
    case Some(x) => x.sealed.None?
  }

  predicate Priced(rs: seq<Repack>) {
    forall i :: 0 <= i < |rs| && rs[i].report.Available? ==> rs[i].priceMinor.Some? && rs[i].priceMinor.value > 0
  }

  lemma PricedIsValid(rs: seq<Repack>)
    ensures Priced(rs) <==> forall i :: 0 <= i < |rs| ==> ValidFacts(FactsFrom(rs[i]))
  {
    if forall i :: 0 <= i < |rs| ==> ValidFacts(FactsFrom(rs[i])) {
      forall i | 0 <= i < |rs| && rs[i].report.Available?
        ensures rs[i].priceMinor.Some? && rs[i].priceMinor.value > 0
      {
        assert ValidFacts(FactsFrom(rs[i]));
      }
    }
  }

  lemma UnadmittedIsRefused(r: Release, q: Request)
    requires !q.admitted || !r.complete || r.manifest.counts.repacks > 1_000
    ensures Backfill(r, q) == Refused(StateConflict)
  {
  }

  /** A sealed set is reported, whatever the request asks for; a request behind the last one is refused. */
  lemma OtherRequestAnswers(r: Release, n: nat, q: Request)
    requires Whole(r) && Prefix(r, n) && q.admitted && (q.after != CursorAt(r, n) || !Unsealed(r))
    ensures Backfill(r, q) ==
            if !Unsealed(r) || (r.factSet.Some? && r.factSet.value.lastRequest == q.after) then
              Success((r, Reply(!Unsealed(r), n, CursorAt(r, n))))
            else Refused(StateConflict)
  {
  }

  /** The request at the cursor is refused exactly if its page is the last one and some fact is not priced. */
  lemma CurrentRequestAnswers(r: Release, n: nat, q: Request, size: nat)
    requires Whole(r) && Prefix(r, n) && q.admitted && q.after == CursorAt(r, n) && Unsealed(r)
    requires TakesRows(r.repacks, n, size)
    ensures Backfill(r, q).Success? <==> (n + size == |r.repacks| ==> Priced(r.repacks))
    ensures Backfill(r, q).Refused? ==> Backfill(r, q).error == StateConflict
  {
    PageAtTheCursor(r.repacks, n, size);
    CurrentRequestAdvances(r, n, q);
    PricedIsValid(r.repacks);
    RefusalsAreConflicts(r, q);
  }

  lemma PageAtTheCursor(rs: seq<Repack>, n: nat, size: nat)
    requires TakesRows(rs, n, size)
    ensures size == PageSize(rs, n, 0, 0)
  {
    PageTakesRows(rs, n, 0);
    RowsTakenAreOne(rs, n, size, PageSize(rs, n, 0, 0));
  }

  /** Accepted, it stores one page, and seals the set with the last one. */
  lemma CurrentRequestLeaves(r: Release, n: nat, q: Request, size: nat, s: Release, reply: Reply)
    requires Whole(r) && Prefix(r, n) && q.admitted && q.after == CursorAt(r, n) && Unsealed(r)
    requires TakesRows(r.repacks, n, size) && Backfill(r, q) == Success((s, reply))
    ensures var last := n + size == |r.repacks|;
            && reply == Reply(last, n + size, CursorAt(r, n + size))
            && s == r.(facts := s.facts, factSet := s.factSet)
            && StoresFacts(r, s, n + size, q.after, last)
  {
    PageAtTheCursor(r.repacks, n, size);
    CurrentRequestExtends(r, n, q, s, reply);
    PageIsExtended(r, s, reply, n + size, q.after);
  }

  lemma CurrentRequestExtends(r: Release, n: nat, q: Request, s: Release, reply: Reply)
    requires Whole(r) && Prefix(r, n) && q.after == CursorAt(r, n) && Unsealed(r)
    requires Backfill(r, q) == Success((s, reply))
    ensures Extended(r, s, reply, n + PageSize(r.repacks, n, 0, 0), q.after)
    ensures s == r.(facts := s.facts, factSet := s.factSet)
  {
    CurrentRequestStores(r, n, q);
  }

  /** The first `m` facts are stored, each as its repack says, under a set that says so. */
  ghost predicate StoresFacts(r: Release, s: Release, m: nat, after: Option<Key>, last: bool) {
    && m <= |r.repacks| && |s.facts| == m
    && (forall i :: 0 <= i < m ==>
          && s.facts[i].scope.publicRepackId == r.repacks[i].id && s.facts[i].scope.vendorKey == r.repacks[i].vendorKey
          && s.facts[i].scope.publicVendorId == r.repacks[i].publicVendorId
          && s.facts[i].priceMinor == r.repacks[i].priceMinor && s.facts[i].report == r.repacks[i].report)
    && s.factSet == Some(FactSet(FromBackfill, m, CursorAt(r, m), after, if last then Some(s.facts) else None))
  }

  lemma RefusalsAreConflicts(r: Release, q: Request)
    ensures Backfill(r, q).Refused? ==> Backfill(r, q).error == StateConflict
  {
  }

  lemma PageIsExtended(r: Release, s: Release, reply: Reply, m: nat, after: Option<Key>)
    requires Extended(r, s, reply, m, after)
    ensures m <= |r.repacks| && reply == Reply(m == |r.repacks|, m, CursorAt(r, m))
    ensures StoresFacts(r, s, m, after, m == |r.repacks|)
  {
    PageIsStored(r, s, m, after);
  }

  lemma PageIsStored(r: Release, s: Release, m: nat, after: Option<Key>)
    requires s == r.(facts := s.facts, factSet := s.factSet) && Prefix(s, m)
    requires s.factSet.Some? && s.factSet.value.lastRequest == after
    ensures StoresFacts(r, s, m, after, m == |r.repacks|)
  {
  }

  // ----- What any store is checked for -----

  /** Row `k` of the search shards is the projection of the repack, in a shard of the declared size. */
  predicate OnItsShard(r: Release, k: nat, p: Repack) {
    && k / 32 < |r.shards| && k % 32 < |r.shards[k / 32]|
    && |r.shards[k / 32]| == Min(32, r.manifest.counts.repacks - k / 32 * 32)
    && r.shards[k / 32][k % 32].id == p.id && r.shards[k / 32][k % 32].projection == p.rowProjection
  }

  /** Repacks `at` to `at + n` stand on the shards from row `count` on. */
  predicate OnShards(r: Release, at: nat, n: nat, count: nat)
    requires at + n <= |r.repacks|
  {
    forall k :: at <= k < at + n ==> OnItsShard(r, count + (k - at), r.repacks[k])
  }

  /** Their ids ascend from the cursor on. */
  predicate Ascend(r: Release, at: nat, n: nat, cursor: Option<Key>)
    requires at + n <= |r.repacks|
  {
    && (forall j, k :: at <= j < k < at + n ==> r.repacks[j].id < r.repacks[k].id)
    && (cursor.Some? ==> forall k :: at <= k < at + n ==> cursor.value < r.repacks[k].id)
  }

  /** None of them has a fact yet. */
  predicate Factless(r: Release, at: nat, n: nat, facts: seq<Facts>)
    requires at + n <= |r.repacks|
  {
    forall k, i :: at <= k < at + n && 0 <= i < |facts| ==> facts[i].scope.publicRepackId != r.repacks[k].id
  }

  /** The page of `n` repacks from `at` continues the set's count, cursor and facts. */
  predicate Continues(r: Release, at: nat, n: nat, before: Page)
    requires at + n <= |r.repacks|
  {
    OnShards(r, at, n, before.count) && Ascend(r, at, n, before.cursor) && Factless(r, at, n, before.facts)
  }

  lemma RowIsChecked(r: Release, page: Page, p: Repack)
    ensures RowHolds(r, page.count, page.cursor, page.facts, p) <==>
            && OnItsShard(r, page.count, p) && (page.cursor.Some? ==> page.cursor.value < p.id)
            && forall i :: 0 <= i < |page.facts| ==> page.facts[i].scope.publicRepackId != p.id
  {
  }

  /** A page is read only if every row it takes agrees with its shard, ascends, and has no fact yet. */
  lemma {:induction false} PageIsChecked(r: Release, at: nat, page: Page, bytes: nat)
    requires at <= |r.repacks|
    ensures var n := PageSize(r.repacks, at, page.rows, bytes);
            ReadPage(r, at, page, bytes).Some? <==> Continues(r, at, n, page)
    decreases |r.repacks| - at
  {
    if !PageEnds(r.repacks, at, page.rows, bytes) {
      var p := r.repacks[at];
      var next := Page(page.count + 1, Some(p.id), page.facts + [FactsFrom(p)], page.rows + 1);
      RowIsChecked(r, page, p);
      PageIsChecked(r, at + 1, next, bytes + p.bytes);
      ContinuesByOne(r, at, PageSize(r.repacks, at + 1, next.rows, bytes + p.bytes), page, next);
    }
  }

  lemma OnShardsByOne(r: Release, at: nat, n: nat, count: nat)
    requires at + 1 + n <= |r.repacks|
    ensures OnShards(r, at, n + 1, count) <==> OnItsShard(r, count, r.repacks[at]) && OnShards(r, at + 1, n, count + 1)
  {
    if OnItsShard(r, count, r.repacks[at]) && OnShards(r, at + 1, n, count + 1) {
      forall k | at <= k < at + n + 1 ensures OnItsShard(r, count + (k - at), r.repacks[k]) {
        assert k > at ==> OnItsShard(r, count + 1 + (k - (at + 1)), r.repacks[k]);
      }
    }
    if OnShards(r, at, n + 1, count) {
      forall k | at + 1 <= k < at + 1 + n ensures OnItsShard(r, count + 1 + (k - (at + 1)), r.repacks[k]) {
        assert OnItsShard(r, count + (k - at), r.repacks[k]);
      }
      assert OnItsShard(r, count + (at - at), r.repacks[at]);
    }
  }

  lemma AscendByOne(r: Release, at: nat, n: nat, cursor: Option<Key>)
    requires at + 1 + n <= |r.repacks|
    ensures Ascend(r, at, n + 1, cursor) <==>
            (cursor.Some? ==> cursor.value < r.repacks[at].id) && Ascend(r, at + 1, n, Some(r.repacks[at].id))
  {
  }

  lemma FactlessByOne(r: Release, at: nat, n: nat, facts: seq<Facts>)
    requires at + 1 + n <= |r.repacks| && Ascend(r, at + 1, n, Some(r.repacks[at].id))
    ensures Factless(r, at, n + 1, facts) <==>
            && (forall i :: 0 <= i < |facts| ==> facts[i].scope.publicRepackId != r.repacks[at].id)
            && Factless(r, at + 1, n, facts + [FactsFrom(r.repacks[at])])
  {
    var more := facts + [FactsFrom(r.repacks[at])];
    if Factless(r, at + 1, n, more) {
      forall k, i | at + 1 <= k < at + n + 1 && 0 <= i < |facts|
        ensures facts[i].scope.publicRepackId != r.repacks[k].id
      {
        assert more[i] == facts[i];
      }
    }
  }

  lemma ContinuesByOne(r: Release, at: nat, n: nat, page: Page, next: Page)
    requires at + 1 + n <= |r.repacks|
    requires next.count == page.count + 1 && next.cursor == Some(r.repacks[at].id)
    requires next.facts == page.facts + [FactsFrom(r.repacks[at])]
    ensures Continues(r, at, n + 1, page) <==>
            && OnItsShard(r, page.count, r.repacks[at])
            && (page.cursor.Some? ==> page.cursor.value < r.repacks[at].id)
            && (forall i :: 0 <= i < |page.facts| ==> page.facts[i].scope.publicRepackId != r.repacks[at].id)
            && Continues(r, at + 1, n, next)
  {
    OnShardsByOne(r, at, n, page.count);
    AscendByOne(r, at, n, page.cursor);
    if Ascend(r, at + 1, n, next.cursor) {
      FactlessByOne(r, at, n, page.facts);
    }
  }

  /** Exactly `count` facts, in strict id order, each available estimate with a positive price. */
  predicate FactsIntact(facts: seq<Facts>, count: nat) {
    && |facts| == count
    && (forall i :: 0 < i < |facts| ==> facts[i - 1].scope.publicRepackId < facts[i].scope.publicRepackId)
    && (forall i :: 0 <= i < |facts| && facts[i].report.Available? ==>
                      facts[i].priceMinor.Some? && facts[i].priceMinor.value > 0)
  }

  lemma ReadableIsIntact(facts: seq<Facts>, count: nat)
    ensures Readable(facts, count) <==> FactsIntact(facts, count)
  {
    if Readable(facts, count) {
      forall i | 0 <= i < |facts| && facts[i].report.Available?
        ensures facts[i].priceMinor.Some? && facts[i].priceMinor.value > 0
      {
        assert ValidFacts(facts[i]);
      }
    }
  }

  /** In any store a sealed set is reported exactly if it still is what was sealed. */
  lemma SealedSetIsChecked(r: Release, q: Request)
    requires q.admitted && r.complete && r.manifest.counts.repacks <= 1_000
    requires r.factSet.Some? && r.factSet.value.sealed.Some?
    ensures var x := r.factSet.value;
            Backfill(r, q) ==
            if x.count == r.manifest.counts.repacks && FactsIntact(r.facts, x.count) && x.sealed == Some(r.facts) then
              Success((r, Reply(true, x.count, x.cursor)))
            else Refused(StateConflict)
  {
    ReadableIsIntact(r.facts, r.factSet.value.count);
  }

  /** In any store a set that is still being staged is never backfilled, and only the last request is repeated. */
  lemma OpenSetIsChecked(r: Release, q: Request)
    requires q.admitted && r.complete && r.manifest.counts.repacks <= 1_000 && r.factSet.Some?
    requires var x := r.factSet.value; x.sealed.None? && (x.source == FromStaging || x.cursor != q.after)
    ensures var x := r.factSet.value;
            Backfill(r, q) ==
            if x.source == FromBackfill && x.lastRequest == q.after then Success((r, Reply(false, x.count, x.cursor)))
            else Refused(StateConflict)
  {
  }

  /** In any store a page of `rows` rows that was read is stored, unless it is too long, empty or ends in a fault. */
  lemma PageIsSettled(r: Release, page: Page, after: Option<Key>)
    ensures var total, x := r.manifest.counts.repacks, Settle(r, page, after);
            && (x.Success? <==>
                && ((page.count < total && page.rows > 0)
                    || (page.count == total && FactsIntact(page.facts, page.count))))
            && (x.Refused? ==> x.error == StateConflict)
            && (x.Success? ==> x.value.1 == Reply(page.count == total, page.count, page.cursor))
  {
    ReadableIsIntact(page.facts, page.count);
  }
}
