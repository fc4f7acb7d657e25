/**
 * Paging through one pack's contents: a cursor pins the snapshot it was issued for, so the pages
 * of a traversal are slices of one snapshot's contents however the head moves meanwhile.
 */
module PackContents {
  import opened Prelude
  import opened PackSnapshot
  import opened PackHeads

  datatype Cursor = Cursor(snapshot: Key, offset: int)
  datatype ReadError = PackNotFound | CursorExpired | CatalogUnavailable
  datatype Page = Page(snapshot: Key, contents: seq<Record>, next: Option<Cursor>)

  function Min(a: int, b: int): int {
    if a < b then a else b
  }

  /** `s.slice(offset, offset + count)`. */
  function Slice(s: seq<Record>, offset: nat, count: nat): seq<Record> {
    s[Min(offset, |s|)..Min(offset + count, |s|)]
  }

  lemma {:induction false} EntryAt(batches: seq<seq<Record>>, k: nat)
    requires k < |batches|
    ensures EntriesOf(batches)[k] == Entry(|batches[k]|, batches[k])
  {
    if k < |batches| - 1 {
      EntryAt(batches[..|batches| - 1], k);
    }
  }

  /** The snapshot a request reads, and where it starts: the cursor's, or the active one's start. */
  function PinnedSnapshot(w: World, pack: Key, cursor: Option<Cursor>): Key
    requires pack in w.heads
  {
    if cursor.Some? then cursor.value.snapshot else w.heads[pack].active
  }

  predicate Readable(w: World, pack: Key, id: Key) {
    Names(w, id, pack) && w.roots[id].state.Complete?
  }

  /** One batch's share of the page. */
  lemma SliceAcrossBatch(before: seq<Record>, batch: seq<Record>, offset: nat, count: nat)
    requires |before| + |batch| > offset
    ensures var part := batch[if offset > |before| then offset - |before| else 0..];
            Slice(before + batch, offset, count)
            == Slice(before, offset, count) + part[..Min(|part|, count - |Slice(before, offset, count)|)]
  {
  }

  lemma SliceIgnoresWhatFollows(s: seq<Record>, t: seq<Record>, offset: nat, count: nat)
    requires |Slice(s, offset, count)| >= count
    ensures Slice(s + t, offset, count) == Slice(s, offset, count)
  {
  }

  /** The contents of the first `k` batches. */
  function ContentsTo(batches: seq<seq<Record>>, k: nat): seq<Record>
    requires k <= |batches|
  {
    if k == 0 then [] else ContentsTo(batches, k - 1) + batches[k - 1]
  }

  lemma {:induction false} ContentsToIsContents(batches: seq<seq<Record>>, k: nat)
    requires k <= |batches|
    ensures ContentsTo(batches, k) == Contents(batches[..k])
  {
    if k > 0 {
      ContentsToIsContents(batches, k - 1);
      assert batches[..k][..k - 1] == batches[..k - 1];
    }
  }

  lemma {:induction false} ContentsToGrows(batches: seq<seq<Record>>, k: nat, n: nat)
    requires k <= n <= |batches|
    ensures ContentsTo(batches, k) <= ContentsTo(batches, n)
  {
    if k < n {
      ContentsToGrows(batches, k, n - 1);
    }
  }

  /** A full page is not changed by the batches that follow. */
  lemma FullPageIsFinal(batches: seq<seq<Record>>, k: nat, offset: nat, count: nat)
    requires k <= |batches| && |Slice(ContentsTo(batches, k), offset, count)| >= count
    ensures Slice(ContentsTo(batches, k), offset, count) == Slice(Contents(batches), offset, count)
  {
    ContentsToGrows(batches, k, |batches|);
    ContentsToIsContents(batches, |batches|);
    assert batches[..|batches|] == batches;
    var before, all := ContentsTo(batches, k), Contents(batches);
    SliceIgnoresWhatFollows(before, all[|before|..], offset, count);
    assert all == before + all[|before|..];
  }

  /** What a complete root offers its readers. */
  ghost predicate Served(root: Root) {
    && root.manifest == EntriesOf(root.batches) && |root.dependencies| == |root.manifest|
    && root.header.contentCount == |Contents(root.batches)|
  }

  /** The batch walk: skips whole batches before the offset, stops once the page is full. */
  method ReadContents(manifest: seq<Entry>, batches: seq<seq<Record>>, offset: nat, count: nat)
    returns (contents: Option<seq<Record>>)
    requires manifest == EntriesOf(batches) && count >= 1
    ensures contents == Some(Slice(Contents(batches), offset, count))
  {
    var found: seq<Record>, cursorOffset: nat, k: nat := [], 0, 0;
    while k < |manifest|
      invariant k <= |batches| && cursorOffset == |ContentsTo(batches, k)|
      invariant found == Slice(ContentsTo(batches, k), offset, count)
    {
      var entry := manifest[k];
      EntryAt(batches, k);
      var batchEnd := cursorOffset + entry.recordCount;
      if batchEnd <= offset {
        cursorOffset, k := batchEnd, k + 1;
        continue;
      }
      if k >= |batches| || batches[k] != entry.digest {
        return None;
      }
      SliceAcrossBatch(ContentsTo(batches, k), batches[k], offset, count);
      var records := batches[k][if offset > cursorOffset then offset - cursorOffset else 0..];
      found := found + records[..Min(|records|, count - |found|)];
      cursorOffset, k := batchEnd, k + 1;
      if |found| >= count {
        FullPageIsFinal(batches, k, offset, count);
        return Some(found);
      }
    }
    ContentsToIsContents(batches, |batches|);
    assert batches[..|batches|] == batches;
    return Some(found);
  }

  ghost predicate Serves(w: World) {
    forall id :: id in w.roots && w.roots[id].state.Complete? ==> Served(w.roots[id])
  }

  /** Every reachable store serves its complete snapshots: no batch row is missing or altered. */
  lemma ReachableStoreServes(ops: seq<Op>)
    ensures Serves(Run(EMPTY, ops))
  {
    RunKeepsInv(EMPTY, ops);
    var w := Run(EMPTY, ops);
    forall id | id in w.roots && w.roots[id].state.Complete? ensures Served(w.roots[id]) {
      assert SoundRoot(w.roots[id]);
    }
  }

  /** `getPublicPackAtTime`, for a cursor whose signature and binding have been checked. */
  method GetPublicPack(w: World, pack: Key, cursor: Option<Cursor>, count: nat, providerAvailable: bool)
    returns (r: Result<Page, ReadError>)
    requires Serves(w) && count >= 1
    ensures r == Refused(PackNotFound) <==> pack !in w.heads
    ensures pack in w.heads && cursor.Some? && cursor.value.offset < 1 ==> r == Refused(CursorExpired)
    ensures pack in w.heads && (cursor.Some? ==> cursor.value.offset >= 1) ==>
              var id := PinnedSnapshot(w, pack, cursor);
              var offset := if cursor.Some? then cursor.value.offset else 0;
              if !Readable(w, pack, id) then
                r == Refused(if id == w.heads[pack].active then CatalogUnavailable else CursorExpired)
              else if !providerAvailable then r == Refused(CatalogUnavailable)
              else
                var contents := Contents(w.roots[id].batches);
                && r.Success? && r.value.snapshot == id
                && r.value.contents == Slice(contents, offset, count)
                && r.value.next == if offset + |r.value.contents| < |contents|
                                   then Some(Cursor(id, offset + |r.value.contents|)) else None
  {
    if pack !in w.heads {
      return Refused(PackNotFound);
    }
    var id, offset: nat := w.heads[pack].active, 0;
    if cursor.Some? {
      if cursor.value.offset < 1 {
        return Refused(CursorExpired);
      }
      id, offset := cursor.value.snapshot, cursor.value.offset;
    }
    if !Readable(w, pack, id) {
      return Refused(if id == w.heads[pack].active then CatalogUnavailable else CursorExpired);
    }
    var root := w.roots[id];
    assert Served(root);
    var contents := ReadContents(root.manifest, root.batches, offset, count);
    if contents.None? || |root.dependencies| != |root.manifest| || !providerAvailable {
      return Refused(CatalogUnavailable);
    }
    var nextOffset := offset + |contents.value|;
    return Success(Page(id, contents.value,
                        if nextOffset < root.header.contentCount then Some(Cursor(id, nextOffset)) else None));
  }

  // ----- A pinned snapshot over a run -----

  /** The store after the first `n` operations. */
  function StoreAt(ops: seq<Op>, n: nat): World
    requires n <= |ops|
  {
    Run(EMPTY, ops[..n])
  }

  lemma StoreAfterOne(ops: seq<Op>, n: nat)
    requires n < |ops|
    ensures StoreAt(ops, n + 1) == Next(StoreAt(ops, n), ops[n])
  {
    assert ops[..n + 1][..n] == ops[..n];
  }

  /** Operation `k` blocks the snapshot. */
  predicate Blocks(ops: seq<Op>, k: nat, id: Key)
    requires k < |ops|
  {
    ops[k].Block? && ops[k].id == id && BlockStep(StoreAt(ops, k), ops[k]).1.Applied?
  }

  predicate BlockedBetween(ops: seq<Op>, m: nat, n: nat, id: Key)
    requires n <= |ops|
  {
    exists k :: m <= k < n && Blocks(ops, k, id)
  }

  /** The same snapshot of the same pack with the same contents, complete or blocked. */
  ghost predicate SameSnapshot(w: World, w': World, id: Key) {
    && id in w.roots && id in w'.roots
    && w'.roots[id].pack == w.roots[id].pack && w'.roots[id].batches == w.roots[id].batches
    && !w'.roots[id].state.Staging?
  }

  /** A complete snapshot never changes, but for a block; a blocked one never becomes readable again. */
  lemma CompleteIsImmutable(w: World, op: Op, id: Key)
    requires id in w.roots && !w.roots[id].state.Staging?
    ensures SameSnapshot(w, Next(w, op), id)
    ensures Next(w, op).roots[id].state.Complete? <==>
            w.roots[id].state.Complete? && !(op.Block? && op.id == id && BlockStep(w, op).1.Applied?)
  {
  }

  /** Over a stretch of any run the pinned snapshot stays as it was, readable exactly while it is not blocked. */
  lemma {:induction false} PinnedOverARun(ops: seq<Op>, m: nat, n: nat, id: Key)
    requires m <= n <= |ops| && id in StoreAt(ops, m).roots && StoreAt(ops, m).roots[id].state.Complete?
    ensures SameSnapshot(StoreAt(ops, m), StoreAt(ops, n), id)
    ensures StoreAt(ops, n).roots[id].state.Complete? <==> !BlockedBetween(ops, m, n, id)
    decreases n
  {
    if m < n {
      PinnedOverARun(ops, m, n - 1, id);
      StoreAfterOne(ops, n - 1);
      CompleteIsImmutable(StoreAt(ops, n - 1), ops[n - 1], id);
      BlockedLater(ops, m, n, id);
    }
  }

  lemma BlockedLater(ops: seq<Op>, m: nat, n: nat, id: Key)
    requires m < n <= |ops|
    ensures BlockedBetween(ops, m, n, id) <==> BlockedBetween(ops, m, n - 1, id) || Blocks(ops, n - 1, id)
  {
  }

  lemma {:induction false} HeadStays(ops: seq<Op>, m: nat, n: nat, pack: Key)
    requires m <= n <= |ops| && pack in StoreAt(ops, m).heads
    ensures pack in StoreAt(ops, n).heads
    decreases n
  {
    if m < n {
      HeadStays(ops, m, n - 1, pack);
      StoreAfterOne(ops, n - 1);
      NextIsMonotone(StoreAt(ops, n - 1), ops[n - 1], pack);
    }
  }

  lemma ActiveIsReadable(ops: seq<Op>, n: nat, pack: Key)
    requires n <= |ops| && pack in StoreAt(ops, n).heads
    ensures Readable(StoreAt(ops, n), pack, StoreAt(ops, n).heads[pack].active)
  {
    ActiveSnapshotIsWhole(ops[..n], pack);
  }

  /** Request `i` reads the store as it is after `at(i)` operations. */
  ghost predicate InOrderOfTime(ops: seq<Op>, at: nat -> nat) {
    forall i: nat, j: nat :: i <= j ==> at(i) <= at(j) <= |ops|
  }

  /**
   * What the request that pages on from `offset` meets: the snapshot as it was pinned, or, once blocked,
   * an expired cursor.
   */
  lemma PinnedRequest(ops: seq<Op>, m: nat, n: nat, pack: Key)
    requires m <= n <= |ops| && pack in StoreAt(ops, m).heads
    ensures var id := StoreAt(ops, m).heads[pack].active;
            && pack in StoreAt(ops, n).heads && Serves(StoreAt(ops, n))
            && id in StoreAt(ops, n).roots && id in StoreAt(ops, m).roots
            && (Readable(StoreAt(ops, n), pack, id) <==> !BlockedBetween(ops, m, n, id))
            && (!Readable(StoreAt(ops, n), pack, id) ==> StoreAt(ops, n).heads[pack].active != id)
            && StoreAt(ops, n).roots[id].batches == StoreAt(ops, m).roots[id].batches
  {
    ActiveIsReadable(ops, m, pack);
    PinnedOverARun(ops, m, n, StoreAt(ops, m).heads[pack].active);
    HeadStays(ops, m, n, pack);
    ReachableStoreServes(ops[..n]);
    ActiveIsReadable(ops, n, pack);
  }

  /**
   * Following contents cursors while any operations change the store between the requests. The
   * traversal terminates. It yields exactly the contents of the snapshot that was active at the first
   * request, whatever the head did since; or it ends early with a strict prefix of them, exactly if
   * that snapshot was blocked, or the provider's profile was unavailable, by the last request.
   */
  method TraverseContents(ops: seq<Op>, at: nat -> nat, available: nat -> bool, pack: Key, count: nat)
    returns (all: seq<Record>, requests: nat, failure: Option<ReadError>)
    requires count >= 1 && InOrderOfTime(ops, at) && at(0) <= |ops| && pack in StoreAt(ops, at(0)).heads
    ensures requests >= 1 && at(0) <= at(requests - 1) <= |ops|
    ensures var id := StoreAt(ops, at(0)).heads[pack].active;
            && id in StoreAt(ops, at(0)).roots
            && var contents := Contents(StoreAt(ops, at(0)).roots[id].batches);
               && all <= contents
               && (failure.None? ==> all == contents)
               && (failure.Some? ==> all == [] || |all| < |contents|)
               && (failure == Some(CursorExpired) <==> BlockedBetween(ops, at(0), at(requests - 1), id))
               && (failure == Some(CatalogUnavailable) <==>
                     !BlockedBetween(ops, at(0), at(requests - 1), id) && !available(requests - 1))
               && failure != Some(PackNotFound)
  {
    ghost var m := at(0);
    ghost var id := StoreAt(ops, m).heads[pack].active;
    ActiveIsReadable(ops, m, pack);
    ghost var contents := Contents(StoreAt(ops, m).roots[id].batches);
    var cursor: Option<Cursor>, i: nat := None, 0;
    all := [];
    while true
      invariant |all| <= |contents| && all == contents[..|all|]
      invariant cursor == if i == 0 then None else Some(Cursor(id, |all|))
      invariant i == 0 ==> all == []
      invariant i > 0 ==> 1 <= |all| < |contents|
      decreases |contents| - |all|, if i == 0 then 1 else 0
    {
      assert at(0) <= at(i) <= |ops|;
      PinnedRequest(ops, m, at(i), pack);
      var page := GetPublicPack(StoreAt(ops, at(i)), pack, cursor, count, available(i));
      if page.Refused? {
        return all, i + 1, Some(page.error);
      }
      all := all + page.value.contents;
      if page.value.next.None? {
        return all, i + 1, None;
      }
      cursor, i := page.value.next, i + 1;
    }
  }
}
