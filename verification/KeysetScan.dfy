/**
 * `scanPackHeads`: one page of an index scan that continues after a cursor, filters as it reads
 * and stops at a full page or at its scan budget; and the lists that following its cursors yields.
 */
module KeysetScan {
  import opened Prelude
  import opened KeysetOrder
  import opened Lists

  datatype Page = Page(items: seq<Head>, hasMore: bool, scanned: nat, resume: Option<Position>)

  // ----- The two index ranges after a cursor -----

  predicate TieBeyond(h: Head, after: Position, sort: Sort, direction: Direction) {
    SortKey(h, sort) == after.sortKey && (if direction.Asc? then h.id > after.id else h.id < after.id)
  }

  predicate KeyBeyond(h: Head, after: Position, sort: Sort, direction: Direction) {
    if direction.Asc? then SortKey(h, sort) > after.sortKey else SortKey(h, sort) < after.sortKey
  }

  predicate Beyond(h: Head, position: Option<Position>, sort: Sort, direction: Direction) {
    position.Some? ==> Precedes(position.value, PositionOf(h, sort), direction)
  }

  function Segments(index: seq<Head>, position: Option<Position>, sort: Sort, direction: Direction): seq<seq<Head>> {
    match position
    case None => [InOrder(index, direction)]
    case Some(after) =>
      [Filter(InOrder(index, direction), (h: Head) => TieBeyond(h, after, sort, direction)),
       Filter(InOrder(index, direction), (h: Head) => KeyBeyond(h, after, sort, direction))]
  }

  function Flatten(segments: seq<seq<Head>>): seq<Head> {
    if segments == [] then [] else Flatten(segments[..|segments| - 1]) + segments[|segments| - 1]
  }

  lemma FlattenTwo(a: seq<Head>, b: seq<Head>)
    ensures Flatten([a, b]) == a + b
  {
    assert [a, b][..1] == [a] && [a][..0] == [];
    assert Flatten([a]) == Flatten([a][..0]) + a;
  }

  /** The heads a request after `position` has still to list, in order. */
  function Remaining(index: seq<Head>, position: Option<Position>, sort: Sort, direction: Direction): seq<Head> {
    Filter(InOrder(index, direction), (h: Head) => Beyond(h, position, sort, direction))
  }

  lemma SegmentsAreOrdered(list: seq<Head>, after: Position, sort: Sort, direction: Direction)
    requires Ordered(list, sort, direction)
    ensures Ordered(Filter(list, (h: Head) => TieBeyond(h, after, sort, direction))
                    + Filter(list, (h: Head) => KeyBeyond(h, after, sort, direction)), sort, direction)
  {
    var tie, key :=
      (h: Head) => TieBeyond(h, after, sort, direction), (h: Head) => KeyBeyond(h, after, sort, direction);
    FilterKeepsOrder(list, tie, sort, direction);
    FilterKeepsOrder(list, key, sort, direction);
    FilterMembers(list, tie);
    FilterMembers(list, key);
    forall x, y | x in Filter(list, tie) && y in Filter(list, key)
      ensures Precedes(PositionOf(x, sort), PositionOf(y, sort), direction)
    {
      assert tie(x) && key(y);
    }
  }

  lemma RangesAreTheRest(list: seq<Head>, after: Position, sort: Sort, direction: Direction)
    requires Ordered(list, sort, direction)
    ensures Filter(list, (h: Head) => TieBeyond(h, after, sort, direction))
            + Filter(list, (h: Head) => KeyBeyond(h, after, sort, direction))
            == Filter(list, (h: Head) => Beyond(h, Some(after), sort, direction))
  {
    var tie, key :=
      (h: Head) => TieBeyond(h, after, sort, direction), (h: Head) => KeyBeyond(h, after, sort, direction);
    var rest := (h: Head) => Beyond(h, Some(after), sort, direction);
    SegmentsAreOrdered(list, after, sort, direction);
    FilterKeepsOrder(list, rest, sort, direction);
    FilterMembers(list, tie);
    FilterMembers(list, key);
    FilterMembers(list, rest);
    OrderedListsAgree(Filter(list, tie) + Filter(list, key), Filter(list, rest), sort, direction);
  }

  /** The tie range followed by the key range is exactly the list strictly after the cursor. */
  lemma SegmentsAreTheRest(index: seq<Head>, position: Option<Position>, sort: Sort, direction: Direction)
    requires Ordered(index, sort, Asc)
    ensures Flatten(Segments(index, position, sort, direction)) == Remaining(index, position, sort, direction)
  {
    var list := InOrder(index, direction);
    InOrderIsOrdered(index, sort, direction);
    match position {
      case None =>
        FilterAll(list, (h: Head) => Beyond(h, None, sort, direction));
        assert [list][..0] == [];
      case Some(after) =>
        RangesAreTheRest(list, after, sort, direction);
        FlattenTwo(Filter(list, (h: Head) => TieBeyond(h, after, sort, direction)),
                   Filter(list, (h: Head) => KeyBeyond(h, after, sort, direction)));
    }
  }

  // ----- One page -----

  function Budget(scanLimit: nat): nat {
    if scanLimit == 0 then 1 else scanLimit
  }

  /** How many heads of `list` the budget reaches. */
  function Reach(list: seq<Head>, scanLimit: nat): nat {
    if |list| < Budget(scanLimit) then |list| else Budget(scanLimit)
  }

  /** The matching heads among the first `n`. */
  function Matching(list: seq<Head>, matches: Head -> bool, n: nat): (r: seq<Head>)
    requires n <= |list|
  {
    if n == 0 then [] else Matching(list, matches, n - 1) + (if matches(list[n - 1]) then [list[n - 1]] else [])
  }

  lemma {:induction false} MatchingIsFilter(list: seq<Head>, matches: Head -> bool, n: nat)
    requires n <= |list|
    ensures Matching(list, matches, n) == Filter(list[..n], matches)
  {
    if n > 0 {
      MatchingIsFilter(list, matches, n - 1);
      FilterStep(list, n - 1, matches);
    }
  }

  lemma {:induction false} MatchingGrows(list: seq<Head>, matches: Head -> bool, i: nat, j: nat)
    requires i <= j <= |list|
    ensures Matching(list, matches, i) <= Matching(list, matches, j)
  {
    if i < j {
      MatchingGrows(list, matches, i, j - 1);
    }
  }

  /** The page that `list` yields, where `cut` heads of it are settled. */
  ghost predicate Cuts(page: Page, list: seq<Head>, matches: Head -> bool, sort: Sort, pageSize: nat, scanLimit: nat,
                       cut: nat)
  {
    && cut <= |list|
    && page.items == Matching(list, matches, cut) && |page.items| <= pageSize
    && page.hasMore == page.resume.Some?
    && (page.hasMore ==> cut > 0 && page.resume == Some(PositionOf(list[cut - 1], sort)))
    && cut <= page.scanned <= Budget(scanLimit) && page.scanned <= |list|
    && if |Matching(list, matches, Reach(list, scanLimit))| > pageSize then
         page.hasMore && |page.items| == pageSize && matches(list[cut - 1]) && cut < page.scanned
         && matches(list[page.scanned - 1]) && |Matching(list, matches, page.scanned)| == pageSize + 1
       else if |list| >= Budget(scanLimit) then page.hasMore && cut == page.scanned == Budget(scanLimit)
       else !page.hasMore && cut == page.scanned == |list|
  }

  ghost predicate IsPage(page: Page, list: seq<Head>, matches: Head -> bool, sort: Sort, pageSize: nat,
                         scanLimit: nat)
  {
    exists cut: nat :: Cuts(page, list, matches, sort, pageSize, scanLimit, cut)
  }

  /**
   * A page says there is more exactly when a further match was read, or when the budget ran out, even at
   * the last head.
   */
  lemma HasMoreExactly(page: Page, list: seq<Head>, matches: Head -> bool, sort: Sort, pageSize: nat, scanLimit: nat)
    requires IsPage(page, list, matches, sort, pageSize, scanLimit)
    ensures page.hasMore <==> |list| >= Budget(scanLimit) || |Filter(list, matches)| > pageSize
  {
    MatchingIsFilter(list, matches, |list|);
    assert list[..|list|] == list;
  }

  /** A further match was read: among the heads scanned more match than the page holds. */
  predicate FurtherMatchRead(page: Page, list: seq<Head>, matches: Head -> bool, pageSize: nat) {
    page.scanned <= |list| && |Filter(list[..page.scanned], matches)| > pageSize
  }

  lemma LaterMatchCounts(list: seq<Head>, matches: Head -> bool, i: nat, j: nat)
    requires i < j <= |list| && matches(list[j - 1])
    ensures |Matching(list, matches, j)| > |Matching(list, matches, i)|
  {
    MatchingGrows(list, matches, i, j - 1);
  }

  lemma HasMoreByCounts(page: Page, list: seq<Head>, matches: Head -> bool, sort: Sort, pageSize: nat, scanLimit: nat)
    requires IsPage(page, list, matches, sort, pageSize, scanLimit)
    ensures page.scanned <= |list|
    ensures (page.hasMore ==> |Matching(list, matches, page.scanned)| > pageSize) <==>
            (|list| < Budget(scanLimit) || |Matching(list, matches, Reach(list, scanLimit))| > pageSize)
  {
    var cut: nat :| Cuts(page, list, matches, sort, pageSize, scanLimit, cut);
    if |Matching(list, matches, Reach(list, scanLimit))| > pageSize {
      LaterMatchCounts(list, matches, cut, page.scanned);
    }
  }

  /**
   * The documented meaning, that a page says there is more only when a further match was read, holds
   * exactly if the budget outlasts the list or reaches one match more than the page holds.
   */
  lemma HasMoreMeansAFurtherMatchIff(page: Page, list: seq<Head>, matches: Head -> bool, sort: Sort, pageSize: nat,
                                     scanLimit: nat)
    requires IsPage(page, list, matches, sort, pageSize, scanLimit)
    ensures (page.hasMore ==> FurtherMatchRead(page, list, matches, pageSize)) <==>
            (|list| < Budget(scanLimit) || |Filter(list[..Reach(list, scanLimit)], matches)| > pageSize)
  {
    HasMoreByCounts(page, list, matches, sort, pageSize, scanLimit);
    MatchingIsFilter(list, matches, page.scanned);
    MatchingIsFilter(list, matches, Reach(list, scanLimit));
  }

  /**
   * One head that matches, read with a page of one and a budget of one: the page says there is more, and
   * there is none.
   */
  lemma HasMoreAtTheLastHead(page: Page, h: Head, matches: Head -> bool, sort: Sort)
    requires IsPage(page, [h], matches, sort, 1, 1) && matches(h)
    ensures page == Page([h], true, 1, Some(PositionOf(h, sort))) && !FurtherMatchRead(page, [h], matches, 1)
    ensures Filter([h], matches) == page.items
  {
    assert Matching([h], matches, 1) == Matching([h], matches, 0) + [h];
    MatchingIsFilter([h], matches, 1);
    assert [h][..1] == [h];
  }

  // ----- The scanning loop -----

  /** After `scanned` heads, the last match being the `settled`-th one read. */
  ghost predicate Scanning(list: seq<Head>, matches: Head -> bool, items: seq<Head>, scanned: nat, settled: nat,
                           pageSize: nat)
  {
    && settled <= scanned <= |list| && |items| <= pageSize
    && items == Matching(list, matches, scanned) && items == Matching(list, matches, settled)
    && (items != [] ==> settled > 0 && items[|items| - 1] == list[settled - 1] && matches(list[settled - 1]))
  }

  /** The next match finds the page full. */
  lemma FullPage(page: Page, list: seq<Head>, matches: Head -> bool, sort: Sort, pageSize: nat, scanLimit: nat,
                 before: nat, settled: nat)
    requires before < |list| && page.scanned == before + 1 <= Budget(scanLimit) && pageSize > 0
    requires Scanning(list, matches, page.items, before, settled, pageSize)
    requires matches(list[before]) && |page.items| == pageSize
    requires page.hasMore && page.resume == Some(PositionOf(page.items[pageSize - 1], sort))
    ensures IsPage(page, list, matches, sort, pageSize, scanLimit)
  {
    MatchingGrows(list, matches, page.scanned, Reach(list, scanLimit));
    assert Cuts(page, list, matches, sort, pageSize, scanLimit, settled);
  }

  /** The budget ends here. */
  lemma CutShort(page: Page, list: seq<Head>, matches: Head -> bool, sort: Sort, pageSize: nat, scanLimit: nat,
                 settled: nat)
    requires 0 < page.scanned == Budget(scanLimit)
             && Scanning(list, matches, page.items, page.scanned, settled, pageSize)
    requires page.hasMore && page.resume == Some(PositionOf(list[page.scanned - 1], sort))
    ensures IsPage(page, list, matches, sort, pageSize, scanLimit)
  {
    assert Cuts(page, list, matches, sort, pageSize, scanLimit, page.scanned);
  }

  /** The list ends within the budget. */
  lemma LastPage(page: Page, list: seq<Head>, matches: Head -> bool, sort: Sort, pageSize: nat, scanLimit: nat,
                 settled: nat)
    requires page.scanned == |list| && (|list| == 0 || |list| < scanLimit)
    requires Scanning(list, matches, page.items, page.scanned, settled, pageSize)
    requires !page.hasMore && page.resume == None
    ensures IsPage(page, list, matches, sort, pageSize, scanLimit)
  {
    assert Cuts(page, list, matches, sort, pageSize, scanLimit, |list|);
  }

  lemma ScanStep(list: seq<Head>, matches: Head -> bool, items: seq<Head>, scanned: nat, settled: nat, pageSize: nat,
                 head: Head)
    requires Scanning(list, matches, items, scanned, settled, pageSize) && scanned < |list| && head == list[scanned]
    ensures !matches(head) ==> Scanning(list, matches, items, scanned + 1, settled, pageSize)
    ensures matches(head) && |items| < pageSize ==>
              Scanning(list, matches, items + [head], scanned + 1, scanned + 1, pageSize)
  {
  }

  /** The inner loop: the heads of one index range, ending early with a page that continues. */
  method ScanSegment(segment: seq<Head>, sort: Sort, pageSize: nat, matches: Head -> bool, scanLimit: nat,
                     found: seq<Head>, start: nat, ghost list: seq<Head>, ghost last: nat)
    returns (page: Option<Page>, items: seq<Head>, scanned: nat, ghost settled: nat)
    requires pageSize >= 1 && Scanning(list, matches, found, start, last, pageSize) && (start == 0 || start < scanLimit)
    requires start + |segment| <= |list| && forall k :: 0 <= k < |segment| ==> segment[k] == list[start + k]
    ensures page.Some? ==> IsPage(page.value, list, matches, sort, pageSize, scanLimit)
    ensures page.None? ==>
              && Scanning(list, matches, items, scanned, settled, pageSize)
              && scanned == start + |segment| && (scanned == 0 || scanned < scanLimit)
  {
    items, scanned, settled := found, start, last;
    for i := 0 to |segment|
      invariant Scanning(list, matches, items, scanned, settled, pageSize)
      invariant scanned == start + i && (scanned == 0 || scanned < scanLimit)
    {
      var head := segment[i];
      assert head == list[scanned];
      ScanStep(list, matches, items, scanned, settled, pageSize, head);
      ghost var before := scanned;
      scanned := scanned + 1;
      if matches(head) {
        if |items| == pageSize {
          page := Some(Page(items, true, scanned, Some(PositionOf(items[|items| - 1], sort))));
          FullPage(page.value, list, matches, sort, pageSize, scanLimit, before, settled);
          return;
        }
        items := items + [head];
        settled := scanned;
      }
      if scanned >= scanLimit {
        page := Some(Page(items, true, scanned, Some(PositionOf(head, sort))));
        CutShort(page.value, list, matches, sort, pageSize, scanLimit, settled);
        return;
      }
    }
    page := None;
  }

  /** The outer loop, over the index ranges. */
  method ScanSegments(segments: seq<seq<Head>>, sort: Sort, pageSize: nat, matches: Head -> bool, scanLimit: nat)
    returns (page: Page)
    requires pageSize >= 1
    ensures IsPage(page, Flatten(segments), matches, sort, pageSize, scanLimit)
  {
    ghost var list := Flatten(segments);
    var items: seq<Head>, scanned: nat := [], 0;
    ghost var settled: nat := 0;
    for s := 0 to |segments|
      invariant Scanning(list, matches, items, scanned, settled, pageSize) && (scanned == 0 || scanned < scanLimit)
      invariant Flatten(segments[..s]) == list[..scanned]
    {
      SegmentAt(segments, s, list, scanned);
      var ended;
      ended, items, scanned, settled :=
        ScanSegment(segments[s], sort, pageSize, matches, scanLimit, items, scanned, list, settled);
      if ended.Some? {
        return ended.value;
      }
    }
    assert segments[..|segments|] == segments;
    page := Page(items, false, scanned, None);
    LastPage(page, list, matches, sort, pageSize, scanLimit, settled);
  }

  method ScanPackHeads(index: seq<Head>, sort: Sort, direction: Direction, position: Option<Position>, pageSize: nat,
                       matches: Head -> bool, scanLimit: nat)
    returns (page: Page)
    requires pageSize >= 1 && Ordered(index, sort, Asc)
    ensures IsPage(page, Remaining(index, position, sort, direction), matches, sort, pageSize, scanLimit)
  {
    SegmentsAreTheRest(index, position, sort, direction);
    page := ScanSegments(Segments(index, position, sort, direction), sort, pageSize, matches, scanLimit);
  }

  /** The page of a one-head index, as the scan returns it: one match, a budget of one. */
  method ScanOneHead(h: Head, sort: Sort, direction: Direction, matches: Head -> bool) returns (page: Page)
    requires matches(h)
    ensures page == Page([h], true, 1, Some(PositionOf(h, sort)))
    ensures !FurtherMatchRead(page, [h], matches, 1) && Filter([h], matches) == page.items
  {
    page := ScanPackHeads([h], sort, direction, None, 1, matches, 1);
    assert Remaining([h], None, sort, direction) == [h];
    HasMoreAtTheLastHead(page, h, matches, sort);
  }

  lemma {:induction false} SegmentInList(segments: seq<seq<Head>>, s: nat)
    requires s < |segments|
    ensures Flatten(segments[..s]) + segments[s] <= Flatten(segments)
    decreases |segments|
  {
    if s < |segments| - 1 {
      SegmentInList(segments[..|segments| - 1], s);
      assert segments[..|segments| - 1][..s] == segments[..s];
    }
  }

  /** Segment `s` is the stretch of the flattened list that follows the earlier segments. */
  lemma SegmentAt(segments: seq<seq<Head>>, s: nat, list: seq<Head>, start: nat)
    requires s < |segments| && start <= |list|
    requires Flatten(segments) == list && Flatten(segments[..s]) == list[..start]
    ensures start + |segments[s]| <= |list| && forall k :: 0 <= k < |segments[s]| ==> segments[s][k] == list[start + k]
    ensures Flatten(segments[..s + 1]) == list[..start + |segments[s]|]
  {
    SegmentInList(segments, s);
    assert segments[..s + 1][..s] == segments[..s];
    assert list[..start] + segments[s] == list[..start + |segments[s]|];
    forall k | 0 <= k < |segments[s]| ensures segments[s][k] == list[start + k] {
      assert (list[..start] + segments[s])[start + k] == segments[s][k];
    }
  }
}
