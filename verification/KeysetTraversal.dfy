/**
 * Following list cursors to the end: every page is the stretch of the list between two cursors,
 * so a traversal neither repeats nor skips a head.
 */
module KeysetTraversal {
  import opened Prelude
  import opened KeysetOrder
  import opened Lists
  import opened KeysetScan

  // ----- One page is an interval -----

  lemma RemainingIsOrdered(index: seq<Head>, position: Option<Position>, sort: Sort, direction: Direction)
    requires Ordered(index, sort, Asc)
    ensures Ordered(Remaining(index, position, sort, direction), sort, direction)
    ensures forall h ::
              h in Remaining(index, position, sort, direction) <==> h in index && Beyond(h, position, sort, direction)
  {
    var rest := (h: Head) => Beyond(h, position, sort, direction);
    InOrderIsOrdered(index, sort, direction);
    FilterKeepsOrder(InOrder(index, direction), rest, sort, direction);
    FilterMembers(InOrder(index, direction), rest);
    SameMembers(InOrder(index, direction), index);
  }

  /** In an ordered list, the heads not after the `cut`-th one are the first `cut`. */
  lemma PrefixByPosition(list: seq<Head>, cut: nat, h: Head, sort: Sort, direction: Direction)
    requires Ordered(list, sort, direction) && 0 < cut <= |list| && h in list
    ensures h in list[..cut] <==> !Precedes(PositionOf(list[cut - 1], sort), PositionOf(h, sort), direction)
    ensures h in list[cut..] <==> Precedes(PositionOf(list[cut - 1], sort), PositionOf(h, sort), direction)
  {
    var i :| 0 <= i < |list| && list[i] == h;
    if i < cut {
      assert list[..cut][i] == h;
    } else {
      assert list[cut..][i - cut] == h;
    }
  }

  lemma CutByPosition(list: seq<Head>, cut: nat, sort: Sort, direction: Direction)
    requires Ordered(list, sort, direction) && 0 < cut <= |list|
    ensures forall h ::
              h in list[..cut] <==>
              h in list && !Precedes(PositionOf(list[cut - 1], sort), PositionOf(h, sort), direction)
  {
    forall h
      ensures h in list[..cut] <==>
              h in list && !Precedes(PositionOf(list[cut - 1], sort), PositionOf(h, sort), direction)
    {
      if h in list {
        PrefixByPosition(list, cut, h, sort, direction);
      }
    }
  }

  lemma PageItems(page: Page, list: seq<Head>, sort: Sort, direction: Direction, pageSize: nat, matches: Head -> bool,
                  scanLimit: nat)
    requires Ordered(list, sort, direction) && IsPage(page, list, matches, sort, pageSize, scanLimit)
    ensures Ordered(page.items, sort, direction)
    ensures forall h :: h in page.items <==>
                          h in list && matches(h) && (page.resume.Some? ==> !Beyond(h, page.resume, sort, direction))
    ensures page.resume.Some? ==> exists h :: h in list && page.resume == Some(PositionOf(h, sort))
  {
    var cut: nat :| Cuts(page, list, matches, sort, pageSize, scanLimit, cut);
    MatchingIsFilter(list, matches, cut);
    FilterKeepsOrder(list[..cut], matches, sort, direction);
    FilterMembers(list[..cut], matches);
    if page.resume.Some? {
      assert list[cut - 1] in list;
      CutByPosition(list, cut, sort, direction);
    } else {
      assert list[..cut] == list;
    }
  }

  /**
   * A page lists exactly the matching heads after its own cursor and not after the next one; the
   * next cursor, if any, lies strictly ahead.
   */
  lemma PageIsAnInterval(page: Page, index: seq<Head>, position: Option<Position>, sort: Sort, direction: Direction,
                         pageSize: nat, matches: Head -> bool, scanLimit: nat)
    requires Ordered(index, sort, Asc)
    requires IsPage(page, Remaining(index, position, sort, direction), matches, sort, pageSize, scanLimit)
    ensures Ordered(page.items, sort, direction)
    ensures forall h :: h in page.items <==>
                          && h in index && matches(h) && Beyond(h, position, sort, direction)
                          && (page.resume.Some? ==> !Beyond(h, page.resume, sort, direction))
    ensures page.resume.Some? && position.Some? ==> Precedes(position.value, page.resume.value, direction)
  {
    RemainingIsOrdered(index, position, sort, direction);
    PageItems(page, Remaining(index, position, sort, direction), sort, direction, pageSize, matches, scanLimit);
  }

  // ----- Following the cursors over an unchanging index -----

  /** The cursor of the `d`-th head leaves exactly the heads behind it. */
  lemma RemainingAfter(index: seq<Head>, d: nat, sort: Sort, direction: Direction)
    requires Ordered(index, sort, Asc) && 0 < d <= |index|
    ensures |InOrder(index, direction)| == |index|
    ensures Remaining(index, Some(PositionOf(InOrder(index, direction)[d - 1], sort)), sort, direction)
            == InOrder(index, direction)[d..]
  {
    var list := InOrder(index, direction);
    InOrderIsOrdered(index, sort, direction);
    var position := Some(PositionOf(list[d - 1], sort));
    RemainingIsOrdered(index, position, sort, direction);
    forall h ensures h in list[d..] <==> h in Remaining(index, position, sort, direction) {
      assert h in multiset(list) <==> h in multiset(index);
      if h in list {
        PrefixByPosition(list, d, h, sort, direction);
      }
    }
    OrderedListsAgree(list[d..], Remaining(index, position, sort, direction), sort, direction);
  }

  lemma CutExtends(list: seq<Head>, done: nat, cut: nat, matches: Head -> bool)
    requires done + cut <= |list|
    ensures Filter(list[..done], matches) + Matching(list[done..], matches, cut) == Filter(list[..done + cut], matches)
  {
    MatchingIsFilter(list[done..], matches, cut);
    assert list[done..][..cut] == list[..done + cut][done..] && list[..done + cut][..done] == list[..done];
    FilterSplit(list[..done + cut], done, matches);
  }

  /** How far a page settles the list it was read from. */
  lemma SettledCut(page: Page, list: seq<Head>, sort: Sort, pageSize: nat, matches: Head -> bool, scanLimit: nat)
    returns (cut: nat)
    requires IsPage(page, list, matches, sort, pageSize, scanLimit)
    ensures cut <= |list| && page.items == Matching(list, matches, cut)
    ensures page.resume.None? ==> cut == |list|
    ensures page.resume.Some? ==> cut > 0 && page.resume == Some(PositionOf(list[cut - 1], sort))
  {
    cut :| Cuts(page, list, matches, sort, pageSize, scanLimit, cut);
  }

  lemma PageMoves(page: Page, list: seq<Head>, done: nat, sort: Sort, pageSize: nat, matches: Head -> bool,
                  scanLimit: nat)
    returns (next: nat)
    requires done <= |list| && IsPage(page, list[done..], matches, sort, pageSize, scanLimit)
    ensures done <= next <= |list|
    ensures Filter(list[..done], matches) + page.items == Filter(list[..next], matches)
    ensures page.resume.None? ==> next == |list|
    ensures page.resume.Some? ==> next > done && page.resume == Some(PositionOf(list[next - 1], sort))
  {
    var cut := SettledCut(page, list[done..], sort, pageSize, matches, scanLimit);
    next := done + cut;
    CutExtends(list, done, cut, matches);
  }

  /** One page moves the settled prefix of the list forward. */
  lemma PageAdvances(page: Page, index: seq<Head>, position: Option<Position>, done: nat, sort: Sort,
                     direction: Direction, pageSize: nat, matches: Head -> bool, scanLimit: nat)
    returns (next: nat)
    requires Ordered(index, sort, Asc) && done <= |index| && |InOrder(index, direction)| == |index|
    requires Remaining(index, position, sort, direction) == InOrder(index, direction)[done..]
    requires IsPage(page, Remaining(index, position, sort, direction), matches, sort, pageSize, scanLimit)
    ensures done <= next <= |index|
    ensures Filter(InOrder(index, direction)[..done], matches) + page.items ==
              Filter(InOrder(index, direction)[..next], matches)
    ensures page.resume.None? ==> next == |index|
    ensures page.resume.Some? ==>
              next > done && Remaining(index, page.resume, sort, direction) == InOrder(index, direction)[next..]
  {
    next := PageMoves(page, InOrder(index, direction), done, sort, pageSize, matches, scanLimit);
    if page.resume.Some? {
      RemainingAfter(index, next, sort, direction);
    }
  }

  /**
   * Following the cursor until there is none terminates, whatever the filter, page size and budget,
   * and lists exactly the filtered list, in order.
   */
  method Traverse(index: seq<Head>, sort: Sort, direction: Direction, pageSize: nat, matches: Head -> bool,
                  scanLimit: nat)
    returns (all: seq<Head>)
    requires pageSize >= 1 && Ordered(index, sort, Asc)
    ensures all == Filter(InOrder(index, direction), matches)
  {
    ghost var list := InOrder(index, direction);
    ghost var done: nat := 0;
    assert Remaining(index, None, sort, direction) == list[0..] by {
      FilterAll(list, (h: Head) => Beyond(h, None, sort, direction));
    }
    all := [];
    var position: Option<Position> := None;
    var more := true;
    while more
      invariant done <= |index| == |list|
      invariant more ==> Remaining(index, position, sort, direction) == list[done..]
      invariant !more ==> done == |index|
      invariant all == Filter(list[..done], matches)
      decreases |index| - done, more
    {
      var page := ScanPackHeads(index, sort, direction, position, pageSize, matches, scanLimit);
      done := PageAdvances(page, index, position, done, sort, direction, pageSize, matches, scanLimit);
      all := all + page.items;
      position := page.resume;
      more := position.Some?;
    }
    assert list[..done] == list;
  }

  // ----- Following the cursors while the heads change -----

  function StartOf(pages: seq<Page>, i: nat): Option<Position>
    requires i <= |pages|
  {
    if i == 0 then None else pages[i - 1].resume
  }

  /** The first `n` requests, each at the last one's cursor, over whatever the index holds by then. */
  ghost predicate Followed(indexes: seq<seq<Head>>, pages: seq<Page>, n: nat, sort: Sort, direction: Direction,
                           pageSize: nat, matches: Head -> bool, scanLimit: nat)
    requires n <= |indexes| && n <= |pages|
  {
    n > 0 ==>
      && Followed(indexes, pages, n - 1, sort, direction, pageSize, matches, scanLimit)
      && (n > 1 ==> pages[n - 2].resume.Some?)
      && Ordered(indexes[n - 1], sort, Asc)
      && IsPage(pages[n - 1], Remaining(indexes[n - 1], StartOf(pages, n - 1), sort, direction), matches, sort,
                pageSize, scanLimit)
  }

  /** What the first `n` pages list. */
  function Listed(pages: seq<Page>, n: nat): seq<Head>
    requires n <= |pages|
  {
    if n == 0 then [] else Listed(pages, n - 1) + pages[n - 1].items
  }

  /** Whether the first `n` pages have passed `h`. */
  predicate Passed(pages: seq<Page>, n: nat, h: Head, sort: Sort, direction: Direction)
    requires n <= |pages|
  {
    n > 0 && (pages[n - 1].resume.Some? ==> !Beyond(h, pages[n - 1].resume, sort, direction))
  }

  lemma PageListsOnce(page: Page, index: seq<Head>, position: Option<Position>, h: Head, sort: Sort,
                      direction: Direction, pageSize: nat, matches: Head -> bool, scanLimit: nat)
    requires Ordered(index, sort, Asc) && h in index && matches(h)
    requires IsPage(page, Remaining(index, position, sort, direction), matches, sort, pageSize, scanLimit)
    ensures multiset(page.items)[h] ==
            if Beyond(h, position, sort, direction)
               && (page.resume.Some? ==> !Beyond(h, page.resume, sort, direction)) then 1 else 0
    ensures page.resume.Some? && Beyond(h, page.resume, sort, direction) ==> Beyond(h, position, sort, direction)
  {
    PageIsAnInterval(page, index, position, sort, direction, pageSize, matches, scanLimit);
    OrderedOnce(page.items, h, sort, direction);
    if page.resume.Some? && position.Some? {
      PrecedesIsAStrictTotalOrder(position.value, page.resume.value, PositionOf(h, sort), direction);
    }
  }

  /**
   * However the index changes between requests, a matching head that keeps its place is listed
   * exactly once, as soon as the cursor has passed it, and never again.
   */
  lemma {:induction false} StableHeadListedOnce(indexes: seq<seq<Head>>, pages: seq<Page>, n: nat, h: Head, sort: Sort,
                                                direction: Direction, pageSize: nat, matches: Head -> bool,
                                                scanLimit: nat)
    requires n <= |pages| && n <= |indexes|
             && Followed(indexes, pages, n, sort, direction, pageSize, matches, scanLimit)
    requires matches(h) && forall i :: 0 <= i < n ==> h in indexes[i]
    ensures multiset(Listed(pages, n))[h] == if Passed(pages, n, h, sort, direction) then 1 else 0
  {
    if n > 0 {
      StableHeadListedOnce(indexes, pages, n - 1, h, sort, direction, pageSize, matches, scanLimit);
      PageListsOnce(pages[n - 1], indexes[n - 1], StartOf(pages, n - 1), h, sort, direction, pageSize, matches,
                    scanLimit);
    }
  }
}
