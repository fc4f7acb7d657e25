/**
 * What list pages answer, head by head: in which order heads come, which are left after a cursor,
 * where a page stops and where the next one starts. Everything is stated on the fields of the heads.
 */
module KeysetAnswers {
  import opened Prelude
  import opened KeysetOrder
  import opened KeysetScan
  import opened Lists
  import T = KeysetTraversal

  /** The field a list is sorted by. */
  function Field(h: Head, sort: Sort): int {
    match sort
    case Title => h.title
    case Price => h.price
    case Ev => h.ev
    case TopChase => h.topChase
  }

  /** `(key, id)` comes before `(key', id')`: by key, then by id, both the other way round when descending. */
  predicate ComesBefore(key: int, id: Key, key': int, id': Key, direction: Direction) {
    match direction
    case Asc => key < key' || (key == key' && id < id')
    case Desc => key > key' || (key == key' && id > id')
  }

  lemma PrecedesOnFields(a: Position, b: Position, direction: Direction)
    ensures Precedes(a, b, direction) <==> ComesBefore(a.sortKey, a.id, b.sortKey, b.id, direction)
    ensures Compare(a, b, direction) > 0 <==> ComesBefore(b.sortKey, b.id, a.sortKey, a.id, direction)
  {
  }

  lemma PositionOnFields(h: Head, sort: Sort)
    ensures PositionOf(h, sort) == Position(Field(h, sort), h.id)
  {
  }

  /** A list is ordered exactly if each head comes before every later one. */
  lemma ListsAreSorted(s: seq<Head>, sort: Sort, direction: Direction)
    ensures Ordered(s, sort, direction) <==>
            forall i, j :: 0 <= i < j < |s| ==>
                             ComesBefore(Field(s[i], sort), s[i].id, Field(s[j], sort), s[j].id, direction)
  {
    forall a: Position, b: Position
      ensures Precedes(a, b, direction) <==> ComesBefore(a.sortKey, a.id, b.sortKey, b.id, direction)
    {
      PrecedesOnFields(a, b, direction);
    }
    if Ordered(s, sort, direction) {
      forall i, j | 0 <= i < j < |s|
        ensures ComesBefore(Field(s[i], sort), s[i].id, Field(s[j], sort), s[j].id, direction)
      {
        assert Precedes(PositionOf(s[i], sort), PositionOf(s[j], sort), direction);
      }
    }
  }

  /** An index is read as it is, or from its end. */
  lemma ListIsTheIndex(index: seq<Head>, direction: Direction, i: nat)
    requires i < |index|
    ensures |InOrder(index, direction)| == |index|
    ensures InOrder(index, direction)[i] == index[if direction.Asc? then i else |index| - 1 - i]
  {
  }

  /** After a cursor exactly the heads that come after it are left, in order. */
  lemma RestComesAfter(index: seq<Head>, position: Option<Position>, sort: Sort, direction: Direction, h: Head)
    requires Ordered(index, sort, Asc)
    ensures h in Remaining(index, position, sort, direction) <==>
            && h in index
            && (position.Some? ==>
                  ComesBefore(position.value.sortKey, position.value.id, Field(h, sort), h.id, direction))
    ensures Ordered(Remaining(index, position, sort, direction), sort, direction)
  {
    T.RemainingIsOrdered(index, position, sort, direction);
    PositionOnFields(h, sort);
    if position.Some? {
      PrecedesOnFields(position.value, PositionOf(h, sort), direction);
    }
  }

  /** The page ends at the match after a full one, at the end of the budget, or at the end of the list. */
  predicate EndsAt(page: Page, list: seq<Head>, matches: Head -> bool, pageSize: nat, budget: nat, cut: nat)
    requires cut <= |list|
  {
    if page.scanned > cut then
      && page.scanned <= |list| && page.scanned <= budget && |page.items| == pageSize && matches(list[page.scanned - 1])
      && |Filter(list[..page.scanned], matches)| == pageSize + 1
    else if page.hasMore then page.scanned == cut == budget
    else page.scanned == cut == |list| && (|list| < budget || |list| == 0)
  }

  /**
   * A page lists every match up to where it is cut, at most as many as it holds; if there may be more it
   * resumes at the last head it settled.
   */
  lemma PageIsCut(page: Page, list: seq<Head>, matches: Head -> bool, sort: Sort, pageSize: nat, scanLimit: nat)
    returns (cut: nat)
    requires IsPage(page, list, matches, sort, pageSize, scanLimit)
    ensures cut <= |list| && page.items == Filter(list[..cut], matches) && |page.items| <= pageSize
    ensures EndsAt(page, list, matches, pageSize, if scanLimit < 1 then 1 else scanLimit, cut)
    ensures page.resume.Some? <==> page.hasMore
    ensures page.hasMore ==> 0 < cut && page.resume == Some(Position(Field(list[cut - 1], sort), list[cut - 1].id))
    ensures page.scanned > cut ==> page.hasMore && cut > 0 && matches(list[cut - 1])
  {
    cut :| Cuts(page, list, matches, sort, pageSize, scanLimit, cut);
    MatchingIsFilter(list, matches, cut);
    if page.scanned > cut {
      MatchingIsFilter(list, matches, page.scanned);
    }
  }
}
