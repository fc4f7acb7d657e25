/** The catalog's sort order over pack heads, and filtering of ordered lists. */
module KeysetOrder {
  import opened Lists
  import opened Prelude

  /** The fields of an active pack head that the read model orders and joins by. */
  datatype Head = Head(
    id: Key, title: Key, price: int, ev: int, topChase: int, providerId: Key, snapshot: Key, retirement: Key,
    availability: Key)

  datatype Sort = Title | Price | Ev | TopChase
  datatype Direction = Asc | Desc

  /** `KeysetPosition`: where a cursor stands. */
  datatype Position = Position(sortKey: int, id: Key)

  function SortKey(h: Head, sort: Sort): int {
    match sort
    case Title => h.title
    case Price => h.price
    case Ev => h.ev
    case TopChase => h.topChase
  }

  function PositionOf(h: Head, sort: Sort): Position {
    Position(SortKey(h, sort), h.id)
  }

  function Sign(n: int): int {
    if n < 0 then -1 else if n > 0 then 1 else 0
  }

  /** `comparePackHeads`, on the positions it reads: sort key first, then pack id, both flipped for `desc`. */
  function Compare(l: Position, r: Position, direction: Direction): int {
    var sign := if direction.Asc? then 1 else -1;
    var byKey := l.sortKey - r.sortKey;
    sign * (if byKey != 0 then byKey else Sign(l.id - r.id))
  }

  predicate Precedes(l: Position, r: Position, direction: Direction) {
    Compare(l, r, direction) < 0
  }

  lemma PrecedesIsAStrictTotalOrder(a: Position, b: Position, c: Position, direction: Direction)
    ensures !Precedes(a, a, direction)
    ensures Precedes(a, b, direction) && Precedes(b, c, direction) ==> Precedes(a, c, direction)
    ensures a == b || Precedes(a, b, direction) || Precedes(b, a, direction)
    ensures Precedes(a, b, Asc) <==> Precedes(b, a, Desc)
    ensures Compare(a, b, direction) > 0 <==> Precedes(b, a, direction)
  {
  }

  predicate Ordered(s: seq<Head>, sort: Sort, direction: Direction) {
    forall i, j :: 0 <= i < j < |s| ==> Precedes(PositionOf(s[i], sort), PositionOf(s[j], sort), direction)
  }

  // ----- Filtering -----

  lemma {:induction false} FilterKeepsOrder(s: seq<Head>, p: Head -> bool, sort: Sort, direction: Direction)
    requires Ordered(s, sort, direction)
    ensures Ordered(Filter(s, p), sort, direction)
  {
    if s != [] {
      var init, last := s[..|s| - 1], s[|s| - 1];
      FilterKeepsOrder(init, p, sort, direction);
      FilterMembers(init, p);
      forall x | x in Filter(init, p) ensures Precedes(PositionOf(x, sort), PositionOf(last, sort), direction) {
        var i :| 0 <= i < |init| && init[i] == x;
        assert s[i] == x;
      }
    }
  }

  // ----- Reversal and sorted permutations -----

  function Reverse<T>(s: seq<T>): (r: seq<T>)
    ensures |r| == |s| && forall i :: 0 <= i < |s| ==> r[i] == s[|s| - 1 - i]
    ensures multiset(r) == multiset(s)
  {
    if s == [] then []
    else
      assert s == s[..|s| - 1] + [s[|s| - 1]];
      [s[|s| - 1]] + Reverse(s[..|s| - 1])
  }

  /** What an index scan returns: the ascending index, read forwards or backwards. */
  function InOrder(index: seq<Head>, direction: Direction): seq<Head> {
    if direction.Asc? then index else Reverse(index)
  }

  lemma InOrderIsOrdered(index: seq<Head>, sort: Sort, direction: Direction)
    requires Ordered(index, sort, Asc)
    ensures Ordered(InOrder(index, direction), sort, direction)
  {
    if direction.Desc? {
      var r := Reverse(index);
      forall i, j | 0 <= i < j < |r| ensures Precedes(PositionOf(r[i], sort), PositionOf(r[j], sort), Desc) {
        assert Precedes(PositionOf(index[|index| - 1 - j], sort), PositionOf(index[|index| - 1 - i], sort), Asc);
      }
    }
  }

  lemma FirstIsLeast(s: seq<Head>, x: Head, sort: Sort, direction: Direction)
    requires Ordered(s, sort, direction) && x in s
    ensures x == s[0] || Precedes(PositionOf(s[0], sort), PositionOf(x, sort), direction)
  {
    var i :| 0 <= i < |s| && s[i] == x;
    assert i > 0 ==> Precedes(PositionOf(s[0], sort), PositionOf(s[i], sort), direction);
  }

  lemma SameFirst(s: seq<Head>, t: seq<Head>, sort: Sort, direction: Direction)
    requires Ordered(s, sort, direction) && Ordered(t, sort, direction) && s != [] && t != []
    requires t[0] in s && s[0] in t
    ensures s[0] == t[0]
  {
    FirstIsLeast(s, t[0], sort, direction);
    FirstIsLeast(t, s[0], sort, direction);
  }

  lemma FirstIsAMember(s: seq<Head>)
    ensures s == [] || s[0] in s
  {
  }

  lemma FirstIsUnique(s: seq<Head>, x: Head, sort: Sort, direction: Direction)
    requires Ordered(s, sort, direction) && s != []
    ensures x in s[1..] <==> x in s && x != s[0]
  {
    if x in s[1..] {
      var i :| 0 < i < |s| && s[i] == x;
      assert Precedes(PositionOf(s[0], sort), PositionOf(s[i], sort), direction);
    }
    if x in s && x != s[0] {
      var i :| 0 <= i < |s| && s[i] == x;
      assert s[1..][i - 1] == x;
    }
  }

  /** A strictly ordered list is determined by its members. */
  lemma {:induction false} OrderedListsAgree(s: seq<Head>, t: seq<Head>, sort: Sort, direction: Direction)
    requires Ordered(s, sort, direction) && Ordered(t, sort, direction) && forall x :: x in s <==> x in t
    ensures s == t
  {
    if s != [] {
      assert s[0] in t;
      assert t[0] in s;
      SameFirst(s, t, sort, direction);
      forall x ensures x in s[1..] <==> x in t[1..] {
        FirstIsUnique(s, x, sort, direction);
        FirstIsUnique(t, x, sort, direction);
      }
      OrderedListsAgree(s[1..], t[1..], sort, direction);
      assert s == [s[0]] + s[1..] && t == [t[0]] + t[1..];
    } else {
      FirstIsAMember(t);
    }
  }

  lemma {:induction false} OrderedOnce(s: seq<Head>, x: Head, sort: Sort, direction: Direction)
    requires Ordered(s, sort, direction)
    ensures multiset(s)[x] == if x in s then 1 else 0
  {
    if s != [] {
      FirstIsUnique(s, x, sort, direction);
      OrderedOnce(s[1..], x, sort, direction);
      assert s == [s[0]] + s[1..];
    }
  }

  /** `Array.prototype.sort` under the head comparison. */
  function SortHeads(s: seq<Head>, sort: Sort, direction: Direction): (r: seq<Head>)
    ensures multiset(r) == multiset(s)
  {
    if s == [] then []
    else
      assert s == s[..|s| - 1] + [s[|s| - 1]];
      Insert(SortHeads(s[..|s| - 1], sort, direction), s[|s| - 1], sort, direction)
  }

  function Insert(s: seq<Head>, h: Head, sort: Sort, direction: Direction): (r: seq<Head>)
    ensures multiset(r) == multiset(s) + multiset{h}
  {
    if s == [] || !Precedes(PositionOf(h, sort), PositionOf(s[|s| - 1], sort), direction) then s + [h]
    else
      assert s == s[..|s| - 1] + [s[|s| - 1]];
      Insert(s[..|s| - 1], h, sort, direction) + [s[|s| - 1]]
  }

  ghost predicate DistinctIds(s: seq<Head>) {
    forall i, j :: 0 <= i < j < |s| ==> s[i].id != s[j].id
  }

  lemma AppendIsOrdered(s: seq<Head>, last: Head, sort: Sort, direction: Direction)
    requires Ordered(s, sort, direction)
    requires forall x :: x in s ==> Precedes(PositionOf(x, sort), PositionOf(last, sort), direction)
    ensures Ordered(s + [last], sort, direction)
  {
  }

  lemma LastIsGreatest(s: seq<Head>, h: Head, sort: Sort, direction: Direction)
    requires Ordered(s, sort, direction) && s != []
    requires h.id != s[|s| - 1].id && !Precedes(PositionOf(h, sort), PositionOf(s[|s| - 1], sort), direction)
    ensures forall x :: x in s ==> Precedes(PositionOf(x, sort), PositionOf(h, sort), direction)
  {
    var last := s[|s| - 1];
    PrecedesIsAStrictTotalOrder(PositionOf(h, sort), PositionOf(last, sort), PositionOf(h, sort), direction);
    forall x | x in s ensures Precedes(PositionOf(x, sort), PositionOf(h, sort), direction) {
      PrecedesIsAStrictTotalOrder(PositionOf(x, sort), PositionOf(last, sort), PositionOf(h, sort), direction);
    }
  }

  lemma {:induction false} InsertIsOrdered(s: seq<Head>, h: Head, sort: Sort, direction: Direction)
    requires Ordered(s, sort, direction) && forall x :: x in s ==> x.id != h.id
    ensures Ordered(Insert(s, h, sort, direction), sort, direction)
  {
    if s != [] {
      var init, last := s[..|s| - 1], s[|s| - 1];
      assert last in s;
      if Precedes(PositionOf(h, sort), PositionOf(last, sort), direction) {
        InsertIsOrdered(init, h, sort, direction);
        var r := Insert(init, h, sort, direction);
        forall x | x in r ensures Precedes(PositionOf(x, sort), PositionOf(last, sort), direction) {
          assert x in multiset(r);
          assert x in multiset(init) || x == h;
        }
        AppendIsOrdered(r, last, sort, direction);
      } else {
        LastIsGreatest(s, h, sort, direction);
        AppendIsOrdered(s, h, sort, direction);
      }
    }
  }

  lemma {:induction false} SortIsOrdered(s: seq<Head>, sort: Sort, direction: Direction)
    requires DistinctIds(s)
    ensures Ordered(SortHeads(s, sort, direction), sort, direction)
  {
    if s != [] {
      var init, last := s[..|s| - 1], s[|s| - 1];
      SortIsOrdered(init, sort, direction);
      forall x | x in SortHeads(init, sort, direction) ensures x.id != last.id {
        assert x in multiset(SortHeads(init, sort, direction)) && x in multiset(init);
      }
      InsertIsOrdered(SortHeads(init, sort, direction), last, sort, direction);
    }
  }
}
