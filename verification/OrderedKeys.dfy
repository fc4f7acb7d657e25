/** Canonically ordered lists of identifiers: sorting, deduplication and the smallest few of many. */
module OrderedKeys {
  import opened Prelude
  import Lists

  /** `isCanonicalAscending`: unique and sorted. */
  predicate Ascending(ks: seq<Key>) {
    forall i, j :: 0 <= i < j < |ks| ==> ks[i] < ks[j]
  }

  predicate NonDescending(ks: seq<Key>) {
    forall i, j :: 0 <= i < j < |ks| ==> ks[i] <= ks[j]
  }

  predicate Distinct(ks: seq<Key>) {
    forall i, j :: 0 <= i < j < |ks| ==> ks[i] != ks[j]
  }

  function Insert(ks: seq<Key>, k: Key): (r: seq<Key>)
    ensures multiset(r) == multiset(ks) + multiset{k}
  {
    if ks == [] || ks[|ks| - 1] <= k then ks + [k]
    else
      assert ks == ks[..|ks| - 1] + [ks[|ks| - 1]];
      Insert(ks[..|ks| - 1], k) + [ks[|ks| - 1]]
  }

  lemma InsertMembers(ks: seq<Key>, k: Key, x: Key)
    ensures x in Insert(ks, k) <==> x in ks || x == k
  {
    assert x in Insert(ks, k) <==> x in multiset(Insert(ks, k));
    assert x in ks <==> x in multiset(ks);
  }

  lemma AppendKeepsOrder(ks: seq<Key>, last: Key)
    requires NonDescending(ks) && forall x :: x in ks ==> x <= last
    ensures NonDescending(ks + [last])
  {
    forall i | 0 <= i < |ks| ensures ks[i] <= last {
      assert ks[i] in ks;
    }
  }

  lemma {:induction false} InsertKeepsOrder(ks: seq<Key>, k: Key)
    requires NonDescending(ks)
    ensures NonDescending(Insert(ks, k))
  {
    if ks == [] {
    } else if ks[|ks| - 1] <= k {
      AppendKeepsOrder(ks, k);
    } else {
      var init, last := ks[..|ks| - 1], ks[|ks| - 1];
      InsertKeepsOrder(init, k);
      forall x | x in Insert(init, k) ensures x <= last {
        InsertMembers(init, k, x);
      }
      AppendKeepsOrder(Insert(init, k), last);
    }
  }

  /** `.sort(compareCanonicalStrings)`. */
  function SortKeys(ks: seq<Key>): seq<Key> {
    if ks == [] then [] else Insert(SortKeys(ks[..|ks| - 1]), ks[|ks| - 1])
  }

  lemma {:induction false} SortKeysSorts(ks: seq<Key>)
    ensures multiset(SortKeys(ks)) == multiset(ks) && NonDescending(SortKeys(ks))
  {
    if ks != [] {
      var init, last := ks[..|ks| - 1], ks[|ks| - 1];
      SortKeysSorts(init);
      InsertKeepsOrder(SortKeys(init), last);
      assert multiset(ks) == multiset(init) + multiset{last} by {
        assert ks == init + [last];
      }
    }
  }

  /** `[...new Set(ks)].sort(compareCanonicalStrings)`. */
  function SortUnique(ks: seq<Key>): seq<Key> {
    if ks == [] then []
    else
      var init := SortUnique(ks[..|ks| - 1]);
      if ks[|ks| - 1] in init then init else Insert(init, ks[|ks| - 1])
  }

  lemma {:induction false} SortUniqueSorts(ks: seq<Key>)
    ensures Ascending(SortUnique(ks))
    ensures forall k :: k in SortUnique(ks) <==> k in ks
  {
    if ks != [] {
      SortUniqueSorts(ks[..|ks| - 1]);
      assert ks == ks[..|ks| - 1] + [ks[|ks| - 1]];
      if ks[|ks| - 1] !in SortUnique(ks[..|ks| - 1]) {
        InsertFresh(SortUnique(ks[..|ks| - 1]), ks[|ks| - 1]);
      }
    }
  }

  lemma InsertFresh(ks: seq<Key>, k: Key)
    requires Ascending(ks) && k !in ks
    ensures Ascending(Insert(ks, k)) && |Insert(ks, k)| == |ks| + 1
    ensures forall x :: x in Insert(ks, k) <==> x in ks || x == k
  {
    var r := Insert(ks, k);
    assert |r| == |multiset(r)|;
    forall x ensures x in r <==> x in ks || x == k {
      assert x in r <==> x in multiset(r);
    }
    forall x ensures multiset(r)[x] <= 1 {
      AscendingOnce(ks, x);
    }
    OnceIsDistinct(r);
    InsertKeepsOrder(ks, k);
  }

  lemma {:induction false} AscendingOnce(ks: seq<Key>, x: Key)
    requires Ascending(ks)
    ensures multiset(ks)[x] <= 1
  {
    if ks != [] {
      AscendingOnce(ks[1..], x);
      assert ks == [ks[0]] + ks[1..];
      if x in ks[1..] {
        assert x > ks[0];
      }
    }
  }

  lemma RepeatsCount(ks: seq<Key>, i: nat, j: nat)
    requires i < j < |ks| && ks[i] == ks[j]
    ensures multiset(ks)[ks[i]] >= 2
  {
    assert ks == ks[..j] + [ks[j]] + ks[j + 1..];
    assert ks[..j][i] == ks[j];
  }

  lemma OnceIsDistinct(ks: seq<Key>)
    requires forall x :: multiset(ks)[x] <= 1
    ensures Distinct(ks)
  {
    forall i, j | 0 <= i < j < |ks| ensures ks[i] != ks[j] {
      if ks[i] == ks[j] {
        RepeatsCount(ks, i, j);
      }
    }
  }

  /** Sorting yields a strictly ascending list exactly when nothing repeats. */
  lemma AscendingSortIsDistinct(ks: seq<Key>)
    ensures Ascending(SortKeys(ks)) <==> Distinct(ks)
  {
    SortKeysSorts(ks);
    if Ascending(SortKeys(ks)) {
      forall x ensures multiset(ks)[x] <= 1 {
        AscendingOnce(SortKeys(ks), x);
      }
      OnceIsDistinct(ks);
    }
    if Distinct(ks) {
      forall x ensures multiset(SortKeys(ks))[x] <= 1 {
        DistinctOnce(ks, x);
      }
      OnceIsDistinct(SortKeys(ks));
    }
  }

  lemma {:induction false} DistinctOnce(ks: seq<Key>, x: Key)
    requires Distinct(ks)
    ensures multiset(ks)[x] <= 1
  {
    if ks != [] {
      DistinctOnce(ks[1..], x);
      assert ks == [ks[0]] + ks[1..];
    }
  }

  lemma FirstIsAMember(ks: seq<Key>)
    ensures ks == [] || ks[0] in ks
  {
  }

  /** A strictly ascending list is determined by its members. */
  lemma {:induction false} AscendingAgree(s: seq<Key>, t: seq<Key>)
    requires Ascending(s) && Ascending(t) && forall k :: k in s <==> k in t
    ensures s == t
  {
    if s == [] {
      FirstIsAMember(t);
    } else {
      assert s[0] in t && t[0] in s;
      assert s[0] == t[0];
      assert s == [s[0]] + s[1..] && t == [t[0]] + t[1..];
      forall k ensures k in s[1..] <==> k in t[1..] {
        assert k in s[1..] <==> k in s && k != s[0];
        assert k in t[1..] <==> k in t && k != t[0];
      }
      AscendingAgree(s[1..], t[1..]);
    }
  }

  lemma FirstIsLeast(s: seq<Key>, t: seq<Key>)
    requires NonDescending(s) && NonDescending(t) && multiset(s) == multiset(t) && s != [] && t != []
    ensures s[0] == t[0]
  {
    assert s[0] in multiset(t) && t[0] in multiset(s);
    var i :| 0 <= i < |s| && s[i] == t[0];
    var j :| 0 <= j < |t| && t[j] == s[0];
  }

  lemma TailContents(s: seq<Key>)
    requires s != []
    ensures multiset(s[1..]) == multiset(s) - multiset{s[0]}
  {
    assert s == [s[0]] + s[1..];
  }

  /** A sorted list is determined by its elements with their multiplicities. */
  lemma {:induction false} SortedAgree(s: seq<Key>, t: seq<Key>)
    requires NonDescending(s) && NonDescending(t) && multiset(s) == multiset(t)
    ensures s == t
  {
    assert |s| == |multiset(s)| == |multiset(t)| == |t|;
    if s != [] {
      FirstIsLeast(s, t);
      TailContents(s);
      TailContents(t);
      SortedAgree(s[1..], t[1..]);
      assert s == [s[0]] + s[1..] && t == [t[0]] + t[1..];
    }
  }

  lemma SortKeysByContents(s: seq<Key>, t: seq<Key>)
    requires multiset(s) == multiset(t)
    ensures SortKeys(s) == SortKeys(t)
  {
    SortKeysSorts(s);
    SortKeysSorts(t);
    SortedAgree(SortKeys(s), SortKeys(t));
  }

  lemma SortUniqueByMembers(s: seq<Key>, t: seq<Key>)
    requires forall k :: k in s <==> k in t
    ensures SortUnique(s) == SortUnique(t)
  {
    SortUniqueSorts(s);
    SortUniqueSorts(t);
    AscendingAgree(SortUnique(s), SortUnique(t));
  }

  // ----- The n smallest -----

  /** `[...new Set(ks)].sort(compareCanonicalStrings).slice(0, n)`. */
  function Smallest(n: nat, ks: seq<Key>): seq<Key> {
    var sorted := SortUnique(ks);
    if |sorted| <= n then sorted else sorted[..n]
  }

  lemma SmallestIsAscending(n: nat, ks: seq<Key>)
    ensures Ascending(Smallest(n, ks)) && |Smallest(n, ks)| <= n
    ensures forall k :: k in Smallest(n, ks) ==> k in ks
  {
    SortUniqueSorts(ks);
  }

  ghost function Below(ks: seq<Key>, x: Key): set<Key> {
    set y | y in ks && y < x
  }

  lemma {:induction false} AscendingCardinality(ks: seq<Key>)
    requires Ascending(ks)
    ensures |set y | y in ks| == |ks|
  {
    if ks != [] {
      var init, last := ks[..|ks| - 1], ks[|ks| - 1];
      AscendingCardinality(init);
      assert ks == init + [last];
      assert (set y | y in ks) == (set y | y in init) + {last};
      assert last !in init;
    }
  }

  /** In an ascending list the index of an element is the number of smaller ones. */
  lemma IndexIsRank(ks: seq<Key>, i: nat)
    requires Ascending(ks) && i < |ks|
    ensures |Below(ks, ks[i])| == i
  {
    AscendingCardinality(ks[..i]);
    assert Below(ks, ks[i]) == set y | y in ks[..i] by {
      forall y ensures y in Below(ks, ks[i]) <==> y in ks[..i] {
        if y in Below(ks, ks[i]) {
          var j :| 0 <= j < |ks| && ks[j] == y;
          assert j < i;
          assert ks[..i][j] == y;
        }
      }
    }
  }

  /** The n smallest are exactly the elements with fewer than n smaller ones. */
  lemma SmallestByRank(n: nat, ks: seq<Key>, x: Key)
    ensures x in Smallest(n, ks) <==> x in ks && |Below(ks, x)| < n
  {
    var sorted := SortUnique(ks);
    SortUniqueSorts(ks);
    assert Below(sorted, x) == Below(ks, x);
    if x in ks {
      var i :| 0 <= i < |sorted| && sorted[i] == x;
      IndexIsRank(sorted, i);
      if i < n {
        assert Smallest(n, ks)[i] == x;
      } else {
        assert x !in sorted[..n];
      }
    }
  }

  /** Once a list is cut to its n smallest, each of them outranks everything that was cut. */
  lemma CutElementsAreOutranked(n: nat, ks: seq<Key>, cut: Key)
    requires cut in ks && cut !in Smallest(n, ks)
    ensures |Smallest(n, ks)| == n && forall k :: k in Smallest(n, ks) ==> k < cut
  {
    var sorted := SortUnique(ks);
    SortUniqueSorts(ks);
    var i :| 0 <= i < |sorted| && sorted[i] == cut;
  }

  lemma CuttingKeepsRank(n: nat, a: seq<Key>, b: seq<Key>, x: Key)
    requires x in Smallest(n, a) + b && |Below(Smallest(n, a) + b, x)| < n
    ensures Below(Smallest(n, a) + b, x) == Below(a + b, x)
  {
    var kept := Smallest(n, a);
    SmallestIsAscending(n, a);
    assert Below(kept + b, x) <= Below(a + b, x);
    if y :| y in Below(a + b, x) && y !in Below(kept + b, x) {
      CutElementsAreOutranked(n, a, y);
      AscendingCardinality(kept);
      Lists.SubsetIsNoLarger((set k | k in kept), Below(kept + b, x));
      assert false;
    }
  }

  lemma SmallestMember(n: nat, a: seq<Key>, b: seq<Key>, x: Key)
    ensures x in Smallest(n, Smallest(n, a) + b) <==> x in Smallest(n, a + b)
  {
    var kept := Smallest(n, a);
    SmallestIsAscending(n, a);
    SmallestByRank(n, kept + b, x);
    SmallestByRank(n, a + b, x);
    SmallestByRank(n, a, x);
    if x in kept + b && |Below(kept + b, x)| < n {
      CuttingKeepsRank(n, a, b, x);
    }
    Lists.SubsetIsNoLarger(Below(kept + b, x), Below(a + b, x));
    Lists.SubsetIsNoLarger(Below(a, x), Below(a + b, x));
  }

  /** Cutting to the n smallest along the way never changes the n smallest overall. */
  lemma SmallestAlongTheWay(n: nat, a: seq<Key>, b: seq<Key>)
    ensures Smallest(n, Smallest(n, a) + b) == Smallest(n, a + b)
  {
    forall x ensures x in Smallest(n, Smallest(n, a) + b) <==> x in Smallest(n, a + b) {
      SmallestMember(n, a, b, x);
    }
    SmallestIsAscending(n, Smallest(n, a) + b);
    SmallestIsAscending(n, a + b);
    AscendingAgree(Smallest(n, Smallest(n, a) + b), Smallest(n, a + b));
  }

  /** A cut list shorter than its bound is the whole list. */
  lemma ShortCutIsWhole(n: nat, ks: seq<Key>)
    requires |Smallest(n, ks)| < n
    ensures Smallest(n, ks) == SortUnique(ks)
  {
  }
}
