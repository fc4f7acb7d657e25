/**
 * Selecting what retention may delete: bounded scans of the lifecycle indexes, oldest first. A scan
 * reads one row more than can be protected, so a scan of protected rows only is a scan of them all.
 */
module RetentionSelection {
  import opened Prelude
  import opened Lists

  datatype Lifecycle = Staging | Failed | Complete | Retired

  /** The columns of a manifest or provider-release row that retention orders by. */
  datatype Row = Row(id: Key, lifecycle: Lifecycle, eligibleAt: Time)

  /** The order of an index on `(retentionEligibleAt, publicId)`. */
  predicate Before(a: Row, b: Row) {
    a.eligibleAt < b.eligibleAt || (a.eligibleAt == b.eligibleAt && a.id < b.id)
  }

  predicate InIndexOrder(rows: seq<Row>) {
    forall i, j :: 0 <= i < j < |rows| ==> Before(rows[i], rows[j])
  }

  predicate DistinctIds(rows: seq<Row>) {
    forall i, j :: 0 <= i < j < |rows| ==> rows[i].id != rows[j].id
  }

  predicate Listing(rows: seq<Row>) {
    InIndexOrder(rows) && DistinctIds(rows)
  }

  /** The index on one lifecycle. */
  function OfLifecycle(rows: seq<Row>, lifecycle: Lifecycle): seq<Row> {
    Filter(rows, (r: Row) => r.lifecycle == lifecycle)
  }

  function Aged(rows: seq<Row>, lifecycle: Lifecycle, now: Time): seq<Row> {
    Filter(rows, (r: Row) => r.lifecycle == lifecycle && r.eligibleAt <= now)
  }

  function Take(rows: seq<Row>, n: nat): seq<Row> {
    if |rows| <= n then rows else rows[..n]
  }

  lemma {:induction false} FilterKeepsListing(rows: seq<Row>, p: Row -> bool)
    requires Listing(rows)
    ensures Listing(Filter(rows, p))
  {
    if rows != [] {
      var init, last := rows[..|rows| - 1], rows[|rows| - 1];
      FilterKeepsListing(init, p);
      FilterMembers(init, p);
      forall r | r in Filter(init, p) ensures Before(r, last) && r.id != last.id {
        var i :| 0 <= i < |init| && init[i] == r;
        assert rows[i] == r;
      }
    }
  }

  /** What matters of a listing once it is filtered: its order and its members. */
  lemma FilteredListing(rows: seq<Row>, p: Row -> bool)
    requires Listing(rows)
    ensures Listing(Filter(rows, p))
    ensures forall r :: r in Filter(rows, p) <==> r in rows && p(r)
  {
    FilterKeepsListing(rows, p);
    FilterMembers(rows, p);
  }

  // ----- The pigeonhole -----

  lemma {:induction false} IdsOf(rows: seq<Row>)
    requires DistinctIds(rows)
    ensures |set r | r in rows :: r.id| == |rows|
  {
    if rows != [] {
      var init, last := rows[..|rows| - 1], rows[|rows| - 1];
      IdsOf(init);
      assert rows == init + [last];
      assert (set r | r in rows :: r.id) == (set r | r in init :: r.id) + {last.id};
    }
  }

  /** A scan wider than the protection set that meets only protected rows has read every row. */
  lemma ScanOfProtectedRowsIsComplete(rows: seq<Row>, protected: set<Key>, limit: nat)
    requires DistinctIds(rows) && |protected| <= limit
    requires forall r :: r in Take(rows, limit + 1) ==> r.id in protected
    ensures Take(rows, limit + 1) == rows
  {
    if |rows| > limit + 1 {
      var window := rows[..limit + 1];
      IdsOf(window);
      SubsetIsNoLarger(set r | r in window :: r.id, protected);
    }
  }

  // ----- The first unprotected row of a scan -----

  function FirstUnprotected(rows: seq<Row>, protected: set<Key>): (r: Option<Row>)
    ensures r.Some? ==> r.value in rows && r.value.id !in protected
  {
    if rows == [] then None
    else
      assert rows == [rows[0]] + rows[1..];
      if rows[0].id !in protected then Some(rows[0]) else FirstUnprotected(rows[1..], protected)
  }

  lemma {:induction false} FirstIsFirst(rows: seq<Row>, protected: set<Key>)
    requires InIndexOrder(rows)
    ensures FirstUnprotected(rows, protected).None? ==> forall r :: r in rows ==> r.id in protected
    ensures FirstUnprotected(rows, protected).Some? ==>
              forall r :: r in rows && r.id !in protected ==>
                            r == FirstUnprotected(rows, protected).value
                            || Before(FirstUnprotected(rows, protected).value, r)
  {
    if rows != [] && rows[0].id in protected {
      assert rows == [rows[0]] + rows[1..];
      FirstIsFirst(rows[1..], protected);
    }
  }

  /** `found` is the least row of `rows` that satisfies `p`, and there is one unless it is none. */
  ghost predicate IsLeast(found: Option<Row>, rows: seq<Row>, p: Row -> bool) {
    match found
    case None => forall r :: r in rows ==> !p(r)
    case Some(f) => f in rows && p(f) && forall r :: r in rows && p(r) ==> r == f || Before(f, r)
  }

  lemma TakeMembers(rows: seq<Row>, n: nat, i: nat)
    requires i < |rows|
    ensures i < n ==> rows[i] in Take(rows, n)
    ensures forall r :: r in Take(rows, n) ==> r in rows
  {
    assert i < n ==> Take(rows, n)[i] == rows[i];
  }

  /** Reading `limit + 1` rows is enough to find the least unprotected row there is. */
  lemma WindowFindsTheLeast(rows: seq<Row>, protected: set<Key>, limit: nat)
    requires Listing(rows) && |protected| <= limit
    ensures IsLeast(FirstUnprotected(Take(rows, limit + 1), protected), rows, (r: Row) => r.id !in protected)
  {
    var window := Take(rows, limit + 1);
    FirstIsFirst(window, protected);
    match FirstUnprotected(window, protected) {
      case None => ScanOfProtectedRowsIsComplete(rows, protected, limit);
      case Some(f) =>
        forall r | r in rows && r.id !in protected ensures r == f || Before(f, r) {
          var i :| 0 <= i < |rows| && rows[i] == r;
          var k :| 0 <= k < |window| && window[k] == f;
          TakeMembers(rows, limit + 1, i);
          if i > limit {
            assert Before(rows[k], rows[i]);
          }
        }
    }
  }

  // ----- The earliest of several candidates -----

  /** The first of the candidates once sorted. */
  function Earliest(candidates: seq<Row>): (r: Option<Row>)
    ensures candidates != [] ==> r.Some?
    ensures r.Some? ==> r.value in candidates
  {
    if candidates == [] then None
    else
      assert candidates == candidates[..|candidates| - 1] + [candidates[|candidates| - 1]];
      var init, last := Earliest(candidates[..|candidates| - 1]), candidates[|candidates| - 1];
      if init.None? || Before(last, init.value) then Some(last) else init
  }

  function Maybe(r: Option<Row>): seq<Row> {
    if r.Some? then [r.value] else []
  }

  lemma EarliestIsLeast(rows: seq<Row>, candidates: seq<Row>, found: Option<Row>, p: Row -> bool, q: Row -> bool,
                        either: Row -> bool)
    requires Listing(rows) && IsLeast(Earliest(candidates), rows, p) && IsLeast(found, rows, q)
    requires forall r :: either(r) <==> p(r) || q(r)
    ensures IsLeast(Earliest(candidates + Maybe(found)), rows, either)
  {
    var all := candidates + Maybe(found);
    if found.Some? {
      assert all[..|all| - 1] == candidates;
    } else {
      assert all == candidates;
    }
  }

  // ----- Removable rows -----

  /** A row retention may delete: unprotected, and complete or past its eligibility. */
  predicate Removable(r: Row, protected: set<Key>, now: Time) {
    r.id !in protected && (r.lifecycle.Complete? || (r.lifecycle in {Staging, Failed} && r.eligibleAt <= now))
  }

  /** One lifecycle's candidate. */
  lemma AgedCandidateIsLeast(rows: seq<Row>, lifecycle: Lifecycle, protected: set<Key>, limit: nat, now: Time)
    requires Listing(rows) && |protected| <= limit
    ensures IsLeast(FirstUnprotected(Take(Aged(rows, lifecycle, now), limit + 1), protected), rows,
                    (r: Row) => r.id !in protected && r.lifecycle == lifecycle && r.eligibleAt <= now)
  {
    FilteredListing(rows, (r: Row) => r.lifecycle == lifecycle && r.eligibleAt <= now);
    WindowFindsTheLeast(Aged(rows, lifecycle, now), protected, limit);
  }

  lemma OverflowCandidateIsLeast(rows: seq<Row>, protected: set<Key>, limit: nat)
    requires Listing(rows) && |protected| <= limit
    ensures IsLeast(FirstUnprotected(Take(OfLifecycle(rows, Complete), limit + 1), protected), rows,
                    (r: Row) => r.id !in protected && r.lifecycle.Complete?)
  {
    FilteredListing(rows, (r: Row) => r.lifecycle == Complete);
    WindowFindsTheLeast(OfLifecycle(rows, Complete), protected, limit);
  }

  /** The candidates of the first `k` lifecycles in scan order. */
  predicate AgedIn(r: Row, scanned: set<Lifecycle>, protected: set<Key>, now: Time) {
    r.id !in protected && r.lifecycle in scanned && r.eligibleAt <= now
  }

  /**
   * `selectCatalogManifestRetentionCandidate`, and the same scans of one platform's releases: the
   * least removable row there is, or none because there is none, however many rows the bounded
   * scans leave unread.
   */
  method SelectRemovable(rows: seq<Row>, protected: set<Key>, limit: nat, now: Time) returns (selected: Option<Row>)
    requires Listing(rows) && |protected| <= limit
    ensures IsLeast(selected, rows, (r: Row) => Removable(r, protected, now))
  {
    var candidates: seq<Row> := [];
    var order := [Staging, Failed, Complete];
    ghost var scanned: set<Lifecycle> := {};
    for i := 0 to |order|
      invariant scanned == set k | 0 <= k < i :: order[k]
      invariant IsLeast(Earliest(candidates), rows, (r: Row) => AgedIn(r, scanned, protected, now))
    {
      var candidate := FirstUnprotected(Take(Aged(rows, order[i], now), limit + 1), protected);
      AgedCandidateIsLeast(rows, order[i], protected, limit, now);
      EarliestIsLeast(rows, candidates, candidate, (r: Row) => AgedIn(r, scanned, protected, now),
                      (r: Row) => r.id !in protected && r.lifecycle == order[i] && r.eligibleAt <= now,
                      (r: Row) => AgedIn(r, scanned + {order[i]}, protected, now));
      candidates := candidates + Maybe(candidate);
      scanned := scanned + {order[i]};
    }
    assert scanned == {Staging, Failed, Complete} by {
      assert order[0] in scanned && order[1] in scanned && order[2] in scanned;
    }
    var overflow := FirstUnprotected(Take(OfLifecycle(rows, Complete), limit + 1), protected);
    OverflowCandidateIsLeast(rows, protected, limit);
    EarliestIsLeast(rows, candidates, overflow, (r: Row) => AgedIn(r, {Staging, Failed, Complete}, protected, now),
                    (r: Row) => r.id !in protected && r.lifecycle.Complete?, (r: Row) => Removable(r, protected, now));
    selected := Earliest(candidates + Maybe(overflow));
  }

  /** Everything before the selected row in its own lifecycle is protected. */
  lemma EarlierRowsAreProtected(rows: seq<Row>, protected: set<Key>, now: Time, selected: Row, i: nat)
    requires Listing(rows) && IsLeast(Some(selected), rows, (r: Row) => Removable(r, protected, now))
    requires Listing(OfLifecycle(rows, selected.lifecycle))
    requires forall r :: r in OfLifecycle(rows, selected.lifecycle) <==> r in rows && r.lifecycle == selected.lifecycle
    requires i < |OfLifecycle(rows, selected.lifecycle)| && OfLifecycle(rows, selected.lifecycle)[i] == selected
    ensures forall r :: r in OfLifecycle(rows, selected.lifecycle)[..i] ==> r.id in protected
  {
    var index := OfLifecycle(rows, selected.lifecycle);
    forall r | r in index[..i] ensures r.id in protected {
      var k :| 0 <= k < i && index[k] == r;
      assert r in index && Before(r, selected);
    }
  }

  /**
   * Window inclusion: whatever is selected for deletion lies among the oldest `limit + 1` rows of
   * its lifecycle, the ones scanned for references before the selection.
   */
  lemma CandidateLiesInTheScannedWindow(rows: seq<Row>, protected: set<Key>, limit: nat, now: Time, selected: Row)
    requires Listing(rows) && |protected| <= limit
    requires IsLeast(Some(selected), rows, (r: Row) => Removable(r, protected, now))
    ensures selected in Take(OfLifecycle(rows, selected.lifecycle), limit + 1)
  {
    var index := OfLifecycle(rows, selected.lifecycle);
    FilteredListing(rows, (r: Row) => r.lifecycle == selected.lifecycle);
    var i :| 0 <= i < |index| && index[i] == selected;
    EarlierRowsAreProtected(rows, protected, now, selected, i);
    IdsOf(index[..i]);
    SubsetIsNoLarger(set r | r in index[..i] :: r.id, protected);
    TakeMembers(index, limit + 1, i);
  }

  // ----- Provider releases -----

  datatype Error = RetentionUnsafe | ReferenceInvalid

  /** Retired releases come first; they are already being deleted and need not be unprotected. */
  ghost predicate IsProviderChoice(found: Option<Row>, rows: seq<Row>, protected: set<Key>, now: Time) {
    if exists r :: r in rows && r.lifecycle.Retired? then IsLeast(found, rows, (r: Row) => r.lifecycle.Retired?)
    else IsLeast(found, rows, (r: Row) => Removable(r, protected, now))
  }

  lemma FirstRetiredIsLeast(rows: seq<Row>)
    requires Listing(rows)
    ensures var retired := OfLifecycle(rows, Retired);
            IsLeast(if retired == [] then None else Some(retired[0]), rows, (r: Row) => r.lifecycle.Retired?)
  {
    var retired := OfLifecycle(rows, Retired);
    FilteredListing(rows, (r: Row) => r.lifecycle == Retired);
    if retired != [] {
      assert retired[0] in retired;
      forall r | r in retired ensures r == retired[0] || Before(retired[0], r) {
        var i :| 0 <= i < |retired| && retired[i] == r;
      }
    }
  }

  /**
   * `selectProviderRetentionCandidate`, over one platform: the least retired release, else the least
   * removable one, else none because there is neither; refused when what it finds is protected or
   * still referenced by a manifest.
   */
  method SelectProvider(rows: seq<Row>, protected: set<Key>, referenced: set<Key>, limit: nat, now: Time)
    returns (r: Result<Option<Row>, Error>)
    requires Listing(rows) && |protected| <= limit
    ensures r.Success? ==> IsProviderChoice(r.value, rows, protected, now)
    ensures r.Success? && r.value.Some? ==> r.value.value.id !in protected && r.value.value.id !in referenced
    ensures r.Refused? ==>
              exists c: Row ::
                IsProviderChoice(Some(c), rows, protected, now) && (c.id in protected || c.id in referenced)
  {
    var retired := OfLifecycle(rows, Retired);
    FirstRetiredIsLeast(rows);
    var other := SelectRemovable(rows, protected, limit, now);
    var selected := if retired != [] then Some(retired[0]) else other;
    if selected.Some? && (selected.value.id in protected || selected.value.id in referenced) {
      assert IsProviderChoice(Some(selected.value), rows, protected, now);
      return Refused(RetentionUnsafe);
    }
    return Success(selected);
  }
}
