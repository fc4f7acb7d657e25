/**
 * What retention keeps and selects, on the rows it reads: which rows are protected and why, and which
 * row a selection takes. Everything is stated by age and rank, without the scans of the code.
 */
module ProtectionAnswers {
  import opened Prelude
  import opened Lists
  import opened RetentionSelection
  import opened RetentionProtection

  // ----- Selections -----

  /** `a` became eligible before `b`; of rows eligible at once the smaller id is the older. */
  predicate Older(a: Row, b: Row) {
    a.eligibleAt < b.eligibleAt || (a.eligibleAt == b.eligibleAt && a.id < b.id)
  }

  /** An unprotected complete row, or an unprotected abandoned one whose time has come. */
  predicate MayGo(r: Row, protected: set<Key>, now: Time) {
    && r.id !in protected
    && match r.lifecycle
       case Complete => true
       case Staging => r.eligibleAt <= now
       case Failed => r.eligibleAt <= now
       case Retired => false
  }

  /** The oldest of the rows that may go, or none because there is none. */
  predicate IsOldest(found: Option<Row>, rows: seq<Row>, protected: set<Key>, now: Time) {
    match found
    case None => forall r :: r in rows ==> !MayGo(r, protected, now)
    case Some(f) =>
      && f in rows && MayGo(f, protected, now)
      && forall r :: r in rows && MayGo(r, protected, now) ==> r == f || Older(f, r)
  }

  lemma SelectionTakesTheOldest(found: Option<Row>, rows: seq<Row>, protected: set<Key>, now: Time)
    ensures IsLeast(found, rows, (r: Row) => Removable(r, protected, now)) <==> IsOldest(found, rows, protected, now)
  {
    forall r: Row ensures Removable(r, protected, now) <==> MayGo(r, protected, now) {
    }
    forall a: Row, b: Row ensures Before(a, b) <==> Older(a, b) {
    }
  }

  /** A listing has each id once, the older rows first. */
  lemma ListingsAscend(rows: seq<Row>)
    ensures Listing(rows) <==>
            forall i, j :: 0 <= i < j < |rows| ==> Older(rows[i], rows[j]) && rows[i].id != rows[j].id
  {
    forall a: Row, b: Row ensures Before(a, b) <==> Older(a, b) {
    }
    if Listing(rows) {
      forall i, j | 0 <= i < j < |rows| ensures Older(rows[i], rows[j]) && rows[i].id != rows[j].id {
        assert Before(rows[i], rows[j]);
      }
    }
    if forall i, j :: 0 <= i < j < |rows| ==> Older(rows[i], rows[j]) && rows[i].id != rows[j].id {
      forall i, j | 0 <= i < j < |rows| ensures Before(rows[i], rows[j]) {
        assert Older(rows[i], rows[j]);
      }
    }
  }

  /** Of one platform's releases: the oldest retired one if there is one, else the oldest that may go. */
  predicate IsNextRelease(found: Option<Row>, rows: seq<Row>, protected: set<Key>, now: Time) {
    if forall r :: r in rows ==> r.lifecycle != Retired then IsOldest(found, rows, protected, now)
    else
      && found.Some? && found.value in rows && found.value.lifecycle == Retired
      && forall r :: r in rows && r.lifecycle == Retired ==> r == found.value || Older(found.value, r)
  }

  lemma ProviderTakesRetiredFirst(found: Option<Row>, rows: seq<Row>, protected: set<Key>, now: Time)
    ensures IsProviderChoice(found, rows, protected, now) <==> IsNextRelease(found, rows, protected, now)
  {
    SelectionTakesTheOldest(found, rows, protected, now);
    forall a: Row, b: Row ensures Before(a, b) <==> Older(a, b) {
    }
  }

  // ----- Protections -----

  /** How many rows of a list are older than `r` and satisfy `p`. */
  ghost function OlderThan(rows: seq<Row>, r: Row, p: Row -> bool): nat {
    |set x | x in rows && p(x) && Older(x, r)|
  }

  ghost function YoungerThan(rows: seq<Row>, r: Row, p: Row -> bool): nat {
    |set x | x in rows && p(x) && Older(r, x)|
  }

  function Is(lifecycle: Lifecycle): Row -> bool {
    (r: Row) => r.lifecycle == lifecycle
  }

  function IsRecent(now: Time): Row -> bool {
    (r: Row) => r.lifecycle.Complete? && r.eligibleAt > now
  }

  /** Position is rank: the rows before position `i` of a listing are those older than the row there. */
  lemma RankOf(rows: seq<Row>, i: nat, p: Row -> bool)
    requires Listing(rows) && i < |Filter(rows, p)|
    ensures OlderThan(rows, Filter(rows, p)[i], p) == i
    ensures YoungerThan(rows, Filter(rows, p)[i], p) == |Filter(rows, p)| - 1 - i
  {
    FilteredListing(rows, p);
    var index := Filter(rows, p);
    ListingsAscend(index);
    ElementsOf(index[..i]);
    var after := index[i + 1..];
    ElementsOf(after);
    OlderAreBefore(index, i, after);
    assert (set x | x in rows && p(x) && Older(x, index[i])) == set x | x in index && Older(x, index[i]);
    assert (set x | x in rows && p(x) && Older(index[i], x)) == set x | x in index && Older(index[i], x);
  }

  lemma OlderAreBefore(index: seq<Row>, i: nat, after: seq<Row>)
    requires i < |index| && after == index[i + 1..]
    requires forall a, b :: 0 <= a < b < |index| ==> Older(index[a], index[b])
    ensures (set x | x in index && Older(x, index[i])) == set x | x in index[..i]
    ensures (set x | x in index && Older(index[i], x)) == set x | x in after
  {
    forall x | x in index ensures Older(x, index[i]) <==> x in index[..i] {
      var k :| 0 <= k < |index| && index[k] == x;
      assert k < i ==> index[..i][k] == x;
    }
    forall x | x in index ensures Older(index[i], x) <==> x in after {
      var k :| 0 <= k < |index| && index[k] == x;
      assert k > i ==> after[k - i - 1] == x;
    }
    forall x | x in index[..i] || x in after ensures x in index {
    }
  }

  lemma {:induction false} ElementsOf(rows: seq<Row>)
    requires forall i, j :: 0 <= i < j < |rows| ==> rows[i].id != rows[j].id
    ensures |set x | x in rows| == |rows|
  {
    if rows != [] {
      var init, last := rows[..|rows| - 1], rows[|rows| - 1];
      ElementsOf(init);
      assert rows == init + [last];
      assert (set x | x in rows) == (set x | x in init) + {last};
    }
  }

  lemma TakenByAge(rows: seq<Row>, p: Row -> bool, n: nat, r: Row)
    requires Listing(rows)
    ensures r in Take(Filter(rows, p), n) <==> r in rows && p(r) && OlderThan(rows, r, p) < n
  {
    FilteredListing(rows, p);
    var index := Filter(rows, p);
    if r in Take(index, n) {
      var i :| 0 <= i < |Take(index, n)| && Take(index, n)[i] == r;
      assert index[i] == r;
      RankOf(rows, i, p);
    }
    if r in rows && p(r) && OlderThan(rows, r, p) < n {
      var i :| 0 <= i < |index| && index[i] == r;
      RankOf(rows, i, p);
      assert Take(index, n)[i] == r;
    }
  }

  /** Read from the end, position `k` is the `k`-th of the list from behind. */
  lemma FromTheEnd(index: seq<Row>, n: nat)
    ensures |TakeLast(index, n)| == if |index| <= n then |index| else n
    ensures forall k :: 0 <= k < |TakeLast(index, n)| ==> TakeLast(index, n)[k] == index[|index| - 1 - k]
  {
  }

  lemma LastIsYoung(rows: seq<Row>, p: Row -> bool, n: nat, r: Row)
    requires Listing(rows) && r in TakeLast(Filter(rows, p), n)
    ensures r in Filter(rows, p) && YoungerThan(rows, r, p) < n
  {
    var index, last := Filter(rows, p), TakeLast(Filter(rows, p), n);
    FromTheEnd(index, n);
    var k :| 0 <= k < |last| && last[k] == r;
    RankOf(rows, |index| - 1 - k, p);
  }

  lemma YoungIsLast(rows: seq<Row>, p: Row -> bool, n: nat, r: Row)
    requires Listing(rows) && r in Filter(rows, p) && YoungerThan(rows, r, p) < n
    ensures r in TakeLast(Filter(rows, p), n)
  {
    var index, last := Filter(rows, p), TakeLast(Filter(rows, p), n);
    FromTheEnd(index, n);
    var i :| 0 <= i < |index| && index[i] == r;
    RankOf(rows, i, p);
    assert last[|index| - 1 - i] == r;
  }

  lemma LastByYouth(rows: seq<Row>, p: Row -> bool, n: nat, r: Row)
    requires Listing(rows)
    ensures r in TakeLast(Filter(rows, p), n) <==> r in rows && p(r) && YoungerThan(rows, r, p) < n
  {
    FilteredListing(rows, p);
    if r in TakeLast(Filter(rows, p), n) {
      LastIsYoung(rows, p, n, r);
    }
    if r in Filter(rows, p) && YoungerThan(rows, r, p) < n {
      YoungIsLast(rows, p, n, r);
    }
  }

  /** The row is among the forty-one oldest of its lifecycle, or among the forty-one youngest recent ones. */
  ghost predicate LookedUp(rows: seq<Row>, r: Row, now: Time) {
    r in rows
    && (|| (r.lifecycle != Retired && OlderThan(rows, r, Is(r.lifecycle)) < 41)
        || (IsRecent(now)(r) && YoungerThan(rows, r, IsRecent(now)) < 41))
  }

  lemma OldestOfLifecycle(rows: seq<Row>, lifecycle: Lifecycle, r: Row)
    requires Listing(rows)
    ensures r in Take(OfLifecycle(rows, lifecycle), 41) <==>
            r in rows && r.lifecycle == lifecycle && OlderThan(rows, r, Is(lifecycle)) < 41
  {
    SameFilter(rows, (x: Row) => x.lifecycle == lifecycle, Is(lifecycle));
    TakenByAge(rows, Is(lifecycle), 41, r);
  }

  lemma {:induction false} SameFilter(rows: seq<Row>, p: Row -> bool, q: Row -> bool)
    requires forall r :: p(r) == q(r)
    ensures Filter(rows, p) == Filter(rows, q)
  {
    if rows != [] {
      SameFilter(rows[..|rows| - 1], p, q);
    }
  }

  lemma YoungestRecent(rows: seq<Row>, n: nat, now: Time, r: Row)
    requires Listing(rows)
    ensures r in TakeLast(Recent(rows, now), n) <==>
            r in rows && IsRecent(now)(r) && YoungerThan(rows, r, IsRecent(now)) < n
  {
    SameFilter(rows, (x: Row) => x.lifecycle.Complete? && x.eligibleAt > now, IsRecent(now));
    LastByYouth(rows, IsRecent(now), n, r);
  }

  lemma HeatIsLookedUp(rows: seq<Row>, now: Time, r: Row)
    requires Listing(rows)
    ensures r in HeatWindow(rows, now) <==> LookedUp(rows, r, now)
  {
    OldestOfLifecycle(rows, Staging, r);
    OldestOfLifecycle(rows, Failed, r);
    OldestOfLifecycle(rows, Complete, r);
    YoungestRecent(rows, 41, now, r);
  }

  /** Row `r` gives its id an abandoned-row allowance. */
  predicate Abandoned(rows: seq<Row>, r: Row, now: Time) {
    r in rows && (r.lifecycle == Staging || r.lifecycle == Failed) && r.eligibleAt > now
  }

  /** Why a manifest is kept, for every reason but the allowance. */
  ghost predicate KeptFor(rows: seq<Row>, external: seq<Protection>, active: Option<Key>, previous: Option<Key>,
                          heat: set<Key>, now: Time, id: Key, reason: Reason) {
    match reason
    case External(code) => Protection(id, code) in external
    case ActiveManifest => active == Some(id)
    case PreviousManifest => previous == Some(id)
    case HeatReference => id in heat && exists r :: LookedUp(rows, r, now) && r.id == id
    case AbandonedAllowance => exists r :: Abandoned(rows, r, now) && r.id == id
    case _ => false
  }

  lemma YoungAreAbandoned(rows: seq<Row>, now: Time, id: Key)
    ensures (id, AbandonedAllowance) in
            AbandonedKept(Young(rows, Staging, now)) + AbandonedKept(Young(rows, Failed, now)) <==>
            exists r :: Abandoned(rows, r, now) && r.id == id
  {
    FilterMembers(rows, (r: Row) => r.lifecycle == Staging && r.eligibleAt > now);
    FilterMembers(rows, (r: Row) => r.lifecycle == Failed && r.eligibleAt > now);
    if r :| Abandoned(rows, r, now) && r.id == id {
      assert r in Young(rows, Staging, now) || r in Young(rows, Failed, now);
    }
  }

  lemma FirstKeptOnRows(rows: seq<Row>, external: seq<Protection>, active: Option<Key>, previous: Option<Key>,
                        heat: set<Key>, now: Time, id: Key, reason: Reason)
    requires Listing(rows) && !reason.AbandonedAllowance?
    ensures (id, reason) in KeptFirst(rows, external, active, previous, heat, now) <==>
            KeptFor(rows, external, active, previous, heat, now, id, reason)
  {
    match reason {
      case External(code) =>
        if Protection(id, code) in external {
          var p := Protection(id, code);
          assert (p.id, External(p.code)) in ExternalKept(external);
        }
      case HeatReference =>
        forall r ensures r in HeatWindow(rows, now) <==> LookedUp(rows, r, now) {
          HeatIsLookedUp(rows, now, r);
        }
      case _ =>
    }
  }

  /** An entry for another reason comes from outside the allowance. */
  lemma OutsideTheAllowance(first: Entries, allowance: Entries, a: Entries, b: Entries, k: (Key, Reason))
    requires (forall x :: x in allowance ==> x.1.CompleteAllowance?) && !k.1.CompleteAllowance?
    requires (forall x :: x in first ==> !x.1.AbandonedAllowance?)
             && forall x :: x in a + b ==> x.1.AbandonedAllowance?
    ensures k in first + allowance + a + b <==> if k.1.AbandonedAllowance? then k in a + b else k in first
  {
  }

  lemma FirstIsNotAbandoned(rows: seq<Row>, external: seq<Protection>, active: Option<Key>, previous: Option<Key>,
                            heat: set<Key>, now: Time)
    ensures forall x :: x in KeptFirst(rows, external, active, previous, heat, now) ==> !x.1.AbandonedAllowance?
  {
  }

  lemma YoungAreAllAbandoned(rows: seq<Row>, now: Time)
    ensures forall x :: x in AbandonedKept(Young(rows, Staging, now)) + AbandonedKept(Young(rows, Failed, now)) ==>
                          x.1.AbandonedAllowance?
  {
  }

  /** Every manifest kept for another reason than the allowance is kept exactly for that reason. */
  lemma ManifestsAreKeptFor(rows: seq<Row>, external: seq<Protection>, active: Option<Key>, previous: Option<Key>,
                            heat: set<Key>, now: Time, id: Key, reason: Reason)
    requires Listing(rows) && !reason.CompleteAllowance?
    ensures (id, reason) in Protections(rows, external, active, previous, heat, now) <==>
            KeptFor(rows, external, active, previous, heat, now, id, reason)
  {
    var first := KeptFirst(rows, external, active, previous, heat, now);
    var room := Room(|Ids(first)|, MAX_PROTECTED);
    AllowanceIsRecent(RecentWindow(rows, now), 0, Ids(first), room);
    FirstIsNotAbandoned(rows, external, active, previous, heat, now);
    YoungAreAllAbandoned(rows, now);
    OutsideTheAllowance(first, Allowance(RecentWindow(rows, now), 0, Ids(first), room),
                        AbandonedKept(Young(rows, Staging, now)), AbandonedKept(Young(rows, Failed, now)),
                        (id, reason));
    if reason.AbandonedAllowance? {
      YoungAreAbandoned(rows, now, id);
    } else {
      FirstKeptOnRows(rows, external, active, previous, heat, now, id, reason);
    }
  }

  /** A pointer resolves exactly if it names a listed complete row, or nothing. */
  lemma PointersResolve(rows: seq<Row>, pointer: Option<Key>)
    ensures Resolves(rows, pointer) <==>
            pointer.None? || exists r :: r in rows && r.id == pointer.value && r.lifecycle == Complete
  {
    if pointer.Some? {
      if r :| r in rows && r.id == pointer.value && r.lifecycle == Complete {
        var i :| 0 <= i < |rows| && rows[i] == r;
      }
    }
  }

  // ----- The allowance goes to the youngest -----

  /** What the allowance passes over unkept comes after everything it adds. */
  lemma {:induction false} AllowanceTakesTheFirst(recent: seq<Row>, i: nat, kept: set<Key>, room: nat, j: nat)
    requires i <= j < |recent| && recent[j].id !in kept
    requires (recent[j].id, CompleteAllowance) !in Allowance(recent, i, kept, room)
    ensures forall k :: k in Allowance(recent, i, kept, room) ==> exists x :: i <= x < j && recent[x].id == k.0
    decreases |recent| - i
  {
    if room > 0 && i < j {
      if recent[i].id in kept {
        AllowanceTakesTheFirst(recent, i + 1, kept, room, j);
      } else if recent[j].id != recent[i].id {
        AllowanceTakesTheFirst(recent, i + 1, kept + {recent[i].id}, room - 1, j);
      }
    }
  }

  lemma IdsGrow(a: Entries, b: Entries)
    requires a <= b
    ensures Ids(a) <= Ids(b)
  {
  }

  lemma UnkeptIsNotAdded(added: Entries, id: Key)
    requires id !in Ids(added)
    ensures (id, CompleteAllowance) !in added
  {
    assert forall k :: k in added ==> k.0 in Ids(added);
  }

  lemma WindowIsYounger(rows: seq<Row>, now: Time, n: nat, x: Row, w: Row)
    requires Listing(rows) && x in rows && IsRecent(now)(x)
    requires w in TakeLast(Recent(rows, now), n)
    ensures x in TakeLast(Recent(rows, now), n) || Older(x, w)
  {
    FilteredListing(rows, (r: Row) => r.lifecycle.Complete? && r.eligibleAt > now);
    var recent, last := Recent(rows, now), TakeLast(Recent(rows, now), n);
    ListingsAscend(recent);
    var i :| 0 <= i < |recent| && recent[i] == x;
    var k :| 0 <= k < |last| && last[k] == w;
    assert recent[|recent| - 1 - k] == w;
    if i >= |recent| - |last| {
      assert last[|recent| - 1 - i] == x;
    }
  }

  lemma WindowDescends(rows: seq<Row>, now: Time, n: nat, y: nat, j: nat)
    requires Listing(rows) && y < j < |TakeLast(Recent(rows, now), n)|
    ensures Older(TakeLast(Recent(rows, now), n)[j], TakeLast(Recent(rows, now), n)[y])
  {
    FilteredListing(rows, (r: Row) => r.lifecycle.Complete? && r.eligibleAt > now);
    var recent, last := Recent(rows, now), TakeLast(Recent(rows, now), n);
    ListingsAscend(recent);
    assert last[j] == recent[|recent| - 1 - j] && last[y] == recent[|recent| - 1 - y];
  }

  /** The allowance from the `n` youngest recent rows passes over no row for an older one. */
  lemma AllowanceTakesTheYoungest(rows: seq<Row>, now: Time, n: nat, kept: set<Key>, room: nat, x: Row, id: Key)
    requires Listing(rows) && x in rows && IsRecent(now)(x) && x.id !in kept
    requires (x.id, CompleteAllowance) !in Allowance(TakeLast(Recent(rows, now), n), 0, kept, room)
    requires (id, CompleteAllowance) in Allowance(TakeLast(Recent(rows, now), n), 0, kept, room)
    ensures exists r :: r in rows && r.id == id && IsRecent(now)(r) && Older(x, r)
  {
    var window := TakeLast(Recent(rows, now), n);
    AllowanceIsRecent(window, 0, kept, room);
    if x in window {
      var j :| 0 <= j < |window| && window[j] == x;
      AllowanceTakesTheFirst(window, 0, kept, room, j);
      var y :| 0 <= y < j && window[y].id == id;
      YoungestRecent(rows, n, now, window[y]);
      WindowDescends(rows, now, n, y, j);
    } else {
      var y :| 0 <= y < |window| && window[y].id == id;
      YoungestRecent(rows, n, now, window[y]);
      WindowIsYounger(rows, now, n, x, window[y]);
    }
  }

  /** A recent complete manifest that no reason keeps is older than every manifest the allowance keeps. */
  lemma AllowanceKeepsTheYoungest(rows: seq<Row>, external: seq<Protection>, active: Option<Key>,
                                  previous: Option<Key>, heat: set<Key>, now: Time, x: Row, id: Key)
    requires Listing(rows) && x in rows && IsRecent(now)(x)
    requires x.id !in Ids(Protections(rows, external, active, previous, heat, now))
    requires (id, CompleteAllowance) in Protections(rows, external, active, previous, heat, now)
    ensures exists r :: r in rows && r.id == id && IsRecent(now)(r) && Older(x, r)
  {
    var first, whole := KeptFirst(rows, external, active, previous, heat, now),
                        Protections(rows, external, active, previous, heat, now);
    var room := Room(|Ids(first)|, MAX_PROTECTED);
    AddedIsTheAllowance(rows, external, active, previous, heat, now);
    assert (id, CompleteAllowance) in AllowanceKept(whole);
    IdsGrow(first, whole);
    IdsGrow(Allowance(RecentWindow(rows, now), 0, Ids(first), room), whole);
    UnkeptIsNotAdded(Allowance(RecentWindow(rows, now), 0, Ids(first), room), x.id);
    AllowanceTakesTheYoungest(rows, now, 41, Ids(first), room, x, id);
  }

  // ----- Releases -----

  /** Why a release of one platform is kept, for every reason but the allowance. */
  ghost predicate ReleaseKeptFor(rows: seq<Row>, external: seq<Protection>, pending: seq<Key>,
                                 references: seq<Reference>, activeManifest: Option<Key>, head: Option<Key>, now: Time,
                                 id: Key, reason: Reason) {
    match reason
    case External(code) => Protection(id, code) in external
    case InFlightAttempt => id in pending
    case RetainedManifestReference => exists m :: Reference(id, m) in references
    case ActiveHead => activeManifest.Some? && Reference(id, activeManifest.value) in references
    case CompletedHead => head == Some(id)
    case AbandonedAllowance => exists r :: Abandoned(rows, r, now) && r.id == id
    case _ => false
  }

  lemma FirstReleasesOnRows(rows: seq<Row>, external: seq<Protection>, pending: seq<Key>, references: seq<Reference>,
                            activeManifest: Option<Key>, head: Option<Key>, now: Time, id: Key, reason: Reason)
    requires !reason.AbandonedAllowance?
    ensures (id, reason) in ReleasesKeptFirst(external, pending, references, activeManifest, head) <==>
            ReleaseKeptFor(rows, external, pending, references, activeManifest, head, now, id, reason)
  {
    match reason {
      case External(code) =>
        if Protection(id, code) in external {
          var p := Protection(id, code);
          assert (p.id, External(p.code)) in ExternalKept(external);
        }
      case RetainedManifestReference =>
        if m :| Reference(id, m) in references {
          var r := Reference(id, m);
          assert (r.release, RetainedManifestReference) in ReferencesKept(references, activeManifest);
        }
      case ActiveHead =>
        if activeManifest.Some? && Reference(id, activeManifest.value) in references {
          var r := Reference(id, activeManifest.value);
          assert (r.release, ActiveHead) in ReferencesKept(references, activeManifest);
        }
      case _ =>
    }
  }

  lemma ReleasesAreKeptFor(rows: seq<Row>, external: seq<Protection>, pending: seq<Key>, references: seq<Reference>,
                           activeManifest: Option<Key>, head: Option<Key>, now: Time, id: Key, reason: Reason)
    requires !reason.CompleteAllowance?
    ensures (id, reason) in ReleaseProtections(rows, external, pending, references, activeManifest, head, now) <==>
            ReleaseKeptFor(rows, external, pending, references, activeManifest, head, now, id, reason)
  {
    var first := ReleasesKeptFirst(external, pending, references, activeManifest, head);
    var window, room := TakeLast(Recent(rows, now), 81), Room(|Ids(first)|, MAX_PROTECTED_RELEASES);
    AllowanceIsRecent(window, 0, Ids(first), room);
    FirstReleasesAreOther(external, pending, references, activeManifest, head);
    YoungAreAllAbandoned(rows, now);
    OutsideTheAllowance(first, Allowance(window, 0, Ids(first), room), AbandonedKept(Young(rows, Staging, now)),
                        AbandonedKept(Young(rows, Failed, now)), (id, reason));
    if reason.AbandonedAllowance? {
      YoungAreAbandoned(rows, now, id);
    } else {
      FirstReleasesOnRows(rows, external, pending, references, activeManifest, head, now, id, reason);
    }
  }

  lemma FirstReleasesAreOther(external: seq<Protection>, pending: seq<Key>, references: seq<Reference>,
                              activeManifest: Option<Key>, head: Option<Key>)
    ensures forall x :: x in ReleasesKeptFirst(external, pending, references, activeManifest, head) ==>
                          !x.1.AbandonedAllowance? && !x.1.CompleteAllowance?
  {
  }

  lemma NoneOfTheAllowance(entries: Entries)
    requires forall x :: x in entries ==> !x.1.CompleteAllowance?
    ensures AllowanceKept(entries) == {}
  {
  }

  lemma YoungAreNotAllowed(rows: seq<Row>, lifecycle: Lifecycle, now: Time)
    ensures AllowanceKept(AbandonedKept(Young(rows, lifecycle, now))) == {}
  {
  }

  lemma AddedReleases(rows: seq<Row>, external: seq<Protection>, pending: seq<Key>, references: seq<Reference>,
                      activeManifest: Option<Key>, head: Option<Key>, now: Time)
    ensures var kept := Ids(ReleasesKeptFirst(external, pending, references, activeManifest, head));
            AllowanceKept(ReleaseProtections(rows, external, pending, references, activeManifest, head, now)) ==
            Allowance(TakeLast(Recent(rows, now), 81), 0, kept, Room(|kept|, MAX_PROTECTED_RELEASES))
  {
    var first := ReleasesKeptFirst(external, pending, references, activeManifest, head);
    var window, room := TakeLast(Recent(rows, now), 81), Room(|Ids(first)|, MAX_PROTECTED_RELEASES);
    AllowanceIsRecent(window, 0, Ids(first), room);
    FirstReleasesAreOther(external, pending, references, activeManifest, head);
    NoneOfTheAllowance(first);
    YoungAreNotAllowed(rows, Staging, now);
    YoungAreNotAllowed(rows, Failed, now);
    AllowanceIsSeparate(first, Allowance(window, 0, Ids(first), room), AbandonedKept(Young(rows, Staging, now)),
                        AbandonedKept(Young(rows, Failed, now)));
  }

  /**
   * The allowance of a platform adds at most three releases that no other reason keeps, and passes over
   * no recent complete release for an older one.
   */
  lemma ReleaseAllowanceKeepsTheYoungest(rows: seq<Row>, external: seq<Protection>, pending: seq<Key>,
                                         references: seq<Reference>, activeManifest: Option<Key>, head: Option<Key>,
                                         now: Time, x: Row)
    requires Listing(rows) && x in rows && IsRecent(now)(x)
    requires x.id !in Ids(ReleaseProtections(rows, external, pending, references, activeManifest, head, now))
    ensures var added :=
              AllowanceKept(ReleaseProtections(rows, external, pending, references, activeManifest, head, now));
            && |added| <= 3
            && forall k :: k in added ==>
                 && k.0 !in Ids(ReleasesKeptFirst(external, pending, references, activeManifest, head))
                 && exists r :: r in rows && r.id == k.0 && IsRecent(now)(r) && Older(x, r)
  {
    var first := ReleasesKeptFirst(external, pending, references, activeManifest, head);
    var whole := ReleaseProtections(rows, external, pending, references, activeManifest, head, now);
    var window, room := TakeLast(Recent(rows, now), 81), Room(|Ids(first)|, MAX_PROTECTED_RELEASES);
    var added := Allowance(window, 0, Ids(first), room);
    AddedReleases(rows, external, pending, references, activeManifest, head, now);
    AllowanceIsSmall(window, 0, Ids(first), room);
    AllowanceIsRecent(window, 0, Ids(first), room);
    IdsGrow(first, whole);
    IdsGrow(added, whole);
    UnkeptIsNotAdded(added, x.id);
    forall k | k in added ensures exists r :: r in rows && r.id == k.0 && IsRecent(now)(r) && Older(x, r) {
      AllowanceTakesTheYoungest(rows, now, 81, Ids(first), room, x, k.0);
    }
  }

  /** With room left, every release of the window is kept. */
  lemma ReleaseAllowanceIsUsedUp(rows: seq<Row>, external: seq<Protection>, pending: seq<Key>,
                                 references: seq<Reference>, activeManifest: Option<Key>, head: Option<Key>, now: Time,
                                 x: Row)
    requires Listing(rows) && x in rows && IsRecent(now)(x) && YoungerThan(rows, x, IsRecent(now)) < 81
    requires var kept := |Ids(ReleasesKeptFirst(external, pending, references, activeManifest, head))|;
             |AllowanceKept(ReleaseProtections(rows, external, pending, references, activeManifest, head, now))| <
             if 77 < kept <= 80 then 80 - kept else 3
    ensures x.id in Ids(ReleaseProtections(rows, external, pending, references, activeManifest, head, now))
  {
    var first := ReleasesKeptFirst(external, pending, references, activeManifest, head);
    var whole := ReleaseProtections(rows, external, pending, references, activeManifest, head, now);
    var window, room := TakeLast(Recent(rows, now), 81), Room(|Ids(first)|, MAX_PROTECTED_RELEASES);
    AddedReleases(rows, external, pending, references, activeManifest, head, now);
    YoungestRecent(rows, 81, now, x);
    var j :| 0 <= j < |window| && window[j] == x;
    ShortAllowanceKeepsAll(window, 0, Ids(first), room, j);
    IdsGrow(first, whole);
    if x.id !in Ids(first) {
      assert (x.id, CompleteAllowance) in AllowanceKept(whole);
    }
  }
}
