/**
 * `buildManifestProtections` and `buildProviderProtectionsForPlatform`: the bounded sets of rows
 * retention must keep, gathered from the external proof, the pointers, the references and the
 * allowances; and what their bound and the selection together guarantee.
 */
module RetentionProtection {
  import opened Prelude
  import opened Lists
  import opened RetentionSelection

  const MAX_PROTECTED: nat := 40
  const MAX_PROTECTED_RELEASES: nat := 80
  const ADDITIONAL_COMPLETE: nat := 3
  const SCAN_LIMIT: nat := MAX_PROTECTED + 1

  datatype Reason =
    | External(code: int) | CompleteAllowance | AbandonedAllowance
    | ActiveManifest | PreviousManifest | HeatReference
    | InFlightAttempt | RetainedManifestReference | ActiveHead | CompletedHead

  /** Which manifests are kept, and why: the reasons of every kept one. */
  type Entries = set<(Key, Reason)>

  /** One external protection, resolved to its stored manifest. */
  datatype Protection = Protection(id: Key, code: int)

  /** The manifests that have an entry. */
  function Ids(entries: Entries): set<Key> {
    set k | k in entries :: k.0
  }

  // ----- What must be kept -----

  function Recent(rows: seq<Row>, now: Time): seq<Row> {
    Filter(rows, (r: Row) => r.lifecycle.Complete? && r.eligibleAt > now)
  }

  function Young(rows: seq<Row>, lifecycle: Lifecycle, now: Time): seq<Row> {
    Filter(rows, (r: Row) => r.lifecycle == lifecycle && r.eligibleAt > now)
  }

  /** The last `n` rows of an index, read from the end: `.order("desc").take(n)`. */
  function TakeLast(rows: seq<Row>, n: nat): seq<Row> {
    Reversed(if |rows| <= n then rows else rows[|rows| - n..])
  }

  function Reversed(rows: seq<Row>): (r: seq<Row>)
    ensures |r| == |rows| && forall i :: 0 <= i < |rows| ==> r[i] == rows[|rows| - 1 - i]
  {
    if rows == [] then [] else [rows[|rows| - 1]] + Reversed(rows[..|rows| - 1])
  }

  /** The youngest complete rows, which the allowance is filled from. */
  function RecentWindow(rows: seq<Row>, now: Time): seq<Row> {
    TakeLast(Recent(rows, now), SCAN_LIMIT)
  }

  /** The rows whose Heat references are looked up. */
  function HeatWindow(rows: seq<Row>, now: Time): seq<Row> {
    Take(OfLifecycle(rows, Staging), SCAN_LIMIT) + Take(OfLifecycle(rows, Failed), SCAN_LIMIT)
    + Take(OfLifecycle(rows, Complete), SCAN_LIMIT) + RecentWindow(rows, now)
  }

  ghost function ExternalKept(external: seq<Protection>): Entries {
    set p | p in external :: (p.id, External(p.code))
  }

  ghost function PointersKept(active: Option<Key>, previous: Option<Key>): Entries {
    (if active.Some? then {(active.value, ActiveManifest)} else {})
    + (if previous.Some? then {(previous.value, PreviousManifest)} else {})
  }

  ghost function HeatKept(window: seq<Row>, heat: set<Key>): Entries {
    set r | r in window && r.id in heat :: (r.id, HeatReference)
  }

  ghost function AbandonedKept(rows: seq<Row>): Entries {
    set r | r in rows :: (r.id, AbandonedAllowance)
  }

  predicate Resolves(rows: seq<Row>, pointer: Option<Key>) {
    pointer.Some? ==> exists i :: 0 <= i < |rows| && rows[i].id == pointer.value && rows[i].lifecycle.Complete?
  }

  /**
   * The allowance: the first recent complete manifests not kept for another reason, at most `room`.
   */
  ghost function Allowance(recent: seq<Row>, i: nat, kept: set<Key>, room: nat): Entries
    requires i <= |recent|
    decreases |recent| - i
  {
    if i == |recent| || room == 0 then {}
    else if recent[i].id in kept then Allowance(recent, i + 1, kept, room)
    else {(recent[i].id, CompleteAllowance)} + Allowance(recent, i + 1, kept + {recent[i].id}, room - 1)
  }

  /** It adds recent rows that are kept for no other reason. */
  lemma {:induction false} AllowanceIsRecent(recent: seq<Row>, i: nat, kept: set<Key>, room: nat)
    requires i <= |recent|
    ensures forall k :: k in Allowance(recent, i, kept, room) ==>
                          && k.1 == CompleteAllowance && k.0 !in kept
                          && exists j :: i <= j < |recent| && recent[j].id == k.0
    decreases |recent| - i
  {
    if i < |recent| && room > 0 {
      if recent[i].id in kept {
        AllowanceIsRecent(recent, i + 1, kept, room);
      } else {
        AllowanceIsRecent(recent, i + 1, kept + {recent[i].id}, room - 1);
      }
    }
  }

  lemma {:induction false} AllowanceIsSmall(recent: seq<Row>, i: nat, kept: set<Key>, room: nat)
    requires i <= |recent|
    ensures |Allowance(recent, i, kept, room)| <= room
    decreases |recent| - i
  {
    if i < |recent| && room > 0 {
      if recent[i].id in kept {
        AllowanceIsSmall(recent, i + 1, kept, room);
      } else {
        AllowanceIsSmall(recent, i + 1, kept + {recent[i].id}, room - 1);
      }
    }
  }

  /** It adds fewer than there is room for only if it keeps all there is. */
  lemma {:induction false} ShortAllowanceKeepsAll(recent: seq<Row>, i: nat, kept: set<Key>, room: nat, j: nat)
    requires i <= j < |recent| && |Allowance(recent, i, kept, room)| < room
    ensures recent[j].id in kept || (recent[j].id, CompleteAllowance) in Allowance(recent, i, kept, room)
    decreases |recent| - i
  {
    if recent[i].id in kept {
      if i < j {
        ShortAllowanceKeepsAll(recent, i + 1, kept, room, j);
      }
    } else if i < j {
      var id, rest := recent[i].id, Allowance(recent, i + 1, kept + {recent[i].id}, room - 1);
      AllowanceIsRecent(recent, i + 1, kept + {id}, room - 1);
      assert (id, CompleteAllowance) !in rest;
      assert |{(id, CompleteAllowance)} + rest| == 1 + |rest|;
      ShortAllowanceKeepsAll(recent, i + 1, kept + {id}, room - 1, j);
    }
  }

  /** How many the allowance adds; once the bound is already exceeded the build is refused anyway. */
  function Room(kept: nat, limit: nat): nat {
    if kept <= limit && limit - kept < ADDITIONAL_COMPLETE then limit - kept else ADDITIONAL_COMPLETE
  }

  lemma RoomIsUsedUp(kept: nat, limit: nat, additional: nat)
    requires additional <= Room(kept, limit)
    ensures additional == ADDITIONAL_COMPLETE || kept + additional == limit <==> additional == Room(kept, limit)
  {
  }

  /** Everything kept before the allowance is filled. */
  ghost function KeptFirst(rows: seq<Row>, external: seq<Protection>, active: Option<Key>, previous: Option<Key>,
                           heat: set<Key>, now: Time): Entries {
    ExternalKept(external) + PointersKept(active, previous) + HeatKept(HeatWindow(rows, now), heat)
  }

  /** The whole protection relation. */
  ghost function Protections(rows: seq<Row>, external: seq<Protection>, active: Option<Key>, previous: Option<Key>,
                             heat: set<Key>, now: Time): Entries {
    var first := KeptFirst(rows, external, active, previous, heat, now);
    first
    + Allowance(RecentWindow(rows, now), 0, Ids(first), Room(|Ids(first)|, MAX_PROTECTED))
    + AbandonedKept(Young(rows, Staging, now)) + AbandonedKept(Young(rows, Failed, now))
  }

  ghost function AllowanceKept(entries: Entries): Entries {
    set k | k in entries && k.1.CompleteAllowance?
  }

  lemma WindowIsRecent(rows: seq<Row>, now: Time, i: nat)
    requires i < |RecentWindow(rows, now)|
    ensures var r := RecentWindow(rows, now)[i]; r in rows && r.lifecycle.Complete? && r.eligibleAt > now
  {
    var recent := Recent(rows, now);
    var tail := if |recent| <= SCAN_LIMIT then recent else recent[|recent| - SCAN_LIMIT..];
    FilterMembers(rows, (r: Row) => r.lifecycle.Complete? && r.eligibleAt > now);
    assert RecentWindow(rows, now)[i] == tail[|tail| - 1 - i];
    assert tail[|tail| - 1 - i] in recent;
  }

  /** Nothing but the allowance gives its reason. */
  lemma AllowanceIsSeparate(first: Entries, allowance: Entries, a: Entries, b: Entries)
    requires AllowanceKept(first) == {} && AllowanceKept(a) == {} && AllowanceKept(b) == {}
    requires forall k :: k in allowance ==> k.1.CompleteAllowance?
    ensures AllowanceKept(first + allowance + a + b) == allowance
  {
    forall k | k in first + a + b ensures !k.1.CompleteAllowance? {
      assert k in first && k.1.CompleteAllowance? ==> k in AllowanceKept(first);
      assert k in a && k.1.CompleteAllowance? ==> k in AllowanceKept(a);
      assert k in b && k.1.CompleteAllowance? ==> k in AllowanceKept(b);
    }
  }

  lemma AddedIsTheAllowance(rows: seq<Row>, external: seq<Protection>, active: Option<Key>, previous: Option<Key>,
                            heat: set<Key>, now: Time)
    ensures var kept := Ids(KeptFirst(rows, external, active, previous, heat, now));
            AllowanceKept(Protections(rows, external, active, previous, heat, now)) ==
            Allowance(RecentWindow(rows, now), 0, kept, Room(|kept|, MAX_PROTECTED))
  {
    var first := KeptFirst(rows, external, active, previous, heat, now);
    var room := Room(|Ids(first)|, MAX_PROTECTED);
    AllowanceIsRecent(RecentWindow(rows, now), 0, Ids(first), room);
    AllowanceIsSeparate(first, Allowance(RecentWindow(rows, now), 0, Ids(first), room),
                        AbandonedKept(Young(rows, Staging, now)), AbandonedKept(Young(rows, Failed, now)));
  }

  /**
   * What the allowance adds to the protections: at most three manifests, each complete, not yet old
   * enough to go, and not kept for an earlier reason.
   */
  lemma AllowanceIsBounded(rows: seq<Row>, external: seq<Protection>, active: Option<Key>, previous: Option<Key>,
                           heat: set<Key>, now: Time)
    ensures var added := AllowanceKept(Protections(rows, external, active, previous, heat, now));
            && |added| <= ADDITIONAL_COMPLETE
            && forall k :: k in added ==>
                 && k.0 !in Ids(KeptFirst(rows, external, active, previous, heat, now))
                 && exists r :: r in rows && r.id == k.0 && r.lifecycle.Complete? && r.eligibleAt > now
  {
    var kept := Ids(KeptFirst(rows, external, active, previous, heat, now));
    var window, room := RecentWindow(rows, now), Room(|kept|, MAX_PROTECTED);
    AddedIsTheAllowance(rows, external, active, previous, heat, now);
    AllowanceIsSmall(window, 0, kept, room);
    AllowanceIsRecent(window, 0, kept, room);
    forall k | k in Allowance(window, 0, kept, room)
      ensures exists r :: r in rows && r.id == k.0 && r.lifecycle.Complete? && r.eligibleAt > now
    {
      var j :| 0 <= j < |window| && window[j].id == k.0;
      WindowIsRecent(rows, now, j);
    }
  }

  /** With fewer additions than there is room for, every manifest of the window is kept. */
  lemma AllowanceIsUsedUp(rows: seq<Row>, external: seq<Protection>, active: Option<Key>, previous: Option<Key>,
                          heat: set<Key>, now: Time, i: nat)
    requires i < |RecentWindow(rows, now)|
    requires |AllowanceKept(Protections(rows, external, active, previous, heat, now))| <
             Room(|Ids(KeptFirst(rows, external, active, previous, heat, now))|, MAX_PROTECTED)
    ensures RecentWindow(rows, now)[i].id in Ids(Protections(rows, external, active, previous, heat, now))
  {
    var first := KeptFirst(rows, external, active, previous, heat, now);
    var window, id := RecentWindow(rows, now), RecentWindow(rows, now)[i].id;
    AddedIsTheAllowance(rows, external, active, previous, heat, now);
    ShortAllowanceKeepsAll(window, 0, Ids(first), Room(|Ids(first)|, MAX_PROTECTED), i);
    if id in Ids(first) {
      var k :| k in first && k.0 == id;
      assert k in Protections(rows, external, active, previous, heat, now);
    } else {
      assert (id, CompleteAllowance) in AllowanceKept(Protections(rows, external, active, previous, heat, now));
    }
  }

  // ----- The loops -----

  method ProtectHeatReferences(entries: Entries, documents: seq<Row>, heat: set<Key>) returns (r: Entries)
    ensures r == entries + HeatKept(documents, heat)
  {
    r := entries;
    for i := 0 to |documents|
      invariant r == entries + HeatKept(documents[..i], heat)
    {
      assert documents[..i + 1] == documents[..i] + [documents[i]];
      if documents[i].id in heat {
        r := r + {(documents[i].id, HeatReference)};
      }
    }
    assert documents[..|documents|] == documents;
  }

  method ProtectExternal(external: seq<Protection>) returns (r: Entries)
    ensures r == ExternalKept(external)
  {
    r := {};
    for i := 0 to |external|
      invariant r == ExternalKept(external[..i])
    {
      assert external[..i + 1] == external[..i] + [external[i]];
      r := r + {(external[i].id, External(external[i].code))};
    }
    assert external[..|external|] == external;
  }

  method ProtectAbandoned(entries: Entries, young: seq<Row>) returns (r: Entries)
    ensures r == entries + AbandonedKept(young)
  {
    r := entries;
    for i := 0 to |young|
      invariant r == entries + AbandonedKept(young[..i])
    {
      assert young[..i + 1] == young[..i] + [young[i]];
      r := r + {(young[i].id, AbandonedAllowance)};
    }
    assert young[..|young|] == young;
  }

  lemma UnionShuffle<T>(a: set<T>, x: T, b: set<T>)
    ensures (a + {x}) + b == a + ({x} + b)
  {
  }

  /** Fills the allowance, stopping at three additions or at the protection bound; `already` has the entries' ids. */
  method ProtectRecent(entries: Entries, already: set<Key>, recent: seq<Row>, limit: nat) returns (r: Entries)
    ensures r == entries + Allowance(recent, 0, already, Room(|already|, limit))
  {
    ghost var left: nat := Room(|already|, limit);
    ghost var target := entries + Allowance(recent, 0, already, left);
    r := entries;
    var kept := already;
    var additional: nat, i: nat := 0, 0;
    while i < |recent|
      invariant i <= |recent| && |kept| == |already| + additional
      invariant left + additional == Room(|already|, limit)
      invariant r + Allowance(recent, i, kept, left) == target
    {
      RoomIsUsedUp(|already|, limit, additional);
      var id := recent[i].id;
      if id in kept {
        i := i + 1;
        continue;
      }
      if additional == ADDITIONAL_COMPLETE || |kept| == limit {
        return;
      }
      UnionShuffle(r, (id, CompleteAllowance), Allowance(recent, i + 1, kept + {id}, left - 1));
      r, kept := r + {(id, CompleteAllowance)}, kept + {id};
      additional, i := additional + 1, i + 1;
      left := left - 1;
    }
  }

  /** More young rows than the bound are more entries than the bound. */
  lemma TooManyYoung(rows: seq<Row>, lifecycle: Lifecycle, now: Time, kept: Entries, limit: nat)
    requires Listing(rows) && |Take(Young(rows, lifecycle, now), limit + 1)| > limit
    requires AbandonedKept(Young(rows, lifecycle, now)) <= kept
    ensures |Ids(kept)| > limit
  {
    var young := Young(rows, lifecycle, now);
    FilteredListing(rows, (r: Row) => r.lifecycle == lifecycle && r.eligibleAt > now);
    IdsOf(young);
    forall id | id in (set r | r in young :: r.id) ensures id in Ids(kept) {
      assert (id, AbandonedAllowance) in AbandonedKept(young);
    }
    SubsetIsNoLarger(set r | r in young :: r.id, Ids(kept));
  }

  /** The last part of both builds: the young rows of either abandoned lifecycle, and the bound. */
  method ProtectYoung(entries: Entries, rows: seq<Row>, now: Time, limit: nat) returns (r: Result<Entries, Error>)
    requires Listing(rows)
    ensures var whole := entries + AbandonedKept(Young(rows, Staging, now)) + AbandonedKept(Young(rows, Failed, now));
            r == if |Ids(whole)| > limit then Refused(RetentionUnsafe) else Success(whole)
  {
    ghost var whole := entries + AbandonedKept(Young(rows, Staging, now)) + AbandonedKept(Young(rows, Failed, now));
    var staging, failed := Young(rows, Staging, now), Young(rows, Failed, now);
    if |Take(staging, limit + 1)| > limit {
      TooManyYoung(rows, Staging, now, whole, limit);
      return Refused(RetentionUnsafe);
    }
    var kept := ProtectAbandoned(entries, staging);
    if |Take(failed, limit + 1)| > limit {
      TooManyYoung(rows, Failed, now, whole, limit);
      return Refused(RetentionUnsafe);
    }
    kept := ProtectAbandoned(kept, failed);
    return if |Ids(kept)| > limit then Refused(RetentionUnsafe) else Success(kept);
  }

  /**
   * The build: it keeps exactly the protection relation, in at most forty manifests, or refuses
   * because a pointer does not resolve or because more would have to be kept.
   */
  method BuildManifestProtections(rows: seq<Row>, external: seq<Protection>, active: Option<Key>, previous: Option<Key>,
                                  heat: set<Key>, now: Time)
    returns (r: Result<Entries, Error>)
    requires Listing(rows)
    ensures var whole := Protections(rows, external, active, previous, heat, now);
            r == if !Resolves(rows, active) || !Resolves(rows, previous) then Refused(ReferenceInvalid)
                 else if |Ids(whole)| > MAX_PROTECTED then Refused(RetentionUnsafe)
                 else Success(whole)
  {
    if !Resolves(rows, active) || !Resolves(rows, previous) {
      return Refused(ReferenceInvalid);
    }
    var entries := ProtectExternal(external);
    if active.Some? {
      entries := entries + {(active.value, ActiveManifest)};
    }
    if previous.Some? {
      entries := entries + {(previous.value, PreviousManifest)};
    }
    assert entries == ExternalKept(external) + PointersKept(active, previous);
    entries := ProtectHeatReferences(entries, HeatWindow(rows, now), heat);
    entries := ProtectRecent(entries, Ids(entries), RecentWindow(rows, now), MAX_PROTECTED);
    r := ProtectYoung(entries, rows, now, MAX_PROTECTED);
  }

  /** The pointers, the external proof and the Heat references found in the window are all kept. */
  lemma ReferencedAreKept(rows: seq<Row>, external: seq<Protection>, active: Option<Key>, previous: Option<Key>,
                          heat: set<Key>, now: Time, kept: set<Key>)
    requires kept == Ids(Protections(rows, external, active, previous, heat, now))
    ensures (active.Some? ==> active.value in kept) && (previous.Some? ==> previous.value in kept)
    ensures forall p :: p in external ==> p.id in kept
    ensures forall r :: r in HeatWindow(rows, now) && r.id in heat ==> r.id in kept
  {
    var whole := Protections(rows, external, active, previous, heat, now);
    assert active.Some? ==> (active.value, ActiveManifest) in whole;
    assert previous.Some? ==> (previous.value, PreviousManifest) in whole;
    assert forall p :: p in external ==> (p.id, External(p.code)) in whole;
    assert forall r :: r in HeatWindow(rows, now) && r.id in heat ==> (r.id, HeatReference) in whole;
  }

  /**
   * No manifest that is selected for deletion is active, previous, externally protected,
   * Heat-referenced, or a staging or failed one still young.
   */
  lemma SelectedManifestIsUnreferenced(rows: seq<Row>, external: seq<Protection>, active: Option<Key>,
                                       previous: Option<Key>, heat: set<Key>, now: Time, selected: Row)
    requires Listing(rows) && |Ids(Protections(rows, external, active, previous, heat, now))| <= MAX_PROTECTED
    requires IsLeast(Some(selected), rows,
                     (r: Row) => Removable(r, Ids(Protections(rows, external, active, previous, heat, now)), now))
    ensures active != Some(selected.id) && previous != Some(selected.id)
    ensures forall p :: p in external ==> p.id != selected.id
    ensures selected.id !in heat
    ensures selected.lifecycle.Complete? || selected.eligibleAt <= now
  {
    SelectedIsUnkept(rows, external, active, previous, heat, now, selected,
                     Ids(Protections(rows, external, active, previous, heat, now)));
  }

  lemma SelectedIsUnkept(rows: seq<Row>, external: seq<Protection>, active: Option<Key>, previous: Option<Key>,
                         heat: set<Key>, now: Time, selected: Row, kept: set<Key>)
    requires kept == Ids(Protections(rows, external, active, previous, heat, now)) && Listing(rows)
             && |kept| <= MAX_PROTECTED
    requires IsLeast(Some(selected), rows, (r: Row) => Removable(r, kept, now))
    ensures active != Some(selected.id) && previous != Some(selected.id) && selected.id !in heat
    ensures forall p :: p in external ==> p.id != selected.id
    ensures selected.lifecycle.Complete? || selected.eligibleAt <= now
  {
    CandidateLiesInTheScannedWindow(rows, kept, MAX_PROTECTED, now, selected);
    assert selected in HeatWindow(rows, now);
    ReferencedAreKept(rows, external, active, previous, heat, now, kept);
  }

  // ----- Provider releases of one platform -----

  /** One manifest edge to a release of the platform. */
  datatype Reference = Reference(release: Key, manifest: Key)

  ghost function ReferencesKept(references: seq<Reference>, activeManifest: Option<Key>): Entries {
    (set r | r in references :: (r.release, RetainedManifestReference))
    + (set r | r in references && activeManifest == Some(r.manifest) :: (r.release, ActiveHead))
  }

  ghost function PendingKept(pending: seq<Key>): Entries {
    set id | id in pending :: (id, InFlightAttempt)
  }

  ghost function ReleasesKeptFirst(external: seq<Protection>, pending: seq<Key>, references: seq<Reference>,
                                   activeManifest: Option<Key>, head: Option<Key>): Entries {
    ExternalKept(external) + PendingKept(pending) + ReferencesKept(references, activeManifest)
    + (if head.Some? then {(head.value, CompletedHead)} else {})
  }

  ghost function ReleaseProtections(rows: seq<Row>, external: seq<Protection>, pending: seq<Key>,
                                    references: seq<Reference>,
                                    activeManifest: Option<Key>, head: Option<Key>, now: Time): Entries {
    var first := ReleasesKeptFirst(external, pending, references, activeManifest, head);
    first
    + Allowance(TakeLast(Recent(rows, now), MAX_PROTECTED_RELEASES + 1), 0, Ids(first),
                Room(|Ids(first)|, MAX_PROTECTED_RELEASES))
    + AbandonedKept(Young(rows, Staging, now)) + AbandonedKept(Young(rows, Failed, now))
  }

  method ProtectReferences(entries: Entries, references: seq<Reference>, activeManifest: Option<Key>)
    returns (r: Entries)
    ensures r == entries + ReferencesKept(references, activeManifest)
  {
    r := entries;
    for i := 0 to |references|
      invariant r == entries + ReferencesKept(references[..i], activeManifest)
    {
      assert references[..i + 1] == references[..i] + [references[i]];
      r := r + {(references[i].release, RetainedManifestReference)};
      if activeManifest == Some(references[i].manifest) {
        r := r + {(references[i].release, ActiveHead)};
      }
    }
    assert references[..|references|] == references;
  }

  method ProtectPending(entries: Entries, pending: seq<Key>) returns (r: Entries)
    ensures r == entries + PendingKept(pending)
  {
    r := entries;
    for i := 0 to |pending|
      invariant r == entries + PendingKept(pending[..i])
    {
      assert forall id :: id in pending[..i + 1] <==> id in pending[..i] || id == pending[i];
      r := r + {(pending[i], InFlightAttempt)};
    }
    assert pending[..|pending|] == pending;
  }

  /** The first part of the build: the external proof, the pending attempts, the manifest edges and the head. */
  method GatherFirst(external: seq<Protection>, pending: seq<Key>, references: seq<Reference>,
                     activeManifest: Option<Key>, head: Option<Key>)
    returns (entries: Entries)
    ensures entries == ReleasesKeptFirst(external, pending, references, activeManifest, head)
  {
    entries := ProtectExternal(external);
    entries := ProtectPending(entries, pending);
    entries := ProtectReferences(entries, references, activeManifest);
    if head.Some? {
      entries := entries + {(head.value, CompletedHead)};
    }
  }

  /** The build for one platform: exactly the protection relation, in at most eighty releases, or a refusal. */
  method BuildProviderProtections(rows: seq<Row>, external: seq<Protection>, pending: seq<Key>,
                                  references: seq<Reference>, activeManifest: Option<Key>, head: Option<Key>, now: Time)
    returns (r: Result<Entries, Error>)
    requires Listing(rows)
    ensures var whole := ReleaseProtections(rows, external, pending, references, activeManifest, head, now);
            r == if !Resolves(rows, head) then Refused(ReferenceInvalid)
                 else if |Ids(whole)| > MAX_PROTECTED_RELEASES then Refused(RetentionUnsafe)
                 else Success(whole)
  {
    if !Resolves(rows, head) {
      return Refused(ReferenceInvalid);
    }
    var entries := GatherFirst(external, pending, references, activeManifest, head);
    entries :=
      ProtectRecent(entries, Ids(entries), TakeLast(Recent(rows, now), MAX_PROTECTED_RELEASES + 1),
                    MAX_PROTECTED_RELEASES);
    r := ProtectYoung(entries, rows, now, MAX_PROTECTED_RELEASES);
  }

  /**
   * No release that is selected is a completed head, referenced, in flight, externally protected, or young
   * and abandoned.
   */
  lemma SelectedReleaseIsUnreferenced(rows: seq<Row>, external: seq<Protection>, pending: seq<Key>,
                                      references: seq<Reference>,
                                      activeManifest: Option<Key>, head: Option<Key>, now: Time, selected: Row)
    requires Listing(rows)
    requires IsLeast(Some(selected), rows,
                     (r: Row) =>
                       Removable(r, Ids(ReleaseProtections(rows, external, pending, references, activeManifest, head,
                                                           now)), now))
    ensures head != Some(selected.id) && selected.id !in pending
    ensures (forall p :: p in external ==> p.id != selected.id)
            && forall e :: e in references ==> e.release != selected.id
    ensures selected.lifecycle.Complete? || selected.eligibleAt <= now
  {
    var whole := ReleaseProtections(rows, external, pending, references, activeManifest, head, now);
    assert head == Some(selected.id) ==> (selected.id, CompletedHead) in whole;
    assert forall p :: p in external ==> (p.id, External(p.code)) in whole;
    assert forall e :: e in references ==> (e.release, RetainedManifestReference) in whole;
    assert forall id :: id in pending ==> (id, InFlightAttempt) in whole;
  }
}
