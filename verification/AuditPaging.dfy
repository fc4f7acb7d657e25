/**
 * The paging of the resumable reference audit: a first listing row by row, then a second one group
 * by group, each page continuing after the last key it settled. What a row must satisfy is the
 * caller's: `fine` for a row of the first listing, `owned` for a row of the second.
 */
module AuditPaging {
  import opened Prelude
  import M = ManifestPublication

  const PAGE_SIZE: nat := 32
  const MAX_REFERENCES: nat := M.MAX_REFERENCES
  const EDGE_READ_LIMIT: nat := PAGE_SIZE + MAX_REFERENCES + 1

  datatype Phase = Manifests | Edges
  datatype Progress = Progress(phase: Phase, cursor: Option<Key>, complete: bool)
  datatype Error = ReferenceInvalid

  /** Index order; equal keys are possible. */
  predicate Listed(keys: seq<Key>) {
    forall i, j :: 0 <= i < j < |keys| ==> keys[i] <= keys[j]
  }

  /** The first `n` rows pass, in strictly ascending order up to and including the next one. */
  ghost predicate Settled(ids: seq<Key>, fine: nat -> bool, n: nat)
    requires n <= |ids|
  {
    n > 0 ==> Settled(ids, fine, n - 1) && fine(n - 1) && (n < |ids| ==> ids[n - 1] < ids[n])
  }

  /** Each of the first `n` rows passes. */
  ghost predicate AllOwned(owned: nat -> bool, n: nat) {
    n > 0 ==> AllOwned(owned, n - 1) && owned(n - 1)
  }

  /** Row `n` starts a new group. */
  ghost predicate AtGroupStart(groups: seq<Key>, n: nat) {
    0 < n < |groups| ==> groups[n - 1] < groups[n]
  }

  /** No group has more rows than a manifest may have references. */
  predicate NarrowGroups(groups: seq<Key>) {
    forall i :: 0 <= i && i + MAX_REFERENCES < |groups| ==> groups[i] != groups[i + MAX_REFERENCES]
  }

  lemma {:induction false} SettledBefore(ids: seq<Key>, fine: nat -> bool, n: nat, i: nat)
    requires i < n <= |ids| && Settled(ids, fine, n)
    ensures fine(i) && (i + 1 < |ids| ==> ids[i] < ids[i + 1])
  {
    if i < n - 1 {
      SettledBefore(ids, fine, n - 1, i);
    }
  }

  lemma {:induction false} OwnedBefore(owned: nat -> bool, n: nat, i: nat)
    requires i < n && AllOwned(owned, n)
    ensures owned(i)
  {
    if i < n - 1 {
      OwnedBefore(owned, n - 1, i);
    }
  }

  // ----- Index ranges -----

  /** How many rows have a key up to the cursor: a query past the cursor starts there. */
  function Through(keys: seq<Key>, cursor: Option<Key>): (n: nat)
    ensures n <= |keys|
  {
    if keys == [] || cursor.None? then 0
    else if keys[|keys| - 1] <= cursor.value then |keys|
    else Through(keys[..|keys| - 1], cursor)
  }

  lemma {:induction false} ThroughAt(keys: seq<Key>, k: nat)
    requires Listed(keys) && 0 < k <= |keys| && (k < |keys| ==> keys[k - 1] < keys[k])
    ensures Through(keys, Some(keys[k - 1])) == k
  {
    if k < |keys| {
      ThroughAt(keys[..|keys| - 1], k);
    }
  }

  lemma {:induction false} ThroughPasses(keys: seq<Key>, cursor: Option<Key>, i: nat)
    requires Listed(keys) && Through(keys, cursor) <= i < |keys| && cursor.Some?
    ensures keys[i] > cursor.value
  {
    if keys[|keys| - 1] > cursor.value && i < |keys| - 1 {
      ThroughPasses(keys[..|keys| - 1], cursor, i);
    }
  }

  // ----- What one page settles -----

  function RowsEnd(ids: seq<Key>, from: nat): nat {
    if |ids| <= from + PAGE_SIZE then |ids| else from + PAGE_SIZE
  }

  predicate RowPasses(ids: seq<Key>, fine: nat -> bool, i: nat)
    requires i < |ids|
  {
    fine(i) && (i + 1 < |ids| ==> ids[i] < ids[i + 1])
  }

  function SettledRows(ids: seq<Key>, fine: nat -> bool, from: nat): Result<nat, Error> {
    if exists i :: from <= i < RowsEnd(ids, from) && !RowPasses(ids, fine, i) then Refused(ReferenceInvalid)
    else Success(RowsEnd(ids, from))
  }

  /** Where the last group of `groups[from..to]` begins. */
  function LastStart(groups: seq<Key>, from: nat, to: nat): (start: nat)
    requires from < to <= |groups|
    ensures from <= start < to
  {
    if to == from + 1 || groups[to - 2] != groups[to - 1] then to - 1 else LastStart(groups, from, to - 1)
  }

  lemma {:induction false} LastStartIs(groups: seq<Key>, from: nat, to: nat, start: nat)
    requires from <= start < to <= |groups| && forall i :: start <= i < to ==> groups[i] == groups[start]
    requires start > from ==> groups[start - 1] != groups[start]
    ensures LastStart(groups, from, to) == start
  {
    if start < to - 1 {
      assert groups[to - 2] == groups[start] == groups[to - 1];
      LastStartIs(groups, from, to - 1, start);
    }
  }

  function GroupsEnd(groups: seq<Key>, from: nat): nat {
    if |groups| < from + EDGE_READ_LIMIT then |groups| else LastStart(groups, from, from + EDGE_READ_LIMIT)
  }

  function SettledGroups(groups: seq<Key>, owned: nat -> bool, from: nat): Result<nat, Error> {
    var to := GroupsEnd(groups, from);
    if |groups| >= from + EDGE_READ_LIMIT && to == from then Refused(ReferenceInvalid)
    else if exists i :: from <= i < to && !owned(i) then Refused(ReferenceInvalid)
    else Success(to)
  }

  function EdgesStep(groups: seq<Key>, owned: nat -> bool, from: nat): Result<Progress, Error> {
    var audited := SettledGroups(groups, owned, from);
    if audited.Refused? then Refused(audited.error)
    else if |groups| < from + EDGE_READ_LIMIT then Success(Progress(Edges, None, true))
    else Success(Progress(Edges, Some(groups[audited.value - 1]), false))
  }

  /** `auditCatalogManifestProviderReferencePage`, from whatever a progress record says. */
  function PageStep(ids: seq<Key>, fine: nat -> bool, groups: seq<Key>, owned: nat -> bool,
                    p: Progress): Result<Progress, Error>
  {
    if p.phase.Edges? then EdgesStep(groups, owned, Through(groups, p.cursor))
    else
      var rows := SettledRows(ids, fine, Through(ids, p.cursor));
      if rows.Refused? then Refused(rows.error)
      else if rows.value < |ids| then Success(Progress(Manifests, Some(ids[rows.value - 1]), false))
      else EdgesStep(groups, owned, 0)
  }

  /** The next record continues strictly further, at a key of the listing it continues in, or completes. */
  ghost predicate Forward(ids: seq<Key>, groups: seq<Key>, p: Progress, next: Progress) {
    if next.complete then next == Progress(Edges, None, true)
    else
      && next.cursor.Some?
      && next.cursor.value in (if next.phase.Manifests? then ids else groups)
      && (next.phase.Manifests? ==> p.phase.Manifests?)
      && (next.phase == p.phase && p.cursor.Some? ==> p.cursor.value < next.cursor.value)
  }

  lemma RowsAreAccepted(ids: seq<Key>, fine: nat -> bool, from: nat)
    requires from <= |ids| && Settled(ids, fine, |ids|)
    ensures SettledRows(ids, fine, from) == Success(RowsEnd(ids, from))
  {
    forall i | from <= i < RowsEnd(ids, from) ensures RowPasses(ids, fine, i) {
      SettledBefore(ids, fine, |ids|, i);
    }
  }

  lemma GroupsAreAccepted(groups: seq<Key>, owned: nat -> bool, from: nat)
    requires from <= |groups| && AllOwned(owned, |groups|) && NarrowGroups(groups)
    ensures SettledGroups(groups, owned, from) == Success(GroupsEnd(groups, from))
    ensures |groups| >= from + EDGE_READ_LIMIT ==> from < GroupsEnd(groups, from)
  {
    forall i | from <= i < GroupsEnd(groups, from) ensures owned(i) {
      OwnedBefore(owned, |groups|, i);
    }
    if |groups| >= from + EDGE_READ_LIMIT {
      assert groups[from] != groups[from + MAX_REFERENCES];
      NotOneGroup(groups, from, from + EDGE_READ_LIMIT);
    }
  }

  lemma NotOneGroup(groups: seq<Key>, from: nat, to: nat)
    requires from < to <= |groups| && from + MAX_REFERENCES < to && groups[from] != groups[from + MAX_REFERENCES]
    ensures LastStart(groups, from, to) > from
  {
    OneGroup(groups, from, to, from);
    OneGroup(groups, from, to, from + MAX_REFERENCES);
  }

  lemma {:induction false} OneGroup(groups: seq<Key>, from: nat, to: nat, i: nat)
    requires from <= i < to <= |groups|
    ensures LastStart(groups, from, to) == from ==> groups[i] == groups[to - 1]
  {
    if i < to - 1 {
      OneGroup(groups, from, to - 1, i);
    }
  }

  lemma EdgesGoForward(groups: seq<Key>, owned: nat -> bool, cursor: Option<Key>)
    requires Listed(groups) && AllOwned(owned, |groups|) && NarrowGroups(groups)
    ensures var r := EdgesStep(groups, owned, Through(groups, cursor));
            && r.Success? && r.value.phase.Edges?
            && (if r.value.complete then r.value.cursor.None?
                else
                  && r.value.cursor.Some? && r.value.cursor.value in groups
                  && (cursor.Some? ==> cursor.value < r.value.cursor.value))
  {
    var from := Through(groups, cursor);
    GroupsAreAccepted(groups, owned, from);
    if |groups| >= from + EDGE_READ_LIMIT && cursor.Some? {
      ThroughPasses(groups, cursor, GroupsEnd(groups, from) - 1);
    }
  }

  /** On listings that pass, no page is refused, wherever the record of an earlier page points. */
  lemma PassingPageGoesForward(ids: seq<Key>, fine: nat -> bool, groups: seq<Key>, owned: nat -> bool, p: Progress)
    requires Listed(ids) && Settled(ids, fine, |ids|) && Listed(groups) && AllOwned(owned, |groups|)
             && NarrowGroups(groups)
    ensures PageStep(ids, fine, groups, owned, p).Success?
    ensures Forward(ids, groups, p, PageStep(ids, fine, groups, owned, p).value)
  {
    if p.phase.Manifests? {
      var from := Through(ids, p.cursor);
      RowsAreAccepted(ids, fine, from);
      EdgesGoForward(groups, owned, None);
      assert Through(groups, None) == 0;
      if RowsEnd(ids, from) < |ids| && p.cursor.Some? {
        ThroughPasses(ids, p.cursor, RowsEnd(ids, from) - 1);
      }
    } else {
      EdgesGoForward(groups, owned, p.cursor);
    }
  }

  // ----- Progress -----

  /** What a progress record stands for: the rows settled so far. */
  ghost predicate Reached(ids: seq<Key>, fine: nat -> bool, groups: seq<Key>, owned: nat -> bool, p: Progress) {
    match p.phase
    case Manifests => !p.complete && Settled(ids, fine, Through(ids, p.cursor))
    case Edges =>
      && Settled(ids, fine, |ids|)
      && (if p.complete then p.cursor.None? && AllOwned(owned, |groups|)
          else AllOwned(owned, Through(groups, p.cursor)) && AtGroupStart(groups, Through(groups, p.cursor)))
  }

  /** What is still to do. */
  function Left(ids: seq<Key>, groups: seq<Key>, p: Progress): nat {
    if p.complete then 0
    else if p.phase.Manifests? then |ids| - Through(ids, p.cursor) + |groups| + 2
    else |groups| - Through(groups, p.cursor) + 1
  }

  // ----- What a page means -----

  lemma {:induction false} RowsSettle(ids: seq<Key>, fine: nat -> bool, from: nat, n: nat)
    requires from <= n <= |ids| && Settled(ids, fine, from) && forall i :: from <= i < n ==> RowPasses(ids, fine, i)
    ensures Settled(ids, fine, n)
    decreases n
  {
    if from < n {
      RowsSettle(ids, fine, from, n - 1);
      assert RowPasses(ids, fine, n - 1);
    }
  }

  lemma {:induction false} RowsOwned(owned: nat -> bool, from: nat, n: nat)
    requires from <= n && AllOwned(owned, from) && forall i :: from <= i < n ==> owned(i)
    ensures AllOwned(owned, n)
    decreases n
  {
    if from < n {
      RowsOwned(owned, from, n - 1);
    }
  }

  lemma {:induction false} LastStartBreaks(groups: seq<Key>, from: nat, to: nat)
    requires from < to <= |groups|
    ensures var start := LastStart(groups, from, to); start > from ==> groups[start - 1] != groups[start]
  {
    if !(to == from + 1 || groups[to - 2] != groups[to - 1]) {
      LastStartBreaks(groups, from, to - 1);
    }
  }

  lemma EndStartsAGroup(groups: seq<Key>, from: nat)
    requires Listed(groups) && |groups| >= from + EDGE_READ_LIMIT && GroupsEnd(groups, from) > from
    ensures var to := GroupsEnd(groups, from);
            to < |groups| && Through(groups, Some(groups[to - 1])) == to && AtGroupStart(groups, to)
  {
    var to := GroupsEnd(groups, from);
    LastStartBreaks(groups, from, from + EDGE_READ_LIMIT);
    assert groups[to - 1] < groups[to];
    ThroughAt(groups, to);
  }

  lemma EdgesReach(ids: seq<Key>, fine: nat -> bool, groups: seq<Key>, owned: nat -> bool, from: nat)
    requires Listed(groups) && from <= |groups| && Settled(ids, fine, |ids|) && AllOwned(owned, from)
    requires EdgesStep(groups, owned, from).Success?
    ensures Reached(ids, fine, groups, owned, EdgesStep(groups, owned, from).value)
    ensures Left(ids, groups, EdgesStep(groups, owned, from).value) < |groups| - from + 1
  {
    var to := GroupsEnd(groups, from);
    RowsOwned(owned, from, to);
    if |groups| >= from + EDGE_READ_LIMIT {
      EndStartsAGroup(groups, from);
    }
  }

  /** A page from a record that stands for settled rows: its successor stands for more of them, and less is left. */
  lemma PageReaches(ids: seq<Key>, fine: nat -> bool, groups: seq<Key>, owned: nat -> bool, p: Progress)
    requires Listed(ids) && Listed(groups) && Reached(ids, fine, groups, owned, p) && !p.complete
    requires PageStep(ids, fine, groups, owned, p).Success?
    ensures var next := PageStep(ids, fine, groups, owned, p).value;
            Reached(ids, fine, groups, owned, next) && Left(ids, groups, next) < Left(ids, groups, p)
  {
    if p.phase.Manifests? {
      var from := Through(ids, p.cursor);
      var n := RowsEnd(ids, from);
      RowsSettle(ids, fine, from, n);
      if n < |ids| {
        SettledBefore(ids, fine, n, n - 1);
        ThroughAt(ids, n);
      } else {
        EdgesReach(ids, fine, groups, owned, 0);
      }
    } else {
      EdgesReach(ids, fine, groups, owned, Through(groups, p.cursor));
    }
  }

  /** A page is refused only when the whole could not be settled. */
  lemma RefusedPageFoundAFault(ids: seq<Key>, fine: nat -> bool, groups: seq<Key>, owned: nat -> bool, p: Progress)
    requires Listed(ids) && Listed(groups) && PageStep(ids, fine, groups, owned, p).Refused?
    ensures !Settled(ids, fine, |ids|) || !AllOwned(owned, |groups|) || !NarrowGroups(groups)
  {
    if Settled(ids, fine, |ids|) && AllOwned(owned, |groups|) && NarrowGroups(groups) {
      PassingPageGoesForward(ids, fine, groups, owned, p);
    }
  }

  // ----- Pages -----

  /** One page of the first listing: 32 rows, and strict order across them and the lookahead row. */
  method SettleRows(ids: seq<Key>, fine: nat -> bool, from: nat) returns (r: Result<nat, Error>)
    requires from <= |ids|
    ensures r == SettledRows(ids, fine, from)
    ensures r.Success? && Settled(ids, fine, from) ==> Settled(ids, fine, r.value)
  {
    var to := if |ids| - from <= PAGE_SIZE then |ids| else from + PAGE_SIZE;
    var i := from;
    while i < to
      invariant from <= i <= to && forall k :: from <= k < i ==> RowPasses(ids, fine, k)
    {
      if !fine(i) || (i + 1 < |ids| && ids[i] >= ids[i + 1]) {
        assert !RowPasses(ids, fine, i);
        return Refused(ReferenceInvalid);
      }
      i := i + 1;
    }
    if Settled(ids, fine, from) {
      RowsSettle(ids, fine, from, to);
    }
    return Success(to);
  }

  /** Where the last group of `groups[from..to]` begins. */
  method LastGroup(groups: seq<Key>, from: nat, to: nat) returns (start: nat)
    requires from < to <= |groups|
    ensures start == LastStart(groups, from, to)
  {
    start := from;
    for i := from to to
      invariant from <= start <= i && (start == i ==> i == from)
      invariant forall k :: start <= k < i ==> groups[k] == groups[start]
      invariant start > from ==> groups[start - 1] != groups[start]
    {
      if i > from && groups[i] != groups[i - 1] {
        start := i;
      }
    }
    LastStartIs(groups, from, to, start);
  }

  /** One page of the second listing: 41 rows, or fewer at the end; a last group that may go on is left for later. */
  method SettleGroups(groups: seq<Key>, owned: nat -> bool, from: nat) returns (r: Result<nat, Error>)
    requires from <= |groups|
    ensures r == SettledGroups(groups, owned, from)
    ensures r.Success? && AllOwned(owned, from) ==> r.value <= |groups| && AllOwned(owned, r.value)
  {
    var to := |groups|;
    if |groups| - from >= EDGE_READ_LIMIT {
      to := LastGroup(groups, from, from + EDGE_READ_LIMIT);
      if to == from {
        return Refused(ReferenceInvalid);
      }
    }
    var i := from;
    while i < to
      invariant from <= i <= to && forall k :: from <= k < i ==> owned(k)
    {
      if !owned(i) {
        return Refused(ReferenceInvalid);
      }
      i := i + 1;
    }
    if AllOwned(owned, from) {
      RowsOwned(owned, from, to);
    }
    return Success(to);
  }

  /**
   * One page: settles the next rows of its phase, runs on into the second listing when the first
   * ends, leaves strictly less to do, and is refused only when the whole could not be settled.
   */
  method Page(ids: seq<Key>, fine: nat -> bool, groups: seq<Key>, owned: nat -> bool, p: Progress)
    returns (r: Result<Progress, Error>)
    requires Listed(ids) && Listed(groups)
    ensures r == PageStep(ids, fine, groups, owned, p)
    ensures r.Success? && Reached(ids, fine, groups, owned, p) && !p.complete ==>
              Reached(ids, fine, groups, owned, r.value) && Left(ids, groups, r.value) < Left(ids, groups, p)
    ensures r.Refused? ==> !Settled(ids, fine, |ids|) || !AllOwned(owned, |groups|) || !NarrowGroups(groups)
  {
    r := ReadPage(ids, fine, groups, owned, p);
    if r.Refused? {
      RefusedPageFoundAFault(ids, fine, groups, owned, p);
    } else if Reached(ids, fine, groups, owned, p) && !p.complete {
      PageReaches(ids, fine, groups, owned, p);
    }
  }

  method ReadPage(ids: seq<Key>, fine: nat -> bool, groups: seq<Key>, owned: nat -> bool, p: Progress)
    returns (r: Result<Progress, Error>)
    ensures r == PageStep(ids, fine, groups, owned, p)
  {
    var from := 0;
    if p.phase.Manifests? {
      var settled := SettleRows(ids, fine, Through(ids, p.cursor));
      if settled.Refused? {
        return Refused(settled.error);
      }
      var n := settled.value;
      if n < |ids| {
        return Success(Progress(Manifests, Some(ids[n - 1]), false));
      }
    } else {
      from := Through(groups, p.cursor);
    }
    var audited := SettleGroups(groups, owned, from);
    if audited.Refused? {
      return Refused(audited.error);
    }
    if |groups| - from < EDGE_READ_LIMIT {
      return Success(Progress(Edges, None, true));
    }
    return Success(Progress(Edges, Some(groups[audited.value - 1]), false));
  }
}
