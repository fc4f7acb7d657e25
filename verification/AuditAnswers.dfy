/**
 * What one page of the reference audit reads and answers, wherever the stored record points: how many
 * rows it takes, when it is refused, and which record it leaves; and which stores the audit passes.
 * Everything is stated on the listings.
 */
module AuditAnswers {
  import opened Prelude
  import opened Lists
  import opened AuditPaging
  import A = ReferenceAudit
  import M = ManifestPublication

  /** A page starts behind every row up to the cursor. */
  predicate StartsAt(keys: seq<Key>, cursor: Option<Key>, from: nat) {
    && from <= |keys|
    && (cursor.None? ==> from == 0)
    && (cursor.Some? ==> forall i :: 0 <= i < |keys| ==> (keys[i] <= cursor.value <==> i < from))
  }

  lemma {:induction false} CursorStarts(keys: seq<Key>, cursor: Option<Key>)
    requires Listed(keys)
    ensures StartsAt(keys, cursor, Through(keys, cursor))
  {
    if keys != [] && cursor.Some? && keys[|keys| - 1] > cursor.value {
      CursorStarts(keys[..|keys| - 1], cursor);
    }
  }

  lemma StartIsThrough(keys: seq<Key>, cursor: Option<Key>, from: nat)
    requires Listed(keys) && StartsAt(keys, cursor, from)
    ensures Through(keys, cursor) == from
  {
    CursorStarts(keys, cursor);
    var n := Through(keys, cursor);
    if cursor.Some? {
      assert n < |keys| ==> (keys[n] <= cursor.value <==> n < from);
      assert from < |keys| ==> (keys[from] <= cursor.value <==> from < n);
    }
  }

  /** Rows `from` to `to` pass, each below the next row. */
  ghost predicate RowsPass(ids: seq<Key>, fine: nat -> bool, from: nat, to: nat)
    requires to <= |ids|
  {
    forall i :: from <= i < to ==> fine(i) && (i + 1 < |ids| ==> ids[i] < ids[i + 1])
  }

  lemma RowsOnListing(ids: seq<Key>, fine: nat -> bool, from: nat, to: nat)
    requires from <= to <= |ids|
    ensures RowsPass(ids, fine, from, to) <==> forall i :: from <= i < to ==> RowPasses(ids, fine, i)
  {
    if RowsPass(ids, fine, from, to) {
      forall i | from <= i < to ensures RowPasses(ids, fine, i) {
        assert fine(i);
      }
    }
    if forall i :: from <= i < to ==> RowPasses(ids, fine, i) {
      forall i | from <= i < to ensures fine(i) && (i + 1 < |ids| ==> ids[i] < ids[i + 1]) {
        assert RowPasses(ids, fine, i);
      }
    }
  }

  /** With more than thirty-two manifests left a page takes thirty-two, and goes on at the last of them. */
  lemma ManifestPageAnswers(ids: seq<Key>, fine: nat -> bool, groups: seq<Key>, owned: nat -> bool, p: Progress,
                            from: nat)
    requires Listed(ids) && p.phase.Manifests? && StartsAt(ids, p.cursor, from) && from + 32 < |ids|
    ensures PageStep(ids, fine, groups, owned, p) ==
            if RowsPass(ids, fine, from, from + 32) then Success(Progress(Manifests, Some(ids[from + 31]), false))
            else Refused(ReferenceInvalid)
  {
    StartIsThrough(ids, p.cursor, from);
    RowsOnListing(ids, fine, from, from + 32);
  }

  /** With no more than that it takes them all, and begins with the edges. */
  lemma LastManifestPageAnswers(ids: seq<Key>, fine: nat -> bool, groups: seq<Key>, owned: nat -> bool, p: Progress,
                                from: nat)
    requires Listed(ids) && p.phase.Manifests? && StartsAt(ids, p.cursor, from) && |ids| <= from + 32
    ensures PageStep(ids, fine, groups, owned, p) ==
            if RowsPass(ids, fine, from, |ids|) then PageStep(ids, fine, groups, owned, Progress(Edges, None, false))
            else Refused(ReferenceInvalid)
  {
    StartIsThrough(ids, p.cursor, from);
    RowsOnListing(ids, fine, from, |ids|);
    assert Through(groups, None) == 0;
  }

  /** Position `to` is where the last of the groups among rows `from` to `from + 41` begins. */
  predicate LastGroupStarts(groups: seq<Key>, from: nat, to: nat) {
    && from <= to < from + 41 <= |groups|
    && (forall i :: to <= i < from + 41 ==> groups[i] == groups[to])
    && (to > from ==> groups[to - 1] != groups[to])
  }

  /** The last group of a read that is full is left for the next page; one group that fills it is refused. */
  lemma EdgePageAnswers(ids: seq<Key>, fine: nat -> bool, groups: seq<Key>, owned: nat -> bool, p: Progress, from: nat,
                        to: nat)
    requires Listed(groups) && p.phase.Edges? && StartsAt(groups, p.cursor, from) && LastGroupStarts(groups, from, to)
    ensures PageStep(ids, fine, groups, owned, p) ==
            if from < to && (forall i :: from <= i < to ==> owned(i)) then
              Success(Progress(Edges, Some(groups[to - 1]), false))
            else Refused(ReferenceInvalid)
  {
    StartIsThrough(groups, p.cursor, from);
    LastStartIs(groups, from, from + 41, to);
  }

  /** A read that is not full takes every edge left and completes the audit. */
  lemma LastEdgePageAnswers(ids: seq<Key>, fine: nat -> bool, groups: seq<Key>, owned: nat -> bool, p: Progress,
                            from: nat)
    requires Listed(groups) && p.phase.Edges? && StartsAt(groups, p.cursor, from) && |groups| < from + 41
    ensures PageStep(ids, fine, groups, owned, p) ==
            if forall i :: from <= i < |groups| ==> owned(i) then Success(Progress(Edges, None, true))
            else Refused(ReferenceInvalid)
  {
    StartIsThrough(groups, p.cursor, from);
  }

  // ----- Which stores pass -----

  /** The edge index: by manifest, then by platform, each edge once. */
  predicate EdgesListed(es: seq<M.Edge>) {
    forall i, j :: 0 <= i < j < |es| ==>
                     && es[i] != es[j]
                     && (es[i].manifest < es[j].manifest
                         || (es[i].manifest == es[j].manifest
                             && es[i].reference.release.platform <= es[j].reference.release.platform))
  }

  /** One to eight references to distinct platforms in order, each proven, and exactly their edges. */
  predicate EdgesExact(s: A.Store, m: M.Manifest) {
    && 1 <= |m.references| <= 8
    && (forall i, j :: 0 <= i < j < |m.references| ==>
                         m.references[i].release.platform < m.references[j].release.platform)
    && (forall i :: 0 <= i < |m.references| ==> m.references[i] in s.completed)
    && (forall e :: e in s.edges && e.manifest == m.publicId ==> e.reference in m.references)
    && (forall r :: r in m.references ==> M.Edge(m.publicId, r) in s.edges)
  }

  /** Every id once, every manifest under its own id with exact edges, and no edge of anything else. */
  predicate Passes(s: A.Store) {
    && (forall i, j :: 0 <= i < j < |s.manifests| ==> s.manifests[i].publicId < s.manifests[j].publicId)
    && (forall i :: 0 <= i < |s.manifests| ==>
          s.manifests[i].manifest.publicId == s.manifests[i].publicId && EdgesExact(s, s.manifests[i].manifest))
    && (forall e :: e in s.edges ==> exists k :: 0 <= k < |s.manifests| && s.manifests[k].publicId == e.manifest)
  }

  lemma ExactnessOnRows(s: A.Store, m: M.Manifest)
    requires EdgesListed(s.edges)
    ensures M.WellFormed(m) && A.Exact(s, m) <==> EdgesExact(s, m)
  {
    FilterMembers(s.edges, (e: M.Edge) => e.manifest == m.publicId);
    if M.WellFormed(m) {
      A.ExpectedAscends(m);
      if A.Exact(s, m) {
        A.ExactIsWhole(s, m);
        forall r | r in m.references ensures M.Edge(m.publicId, r) in s.edges {
          assert M.Edge(m.publicId, r) in A.Expected(m);
        }
        forall e | e in s.edges && e.manifest == m.publicId ensures e.reference in m.references {
          assert e in A.EdgesOf(s.edges, m.publicId);
        }
      }
      if EdgesExact(s, m) {
        assert forall i, j :: 0 <= i < j < |s.edges| ==> A.EdgeBefore(s.edges[i], s.edges[j]);
        A.ListedEdgesAscend(s.edges, m);
        A.AscendingEdgesAgree(A.EdgesOf(s.edges, m.publicId), A.Expected(m));
      }
    }
  }

  lemma FoundById(s: A.Store, k: nat)
    requires k < |s.manifests|
    requires forall i, j :: 0 <= i < j < |s.manifests| ==> s.manifests[i].publicId < s.manifests[j].publicId
    ensures A.Lookup(s.manifests, s.manifests[k].publicId) == Some(s.manifests[k].manifest)
  {
    var id := s.manifests[k].publicId;
    A.LookupFinds(s.manifests, id);
    var found := A.Lookup(s.manifests, id);
    assert s.manifests[k] in s.manifests;
    var i :| 0 <= i < |s.manifests| && s.manifests[i] == A.Row(id, found.value);
    assert i == k;
  }

  /** The audited property, row by row: the audit passes a store exactly if this holds. */
  lemma ExactStoresPass(s: A.Store)
    requires EdgesListed(s.edges)
    ensures A.ExactStore(s) <==> Passes(s)
  {
    if A.ExactStore(s) {
      ExactIsPassed(s);
    }
    if Passes(s) {
      PassedIsExact(s);
    }
  }

  lemma ExactIsPassed(s: A.Store)
    requires A.ExactStore(s) && EdgesListed(s.edges)
    ensures Passes(s)
  {
    forall i | 0 <= i < |s.manifests|
      ensures s.manifests[i].manifest.publicId == s.manifests[i].publicId && EdgesExact(s, s.manifests[i].manifest)
    {
      assert A.Fine(s, i);
      ExactnessOnRows(s, s.manifests[i].manifest);
    }
    forall e | e in s.edges ensures exists k :: 0 <= k < |s.manifests| && s.manifests[k].publicId == e.manifest {
      var i :| 0 <= i < |s.edges| && s.edges[i] == e;
      assert A.Owned(s, i);
      A.LookupFinds(s.manifests, e.manifest);
    }
  }

  lemma PassedIsExact(s: A.Store)
    requires Passes(s) && EdgesListed(s.edges)
    ensures A.ExactStore(s)
  {
    forall i | 0 <= i < |s.manifests| ensures A.Fine(s, i) {
      ExactnessOnRows(s, s.manifests[i].manifest);
    }
    forall i | 0 <= i < |s.edges| ensures A.Owned(s, i) {
      assert s.edges[i] in s.edges;
      var k :| 0 <= k < |s.manifests| && s.manifests[k].publicId == s.edges[i].manifest;
      FoundById(s, k);
      ExactnessOnRows(s, s.manifests[k].manifest);
    }
  }
}
