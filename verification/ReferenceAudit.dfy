/**
 * The resumable audit of manifest-to-release edges (`auditCatalogManifestProviderReferencePage`):
 * pages of manifests, then pages of edges. One retention mutation advances it by one page.
 */
module ReferenceAudit {
  import opened Prelude
  import opened Lists
  import opened AuditPaging
  import M = ManifestPublication
  import I = ManifestInvariants

  /** A row of the manifest index: its id column and the manifest it embeds. */
  datatype Row = Row(publicId: Key, manifest: M.Manifest)

  /** The two index listings the audit reads, and the references whose completion proof holds. */
  datatype Store = Store(manifests: seq<Row>, edges: seq<M.Edge>, completed: set<M.Reference>)

  function ManifestKeys(s: Store): seq<Key> {
    seq(|s.manifests|, i requires 0 <= i < |s.manifests| => s.manifests[i].publicId)
  }

  function EdgeKeys(s: Store): seq<Key> {
    seq(|s.edges|, i requires 0 <= i < |s.edges| => s.edges[i].manifest)
  }

  // ----- What must hold of the store -----

  function Expected(m: M.Manifest): seq<M.Edge> {
    seq(|m.references|, i requires 0 <= i < |m.references| => M.Edge(m.publicId, m.references[i]))
  }

  /** The stored edges of one manifest, by platform. */
  function EdgesOf(edges: seq<M.Edge>, manifest: Key): seq<M.Edge> {
    Filter(edges, (e: M.Edge) => e.manifest == manifest)
  }

  predicate ReferencesSound(m: M.Manifest, completed: set<M.Reference>) {
    1 <= |m.references| <= MAX_REFERENCES && forall i :: 0 <= i < |m.references| ==> m.references[i] in completed
  }

  /** `assertExactCatalogManifestProviderReferences`: reading one edge too many is enough to see a surplus. */
  predicate Exact(s: Store, m: M.Manifest) {
    && ReferencesSound(m, s.completed)
    && var stored := EdgesOf(s.edges, m.publicId);
       (if |stored| <= MAX_REFERENCES + 1 then stored else stored[..MAX_REFERENCES + 1]) == Expected(m)
  }

  lemma ExactIsWhole(s: Store, m: M.Manifest)
    requires Exact(s, m)
    ensures EdgesOf(s.edges, m.publicId) == Expected(m)
  {
  }

  /** `ctx.db.get` by manifest id. */
  function Lookup(ms: seq<Row>, id: Key): Option<M.Manifest> {
    if ms == [] then None
    else if ms[|ms| - 1].publicId == id then Some(ms[|ms| - 1].manifest)
    else Lookup(ms[..|ms| - 1], id)
  }

  lemma {:induction false} LookupFinds(ms: seq<Row>, id: Key)
    ensures Lookup(ms, id).Some? ==> Row(id, Lookup(ms, id).value) in ms
    ensures Lookup(ms, id).None? ==> forall r :: r in ms ==> r.publicId != id
  {
    if ms != [] {
      assert ms == ms[..|ms| - 1] + [ms[|ms| - 1]];
      LookupFinds(ms[..|ms| - 1], id);
    }
  }

  /** A manifest row that passes: it verifies, and its edges are exact. */
  predicate Fine(s: Store, i: nat) {
    && i < |s.manifests| && s.manifests[i].manifest.publicId == s.manifests[i].publicId
    && M.WellFormed(s.manifests[i].manifest) && Exact(s, s.manifests[i].manifest)
  }

  /** An edge row that passes: it belongs to a stored manifest whose edges are exact. */
  predicate Owned(s: Store, i: nat) {
    && i < |s.edges|
    && Lookup(s.manifests, s.edges[i].manifest).Some? && Exact(s, Lookup(s.manifests, s.edges[i].manifest).value)
  }

  function FineRows(s: Store): nat -> bool {
    (i: nat) => Fine(s, i)
  }

  function OwnedRows(s: Store): nat -> bool {
    (i: nat) => Owned(s, i)
  }

  /**
   * The audited property: one manifest per public id, each verified with exactly its expected edges,
   * and no edge of anything else.
   */
  ghost predicate ExactStore(s: Store) {
    && (forall i, j :: 0 <= i < j < |s.manifests| ==> s.manifests[i].publicId < s.manifests[j].publicId)
    && (forall i :: 0 <= i < |s.manifests| ==> Fine(s, i))
    && (forall i :: 0 <= i < |s.edges| ==> Owned(s, i))
  }

  // ----- The paged checks add up to it -----

  lemma {:induction false} SettledUpTo(s: Store, n: nat)
    requires ExactStore(s) && n <= |s.manifests|
    ensures Settled(ManifestKeys(s), FineRows(s), n)
  {
    if n > 0 {
      SettledUpTo(s, n - 1);
      assert Fine(s, n - 1);
    }
  }

  lemma {:induction false} OwnedUpTo(s: Store, n: nat)
    requires ExactStore(s) && n <= |s.edges|
    ensures AllOwned(OwnedRows(s), n)
  {
    if n > 0 {
      OwnedUpTo(s, n - 1);
      assert Owned(s, n - 1);
    }
  }

  lemma {:induction false} SettledAscends(ids: seq<Key>, fine: nat -> bool, i: nat, j: nat)
    requires Settled(ids, fine, |ids|) && i < j < |ids|
    ensures ids[i] < ids[j]
  {
    SettledBefore(ids, fine, |ids|, j - 1);
    if i < j - 1 {
      SettledAscends(ids, fine, i, j - 1);
    }
  }

  lemma SettledIsExact(s: Store)
    requires Settled(ManifestKeys(s), FineRows(s), |s.manifests|) && AllOwned(OwnedRows(s), |s.edges|)
    ensures ExactStore(s)
  {
    var ids, fine, owned := ManifestKeys(s), FineRows(s), OwnedRows(s);
    forall i, j | 0 <= i < j < |s.manifests| ensures s.manifests[i].publicId < s.manifests[j].publicId {
      SettledAscends(ids, fine, i, j);
      assert ids[i] == s.manifests[i].publicId && ids[j] == s.manifests[j].publicId;
    }
    forall i | 0 <= i < |s.manifests| ensures Fine(s, i) {
      SettledBefore(ids, fine, |s.manifests|, i);
      assert fine(i);
    }
    forall i | 0 <= i < |s.edges| ensures Owned(s, i) {
      OwnedBefore(owned, |s.edges|, i);
      assert owned(i);
    }
  }

  lemma {:induction false} ManyEdgesOf(edges: seq<M.Edge>, manifest: Key, from: nat, to: nat)
    requires from <= to <= |edges| && forall i :: from <= i < to ==> edges[i].manifest == manifest
    ensures |EdgesOf(edges, manifest)| >= to - from
    decreases |edges|
  {
    if from < to {
      ManyEdgesOf(edges[..|edges| - 1], manifest, from, if to == |edges| then to - 1 else to);
    }
  }

  lemma FewEdges(s: Store, i: nat)
    requires ExactStore(s) && i < |s.edges|
    ensures |EdgesOf(s.edges, s.edges[i].manifest)| <= MAX_REFERENCES
  {
    assert Owned(s, i);
    var id := s.edges[i].manifest;
    LookupFinds(s.manifests, id);
    var m := Lookup(s.manifests, id).value;
    var k :| 0 <= k < |s.manifests| && s.manifests[k] == Row(id, m);
    assert Fine(s, k);
    ExactIsWhole(s, m);
  }

  /** Exact edges never fill more than one group's worth of a full read. */
  lemma ExactGroupsAreNarrow(s: Store)
    requires ExactStore(s) && Listed(EdgeKeys(s))
    ensures NarrowGroups(EdgeKeys(s))
  {
    var keys := EdgeKeys(s);
    forall i | 0 <= i && i + MAX_REFERENCES < |keys| ensures keys[i] != keys[i + MAX_REFERENCES] {
      if keys[i] == keys[i + MAX_REFERENCES] {
        forall k | i <= k < i + MAX_REFERENCES + 1 ensures s.edges[k].manifest == keys[i] {
          assert keys[i] <= keys[k] <= keys[i + MAX_REFERENCES];
        }
        FewEdges(s, i);
        ManyEdgesOf(s.edges, keys[i], i, i + MAX_REFERENCES + 1);
      }
    }
  }

  /** The index order the database keeps. */
  predicate InIndexOrder(s: Store) {
    Listed(ManifestKeys(s)) && Listed(EdgeKeys(s))
  }

  /** What a progress record of this audit stands for. */
  ghost predicate Audited(s: Store, p: Progress) {
    Reached(ManifestKeys(s), FineRows(s), EdgeKeys(s), OwnedRows(s), p)
  }

  ghost function Unaudited(s: Store, p: Progress): nat {
    Left(ManifestKeys(s), EdgeKeys(s), p)
  }

  /** `auditCatalogManifestProviderReferencePage`. */
  function AuditStep(s: Store, p: Progress): Result<Progress, Error> {
    PageStep(ManifestKeys(s), FineRows(s), EdgeKeys(s), OwnedRows(s), p)
  }

  /** One page of the audit, over whatever the store holds. */
  method AuditPage(s: Store, p: Progress) returns (r: Result<Progress, Error>)
    requires InIndexOrder(s)
    ensures r == AuditStep(s, p)
    ensures r.Success? && Audited(s, p) && !p.complete ==>
              Audited(s, r.value) && Unaudited(s, r.value) < Unaudited(s, p)
    ensures r.Refused? ==> !ExactStore(s)
  {
    r := Page(ManifestKeys(s), FineRows(s), EdgeKeys(s), OwnedRows(s), p);
    if r.Refused? {
      if ExactStore(s) {
        SettledUpTo(s, |s.manifests|);
        OwnedUpTo(s, |s.edges|);
        ExactGroupsAreNarrow(s);
      }
    }
  }

  /**
   * Page after page from the start, over a store that no mutation changes meanwhile, the audit
   * terminates; it completes exactly on the stores whose edges are exactly the union of every
   * manifest's expected edges, and is refused on all others.
   */
  method Audit(s: Store) returns (r: Result<Progress, Error>)
    requires InIndexOrder(s)
    ensures r.Success? <==> ExactStore(s)
    ensures r.Success? ==> r.value == Progress(Edges, None, true)
  {
    var p := Progress(Manifests, None, false);
    while !p.complete
      invariant Audited(s, p)
      decreases Unaudited(s, p)
    {
      var page := AuditPage(s, p);
      if page.Refused? {
        return page;
      }
      p := page.value;
    }
    SettledIsExact(s);
    return Success(p);
  }

  // ----- The listings of a published store -----

  /** The index on public ids: one row per stored manifest. */
  ghost predicate ListsManifests(ms: seq<Row>, w: M.World) {
    && (forall i, j :: 0 <= i < j < |ms| ==> ms[i].publicId < ms[j].publicId)
    && (forall id :: id in w.documents ==> Row(id, w.documents[id].manifest) in ms)
    && (forall r :: r in ms ==> r.publicId in w.documents && r.manifest == w.documents[r.publicId].manifest)
  }

  predicate EdgeBefore(a: M.Edge, b: M.Edge) {
    a.manifest < b.manifest
    || (a.manifest == b.manifest && a.reference.release.platform <= b.reference.release.platform)
  }

  /** The index on manifest and platform: each stored edge once. */
  ghost predicate ListsEdges(es: seq<M.Edge>, w: M.World) {
    && (forall i, j :: 0 <= i < j < |es| ==> EdgeBefore(es[i], es[j]) && es[i] != es[j])
    && (forall e :: e in es <==> e in w.edges)
  }

  /** What the audit reads of a published store. */
  ghost predicate Listing(s: Store, w: M.World) {
    && ListsManifests(s.manifests, w) && ListsEdges(s.edges, w)
    && forall r :: r in s.completed <==> M.Live(w, [r])
  }

  ghost predicate PlatformsAscend(es: seq<M.Edge>) {
    forall i, j :: 0 <= i < j < |es| ==> es[i].reference.release.platform < es[j].reference.release.platform
  }

  /** Two references of a well-formed manifest with one platform are one. */
  lemma OneReferenceAPlatform(m: M.Manifest, a: M.Reference, b: M.Reference)
    requires M.WellFormed(m) && a in m.references && b in m.references && a.release.platform == b.release.platform
    ensures a == b
  {
    var i :| 0 <= i < |m.references| && m.references[i] == a;
    var j :| 0 <= j < |m.references| && m.references[j] == b;
  }

  /** In a listing, the edges of one well-formed manifest strictly ascend by platform. */
  lemma {:induction false} ListedEdgesAscend(es: seq<M.Edge>, m: M.Manifest)
    requires M.WellFormed(m) && forall e :: e in es && e.manifest == m.publicId ==> e.reference in m.references
    requires forall i, j :: 0 <= i < j < |es| ==> EdgeBefore(es[i], es[j]) && es[i] != es[j]
    ensures PlatformsAscend(EdgesOf(es, m.publicId))
  {
    if es != [] {
      var init, last := es[..|es| - 1], es[|es| - 1];
      assert es == init + [last];
      ListedEdgesAscend(init, m);
      FilterMembers(init, (e: M.Edge) => e.manifest == m.publicId);
      if last.manifest == m.publicId {
        var before := EdgesOf(init, m.publicId);
        forall i | 0 <= i < |before| ensures before[i].reference.release.platform < last.reference.release.platform {
          assert before[i] in before;
          var k :| 0 <= k < |init| && init[k] == before[i];
          assert EdgeBefore(es[k], es[|es| - 1]) && es[k] != es[|es| - 1];
          if before[i].reference.release.platform == last.reference.release.platform {
            OneReferenceAPlatform(m, before[i].reference, last.reference);
          }
        }
      }
    }
  }

  lemma ExpectedAscends(m: M.Manifest)
    requires M.WellFormed(m)
    ensures PlatformsAscend(Expected(m))
    ensures forall e :: e in Expected(m) <==> e.manifest == m.publicId && e.reference in m.references
  {
    forall e: M.Edge | e.manifest == m.publicId && e.reference in m.references ensures e in Expected(m) {
      var i :| 0 <= i < |m.references| && m.references[i] == e.reference;
      assert Expected(m)[i] == e;
    }
  }

  lemma LastIsGreatest(es: seq<M.Edge>, e: M.Edge)
    requires PlatformsAscend(es) && e in es
    ensures e in es[..|es| - 1] <==> e != es[|es| - 1]
    ensures e == es[|es| - 1] || e.reference.release.platform < es[|es| - 1].reference.release.platform
  {
    assert es == es[..|es| - 1] + [es[|es| - 1]];
  }

  lemma FirstIsThere(es: seq<M.Edge>)
    ensures es == [] || es[0] in es
  {
  }

  /** A list that ascends by platform is determined by its members. */
  lemma {:induction false} AscendingEdgesAgree(a: seq<M.Edge>, b: seq<M.Edge>)
    requires PlatformsAscend(a) && PlatformsAscend(b) && forall e :: e in a <==> e in b
    ensures a == b
  {
    if a == [] || b == [] {
      FirstIsThere(a);
      FirstIsThere(b);
    } else {
      var x, y := a[|a| - 1], b[|b| - 1];
      LastIsGreatest(a, y);
      LastIsGreatest(b, x);
      assert x == y;
      var c, d := a[..|a| - 1], b[..|b| - 1];
      assert a == c + [x] && b == d + [y];
      forall e ensures e in c <==> e in d {
        if e in a {
          LastIsGreatest(a, e);
          LastIsGreatest(b, e);
        }
      }
      AscendingEdgesAgree(c, d);
    }
  }

  /** A stored manifest of a sound store passes. */
  lemma StoredManifestIsExact(s: Store, w: M.World, id: Key)
    requires I.Inv(w) && Listing(s, w) && id in w.documents
    ensures Exact(s, w.documents[id].manifest)
  {
    var m := w.documents[id].manifest;
    ListedEdgesAscend(s.edges, m);
    ExpectedAscends(m);
    FilterMembers(s.edges, (e: M.Edge) => e.manifest == m.publicId);
    AscendingEdgesAgree(EdgesOf(s.edges, id), Expected(m));
    forall i | 0 <= i < |m.references| ensures m.references[i] in s.completed {
      assert M.Edge(id, m.references[i]) in w.edges;
    }
  }

  /** The listings of every store that publication and retention keep sound are exact. */
  lemma ListingIsExact(s: Store, w: M.World)
    requires I.Inv(w) && Listing(s, w)
    ensures ExactStore(s) && InIndexOrder(s)
  {
    forall i | 0 <= i < |s.manifests| ensures Fine(s, i) {
      assert s.manifests[i] in s.manifests;
      StoredManifestIsExact(s, w, s.manifests[i].publicId);
    }
    forall i | 0 <= i < |s.edges| ensures Owned(s, i) {
      var id := s.edges[i].manifest;
      assert s.edges[i] in s.edges;
      LookupFinds(s.manifests, id);
      assert Row(id, w.documents[id].manifest) in s.manifests;
      StoredManifestIsExact(s, w, id);
    }
  }

  /**
   * No page over the listings of a sound store is refused, wherever an earlier page left off, and it goes
   * on from a stored manifest.
   */
  lemma SoundStorePasses(s: Store, w: M.World, p: Progress)
    requires I.Inv(w) && Listing(s, w)
    ensures AuditStep(s, p).Success?
    ensures Forward(ManifestKeys(s), EdgeKeys(s), p, AuditStep(s, p).value)
    ensures AuditStep(s, p).value.cursor.Some? ==> AuditStep(s, p).value.cursor.value in w.documents
  {
    ListingIsExact(s, w);
    SettledUpTo(s, |s.manifests|);
    OwnedUpTo(s, |s.edges|);
    ExactGroupsAreNarrow(s);
    PassingPageGoesForward(ManifestKeys(s), FineRows(s), EdgeKeys(s), OwnedRows(s), p);
    forall k | k in ManifestKeys(s) || k in EdgeKeys(s) ensures k in w.documents {
      if k in ManifestKeys(s) {
        var i :| 0 <= i < |ManifestKeys(s)| && ManifestKeys(s)[i] == k;
        assert s.manifests[i] in s.manifests;
      } else {
        var i :| 0 <= i < |EdgeKeys(s)| && EdgeKeys(s)[i] == k;
        assert s.edges[i] in s.edges;
      }
    }
  }
}
