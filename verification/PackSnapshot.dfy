/**
 * One pack snapshot from `start` to `finalize`: batches are proved one at a time, and the running
 * totals they leave are what the whole-pack schema would compute over all the contents at once.
 */
module PackSnapshot {
  import opened Prelude
  import opened OrderedKeys

  const PROBABILITY_TOTAL: nat := 1_000_000

  /** The most categories a header may list; the running list keeps one more. */
  const MAX_CATEGORIES: nat := 100
  const CATEGORIES_KEPT: nat := 101

  datatype Money = Money(currency: Key, minorUnits: nat)
  datatype Valuation = Priced(identity: Key, amount: Money) | Unpriced(identity: Key)
  datatype Record = Record(
    collectible: Key, profile: Key, category: Key, probability: nat, eligible: bool, valuation: Valuation)
  datatype Chase = Chase(collectible: Key, valuation: Key, amount: Money)

  datatype Header = Header(
    contentCount: nat, category: Key, currency: Key, topChase: Option<Chase>, categories: seq<Key>,
    providerProfile: Key, evValidUntil: Time)

  /** One line of the descriptor; `digest` stands for the hash of the batch's records. */
  datatype Entry = Entry(recordCount: nat, digest: seq<Record>)

  /** What the content digest covers. */
  datatype Content = Content(header: Header, profiles: seq<Key>, valuations: seq<Key>, manifest: seq<Entry>)

  /** The dependency row of one stored batch. */
  datatype Dependency = Dependency(profiles: seq<Key>, valuations: seq<Key>, count: nat)

  datatype Reason =
    | InvalidDomainData | InvalidProbabilities | IncompleteContents | ProfileHeadMissing
    | OperationExpired | EvInputsPending | OperatorHold | OtherReason(code: int)
  datatype State = Staging | Complete | Blocked(reason: Reason)
  datatype DisplacedBy = ByActivation | ByRollback

  /** `initialProfileProof`. */
  datatype Proof = Proof(required: bool, providerVerified: bool, collectiblesVerified: nat)

  datatype Root = Root(
    state: State, pack: Key, header: Header, manifest: seq<Entry>, valuationCount: nat, content: Content,
    sequence: nat, evidence: Key,
    batches: seq<seq<Record>>, dependencies: seq<Dependency>, receivedContents: nat, probabilitySum: nat,
    last: Option<Key>, topChase: Option<Chase>, categoriesSeen: seq<Key>, proof: Proof,
    deactivatedBy: Option<DisplacedBy>)

  datatype Outcome = Applied | AlreadyApplied | AlreadyActive | Conflict | Declined(reason: Reason)

  // ----- Projections of the contents -----

  function Ids(rs: seq<Record>): seq<Key> {
    seq(|rs|, i requires 0 <= i < |rs| => rs[i].collectible)
  }

  function Profiles(rs: seq<Record>): seq<Key> {
    seq(|rs|, i requires 0 <= i < |rs| => rs[i].profile)
  }

  function Categories(rs: seq<Record>): seq<Key> {
    seq(|rs|, i requires 0 <= i < |rs| => rs[i].category)
  }

  function EligibleValuations(rs: seq<Record>): seq<Key> {
    if rs == [] then []
    else EligibleValuations(rs[..|rs| - 1]) + (if rs[|rs| - 1].eligible then [rs[|rs| - 1].valuation.identity] else [])
  }

  function Probability(rs: seq<Record>): nat {
    if rs == [] then 0 else Probability(rs[..|rs| - 1]) + rs[|rs| - 1].probability
  }

  predicate InCurrency(rs: seq<Record>, currency: Key) {
    forall i :: 0 <= i < |rs| && rs[i].valuation.Priced? ==> rs[i].valuation.amount.currency == currency
  }

  function Contents(batches: seq<seq<Record>>): seq<Record> {
    if batches == [] then [] else Contents(batches[..|batches| - 1]) + batches[|batches| - 1]
  }

  lemma ContentsOfOneMore(batches: seq<seq<Record>>, rs: seq<Record>)
    ensures Contents(batches + [rs]) == Contents(batches) + rs
  {
    assert (batches + [rs])[..|batches|] == batches;
  }

  lemma {:induction false} ProbabilityAppend(a: seq<Record>, b: seq<Record>)
    ensures Probability(a + b) == Probability(a) + Probability(b)
  {
    if b == [] {
      assert a + b == a;
    } else {
      assert (a + b)[..|a + b| - 1] == a + b[..|b| - 1];
      ProbabilityAppend(a, b[..|b| - 1]);
    }
  }

  lemma {:induction false} EligibleAppend(a: seq<Record>, b: seq<Record>)
    ensures EligibleValuations(a + b) == EligibleValuations(a) + EligibleValuations(b)
  {
    if b == [] {
      assert a + b == a;
    } else {
      assert (a + b)[..|a + b| - 1] == a + b[..|b| - 1];
      EligibleAppend(a, b[..|b| - 1]);
    }
  }

  // ----- The top chase -----

  predicate Contends(r: Record) {
    r.eligible && r.valuation.Priced?
  }

  function ChaseOf(r: Record): Chase
    requires Contends(r)
  {
    Chase(r.collectible, r.valuation.identity, r.valuation.amount)
  }

  predicate Beats(c: Chase, d: Chase) {
    c.amount.minorUnits > d.amount.minorUnits
    || (c.amount.minorUnits == d.amount.minorUnits && c.collectible < d.collectible)
  }

  function BetterChase(top: Option<Chase>, r: Record): Option<Chase> {
    if !Contends(r) then top
    else if top.None? || Beats(ChaseOf(r), top.value) then Some(ChaseOf(r))
    else top
  }

  /** The running candidate after `rs`. */
  function TopChase(top: Option<Chase>, rs: seq<Record>): Option<Chase> {
    if rs == [] then top else BetterChase(TopChase(top, rs[..|rs| - 1]), rs[|rs| - 1])
  }

  lemma {:induction false} TopChaseAppend(top: Option<Chase>, a: seq<Record>, b: seq<Record>)
    ensures TopChase(TopChase(top, a), b) == TopChase(top, a + b)
  {
    if b == [] {
      assert a + b == a;
    } else {
      assert (a + b)[..|a + b| - 1] == a + b[..|b| - 1];
      TopChaseAppend(top, a, b[..|b| - 1]);
    }
  }

  /** `expectedTopChase`: the contender that comes first by amount, then by smallest id. */
  ghost predicate IsTopChase(top: Option<Chase>, rs: seq<Record>) {
    match top
    case None => forall i :: 0 <= i < |rs| ==> !Contends(rs[i])
    case Some(c) =>
      && (exists i :: 0 <= i < |rs| && Contends(rs[i]) && ChaseOf(rs[i]) == c)
      && (forall i :: 0 <= i < |rs| && Contends(rs[i]) ==> ChaseOf(rs[i]) == c || Beats(c, ChaseOf(rs[i])))
  }

  lemma {:induction false} RunningTopChaseIsTheMaximum(rs: seq<Record>)
    requires Ascending(Ids(rs))
    ensures IsTopChase(TopChase(None, rs), rs)
  {
    if rs != [] {
      var init, last := rs[..|rs| - 1], rs[|rs| - 1];
      var before := TopChase(None, init);
      assert forall i, j :: 0 <= i < j < |rs| ==> Ids(rs)[i] < Ids(rs)[j];
      assert forall i :: 0 <= i < |init| ==> Ids(init)[i] == Ids(rs)[i];
      RunningTopChaseIsTheMaximum(init);
      if before.Some? {
        var i :| 0 <= i < |init| && Contends(init[i]) && ChaseOf(init[i]) == before.value;
        assert rs[i] == init[i];
        assert Ids(rs)[i] < Ids(rs)[|rs| - 1];
      }
      if Contends(last) {
        assert Contends(rs[|rs| - 1]);
      }
    }
  }

  lemma TopChaseIsUnique(a: Option<Chase>, b: Option<Chase>, rs: seq<Record>)
    requires IsTopChase(a, rs) && IsTopChase(b, rs)
    ensures a == b
  {
  }

  // ----- The whole pack -----

  /** The clauses of the whole-pack schema that read the contents, save the last one below. */
  ghost predicate Sealed(h: Header, contents: seq<Record>, profiles: seq<Key>, valuations: seq<Key>) {
    && |contents| == h.contentCount
    && Ascending(Ids(contents))
    && Probability(contents) == PROBABILITY_TOTAL
    && profiles == SortKeys(Profiles(contents)) && Ascending(profiles)
    && valuations == SortUnique(EligibleValuations(contents))
    && IsTopChase(h.topChase, contents)
    && h.categories == SortUnique([h.category] + Categories(contents))
    && InCurrency(contents, h.currency)
  }

  /** The whole-pack schema also wants every eligible valuation listed, none of them twice. */
  ghost predicate WholePack(h: Header, contents: seq<Record>, profiles: seq<Key>, valuations: seq<Key>) {
    && Sealed(h, contents, profiles, valuations)
    && valuations == SortKeys(EligibleValuations(contents))
  }

  lemma SealedIsWholeWhenValuationsAreDistinct(h: Header, contents: seq<Record>, profiles: seq<Key>,
                                               valuations: seq<Key>)
    requires Sealed(h, contents, profiles, valuations)
    ensures WholePack(h, contents, profiles, valuations) <==> Distinct(EligibleValuations(contents))
  {
    var vs := EligibleValuations(contents);
    AscendingSortIsDistinct(vs);
    SortKeysSorts(vs);
    SortUniqueSorts(vs);
    if Distinct(vs) {
      forall k ensures k in SortKeys(vs) <==> k in SortUnique(vs) {
        assert k in SortKeys(vs) <==> k in multiset(SortKeys(vs));
      }
      AscendingAgree(SortKeys(vs), SortUnique(vs));
    }
  }

  // ----- Batches -----

  /** `start`: the root row as first inserted. */
  function Started(pack: Key, h: Header, manifest: seq<Entry>, valuationCount: nat, content: Content, sequence: nat,
                   evidence: Key, required: bool): Root
  {
    Root(Staging, pack, h, manifest, valuationCount, content, sequence, evidence,
         [], [], 0, 0, None, None, [h.category], Proof(required, required, 0), None)
  }

  /** The domain checks of one batch against its descriptor line and the batches before it. */
  predicate BatchInvalid(root: Root, index: nat, rs: seq<Record>)
    requires rs != []
  {
    || index >= |root.manifest|
    || root.manifest[index] != Entry(|rs|, rs)
    || !Ascending(Ids(rs))
    || (root.last.Some? && root.last.value >= rs[0].collectible)
    || !InCurrency(rs, root.header.currency)
    || root.receivedContents + |rs| > root.header.contentCount
  }

  predicate HeadsVerified(heads: map<Key, Key>, rs: seq<Record>) {
    forall i :: 0 <= i < |rs| ==> rs[i].collectible in heads && heads[rs[i].collectible] == rs[i].profile
  }

  function DependencyOf(rs: seq<Record>): Dependency {
    Dependency(SortKeys(Profiles(rs)), SortKeys(EligibleValuations(rs)), |rs|)
  }

  /** The batch row, its dependency row and the patched totals. */
  function Absorbed(root: Root, rs: seq<Record>): Root
    requires rs != []
  {
    root.(batches := root.batches + [rs],
          dependencies := root.dependencies + [DependencyOf(rs)],
          receivedContents := root.receivedContents + |rs|,
          probabilitySum := root.probabilitySum + Probability(rs),
          last := Some(rs[|rs| - 1].collectible),
          topChase := TopChase(root.topChase, rs),
          categoriesSeen := Smallest(CATEGORIES_KEPT, root.categoriesSeen + Categories(rs)),
          proof := root.proof.(collectiblesVerified :=
                                 root.proof.collectiblesVerified + (if root.proof.required then |rs| else 0)))
  }

  function ApplyBatch(root: Root, index: nat, rs: seq<Record>, heads: map<Key, Key>): (Root, Outcome)
    requires rs != []
  {
    if root.state.Blocked? then (root, Declined(root.state.reason))
    else if index < |root.batches| || root.state.Complete? then
      (root, if index < |root.batches| && root.batches[index] == rs then AlreadyApplied else Conflict)
    else if index != |root.batches| then (root, Conflict)
    else if BatchInvalid(root, index, rs) then (root, Declined(InvalidDomainData))
    else if root.probabilitySum + Probability(rs) > PROBABILITY_TOTAL then (root, Declined(InvalidProbabilities))
    else if root.proof.required && !HeadsVerified(heads, rs) then (root, Declined(ProfileHeadMissing))
    else (Absorbed(root, rs), Applied)
  }

  function EntriesOf(batches: seq<seq<Record>>): (es: seq<Entry>)
    ensures |es| == |batches|
  {
    if batches == [] then []
    else EntriesOf(batches[..|batches| - 1]) + [Entry(|batches[|batches| - 1]|, batches[|batches| - 1])]
  }

  function DependenciesOf(batches: seq<seq<Record>>): (ds: seq<Dependency>)
    ensures |ds| == |batches|
  {
    if batches == [] then [] else DependenciesOf(batches[..|batches| - 1]) + [DependencyOf(batches[|batches| - 1])]
  }

  /** The stored rows are the first ones the descriptor names, with their dependency rows. */
  ghost predicate RowsStaged(root: Root) {
    && EntriesOf(root.batches) <= root.manifest && root.dependencies == DependenciesOf(root.batches)
  }

  /** The running counts are those of `contents`. */
  ghost predicate CountsOf(root: Root, contents: seq<Record>) {
    && root.receivedContents == |contents| <= root.header.contentCount
    && root.probabilitySum == Probability(contents) <= PROBABILITY_TOTAL
    && root.proof.collectiblesVerified == (if root.proof.required then |contents| else 0)
    && (root.proof.required ==> root.proof.providerVerified)
  }

  /** The running order, currency, top chase and categories are those of `contents`. */
  ghost predicate ListsOf(root: Root, contents: seq<Record>) {
    && root.last == (if contents == [] then None else Some(contents[|contents| - 1].collectible))
    && Ascending(Ids(contents))
    && InCurrency(contents, root.header.currency)
    && root.topChase == TopChase(None, contents)
    && root.categoriesSeen == Smallest(CATEGORIES_KEPT, [root.header.category] + Categories(contents))
  }

  /** In every reachable state the totals are those of the contents received so far. */
  ghost predicate Staged(root: Root) {
    RowsStaged(root) && CountsOf(root, Contents(root.batches)) && ListsOf(root, Contents(root.batches))
  }

  lemma StartedIsStaged(pack: Key, h: Header, manifest: seq<Entry>, valuationCount: nat, content: Content,
                        sequence: nat, evidence: Key, required: bool)
    ensures Staged(Started(pack, h, manifest, valuationCount, content, sequence, evidence, required))
  {
    assert [h.category] + Categories([]) == [h.category];
    assert [h.category][..0] == [];
    assert SortUnique([h.category]) == [h.category];
  }

  lemma IdsStayAscending(contents: seq<Record>, rs: seq<Record>)
    requires Ascending(Ids(contents)) && Ascending(Ids(rs)) && rs != []
    requires contents != [] ==> contents[|contents| - 1].collectible < rs[0].collectible
    ensures Ascending(Ids(contents + rs))
  {
    var a, b, ids := Ids(contents), Ids(rs), Ids(contents + rs);
    assert ids == a + b;
    if contents != [] {
      assert a[|a| - 1] < b[0];
    }
  }

  lemma CategoriesStayCut(category: Key, contents: seq<Record>, rs: seq<Record>)
    ensures Smallest(CATEGORIES_KEPT, Smallest(CATEGORIES_KEPT, [category] + Categories(contents)) + Categories(rs))
            == Smallest(CATEGORIES_KEPT, [category] + Categories(contents + rs))
  {
    SmallestAlongTheWay(CATEGORIES_KEPT, [category] + Categories(contents), Categories(rs));
    assert [category] + Categories(contents) + Categories(rs) == [category] + Categories(contents + rs);
  }

  lemma OneMoreRow(batches: seq<seq<Record>>, rs: seq<Record>)
    ensures EntriesOf(batches + [rs]) == EntriesOf(batches) + [Entry(|rs|, rs)]
    ensures DependenciesOf(batches + [rs]) == DependenciesOf(batches) + [DependencyOf(rs)]
  {
    assert (batches + [rs])[..|batches|] == batches;
  }

  lemma PrefixGrows(manifest: seq<Entry>, entries: seq<Entry>)
    requires entries <= manifest && |entries| < |manifest|
    ensures entries + [manifest[|entries|]] <= manifest
  {
  }

  lemma AbsorbKeepsRows(root: Root, rs: seq<Record>)
    requires RowsStaged(root) && rs != [] && !BatchInvalid(root, |root.batches|, rs)
    ensures RowsStaged(Absorbed(root, rs))
  {
    OneMoreRow(root.batches, rs);
    PrefixGrows(root.manifest, EntriesOf(root.batches));
  }

  lemma AbsorbKeepsCounts(root: Root, contents: seq<Record>, rs: seq<Record>)
    requires CountsOf(root, contents) && rs != [] && !BatchInvalid(root, |root.batches|, rs)
    requires root.probabilitySum + Probability(rs) <= PROBABILITY_TOTAL
    ensures CountsOf(Absorbed(root, rs), contents + rs)
  {
    ProbabilityAppend(contents, rs);
  }

  lemma AbsorbKeepsLists(root: Root, contents: seq<Record>, rs: seq<Record>)
    requires ListsOf(root, contents) && rs != [] && !BatchInvalid(root, |root.batches|, rs)
    ensures ListsOf(Absorbed(root, rs), contents + rs)
  {
    TopChaseAppend(None, contents, rs);
    IdsStayAscending(contents, rs);
    CategoriesStayCut(root.header.category, contents, rs);
  }

  lemma AbsorbKeepsStaged(root: Root, rs: seq<Record>)
    requires Staged(root) && rs != [] && !BatchInvalid(root, |root.batches|, rs)
    requires root.probabilitySum + Probability(rs) <= PROBABILITY_TOTAL
    ensures Staged(Absorbed(root, rs))
    ensures Contents(Absorbed(root, rs).batches) == Contents(root.batches) + rs
  {
    AbsorbKeepsRows(root, rs);
    AbsorbKeepsCounts(root, Contents(root.batches), rs);
    AbsorbKeepsLists(root, Contents(root.batches), rs);
    ContentsOfOneMore(root.batches, rs);
  }

  /** Every batch keeps the totals in step with the contents. */
  lemma ApplyBatchKeepsStaged(root: Root, index: nat, rs: seq<Record>, heads: map<Key, Key>)
    requires Staged(root) && rs != []
    ensures Staged(ApplyBatch(root, index, rs, heads).0)
    ensures ApplyBatch(root, index, rs, heads).1.Applied? ==>
              Contents(ApplyBatch(root, index, rs, heads).0.batches) == Contents(root.batches) + rs
  {
    var r := ApplyBatch(root, index, rs, heads);
    if r.1.Applied? {
      assert r.0 == Absorbed(root, rs) && index == |root.batches|;
      AbsorbKeepsStaged(root, rs);
    } else {
      assert r.0 == root;
    }
  }

  // ----- Finalize -----

  function AllProfiles(ds: seq<Dependency>): seq<Key> {
    if ds == [] then [] else AllProfiles(ds[..|ds| - 1]) + ds[|ds| - 1].profiles
  }

  function AllValuations(ds: seq<Dependency>): seq<Key> {
    if ds == [] then [] else AllValuations(ds[..|ds| - 1]) + ds[|ds| - 1].valuations
  }

  /** The vectors rebuilt from the dependency rows, against the header, the descriptor and the digest. */
  predicate VectorsAgree(root: Root, profiles: seq<Key>, valuations: seq<Key>) {
    && Ascending(profiles) && |profiles| == root.header.contentCount
    && |valuations| == root.valuationCount && root.topChase == root.header.topChase
    && SortKeys(root.categoriesSeen) == root.header.categories
    && Content(root.header, profiles, valuations, root.manifest) == root.content
  }

  /** `finalize`: seals the snapshot, or blocks it for good when the whole does not add up. */
  function Finalize(root: Root): (Root, Outcome) {
    var profiles, valuations := SortKeys(AllProfiles(root.dependencies)), SortUnique(AllValuations(root.dependencies));
    if root.state.Blocked? then (root, Declined(root.state.reason))
    else if root.state.Complete? then (root, AlreadyApplied)
    else if |root.batches| != |root.manifest| || root.receivedContents != root.header.contentCount then
      (root, Declined(IncompleteContents))
    else if root.probabilitySum != PROBABILITY_TOTAL then
      (root.(state := Blocked(InvalidProbabilities)), Declined(InvalidProbabilities))
    else if |root.dependencies| != |root.manifest| || !VectorsAgree(root, profiles, valuations) then
      (root.(state := Blocked(InvalidDomainData)), Declined(InvalidDomainData))
    else (root.(state := Complete), Applied)
  }

  lemma ProfilesAppend(a: seq<Record>, b: seq<Record>)
    ensures Profiles(a + b) == Profiles(a) + Profiles(b)
  {
  }

  lemma {:induction false} ProfileVector(batches: seq<seq<Record>>)
    ensures multiset(AllProfiles(DependenciesOf(batches))) == multiset(Profiles(Contents(batches)))
  {
    if batches != [] {
      var init, rs := batches[..|batches| - 1], batches[|batches| - 1];
      var ds := DependenciesOf(batches);
      ProfileVector(init);
      assert ds[..|ds| - 1] == DependenciesOf(init);
      SortKeysSorts(Profiles(rs));
      ProfilesAppend(Contents(init), rs);
    }
  }

  lemma {:induction false} ValuationVector(batches: seq<seq<Record>>)
    ensures multiset(AllValuations(DependenciesOf(batches))) == multiset(EligibleValuations(Contents(batches)))
  {
    if batches != [] {
      var init, rs := batches[..|batches| - 1], batches[|batches| - 1];
      var ds := DependenciesOf(batches);
      ValuationVector(init);
      assert ds[..|ds| - 1] == DependenciesOf(init);
      SortKeysSorts(EligibleValuations(rs));
      EligibleAppend(Contents(init), rs);
    }
  }

  /** The vectors rebuilt from the dependency rows are those of the contents. */
  lemma VectorsOfContents(root: Root)
    requires RowsStaged(root)
    ensures SortKeys(AllProfiles(root.dependencies)) == SortKeys(Profiles(Contents(root.batches)))
    ensures SortUnique(AllValuations(root.dependencies)) == SortUnique(EligibleValuations(Contents(root.batches)))
  {
    var profiles, valuations := AllProfiles(root.dependencies), AllValuations(root.dependencies);
    var eligible := EligibleValuations(Contents(root.batches));
    ProfileVector(root.batches);
    SortKeysByContents(profiles, Profiles(Contents(root.batches)));
    ValuationVector(root.batches);
    forall k ensures k in valuations <==> k in eligible {
      assert k in valuations <==> k in multiset(valuations);
      assert k in eligible <==> k in multiset(eligible);
    }
    SortUniqueByMembers(valuations, eligible);
  }

  lemma ProfileCount(contents: seq<Record>)
    ensures |SortKeys(Profiles(contents))| == |contents|
  {
    SortKeysSorts(Profiles(contents));
    assert |multiset(SortKeys(Profiles(contents)))| == |multiset(Profiles(contents))|;
  }

  /** A list cut at 101 equals a list of at most 100 exactly when nothing was cut. */
  lemma CutCategories(kept: seq<Key>, all: seq<Key>, listed: seq<Key>)
    requires kept == Smallest(CATEGORIES_KEPT, all) && |listed| <= MAX_CATEGORIES
    ensures SortKeys(kept) == listed <==> SortUnique(all) == listed
  {
    SmallestIsAscending(CATEGORIES_KEPT, all);
    SortKeysSorts(kept);
    SortedAgree(SortKeys(kept), kept);
    if |kept| < CATEGORIES_KEPT {
      ShortCutIsWhole(CATEGORIES_KEPT, all);
    }
  }

  /** What `finalize` reads, in terms of the contents. */
  lemma FinalizeReadsTheContents(root: Root)
    requires Staged(root) && root.state.Staging?
    ensures var contents := Contents(root.batches);
            var profiles, valuations := SortKeys(Profiles(contents)), SortUnique(EligibleValuations(contents));
            Finalize(root).1.Applied? <==>
            && |root.batches| == |root.manifest| && |contents| == root.header.contentCount
            && Probability(contents) == PROBABILITY_TOTAL && VectorsAgree(root, profiles, valuations)
  {
    VectorsOfContents(root);
  }

  lemma TopChaseAgrees(listed: Option<Chase>, contents: seq<Record>)
    requires Ascending(Ids(contents))
    ensures TopChase(None, contents) == listed <==> IsTopChase(listed, contents)
  {
    RunningTopChaseIsTheMaximum(contents);
    if IsTopChase(listed, contents) {
      TopChaseIsUnique(TopChase(None, contents), listed, contents);
    }
  }

  /**
   * A staged snapshot is sealed exactly when every batch has arrived and the contents as a whole
   * satisfy the schema, the declared valuation count and the content digest; a top chase, a category
   * list or a probability total that only the whole pack can show wrong is caught here.
   */
  lemma FinalizeChecksTheWhole(root: Root)
    requires Staged(root) && root.state.Staging? && |root.header.categories| <= MAX_CATEGORIES
    ensures Finalize(root).1.Applied? <==>
            && |root.batches| == |root.manifest|
            && Sealed(root.header, Contents(root.batches), root.content.profiles, root.content.valuations)
            && |root.content.valuations| == root.valuationCount
            && root.content.header == root.header && root.content.manifest == root.manifest
  {
    var contents := Contents(root.batches);
    FinalizeReadsTheContents(root);
    ProfileCount(contents);
    TopChaseAgrees(root.header.topChase, contents);
    CutCategories(root.categoriesSeen, [root.header.category] + Categories(contents), root.header.categories);
  }

  /**
   * A complete snapshot satisfies the whole-pack schema exactly when no two eligible contents share
   * a valuation identity: sealing merges duplicates where the schema forbids them.
   */
  lemma CompleteIsWholeIffValuationsDistinct(root: Root)
    requires Staged(root) && root.state.Staging? && |root.header.categories| <= MAX_CATEGORIES
    requires Finalize(root).1.Applied?
    ensures WholePack(root.header, Contents(root.batches), root.content.profiles, root.content.valuations)
            <==> Distinct(EligibleValuations(Contents(root.batches)))
  {
    FinalizeChecksTheWhole(root);
    SealedIsWholeWhenValuationsAreDistinct(root.header, Contents(root.batches), root.content.profiles,
                                           root.content.valuations);
  }

  lemma SortsTo(ks: seq<Key>, sorted: seq<Key>)
    requires NonDescending(sorted) && multiset(ks) == multiset(sorted)
    ensures SortKeys(ks) == sorted
  {
    SortKeysSorts(ks);
    SortedAgree(SortKeys(ks), sorted);
  }

  lemma UniquesTo(ks: seq<Key>, sorted: seq<Key>)
    requires Ascending(sorted) && forall k :: k in sorted <==> k in ks
    ensures SortUnique(ks) == sorted
  {
    SortUniqueSorts(ks);
    AscendingAgree(SortUnique(ks), sorted);
  }

  lemma TwoRecords(a: Record, b: Record)
    requires a.eligible && b.eligible
    ensures Probability([a, b]) == a.probability + b.probability
    ensures EligibleValuations([a, b]) == [a.valuation.identity, b.valuation.identity]
  {
    assert [a, b][..1] == [a] && [a][..0] == [];
    assert Probability([a]) == Probability([a][..0]) + a.probability;
    assert EligibleValuations([a]) == EligibleValuations([a][..0]) + [a.valuation.identity];
  }

  lemma FirstOfTwoWins(a: Record, b: Record)
    requires Contends(a) && Contends(b) && Beats(ChaseOf(a), ChaseOf(b))
    ensures IsTopChase(Some(ChaseOf(a)), [a, b])
  {
    assert Contends([a, b][0]) && ChaseOf([a, b][0]) == ChaseOf(a);
  }

  /** Two eligible contents of one category that share one valuation, the first of them the top chase. */
  ghost predicate SharesOneValuation(h: Header, a: Record, b: Record) {
    && Contends(a) && Contends(b) && Beats(ChaseOf(a), ChaseOf(b))
    && a.collectible < b.collectible && a.profile < b.profile
    && a.category == b.category == h.category && a.valuation.identity == b.valuation.identity
    && a.probability + b.probability == PROBABILITY_TOTAL
    && InCurrency([a, b], h.currency)
    && h.contentCount == 2 && h.topChase == Some(ChaseOf(a)) && h.categories == [h.category]
  }

  lemma PairSorts(p: Key, q: Key)
    requires p < q
    ensures SortKeys([p, q]) == [p, q] && Ascending([p, q])
  {
    SortsTo([p, q], [p, q]);
  }

  lemma RepeatsCollapse(k: Key)
    ensures SortUnique([k, k]) == [k] && SortUnique([k, k, k]) == [k]
  {
    UniquesTo([k, k], [k]);
    UniquesTo([k, k, k], [k]);
  }

  lemma PairVectors(a: Record, b: Record)
    ensures Ids([a, b]) == [a.collectible, b.collectible] && Profiles([a, b]) == [a.profile, b.profile]
    ensures forall k :: [k] + Categories([a, b]) == [k, a.category, b.category]
  {
  }

  lemma SharedIsSealed(h: Header, a: Record, b: Record)
    requires SharesOneValuation(h, a, b)
    ensures Sealed(h, [a, b], [a.profile, b.profile], [a.valuation.identity])
  {
    TwoRecords(a, b);
    FirstOfTwoWins(a, b);
    PairVectors(a, b);
    PairSorts(a.collectible, b.collectible);
    PairSorts(a.profile, b.profile);
    RepeatsCollapse(a.valuation.identity);
    RepeatsCollapse(h.category);
    assert [h.category] + Categories([a, b]) == [h.category, h.category, h.category];
  }

  /** Such contents pass every check of sealing, though the whole-pack schema refuses them. */
  lemma SealedNotWhole(h: Header, a: Record, b: Record)
    requires SharesOneValuation(h, a, b)
    ensures Sealed(h, [a, b], [a.profile, b.profile], [a.valuation.identity])
    ensures !WholePack(h, [a, b], [a.profile, b.profile], [a.valuation.identity])
  {
    SharedIsSealed(h, a, b);
    TwoRecords(a, b);
    assert !Distinct(EligibleValuations([a, b])) by {
      assert EligibleValuations([a, b])[0] == EligibleValuations([a, b])[1];
    }
    SealedIsWholeWhenValuationsAreDistinct(h, [a, b], [a.profile, b.profile], [a.valuation.identity]);
  }

  function PairManifest(a: Record, b: Record): seq<Entry> {
    [Entry(2, [a, b])]
  }

  function PairContent(h: Header, a: Record, b: Record): Content {
    Content(h, [a.profile, b.profile], [a.valuation.identity], PairManifest(a, b))
  }

  function StartedPair(pack: Key, h: Header, a: Record, b: Record): Root {
    Started(pack, h, PairManifest(a, b), 1, PairContent(h, a, b), 1, 0, true)
  }

  /** The pair as its one batch leaves it. */
  function FilledPair(pack: Key, h: Header, a: Record, b: Record): Root {
    Absorbed(StartedPair(pack, h, a, b), [a, b])
  }

  function PairHeads(a: Record, b: Record): map<Key, Key> {
    map[a.collectible := a.profile, b.collectible := b.profile]
  }

  lemma PairIsValid(h: Header, a: Record, b: Record, pack: Key)
    requires SharesOneValuation(h, a, b)
    ensures !BatchInvalid(StartedPair(pack, h, a, b), 0, [a, b]) && HeadsVerified(PairHeads(a, b), [a, b])
  {
    PairVectors(a, b);
    PairSorts(a.collectible, b.collectible);
  }

  lemma PairIsApplied(h: Header, a: Record, b: Record, pack: Key)
    requires SharesOneValuation(h, a, b)
    ensures ApplyBatch(StartedPair(pack, h, a, b), 0, [a, b], PairHeads(a, b)) == (FilledPair(pack, h, a, b), Applied)
  {
    PairIsValid(h, a, b, pack);
    TwoRecords(a, b);
  }

  lemma OneBatchContents(rs: seq<Record>)
    ensures Contents([rs]) == rs
  {
    assert [rs][..0] == [];
    assert Contents([rs]) == Contents([rs][..0]) + rs;
  }

  lemma PairIsStaged(h: Header, a: Record, b: Record, pack: Key)
    requires SharesOneValuation(h, a, b)
    ensures Staged(FilledPair(pack, h, a, b))
  {
    StartedIsStaged(pack, h, PairManifest(a, b), 1, PairContent(h, a, b), 1, 0, true);
    PairIsApplied(h, a, b, pack);
    ApplyBatchKeepsStaged(StartedPair(pack, h, a, b), 0, [a, b], PairHeads(a, b));
  }

  /** The filled root has its whole manifest, and its contents are sealed. */
  lemma PairIsFilled(h: Header, a: Record, b: Record, pack: Key)
    requires SharesOneValuation(h, a, b)
    ensures var root := FilledPair(pack, h, a, b);
            && root.state.Staging? && root.header == h && root.content == PairContent(h, a, b)
            && root.manifest == PairManifest(a, b) && root.valuationCount == 1
            && root.batches == [[a, b]] && Contents(root.batches) == [a, b]
  {
    assert FilledPair(pack, h, a, b).batches == [[a, b]];
    OneBatchContents([a, b]);
  }

  lemma AppliedIsComplete(root: Root)
    ensures Finalize(root).1.Applied? ==> Finalize(root) == (root.(state := Complete), Applied)
  {
  }

  lemma SharedHasOneCategory(h: Header, a: Record, b: Record)
    requires SharesOneValuation(h, a, b)
    ensures |h.categories| <= MAX_CATEGORIES
  {
  }

  lemma PairFinalizes(h: Header, a: Record, b: Record, pack: Key)
    requires SharesOneValuation(h, a, b)
    ensures Finalize(FilledPair(pack, h, a, b)) == (FilledPair(pack, h, a, b).(state := Complete), Applied)
  {
    PairIsStaged(h, a, b, pack);
    PairIsFilled(h, a, b, pack);
    SharedHasOneCategory(h, a, b);
    SealedNotWhole(h, a, b);
    FinalizeChecksTheWhole(FilledPair(pack, h, a, b));
    AppliedIsComplete(FilledPair(pack, h, a, b));
  }

  lemma PairIsNotWhole(h: Header, a: Record, b: Record, pack: Key)
    requires SharesOneValuation(h, a, b)
    ensures var root := FilledPair(pack, h, a, b);
            && Contents(root.batches) == [a, b]
            && !WholePack(h, Contents(root.batches), root.content.profiles, root.content.valuations)
  {
    PairIsFilled(h, a, b, pack);
    SealedNotWhole(h, a, b);
  }
}
