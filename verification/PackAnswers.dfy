/**
 * What each pack operation answers and what it leaves on the rows, for every branch: which requests
 * are applied, which are refused and why, and that nothing else changes. Everything is stated on the
 * stored snapshots and heads, without the checks of the steps themselves.
 */
module PackAnswers {
  import opened Prelude
  import opened OrderedKeys
  import opened PackSnapshot
  import opened PackHeads

  function Answer(w: World, op: Op): Outcome
    requires Parsed(op)
  {
    Step(w, op).1
  }

  // ----- Start -----

  predicate SameDeclaration(root: Root, op: Op)
    requires op.Start?
  {
    && root.pack == op.pack && root.header == op.header && root.manifest == op.manifest
    && root.valuationCount == op.valuationCount && root.content == op.content
  }

  /** A fresh root: what the request declares, no content yet, and a proof asked for exactly without a head. */
  predicate FreshRoot(root: Root, op: Op, headed: bool)
    requires op.Start?
  {
    && root.state.Staging? && SameDeclaration(root, op) && root.sequence == op.sequence && root.evidence == op.evidence
    && root.batches == [] && root.dependencies == [] && root.receivedContents == 0 && root.probabilitySum == 0
    && root.last.None? && root.topChase.None? && root.categoriesSeen == [op.header.category]
    && root.proof.required == root.proof.providerVerified == !headed && root.proof.collectiblesVerified == 0
    && root.deactivatedBy.None?
  }

  lemma NewSnapshotIsStaged(w: World, op: Op)
    requires op.Start? && Parsed(op) && op.id !in w.roots
    ensures Answer(w, op).Applied? <==>
            op.summaryHolds && (op.pack in w.heads || op.providerHead == Some(op.header.providerProfile))
    ensures Answer(w, op).Applied? ==>
              && op.id in Next(w, op).roots && FreshRoot(Next(w, op).roots[op.id], op, op.pack in w.heads)
              && Next(w, op) == w.(roots := w.roots[op.id := Next(w, op).roots[op.id]])
    ensures !Answer(w, op).Applied? ==>
              && Next(w, op) == w
              && Answer(w, op) == Declined(if op.summaryHolds then ProfileHeadMissing else InvalidDomainData)
  {
  }

  /** A stored snapshot takes a later declaration of the same bytes, and nothing else. */
  lemma StoredSnapshotIsRedeclared(w: World, op: Op)
    requires op.Start? && Parsed(op) && op.id in w.roots
    ensures var root, r := w.roots[op.id], Answer(w, op);
            var current := op.summaryHolds && !root.state.Blocked?;
            && (r.Applied? <==> current && SameDeclaration(root, op) && op.sequence > root.sequence)
            && (r.AlreadyApplied? <==> current && SameDeclaration(root, op) && op.sequence == root.sequence)
            && (r.Conflict? <==> current && (!SameDeclaration(root, op) || op.sequence < root.sequence))
            && (r.Declined? <==> !current)
            && (r.Declined? ==> r.reason == if op.summaryHolds then root.state.reason else InvalidDomainData)
            && Next(w, op) ==
               if r.Applied? then
                 w.(roots := w.roots[op.id := root.(sequence := op.sequence, evidence := op.evidence)])
               else w
  {
  }

  // ----- Batch -----

  /** The records continue the staged contents as the descriptor and the header allow. */
  predicate Continues(root: Root, rs: seq<Record>)
    requires rs != []
  {
    && |root.batches| < |root.manifest| && root.manifest[|root.batches|] == Entry(|rs|, rs)
    && (forall i, j :: 0 <= i < j < |rs| ==> rs[i].collectible < rs[j].collectible)
    && (root.last.Some? ==> root.last.value < rs[0].collectible)
    && (forall i :: 0 <= i < |rs| && rs[i].valuation.Priced? ==>
                      rs[i].valuation.amount.currency == root.header.currency)
    && root.receivedContents + |rs| <= root.header.contentCount
  }

  /** Every record names the profile snapshot that its collectible shows now. */
  predicate ProfilesCurrent(heads: map<Key, Key>, rs: seq<Record>) {
    forall i :: 0 <= i < |rs| ==> rs[i].collectible in heads && heads[rs[i].collectible] == rs[i].profile
  }

  lemma ForeignBatchIsRefused(w: World, op: Op)
    requires op.Batch? && Parsed(op) && !(op.id in w.roots && w.roots[op.id].pack == op.pack)
    ensures Step(w, op) == (w, Declined(IncompleteContents))
  {
  }

  lemma AscendingIds(rs: seq<Record>)
    ensures Ascending(Ids(rs)) <==> forall i, j :: 0 <= i < j < |rs| ==> rs[i].collectible < rs[j].collectible
  {
    if Ascending(Ids(rs)) {
      forall i, j | 0 <= i < j < |rs| ensures rs[i].collectible < rs[j].collectible {
        assert Ids(rs)[i] < Ids(rs)[j];
      }
    }
  }

  lemma BatchIsInvalidUnless(root: Root, rs: seq<Record>)
    requires rs != []
    ensures BatchInvalid(root, |root.batches|, rs) <==> !Continues(root, rs)
  {
    AscendingIds(rs);
  }

  /** The batch that is due is staged exactly if it continues the contents, within the total and proven. */
  lemma DueBatchAnswers(w: World, op: Op)
    requires op.Batch? && Parsed(op) && op.id in w.roots && w.roots[op.id].pack == op.pack
    requires w.roots[op.id].state.Staging? && op.index == |w.roots[op.id].batches|
    ensures var root, r := w.roots[op.id], Answer(w, op);
            var fits := root.probabilitySum + Probability(op.records) <= PROBABILITY_TOTAL;
            var proven := root.proof.required ==> ProfilesCurrent(op.collectibleHeads, op.records);
            && (r.Applied? <==> Continues(root, op.records) && fits && proven)
            && (r == Declined(InvalidDomainData) <==> !Continues(root, op.records))
            && (r == Declined(InvalidProbabilities) <==> Continues(root, op.records) && !fits)
            && (r == Declined(ProfileHeadMissing) <==> Continues(root, op.records) && fits && !proven)
            && (!r.Applied? ==> Next(w, op) == w)
  {
    BatchIsInvalidUnless(w.roots[op.id], op.records);
  }

  /** Any other batch is compared with what is stored, and changes nothing. */
  lemma OtherBatchAnswers(w: World, op: Op)
    requires op.Batch? && Parsed(op) && op.id in w.roots && w.roots[op.id].pack == op.pack
    requires !w.roots[op.id].state.Staging? || op.index != |w.roots[op.id].batches|
    ensures var root, r := w.roots[op.id], Answer(w, op);
            var repeated := op.index < |root.batches| && root.batches[op.index] == op.records;
            && Next(w, op) == w
            && r == if root.state.Blocked? then Declined(root.state.reason)
                    else if repeated then AlreadyApplied
                    else Conflict
  {
  }

  /** A staged batch is stored behind the others with its memberships; no other snapshot and no head changes. */
  lemma StagedBatchIsStored(w: World, op: Op)
    requires op.Batch? && Parsed(op) && Answer(w, op).Applied?
    ensures op.id in w.roots && op.id in Next(w, op).roots
    ensures var root, root' := w.roots[op.id], Next(w, op).roots[op.id];
            && root'.batches == root.batches + [op.records]
            && (root'.state, root'.pack, root'.header, root'.manifest, root'.valuationCount, root'.content) ==
               (root.state, root.pack, root.header, root.manifest, root.valuationCount, root.content)
            && (root'.sequence, root'.evidence, root'.deactivatedBy) ==
               (root.sequence, root.evidence, root.deactivatedBy)
            && Next(w, op).roots == w.roots[op.id := root'] && Next(w, op).heads == w.heads
    ensures forall m :: m in Next(w, op).memberships <==>
                        m in w.memberships
                        || exists i :: 0 <= i < |op.records|
                                       && m == Membership(op.records[i].collectible, op.pack, op.id)
  {
  }

  // ----- Seal -----

  /** Only the pack and content that were declared are sealed; every other answer is about the state. */
  lemma SealAnswers(w: World, op: Op)
    requires op.Seal?
    ensures var r := Answer(w, op);
            if op.id !in w.roots then r == Declined(IncompleteContents) && Next(w, op) == w
            else
              var root := w.roots[op.id];
              if root.pack != op.pack || root.content != op.content then
                r == Declined(InvalidDomainData) && Next(w, op) == w
              else
                && (root.state.Blocked? ==> r == Declined(root.state.reason) && Next(w, op).roots == w.roots)
                && (root.state.Complete? ==> r == AlreadyApplied && Next(w, op).roots == w.roots)
                && Next(w, op).heads == w.heads && Next(w, op).memberships == w.memberships
  {
    if op.id in w.roots {
      assert w.roots[op.id := w.roots[op.id]] == w.roots;
    }
  }

  /**
   * A staging snapshot is completed, refused for now, or blocked for good: it waits while a batch or a
   * content is missing, and is blocked for the total or for what the contents as a whole show.
   */
  lemma SealingEndsStaging(w: World, op: Op)
    requires op.Seal? && op.id in w.roots && w.roots[op.id].state.Staging?
    requires w.roots[op.id].pack == op.pack && w.roots[op.id].content == op.content
    ensures var root, r := w.roots[op.id], Answer(w, op);
            var received :=
              |root.batches| == |root.manifest| && root.receivedContents == root.header.contentCount;
            && (r == Declined(IncompleteContents) <==> !received)
            && (r == Declined(InvalidProbabilities) <==> received && root.probabilitySum != PROBABILITY_TOTAL)
            && (r.Declined? ==> r.reason in {IncompleteContents, InvalidProbabilities, InvalidDomainData})
            && (r.Applied? || r.Declined?)
            && Next(w, op).roots ==
               if r == Declined(IncompleteContents) then w.roots
               else w.roots[op.id := root.(state := if r.Applied? then Complete else Blocked(r.reason))]
  {
    assert w.roots[op.id := w.roots[op.id]] == w.roots;
  }

  // ----- What sealing checks -----

  predicate StrictlyAscending(ks: seq<Key>) {
    forall i, j :: 0 <= i < j < |ks| ==> ks[i] < ks[j]
  }

  function Total(rs: seq<Record>): nat {
    if rs == [] then 0 else rs[0].probability + Total(rs[1..])
  }

  lemma {:induction false} TotalFromTheEnd(rs: seq<Record>)
    requires rs != []
    ensures Total(rs) == Total(rs[..|rs| - 1]) + rs[|rs| - 1].probability
  {
    if |rs| > 1 {
      TotalFromTheEnd(rs[1..]);
      assert rs[1..][..|rs| - 2] == rs[..|rs| - 1][1..];
    }
  }

  lemma {:induction false} TotalIsTheSum(rs: seq<Record>)
    ensures Total(rs) == Probability(rs)
  {
    if rs != [] {
      TotalFromTheEnd(rs);
      TotalIsTheSum(rs[..|rs| - 1]);
    }
  }

  /** Content `i` is eligible and priced, and is what the chase shows. */
  predicate Shows(c: Chase, rs: seq<Record>, i: nat) {
    && i < |rs| && rs[i].eligible && rs[i].collectible == c.collectible
    && rs[i].valuation == Priced(c.valuation, c.amount)
  }

  /** No eligible priced content is worth more than the chase; of equals it has the smallest id. */
  predicate Dearest(c: Chase, rs: seq<Record>) {
    forall i :: 0 <= i < |rs| && rs[i].eligible && rs[i].valuation.Priced? ==>
                  || rs[i].valuation.amount.minorUnits < c.amount.minorUnits
                  || (rs[i].valuation.amount.minorUnits == c.amount.minorUnits && c.collectible <= rs[i].collectible)
  }

  predicate TopChaseIs(top: Option<Chase>, rs: seq<Record>) {
    match top
    case None => forall i :: 0 <= i < |rs| && rs[i].eligible ==> rs[i].valuation.Unpriced?
    case Some(c) => (exists i: nat :: i < |rs| && Shows(c, rs, i)) && Dearest(c, rs)
  }

  /** The sizes, order, probabilities, currency and top chase of the contents are those the header declares. */
  predicate ContentsFit(h: Header, rs: seq<Record>) {
    && |rs| == h.contentCount && Total(rs) == 1_000_000
    && (forall i, j :: 0 <= i < j < |rs| ==> rs[i].collectible < rs[j].collectible)
    && (forall i :: 0 <= i < |rs| && rs[i].valuation.Priced? ==> rs[i].valuation.amount.currency == h.currency)
    && TopChaseIs(h.topChase, rs)
  }

  /** Each list names exactly what the contents have, once, in order; no two contents share a profile. */
  ghost predicate ListsFit(h: Header, rs: seq<Record>, profiles: seq<Key>, valuations: seq<Key>) {
    && StrictlyAscending(h.categories) && StrictlyAscending(profiles) && StrictlyAscending(valuations)
    && |profiles| == |rs|
    && (forall k :: k in h.categories <==> k == h.category || exists i :: 0 <= i < |rs| && rs[i].category == k)
    && (forall k :: k in profiles <==> exists i :: 0 <= i < |rs| && rs[i].profile == k)
    && (forall k :: k in valuations <==>
                    exists i :: 0 <= i < |rs| && rs[i].eligible && rs[i].valuation.identity == k)
  }

  lemma TopChaseOnRows(top: Option<Chase>, rs: seq<Record>)
    requires forall i, j :: 0 <= i < j < |rs| ==> rs[i].collectible < rs[j].collectible
    ensures IsTopChase(top, rs) <==> TopChaseIs(top, rs)
  {
    if top.Some? {
      forall i: nat | i < |rs|
        ensures Shows(top.value, rs, i) <==> Contends(rs[i]) && ChaseOf(rs[i]) == top.value
      {
      }
      if IsTopChase(top, rs) {
        var i :| 0 <= i < |rs| && Contends(rs[i]) && ChaseOf(rs[i]) == top.value;
        assert Shows(top.value, rs, i);
      }
      if TopChaseIs(top, rs) {
        var i: nat :| i < |rs| && Shows(top.value, rs, i);
        assert Contends(rs[i]) && ChaseOf(rs[i]) == top.value;
      }
    }
  }

  lemma {:induction false} EligibleMembers(rs: seq<Record>, k: Key)
    ensures k in EligibleValuations(rs) <==>
            exists i :: 0 <= i < |rs| && rs[i].eligible && rs[i].valuation.identity == k
  {
    if rs != [] {
      var init := rs[..|rs| - 1];
      EligibleMembers(init, k);
      if i :| 0 <= i < |init| && init[i].eligible && init[i].valuation.identity == k {
        assert rs[i] == init[i];
      }
    }
  }

  lemma ValuationsOnRows(rs: seq<Record>, valuations: seq<Key>)
    ensures valuations == SortUnique(EligibleValuations(rs)) <==>
            && StrictlyAscending(valuations)
            && forall k :: k in valuations <==>
                           exists i :: 0 <= i < |rs| && rs[i].eligible && rs[i].valuation.identity == k
  {
    SortUniqueSorts(EligibleValuations(rs));
    forall k ensures k in EligibleValuations(rs) <==>
                     exists i :: 0 <= i < |rs| && rs[i].eligible && rs[i].valuation.identity == k
    {
      EligibleMembers(rs, k);
    }
    if StrictlyAscending(valuations) && forall k :: k in valuations <==> k in EligibleValuations(rs) {
      AscendingAgree(valuations, SortUnique(EligibleValuations(rs)));
    }
  }

  lemma CategoriesOnRows(h: Header, rs: seq<Record>)
    ensures h.categories == SortUnique([h.category] + Categories(rs)) <==>
            && StrictlyAscending(h.categories)
            && forall k :: k in h.categories <==>
                           k == h.category || exists i :: 0 <= i < |rs| && rs[i].category == k
  {
    var all := [h.category] + Categories(rs);
    SortUniqueSorts(all);
    forall k ensures k in all <==> k == h.category || exists i :: 0 <= i < |rs| && rs[i].category == k {
      assert k in all <==> k == h.category || k in Categories(rs);
      forall i | 0 <= i < |rs| && rs[i].category == k ensures k in Categories(rs) {
        assert Categories(rs)[i] == k;
      }
    }
    if StrictlyAscending(h.categories) && forall k :: k in h.categories <==> k in all {
      AscendingAgree(h.categories, SortUnique(all));
    }
  }

  lemma ProfileMembers(rs: seq<Record>, k: Key)
    ensures k in Profiles(rs) <==> exists i :: 0 <= i < |rs| && rs[i].profile == k
  {
    forall i | 0 <= i < |rs| && rs[i].profile == k ensures k in Profiles(rs) {
      assert Profiles(rs)[i] == k;
    }
  }

  /** A strictly ascending list as long as another, with the same members, is that list sorted. */
  lemma AscendingIsSorted(ks: seq<Key>, all: seq<Key>)
    requires StrictlyAscending(ks) && |ks| == |all| && forall k :: k in ks <==> k in all
    ensures ks == SortKeys(all)
  {
    SameSizeIsDistinct(ks, all);
    AscendingSortIsDistinct(all);
    SortKeysSorts(all);
    forall k ensures k in SortKeys(all) <==> k in all {
      assert k in SortKeys(all) <==> k in multiset(SortKeys(all));
    }
    AscendingAgree(ks, SortKeys(all));
  }

  ghost function Members(ks: seq<Key>): set<Key> {
    set k | k in ks
  }

  lemma {:induction false} DistinctSize(ks: seq<Key>)
    ensures |Members(ks)| <= |ks|
    ensures |Members(ks)| == |ks| <==> Distinct(ks)
  {
    if ks != [] {
      var init, last := ks[..|ks| - 1], ks[|ks| - 1];
      DistinctSize(init);
      assert ks == init + [last];
      assert Members(ks) == Members(init) + {last};
      if last in init {
        var i :| 0 <= i < |init| && init[i] == last;
        assert ks[i] == ks[|ks| - 1];
      } else {
        assert Distinct(init) ==> Distinct(ks);
        assert Distinct(ks) ==> Distinct(init);
      }
    }
  }

  lemma SameSizeIsDistinct(ks: seq<Key>, all: seq<Key>)
    requires StrictlyAscending(ks) && |ks| == |all| && forall k :: k in ks <==> k in all
    ensures Distinct(all)
  {
    DistinctSize(ks);
    DistinctSize(all);
    assert Members(ks) == Members(all);
  }

  lemma ProfilesOnRows(rs: seq<Record>, profiles: seq<Key>)
    ensures profiles == SortKeys(Profiles(rs)) && Ascending(profiles) <==>
            && StrictlyAscending(profiles) && |profiles| == |rs|
            && forall k :: k in profiles <==> exists i :: 0 <= i < |rs| && rs[i].profile == k
  {
    var all := Profiles(rs);
    SortKeysSorts(all);
    assert |SortKeys(all)| == |multiset(SortKeys(all))| == |multiset(all)| == |all|;
    forall k ensures k in SortKeys(all) <==> k in all {
      assert k in SortKeys(all) <==> k in multiset(SortKeys(all));
    }
    forall k ensures k in all <==> exists i :: 0 <= i < |rs| && rs[i].profile == k {
      ProfileMembers(rs, k);
    }
    if StrictlyAscending(profiles) && |profiles| == |rs| && forall k :: k in profiles <==> k in all {
      AscendingIsSorted(profiles, all);
    }
  }

  lemma ContentsOnRows(h: Header, rs: seq<Record>)
    ensures ContentsFit(h, rs) <==>
            && |rs| == h.contentCount && Ascending(Ids(rs)) && Probability(rs) == PROBABILITY_TOTAL
            && IsTopChase(h.topChase, rs) && InCurrency(rs, h.currency)
  {
    TotalIsTheSum(rs);
    AscendingIds(rs);
    if Ascending(Ids(rs)) {
      TopChaseOnRows(h.topChase, rs);
    }
  }

  lemma ListsOnRows(h: Header, rs: seq<Record>, profiles: seq<Key>, valuations: seq<Key>)
    ensures ListsFit(h, rs, profiles, valuations) <==>
            && profiles == SortKeys(Profiles(rs)) && Ascending(profiles)
            && valuations == SortUnique(EligibleValuations(rs))
            && h.categories == SortUnique([h.category] + Categories(rs))
  {
    ValuationsOnRows(rs, valuations);
    CategoriesOnRows(h, rs);
    ProfilesOnRows(rs, profiles);
  }

  lemma SealedOnRows(h: Header, rs: seq<Record>, profiles: seq<Key>, valuations: seq<Key>)
    ensures Sealed(h, rs, profiles, valuations) <==> ContentsFit(h, rs) && ListsFit(h, rs, profiles, valuations)
  {
    ContentsOnRows(h, rs);
    ListsOnRows(h, rs, profiles, valuations);
  }

  /** The descriptor and the declared counts of a snapshot are those of its content. */
  predicate Described(root: Root) {
    && |root.batches| == |root.manifest| && root.content.header == root.header && root.content.manifest == root.manifest
    && |root.content.valuations| == root.valuationCount
  }

  /**
   * After every run, sealing completes a staging snapshot exactly if all its batches are there and its
   * contents as a whole are the ones its header and its content lists declare.
   */
  lemma SealingReadsTheWhole(ops: seq<Op>, op: Op)
    requires op.Seal? && op.id in Run(EMPTY, ops).roots
    requires var root := Run(EMPTY, ops).roots[op.id];
             root.state.Staging? && root.pack == op.pack && root.content == op.content
    ensures var root := Run(EMPTY, ops).roots[op.id];
            var contents := Contents(root.batches);
            Answer(Run(EMPTY, ops), op).Applied? <==>
            && Described(root) && ContentsFit(root.header, contents)
            && ListsFit(root.header, contents, root.content.profiles, root.content.valuations)
  {
    RunKeepsInv(EMPTY, ops);
    var root := Run(EMPTY, ops).roots[op.id];
    assert SoundRoot(root);
    FinalizeChecksTheWhole(root);
    SealedOnRows(root.header, Contents(root.batches), root.content.profiles, root.content.valuations);
  }

  // ----- Block -----

  /** A snapshot is blocked unless its pack shows it. */
  lemma BlockAnswers(w: World, op: Op)
    requires op.Block?
    ensures var r := Answer(w, op);
            var stored := op.id in w.roots && w.roots[op.id].pack == op.pack;
            var showing := op.pack in w.heads && w.heads[op.pack].active == op.id;
            && (r == Declined(IncompleteContents) <==> !stored)
            && (r.Declined? ==> !stored)
            && (r.AlreadyApplied? <==> stored && w.roots[op.id].state.Blocked?)
            && (r.Conflict? <==> stored && !w.roots[op.id].state.Blocked? && showing)
            && (r.Applied? <==> stored && !w.roots[op.id].state.Blocked? && !showing)
            && Next(w, op) ==
               if r.Applied? then w.(roots := w.roots[op.id := w.roots[op.id].(state := Blocked(op.reason))]) else w
  {
  }

  // ----- Activate -----

  /** The stored snapshot is complete and is the one the intent was declared for. */
  predicate DeclaredFor(w: World, i: Intent) {
    && i.id in w.roots && w.roots[i.id].state.Complete?
    && w.roots[i.id].pack == i.pack && w.roots[i.id].content == i.content && i.evidenceSequence == i.sequence
  }

  /** The intent is still good: neither it nor its estimate has expired, and it is the latest declaration. */
  predicate StillGood(root: Root, i: Intent, now: Time) {
    && now < i.expiresAt && root.sequence == i.sequence && root.evidence == i.evidence
    && i.createdAt < root.header.evValidUntil
  }

  /** The dependency rows of a snapshot that was proven while its pack had no head. */
  predicate ProvenFirst(root: Root, providerHead: Option<Key>) {
    && root.proof.required && root.proof.providerVerified
    && root.proof.collectiblesVerified == root.header.contentCount
    && providerHead == Some(root.header.providerProfile)
    && |root.dependencies| == |root.manifest| && Counted(root.dependencies) == root.header.contentCount
  }

  function Counted(ds: seq<Dependency>): nat {
    if ds == [] then 0 else ds[0].count + Counted(ds[1..])
  }

  lemma {:induction false} CountedFromTheEnd(ds: seq<Dependency>)
    requires ds != []
    ensures Counted(ds) == Counted(ds[..|ds| - 1]) + ds[|ds| - 1].count
  {
    if |ds| > 1 {
      CountedFromTheEnd(ds[1..]);
      assert ds[1..][..|ds| - 2] == ds[..|ds| - 1][1..];
    }
  }

  lemma {:induction false} CountedIsTheCount(ds: seq<Dependency>)
    ensures Counted(ds) == DependencyCount(ds)
  {
    if ds != [] {
      CountedFromTheEnd(ds);
      CountedIsTheCount(ds[..|ds| - 1]);
    }
  }

  /** The head is the one the intent was prepared against, or there is none and it expected none. */
  predicate ExpectsHead(w: World, i: Intent) {
    if i.pack in w.heads then
      i.expected == Expected(w.heads[i.pack].generation, w.heads[i.pack].epoch, Some(w.heads[i.pack].active))
    else i.expected == Expected(0, 0, None)
  }

  lemma ActivationReadsTheSnapshot(w: World, op: Op)
    requires op.Activate? && !(DeclaredFor(w, op.intent) && StillGood(w.roots[op.intent.id], op.intent, op.now))
    ensures var i := op.intent;
            && Next(w, op) == w
            && Answer(w, op) ==
               (if i.id !in w.roots || w.roots[i.id].state.Staging? then Declined(IncompleteContents)
                else if w.roots[i.id].state.Blocked? then Declined(w.roots[i.id].state.reason)
                else if !DeclaredFor(w, i) then Declined(InvalidDomainData)
                else if i.expiresAt <= op.now then Declined(OperationExpired)
                else if w.roots[i.id].sequence != i.sequence || w.roots[i.id].evidence != i.evidence then Conflict
                else Declined(EvInputsPending))
  {
  }

  /** The first activation of a pack: the whole head, and no snapshot displaced. */
  lemma FirstActivationAnswers(w: World, op: Op)
    requires op.Activate? && op.intent.pack !in w.heads
    requires DeclaredFor(w, op.intent) && StillGood(w.roots[op.intent.id], op.intent, op.now)
    ensures var i, r := op.intent, Answer(w, op);
            var proven := ProvenFirst(w.roots[i.id], op.providerHead);
            && (r.Conflict? <==> !ExpectsHead(w, i))
            && (r == Declined(ProfileHeadMissing) <==> ExpectsHead(w, i) && !proven)
            && (r.Applied? <==> ExpectsHead(w, i) && proven)
            && (!r.Applied? ==> Next(w, op) == w)
            && (r.Applied? ==>
                  && Next(w, op).heads == w.heads[i.pack := Head(1, 0, false, i.sequence, i.id, None)]
                  && Next(w, op).roots == w.roots[i.id := w.roots[i.id].(deactivatedBy := None)]
                  && Next(w, op).memberships == w.memberships)
  {
    CountedIsTheCount(w.roots[op.intent.id].dependencies);
  }

  /**
   * An activation over a head: refused while the head is held, and when it is not the head that was
   * expected; it switches only to a later sequence, and moves only the sequence of the showing snapshot.
   */
  lemma LaterActivationAnswers(w: World, op: Op)
    requires op.Activate? && op.intent.pack in w.heads
    requires DeclaredFor(w, op.intent) && StillGood(w.roots[op.intent.id], op.intent, op.now)
    ensures var i, head, r := op.intent, w.heads[op.intent.pack], Answer(w, op);
            && (r == Declined(OperatorHold) <==> head.held)
            && (r.Declined? ==> head.held)
            && (r.Conflict? <==>
                !head.held && (!ExpectsHead(w, i) || (head.active != i.id && i.sequence <= head.sequence)))
            && (r.AlreadyActive? <==> !head.held && ExpectsHead(w, i) && head.active == i.id)
            && (r.Applied? <==> !head.held && ExpectsHead(w, i) && head.active != i.id && i.sequence > head.sequence)
            && (r.AlreadyActive? ==>
                  Next(w, op) ==
                  if i.sequence > head.sequence then w.(heads := w.heads[i.pack := head.(sequence := i.sequence)])
                  else w)
            && (r.Declined? || r.Conflict? ==> Next(w, op) == w)
  {
  }

  /** What a switch leaves: one head moved on by one generation, and the two snapshots marked. */
  lemma SwitchIsRecorded(w: World, op: Op)
    requires op.Activate? && op.intent.pack in w.heads && Answer(w, op).Applied?
    ensures var i, head := op.intent, w.heads[op.intent.pack];
            && i.id in w.roots
            && Next(w, op).heads ==
               w.heads[i.pack := Head(head.generation + 1, head.epoch, false, i.sequence, i.id, Some(head.active))]
            && MarksMoved(w, Next(w, op), head.active, i.id, ByActivation)
  {
  }

  /** `shown` is marked as showing, `displaced`, where stored, as displaced by `cause`; nothing else moves. */
  predicate MarksMoved(w: World, w': World, displaced: Key, shown: Key, cause: DisplacedBy) {
    && w'.memberships == w.memberships && w'.roots.Keys == w.roots.Keys
    && (forall id :: id in w.roots ==>
          w'.roots[id] ==
          if id == shown then w.roots[id].(deactivatedBy := None)
          else if id == displaced then w.roots[id].(deactivatedBy := Some(cause))
          else w.roots[id])
  }

  // ----- Hold, retained activation, resume -----

  /** The head is as the operator expects it. */
  predicate HeadIs(w: World, pack: Key, held: bool, generation: nat, epoch: nat) {
    && pack in w.heads && w.heads[pack].held == held
    && w.heads[pack].generation == generation && w.heads[pack].epoch == epoch
  }

  lemma HoldAnswers(w: World, op: Op)
    requires op.Hold?
    ensures Answer(w, op) == if HeadIs(w, op.pack, false, op.generation, op.epoch) then Applied else Conflict
    ensures Next(w, op) ==
            if Answer(w, op).Applied? then
              w.(heads := w.heads[op.pack := w.heads[op.pack].(held := true, epoch := op.epoch + 1)])
            else w
  {
  }

  lemma ResumeAnswers(w: World, op: Op)
    requires op.Resume?
    ensures Answer(w, op) == if HeadIs(w, op.pack, true, op.generation, op.epoch) then Applied else Conflict
    ensures Next(w, op) ==
            if Answer(w, op).Applied? then w.(heads := w.heads[op.pack := w.heads[op.pack].(held := false)]) else w
  {
  }

  /** Under a hold the retained snapshot returns exactly if it is the previous one, stored and complete. */
  lemma RetainedAnswers(w: World, op: Op)
    requires op.ActivateRetained?
    ensures var r := Answer(w, op);
            var expected :=
              HeadIs(w, op.pack, true, op.generation, op.epoch) && w.heads[op.pack].previous == Some(op.target);
            var stored := op.target in w.roots;
            && (r.Conflict? <==> !expected)
            && (r.Applied? <==> expected && stored && w.roots[op.target].state.Complete?)
            && (r.Declined? <==> expected && (!stored || !w.roots[op.target].state.Complete?))
            && (r.Declined? ==>
                  r.reason == if stored && w.roots[op.target].state.Blocked? then w.roots[op.target].state.reason
                              else IncompleteContents)
            && (!r.Applied? ==> Next(w, op) == w)
  {
  }

  lemma RetainedIsRecorded(w: World, op: Op)
    requires op.ActivateRetained? && Answer(w, op).Applied?
    ensures var head := w.heads[op.pack];
            && Next(w, op).heads ==
               w.heads[op.pack := Head(head.generation + 1, head.epoch, true, head.sequence, op.target,
                                       Some(head.active))]
            && MarksMoved(w, Next(w, op), head.active, op.target, ByRollback)
  {
  }

  // ----- A hold lasts until it is resumed -----

  /** An activation of a held pack leaves the store as it is, whatever it expects. */
  lemma HeldHeadIsNotActivated(w: World, op: Op)
    requires op.Activate? && op.intent.pack in w.heads && w.heads[op.intent.pack].held
    ensures Next(w, op) == w && !Answer(w, op).Applied? && !Answer(w, op).AlreadyActive?
  {
    if DeclaredFor(w, op.intent) && StillGood(w.roots[op.intent.id], op.intent, op.now) {
      LaterActivationAnswers(w, op);
    } else {
      ActivationReadsTheSnapshot(w, op);
    }
  }

  /** What one step does to a held head: only a resume ends the hold, only a retained activation switches. */
  predicate HoldKept(op: Op, pack: Key, h: Head, h': Head) {
    && (!h'.held ==> op.Resume? && op.pack == pack)
    && (h'.active != h.active ==> op.ActivateRetained? && op.pack == pack)
  }

  lemma HeldHeadMoves(w: World, op: Op, pack: Key)
    requires pack in w.heads && w.heads[pack].held
    ensures pack in Next(w, op).heads && HoldKept(op, pack, w.heads[pack], Next(w, op).heads[pack])
  {
    if op.Activate? {
      if op.intent.pack == pack {
        HeldHeadIsNotActivated(w, op);
      } else {
        OtherActivationKeepsHead(w, op, pack);
      }
    }
  }

  lemma OtherActivationKeepsHead(w: World, op: Op, pack: Key)
    requires op.Activate? && op.intent.pack != pack && pack in w.heads
    ensures pack in Next(w, op).heads && Next(w, op).heads[pack] == w.heads[pack]
  {
  }

  /** No operation resumes the pack. */
  predicate NeverResumed(ops: seq<Op>, pack: Key) {
    forall k :: 0 <= k < |ops| ==> !(ops[k].Resume? && ops[k].pack == pack)
  }

  predicate NeverRetained(ops: seq<Op>, pack: Key) {
    forall k :: 0 <= k < |ops| ==> !(ops[k].ActivateRetained? && ops[k].pack == pack)
  }

  /**
   * A hold lasts through any run until the pack is resumed; and without a retained activation the pack
   * shows the same snapshot all the while.
   */
  lemma {:induction false} HoldLastsUntilResumed(w: World, ops: seq<Op>, pack: Key)
    requires pack in w.heads && w.heads[pack].held && NeverResumed(ops, pack)
    ensures pack in Run(w, ops).heads && Run(w, ops).heads[pack].held
    ensures NeverRetained(ops, pack) ==> Run(w, ops).heads[pack].active == w.heads[pack].active
  {
    if ops != [] {
      var init, last := ops[..|ops| - 1], ops[|ops| - 1];
      HoldLastsUntilResumed(w, init, pack);
      HeldHeadMoves(Run(w, init), last, pack);
    }
  }
}
