/**
 * The pack store as its mutations update it. Each method is proved to take exactly the step of
 * `PackHeads` of the same name; a refusal leaves every row alone.
 */
module PackStore {
  import opened Prelude
  import opened OrderedKeys
  import opened PackSnapshot
  import opened PackHeads

  class Store {
    var roots: map<Key, Root>
    var heads: map<Key, Head>
    var memberships: set<Membership>

    function Rows(): World
      reads this
    {
      World(roots, heads, memberships)
    }

    constructor ()
      ensures Rows() == EMPTY
    {
      roots, heads, memberships := map[], map[], {};
    }

    method Start(op: Op) returns (outcome: Outcome)
      requires op.Start?
      modifies this`roots
      ensures (Rows(), outcome) == StartStep(old(Rows()), op)
    {
      if !op.summaryHolds {
        return Declined(InvalidDomainData);
      }
      if op.id in roots {
        var existing := roots[op.id];
        if existing.state.Blocked? {
          return Declined(existing.state.reason);
        }
        if (existing.header, existing.manifest, existing.valuationCount, existing.content, existing.pack)
           != (op.header, op.manifest, op.valuationCount, op.content, op.pack) || op.sequence < existing.sequence
        {
          return Conflict;
        }
        if op.sequence > existing.sequence {
          roots := roots[op.id := existing.(sequence := op.sequence, evidence := op.evidence)];
          return Applied;
        }
        return AlreadyApplied;
      }
      var required := op.pack !in heads;
      if required && op.providerHead != Some(op.header.providerProfile) {
        return Declined(ProfileHeadMissing);
      }
      roots := roots[op.id := Started(op.pack, op.header, op.manifest, op.valuationCount, op.content, op.sequence,
                                      op.evidence, required)];
      return Applied;
    }

    /** Every record's collectible profile must be the current head when its batch arrives. */
    method CollectibleHeadsHold(heads: map<Key, Key>, rs: seq<Record>) returns (hold: bool)
      ensures hold == HeadsVerified(heads, rs)
    {
      for i := 0 to |rs|
        invariant HeadsVerified(heads, rs[..i])
      {
        if rs[i].collectible !in heads || heads[rs[i].collectible] != rs[i].profile {
          return false;
        }
      }
      assert rs[..|rs|] == rs;
      return true;
    }

    method RunningTopChase(top: Option<Chase>, rs: seq<Record>) returns (candidate: Option<Chase>)
      ensures candidate == TopChase(top, rs)
    {
      candidate := top;
      for i := 0 to |rs|
        invariant candidate == TopChase(top, rs[..i])
      {
        assert rs[..i + 1][..i] == rs[..i];
        if !Contends(rs[i]) {
          continue;
        }
        if candidate.None? || Beats(ChaseOf(rs[i]), candidate.value) {
          candidate := Some(ChaseOf(rs[i]));
        }
      }
      assert rs[..|rs|] == rs;
    }

    method InsertMemberships(id: Key, pack: Key, rs: seq<Record>)
      modifies this`memberships
      ensures memberships == old(memberships) + MembershipRows(id, pack, rs)
    {
      for i := 0 to |rs|
        invariant memberships == old(memberships) + MembershipRows(id, pack, rs[..i])
      {
        memberships := memberships + {Membership(rs[i].collectible, pack, id)};
        OneMoreMembership(id, pack, rs, i);
      }
      assert rs[..|rs|] == rs;
    }

    method ApplyBatch(op: Op) returns (outcome: Outcome)
      requires op.Batch? && Parsed(op)
      modifies this`roots, this`memberships
      ensures (Rows(), outcome) == BatchStep(old(Rows()), op)
    {
      if !Names(Rows(), op.id, op.pack) {
        return Declined(IncompleteContents);
      }
      var root, rs := roots[op.id], op.records;
      if root.state.Blocked? {
        return Declined(root.state.reason);
      }
      if op.index < |root.batches| || root.state.Complete? {
        return if op.index < |root.batches| && root.batches[op.index] == rs then AlreadyApplied else Conflict;
      }
      if op.index != |root.batches| {
        return Conflict;
      }
      if BatchInvalid(root, op.index, rs) {
        return Declined(InvalidDomainData);
      }
      if root.probabilitySum + Probability(rs) > PROBABILITY_TOTAL {
        return Declined(InvalidProbabilities);
      }
      if root.proof.required {
        var hold := CollectibleHeadsHold(op.collectibleHeads, rs);
        if !hold {
          return Declined(ProfileHeadMissing);
        }
      }
      var topChase := RunningTopChase(root.topChase, rs);
      roots := roots[op.id := Absorbed(root, rs).(topChase := topChase)];
      InsertMemberships(op.id, op.pack, rs);
      return Applied;
    }

    method Seal(op: Op) returns (outcome: Outcome)
      requires op.Seal?
      modifies this`roots
      ensures (Rows(), outcome) == SealStep(old(Rows()), op)
    {
      if op.id !in roots {
        return Declined(IncompleteContents);
      }
      if (roots[op.id].pack, roots[op.id].content) != (op.pack, op.content) {
        return Declined(InvalidDomainData);
      }
      var root := roots[op.id];
      assert roots[op.id := root] == roots;
      if root.state.Blocked? {
        return Declined(root.state.reason);
      }
      if root.state.Complete? {
        return AlreadyApplied;
      }
      if |root.batches| != |root.manifest| || root.receivedContents != root.header.contentCount {
        return Declined(IncompleteContents);
      }
      if root.probabilitySum != PROBABILITY_TOTAL {
        roots := roots[op.id := root.(state := State.Blocked(InvalidProbabilities))];
        return Declined(InvalidProbabilities);
      }
      var profiles, valuations :=
        SortKeys(AllProfiles(root.dependencies)), SortUnique(AllValuations(root.dependencies));
      if |root.dependencies| != |root.manifest| || !VectorsAgree(root, profiles, valuations) {
        roots := roots[op.id := root.(state := State.Blocked(InvalidDomainData))];
        return Declined(InvalidDomainData);
      }
      roots := roots[op.id := root.(state := Complete)];
      return Applied;
    }

    /** Writes the new head, then marks the displaced and the selected snapshot. */
    method ReplaceHead(pack: Key, head: Head, cause: DisplacedBy)
      requires head.active in roots
      modifies this`roots, this`heads
      ensures Rows() == Replaced(old(Rows()), pack, head, cause)
    {
      heads := heads[pack := head];
      if head.previous.Some? && head.previous.value in roots {
        roots := roots[head.previous.value := roots[head.previous.value].(deactivatedBy := Some(cause))];
      }
      roots := roots[head.active := roots[head.active].(deactivatedBy := None)];
    }

    method Activate(op: Op) returns (outcome: Outcome)
      requires op.Activate?
      modifies this`roots, this`heads
      ensures (Rows(), outcome) == ActivateStep(old(Rows()), op)
    {
      var i := op.intent;
      var rootGuard := RootGuard(Rows(), i, op.now);
      if rootGuard.Some? {
        return rootGuard.value;
      }
      var headGuard := HeadGuard(Rows(), i, op.providerHead);
      if headGuard.Some? {
        return headGuard.value;
      }
      if i.pack !in heads {
        ReplaceHead(i.pack, Head(1, 0, false, i.sequence, i.id, None), ByActivation);
        return Applied;
      }
      var head := heads[i.pack];
      if head.active == i.id {
        if i.sequence > head.sequence {
          heads := heads[i.pack := head.(sequence := i.sequence)];
        }
        return AlreadyActive;
      }
      ReplaceHead(i.pack, Head(head.generation + 1, head.epoch, false, i.sequence, i.id, Some(head.active)),
                  ByActivation);
      return Applied;
    }

    method BlockSnapshot(op: Op) returns (outcome: Outcome)
      requires op.Block?
      modifies this`roots
      ensures (Rows(), outcome) == BlockStep(old(Rows()), op)
    {
      if !Names(Rows(), op.id, op.pack) {
        return Declined(IncompleteContents);
      }
      if roots[op.id].state.Blocked? {
        return AlreadyApplied;
      }
      if IsActive(Rows(), op.id, op.pack) {
        return Conflict;
      }
      roots := roots[op.id := roots[op.id].(state := Blocked(op.reason))];
      return Applied;
    }

    method Hold(op: Op) returns (outcome: Outcome)
      requires op.Hold?
      modifies this`heads
      ensures (Rows(), outcome) == HoldStep(old(Rows()), op)
    {
      if !ExpectationMatches(Rows(), op.pack, false, op.generation, op.epoch) {
        return Conflict;
      }
      heads := heads[op.pack := heads[op.pack].(held := true, epoch := heads[op.pack].epoch + 1)];
      return Applied;
    }

    method ActivateRetained(op: Op) returns (outcome: Outcome)
      requires op.ActivateRetained?
      modifies this`roots, this`heads
      ensures (Rows(), outcome) == RetainedStep(old(Rows()), op)
    {
      if !ExpectationMatches(Rows(), op.pack, true, op.generation, op.epoch)
         || heads[op.pack].previous != Some(op.target)
      {
        return Conflict;
      }
      if op.target !in roots {
        return Declined(IncompleteContents);
      }
      var target := roots[op.target];
      if !target.state.Complete? {
        return Declined(if target.state.Blocked? then target.state.reason else IncompleteContents);
      }
      var head := heads[op.pack];
      ReplaceHead(op.pack, Head(head.generation + 1, head.epoch, true, head.sequence, op.target, Some(head.active)),
                  ByRollback);
      return Applied;
    }

    method Resume(op: Op) returns (outcome: Outcome)
      requires op.Resume?
      modifies this`heads
      ensures (Rows(), outcome) == ResumeStep(old(Rows()), op)
    {
      if !ExpectationMatches(Rows(), op.pack, true, op.generation, op.epoch) {
        return Conflict;
      }
      heads := heads[op.pack := heads[op.pack].(held := false)];
      return Applied;
    }
  }

  lemma OneMoreMembership(id: Key, pack: Key, rs: seq<Record>, i: nat)
    requires i < |rs|
    ensures MembershipRows(id, pack, rs[..i + 1]) ==
              MembershipRows(id, pack, rs[..i]) + {Membership(rs[i].collectible, pack, id)}
  {
    forall m ensures m in MembershipRows(id, pack, rs[..i + 1])
                     <==> m in MembershipRows(id, pack, rs[..i]) || m == Membership(rs[i].collectible, pack, id) {
      RowsOfBatch(id, pack, rs[..i + 1], m);
      RowsOfBatch(id, pack, rs[..i], m);
      assert Ids(rs[..i + 1]) == Ids(rs[..i]) + [rs[i].collectible];
    }
  }
}
