/**
 * The directory and the allowlist as the mutations update them, record by record. Each method is
 * proved to take exactly the step of `BetaAccess` of the same name; a refusal leaves every row alone.
 */
module BetaStore {
  import opened Prelude
  import opened Lists
  import opened BetaAccess

  class Store {
    var users: seq<User>
    var entries: seq<Entry>
    var next: Key

    function Rows(): World
      reads this
    {
      World(users, entries, next)
    }

    constructor ()
      ensures Rows() == World([], [], 0)
    {
      users, entries, next := [], [], 0;
    }

    // ----- Sign-in -----

    method EstablishProductUser(a: Identity, now: Time) returns (outcome: Outcome)
      modifies this`users
      ensures (Rows(), outcome) == EstablishStep(old(Rows()), a, now)
    {
      if Ambiguous(users, a.subject) {
        return Refusal(StateConflict);
      }
      var at := FindUser(users, a.subject);
      if at.None? {
        var invitation := MatchEntry(entries, a.email, a.wallet);
        var access := Decision(AwaitingReview, ByDefault, now);
        if invitation.Some? {
          access := Decision(Approved, ByAllowlist(invitation.value), now);
        }
        var welcome := MarkerAt(None, access, false, invitation.Some?, None, a.email, now);
        users := users + [User(a.subject, a.authMethod, a.email, a.wallet, now, now, false, Some(access), welcome)];
        return Established(true, false);
      }
      var existing := users[at.value];
      var merged := Merged(existing, a);
      var decisionMissing, invitation, access := existing.access.None?, None, DecisionOf(existing);
      if Awaiting(existing) {
        invitation := MatchEntry(entries, merged.email, merged.wallet);
        if invitation.Some? {
          access := Decision(Approved, ByAllowlist(invitation.value), now);
        }
      }
      var welcome := MarkerAt(existing.welcome, access, existing.suspended, invitation.Some?, Some(existing.lastSeenAt),
                              merged.email, now);
      var stale := now - existing.lastSeenAt >= LAST_SEEN_REFRESH || now < existing.lastSeenAt;
      if merged != existing || stale || decisionMissing || invitation.Some? || welcome.Some? {
        var patched := merged.(lastSeenAt := now);
        if invitation.Some? || decisionMissing {
          patched := patched.(access := Some(access));
        }
        if welcome.Some? {
          patched := patched.(welcome := welcome);
        }
        users := users[at.value := patched];
      } else {
        assert users == users[at.value := existing];
      }
      return Established(false, existing.suspended);
    }

    // ----- Allowlist -----

    /** The candidate records, each once, in the order the two scans find them. */
    method GatherCandidates(email: Option<Key>, wallet: Option<Wallet>) returns (candidates: seq<nat>)
      ensures candidates == Candidates(users, email, wallet)
    {
      var byEmail, byWallet := UsersByEmail(users, email), UsersByWallet(users, wallet);
      candidates := byEmail;
      for i := 0 to |byWallet|
        invariant candidates == byEmail + Filter(byWallet[..i], Outside(byEmail))
      {
        FilterStep(byWallet, i, Outside(byEmail));
        if byWallet[i] !in byEmail {
          candidates := candidates + [byWallet[i]];
        }
      }
      assert byWallet[..|byWallet|] == byWallet;
    }

    /** Patches every candidate that was waiting, and counts them. */
    method AdmitMatching(e: Entry, now: Time) returns (admitted: nat)
      modifies this`users
      ensures users == AdmittedUsers(old(users), Candidates(old(users), e.email, e.wallet), Admission(e.id, now))
      ensures admitted == AdmittedCount(old(users), Candidates(old(users), e.email, e.wallet))
    {
      var documents := users;
      var candidates := GatherCandidates(e.email, e.wallet);
      CandidatesExist(documents, e.email, e.wallet);
      admitted := 0;
      for k := 0 to |candidates|
        invariant users == AdmittedUsers(documents, candidates[..k], Admission(e.id, now))
        invariant admitted == AdmittedCount(documents, candidates[..k])
      {
        OneMoreAdmitted(documents, candidates, k, Admission(e.id, now));
        if Awaiting(documents[candidates[k]]) {
          users := users[candidates[k] := documents[candidates[k]].(access := Some(Admission(e.id, now)))];
          admitted := admitted + 1;
        }
      }
      assert candidates[..|candidates|] == candidates;
    }

    method CreateEntry(op: Op) returns (outcome: Outcome)
      requires op.CreateEntry?
      modifies this
      ensures (Rows(), outcome) == CreateStep(old(Rows()), op)
    {
      if op.email.None? && op.wallet.None? {
        return Refusal(IdentifierRequired);
      }
      var duplicate := DuplicateGuard(entries, op.email, op.wallet, None);
      if duplicate.Some? {
        return Refusal(duplicate.value);
      }
      var entry := Entry(next, op.email, op.wallet, op.caption, op.now, op.now, op.operator);
      entries, next := entries + [entry], next + 1;
      ghost var written := Rows();
      var admitted := AdmitMatching(entry, op.now);
      assert (Rows(), EntryWritten(Some(entry), admitted)) == AdmitFor(written, entry, op.now);
      return EntryWritten(Some(entry), admitted);
    }

    method UpdateEntry(op: Op) returns (outcome: Outcome)
      requires op.UpdateEntry?
      modifies this
      ensures (Rows(), outcome) == UpdateStep(old(Rows()), op)
    {
      var at := FindEntry(entries, op.id);
      if at.None? {
        return EntryWritten(None, 0);
      }
      var existing := entries[at.value];
      var email, wallet := Edited(existing.email, op.emailEdit), Edited(existing.wallet, op.walletEdit);
      if email.None? && wallet.None? {
        return Refusal(IdentifierRequired);
      }
      var duplicate := DuplicateGuard(entries, email, wallet, Some(op.id));
      if duplicate.Some? {
        return Refusal(duplicate.value);
      }
      var caption := Edited(existing.caption, op.captionEdit);
      var entry := existing.(email := email, wallet := wallet, caption := caption);
      if email != existing.email || wallet != existing.wallet || caption != existing.caption {
        entry := entry.(updatedAt := op.now);
        entries := entries[at.value := entry];
      }
      ghost var written := Rows();
      assert written == old(Rows()).(entries := old(entries)[at.value := entry]);
      var admitted := AdmitMatching(entry, op.now);
      assert (Rows(), EntryWritten(Some(entry), admitted)) == AdmitFor(written, entry, op.now);
      return EntryWritten(Some(entry), admitted);
    }

    method RemoveEntry(id: Key) returns (outcome: Outcome)
      modifies this`entries
      ensures (Rows(), outcome) == RemoveStep(old(Rows()), id)
    {
      var at := FindEntry(entries, id);
      if at.None? {
        return EntryRemoved(false);
      }
      entries := entries[..at.value] + entries[at.value + 1..];
      return EntryRemoved(true);
    }

    // ----- Operator decisions -----

    method DecideAccess(op: Op) returns (outcome: Outcome)
      requires op.Decide?
      modifies this`users
      ensures (Rows(), outcome) == DecideStep(old(Rows()), op)
    {
      if Ambiguous(users, op.subject) {
        return Refusal(StateConflict);
      }
      var at := FindUser(users, op.subject);
      if at.None? {
        return NothingToDecide;
      }
      var existing := users[at.value];
      var previous := DecisionOf(existing);
      if previous.state == op.target {
        return Decided(false, previous, previous, EffectiveAccess(Some(existing)));
      }
      var resulting := Decision(op.target, ByOperator(op.operator), op.now);
      users := users[at.value := existing.(access := Some(resulting))];
      return Decided(true, previous, resulting, EffectiveAccess(Some(users[at.value])));
    }

    // ----- Welcome -----

    /** Moves every chosen marker to a fresh claim and lists what the dispatcher needs. */
    method ClaimChosen(chosen: seq<nat>, now: Time, lease: int) returns (claims: seq<(Key, Option<Key>)>)
      requires forall k :: 0 <= k < |chosen| ==> chosen[k] < |users| && Open(users[chosen[k]].welcome)
      modifies this`users
      ensures users == ClaimedUsers(old(users), chosen, now, lease)
      ensures claims == ClaimList(old(users), chosen)
    {
      var documents := users;
      claims := [];
      for k := 0 to |chosen|
        invariant users == ClaimedUsers(documents, chosen[..k], now, lease)
        invariant claims == ClaimList(documents, chosen[..k])
      {
        var document := documents[chosen[k]];
        users :=
          users[chosen[k] := document.(welcome := Some(Claimed(document.welcome.value.dueAt, now, now + lease)))];
        claims := claims + [(document.subject, document.email)];
      }
      assert chosen[..|chosen|] == chosen;
    }

    method ClaimDueWelcomes(op: Op) returns (outcome: Outcome)
      requires op.Claim?
      modifies this`users
      ensures (Rows(), outcome) == ClaimStep(old(Rows()), op)
    {
      var lease := Lease(op.lease);
      if !(1 <= op.limit <= CLAIM_MAX_BATCH) || !(CLAIM_MIN_LEASE <= lease <= CLAIM_MAX_LEASE) {
        return Refusal(ClaimInvalid);
      }
      var limit: nat := op.limit;
      var due := Take(limit, DueUsers(users));
      var lapsed: seq<nat> := [];
      if |due| < limit {
        lapsed := Take(limit - |due|, LapsedUsers(users, op.now));
      }
      ChosenAreClaimable(users, limit, op.now);
      assert due + lapsed == Chosen(users, limit, op.now);
      var claims := ClaimChosen(due + lapsed, op.now, lease);
      return ClaimsTaken(claims);
    }

    method SettleWelcome(op: Op) returns (outcome: Outcome)
      requires op.Settle?
      modifies this`users
      ensures (Rows(), outcome) == SettleStep(old(Rows()), op)
    {
      if Ambiguous(users, op.subject) {
        return Refusal(StateConflict);
      }
      var at := FindUser(users, op.subject);
      if at.None? || users[at.value].welcome.None? {
        return NothingToSettle;
      }
      var marker := users[at.value].welcome.value;
      if marker.Sent? || marker.NotApplicable? {
        return AlreadySettled(marker);
      }
      var settled := if op.sent then Sent(marker.dueAt, op.now) else NotApplicable(NoVerifiedEmail, op.now);
      users := users[at.value := users[at.value].(welcome := Some(settled))];
      return Settled(settled);
    }
  }
}
