/** What every run of contest commands keeps, and what a revealed draw therefore means. */
module ContestRuns {
  import opened Options
  import opened DrawSampling
  import opened Sorting
  import opened Contest

  // ---------------------------------------------------------------- invariants

  ghost predicate EntryOk(code: CodeOf, s: World, id: Id)
    requires id in s.entries
  {
    var e := s.entries[id];
    && e.contestId in s.contests && !s.contests[e.contestId].state.Draft?
    && e.code == code(e.contestId, e.key)
    && e.receiptId in s.receipts && (s.receipts[e.receiptId].Granted? <==> e.revokedAt.None?)
    && (e.state.Revoked? ==> e.revokedAt.Some?)
    && 0 <= e.weight <= 1 + s.contests[e.contestId].rules.cap && (e.state.Eligible? ==> e.weight >= 1)
    && (e.referrer.Some? ==> e.referrer.value in s.entries && s.entries[e.referrer.value].contestId == e.contestId)
  }

  ghost predicate Entries(code: CodeOf, s: World) {
    forall id :: id in s.entries ==> EntryOk(code, s, id)
  }

  ghost predicate Unshared(s: World) {
    forall a, b :: a in s.entries && b in s.entries && a != b ==> Apart(s.entries[a], s.entries[b])
  }

  ghost predicate Apart(e: Entry, f: Entry) {
    e.receiptId != f.receiptId && (e.contestId == f.contestId ==> e.code != f.code)
  }

  ghost predicate ContestOk(s: World, id: Id)
    requires id in s.contests
  {
    var k := s.contests[id];
    if k.state.Draft? || k.state.Published? then k.snapshotId.None? && k.proofId.None?
    else
      && k.snapshotId.Some? && k.snapshotId.value in s.snapshots
      && s.snapshots[k.snapshotId.value].frozen && s.snapshots[k.snapshotId.value].contestId == id
      && (k.state.DrawFrozen? ==> k.proofId.None?)
      && (k.state.Drawn? ==>
           k.proofId.Some? && k.proofId.value in s.proofs && s.proofs[k.proofId.value].contestId == id)
  }

  ghost predicate ContestsOk(s: World) {
    forall id :: id in s.contests ==> ContestOk(s, id)
  }

  ghost predicate ProofOk(s: World, p: Id)
    requires p in s.proofs
  {
    var proof := s.proofs[p];
    && proof.contestId in s.contests && s.contests[proof.contestId].state.Drawn?
    && s.contests[proof.contestId].proofId == Some(p)
    && s.contests[proof.contestId].snapshotId == Some(proof.snapshotId)
  }

  ghost predicate Proofs(s: World) {
    forall p :: p in s.proofs ==> ProofOk(s, p)
  }

  /** In a frozen contest, listing the candidates afresh gives the frozen list. */
  ghost predicate NoDrift(s: World) {
    forall id :: id in s.contests && s.contests[id].state.DrawFrozen? && ContestOk(s, id) ==>
      Candidates(s, id, s.contests[id].rules.cap) == s.snapshots[s.contests[id].snapshotId.value].candidates
  }

  ghost predicate NonEmpty(s: World) {
    forall p :: p in s.snapshots ==> s.snapshots[p].candidates != []
  }

  ghost predicate Inv(code: CodeOf, s: World) {
    Entries(code, s) && Unshared(s) && ContestsOk(s) && Proofs(s) && NoDrift(s) && NonEmpty(s)
  }

  // ------------------------------------------------- candidates do not depend on

  ghost predicate SameEntrant(s: World, n: World, id: Id) {
    && id in s.entries && id in n.entries && n.entries[id] == s.entries[id]
    && (s.entries[id].receiptId in s.receipts <==> s.entries[id].receiptId in n.receipts)
    && (s.entries[id].receiptId in s.receipts ==>
         s.receipts[s.entries[id].receiptId] == n.receipts[s.entries[id].receiptId])
    && Latest(n.decisions, id) == Latest(s.decisions, id)
  }

  lemma SameCandidates(s: World, n: World, contestId: Id, cap: nat)
    requires forall id :: id in s.entries && s.entries[id].contestId == contestId ==> SameEntrant(s, n, id)
    requires forall id :: id in n.entries && n.entries[id].contestId == contestId ==> SameEntrant(s, n, id)
    ensures Candidates(n, contestId, cap) == Candidates(s, contestId, cap)
  {
    forall id ensures id in InDrawIds(n, contestId) <==> id in InDrawIds(s, contestId) {
    }
    assert InDrawIds(n, contestId) == InDrawIds(s, contestId);
    var ids := Ascending(InDrawIds(s, contestId));
    forall i | 0 <= i < |ids| ensures CandidateOf(n, ids[i], cap) == CandidateOf(s, ids[i], cap) {
      assert ids[i] in ids;
      assert SameEntrant(s, n, ids[i]);
    }
  }

  lemma LatestAfterOther(decisions: seq<Decision>, d: Decision, entryId: Id)
    requires d.entryId != entryId
    ensures Latest(decisions + [d], entryId) == Latest(decisions, entryId)
  {
    assert (decisions + [d])[..|decisions|] == decisions;
  }

  lemma UntouchedKeepsNoDrift(code: CodeOf, s: World, n: World)
    requires Inv(code, s) && n.entries == s.entries && n.receipts == s.receipts && n.decisions == s.decisions
    requires forall id :: id in n.contests && n.contests[id].state.DrawFrozen? ==>
      id in s.contests && n.contests[id] == s.contests[id] && ContestOk(n, id)
        && n.snapshots[n.contests[id].snapshotId.value] == s.snapshots[s.contests[id].snapshotId.value]
    ensures NoDrift(n)
  {
    forall id | id in n.contests && n.contests[id].state.DrawFrozen? && ContestOk(n, id)
      ensures Candidates(n, id, n.contests[id].rules.cap) == n.snapshots[n.contests[id].snapshotId.value].candidates {
      SameCandidates(s, n, id, n.contests[id].rules.cap);
      assert ContestOk(s, id);
    }
  }

  // ---------------------------------------------------------- each command alone

  lemma CreateKeepsInv(code: CodeOf, s: World, now: int, c: Command)
    requires Inv(code, s) && c.Create? && Step(code, s, now, c).Done?
    ensures Inv(code, After(code, s, now, c))
  {
    var n := After(code, s, now, c);
    forall id | id in n.entries ensures EntryOk(code, n, id) { assert EntryOk(code, s, id); }
    forall id | id in n.contests ensures ContestOk(n, id) { if id != c.id { assert ContestOk(s, id); } }
    forall p | p in n.proofs ensures ProofOk(n, p) { assert ProofOk(s, p); }
    UntouchedKeepsNoDrift(code, s, n);
  }

  lemma PublishKeepsInv(code: CodeOf, s: World, now: int, c: Command)
    requires Inv(code, s) && c.Publish? && Step(code, s, now, c).Done?
    ensures Inv(code, After(code, s, now, c))
  {
    var n := After(code, s, now, c);
    forall id | id in n.entries ensures EntryOk(code, n, id) { assert EntryOk(code, s, id); }
    forall id | id in n.contests ensures ContestOk(n, id) { assert ContestOk(s, id); }
    forall p | p in n.proofs ensures ProofOk(n, p) { assert ProofOk(s, p); }
    UntouchedKeepsNoDrift(code, s, n);
  }

  lemma SignalKeepsInv(code: CodeOf, s: World, now: int, c: Command)
    requires Inv(code, s) && c.RaiseSignal? && Step(code, s, now, c).Done?
    ensures Inv(code, After(code, s, now, c))
  {
    var n := After(code, s, now, c);
    forall id | id in n.entries ensures EntryOk(code, n, id) { assert EntryOk(code, s, id); }
    forall id | id in n.contests ensures ContestOk(n, id) { assert ContestOk(s, id); }
    forall p | p in n.proofs ensures ProofOk(n, p) { assert ProofOk(s, p); }
    UntouchedKeepsNoDrift(code, s, n);
  }

  /** What an accepted registration does. */
  ghost predicate Registers(code: CodeOf, s: World, n: World, contestId: Id, key: Key, entryId: Id, receiptId: Id,
      referrer: Option<Id>)
  {
    && contestId in s.contests && s.contests[contestId].state.Published?
    && entryId !in s.entries && receiptId !in s.receipts
    && (forall id :: id in s.entries && s.entries[id].contestId == contestId ==>
         s.entries[id].code != code(contestId, key))
    && (referrer.Some? ==> referrer.value in s.entries && s.entries[referrer.value].contestId == contestId)
    && n == s.(receipts := s.receipts[receiptId := Granted],
               entries := Reward(s.entries[entryId :=
                 Entry(contestId, key, code(contestId, key), Eligible, referrer, receiptId, 1, None, 1)],
                                 referrer, s.contests[contestId].rules.cap))
  }

  lemma RegisterMeans(code: CodeOf, s: World, now: int, c: Command) returns (referrer: Option<Id>)
    requires c.Register? && Step(code, s, now, c).Done?
    ensures Registers(code, s, After(code, s, now, c), c.contestId, c.key, c.entryId, c.receiptId, referrer)
  {
    referrer := FindReferrer(s, c.contestId, c.referral);
    forall id | id in s.entries && s.entries[id].contestId == c.contestId
      ensures s.entries[id].code != code(c.contestId, c.key) {
      assert id in Entrants(s, c.contestId);
    }
  }

  lemma RegisterKeepsEntry(code: CodeOf, s: World, n: World, contestId: Id, key: Key, entryId: Id, receiptId: Id,
      referrer: Option<Id>, id: Id)
    requires Entries(code, s) && Registers(code, s, n, contestId, key, entryId, receiptId, referrer) && id in n.entries
    ensures EntryOk(code, n, id)
  {
    if id != entryId { OldEntryOk(code, s, n, contestId, key, entryId, receiptId, referrer, id); }
  }

  lemma OldEntryOk(code: CodeOf, s: World, n: World, contestId: Id, key: Key, entryId: Id, receiptId: Id,
      referrer: Option<Id>, id: Id)
    requires Registers(code, s, n, contestId, key, entryId, receiptId, referrer) && id in s.entries
    requires EntryOk(code, s, id)
    ensures EntryOk(code, n, id)
  {
    var entry := Entry(contestId, key, code(contestId, key), Eligible, referrer, receiptId, 1, None, 1);
    RewardKeeps(s.entries[entryId := entry], referrer, s.contests[contestId].rules.cap);
  }

  /** A reward raises one weight, up to the cap, and changes nothing else of an entry. */
  ghost predicate Rewarded(e: Entry, f: Entry, cap: nat) {
    f == e.(weight := f.weight, version := f.version)
      && (f.weight == e.weight || e.weight <= f.weight <= 1 + cap || (f.weight == 1 + cap <= e.weight))
  }

  lemma RewardKeeps(entries: map<Id, Entry>, referrer: Option<Id>, cap: nat)
    ensures Reward(entries, referrer, cap).Keys == entries.Keys
    ensures forall id :: id in entries ==> Rewarded(entries[id], Reward(entries, referrer, cap)[id], cap)
    ensures forall id :: id in entries && Some(id) != referrer ==> Reward(entries, referrer, cap)[id] == entries[id]
  {
  }

  lemma RegisterKeepsApart(code: CodeOf, s: World, n: World, contestId: Id, key: Key, entryId: Id, receiptId: Id,
      referrer: Option<Id>, a: Id, b: Id)
    requires Entries(code, s) && Unshared(s) && Registers(code, s, n, contestId, key, entryId, receiptId, referrer)
    requires a in n.entries && b in n.entries && a != b && a != entryId
    ensures Apart(n.entries[a], n.entries[b])
  {
    assert EntryOk(code, s, a);
    if b != entryId { assert Apart(s.entries[a], s.entries[b]); }
  }

  lemma RegisterKeepsEntrant(code: CodeOf, s: World, n: World, contestId: Id, key: Key, entryId: Id, receiptId: Id,
      referrer: Option<Id>, id: Id)
    requires Entries(code, s) && Registers(code, s, n, contestId, key, entryId, receiptId, referrer)
    requires id in n.entries && n.entries[id].contestId != contestId
    ensures SameEntrant(s, n, id)
  {
    assert EntryOk(code, s, id);
  }

  lemma RegisterKeepsInv(code: CodeOf, s: World, now: int, c: Command)
    requires Inv(code, s) && c.Register? && Step(code, s, now, c).Done?
    ensures Inv(code, After(code, s, now, c))
  {
    var r := RegisterMeans(code, s, now, c);
    RegisteredKeepsInv(code, s, After(code, s, now, c), c.contestId, c.key, c.entryId, c.receiptId, r);
  }

  lemma RegisteredKeepsInv(code: CodeOf, s: World, n: World, contestId: Id, key: Key, entryId: Id, receiptId: Id,
      referrer: Option<Id>)
    requires Inv(code, s) && Registers(code, s, n, contestId, key, entryId, receiptId, referrer)
    ensures Inv(code, n)
  {
    forall id | id in n.entries ensures EntryOk(code, n, id) {
      RegisterKeepsEntry(code, s, n, contestId, key, entryId, receiptId, referrer, id);
    }
    forall a, b | a in n.entries && b in n.entries && a != b ensures Apart(n.entries[a], n.entries[b]) {
      if a != entryId { RegisterKeepsApart(code, s, n, contestId, key, entryId, receiptId, referrer, a, b); }
      else { RegisterKeepsApart(code, s, n, contestId, key, entryId, receiptId, referrer, b, a); }
    }
    forall id | id in n.contests ensures ContestOk(n, id) { assert ContestOk(s, id); }
    forall p | p in n.proofs ensures ProofOk(n, p) { assert ProofOk(s, p); }
    RegisterKeepsNoDrift(code, s, n, contestId, key, entryId, receiptId, referrer);
  }

  lemma RegisterKeepsNoDrift(code: CodeOf, s: World, n: World, contestId: Id, key: Key, entryId: Id, receiptId: Id,
      referrer: Option<Id>)
    requires Inv(code, s) && Registers(code, s, n, contestId, key, entryId, receiptId, referrer)
    ensures NoDrift(n)
  {
    forall x | x in n.contests && n.contests[x].state.DrawFrozen? && ContestOk(n, x)
      ensures Candidates(n, x, n.contests[x].rules.cap) == n.snapshots[n.contests[x].snapshotId.value].candidates {
      assert ContestOk(s, x);
      forall id | id in n.entries && n.entries[id].contestId == x ensures SameEntrant(s, n, id) {
        RegisterKeepsEntrant(code, s, n, contestId, key, entryId, receiptId, referrer, id);
      }
      SameCandidates(s, n, x, n.contests[x].rules.cap);
    }
  }

  /** What an accepted revocation does. */
  ghost predicate Revokes(s: World, n: World, now: int, entryId: Id)
    requires entryId in s.entries && s.entries[entryId].contestId in s.contests
  {
    var e := s.entries[entryId];
    var k := s.contests[e.contestId];
    var revoked := s.entries[entryId :=
      e.(state := Revoked, revokedAt := Some(now), weight := 0, version := e.version + 1)];
    && n.receipts == s.receipts[e.receiptId := Withdrawn]
    && n.signals == s.signals && n.decisions == s.decisions && n.proofs == s.proofs
    && n.entries == (if k.proofId.None? then TakeBack(revoked, e.referrer) else revoked)
    && if k.proofId.None? && k.snapshotId.Some? then
         && k.snapshotId.value in s.snapshots
         && n.snapshots == s.snapshots[k.snapshotId.value := s.snapshots[k.snapshotId.value].(frozen := false)]
         && n.contests == s.contests[e.contestId :=
              k.(state := Published, snapshotId := None, version := k.version + 1)]
       else n.snapshots == s.snapshots && n.contests == s.contests
  }

  lemma RevokeKeepsEntry(code: CodeOf, s: World, n: World, now: int, entryId: Id, id: Id)
    requires Entries(code, s) && Unshared(s)
    requires entryId in s.entries && s.entries[entryId].contestId in s.contests && Revokes(s, n, now, entryId)
    requires id in n.entries
    ensures EntryOk(code, n, id)
    ensures id in s.entries && n.entries[id].receiptId == s.entries[id].receiptId
    ensures n.entries[id].code == s.entries[id].code
            && n.entries[id].contestId == s.entries[id].contestId
  {
    assert EntryOk(code, s, entryId) && EntryOk(code, s, id);
    if id != entryId { assert Apart(s.entries[id], s.entries[entryId]); }
  }

  lemma RevokeKeepsEntrant(code: CodeOf, s: World, n: World, now: int, entryId: Id, id: Id)
    requires Entries(code, s) && Unshared(s)
    requires entryId in s.entries && s.entries[entryId].contestId in s.contests && Revokes(s, n, now, entryId)
    requires id in s.entries && s.entries[id].contestId != s.entries[entryId].contestId
    ensures SameEntrant(s, n, id)
  {
    assert EntryOk(code, s, entryId) && Apart(s.entries[id], s.entries[entryId]);
  }

  lemma RevokeKeepsRest(code: CodeOf, s: World, n: World, now: int, entryId: Id)
    requires Inv(code, s)
    requires entryId in s.entries && s.entries[entryId].contestId in s.contests && Revokes(s, n, now, entryId)
    ensures ContestsOk(n) && Proofs(n) && NonEmpty(n)
    ensures forall x :: x in n.contests && n.contests[x].state.DrawFrozen? ==>
      x != s.entries[entryId].contestId && n.contests[x] == s.contests[x] && ContestOk(s, x)
      && n.snapshots[n.contests[x].snapshotId.value] == s.snapshots[n.contests[x].snapshotId.value]
  {
    var mine := s.entries[entryId].contestId;
    assert ContestOk(s, mine);
    forall id | id in n.contests ensures ContestOk(n, id) { RevokeKeepsContest(s, n, now, entryId, id); }
    forall p | p in n.proofs ensures ProofOk(n, p) { assert ProofOk(s, p); }
    forall x | x in n.contests && n.contests[x].state.DrawFrozen? ensures x != mine && ContestOk(s, x) {
      assert ContestOk(s, x);
    }
  }

  lemma RevokeKeepsContest(s: World, n: World, now: int, entryId: Id, id: Id)
    requires ContestsOk(s)
    requires entryId in s.entries && s.entries[entryId].contestId in s.contests && Revokes(s, n, now, entryId)
    requires id in n.contests
    ensures ContestOk(n, id)
  {
    assert ContestOk(s, id) && ContestOk(s, s.entries[entryId].contestId);
  }

  lemma RevokeKeepsNoDrift(code: CodeOf, s: World, n: World, now: int, entryId: Id)
    requires Inv(code, s)
    requires entryId in s.entries && s.entries[entryId].contestId in s.contests && Revokes(s, n, now, entryId)
    ensures NoDrift(n)
  {
    RevokeKeepsRest(code, s, n, now, entryId);
    forall x | x in n.contests && n.contests[x].state.DrawFrozen? && ContestOk(n, x)
      ensures Candidates(n, x, n.contests[x].rules.cap) == n.snapshots[n.contests[x].snapshotId.value].candidates {
      forall id | id in n.entries && n.entries[id].contestId == x ensures SameEntrant(s, n, id) {
        RevokeKeepsEntry(code, s, n, now, entryId, id);
        RevokeKeepsEntrant(code, s, n, now, entryId, id);
      }
      forall id | id in s.entries && s.entries[id].contestId == x ensures SameEntrant(s, n, id) {
        RevokeKeepsEntrant(code, s, n, now, entryId, id);
      }
      SameCandidates(s, n, x, n.contests[x].rules.cap);
    }
  }

  lemma RevokeKeepsInv(code: CodeOf, s: World, now: int, c: Command)
    requires Inv(code, s) && c.Revoke? && Step(code, s, now, c).Done?
    ensures Inv(code, After(code, s, now, c))
  {
    RevokeMeans(code, s, now, c);
    RevokedKeepsInv(code, s, After(code, s, now, c), now, c.entryId);
  }

  lemma RevokeMeans(code: CodeOf, s: World, now: int, c: Command)
    requires c.Revoke? && Step(code, s, now, c).Done?
    ensures c.entryId in s.entries && s.entries[c.entryId].contestId in s.contests
    ensures Revokes(s, After(code, s, now, c), now, c.entryId)
  {
  }

  lemma RevokedKeepsInv(code: CodeOf, s: World, n: World, now: int, entryId: Id)
    requires Inv(code, s)
    requires entryId in s.entries && s.entries[entryId].contestId in s.contests && Revokes(s, n, now, entryId)
    ensures Inv(code, n)
  {
    RevokeKeepsRest(code, s, n, now, entryId);
    RevokeKeepsNoDrift(code, s, n, now, entryId);
    RevokedKeepEntries(code, s, n, now, entryId);
  }

  lemma RevokedKeepEntries(code: CodeOf, s: World, n: World, now: int, entryId: Id)
    requires Inv(code, s)
    requires entryId in s.entries && s.entries[entryId].contestId in s.contests && Revokes(s, n, now, entryId)
    ensures Entries(code, n) && Unshared(n)
  {
    forall id | id in n.entries ensures EntryOk(code, n, id) {
      RevokeKeepsEntry(code, s, n, now, entryId, id);
    }
    forall a, b | a in n.entries && b in n.entries && a != b ensures Apart(n.entries[a], n.entries[b]) {
      RevokeKeepsEntry(code, s, n, now, entryId, a);
      RevokeKeepsEntry(code, s, n, now, entryId, b);
      assert Apart(s.entries[a], s.entries[b]);
    }
  }

  /** What an accepted eligibility decision does. */
  ghost predicate Decides(s: World, n: World, d: Decision, eligible: bool) {
    && d.entryId in s.entries && s.entries[d.entryId].contestId in s.contests
    && var e := s.entries[d.entryId];
    && s.contests[e.contestId].snapshotId.None?
    && var weight := if !eligible then 0 else if e.weight < 1 then 1 else e.weight;
    n == s.(decisions := s.decisions + [d],
            entries := s.entries[d.entryId :=
              e.(state := if eligible then Eligible else Excluded, weight := weight, version := e.version + 1)])
  }

  function DecisionOf(now: int, c: Command): Decision
    requires c.Decide?
  {
    Decision(c.decisionId, c.entryId, c.reviewed, now)
  }

  lemma DecideMeans(code: CodeOf, s: World, now: int, c: Command)
    requires c.Decide? && Step(code, s, now, c).Done?
    ensures Decides(s, After(code, s, now, c), DecisionOf(now, c), c.eligible)
  {
  }

  lemma DecideKeepsInv(code: CodeOf, s: World, now: int, c: Command)
    requires Inv(code, s) && c.Decide? && Step(code, s, now, c).Done?
    ensures Inv(code, After(code, s, now, c))
  {
    DecideMeans(code, s, now, c);
    DecidedKeepsInv(code, s, After(code, s, now, c), DecisionOf(now, c), c.eligible);
  }

  lemma DecidedKeepsInv(code: CodeOf, s: World, n: World, d: Decision, eligible: bool)
    requires Inv(code, s) && Decides(s, n, d, eligible)
    ensures Inv(code, n)
  {
    DecidedKeepsEntries(code, s, n, d, eligible);
    forall id | id in n.contests ensures ContestOk(n, id) { assert ContestOk(s, id); }
    forall p | p in n.proofs ensures ProofOk(n, p) { assert ProofOk(s, p); }
    DecideKeepsNoDrift(code, s, n, d, eligible);
  }

  lemma DecidedKeepsEntries(code: CodeOf, s: World, n: World, d: Decision, eligible: bool)
    requires Entries(code, s) && Unshared(s) && Decides(s, n, d, eligible)
    ensures Entries(code, n) && Unshared(n)
  {
    forall id | id in n.entries ensures EntryOk(code, n, id) { assert EntryOk(code, s, id); }
    forall a, b | a in n.entries && b in n.entries && a != b ensures Apart(n.entries[a], n.entries[b]) {
      assert Apart(s.entries[a], s.entries[b]);
    }
  }

  lemma DecideKeepsNoDrift(code: CodeOf, s: World, n: World, d: Decision, eligible: bool)
    requires Inv(code, s) && Decides(s, n, d, eligible)
    ensures NoDrift(n)
  {
    forall x | x in n.contests && n.contests[x].state.DrawFrozen? && ContestOk(n, x)
      ensures Candidates(n, x, n.contests[x].rules.cap) == n.snapshots[n.contests[x].snapshotId.value].candidates {
      assert ContestOk(s, x) && x != s.entries[d.entryId].contestId;
      forall id | id in s.entries && s.entries[id].contestId == x ensures SameEntrant(s, n, id) {
        LatestAfterOther(s.decisions, d, id);
      }
      SameCandidates(s, n, x, n.contests[x].rules.cap);
    }
  }

  /** What an accepted freeze does. */
  ghost predicate Freezes(s: World, n: World, id: Id, snapshotId: Id) {
    && id in s.contests && s.contests[id].state.Published? && snapshotId !in s.snapshots
    && var k := s.contests[id];
    && var list := Candidates(s, id, k.rules.cap);
    && list != []
    && n == s.(snapshots := s.snapshots[snapshotId := Snapshot(id, list, k.entropyCommitment, true)],
               contests := s.contests[id :=
                 k.(state := DrawFrozen, snapshotId := Some(snapshotId), version := k.version + 1)])
  }

  lemma FreezeMeans(code: CodeOf, s: World, now: int, c: Command)
    requires c.Freeze? && Step(code, s, now, c).Done?
    ensures Freezes(s, After(code, s, now, c), c.contestId, c.snapshotId)
  {
  }

  lemma FreezeKeepsInv(code: CodeOf, s: World, now: int, c: Command)
    requires Inv(code, s) && c.Freeze? && Step(code, s, now, c).Done?
    ensures Inv(code, After(code, s, now, c))
  {
    FreezeMeans(code, s, now, c);
    FrozenKeepsInv(code, s, After(code, s, now, c), c.contestId, c.snapshotId);
  }

  lemma FrozenKeepsInv(code: CodeOf, s: World, n: World, id: Id, snapshotId: Id)
    requires Inv(code, s) && Freezes(s, n, id, snapshotId)
    ensures Inv(code, n)
  {
    FrozenKeepsEntries(code, s, n, id, snapshotId);
    FrozenKeepsContests(s, n, id, snapshotId);
    FrozenKeepsNoDrift(s, n, id, snapshotId);
  }

  lemma FrozenKeepsEntries(code: CodeOf, s: World, n: World, id: Id, snapshotId: Id)
    requires Entries(code, s) && Unshared(s) && Freezes(s, n, id, snapshotId)
    ensures Entries(code, n) && Unshared(n)
  {
    forall x | x in n.entries ensures EntryOk(code, n, x) { assert EntryOk(code, s, x); }
  }

  lemma FrozenKeepsContests(s: World, n: World, id: Id, snapshotId: Id)
    requires ContestsOk(s) && Proofs(s) && NonEmpty(s) && Freezes(s, n, id, snapshotId)
    ensures ContestsOk(n) && Proofs(n) && NonEmpty(n)
  {
    assert ContestOk(s, id);
    forall x | x in n.contests ensures ContestOk(n, x) { assert ContestOk(s, x); }
    forall p | p in n.proofs ensures ProofOk(n, p) { assert ProofOk(s, p); }
  }

  lemma FrozenKeepsNoDrift(s: World, n: World, id: Id, snapshotId: Id)
    requires ContestsOk(s) && NoDrift(s) && Freezes(s, n, id, snapshotId)
    ensures NoDrift(n)
  {
    forall x | x in n.contests && n.contests[x].state.DrawFrozen? && ContestOk(n, x)
      ensures Candidates(n, x, n.contests[x].rules.cap) == n.snapshots[n.contests[x].snapshotId.value].candidates {
      SameCandidates(s, n, x, n.contests[x].rules.cap);
      assert ContestOk(s, x);
    }
  }

  /** What an accepted reveal does. */
  ghost predicate Draws(s: World, n: World, proofId: Id, proof: Proof) {
    && proofId !in s.proofs && proof.contestId in s.contests
    && var k := s.contests[proof.contestId];
    && k.state.DrawFrozen? && k.snapshotId == Some(proof.snapshotId)
    && n == s.(proofs := s.proofs[proofId := proof],
               contests := s.contests[proof.contestId := k.(state := Drawn, proofId := Some(proofId),
                 version := k.version + 1)])
  }

  lemma RevealMeans(code: CodeOf, s: World, now: int, c: Command) returns (proof: Proof)
    requires c.Reveal? && Step(code, s, now, c).Done?
    ensures c.snapshotId in s.snapshots && proof.contestId == s.snapshots[c.snapshotId].contestId
    ensures proof.snapshotId == c.snapshotId
    ensures Draws(s, After(code, s, now, c), c.proofId, proof)
  {
    proof := After(code, s, now, c).proofs[c.proofId];
  }

  lemma RevealKeepsInv(code: CodeOf, s: World, now: int, c: Command)
    requires Inv(code, s) && c.Reveal? && Step(code, s, now, c).Done?
    ensures Inv(code, After(code, s, now, c))
  {
    var proof := RevealMeans(code, s, now, c);
    DrawnKeepsInv(code, s, After(code, s, now, c), c.proofId, proof);
  }

  lemma DrawnKeepsInv(code: CodeOf, s: World, n: World, proofId: Id, proof: Proof)
    requires Inv(code, s) && Draws(s, n, proofId, proof)
    ensures Inv(code, n)
  {
    DrawnKeepsEntries(code, s, n, proofId, proof);
    DrawnKeepsContests(s, n, proofId, proof);
    UntouchedKeepsNoDrift(code, s, n);
  }

  lemma DrawnKeepsEntries(code: CodeOf, s: World, n: World, proofId: Id, proof: Proof)
    requires Entries(code, s) && Unshared(s) && Draws(s, n, proofId, proof)
    ensures Entries(code, n) && Unshared(n)
  {
    forall id | id in n.entries ensures EntryOk(code, n, id) { assert EntryOk(code, s, id); }
  }

  lemma DrawnKeepsContests(s: World, n: World, proofId: Id, proof: Proof)
    requires ContestsOk(s) && Proofs(s) && NonEmpty(s) && Draws(s, n, proofId, proof)
    ensures ContestsOk(n) && Proofs(n) && NonEmpty(n)
  {
    forall id | id in n.contests ensures ContestOk(n, id) { assert ContestOk(s, id); }
    forall p | p in n.proofs ensures ProofOk(n, p) { if p != proofId { assert ProofOk(s, p); } }
  }

  lemma StepKeepsInv(code: CodeOf, s: World, now: int, c: Command)
    requires Inv(code, s)
    ensures Inv(code, After(code, s, now, c))
  {
    if Step(code, s, now, c).Done? {
      match c
      case Create(_, _, _) => CreateKeepsInv(code, s, now, c);
      case Publish(_, _, _) => PublishKeepsInv(code, s, now, c);
      case Register(_, _, _, _, _, _, _, _) => RegisterKeepsInv(code, s, now, c);
      case Revoke(_) => RevokeKeepsInv(code, s, now, c);
      case RaiseSignal(_, _) => SignalKeepsInv(code, s, now, c);
      case Decide(_, _, _, _, _) => DecideKeepsInv(code, s, now, c);
      case Freeze(_, _, _) => FreezeKeepsInv(code, s, now, c);
      case Reveal(_, _, _, _) => RevealKeepsInv(code, s, now, c);
    }
  }

  lemma EmptyIsSound(code: CodeOf)
    ensures Inv(code, EMPTY)
  {
  }

  lemma {:induction false} RunsKeepInv(code: CodeOf, s: World, calls: seq<Call>)
    requires Inv(code, s)
    ensures Inv(code, Run(code, s, calls))
    decreases |calls|
  {
    if calls != [] {
      StepKeepsInv(code, s, calls[0].now, calls[0].command);
      RunsKeepInv(code, After(code, s, calls[0].now, calls[0].command), calls[1..]);
    }
  }

  // -------------------------------------------------------------- main results

  /** Over all entries ever made, revoked ones included, keys and referral codes are unique per contest. */
  lemma KeysAndCodesUnique(code: CodeOf, calls: seq<Call>, a: Id, b: Id)
    requires a in Run(code, EMPTY, calls).entries && b in Run(code, EMPTY, calls).entries && a != b
    requires Run(code, EMPTY, calls).entries[a].contestId == Run(code, EMPTY, calls).entries[b].contestId
    ensures var s := Run(code, EMPTY, calls);
      s.entries[a].code != s.entries[b].code && s.entries[a].key != s.entries[b].key
  {
    RunsKeepInv(code, EMPTY, calls);
    var s := Run(code, EMPTY, calls);
    assert Apart(s.entries[a], s.entries[b]) && EntryOk(code, s, a) && EntryOk(code, s, b);
  }

  /** An eligible entry's weight is between 1 and 1 + cap, so the clamp in the candidate list changes nothing. */
  lemma ClampIsIdentity(code: CodeOf, calls: seq<Call>, id: Id)
    requires id in Run(code, EMPTY, calls).entries && Run(code, EMPTY, calls).entries[id].state.Eligible?
    ensures var s := Run(code, EMPTY, calls);
      var e := s.entries[id];
      && e.contestId in s.contests && 1 <= e.weight <= 1 + s.contests[e.contestId].rules.cap
      && CandidateOf(s, id, s.contests[e.contestId].rules.cap).weight == e.weight
  {
    RunsKeepInv(code, EMPTY, calls);
    assert EntryOk(code, Run(code, EMPTY, calls), id);
  }

  lemma FrozenState(code: CodeOf, s: World, id: Id)
    requires Inv(code, s) && id in s.contests && s.contests[id].state.DrawFrozen?
    ensures ContestOk(s, id)
    ensures Candidates(s, id, s.contests[id].rules.cap) == s.snapshots[s.contests[id].snapshotId.value].candidates != []
  {
    assert ContestOk(s, id);
  }

  lemma FrozenReveal(s: World, id: Id, c: Command)
    requires id in s.contests && s.contests[id].state.DrawFrozen? && ContestOk(s, id)
    requires var k := s.contests[id];
      Candidates(s, id, k.rules.cap) == s.snapshots[k.snapshotId.value].candidates != []
    requires c.Reveal? && Some(c.snapshotId) == s.contests[id].snapshotId && c.proofId !in s.proofs
    ensures StepReveal(s, s, c) != Refused(Drifted)
    ensures var frozen := s.snapshots[c.snapshotId];
      StepReveal(s, s, c).Done? <==>
        c.entropy == frozen.entropyCommitment && AllReviewed(s, id)
          && DrawOf(c.samples, Weights(frozen.candidates)).Selected?
  {
  }

  /** Main result: a frozen draw cannot drift. Once the organiser's entropy is right, revealing is refused only while
      a fraud signal is unreviewed or when the sampler gives up, never because the candidates changed. */
  lemma FrozenDrawNeverDrifts(code: CodeOf, calls: seq<Call>, id: Id, now: int, c: Command)
    requires id in Run(code, EMPTY, calls).contests && Run(code, EMPTY, calls).contests[id].state.DrawFrozen?
    requires c.Reveal? && Some(c.snapshotId) == Run(code, EMPTY, calls).contests[id].snapshotId
    requires c.proofId !in Run(code, EMPTY, calls).proofs
    ensures var s := Run(code, EMPTY, calls);
      && c.snapshotId in s.snapshots
      && var frozen := s.snapshots[c.snapshotId];
      && Step(code, s, now, c) != Refused(Drifted)
      && (Step(code, s, now, c).Done? <==>
            c.entropy == frozen.entropyCommitment && AllReviewed(s, id)
              && DrawOf(c.samples, Weights(frozen.candidates)).Selected?)
  {
    RunsKeepInv(code, EMPTY, calls);
    FrozenState(code, Run(code, EMPTY, calls), id);
    FrozenReveal(Run(code, EMPTY, calls), id, c);
  }

  /** Main result: a contest has at most one winner proof, and the snapshot it was drawn from is not an invalidated
      one. */
  lemma OneWinnerPerContest(code: CodeOf, calls: seq<Call>, p: Id, q: Id)
    requires p in Run(code, EMPTY, calls).proofs && q in Run(code, EMPTY, calls).proofs
    ensures var s := Run(code, EMPTY, calls);
      && (s.proofs[p].contestId == s.proofs[q].contestId ==> p == q)
      && s.proofs[p].snapshotId in s.snapshots && s.snapshots[s.proofs[p].snapshotId].frozen
      && s.snapshots[s.proofs[p].snapshotId].contestId == s.proofs[p].contestId
  {
    RunsKeepInv(code, EMPTY, calls);
    var s := Run(code, EMPTY, calls);
    assert ProofOk(s, p) && ProofOk(s, q) && ContestOk(s, s.proofs[p].contestId);
  }

  /** Once drawn, neither the contest nor its proof ever changes. */
  lemma {:induction false} DrawnIsFinal(code: CodeOf, s: World, calls: seq<Call>, id: Id, p: Id)
    requires Inv(code, s) && id in s.contests && s.contests[id].state.Drawn? && p in s.proofs
    ensures var n := Run(code, s, calls);
      id in n.contests && n.contests[id] == s.contests[id] && p in n.proofs && n.proofs[p] == s.proofs[p]
    decreases |calls|
  {
    if calls != [] {
      var n := After(code, s, calls[0].now, calls[0].command);
      StepKeepsInv(code, s, calls[0].now, calls[0].command);
      assert ContestOk(s, id);
      DrawnStep(code, s, calls[0].now, calls[0].command, id, p);
      DrawnIsFinal(code, n, calls[1..], id, p);
    }
  }

  lemma DrawnStep(code: CodeOf, s: World, now: int, c: Command, id: Id, p: Id)
    requires id in s.contests && s.contests[id].state.Drawn? && s.contests[id].proofId.Some? && p in s.proofs
    ensures var n := After(code, s, now, c);
      id in n.contests && n.contests[id] == s.contests[id] && p in n.proofs && n.proofs[p] == s.proofs[p]
  {
  }

  lemma RevocationStep(code: CodeOf, s: World, now: int, c: Command, id: Id)
    requires id in s.entries && s.entries[id].revokedAt.Some?
    ensures var n := After(code, s, now, c); id in n.entries && n.entries[id].revokedAt.Some?
  {
  }

  /** A revocation lasts: not even a later decision that calls the entry eligible undoes it. */
  lemma {:induction false} RevocationIsForever(code: CodeOf, s: World, calls: seq<Call>, id: Id)
    requires id in s.entries && s.entries[id].revokedAt.Some?
    ensures var n := Run(code, s, calls); id in n.entries && n.entries[id].revokedAt.Some?
    decreases |calls|
  {
    if calls != [] {
      RevocationStep(code, s, calls[0].now, calls[0].command, id);
      RevocationIsForever(code, After(code, s, calls[0].now, calls[0].command), calls[1..], id);
    }
  }

  /** Main result: the winner is the owner of the drawn index in the frozen list, and at the draw it is an eligible
      entry of that contest whose consent stands. */
  lemma WinnerIsSound(code: CodeOf, calls: seq<Call>, now: int, c: Command)
    requires c.Reveal? && Step(code, Run(code, EMPTY, calls), now, c).Done?
    ensures var s := Run(code, EMPTY, calls);
      var n := After(code, s, now, c);
      && c.proofId in n.proofs && c.snapshotId in s.snapshots
      && var proof := n.proofs[c.proofId];
      var frozen := s.snapshots[c.snapshotId];
      && proof.contestId == frozen.contestId && AllReviewed(s, frozen.contestId)
      && InDraw(s, proof.winner, frozen.contestId) && s.entries[proof.winner].revokedAt.None?
      && exists position :: 0 <= position < |frozen.candidates| && frozen.candidates[position].entryId == proof.winner
           && IsDraw(c.samples, Weights(frozen.candidates), Selected(position, proof.selectedIndex, proof.counter))
  {
    RunsKeepInv(code, EMPTY, calls);
    var s := Run(code, EMPTY, calls);
    var frozen := s.snapshots[c.snapshotId];
    FrozenState(code, s, frozen.contestId);
    var draw := DrawOf(c.samples, Weights(frozen.candidates));
    assert IsDraw(c.samples, Weights(frozen.candidates), Selected(draw.position, draw.selectedIndex, draw.counter));
    var ids := Ascending(InDrawIds(s, frozen.contestId));
    assert ids[draw.position] in ids;
  }

  /** Main result: whoever revoked consent at any earlier time cannot win. */
  lemma RevokedCannotWin(code: CodeOf, before: seq<Call>, between: seq<Call>, now: int, c: Command, id: Id)
    requires id in Run(code, EMPTY, before).entries && Run(code, EMPTY, before).entries[id].revokedAt.Some?
    requires c.Reveal? && Step(code, Run(code, Run(code, EMPTY, before), between), now, c).Done?
    ensures var n := After(code, Run(code, Run(code, EMPTY, before), between), now, c);
      c.proofId in n.proofs && n.proofs[c.proofId].winner != id
  {
    RevocationIsForever(code, Run(code, EMPTY, before), between, id);
    RunOfTwo(code, EMPTY, before, between);
    WinnerIsSound(code, before + between, now, c);
  }

  lemma {:induction false} RunOfTwo(code: CodeOf, s: World, first: seq<Call>, second: seq<Call>)
    ensures Run(code, s, first + second) == Run(code, Run(code, s, first), second)
    decreases |first|
  {
    if first == [] {
      assert first + second == second;
    } else {
      assert (first + second)[1..] == first[1..] + second;
      RunOfTwo(code, After(code, s, first[0].now, first[0].command), first[1..], second);
    }
  }

  ghost predicate StaysClosed(s: World, n: World, id: Id)
    requires id in s.contests
  {
    id in n.contests && n.contests[id].rules == s.contests[id].rules && Entrants(n, id) == Entrants(s, id)
  }

  lemma RegisterStaysClosed(code: CodeOf, s: World, now: int, c: Command, id: Id)
    requires c.Register? && StepRegister(code, s, s, now, c).Done? && id in s.contests
    requires s.contests[id].rules.closesAt <= now
    ensures StaysClosed(s, StepRegister(code, s, s, now, c).world, id)
  {
  }

  lemma RevokeStaysClosed(s: World, now: int, c: Command, id: Id)
    requires c.Revoke? && StepRevoke(s, now, c).Done? && id in s.contests
    ensures StaysClosed(s, StepRevoke(s, now, c).world, id)
  {
  }

  lemma RevealStaysClosed(s: World, c: Command, id: Id)
    requires c.Reveal? && StepReveal(s, s, c).Done? && id in s.contests
    ensures StaysClosed(s, StepReveal(s, s, c).world, id)
  {
    assert Entrants(StepReveal(s, s, c).world, id) == Entrants(s, id);
  }

  lemma ClosedStep(code: CodeOf, s: World, now: int, c: Command, id: Id)
    requires id in s.contests && s.contests[id].rules.closesAt <= now
    ensures StaysClosed(s, After(code, s, now, c), id)
  {
    if Step(code, s, now, c).Done? {
      match c
      case Register(_, _, _, _, _, _, _, _) => RegisterStaysClosed(code, s, now, c, id);
      case Revoke(_) => RevokeStaysClosed(s, now, c, id);
      case Reveal(_, _, _, _) => RevealStaysClosed(s, c, id);
      case _ =>
    }
  }

  lemma {:induction false} ClosedStaysClosed(code: CodeOf, s: World, calls: seq<Call>, id: Id)
    requires id in s.contests
    requires forall i :: 0 <= i < |calls| ==> s.contests[id].rules.closesAt <= calls[i].now
    ensures Entrants(Run(code, s, calls), id) == Entrants(s, id)
    decreases |calls|
  {
    if calls != [] {
      ClosedStep(code, s, calls[0].now, calls[0].command, id);
      ClosedStaysClosed(code, After(code, s, calls[0].now, calls[0].command), calls[1..], id);
    }
  }

  /** Main result: while the clock does not run backwards, nobody enters after the first freeze, even though a
      revocation reopens the contest's state. */
  lemma NoEntryAfterFreeze(code: CodeOf, s: World, now: int, c: Command, later: seq<Call>)
    requires c.Freeze? && Step(code, s, now, c).Done?
    requires forall i :: 0 <= i < |later| ==> now <= later[i].now
    ensures Entrants(Run(code, After(code, s, now, c), later), c.contestId) == Entrants(s, c.contestId)
  {
    FrozenWasClosed(code, s, now, c);
    ClosedStep(code, s, now, c, c.contestId);
    ClosedStaysClosed(code, After(code, s, now, c), later, c.contestId);
  }

  lemma FrozenWasClosed(code: CodeOf, s: World, now: int, c: Command)
    requires c.Freeze? && Step(code, s, now, c).Done?
    ensures c.contestId in s.contests && s.contests[c.contestId].rules.closesAt <= now
  {
  }

  // ------------------------------------------------------------ the command class

  /** `giveawayCommand` over the record store. */
  class Giveaways {
    const code: CodeOf
    var contests: map<Id, Contest>
    var entries: map<Id, Entry>
    var receipts: map<Id, Receipt>
    var signals: map<Id, Id>
    var decisions: seq<Decision>
    var snapshots: map<Id, Snapshot>
    var proofs: map<Id, Proof>

    constructor (code: CodeOf)
      ensures this.code == code && State() == EMPTY && Valid()
    {
      this.code := code;
      contests, entries, receipts, signals, decisions, snapshots, proofs := map[], map[], map[], map[], [], map[],
        map[];
      new;
      EmptyIsSound(code);
    }

    function State(): World
      reads this
    {
      World(contests, entries, receipts, signals, decisions, snapshots, proofs)
    }

    ghost predicate Valid()
      reads this
    {
      Inv(code, State())
    }

    method ContestCreate(now: int, id: Id, rules: Rules, entropyCommitment: string) returns (ok: bool)
      requires Valid()
      modifies this
      ensures Valid() && State() == After(code, old(State()), now, Create(id, rules, entropyCommitment))
      ensures ok <==> Step(code, old(State()), now, Create(id, rules, entropyCommitment)).Done?
    {
      StepKeepsInv(code, State(), now, Create(id, rules, entropyCommitment));
      if rules.cap > MAX_CAP || rules.closesAt <= now || id in contests {
        return false;
      }
      contests := contests[id := Contest(Draft, rules, entropyCommitment, 1, None, None)];
      ok := true;
    }

    method ContestPublish(now: int, contestId: Id, rulesHash: Rules, expectedVersion: nat) returns (ok: bool)
      requires Valid()
      modifies this
      ensures Valid() && State() == After(code, old(State()), now, Publish(contestId, rulesHash, expectedVersion))
      ensures ok <==> Step(code, old(State()), now, Publish(contestId, rulesHash, expectedVersion)).Done?
    {
      ghost var goal := StepPublish(State(), now, Publish(contestId, rulesHash, expectedVersion));
      StepKeepsInv(code, State(), now, Publish(contestId, rulesHash, expectedVersion));
      if contestId !in contests {
        return false;
      }
      var contest := contests[contestId];
      if expectedVersion != contest.version || !contest.state.Draft? || contest.rules != rulesHash
        || contest.rules.closesAt <= now {
        return false;
      }
      contests := contests[contestId := contest.(state := Published, version := contest.version + 1)];
      ok := true;
      assert goal == Done(State());
    }

    /** The `find` over the entrants. */
    method LookUpReferrer(contestId: Id, referral: Option<Code>) returns (referrer: Option<Id>)
      requires Valid()
      ensures referrer == FindReferrer(State(), contestId, referral)
    {
      referrer := None;
      if referral.None? {
        return;
      }
      var ids := Ascending(entries.Keys);
      var i := 0;
      while i < |ids|
        invariant 0 <= i <= |ids|
        invariant forall j :: 0 <= j < i ==> !IsReferrer(State(), contestId, referral.value, ids[j])
      {
        assert ids[i] in ids;
        var entry := entries[ids[i]];
        if entry.contestId == contestId && entry.code == referral.value && entry.state.Eligible? {
          assert IsReferrer(State(), contestId, referral.value, ids[i]);
          OneReferrer(code, State(), contestId, referral.value, ids[i]);
          return Some(ids[i]);
        }
        i := i + 1;
      }
      assert forall id :: !IsReferrer(State(), contestId, referral.value, id) by {
        forall id | id in entries ensures !IsReferrer(State(), contestId, referral.value, id) { assert id in ids; }
      }
    }

    /** The checks of `entry-register`, in their order. */
    method MayRegister(now: int, c: Command) returns (ok: bool, referrer: Option<Id>)
      requires Valid() && c.Register?
      ensures ok <==> StepRegister(code, State(), State(), now, c).Done?
      ensures ok ==> referrer == FindReferrer(State(), c.contestId, c.referral)
    {
      referrer := None;
      if c.contestId !in contests {
        return false, None;
      }
      var contest := contests[c.contestId];
      if !contest.state.Published? || contest.snapshotId.Some? || contest.rules.closesAt <= now {
        return false, None;
      }
      if c.policy != contest.rules.policy || ADMINISTRATION !in c.purposes || c.capturedAt > now {
        return false, None;
      }
      var entrants := Entrants(State(), c.contestId);
      if exists id :: id in entrants && entries[id].key == c.key && !entries[id].state.Revoked? {
        return false, None;
      }
      if exists id :: id in entrants && entries[id].code == code(c.contestId, c.key) {
        return false, None;
      }
      referrer := LookUpReferrer(c.contestId, c.referral);
      ok := !(c.referral.Some? && referrer.None?) && c.receiptId !in receipts && c.entryId !in entries;
    }

    method EntryRegister(now: int, c: Command) returns (ok: bool)
      requires Valid() && c.Register?
      modifies this
      ensures Valid() && State() == After(code, old(State()), now, c)
      ensures ok <==> Step(code, old(State()), now, c).Done?
    {
      StepKeepsInv(code, State(), now, c);
      var referrer;
      ok, referrer := MayRegister(now, c);
      if ok {
        AddEntry(now, c, referrer);
      }
      assert State() == After(code, old(State()), now, c);
    }

    /** The updates of `entry-register`. */
    method AddEntry(now: int, c: Command, referrer: Option<Id>)
      requires c.Register? && StepRegister(code, State(), State(), now, c).Done?
      requires referrer == FindReferrer(State(), c.contestId, c.referral)
      modifies this
      ensures State() == StepRegister(code, old(State()), old(State()), now, c).world
    {
      receipts := receipts[c.receiptId := Granted];
      entries := entries[c.entryId :=
        Entry(c.contestId, c.key, code(c.contestId, c.key), Eligible, referrer, c.receiptId, 1, None, 1)];
      entries := Reward(entries, referrer, contests[c.contestId].rules.cap);
    }

    method EntryConsentRevoke(now: int, c: Command) returns (ok: bool)
      requires Valid() && c.Revoke?
      modifies this
      ensures Valid() && State() == After(code, old(State()), now, c)
      ensures ok <==> Step(code, old(State()), now, c).Done?
    {
      StepKeepsInv(code, State(), now, c);
      ok := MayRevoke(now, c);
      if ok {
        WithdrawConsent(now, c);
      }
    }

    method MayRevoke(now: int, c: Command) returns (ok: bool)
      requires c.Revoke?
      ensures ok <==> StepRevoke(State(), now, c).Done?
    {
      if c.entryId !in entries || entries[c.entryId].contestId !in contests || entries[c.entryId].state.Revoked? {
        return false;
      }
      var contest := contests[entries[c.entryId].contestId];
      ok := contest.proofId.None? && contest.snapshotId.Some? ==> contest.snapshotId.value in snapshots;
    }

    /** The updates of `entry-consent-revoke`. */
    method WithdrawConsent(now: int, c: Command)
      requires c.Revoke? && StepRevoke(State(), now, c).Done?
      modifies this
      ensures State() == StepRevoke(old(State()), now, c).world
    {
      var entry := entries[c.entryId];
      var contest := contests[entry.contestId];
      var undrawn := contest.proofId.None?;
      entries := entries[c.entryId :=
        entry.(state := Revoked, revokedAt := Some(now), weight := 0, version := entry.version + 1)];
      receipts := receipts[entry.receiptId := Withdrawn];
      if undrawn {
        entries := TakeBack(entries, entry.referrer);
      }
      if undrawn && contest.snapshotId.Some? {
        var snapshotId := contest.snapshotId.value;
        snapshots := snapshots[snapshotId := snapshots[snapshotId].(frozen := false)];
        contests := contests[entry.contestId :=
          contest.(state := Published, snapshotId := None, version := contest.version + 1)];
      }
    }

    method FraudSignalRecord(now: int, entryId: Id, signalId: Id) returns (ok: bool)
      requires Valid()
      modifies this
      ensures Valid() && State() == After(code, old(State()), now, RaiseSignal(entryId, signalId))
      ensures ok <==> Step(code, old(State()), now, RaiseSignal(entryId, signalId)).Done?
    {
      StepKeepsInv(code, State(), now, RaiseSignal(entryId, signalId));
      if entryId !in entries || signalId in signals {
        return false;
      }
      signals := signals[signalId := entryId];
      ok := true;
    }

    method MayDecide(now: int, c: Command) returns (ok: bool)
      requires c.Decide?
      ensures ok <==> StepDecide(State(), now, c).Done?
    {
      if c.entryId !in entries || entries[c.entryId].contestId !in contests {
        return false;
      }
      var entry := entries[c.entryId];
      if contests[entry.contestId].snapshotId.Some? || c.expectedVersion != entry.version {
        return false;
      }
      if exists g :: g in c.reviewed && (g !in signals || signals[g] != c.entryId) {
        return false;
      }
      ok := !exists d :: d in decisions && d.id == c.decisionId;
    }

    method EligibilityDecide(now: int, c: Command) returns (ok: bool)
      requires Valid() && c.Decide?
      modifies this
      ensures Valid() && State() == After(code, old(State()), now, c)
      ensures ok <==> Step(code, old(State()), now, c).Done?
    {
      StepKeepsInv(code, State(), now, c);
      ok := MayDecide(now, c);
      if ok {
        RecordDecision(now, c);
      }
    }

    /** The updates of `eligibility-decide`. */
    method RecordDecision(now: int, c: Command)
      requires c.Decide? && StepDecide(State(), now, c).Done?
      modifies this
      ensures State() == StepDecide(old(State()), now, c).world
    {
      var entry := entries[c.entryId];
      var weight := if !c.eligible then 0 else if entry.weight < 1 then 1 else entry.weight;
      decisions := decisions + [Decision(c.decisionId, c.entryId, c.reviewed, now)];
      entries := entries[c.entryId :=
        entry.(state := if c.eligible then Eligible else Excluded, weight := weight, version := entry.version + 1)];
    }

    method DrawSnapshotFreeze(now: int, c: Command) returns (ok: bool)
      requires Valid() && c.Freeze?
      modifies this
      ensures Valid() && State() == After(code, old(State()), now, c)
      ensures ok <==> Step(code, old(State()), now, c).Done?
    {
      StepKeepsInv(code, State(), now, c);
      ok := FreezeCandidates(now, c);
      assert State() == After(code, old(State()), now, c);
    }

    method FreezeCandidates(now: int, c: Command) returns (ok: bool)
      requires c.Freeze?
      modifies this
      ensures ok <==> StepFreeze(old(State()), old(State()), now, c).Done?
      ensures State() == if ok then StepFreeze(old(State()), old(State()), now, c).world else old(State())
    {
      if c.contestId !in contests {
        return false;
      }
      var contest := contests[c.contestId];
      if c.expectedVersion != contest.version || !contest.state.Published? || contest.snapshotId.Some?
        || contest.rules.closesAt > now {
        return false;
      }
      if !AllReviewed(State(), c.contestId) {
        return false;
      }
      var candidates := Candidates(State(), c.contestId, contest.rules.cap);
      if candidates == [] || c.snapshotId in snapshots {
        return false;
      }
      snapshots := snapshots[c.snapshotId := Snapshot(c.contestId, candidates, contest.entropyCommitment, true)];
      contests := contests[c.contestId :=
        contest.(state := DrawFrozen, snapshotId := Some(c.snapshotId), version := contest.version + 1)];
      ok := true;
    }

    method WinnerDrawReveal(now: int, c: Command) returns (ok: bool)
      requires Valid() && c.Reveal?
      modifies this
      ensures Valid() && State() == After(code, old(State()), now, c)
      ensures ok <==> Step(code, old(State()), now, c).Done?
    {
      StepKeepsInv(code, State(), now, c);
      ok := RevealWinner(c);
      assert State() == After(code, old(State()), now, c);
    }

    method RevealWinner(c: Command) returns (ok: bool)
      requires c.Reveal?
      modifies this
      ensures ok <==> StepReveal(old(State()), old(State()), c).Done?
      ensures State() == if ok then StepReveal(old(State()), old(State()), c).world else old(State())
    {
      var winner, draw;
      ok, winner, draw := DrawWinner(c);
      if ok {
        var contestId := snapshots[c.snapshotId].contestId;
        var contest := contests[contestId];
        proofs := proofs[c.proofId := Proof(contestId, c.snapshotId, winner, draw.selectedIndex, draw.counter)];
        contests := contests[contestId :=
          contest.(state := Drawn, proofId := Some(c.proofId), version := contest.version + 1)];
      }
    }

    /** The checks of `winner-draw-reveal` and the draw itself. */
    method DrawWinner(c: Command) returns (ok: bool, winner: Id, draw: Draw)
      requires c.Reveal?
      ensures ok <==> StepReveal(State(), State(), c).Done?
      ensures ok ==> draw.Selected? && c.proofId in StepReveal(State(), State(), c).world.proofs
      ensures ok ==> StepReveal(State(), State(), c).world.proofs[c.proofId] ==
                     Proof(snapshots[c.snapshotId].contestId, c.snapshotId, winner, draw.selectedIndex, draw.counter)
    {
      ok, winner, draw := false, 0, BadTotal;
      if c.snapshotId !in snapshots || snapshots[c.snapshotId].contestId !in contests {
        return;
      }
      var snapshot := snapshots[c.snapshotId];
      var contest := contests[snapshot.contestId];
      if !contest.state.DrawFrozen? || contest.snapshotId != Some(c.snapshotId) || contest.proofId.Some?
        || c.entropy != snapshot.entropyCommitment {
        return;
      }
      if !AllReviewed(State(), snapshot.contestId) {
        return;
      }
      var candidates := Candidates(State(), snapshot.contestId, contest.rules.cap);
      if candidates == [] || candidates != snapshot.candidates {
        return;
      }
      draw := SelectWinner(c.samples, Weights(candidates));
      DrawIsReproducible(c.samples, Weights(candidates), draw, DrawOf(c.samples, Weights(candidates)));
      if draw.Selected? && c.proofId !in proofs {
        ok, winner := true, candidates[draw.position].entryId;
      }
    }
  }

  lemma OneReferrer(code: CodeOf, s: World, contestId: Id, mine: Code, id: Id)
    requires Unshared(s) && IsReferrer(s, contestId, mine, id)
    ensures FindReferrer(s, contestId, Some(mine)) == Some(id)
  {
    var other := FindReferrer(s, contestId, Some(mine));
    assert other.Some? && IsReferrer(s, contestId, mine, other.value);
    assert other.value != id ==> Apart(s.entries[id], s.entries[other.value]);
  }
}
