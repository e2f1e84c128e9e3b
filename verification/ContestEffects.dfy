/** Exactly when each contest command is accepted, and what it leaves in the store. */
module ContestEffects {
  import opened Options
  import opened DrawSampling
  import opened Sorting
  import opened Contest
  import opened ContestRuns

  function Min(a: int, b: int): int { if a < b then a else b }

  function Max(a: int, b: int): int { if a < b then b else a }

  ghost predicate EntersAs(s: World, contestId: Id, e: Id) {
    e in s.entries && s.entries[e].contestId == contestId
  }

  /** Entry `e` of the contest is eligible and holds the code. */
  ghost predicate MayRefer(s: World, contestId: Id, code: Code, e: Id) {
    EntersAs(s, contestId, e) && s.entries[e].code == code && s.entries[e].state.Eligible?
  }

  // ---------------------------------------------------------------- registration

  /** The contest is open, and the consent is to its policy, for its administration, and not from the future. */
  ghost predicate OpenFor(s: World, now: int, c: Command)
    requires c.Register?
  {
    && c.contestId in s.contests
    && var k := s.contests[c.contestId];
    && k.state.Published? && now < k.rules.closesAt && c.policy == k.rules.policy && ADMINISTRATION in c.purposes
    && c.capturedAt <= now
  }

  ghost predicate FreeToEnter(code: CodeOf, s: World, c: Command)
    requires c.Register?
  {
    && (forall e :: EntersAs(s, c.contestId, e) ==>
         s.entries[e].code != code(c.contestId, c.key) && (s.entries[e].key == c.key ==> s.entries[e].state.Revoked?))
    && (c.referral.Some? ==> exists e :: MayRefer(s, c.contestId, c.referral.value, e))
    && c.receiptId !in s.receipts && c.entryId !in s.entries
  }

  lemma RegisterExactly(code: CodeOf, s: World, now: int, c: Command)
    requires Inv(code, s) && c.Register?
    ensures Step(code, s, now, c).Done? <==> OpenFor(s, now, c) && FreeToEnter(code, s, c)
  {
    if c.contestId in s.contests { assert ContestOk(s, c.contestId); }
    forall e ensures e in Entrants(s, c.contestId) <==> EntersAs(s, c.contestId, e) { }
    if c.referral.Some? {
      forall e ensures IsReferrer(s, c.contestId, c.referral.value, e) <==>
          MayRefer(s, c.contestId, c.referral.value, e) { }
    }
  }

  /** The new entry, whoever referred it. */
  ghost predicate NewEntry(code: CodeOf, s: World, n: World, c: Command)
    requires c.Register?
  {
    && c.entryId in n.entries
    && var e := n.entries[c.entryId];
    && e.contestId == c.contestId && e.key == c.key && e.code == code(c.contestId, c.key) && e.state.Eligible?
    && e.receiptId == c.receiptId && e.weight == 1 && e.revokedAt.None? && e.version == 1
    && if c.referral.None? then e.referrer.None?
       else e.referrer.Some? && MayRefer(s, c.contestId, c.referral.value, e.referrer.value)
  }

  /** Entry `x` gains one ticket, up to one plus the cap, if it made the referral and the contest rewards referrals. */
  ghost predicate Rewards(s: World, n: World, x: Id, referrer: Option<Id>, cap: nat)
    requires x in s.entries
  {
    && x in n.entries
    && n.entries[x] ==
         if referrer == Some(x) && cap > 0
         then s.entries[x].(weight := Min(1 + cap, s.entries[x].weight + 1), version := s.entries[x].version + 1)
         else s.entries[x]
  }

  /** Main result: an accepted registration stores the consent and an entry of weight one, raises the weight of the
      referrer, and of nobody else, by one up to the cap, and changes nothing else. */
  lemma RegisterLeaves(code: CodeOf, s: World, now: int, c: Command)
    requires c.Register? && Step(code, s, now, c).Done?
    ensures var n := After(code, s, now, c);
      && c.contestId in s.contests && NewEntry(code, s, n, c) && n.entries.Keys == s.entries.Keys + {c.entryId}
      && (forall x :: x in s.entries ==>
           Rewards(s, n, x, n.entries[c.entryId].referrer, s.contests[c.contestId].rules.cap))
      && n == s.(entries := n.entries, receipts := s.receipts[c.receiptId := Granted])
  {
  }

  // ------------------------------------------------------------------ revocation

  ghost predicate NobodyReferredThemselves(s: World) {
    forall id :: id in s.entries ==> s.entries[id].referrer != Some(id)
  }

  lemma RevokeKeepsReferrers(s: World, now: int, c: Command)
    requires NobodyReferredThemselves(s) && c.Revoke? && StepRevoke(s, now, c).Done?
    ensures NobodyReferredThemselves(StepRevoke(s, now, c).world)
  {
  }

  lemma StepKeepsReferrers(code: CodeOf, s: World, now: int, c: Command)
    requires NobodyReferredThemselves(s)
    ensures NobodyReferredThemselves(After(code, s, now, c))
  {
    if Step(code, s, now, c).Done? {
      if c.Register? {
        RegisterLeaves(code, s, now, c);
      } else if c.Revoke? {
        RevokeKeepsReferrers(s, now, c);
      }
    }
  }

  lemma {:induction false} RunsKeepReferrers(code: CodeOf, s: World, calls: seq<Call>)
    requires NobodyReferredThemselves(s)
    ensures NobodyReferredThemselves(Run(code, s, calls))
    decreases |calls|
  {
    if calls != [] {
      StepKeepsReferrers(code, s, calls[0].now, calls[0].command);
      RunsKeepReferrers(code, After(code, s, calls[0].now, calls[0].command), calls[1..]);
    }
  }

  lemma RevokeExactly(code: CodeOf, s: World, now: int, c: Command)
    requires Inv(code, s) && c.Revoke?
    ensures Step(code, s, now, c).Done? <==> c.entryId in s.entries && !s.entries[c.entryId].state.Revoked?
  {
    if c.entryId in s.entries {
      assert EntryOk(code, s, c.entryId);
      assert ContestOk(s, s.entries[c.entryId].contestId);
    }
  }

  /** The referrer of the withdrawn entry loses one ticket before the draw, but keeps one. */
  ghost predicate TakesBack(s: World, n: World, x: Id, referrer: Option<Id>, undrawn: bool)
    requires x in s.entries
  {
    && x in n.entries
    && n.entries[x] ==
         if referrer == Some(x) && undrawn
         then s.entries[x].(weight := Max(1, s.entries[x].weight - 1), version := s.entries[x].version + 1)
         else s.entries[x]
  }

  /** A frozen list is voided and its contest published again; nothing else becomes of contests and lists. */
  ghost predicate Voids(s: World, n: World, id: Id)
    requires id in s.contests
  {
    var k := s.contests[id];
    if k.state.DrawFrozen? then
      && k.snapshotId.Some? && k.snapshotId.value in s.snapshots
      && n.snapshots == s.snapshots[k.snapshotId.value := s.snapshots[k.snapshotId.value].(frozen := false)]
      && n.contests == s.contests[id := k.(state := Published, snapshotId := None, version := k.version + 1)]
    else n.snapshots == s.snapshots && n.contests == s.contests
  }

  lemma RevokedVoids(s: World, n: World, now: int, entryId: Id)
    requires entryId in s.entries && s.entries[entryId].contestId in s.contests && Revokes(s, n, now, entryId)
    requires ContestOk(s, s.entries[entryId].contestId)
    ensures Voids(s, n, s.entries[entryId].contestId)
  {
  }

  lemma RevokedTakesBack(s: World, n: World, now: int, entryId: Id, x: Id)
    requires entryId in s.entries && s.entries[entryId].contestId in s.contests && Revokes(s, n, now, entryId)
    requires x in s.entries && x != entryId
    ensures TakesBack(s, n, x, s.entries[entryId].referrer,
      s.contests[s.entries[entryId].contestId].proofId.None?)
  {
  }

  /** The revoked entry itself. */
  ghost predicate Withdrawn(e: Entry, f: Entry, now: int) {
    f == e.(state := Revoked, revokedAt := Some(now), weight := 0, version := e.version + 1)
  }

  lemma RevokedWithdraws(s: World, n: World, now: int, entryId: Id)
    requires entryId in s.entries && s.entries[entryId].contestId in s.contests && Revokes(s, n, now, entryId)
    requires s.entries[entryId].referrer != Some(entryId)
    ensures entryId in n.entries && Withdrawn(s.entries[entryId], n.entries[entryId], now)
    ensures n.entries.Keys == s.entries.Keys
  {
  }

  /** Main result: an accepted withdrawal ends the entry and its consent, takes one ticket from the entry's referrer,
      and from nobody else, if the contest is not drawn, voids the contest's frozen list, if there is one, and
      changes nothing else. */
  lemma RevokeLeaves(code: CodeOf, s: World, now: int, c: Command)
    requires Inv(code, s) && NobodyReferredThemselves(s) && c.Revoke? && Step(code, s, now, c).Done?
    ensures var n := After(code, s, now, c);
      && c.entryId in s.entries && s.entries[c.entryId].contestId in s.contests
      && var e := s.entries[c.entryId];
      && n.entries.Keys == s.entries.Keys && Withdrawn(e, n.entries[c.entryId], now)
      && (forall x :: x in s.entries && x != c.entryId ==>
           TakesBack(s, n, x, e.referrer, !s.contests[e.contestId].state.Drawn?))
      && n.receipts == s.receipts[e.receiptId := Receipt.Withdrawn] && Voids(s, n, e.contestId)
      && n.signals == s.signals && n.decisions == s.decisions && n.proofs == s.proofs
  {
    RevokeMeans(code, s, now, c);
    var n, id := After(code, s, now, c), s.entries[c.entryId].contestId;
    assert ContestOk(s, id);
    RevokedWithdraws(s, n, now, c.entryId);
    RevokedVoids(s, n, now, c.entryId);
    forall x | x in s.entries && x != c.entryId
      ensures TakesBack(s, n, x, s.entries[c.entryId].referrer, !s.contests[id].state.Drawn?) {
      RevokedTakesBack(s, n, now, c.entryId, x);
    }
  }

  // -------------------------------------------------------------------- decision

  /** No list is frozen, the version is current, and what was reviewed are signals on the entry. */
  lemma DecideExactly(code: CodeOf, s: World, now: int, c: Command)
    requires Inv(code, s) && c.Decide?
    ensures Step(code, s, now, c).Done? <==>
      && c.entryId in s.entries && c.expectedVersion == s.entries[c.entryId].version
      && s.entries[c.entryId].contestId in s.contests && s.contests[s.entries[c.entryId].contestId].state.Published?
      && (forall g :: g in c.reviewed ==> g in s.signals && s.signals[g] == c.entryId)
      && forall d :: d in s.decisions ==> d.id != c.decisionId
  {
    if c.entryId in s.entries {
      assert EntryOk(code, s, c.entryId);
      assert ContestOk(s, s.entries[c.entryId].contestId);
    }
  }

  /** An accepted decision is recorded, makes the entry eligible with the tickets it has, but at least one, or
      excludes it with none, and changes nothing else. */
  lemma DecideLeaves(code: CodeOf, s: World, now: int, c: Command)
    requires c.Decide? && Step(code, s, now, c).Done?
    ensures var n := After(code, s, now, c);
      && c.entryId in s.entries && c.entryId in n.entries
      && var e, f := s.entries[c.entryId], n.entries[c.entryId];
      && n.decisions == s.decisions + [Decision(c.decisionId, c.entryId, c.reviewed, now)]
      && f == e.(state := f.state, weight := f.weight, version := e.version + 1)
      && (if c.eligible then f.state.Eligible? && f.weight == Max(1, e.weight)
          else f.state.Excluded? && f.weight == 0)
      && n == s.(entries := s.entries[c.entryId := f], decisions := n.decisions)
  {
  }

  // ----------------------------------------------------------- opening and signals

  lemma OpeningExactly(code: CodeOf, s: World, now: int, c: Command)
    requires c.Create? || c.Publish?
    ensures c.Create? ==> (Step(code, s, now, c).Done? <==>
      c.id !in s.contests && c.rules.cap <= MAX_CAP && now < c.rules.closesAt)
    ensures c.Publish? ==> (Step(code, s, now, c).Done? <==>
      && c.contestId in s.contests && s.contests[c.contestId].state.Draft?
      && s.contests[c.contestId].rules == c.rulesHash && s.contests[c.contestId].version == c.expectedVersion
      && now < s.contests[c.contestId].rules.closesAt)
  {
  }

  /** A contest begins as a draft with its rules and the commitment to its entropy; publishing changes its state
      only. */
  lemma OpeningLeaves(code: CodeOf, s: World, now: int, c: Command)
    requires (c.Create? || c.Publish?) && Step(code, s, now, c).Done?
    ensures var n, id := After(code, s, now, c), if c.Create? then c.id else c.contestId;
      && id in n.contests && n == s.(contests := s.contests[id := n.contests[id]])
      && var k := n.contests[id];
      if c.Create? then
        && k.state.Draft? && k.rules == c.rules && k.entropyCommitment == c.entropyCommitment
        && k.version == 1 && k.snapshotId.None? && k.proofId.None?
      else
        && id in s.contests && k.state.Published?
        && k == s.contests[id].(state := k.state, version := s.contests[id].version + 1)
  {
  }

  lemma SignalExactly(code: CodeOf, s: World, now: int, c: Command)
    requires c.RaiseSignal?
    ensures Step(code, s, now, c).Done? <==> c.entryId in s.entries && c.signalId !in s.signals
    ensures Step(code, s, now, c).Done? ==>
      After(code, s, now, c) == s.(signals := s.signals[c.signalId := c.entryId])
  {
  }

  // ------------------------------------------------------------------------ freeze

  /** Entry `e` of the contest is eligible, was never withdrawn, and its consent stands. */
  ghost predicate Stands(s: World, contestId: Id, e: Id) {
    && EntersAs(s, contestId, e) && s.entries[e].state.Eligible? && s.entries[e].revokedAt.None?
    && s.entries[e].receiptId in s.receipts && s.receipts[s.entries[e].receiptId].Granted?
  }

  ghost predicate NoneUnreviewed(s: World, contestId: Id) {
    forall g :: g in s.signals && EntersAs(s, contestId, s.signals[g]) ==>
      exists d :: d in s.decisions && d.entryId == s.signals[g] && g in d.reviewed
  }

  /** `d` is a decision on the entry, and none is later. */
  ghost predicate IsLastDecision(s: World, e: Id, d: Decision) {
    && d in s.decisions && d.entryId == e
    && forall other :: other in s.decisions && other.entryId == e ==>
         other.at < d.at || (other.at == d.at && other.id <= d.id)
  }

  /** The line of entry `e` on the list: its tickets, its consent and the last decision on it. */
  ghost predicate ListedAs(s: World, line: Candidate, e: Id)
    requires e in s.entries
  {
    && line.entryId == e && line.weight == s.entries[e].weight && line.receiptId == s.entries[e].receiptId
    && if line.decisionId.None? then forall d :: d in s.decisions ==> d.entryId != e
       else exists d :: IsLastDecision(s, e, d) && d.id == line.decisionId.value
  }

  /** The list names those who stand, each once and in the order of their ids. */
  ghost predicate ListsThoseWhoStand(s: World, contestId: Id, list: seq<Candidate>) {
    && (forall i, j :: 0 <= i < j < |list| ==> list[i].entryId < list[j].entryId)
    && (forall i :: 0 <= i < |list| ==> Stands(s, contestId, list[i].entryId) && ListedAs(s, list[i], list[i].entryId))
    && forall e :: Stands(s, contestId, e) ==> exists i :: 0 <= i < |list| && list[i].entryId == e
  }

  lemma {:induction false} LatestIsLast(s: World, decisions: seq<Decision>, e: Id)
    ensures var d := Latest(decisions, e);
      if d.None? then forall other :: other in decisions ==> other.entryId != e
      else && d.value in decisions && d.value.entryId == e
           && forall other :: other in decisions && other.entryId == e ==>
                other.at < d.value.at || (other.at == d.value.at && other.id <= d.value.id)
  {
    if decisions != [] {
      var before, last := decisions[..|decisions| - 1], decisions[|decisions| - 1];
      LatestIsLast(s, before, e);
      assert decisions == before + [last];
    }
  }

  lemma LineIsListed(code: CodeOf, s: World, contestId: Id, e: Id)
    requires Inv(code, s) && Stands(s, contestId, e) && contestId in s.contests
    ensures ListedAs(s, CandidateOf(s, e, s.contests[contestId].rules.cap), e)
  {
    assert EntryOk(code, s, e);
    LatestIsLast(s, s.decisions, e);
    var d := Latest(s.decisions, e);
    if d.Some? { assert IsLastDecision(s, e, d.value); }
  }

  lemma CandidatesStand(code: CodeOf, s: World, contestId: Id)
    requires Inv(code, s) && contestId in s.contests
    ensures ListsThoseWhoStand(s, contestId, Candidates(s, contestId, s.contests[contestId].rules.cap))
  {
    var cap := s.contests[contestId].rules.cap;
    var ids, list := Ascending(InDrawIds(s, contestId)), Candidates(s, contestId, cap);
    forall i | 0 <= i < |list|
      ensures list[i].entryId == ids[i] && Stands(s, contestId, ids[i]) && ListedAs(s, list[i], ids[i]) {
      assert ids[i] in ids;
      LineIsListed(code, s, contestId, ids[i]);
    }
    forall e | Stands(s, contestId, e) ensures exists i :: 0 <= i < |list| && list[i].entryId == e {
      assert e in ids;
      var i :| 0 <= i < |ids| && ids[i] == e;
      assert list[i].entryId == e;
    }
  }

  lemma FreezeExactly(code: CodeOf, s: World, now: int, c: Command)
    requires Inv(code, s) && c.Freeze?
    ensures Step(code, s, now, c).Done? <==>
      && c.contestId in s.contests && s.contests[c.contestId].state.Published?
      && s.contests[c.contestId].version == c.expectedVersion && s.contests[c.contestId].rules.closesAt <= now
      && NoneUnreviewed(s, c.contestId) && (exists e :: Stands(s, c.contestId, e)) && c.snapshotId !in s.snapshots
  {
    if c.contestId in s.contests {
      assert ContestOk(s, c.contestId);
      CandidatesStand(code, s, c.contestId);
      forall e ensures e in Entrants(s, c.contestId) <==> EntersAs(s, c.contestId, e) { }
      var list := Candidates(s, c.contestId, s.contests[c.contestId].rules.cap);
      if list != [] { assert Stands(s, c.contestId, list[0].entryId); }
    }
  }

  /** Main result: an accepted freeze stores, with the committed entropy, the list of exactly the entries that stand,
      each with its own tickets, and marks the contest; it changes nothing else. */
  lemma FreezeLeaves(code: CodeOf, s: World, now: int, c: Command)
    requires Inv(code, s) && c.Freeze? && Step(code, s, now, c).Done?
    ensures var n := After(code, s, now, c);
      && c.contestId in s.contests && c.snapshotId in n.snapshots
      && var k, snapshot := s.contests[c.contestId], n.snapshots[c.snapshotId];
      && ListsThoseWhoStand(s, c.contestId, snapshot.candidates) && snapshot.frozen
      && snapshot.contestId == c.contestId && snapshot.entropyCommitment == k.entropyCommitment
      && n == s.(snapshots := s.snapshots[c.snapshotId := snapshot],
                 contests := s.contests[c.contestId :=
                   k.(state := DrawFrozen, snapshotId := Some(c.snapshotId), version := k.version + 1)])
  {
    CandidatesStand(code, s, c.contestId);
  }

  // ------------------------------------------------------------------------ reveal

  /** The weights the draw is made from: those on the list, line by line. */
  ghost predicate Weighs(list: seq<Candidate>, ws: seq<nat>) {
    |ws| == |list| && forall i :: 0 <= i < |list| ==> ws[i] == list[i].weight
  }

  /** With these hashes the list's weights lead to a winner. */
  ghost predicate SelectsFrom(samples: nat -> Sample, list: seq<Candidate>, draw: Draw) {
    draw.Selected? && exists ws :: Weighs(list, ws) && IsDraw(samples, ws, draw)
  }

  lemma WeightsSelect(samples: nat -> Sample, list: seq<Candidate>)
    ensures forall draw :: SelectsFrom(samples, list, draw) <==>
      draw.Selected? && draw == DrawOf(samples, Weights(list))
  {
    assert Weighs(list, Weights(list));
    forall draw | SelectsFrom(samples, list, draw) ensures draw == DrawOf(samples, Weights(list)) {
      var ws :| Weighs(list, ws) && IsDraw(samples, ws, draw);
      assert ws == Weights(list);
      DrawIsReproducible(samples, ws, draw, DrawOf(samples, ws));
    }
  }

  /** The list is the frozen one of its contest. */
  ghost predicate AwaitsDraw(s: World, snapshotId: Id) {
    && snapshotId in s.snapshots && s.snapshots[snapshotId].contestId in s.contests
    && var k := s.contests[s.snapshots[snapshotId].contestId];
    && k.state.DrawFrozen? && k.snapshotId == Some(snapshotId)
  }

  lemma AwaitedReveal(code: CodeOf, s: World, c: Command)
    requires Inv(code, s) && c.Reveal? && AwaitsDraw(s, c.snapshotId)
    ensures var list := s.snapshots[c.snapshotId].candidates;
      StepReveal(s, s, c).Done? <==>
        c.proofId !in s.proofs && c.entropy == s.snapshots[c.snapshotId].entropyCommitment
          && AllReviewed(s, s.snapshots[c.snapshotId].contestId) && DrawOf(c.samples, Weights(list)).Selected?
  {
    FrozenState(code, s, s.snapshots[c.snapshotId].contestId);
    if c.proofId !in s.proofs { FrozenReveal(s, s.snapshots[c.snapshotId].contestId, c); }
  }

  lemma ReviewedAll(s: World, contestId: Id)
    ensures AllReviewed(s, contestId) <==> NoneUnreviewed(s, contestId)
  {
    forall e ensures e in Entrants(s, contestId) <==> EntersAs(s, contestId, e) { }
  }

  lemma RevealNeedsFrozenList(code: CodeOf, s: World, c: Command)
    requires Inv(code, s) && c.Reveal? && StepReveal(s, s, c).Done?
    ensures AwaitsDraw(s, c.snapshotId)
  {
  }

  lemma RevealExactly(code: CodeOf, s: World, now: int, c: Command)
    requires Inv(code, s) && c.Reveal?
    ensures Step(code, s, now, c).Done? <==>
      && AwaitsDraw(s, c.snapshotId) && c.entropy == s.snapshots[c.snapshotId].entropyCommitment
      && NoneUnreviewed(s, s.snapshots[c.snapshotId].contestId) && c.proofId !in s.proofs
      && exists draw :: SelectsFrom(c.samples, s.snapshots[c.snapshotId].candidates, draw)
  {
    if Step(code, s, now, c).Done? { RevealNeedsFrozenList(code, s, c); }
    if AwaitsDraw(s, c.snapshotId) {
      AwaitedReveal(code, s, c);
      ReviewedAll(s, s.snapshots[c.snapshotId].contestId);
      WeightsSelect(c.samples, s.snapshots[c.snapshotId].candidates);
    }
  }

  /** The proof names the candidate on the line the draw selects, and how the draw came about. */
  ghost predicate Proves(proof: Proof, snapshotId: Id, snapshot: Snapshot, draw: Draw) {
    && draw.Selected? && draw.position < |snapshot.candidates|
    && proof.winner == snapshot.candidates[draw.position].entryId && proof.selectedIndex == draw.selectedIndex
    && proof.counter == draw.counter && proof.contestId == snapshot.contestId && proof.snapshotId == snapshotId
  }

  lemma RevealedProof(code: CodeOf, s: World, c: Command) returns (draw: Draw)
    requires Inv(code, s) && c.Reveal? && StepReveal(s, s, c).Done?
    ensures AwaitsDraw(s, c.snapshotId) && c.proofId in StepReveal(s, s, c).world.proofs
    ensures var snapshot := s.snapshots[c.snapshotId];
      && SelectsFrom(c.samples, snapshot.candidates, draw)
      && Proves(StepReveal(s, s, c).world.proofs[c.proofId], c.snapshotId, snapshot, draw)
  {
    var list := s.snapshots[c.snapshotId].candidates;
    WeightsSelect(c.samples, list);
    draw := DrawOf(c.samples, Weights(list));
  }

  /** Main result: an accepted reveal stores a proof that names the candidate whom the hashes select from the weights
      on the frozen list, and marks the contest drawn; it changes nothing else. */
  lemma RevealLeaves(code: CodeOf, s: World, now: int, c: Command) returns (draw: Draw)
    requires Inv(code, s) && c.Reveal? && Step(code, s, now, c).Done?
    ensures var n := After(code, s, now, c);
      && AwaitsDraw(s, c.snapshotId) && c.proofId in n.proofs
      && SelectsFrom(c.samples, s.snapshots[c.snapshotId].candidates, draw)
      && Proves(n.proofs[c.proofId], c.snapshotId, s.snapshots[c.snapshotId], draw)
      && Draws(s, n, c.proofId, n.proofs[c.proofId])
  {
    assert Step(code, s, now, c) == StepReveal(s, s, c);
    draw := RevealedProof(code, s, c);
    var proof := RevealMeans(code, s, now, c);
    assert proof == After(code, s, now, c).proofs[c.proofId];
  }

  // -------------------------------------------------------------- earned tickets

  /** The entries that named `e` as their referrer and were not withdrawn. */
  function Referred(s: World, e: Id): set<Id> {
    set x | x in s.entries && s.entries[x].referrer == Some(e) && s.entries[x].revokedAt.None?
  }

  ghost predicate EarnedAt(s: World, e: Id)
    requires e in s.entries
  {
    && s.entries[e].contestId in s.contests
    && (!s.contests[s.entries[e].contestId].state.Drawn? ==> s.entries[e].weight <= 1 + |Referred(s, e)|)
  }

  ghost predicate Earned(s: World) {
    forall e :: e in s.entries ==> EarnedAt(s, e)
  }

  /** No contest is undrawn. */
  ghost predicate DrawnStay(s: World, n: World) {
    forall id :: id in s.contests ==> id in n.contests && (s.contests[id].state.Drawn? ==> n.contests[id].state.Drawn?)
  }

  lemma SameEntriesEarned(s: World, n: World)
    requires Earned(s) && n.entries == s.entries && DrawnStay(s, n)
    ensures Earned(n)
  {
    forall e | e in n.entries ensures EarnedAt(n, e) {
      assert EarnedAt(s, e) && Referred(n, e) == Referred(s, e);
    }
  }

  /** `e` has earned what it has when `id` enters. */
  lemma RegisteredEarnsAt(s: World, n: World, id: Id, e: Id, cap: nat)
    requires Earned(s) && n.contests == s.contests && id !in s.entries && n.entries.Keys == s.entries.Keys + {id}
    requires n.entries[id].revokedAt.None? && n.entries[id].weight == 1 && n.entries[id].contestId in s.contests
    requires forall x :: x in s.entries ==> SameReferral(s, n, x)
    requires e in s.entries ==> Rewards(s, n, e, n.entries[id].referrer, cap)
    requires e in n.entries
    ensures EarnedAt(n, e)
  {
    if e in s.entries {
      assert EarnedAt(s, e);
      ReferredGrow(s, n, id, e);
    }
  }

  lemma RegisterEarns(code: CodeOf, s: World, now: int, c: Command)
    requires Inv(code, s) && Earned(s) && c.Register? && Step(code, s, now, c).Done?
    ensures Earned(After(code, s, now, c))
  {
    RegisterExactly(code, s, now, c);
    RegisterLeaves(code, s, now, c);
    var n, cap := After(code, s, now, c), s.contests[c.contestId].rules.cap;
    forall x | x in s.entries ensures SameReferral(s, n, x) {
      assert Rewards(s, n, x, n.entries[c.entryId].referrer, cap);
    }
    forall e | e in n.entries ensures EarnedAt(n, e) {
      RegisteredEarnsAt(s, n, c.entryId, e, cap);
    }
  }

  /** Entry `x` keeps its referrer and whether it stands. */
  ghost predicate SameReferral(s: World, n: World, x: Id) {
    && x in s.entries && x in n.entries && n.entries[x].referrer == s.entries[x].referrer
    && n.entries[x].revokedAt == s.entries[x].revokedAt
  }

  lemma ReferredGrow(s: World, n: World, id: Id, e: Id)
    requires id !in s.entries && id in n.entries && n.entries.Keys == s.entries.Keys + {id}
    requires n.entries[id].revokedAt.None? && forall x :: x in s.entries ==> SameReferral(s, n, x)
    ensures |Referred(n, e)| == |Referred(s, e)| + if n.entries[id].referrer == Some(e) then 1 else 0
  {
    var added: set<Id> := if n.entries[id].referrer == Some(e) then {id} else {};
    forall x ensures x in Referred(n, e) <==> x in Referred(s, e) + added {
      if x in s.entries { assert SameReferral(s, n, x); }
    }
    assert Referred(n, e) == Referred(s, e) + added;
  }

  lemma ReferredShrink(s: World, n: World, id: Id, e: Id, now: int, undrawn: bool)
    requires id in s.entries && n.entries.Keys == s.entries.Keys && Withdrawn(s.entries[id], n.entries[id], now)
    requires forall x :: x in s.entries && x != id ==> TakesBack(s, n, x, s.entries[id].referrer, undrawn)
    ensures |Referred(n, e)| >= |Referred(s, e)| - if s.entries[id].referrer == Some(e) then 1 else 0
  {
    forall x | x in s.entries && x != id ensures x in Referred(n, e) <==> x in Referred(s, e) {
      assert TakesBack(s, n, x, s.entries[id].referrer, undrawn);
    }
    assert Referred(n, e) == Referred(s, e) - {id};
  }

  lemma VoidedStay(s: World, n: World, id: Id)
    requires id in s.contests && Voids(s, n, id)
    ensures DrawnStay(s, n)
  {
  }

  /** `x` keeps what it earned when `id` withdraws. */
  lemma RevokedEarnsAt(s: World, n: World, id: Id, x: Id, now: int, undrawn: bool)
    requires Earned(s) && DrawnStay(s, n) && id in s.entries && n.entries.Keys == s.entries.Keys
    requires Withdrawn(s.entries[id], n.entries[id], now)
    requires forall y :: y in s.entries && y != id ==> TakesBack(s, n, y, s.entries[id].referrer, undrawn)
    requires s.entries[id].contestId in s.contests
    requires undrawn == !s.contests[s.entries[id].contestId].state.Drawn?
    requires x in s.entries && (s.entries[id].referrer == Some(x) ==> s.entries[x].contestId == s.entries[id].contestId)
    ensures EarnedAt(n, x)
  {
    assert EarnedAt(s, x);
    if x != id {
      assert TakesBack(s, n, x, s.entries[id].referrer, undrawn);
      ReferredShrink(s, n, id, x, now, undrawn);
    }
  }

  lemma RevokeEarns(code: CodeOf, s: World, now: int, c: Command)
    requires Inv(code, s) && NobodyReferredThemselves(s) && Earned(s) && c.Revoke? && Step(code, s, now, c).Done?
    ensures Earned(After(code, s, now, c))
  {
    RevokeLeaves(code, s, now, c);
    var n, e := After(code, s, now, c), s.entries[c.entryId];
    VoidedStay(s, n, e.contestId);
    assert EntryOk(code, s, c.entryId);
    forall x | x in n.entries ensures EarnedAt(n, x) {
      RevokedEarnsAt(s, n, c.entryId, x, now, !s.contests[e.contestId].state.Drawn?);
    }
  }

  lemma DecideEarns(code: CodeOf, s: World, now: int, c: Command)
    requires Earned(s) && c.Decide? && Step(code, s, now, c).Done?
    ensures Earned(After(code, s, now, c))
  {
    DecideLeaves(code, s, now, c);
    var n := After(code, s, now, c);
    forall e | e in n.entries ensures EarnedAt(n, e) {
      assert EarnedAt(s, e) && Referred(n, e) == Referred(s, e);
    }
  }

  lemma RevealLeavesEntries(code: CodeOf, s: World, now: int, c: Command)
    requires c.Reveal? && Step(code, s, now, c).Done?
    ensures After(code, s, now, c).entries == s.entries && DrawnStay(s, After(code, s, now, c))
  {
    var proof := RevealMeans(code, s, now, c);
  }

  lemma StepEarns(code: CodeOf, s: World, now: int, c: Command)
    requires Inv(code, s) && NobodyReferredThemselves(s) && Earned(s)
    ensures Earned(After(code, s, now, c))
  {
    if Step(code, s, now, c).Done? {
      match c
      case Register(_, _, _, _, _, _, _, _) => RegisterEarns(code, s, now, c);
      case Revoke(_) => RevokeEarns(code, s, now, c);
      case Decide(_, _, _, _, _) => DecideEarns(code, s, now, c);
      case Reveal(_, _, _, _) =>
        RevealLeavesEntries(code, s, now, c);
        SameEntriesEarned(s, After(code, s, now, c));
      case Freeze(_, _, _) => FreezeLeaves(code, s, now, c); SameEntriesEarned(s, After(code, s, now, c));
      case RaiseSignal(_, _) => SignalExactly(code, s, now, c); SameEntriesEarned(s, After(code, s, now, c));
      case _ =>
        OpeningExactly(code, s, now, c);
        OpeningLeaves(code, s, now, c);
        SameEntriesEarned(s, After(code, s, now, c));
    }
  }

  lemma {:induction false} RunsEarn(code: CodeOf, s: World, calls: seq<Call>)
    requires Inv(code, s) && NobodyReferredThemselves(s) && Earned(s)
    ensures Earned(Run(code, s, calls)) && NobodyReferredThemselves(Run(code, s, calls))
    decreases |calls|
  {
    if calls != [] {
      var now, c := calls[0].now, calls[0].command;
      StepEarns(code, s, now, c);
      StepKeepsInv(code, s, now, c);
      StepKeepsReferrers(code, s, now, c);
      RunsEarn(code, After(code, s, now, c), calls[1..]);
    }
  }

  /** Main result: on every run, until its contest is drawn, an entry has at most one ticket and one more for each entry
      that it referred and that still stands. */
  lemma TicketsAreEarned(code: CodeOf, calls: seq<Call>, id: Id)
    requires id in Run(code, EMPTY, calls).entries
    ensures var s := Run(code, EMPTY, calls);
      s.entries[id].contestId in s.contests
      && (!s.contests[s.entries[id].contestId].state.Drawn? ==> s.entries[id].weight <= 1 + |Referred(s, id)|)
  {
    RunsEarn(code, EMPTY, calls);
    assert EarnedAt(Run(code, EMPTY, calls), id);
  }
}
