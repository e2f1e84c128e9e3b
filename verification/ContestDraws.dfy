/** Which frozen contests can still be drawn from the list they froze. */
module ContestDraws {
  import opened Options
  import opened DrawSampling
  import opened Sorting
  import opened Contest
  import opened ContestRuns

  // ------------------------------------------------------- an unreviewed signal

  ghost predicate FrozenAt(s: World, id: Id, snapshotId: Id) {
    id in s.contests && s.contests[id].state.DrawFrozen? && s.contests[id].snapshotId == Some(snapshotId)
  }

  ghost predicate Unresolved(s: World, id: Id, signal: Id) {
    signal in s.signals && s.signals[signal] in Entrants(s, id) && !Resolved(s, signal, s.signals[signal])
  }

  ghost predicate Invalidated(s: World, snapshotId: Id) {
    snapshotId in s.snapshots && !s.snapshots[snapshotId].frozen
  }

  /** The call revokes the consent of one of the contest's entrants. */
  ghost predicate Withdraws(code: CodeOf, s: World, call: Call, id: Id) {
    && call.command.Revoke? && Step(code, s, call.now, call.command).Done?
    && call.command.entryId in Entrants(s, id)
  }

  ghost predicate SomeoneWithdraws(code: CodeOf, s: World, calls: seq<Call>, id: Id)
    decreases |calls|
  {
    && calls != []
    && (Withdraws(code, s, calls[0], id)
         || SomeoneWithdraws(code, After(code, s, calls[0].now, calls[0].command), calls[1..], id))
  }

  ghost predicate StillBlocked(s: World, n: World, id: Id, signal: Id) {
    id in s.contests && id in n.contests && n.contests[id] == s.contests[id] && Unresolved(n, id, signal)
  }

  lemma SignalKeepsBlocked(s: World, c: Command, id: Id, signal: Id)
    requires c.RaiseSignal? && StepSignal(s, c).Done? && id in s.contests && Unresolved(s, id, signal)
    ensures StillBlocked(s, StepSignal(s, c).world, id, signal)
  {
    var n := StepSignal(s, c).world;
    assert Entrants(n, id) == Entrants(s, id);
  }

  lemma RegisterKeepsBlocked(code: CodeOf, s: World, now: int, c: Command, id: Id, signal: Id)
    requires c.Register? && Step(code, s, now, c).Done? && id in s.contests && Unresolved(s, id, signal)
    ensures StillBlocked(s, After(code, s, now, c), id, signal)
  {
    var referrer := RegisterMeans(code, s, now, c);
    assert s.signals[signal] in Entrants(After(code, s, now, c), id);
  }

  /** A decision could resolve the signal, but decides on entries of contests that are not frozen only. */
  lemma DecideKeepsBlocked(s: World, n: World, d: Decision, eligible: bool, id: Id, snapshotId: Id, signal: Id)
    requires Decides(s, n, d, eligible) && FrozenAt(s, id, snapshotId) && Unresolved(s, id, signal)
    ensures StillBlocked(s, n, id, signal)
  {
    var entryId := s.signals[signal];
    assert d.entryId != entryId;
    forall e | e in n.decisions && e.entryId == entryId ensures signal !in e.reviewed {
      assert e in s.decisions;
    }
  }

  lemma FreezeKeepsBlocked(s: World, n: World, other: Id, newId: Id, id: Id, snapshotId: Id, signal: Id)
    requires Freezes(s, n, other, newId) && FrozenAt(s, id, snapshotId) && Unresolved(s, id, signal)
    ensures StillBlocked(s, n, id, signal)
  {
    assert Entrants(n, id) == Entrants(s, id);
  }

  lemma RevealElsewhere(s: World, n: World, proofId: Id, proof: Proof, id: Id, signal: Id)
    requires Draws(s, n, proofId, proof) && proof.contestId != id && id in s.contests && Unresolved(s, id, signal)
    ensures StillBlocked(s, n, id, signal)
  {
    assert Entrants(n, id) == Entrants(s, id);
  }

  lemma RevealIsRefused(s: World, c: Command, id: Id, signal: Id)
    requires c.Reveal? && Unresolved(s, id, signal) && StepReveal(s, s, c).Done?
    ensures c.snapshotId in s.snapshots && s.snapshots[c.snapshotId].contestId != id
  {
  }

  lemma RevealKeepsBlocked(code: CodeOf, s: World, now: int, c: Command, id: Id, signal: Id)
    requires c.Reveal? && Step(code, s, now, c).Done? && id in s.contests && Unresolved(s, id, signal)
    ensures StillBlocked(s, After(code, s, now, c), id, signal)
  {
    var proof := RevealMeans(code, s, now, c);
    RevealIsRefused(s, c, id, signal);
    RevealElsewhere(s, After(code, s, now, c), c.proofId, proof, id, signal);
  }

  lemma RevokeElsewhere(s: World, n: World, now: int, entryId: Id, id: Id, signal: Id)
    requires entryId in s.entries && s.entries[entryId].contestId in s.contests && Revokes(s, n, now, entryId)
    requires s.entries[entryId].contestId != id && id in s.contests && Unresolved(s, id, signal)
    ensures StillBlocked(s, n, id, signal)
  {
    assert Entrants(n, id) == Entrants(s, id);
  }

  lemma RevokeInvalidates(s: World, n: World, now: int, entryId: Id, id: Id, snapshotId: Id)
    requires entryId in s.entries && s.entries[entryId].contestId in s.contests && Revokes(s, n, now, entryId)
    requires s.entries[entryId].contestId == id && FrozenAt(s, id, snapshotId) && ContestOk(s, id)
    ensures Invalidated(n, snapshotId)
  {
  }

  lemma RevokeKeepsBlocked(code: CodeOf, s: World, now: int, c: Command, id: Id, snapshotId: Id, signal: Id)
    requires c.Revoke? && Step(code, s, now, c).Done? && FrozenAt(s, id, snapshotId) && ContestOk(s, id)
    requires Unresolved(s, id, signal)
    ensures if c.entryId in Entrants(s, id) then Invalidated(After(code, s, now, c), snapshotId)
      else StillBlocked(s, After(code, s, now, c), id, signal)
  {
    RevokeMeans(code, s, now, c);
    var n := After(code, s, now, c);
    if s.entries[c.entryId].contestId == id {
      RevokeInvalidates(s, n, now, c.entryId, id, snapshotId);
    } else {
      RevokeElsewhere(s, n, now, c.entryId, id, signal);
    }
  }

  lemma OthersKeepBlocked(s: World, n: World, id: Id, signal: Id)
    requires id in s.contests && id in n.contests && n.contests[id] == s.contests[id] && Unresolved(s, id, signal)
    requires n.entries == s.entries && n.signals == s.signals && n.decisions == s.decisions
    ensures StillBlocked(s, n, id, signal)
  {
    assert Entrants(n, id) == Entrants(s, id);
  }

  lemma OpeningLeaves(code: CodeOf, s: World, now: int, c: Command, id: Id)
    requires (c.Create? || c.Publish?) && Step(code, s, now, c).Done? && id in s.contests
    requires s.contests[id].state.DrawFrozen?
    ensures var n := After(code, s, now, c);
      && id in n.contests && n.contests[id] == s.contests[id] && n.entries == s.entries && n.signals == s.signals
      && n.decisions == s.decisions
  {
  }

  lemma BlockedStep(code: CodeOf, s: World, now: int, c: Command, id: Id, snapshotId: Id, signal: Id)
    requires FrozenAt(s, id, snapshotId) && ContestOk(s, id) && Unresolved(s, id, signal)
    ensures if Withdraws(code, s, Call(now, c), id) then Invalidated(After(code, s, now, c), snapshotId)
      else StillBlocked(s, After(code, s, now, c), id, signal)
  {
    var n := After(code, s, now, c);
    if Step(code, s, now, c).Done? {
      match c
      case Create(_, _, _) => OpeningLeaves(code, s, now, c, id); OthersKeepBlocked(s, n, id, signal);
      case Publish(_, _, _) => OpeningLeaves(code, s, now, c, id); OthersKeepBlocked(s, n, id, signal);
      case Register(_, _, _, _, _, _, _, _) => RegisterKeepsBlocked(code, s, now, c, id, signal);
      case Revoke(_) => RevokeKeepsBlocked(code, s, now, c, id, snapshotId, signal);
      case RaiseSignal(_, _) => SignalKeepsBlocked(s, c, id, signal);
      case Decide(_, _, _, _, _) =>
        DecideMeans(code, s, now, c); DecideKeepsBlocked(s, n, DecisionOf(now, c), c.eligible, id, snapshotId, signal);
      case Freeze(_, _, _) =>
        FreezeMeans(code, s, now, c); FreezeKeepsBlocked(s, n, c.contestId, c.snapshotId, id, snapshotId, signal);
      case Reveal(_, _, _, _) => RevealKeepsBlocked(code, s, now, c, id, signal);
    }
  }

  lemma InvalidatedStep(code: CodeOf, s: World, now: int, c: Command, snapshotId: Id)
    requires Invalidated(s, snapshotId)
    ensures Invalidated(After(code, s, now, c), snapshotId)
  {
  }

  lemma {:induction false} InvalidatedStays(code: CodeOf, s: World, calls: seq<Call>, snapshotId: Id)
    requires Invalidated(s, snapshotId)
    ensures Invalidated(Run(code, s, calls), snapshotId)
    decreases |calls|
  {
    if calls != [] {
      InvalidatedStep(code, s, calls[0].now, calls[0].command, snapshotId);
      InvalidatedStays(code, After(code, s, calls[0].now, calls[0].command), calls[1..], snapshotId);
    }
  }

  /** Main result: a fraud signal recorded after the freeze blocks the draw until an entrant of the contest
      withdraws. Without a withdrawal the contest stays as it is and the signal unreviewed; with one, the frozen list
      is void. */
  lemma {:induction false} BlockedUntilWithdrawal(code: CodeOf, s: World, calls: seq<Call>, id: Id, snapshotId: Id,
      signal: Id)
    requires Inv(code, s) && FrozenAt(s, id, snapshotId) && Unresolved(s, id, signal)
    ensures var n := Run(code, s, calls);
      if SomeoneWithdraws(code, s, calls, id) then Invalidated(n, snapshotId) else StillBlocked(s, n, id, signal)
    decreases |calls|
  {
    if calls != [] {
      var n := After(code, s, calls[0].now, calls[0].command);
      assert ContestOk(s, id);
      BlockedStep(code, s, calls[0].now, calls[0].command, id, snapshotId, signal);
      if Withdraws(code, s, calls[0], id) {
        InvalidatedStays(code, n, calls[1..], snapshotId);
      } else {
        StepKeepsInv(code, s, calls[0].now, calls[0].command);
        BlockedUntilWithdrawal(code, n, calls[1..], id, snapshotId, signal);
      }
    }
  }

  // ------------------------------------------------------------ the draw that can be made

  ghost predicate DrawnFrom(s: World, id: Id, snapshotId: Id) {
    id in s.contests && s.contests[id].state.Drawn? && s.contests[id].snapshotId == Some(snapshotId)
  }

  ghost predicate CanBeDrawn(code: CodeOf, s: World, id: Id, snapshotId: Id) {
    exists calls :: DrawnFrom(Run(code, s, calls), id, snapshotId)
  }

  /** What the sampler can work with. */
  ghost predicate Drawable(candidates: seq<Candidate>) {
    0 < Total(Weights(candidates)) <= MAX_SAFE
  }

  lemma FirstHashIsAccepted(hash: nat -> Sample, ws: seq<nat>)
    requires 0 < Total(ws) <= MAX_SAFE && hash(0) == 0
    ensures DrawOf(hash, ws).Selected?
  {
    assert hash(0) < Limit(Total(ws));
  }

  lemma ListStays(code: CodeOf, s: World, now: int, c: Command, snapshotId: Id)
    requires snapshotId in s.snapshots
    ensures var n := After(code, s, now, c);
      snapshotId in n.snapshots && n.snapshots[snapshotId].candidates == s.snapshots[snapshotId].candidates
  {
  }

  lemma OnlyRevealDraws(code: CodeOf, s: World, now: int, c: Command, id: Id, snapshotId: Id)
    requires !DrawnFrom(s, id, snapshotId) && !c.Reveal?
    ensures !DrawnFrom(After(code, s, now, c), id, snapshotId)
  {
  }

  lemma RevealDraws(code: CodeOf, s: World, now: int, c: Command, id: Id, snapshotId: Id)
    requires c.Reveal? && !DrawnFrom(s, id, snapshotId) && DrawnFrom(After(code, s, now, c), id, snapshotId)
    ensures snapshotId in s.snapshots && Drawable(s.snapshots[snapshotId].candidates)
  {
    var frozen := s.snapshots[c.snapshotId];
    assert IsDraw(c.samples, Weights(frozen.candidates), DrawOf(c.samples, Weights(frozen.candidates)));
  }

  lemma {:induction false} DrawnWasDrawable(code: CodeOf, s: World, calls: seq<Call>, id: Id, snapshotId: Id)
    requires snapshotId in s.snapshots && !DrawnFrom(s, id, snapshotId)
    requires DrawnFrom(Run(code, s, calls), id, snapshotId)
    ensures Drawable(s.snapshots[snapshotId].candidates)
    decreases |calls|
  {
    if calls != [] {
      var now, c := calls[0].now, calls[0].command;
      if DrawnFrom(After(code, s, now, c), id, snapshotId) {
        if c.Reveal? {
          RevealDraws(code, s, now, c, id, snapshotId);
        } else {
          OnlyRevealDraws(code, s, now, c, id, snapshotId);
        }
      } else {
        ListStays(code, s, now, c, snapshotId);
        DrawnWasDrawable(code, After(code, s, now, c), calls[1..], id, snapshotId);
      }
    }
  }

  lemma DrawnListIsValid(s: World, id: Id, snapshotId: Id)
    requires ContestsOk(s) && DrawnFrom(s, id, snapshotId)
    ensures !Invalidated(s, snapshotId)
  {
    assert ContestOk(s, id);
  }

  lemma BlockedIsNotDrawn(code: CodeOf, s: World, calls: seq<Call>, id: Id, snapshotId: Id, signal: Id)
    requires Inv(code, s) && FrozenAt(s, id, snapshotId) && Unresolved(s, id, signal)
    ensures !DrawnFrom(Run(code, s, calls), id, snapshotId)
  {
    var n := Run(code, s, calls);
    BlockedUntilWithdrawal(code, s, calls, id, snapshotId, signal);
    RunsKeepInv(code, s, calls);
    if DrawnFrom(n, id, snapshotId) { DrawnListIsValid(n, id, snapshotId); }
  }

  lemma DrawnWasReviewed(code: CodeOf, s: World, calls: seq<Call>, id: Id, snapshotId: Id)
    requires Inv(code, s) && FrozenAt(s, id, snapshotId) && DrawnFrom(Run(code, s, calls), id, snapshotId)
    ensures AllReviewed(s, id)
  {
    forall g | g in s.signals && s.signals[g] in Entrants(s, id) ensures Resolved(s, g, s.signals[g]) {
      if !Resolved(s, g, s.signals[g]) { BlockedIsNotDrawn(code, s, calls, id, snapshotId, g); }
    }
  }

  lemma RevealedIsDrawn(code: CodeOf, s: World, now: int, c: Command, id: Id)
    requires c.Reveal? && FrozenAt(s, id, c.snapshotId) && ContestOk(s, id) && Step(code, s, now, c).Done?
    ensures DrawnFrom(After(code, s, now, c), id, c.snapshotId)
  {
    var proof := RevealMeans(code, s, now, c);
  }

  lemma RevealIsAccepted(code: CodeOf, s: World, id: Id, snapshotId: Id, samples: nat -> Sample, proofId: Id)
    requires FrozenAt(s, id, snapshotId) && AllReviewed(s, id) && ContestOk(s, id)
    requires Candidates(s, id, s.contests[id].rules.cap) == s.snapshots[snapshotId].candidates != []
    requires Drawable(s.snapshots[snapshotId].candidates) && samples(0) == 0 && proofId !in s.proofs
    ensures var c := Reveal(snapshotId, s.snapshots[snapshotId].entropyCommitment, samples, proofId);
      DrawnFrom(After(code, s, 0, c), id, snapshotId)
  {
    var c := Reveal(snapshotId, s.snapshots[snapshotId].entropyCommitment, samples, proofId);
    FirstHashIsAccepted(samples, Weights(s.snapshots[snapshotId].candidates));
    FrozenReveal(s, id, c);
    RevealedIsDrawn(code, s, 0, c, id);
  }

  lemma DrawnNeeds(code: CodeOf, s: World, id: Id, snapshotId: Id)
    requires Inv(code, s) && FrozenAt(s, id, snapshotId) && snapshotId in s.snapshots
    requires CanBeDrawn(code, s, id, snapshotId)
    ensures AllReviewed(s, id) && Drawable(s.snapshots[snapshotId].candidates)
  {
    var calls :| DrawnFrom(Run(code, s, calls), id, snapshotId);
    DrawnWasReviewed(code, s, calls, id, snapshotId);
    DrawnWasDrawable(code, s, calls, id, snapshotId);
  }

  lemma OneCall(code: CodeOf, s: World, call: Call)
    ensures Run(code, s, [call]) == After(code, s, call.now, call.command)
  {
    assert [call][1..] == [];
  }

  lemma DrawingCall(code: CodeOf, s: World, id: Id, snapshotId: Id) returns (call: Call)
    requires Inv(code, s) && FrozenAt(s, id, snapshotId) && AllReviewed(s, id) && snapshotId in s.snapshots
    requires Drawable(s.snapshots[snapshotId].candidates)
    ensures call.command.Reveal? && DrawnFrom(After(code, s, call.now, call.command), id, snapshotId)
  {
    FrozenState(code, s, id);
    var proofId := Unused(s.proofs.Keys);
    var samples: nat -> Sample := _ => 0;
    call := Call(0, Reveal(snapshotId, s.snapshots[snapshotId].entropyCommitment, samples, proofId));
    RevealIsAccepted(code, s, id, snapshotId, samples, proofId);
  }

  lemma DrawnFromOneCall(code: CodeOf, s: World, id: Id, snapshotId: Id)
    requires Inv(code, s) && FrozenAt(s, id, snapshotId) && AllReviewed(s, id) && snapshotId in s.snapshots
    requires Drawable(s.snapshots[snapshotId].candidates)
    ensures CanBeDrawn(code, s, id, snapshotId)
  {
    var call := DrawingCall(code, s, id, snapshotId);
    OneCall(code, s, call);
    assert DrawnFrom(Run(code, s, [call]), id, snapshotId);
  }

  lemma FrozenListIsStored(s: World, id: Id, snapshotId: Id)
    requires ContestsOk(s) && FrozenAt(s, id, snapshotId)
    ensures snapshotId in s.snapshots
  {
    assert ContestOk(s, id);
  }

  /** Main result: a frozen contest can still be drawn from the list it froze if and only if no fraud signal on an
      entrant is unreviewed and the weights on the list add up to a safe integer. */
  lemma DrawableIff(code: CodeOf, s: World, id: Id, snapshotId: Id)
    requires Inv(code, s) && FrozenAt(s, id, snapshotId)
    ensures snapshotId in s.snapshots
    ensures CanBeDrawn(code, s, id, snapshotId) <==>
      AllReviewed(s, id) && Drawable(s.snapshots[snapshotId].candidates)
  {
    FrozenListIsStored(s, id, snapshotId);
    if CanBeDrawn(code, s, id, snapshotId) { DrawnNeeds(code, s, id, snapshotId); }
    if AllReviewed(s, id) && Drawable(s.snapshots[snapshotId].candidates) {
      DrawnFromOneCall(code, s, id, snapshotId);
    }
  }
}
