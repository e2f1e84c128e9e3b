/** Exactly which active envelopes can still be completed: by whom, within which limits, and before what quota. */
module EsignCompletable {
  import opened Esign
  import opened EsignRuns
  import opened EsignProgress
  import opened EsignCompletion
  import opened EsignRecords
  import opened EsignLimits

  // ------------------------------------------------------------- session deadlines

  /** A session ends after its issue and no later than its envelope. */
  ghost predicate TimedAt(s: Store, k: Id)
    requires k in s.sessions
  {
    var session := s.sessions[k];
    session.envelopeId in s.envelopes
      && session.issuedAt < session.expiresAt <= s.envelopes[session.envelopeId].expiresAt
  }

  ghost predicate Timed(s: Store) {
    forall k :: k in s.sessions ==> TimedAt(s, k)
  }

  lemma StepPreserves(s: Store, now: int, c: Command)
    requires Step(s, now, c).Done?
    ensures Preserves(s, After(s, now, c))
  {
    if c.DraftEnvelope? {
      DraftIsBound(s, now, c);
    } else if ActsOnEnvelope(c) {
      ActionsPreserve(s, now, c);
    } else {
      RegistryPreserves(s, now, c);
    }
  }

  lemma OldStaysTimed(s: Store, n: Store, k: Id)
    requires Timed(s) && OldSessions(s, n) && Preserves(s, n) && k in s.sessions
    ensures k in n.sessions && TimedAt(n, k)
  {
    assert TimedAt(s, k) && SameTicket(s.sessions[k], n.sessions[k]);
    assert SameBinding(s.envelopes[s.sessions[k].envelopeId], n.envelopes[s.sessions[k].envelopeId]);
  }

  lemma IssuedIsTimed(s: Store, now: int, c: Command)
    requires c.IssueSession? && StepIssue(s, now, c).Done?
    ensures var n := StepIssue(s, now, c).store; c.sessionId in n.sessions && TimedAt(n, c.sessionId)
  {
  }

  lemma StepKeepsTimed(s: Store, now: int, c: Command)
    requires Timed(s) && Step(s, now, c).Done?
    ensures Timed(After(s, now, c))
  {
    var n := After(s, now, c);
    StepPreserves(s, now, c);
    if c.IssueSession? {
      IssueOpensOne(s, now, c);
      IssuedIsTimed(s, now, c);
    } else {
      OthersOpenNone(s, now, c);
    }
    forall k | k in n.sessions ensures TimedAt(n, k) {
      if k in s.sessions { OldStaysTimed(s, n, k); }
    }
  }

  lemma NextKeepsTimed(s: Store, call: Call)
    requires Timed(s)
    ensures Timed(Next(s, call))
  {
    if Step(s, call.now, call.command).Done? {
      StepKeepsTimed(s, call.now, call.command);
      NextWhenDone(s, call);
      FiledTimed(After(s, call.now, call.command), Next(s, call));
    }
  }

  lemma FiledTimed(s: Store, n: Store)
    requires Timed(s) && n == s.(others := s.others + 1)
    ensures Timed(n)
  {
    forall k | k in n.sessions ensures TimedAt(n, k) {
      assert TimedAt(s, k);
    }
  }

  lemma {:induction false} RunsKeepTimed(s: Store, calls: seq<Call>)
    requires Timed(s)
    ensures Timed(Run(s, calls))
    decreases |calls|
  {
    if calls != [] {
      NextKeepsTimed(s, calls[0]);
      RunsKeepTimed(Next(s, calls[0]), calls[1..]);
    }
  }

  // -------------------------------------------------------------- a useless session

  /** An open session whose token is also another's: nobody can use it, and none can be issued until it expires. */
  ghost predicate JamsAt(s: Store, id: Id, k: Id) {
    && id in s.envelopes && k in s.sessions && OpenIn(s.sessions[k], id)
    && !SoleHolder(s.sessions, s.sessions[k].token, k) && s.sessions[k].expiresAt >= s.envelopes[id].expiresAt
  }

  /** Such a session outlives the envelope. */
  ghost predicate Jammed(s: Store, id: Id, now: int) {
    exists k :: JamsAt(s, id, k) && s.sessions[k].expiresAt > now
  }

  ghost predicate ActsOn(c: Command, id: Id) {
    (c.IssueSession? || c.Complete? || c.Decline? || c.VoidEnvelope?) && c.envelopeId == id
  }

  lemma IssueElsewhere(s: Store, now: int, c: Command, k: Id)
    requires c.IssueSession? && StepIssue(s, now, c).Done? && k in s.sessions
    requires s.sessions[k].envelopeId != c.envelopeId
    ensures var n := StepIssue(s, now, c).store; k in n.sessions && n.sessions[k] == s.sessions[k]
  {
  }

  lemma CompleteElsewhere(s: Store, now: int, c: Command, k: Id)
    requires c.Complete? && StepComplete(s, now, c).Done? && k in s.sessions
    requires s.sessions[k].envelopeId != c.envelopeId
    ensures var n := StepComplete(s, now, c).store; k in n.sessions && n.sessions[k] == s.sessions[k]
  {
  }

  lemma DeclineElsewhere(s: Store, now: int, c: Command, k: Id)
    requires c.Decline? && StepDecline(s, now, c).Done? && k in s.sessions && s.sessions[k].envelopeId != c.envelopeId
    ensures var n := StepDecline(s, now, c).store; k in n.sessions && n.sessions[k] == s.sessions[k]
  {
  }

  lemma VoidElsewhere(s: Store, now: int, c: Command, k: Id)
    requires c.VoidEnvelope? && StepVoid(s, now, c).Done? && k in s.sessions && s.sessions[k].envelopeId != c.envelopeId
    ensures var n := StepVoid(s, now, c).store; k in n.sessions && n.sessions[k] == s.sessions[k]
  {
  }

  lemma SessionStays(s: Store, now: int, c: Command, k: Id)
    requires Step(s, now, c).Done? && k in s.sessions && !ActsOn(c, s.sessions[k].envelopeId)
    ensures k in After(s, now, c).sessions && After(s, now, c).sessions[k] == s.sessions[k]
  {
    match c
    case IssueSession(_, _, _, _, _, _) => IssueElsewhere(s, now, c, k);
    case Complete(_, _, _, _, _, _) => CompleteElsewhere(s, now, c, k);
    case Decline(_, _, _, _, _, _, _) => DeclineElsewhere(s, now, c, k);
    case VoidEnvelope(_, _, _, _) => VoidElsewhere(s, now, c, k);
    case _ => OthersLeaveSessions(s, now, c);
  }

  lemma JamRefusesSigners(s: Store, now: int, c: Command, id: Id, k: Id)
    requires JamsAt(s, id, k) && SessionsOk(s, id) && (c.Complete? || c.Decline?) && c.envelopeId == id
    ensures Step(s, now, c).Refused?
  {
    forall j | j in s.sessions && OpenFor(s.sessions[j], id, c.signerId)
      ensures !SoleHolder(s.sessions, s.sessions[j].token, j) {
      assert OpenIn(s.sessions[j], id) && OpenIn(s.sessions[k], id);
    }
    assert SessionFor(s, id, c.signerId, c.token, now).None?;
  }

  lemma IssueIsInTime(s: Store, now: int, c: Command)
    requires c.IssueSession? && StepIssue(s, now, c).Done?
    ensures c.envelopeId in s.envelopes && now < c.expiresAt <= s.envelopes[c.envelopeId].expiresAt
  {
  }

  lemma OpenIsExpired(s: Store, n: Store, id: Id, signer: Signer, now: int, j: Id, session: Session, k: Id)
    requires Issues(s, n, id, signer, now, j, session) && RouteOk(s.envelopes[id]) && Progress(s.envelopes[id])
    requires SessionsOk(s, id) && k in s.sessions && OpenIn(s.sessions[k], id)
    ensures s.sessions[k].expiresAt <= now
  {
    var e := s.envelopes[id];
    TurnIsNext(e, signer);
    assert SessionOk(e, s.sessions[k]);
    var other :| other in e.signers && other.id == s.sessions[k].signerId && other.order == |e.completed| + 1;
    SameSigner(e, other, signer);
  }

  lemma JamRefusesIssue(s: Store, now: int, c: Command, id: Id, k: Id)
    requires JamsAt(s, id, k) && EnvelopeOk(s, id) && c.IssueSession? && c.envelopeId == id
    ensures Step(s, now, c).Refused?
  {
    if Step(s, now, c).Done? {
      IssueIsInTime(s, now, c);
      var signer, session := IssueMeans(s, now, c);
      OpenIsExpired(s, After(s, now, c), id, signer, now, c.sessionId, session, k);
      assert false;
    }
  }

  lemma VoidVoids(s: Store, now: int, c: Command)
    requires c.VoidEnvelope? && StepVoid(s, now, c).Done?
    ensures c.envelopeId in StepVoid(s, now, c).store.envelopes
    ensures StepVoid(s, now, c).store.envelopes[c.envelopeId].state.Voided?
  {
  }

  lemma OldJams(s: Store, n: Store, id: Id, k: Id)
    requires JamsAt(s, id, k) && OldSessions(s, n) && Preserves(s, n) && n.sessions[k] == s.sessions[k]
    ensures JamsAt(n, id, k)
  {
    var other :| other in s.sessions && s.sessions[other].token == s.sessions[k].token && other != k;
    assert SameTicket(s.sessions[other], n.sessions[other]);
    assert SameBinding(s.envelopes[id], n.envelopes[id]);
  }

  lemma OpensOldSessions(s: Store, now: int, c: Command)
    requires Step(s, now, c).Done?
    ensures OldSessions(s, After(s, now, c))
  {
    if c.IssueSession? { IssueOpensOne(s, now, c); } else { OthersOpenNone(s, now, c); }
  }

  ghost predicate Voided(s: Store, id: Id) {
    id in s.envelopes && s.envelopes[id].state.Voided?
  }

  lemma JamVoids(s: Store, now: int, c: Command)
    requires c.VoidEnvelope?
    ensures After(s, now, c) == s || Voided(After(s, now, c), c.envelopeId)
  {
    if StepVoid(s, now, c).Done? { VoidVoids(s, now, c); }
  }

  lemma JamRefuses(s: Store, now: int, c: Command, id: Id, k: Id)
    requires JamsAt(s, id, k) && EnvelopeOk(s, id) && ActsOn(c, id) && !c.VoidEnvelope?
    ensures Step(s, now, c).Refused?
  {
    if c.IssueSession? { JamRefusesIssue(s, now, c, id, k); } else { JamRefusesSigners(s, now, c, id, k); }
  }

  lemma JamStays(s: Store, now: int, c: Command, id: Id, k: Id)
    requires Inv(s) && JamsAt(s, id, k) && !ActsOn(c, id) && Step(s, now, c).Done?
    ensures JamsAt(After(s, now, c), id, k)
  {
    SessionStays(s, now, c, k);
    OpensOldSessions(s, now, c);
    StepPreserves(s, now, c);
    OldJams(s, After(s, now, c), id, k);
  }

  lemma JamStep(s: Store, now: int, c: Command, id: Id, k: Id)
    requires Inv(s) && JamsAt(s, id, k)
    ensures JamsAt(After(s, now, c), id, k) || Voided(After(s, now, c), id)
  {
    assert EnvelopeOk(s, id);
    if c.VoidEnvelope? && c.envelopeId == id {
      JamVoids(s, now, c);
    } else if ActsOn(c, id) {
      JamRefuses(s, now, c, id, k);
    } else if Step(s, now, c).Done? {
      JamStays(s, now, c, id, k);
    }
  }

  lemma JamNext(s: Store, call: Call, id: Id, k: Id)
    requires Inv(s) && JamsAt(s, id, k)
    ensures JamsAt(Next(s, call), id, k) || Voided(Next(s, call), id)
  {
    JamStep(s, call.now, call.command, id, k);
    NextIs(s, call);
  }

  lemma JamIsActive(s: Store, id: Id, k: Id)
    requires Inv(s) && JamsAt(s, id, k)
    ensures !s.envelopes[id].state.Completed?
  {
    assert EnvelopeOk(s, id) && SessionOk(s.envelopes[id], s.sessions[k]);
  }

  lemma {:induction false} JamForever(s: Store, calls: seq<Call>, id: Id, k: Id)
    requires Inv(s) && JamsAt(s, id, k)
    ensures !EndsCompleted(s, calls, id)
    decreases |calls|
  {
    if calls == [] {
      JamIsActive(s, id, k);
    } else {
      var n := Next(s, calls[0]);
      JamNext(s, calls[0], id, k);
      NextKeepsInv(s, calls[0]);
      if JamsAt(n, id, k) { JamForever(n, calls[1..], id, k); } else { TerminalStays(n, calls[1..], id); }
    }
  }

  // ----------------------------------------------------------- records only grow

  ghost predicate MoreRecords(s: Store, n: Store) {
    && s.heads.Keys <= n.heads.Keys && s.events.Keys <= n.events.Keys && s.certificates.Keys <= n.certificates.Keys
    && |s.facts| <= |n.facts| && s.others <= n.others
  }

  lemma IssueFiles(s: Store, now: int, c: Command)
    requires c.IssueSession? && StepIssue(s, now, c).Done?
    ensures MoreRecords(s, StepIssue(s, now, c).store)
  {
  }

  lemma CompleteFiles(s: Store, now: int, c: Command)
    requires c.Complete? && StepComplete(s, now, c).Done?
    ensures MoreRecords(s, StepComplete(s, now, c).store)
  {
  }

  lemma DeclineFiles(s: Store, now: int, c: Command)
    requires c.Decline? && StepDecline(s, now, c).Done?
    ensures MoreRecords(s, StepDecline(s, now, c).store)
  {
  }

  lemma ExportFiles(s: Store, c: Command)
    requires c.Export? && StepExport(s, c).Done?
    ensures MoreRecords(s, StepExport(s, c).store)
  {
  }

  lemma StepFiles(s: Store, now: int, c: Command)
    requires Step(s, now, c).Done?
    ensures MoreRecords(s, After(s, now, c))
  {
    match c
    case IssueSession(_, _, _, _, _, _) => IssueFiles(s, now, c);
    case Complete(_, _, _, _, _, _) => CompleteFiles(s, now, c);
    case Decline(_, _, _, _, _, _, _) => DeclineFiles(s, now, c);
    case Export(_, _, _, _) => ExportFiles(s, c);
    case _ =>
  }

  lemma SubsetSize<A, B>(m: map<A, B>, n: map<A, B>)
    requires m.Keys <= n.Keys
    ensures |m| <= |n|
  {
    assert |m.Keys| + |n.Keys - m.Keys| == |n.Keys|;
  }

  lemma PreservedSizes(s: Store, n: Store)
    requires Preserves(s, n)
    ensures |s.templates| <= |n.templates| && |s.documents| <= |n.documents| && |s.envelopes| <= |n.envelopes|
  {
    SubsetSize(s.templates, n.templates);
    SubsetSize(s.documents, n.documents);
    SubsetSize(s.envelopes, n.envelopes);
  }

  lemma FiledSizes(s: Store, n: Store)
    requires MoreRecords(s, n)
    ensures |s.heads| <= |n.heads| && |s.events| <= |n.events| && |s.certificates| <= |n.certificates|
  {
    SubsetSize(s.heads, n.heads);
    SubsetSize(s.events, n.events);
    SubsetSize(s.certificates, n.certificates);
  }

  lemma SizeGrows(s: Store, call: Call)
    ensures Next(s, call).Size() >= s.Size()
  {
    if Step(s, call.now, call.command).Done? {
      var n := After(s, call.now, call.command);
      StepFiles(s, call.now, call.command);
      FiledSizes(s, n);
      StepPreserves(s, call.now, call.command);
      PreservedSizes(s, n);
      OpensOldSessions(s, call.now, call.command);
      SubsetSize(s.sessions, n.sessions);
      NextWhenDone(s, call);
    }
  }

  lemma {:induction false} SizesGrow(s: Store, calls: seq<Call>)
    ensures Run(s, calls).Size() >= s.Size()
    decreases |calls|
  {
    if calls != [] {
      SizeGrows(s, calls[0]);
      SizesGrow(Next(s, calls[0]), calls[1..]);
    }
  }

  // ------------------------------------------------------------ runs under a quota

  lemma RefusedTries(cap: nat, s: Store, call: Call)
    ensures Step(s, call.now, call.command).Refused? ==> Try(cap, s, call) == Next(s, call) == s
    ensures Step(s, call.now, call.command).Done? && Next(s, call).Size() <= cap ==> Try(cap, s, call) == Next(s, call)
  {
  }

  /** A run whose last store fits the quota was never refused by it. */
  lemma {:induction false} RunFits(cap: nat, s: Store, calls: seq<Call>)
    requires Run(s, calls).Size() <= cap
    ensures TryAll(cap, s, calls) == Run(s, calls)
    decreases |calls|
  {
    if calls != [] {
      var n := Next(s, calls[0]);
      SizesGrow(n, calls[1..]);
      RefusedTries(cap, s, calls[0]);
      RunFits(cap, n, calls[1..]);
    }
  }

  lemma FromFirst(call: Call, rest: seq<Call>, now: int)
    requires call.now >= now && From(rest, now)
    ensures From([call] + rest, now)
  {
  }

  /** Under a quota, the calls that took effect are a run. */
  lemma {:induction false} TryAllIsRun(cap: nat, s: Store, calls: seq<Call>, now: int) returns (sub: seq<Call>)
    requires From(calls, now)
    ensures From(sub, now) && TryAll(cap, s, calls) == Run(s, sub)
    decreases |calls|
  {
    if calls == [] {
      sub := [];
    } else {
      LaterCalls(calls, now);
      var rest := TryAllIsRun(cap, Try(cap, s, calls[0]), calls[1..], now);
      if Commits(cap, s, calls[0]) {
        RunFirst(s, calls[0], rest);
        FromFirst(calls[0], rest, now);
        sub := [calls[0]] + rest;
      } else {
        sub := rest;
      }
    }
  }

  // -------------------------------------------------------------- too few records

  /** Signers are left, and the records of what remains to be done exceed the quota. */
  ghost predicate Over(cap: nat, s: Store, id: Id, now: int) {
    id in s.envelopes && Remaining(s.envelopes[id]) >= 1 && !RoomForRecords(cap, s, id, now)
  }

  lemma SameRecords(s: Store, n: Store, id: Id)
    requires id in s.envelopes && id in n.envelopes && SameRoute(s.envelopes[id], n.envelopes[id])
    requires n.envelopes[id].completed == s.envelopes[id].completed
    ensures FactsLeft(n.envelopes[id]) == FactsLeft(s.envelopes[id])
    ensures Remaining(n.envelopes[id]) == Remaining(s.envelopes[id])
  {
    SameRouteFacts(s.envelopes[id], n.envelopes[id], |s.envelopes[id].completed|);
  }

  lemma OverOtherwise(cap: nat, s: Store, call: Call, id: Id, now: int)
    requires Over(cap, s, id, now) && !call.command.Complete? && Step(s, call.now, call.command).Done?
    ensures Over(cap, Next(s, call), id, now)
  {
    var n := Next(s, call);
    RemainingStays(s, call, id);
    SameRecords(s, n, id);
    if call.command.IssueSession? {
      IssueOpens(s, call);
      IssueSize(s, call);
      OneServesMore(s, n, id, now, call.command.sessionId);
    } else {
      OtherOpens(s, call);
      SizeGrows(s, call);
      NoneServesMore(s, n, id, now);
    }
  }

  lemma OverElsewhere(cap: nat, s: Store, call: Call, id: Id, now: int)
    requires Over(cap, s, id, now) && call.command.Complete? && Step(s, call.now, call.command).Done?
    requires call.command.envelopeId != id
    ensures Over(cap, Next(s, call), id, now)
  {
    CompletedElsewhere(s, call, id);
    SizeGrows(s, call);
    NoneServesMore(s, Next(s, call), id, now);
  }

  /** A completion takes its facts and its receipt from what is left. */
  lemma WentOnRecords(s: Store, n: Store, id: Id, added: nat)
    requires id in s.envelopes && WentOn(s, n, id, added) && NextFacts(s.envelopes[id]) <= added
    ensures Remaining(n.envelopes[id]) == Remaining(s.envelopes[id]) - 1
    ensures Remaining(n.envelopes[id]) >= 1 ==> FactsLeft(n.envelopes[id]) + added >= FactsLeft(s.envelopes[id])
    ensures Remaining(n.envelopes[id]) == 0 ==> added >= FactsLeft(s.envelopes[id])
  {
    SameFactsBeforeLast(s.envelopes[id], n.envelopes[id], |s.envelopes[id].completed| + 1);
  }

  lemma OverHere(cap: nat, s: Store, call: Call, id: Id, now: int)
    requires Inv(s) && Over(cap, s, id, now) && call.now >= now && call.command.Complete? && Commits(cap, s, call)
    requires call.command.envelopeId == id
    ensures Over(cap, Next(s, call), id, now)
  {
    CompletedHere(s, call, id, now);
    CompletionAddsEnough(s, call);
    CompletionSize(s, call);
    WentOnRecords(s, Next(s, call), id, |call.command.inputs|);
  }

  lemma OverTry(cap: nat, s: Store, call: Call, id: Id, now: int)
    requires Inv(s) && Over(cap, s, id, now) && call.now >= now
    ensures Over(cap, Try(cap, s, call), id, now)
  {
    if Commits(cap, s, call) {
      if !call.command.Complete? {
        OverOtherwise(cap, s, call, id, now);
      } else if call.command.envelopeId == id {
        OverHere(cap, s, call, id, now);
      } else {
        OverElsewhere(cap, s, call, id, now);
      }
    }
  }

  lemma OverIsNotCompleted(cap: nat, s: Store, id: Id, now: int)
    requires Inv(s) && Over(cap, s, id, now)
    ensures !s.envelopes[id].state.Completed?
  {
    assert EnvelopeOk(s, id);
  }

  lemma {:induction false} OverForever(cap: nat, s: Store, calls: seq<Call>, id: Id, now: int)
    requires Inv(s) && Over(cap, s, id, now) && From(calls, now)
    ensures id in TryAll(cap, s, calls).envelopes && !TryAll(cap, s, calls).envelopes[id].state.Completed?
    decreases |calls|
  {
    if calls == [] {
      OverIsNotCompleted(cap, s, id, now);
    } else {
      LaterCalls(calls, now);
      OverTry(cap, s, calls[0], id, now);
      if Commits(cap, s, calls[0]) { NextKeepsInv(s, calls[0]); }
      OverForever(cap, Try(cap, s, calls[0]), calls[1..], id, now);
    }
  }

  // -------------------------------------------------------------------- enough room

  lemma ReadyLater(s: Store, id: Id, now: int, later: int)
    requires Signable(s, id, now) && now <= later < s.envelopes[id].expiresAt
    ensures Signable(s, id, later)
  {
  }

  lemma FromEarlier(calls: seq<Call>, now: int, later: int)
    requires From(calls, later) && now <= later
    ensures From(calls, now)
  {
  }

  lemma FinishServed(cap: nat, s: Store, id: Id, now: int, k: Id) returns (calls: seq<Call>)
    requires Inv(s) && Timed(s) && Signable(s, id, now) && Serves(s, id, now, k)
    requires RoomForSessions(s, id, now) && RoomForRecords(cap, s, id, now)
    ensures From(calls, now) && EndsCompleted(s, calls, id) && Run(s, calls).Size() <= cap
  {
    assert TimedAt(s, k);
    var issuedAt := s.sessions[k].issuedAt;
    var later := if issuedAt > now then issuedAt else now;
    ReadyLater(s, id, now, later);
    calls := FinishFrom(s, id, later, k);
    FromEarlier(calls, now, later);
  }

  lemma NothingElseLive(s: Store, id: Id, now: int, k: Id)
    requires Inv(s) && id in s.envelopes && k in s.sessions && OpenIn(s.sessions[k], id)
    requires s.sessions[k].expiresAt <= now
    ensures NothingLive(s, id, now)
  {
    assert EnvelopeOk(s, id);
  }

  lemma FinishUnserved(cap: nat, s: Store, id: Id, now: int) returns (calls: seq<Call>)
    requires Inv(s) && Signable(s, id, now) && !Served(s, id, now) && !Jammed(s, id, now)
    requires RoomForSessions(s, id, now) && RoomForRecords(cap, s, id, now)
    ensures From(calls, now) && EndsCompleted(s, calls, id) && Run(s, calls).Size() <= cap
  {
    SomeRemain(s, id);
    if k :| k in s.sessions && Live(s.sessions[k], id, now) {
      assert !Serves(s, id, now, k) && !JamsAt(s, id, k);
      var later := s.sessions[k].expiresAt;
      NothingElseLive(s, id, later, k);
      ReadyLater(s, id, now, later);
      calls := IssueAndFinish(s, id, later);
      FromEarlier(calls, now, later);
    } else {
      calls := IssueAndFinish(s, id, now);
    }
  }

  // -------------------------------------------------------------------- main result

  ghost predicate EndsCompletedWithin(cap: nat, s: Store, calls: seq<Call>, id: Id) {
    id in TryAll(cap, s, calls).envelopes && TryAll(cap, s, calls).envelopes[id].state.Completed?
  }

  ghost predicate CanBeCompleted(cap: nat, s: Store, id: Id, now: int) {
    exists calls :: From(calls, now) && EndsCompletedWithin(cap, s, calls, id)
  }

  lemma CompletedHadRecords(cap: nat, s: Store, calls: seq<Call>, id: Id, now: int)
    requires Inv(s) && id in s.envelopes && Remaining(s.envelopes[id]) >= 1
    requires From(calls, now) && EndsCompletedWithin(cap, s, calls, id)
    ensures RoomForRecords(cap, s, id, now)
  {
    if Over(cap, s, id, now) { OverForever(cap, s, calls, id, now); }
  }

  lemma CompletedWasNotJammed(s: Store, calls: seq<Call>, id: Id, now: int)
    requires Inv(s) && EndsCompleted(s, calls, id)
    ensures !Jammed(s, id, now)
  {
    if k :| JamsAt(s, id, k) && s.sessions[k].expiresAt > now { JamForever(s, calls, id, k); }
  }

  lemma CompletableThen(cap: nat, s: Store, calls: seq<Call>, id: Id, now: int)
    requires Inv(s) && Held(s) && id in s.envelopes && Remaining(s.envelopes[id]) >= 1
    requires From(calls, now) && EndsCompletedWithin(cap, s, calls, id)
    ensures EveryRoleHasAField(s.envelopes[id]) && !Jammed(s, id, now)
    ensures RoomForSessions(s, id, now) && RoomForFacts(s, id) && RoomForRecords(cap, s, id, now)
  {
    CompletedHadRecords(cap, s, calls, id, now);
    var sub := TryAllIsRun(cap, s, calls, now);
    CompletedHadFields(s, sub, id);
    CompletedHadRoom(s, sub, id, now);
    CompletedWasNotJammed(s, sub, id, now);
  }

  lemma CompletableIf(cap: nat, s: Store, id: Id, now: int)
    requires Inv(s) && Timed(s) && Signable(s, id, now) && !Jammed(s, id, now)
    requires RoomForSessions(s, id, now) && RoomForRecords(cap, s, id, now)
    ensures CanBeCompleted(cap, s, id, now)
  {
    var calls;
    if k :| Serves(s, id, now, k) {
      calls := FinishServed(cap, s, id, now, k);
    } else {
      calls := FinishUnserved(cap, s, id, now);
    }
    RunFits(cap, s, calls);
    assert EndsCompletedWithin(cap, s, calls, id);
  }

  /** Main result: under a quota, an active, unexpired envelope can still be completed if and only if every signer's
      role has a field, no open session with another's token lasts until the envelope expires, the sessions yet to be
      issued fit the scan limit, so do the facts that must be recorded before the last signer, and the records of all
      that remains to be done fit the quota. */
  lemma CompletableIff(cap: nat, s: Store, id: Id, now: int)
    requires Inv(s) && Held(s) && Timed(s)
    requires id in s.envelopes && s.envelopes[id].Active() && now < s.envelopes[id].expiresAt
    ensures CanBeCompleted(cap, s, id, now) <==>
      && EveryRoleHasAField(s.envelopes[id]) && !Jammed(s, id, now)
      && RoomForSessions(s, id, now) && RoomForFacts(s, id) && RoomForRecords(cap, s, id, now)
  {
    SomeRemain(s, id);
    if calls :| From(calls, now) && EndsCompletedWithin(cap, s, calls, id) {
      CompletableThen(cap, s, calls, id, now);
    }
    if EveryRoleHasAField(s.envelopes[id]) && !Jammed(s, id, now) && RoomForSessions(s, id, now)
      && RoomForFacts(s, id) && RoomForRecords(cap, s, id, now) {
      CompletableIf(cap, s, id, now);
    }
  }
}
