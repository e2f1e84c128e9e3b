/** Which envelopes no run can complete, and how a workspace comes to have them. */
module EsignLimits {
  import opened Esign
  import opened EsignRuns
  import opened EsignProgress
  import opened EsignCompletion

  // ------------------------------------------------- what a command does to the sessions

  ghost predicate SameTicket(a: Session, b: Session) {
    b.envelopeId == a.envelopeId && b.token == a.token && b.issuedAt == a.issuedAt && b.expiresAt == a.expiresAt
  }

  /** Sessions keep their tickets, and none is opened again. */
  ghost predicate OldSessions(s: Store, n: Store) {
    && s.sessions.Keys <= n.sessions.Keys
    && (forall k :: k in s.sessions ==> SameTicket(s.sessions[k], n.sessions[k]))
    && forall k :: k in s.sessions && n.sessions[k].state.Open? ==> n.sessions[k] == s.sessions[k]
  }

  ghost predicate NoneOpened(s: Store, n: Store) {
    n.sessions.Keys == s.sessions.Keys && OldSessions(s, n)
  }

  ghost predicate OneOpened(s: Store, n: Store, k: Id) {
    k !in s.sessions && n.sessions.Keys == s.sessions.Keys + {k} && OldSessions(s, n) && !Full(|s.sessions|)
  }

  lemma IssuedOpensOne(s: Store, n: Store, id: Id, signer: Signer, now: int, k: Id, session: Session)
    requires Issues(s, n, id, signer, now, k, session) && !Full(|s.sessions|)
    ensures OneOpened(s, n, k)
  {
  }

  lemma IssueHasRoom(s: Store, now: int, c: Command)
    requires c.IssueSession? && StepIssue(s, now, c).Done?
    ensures !Full(|s.sessions|)
  {
  }

  lemma IssueOpensOne(s: Store, now: int, c: Command)
    requires c.IssueSession? && Step(s, now, c).Done?
    ensures OneOpened(s, After(s, now, c), c.sessionId)
  {
    var signer, session := IssueMeans(s, now, c);
    IssueHasRoom(s, now, c);
    IssuedOpensOne(s, After(s, now, c), c.envelopeId, signer, now, c.sessionId, session);
  }

  lemma CompleteOpensNone(s: Store, now: int, c: Command)
    requires c.Complete? && StepComplete(s, now, c).Done?
    ensures NoneOpened(s, StepComplete(s, now, c).store)
  {
  }

  lemma DeclineOpensNone(s: Store, now: int, c: Command)
    requires c.Decline? && StepDecline(s, now, c).Done?
    ensures NoneOpened(s, StepDecline(s, now, c).store)
  {
  }

  lemma VoidOpensNone(s: Store, now: int, c: Command)
    requires c.VoidEnvelope? && StepVoid(s, now, c).Done?
    ensures NoneOpened(s, StepVoid(s, now, c).store)
  {
  }

  lemma OthersLeaveSessions(s: Store, now: int, c: Command)
    requires !c.IssueSession? && !c.Complete? && !c.Decline? && !c.VoidEnvelope? && Step(s, now, c).Done?
    ensures After(s, now, c).sessions == s.sessions
  {
  }

  lemma OthersOpenNone(s: Store, now: int, c: Command)
    requires !c.IssueSession? && Step(s, now, c).Done?
    ensures NoneOpened(s, After(s, now, c))
  {
    match c
    case Complete(_, _, _, _, _, _) => CompleteOpensNone(s, now, c);
    case Decline(_, _, _, _, _, _, _) => DeclineOpensNone(s, now, c);
    case VoidEnvelope(_, _, _, _) => VoidOpensNone(s, now, c);
    case _ => OthersLeaveSessions(s, now, c);
  }

  // --------------------------------------------------------- signers and fields stay

  ghost predicate SameRoute(e: Envelope, n: Envelope) {
    n.signers == e.signers && n.fields == e.fields
  }

  lemma CompleteOnlyOne(s: Store, now: int, c: Command, id: Id)
    requires c.Complete? && StepComplete(s, now, c).Done? && id in s.envelopes
    ensures var n := StepComplete(s, now, c).store;
      && id in n.envelopes && SameRoute(s.envelopes[id], n.envelopes[id])
      && (id != c.envelopeId ==> n.envelopes[id] == s.envelopes[id])
  {
  }

  lemma RouteStays(s: Store, call: Call, id: Id)
    requires id in s.envelopes
    ensures id in Next(s, call).envelopes && SameRoute(s.envelopes[id], Next(s, call).envelopes[id])
  {
    if Step(s, call.now, call.command).Done? {
      NextWhenDone(s, call);
      if call.command.Complete? {
        CompleteOnlyOne(s, call.now, call.command, id);
      } else {
        OthersKeepCompletions(s, call.now, call.command);
        assert id in After(s, call.now, call.command).envelopes;
      }
    }
  }

  lemma {:induction false} RoutesStay(s: Store, calls: seq<Call>, id: Id)
    requires id in s.envelopes
    ensures id in Run(s, calls).envelopes && SameRoute(s.envelopes[id], Run(s, calls).envelopes[id])
    decreases |calls|
  {
    if calls != [] {
      RouteStays(s, calls[0], id);
      RoutesStay(Next(s, calls[0]), calls[1..], id);
    }
  }

  // ---------------------------------------------------------------- what is needed

  /** Session `k` is or will be of use: it is open, unexpired, and its token is no other's. */
  ghost predicate Serves(s: Store, id: Id, now: int, k: Id) {
    k in s.sessions && Live(s.sessions[k], id, now) && SoleHolder(s.sessions, s.sessions[k].token, k)
  }

  ghost predicate Served(s: Store, id: Id, now: int) {
    exists k :: Serves(s, id, now, k)
  }

  /** How many sessions must still be issued. */
  ghost function Needed(s: Store, id: Id, now: int): int
    requires id in s.envelopes
  {
    if Served(s, id, now) then Remaining(s.envelopes[id]) - 1 else Remaining(s.envelopes[id])
  }

  ghost predicate RoomForSessions(s: Store, id: Id, now: int)
    requires id in s.envelopes
  {
    Needed(s, id, now) >= 1 ==> |s.sessions| + Needed(s, id, now) <= SCAN_LIMIT + 1
  }

  ghost predicate RoomForRecords(cap: nat, s: Store, id: Id, now: int)
    requires id in s.envelopes
  {
    s.Size() + Records(s.envelopes[id], Needed(s, id, now)) <= cap
  }

  lemma NoneServesMore(s: Store, n: Store, id: Id, now: int)
    requires NoneOpened(s, n) && id in s.envelopes && id in n.envelopes
    requires Remaining(n.envelopes[id]) == Remaining(s.envelopes[id])
    ensures Needed(n, id, now) >= Needed(s, id, now) && |n.sessions| == |s.sessions|
  {
    assert |n.sessions.Keys| == |s.sessions.Keys|;
    if k :| Serves(n, id, now, k) {
      assert forall other :: other in s.sessions && s.sessions[other].token == s.sessions[k].token ==>
          n.sessions[other].token == n.sessions[k].token;
      assert Serves(s, id, now, k);
    }
  }

  lemma OneServesMore(s: Store, n: Store, id: Id, now: int, k: Id)
    requires OneOpened(s, n, k) && id in s.envelopes && id in n.envelopes
    requires Remaining(n.envelopes[id]) == Remaining(s.envelopes[id])
    ensures Needed(n, id, now) >= Needed(s, id, now) - 1 && |n.sessions| == |s.sessions| + 1
  {
    assert |n.sessions.Keys| == |s.sessions.Keys| + 1;
  }

  lemma CompletionServes(s: Store, call: Call, t: int)
    requires call.command.Complete? && Step(s, call.now, call.command).Done? && t <= call.now
    ensures Served(s, call.command.envelopeId, t)
  {
    var c := call.command;
    var k := SessionFor(s, c.envelopeId, c.signerId, c.token, call.now).value;
    assert Serves(s, c.envelopeId, t, k);
  }

  /** One signer less, and none serves. */
  lemma NeededAfterCompletion(s: Store, n: Store, id: Id, now: int, added: nat)
    requires id in s.envelopes && WentOn(s, n, id, added) && Served(s, id, now)
    ensures Needed(n, id, now) == Needed(s, id, now) == Remaining(n.envelopes[id]) && |n.sessions| == |s.sessions|
  {
    assert |n.sessions.Keys| == |s.sessions.Keys|;
  }

  // ------------------------------------------------------------ too few sessions left

  ghost predicate Short(s: Store, id: Id, now: int) {
    id in s.envelopes && !RoomForSessions(s, id, now)
  }

  lemma ShortNext(s: Store, call: Call, id: Id, now: int)
    requires Inv(s) && Short(s, id, now) && call.now >= now
    ensures Short(Next(s, call), id, now)
  {
    if Step(s, call.now, call.command).Done? {
      if call.command.Complete? { ShortCompletes(s, call, id, now); } else { ShortOtherwise(s, call, id, now); }
    }
  }

  lemma ShortOtherwise(s: Store, call: Call, id: Id, now: int)
    requires Short(s, id, now) && !call.command.Complete? && Step(s, call.now, call.command).Done?
    ensures Short(Next(s, call), id, now)
  {
    RemainingStays(s, call, id);
    if call.command.IssueSession? {
      IssueOpens(s, call);
      OneServesMore(s, Next(s, call), id, now, call.command.sessionId);
    } else {
      OtherOpens(s, call);
      NoneServesMore(s, Next(s, call), id, now);
    }
  }

  lemma RemainingStays(s: Store, call: Call, id: Id)
    requires id in s.envelopes && !call.command.Complete? && Step(s, call.now, call.command).Done?
    ensures id in Next(s, call).envelopes && SameRoute(s.envelopes[id], Next(s, call).envelopes[id])
    ensures Next(s, call).envelopes[id].completed == s.envelopes[id].completed && Next(s, call).facts == s.facts
  {
    RouteStays(s, call, id);
    OthersKeepCompletions(s, call.now, call.command);
    NextWhenDone(s, call);
  }

  lemma IssueOpens(s: Store, call: Call)
    requires call.command.IssueSession? && Step(s, call.now, call.command).Done?
    ensures OneOpened(s, Next(s, call), call.command.sessionId)
  {
    IssueOpensOne(s, call.now, call.command);
    NextWhenDone(s, call);
  }

  lemma OtherOpens(s: Store, call: Call)
    requires !call.command.IssueSession? && Step(s, call.now, call.command).Done?
    ensures NoneOpened(s, Next(s, call))
  {
    OthersOpenNone(s, call.now, call.command);
    NextWhenDone(s, call);
  }

  lemma ShortCompletes(s: Store, call: Call, id: Id, now: int)
    requires Inv(s) && Short(s, id, now) && call.now >= now && call.command.Complete?
    requires Step(s, call.now, call.command).Done?
    ensures Short(Next(s, call), id, now)
  {
    if call.command.envelopeId == id {
      CompletedHere(s, call, id, now);
    } else {
      CompletedElsewhere(s, call, id);
      NoneServesMore(s, Next(s, call), id, now);
    }
  }

  lemma CompletedHere(s: Store, call: Call, id: Id, now: int)
    requires Inv(s) && call.now >= now && call.command.Complete? && Step(s, call.now, call.command).Done?
    requires call.command.envelopeId == id
    ensures id in s.envelopes && WentOn(s, Next(s, call), id, |call.command.inputs|)
    ensures var n := Next(s, call);
      Needed(n, id, now) == Needed(s, id, now) == Remaining(n.envelopes[id]) && |n.sessions| == |s.sessions|
  {
    CompletionServes(s, call, now);
    CompletionDone(s, call);
    NeededAfterCompletion(s, Next(s, call), id, now, |call.command.inputs|);
  }

  lemma CompletedElsewhere(s: Store, call: Call, id: Id)
    requires call.command.Complete? && Step(s, call.now, call.command).Done? && id in s.envelopes
    requires call.command.envelopeId != id
    ensures id in Next(s, call).envelopes && Next(s, call).envelopes[id] == s.envelopes[id]
    ensures NoneOpened(s, Next(s, call))
  {
    CompleteOnlyOne(s, call.now, call.command, id);
    CompleteOpensNone(s, call.now, call.command);
    NextWhenDone(s, call);
  }

  lemma LaterCalls(calls: seq<Call>, now: int)
    requires From(calls, now) && calls != []
    ensures calls[0].now >= now && From(calls[1..], now)
  {
  }

  lemma {:induction false} RunsStayShort(s: Store, calls: seq<Call>, id: Id, now: int)
    requires Inv(s) && Short(s, id, now) && From(calls, now)
    ensures Short(Run(s, calls), id, now)
    decreases |calls|
  {
    if calls != [] {
      var n := Next(s, calls[0]);
      LaterCalls(calls, now);
      ShortNext(s, calls[0], id, now);
      NextKeepsInv(s, calls[0]);
      RunsStayShort(n, calls[1..], id, now);
    }
  }

  lemma ShortIsNotCompleted(s: Store, id: Id, now: int)
    requires Inv(s) && Short(s, id, now)
    ensures !s.envelopes[id].state.Completed?
  {
    assert EnvelopeOk(s, id);
  }

  // --------------------------------------------------------------- too many facts

  /** Signers are left, and the facts they must record do not fit. */
  ghost predicate Crowded(s: Store, id: Id) {
    id in s.envelopes && Remaining(s.envelopes[id]) >= 1 && !RoomForFacts(s, id)
  }

  lemma CompletionHasRoom(s: Store, now: int, c: Command)
    requires c.Complete? && StepComplete(s, now, c).Done?
    ensures !Full(|s.facts|)
  {
  }

  lemma CompletionAddsEnough(s: Store, call: Call)
    requires Inv(s) && call.command.Complete? && Step(s, call.now, call.command).Done?
    ensures call.command.envelopeId in s.envelopes
    ensures var e := s.envelopes[call.command.envelopeId];
      |LeastFields(e.fields, RoleAt(e.signers, |e.completed| + 1))| <= |call.command.inputs|
  {
    var c, id := call.command, call.command.envelopeId;
    var signer, sessionId, session := CompleteMeans(s, call.now, c);
    CompletionFound(s, call.now, c);
    OpenSessionIsNext(s, id, signer, sessionId);
    RoleOf(s.envelopes[id], signer);
    LeastIsLeast(s.envelopes[id].fields, signer.role, c.inputs, session.issuedAt, call.now);
  }

  lemma CrowdedAfterCompletion(s: Store, n: Store, id: Id, added: nat)
    requires Crowded(s, id) && !Full(|s.facts|) && WentOn(s, n, id, added)
    requires var e := s.envelopes[id]; |LeastFields(e.fields, RoleAt(e.signers, |e.completed| + 1))| <= added
    ensures Crowded(n, id)
  {
    SameFactsBeforeLast(s.envelopes[id], n.envelopes[id], |s.envelopes[id].completed| + 1);
  }

  lemma CrowdedOtherwise(s: Store, n: Store, id: Id)
    requires Crowded(s, id) && id in n.envelopes && |s.facts| <= |n.facts|
    requires SameRoute(s.envelopes[id], n.envelopes[id]) && n.envelopes[id].completed == s.envelopes[id].completed
    ensures Crowded(n, id)
  {
    SameRouteFacts(s.envelopes[id], n.envelopes[id], |s.envelopes[id].completed|);
  }

  lemma {:induction false} SameRouteFacts(e: Envelope, n: Envelope, done: nat)
    requires SameRoute(e, n)
    ensures FactsBeforeLast(n, done) == FactsBeforeLast(e, done)
    decreases |e.signers| - done
  {
    if done + 1 < |e.signers| { SameRouteFacts(e, n, done + 1); }
  }

  lemma CrowdedHere(s: Store, call: Call, id: Id)
    requires Inv(s) && Crowded(s, id) && call.command.Complete? && Step(s, call.now, call.command).Done?
    requires call.command.envelopeId == id
    ensures Crowded(Next(s, call), id)
  {
    CompletionHasRoom(s, call.now, call.command);
    CompletionAddsEnough(s, call);
    CompletionDone(s, call);
    CrowdedAfterCompletion(s, Next(s, call), id, |call.command.inputs|);
  }

  lemma CompleteAddsFacts(s: Store, call: Call)
    requires call.command.Complete? && Step(s, call.now, call.command).Done?
    ensures |s.facts| <= |Next(s, call).facts|
  {
    var signer, sessionId, session := CompleteMeans(s, call.now, call.command);
    NextWhenDone(s, call);
  }

  lemma CrowdedElsewhere(s: Store, call: Call, id: Id)
    requires Crowded(s, id) && call.command.Complete? && Step(s, call.now, call.command).Done?
    requires call.command.envelopeId != id
    ensures Crowded(Next(s, call), id)
  {
    CompletedElsewhere(s, call, id);
    CompleteAddsFacts(s, call);
    CrowdedOtherwise(s, Next(s, call), id);
  }

  lemma CrowdedNext(s: Store, call: Call, id: Id)
    requires Inv(s) && Crowded(s, id)
    ensures Crowded(Next(s, call), id)
  {
    if Step(s, call.now, call.command).Done? {
      if !call.command.Complete? {
        RemainingStays(s, call, id);
        CrowdedOtherwise(s, Next(s, call), id);
      } else if call.command.envelopeId == id {
        CrowdedHere(s, call, id);
      } else {
        CrowdedElsewhere(s, call, id);
      }
    }
  }

  lemma {:induction false} RunsStayCrowded(s: Store, calls: seq<Call>, id: Id)
    requires Inv(s) && Crowded(s, id)
    ensures Crowded(Run(s, calls), id)
    decreases |calls|
  {
    if calls != [] {
      CrowdedNext(s, calls[0], id);
      NextKeepsInv(s, calls[0]);
      RunsStayCrowded(Next(s, calls[0]), calls[1..], id);
    }
  }

  lemma CrowdedIsNotCompleted(s: Store, id: Id)
    requires Inv(s) && Crowded(s, id)
    ensures !s.envelopes[id].state.Completed?
  {
    assert EnvelopeOk(s, id);
  }

  lemma CompletedHasFields(s: Store, id: Id)
    requires Inv(s) && Held(s) && id in s.envelopes && s.envelopes[id].state.Completed?
    ensures EveryRoleHasAField(s.envelopes[id])
  {
    assert EnvelopeOk(s, id);
    CompletedIffAll(s.envelopes[id]);
  }

  lemma CompletedHadFields(s: Store, calls: seq<Call>, id: Id)
    requires Inv(s) && Held(s) && id in s.envelopes && EndsCompleted(s, calls, id)
    ensures EveryRoleHasAField(s.envelopes[id])
  {
    RunsKeepInv(s, calls);
    RunsKeepHeld(s, calls);
    CompletedHasFields(Run(s, calls), id);
    RoutesStay(s, calls, id);
    assert forall role :: HasField(Run(s, calls).envelopes[id], role) ==> HasField(s.envelopes[id], role);
  }

  lemma CompletedHadRoom(s: Store, calls: seq<Call>, id: Id, now: int)
    requires Inv(s) && id in s.envelopes && Remaining(s.envelopes[id]) >= 1
    requires From(calls, now) && EndsCompleted(s, calls, id)
    ensures RoomForSessions(s, id, now) && RoomForFacts(s, id)
  {
    RunsKeepInv(s, calls);
    if Short(s, id, now) {
      RunsStayShort(s, calls, id, now);
      ShortIsNotCompleted(Run(s, calls), id, now);
    }
    if Crowded(s, id) {
      RunsStayCrowded(s, calls, id);
      CrowdedIsNotCompleted(Run(s, calls), id);
    }
  }

  // ------------------------------------------------------------- the saturated store

  ghost predicate Stuck(s: Store, id: Id, now: int) {
    id in s.envelopes && s.envelopes[id].Active() && Full(|s.sessions|) && NothingLive(s, id, now)
  }

  lemma NoSignerActs(s: Store, now: int, c: Command, id: Id, t: int)
    requires NothingLive(s, id, t) && t <= now && (c.Complete? || c.Decline?) && c.envelopeId == id
    ensures Step(s, now, c).Refused?
  {
    forall k | k in s.sessions ensures !OpenFor(s.sessions[k], id, c.signerId) || s.sessions[k].expiresAt <= now {
      assert !Live(s.sessions[k], id, t);
    }
    assert SessionFor(s, id, c.signerId, c.token, now).None?;
  }

  lemma OthersLeaveAlone(s: Store, now: int, c: Command, id: Id)
    requires id in s.envelopes && s.envelopes[id].Active() && Full(|s.sessions|) && Step(s, now, c).Done?
    requires !c.Complete? && !c.Decline?
    ensures id in After(s, now, c).envelopes && After(s, now, c).envelopes[id] == s.envelopes[id]
  {
  }

  lemma SignersLeaveAlone(s: Store, now: int, c: Command, id: Id)
    requires id in s.envelopes && (c.Complete? || c.Decline?) && c.envelopeId != id && Step(s, now, c).Done?
    ensures id in After(s, now, c).envelopes && After(s, now, c).envelopes[id] == s.envelopes[id]
  {
  }

  lemma StuckStep(s: Store, now: int, c: Command, id: Id, t: int)
    requires Stuck(s, id, t) && t <= now
    ensures id in After(s, now, c).envelopes && After(s, now, c).envelopes[id] == s.envelopes[id]
  {
    if Step(s, now, c).Done? {
      if c.Complete? || c.Decline? {
        if c.envelopeId == id { NoSignerActs(s, now, c, id, t); } else { SignersLeaveAlone(s, now, c, id); }
      } else {
        OthersLeaveAlone(s, now, c, id);
      }
    }
  }

  lemma StuckNext(s: Store, call: Call, id: Id, now: int)
    requires Stuck(s, id, now) && call.now >= now
    ensures Stuck(Next(s, call), id, now) && Next(s, call).envelopes[id] == s.envelopes[id]
  {
    if Step(s, call.now, call.command).Done? {
      StuckStep(s, call.now, call.command, id, now);
      OthersOpenNone(s, call.now, call.command);
      NextWhenDone(s, call);
      assert |Next(s, call).sessions.Keys| == |s.sessions.Keys|;
    }
  }

  /** Main result: once the workspace has more sessions than a listing may return, an active envelope with no live
      session stays as it is for ever: it is neither completed nor declined, and it cannot even be voided. */
  lemma {:induction false} StuckForever(s: Store, calls: seq<Call>, id: Id, now: int)
    requires Stuck(s, id, now) && From(calls, now)
    ensures Stuck(Run(s, calls), id, now) && Run(s, calls).envelopes[id] == s.envelopes[id]
    decreases |calls|
  {
    if calls != [] {
      LaterCalls(calls, now);
      StuckNext(s, calls[0], id, now);
      StuckForever(Next(s, calls[0]), calls[1..], id, now);
    }
  }
}
