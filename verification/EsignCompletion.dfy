/** Which envelopes can still be completed, by whom and with how much room in the store. */
module EsignCompletion {
  import opened Sorting
  import opened Esign
  import opened EsignRuns
  import opened EsignProgress

  // --------------------------------------------------------------- fresh values

  ghost predicate Unissued(sessions: map<Id, Session>, token: Token) {
    forall k :: k in sessions ==> sessions[k].token != token
  }

  lemma FreshToken(sessions: map<Id, Session>) returns (token: Token)
    ensures Unissued(sessions, token)
  {
    var lengths := set k | k in sessions :: |sessions[k].token|;
    var n := Unused(lengths);
    token := seq(n, _ => 'x');
    forall k | k in sessions ensures sessions[k].token != token {
      assert |sessions[k].token| in lengths;
    }
  }

  // ------------------------------------------------------------ one session more

  ghost predicate Live(session: Session, id: Id, now: int) {
    OpenIn(session, id) && now < session.expiresAt
  }

  ghost predicate NothingLive(s: Store, id: Id, now: int) {
    forall k :: k in s.sessions ==> !Live(s.sessions[k], id, now)
  }

  /** The envelope's own terms, which no command changes. */
  ghost predicate SameTerms(e: Envelope, n: Envelope) {
    n.signers == e.signers && n.fields == e.fields && n.expiresAt == e.expiresAt
  }

  ghost predicate Issued(s: Store, n: Store, id: Id, now: int, expiresAt: int, token: Token, k: Id)
    requires id in s.envelopes
  {
    && id in n.envelopes && n.envelopes[id].Active() && SameTerms(s.envelopes[id], n.envelopes[id])
    && n.envelopes[id].completed == s.envelopes[id].completed && n.facts == s.facts
    && k !in s.sessions && n.sessions.Keys == s.sessions.Keys + {k}
    && OpenIn(n.sessions[k], id) && n.sessions[k].issuedAt == now && n.sessions[k].expiresAt == expiresAt
    && n.sessions[k].token == token
    && forall j :: j in s.sessions ==> n.sessions[j].token == s.sessions[j].token
  }

  ghost predicate OnlyOpen(n: Store, id: Id, k: Id) {
    forall j :: j in n.sessions && OpenIn(n.sessions[j], id) ==> j == k
  }

  lemma IssueEffect(s: Store, now: int, c: Command)
    requires c.IssueSession? && StepIssue(s, now, c).Done?
    ensures c.envelopeId in s.envelopes
    ensures Issued(s, StepIssue(s, now, c).store, c.envelopeId, now, c.expiresAt, c.token, c.sessionId)
  {
  }

  lemma IssuedOnlyOpen(s: Store, n: Store, id: Id, signer: Signer, now: int, k: Id, session: Session)
    requires Issues(s, n, id, signer, now, k, session) && RouteOk(s.envelopes[id]) && Progress(s.envelopes[id])
    requires SessionsOk(s, id)
    ensures OnlyOpen(n, id, k)
  {
    forall j | j in n.sessions && OpenIn(n.sessions[j], id) ensures j == k {
      IssuedIsOnlyOpen(s, n, id, signer, now, k, session, j);
    }
  }

  lemma IssueOnlyOpen(s: Store, now: int, c: Command)
    requires c.IssueSession? && Step(s, now, c).Done? && c.envelopeId in s.envelopes
    requires RouteOk(s.envelopes[c.envelopeId]) && Progress(s.envelopes[c.envelopeId]) && SessionsOk(s, c.envelopeId)
    ensures OnlyOpen(After(s, now, c), c.envelopeId, c.sessionId)
  {
    var signer, session := IssueMeans(s, now, c);
    IssuedOnlyOpen(s, After(s, now, c), c.envelopeId, signer, now, c.sessionId, session);
  }

  lemma IssueDone(s: Store, call: Call, id: Id)
    requires call.command.IssueSession? && Step(s, call.now, call.command).Done? && call.command.envelopeId == id
    requires id in s.envelopes
    requires RouteOk(s.envelopes[id]) && Progress(s.envelopes[id]) && SessionsOk(s, id)
    ensures var c, n := call.command, Next(s, call);
      Issued(s, n, id, call.now, c.expiresAt, c.token, c.sessionId) && OnlyOpen(n, id, c.sessionId)
  {
    IssueEffect(s, call.now, call.command);
    IssueOnlyOpen(s, call.now, call.command);
    NextWhenDone(s, call);
  }

  lemma IssueNext(s: Store, id: Id, now: int, expiresAt: int, token: Token, k: Id) returns (call: Call)
    requires Inv(s) && id in s.envelopes && s.envelopes[id].Active() && now < expiresAt <= s.envelopes[id].expiresAt
    requires NothingLive(s, id, now) && k !in s.sessions && !Full(|s.sessions|)
    ensures call.now == now && call.command.IssueSession? && Step(s, now, call.command).Done?
    ensures Issued(s, Next(s, call), id, now, expiresAt, token, k) && OnlyOpen(Next(s, call), id, k)
  {
    var next := NextSessionCanBeIssued(s, id, now, expiresAt, token, k);
    call := Call(now, IssueSession(id, s.envelopes[id].version, next.id, expiresAt, token, k));
    assert EnvelopeOk(s, id);
    IssueDone(s, call, id);
  }

  // --------------------------------------------------------- one completion more

  ghost function RoleAt(signers: seq<Signer>, order: int): string {
    if exists signer :: signer in signers && signer.order == order then
      var signer :| signer in signers && signer.order == order;
      signer.role
    else ""
  }

  lemma RoleOf(e: Envelope, signer: Signer)
    requires Route(e.signers) && signer in e.signers
    ensures RoleAt(e.signers, signer.order) == signer.role
  {
    forall other | other in e.signers && other.order == signer.order ensures other == signer {
      SameSigner(e, other, signer);
    }
  }

  /** The fewest facts that are recorded before the last signer, when `done` signers have completed. */
  ghost function FactsBeforeLast(e: Envelope, done: nat): nat
    decreases |e.signers| - done
  {
    if done + 1 >= |e.signers| then 0
    else |LeastFields(e.fields, RoleAt(e.signers, done + 1))| + FactsBeforeLast(e, done + 1)
  }

  lemma {:induction false} SameFactsBeforeLast(e: Envelope, n: Envelope, done: nat)
    requires SameTerms(e, n)
    ensures FactsBeforeLast(n, done) == FactsBeforeLast(e, done)
    decreases |e.signers| - done
  {
    if done + 1 < |e.signers| { SameFactsBeforeLast(e, n, done + 1); }
  }

  ghost function Remaining(e: Envelope): int {
    |e.signers| - |e.completed|
  }

  /** One signer more has completed, with `added` facts. */
  ghost predicate WentOn(s: Store, n: Store, id: Id, added: nat)
    requires id in s.envelopes
  {
    && id in n.envelopes && SameTerms(s.envelopes[id], n.envelopes[id])
    && |n.envelopes[id].completed| == |s.envelopes[id].completed| + 1
    && (n.envelopes[id].state.Completed? || (n.envelopes[id].Active() && Remaining(n.envelopes[id]) >= 1))
    && n.sessions.Keys == s.sessions.Keys && (forall k :: k in n.sessions ==> !OpenIn(n.sessions[k], id))
    && |n.facts| == |s.facts| + added
  }

  lemma CompletedTerms(s: Store, now: int, c: Command)
    requires c.Complete? && StepComplete(s, now, c).Done?
    ensures var n := StepComplete(s, now, c).store;
      c.envelopeId in s.envelopes && c.envelopeId in n.envelopes
        && SameTerms(s.envelopes[c.envelopeId], n.envelopes[c.envelopeId])
  {
  }

  lemma CompletedWentOn(s: Store, n: Store, id: Id, signer: Signer, sessionId: Id, session: Session,
      inputs: seq<FactInput>, now: int)
    requires Completes(s, n, id, signer, sessionId, session, inputs, now) && SameTerms(s.envelopes[id], n.envelopes[id])
    requires RouteOk(s.envelopes[id]) && Progress(s.envelopes[id]) && SessionsOk(s, id)
    ensures WentOn(s, n, id, |inputs|)
  {
    OpenSessionIsNext(s, id, signer, sessionId);
    NextCompletes(s.envelopes[id], n.envelopes[id], signer);
    ClosedSessionsOk(s, n, id, signer, sessionId, session);
  }

  lemma CompletionGoesOn(s: Store, now: int, c: Command)
    requires c.Complete? && Step(s, now, c).Done? && c.envelopeId in s.envelopes
    requires RouteOk(s.envelopes[c.envelopeId]) && Progress(s.envelopes[c.envelopeId]) && SessionsOk(s, c.envelopeId)
    ensures WentOn(s, After(s, now, c), c.envelopeId, |c.inputs|)
  {
    var signer, sessionId, session := CompleteMeans(s, now, c);
    CompletedTerms(s, now, c);
    CompletedWentOn(s, After(s, now, c), c.envelopeId, signer, sessionId, session, c.inputs, now);
  }

  lemma CompletionFound(s: Store, now: int, c: Command)
    requires Inv(s) && c.Complete? && Step(s, now, c).Done?
    ensures c.envelopeId in s.envelopes && EnvelopeOk(s, c.envelopeId)
  {
    assert c.envelopeId in s.envelopes;
  }

  lemma CompletionDone(s: Store, call: Call)
    requires Inv(s) && call.command.Complete? && Step(s, call.now, call.command).Done?
    ensures call.command.envelopeId in s.envelopes
    ensures WentOn(s, Next(s, call), call.command.envelopeId, |call.command.inputs|)
  {
    var now, c := call.now, call.command;
    CompletionFound(s, now, c);
    CompletionGoesOn(s, now, c);
    NextWhenDone(s, call);
  }

  lemma CompleteNext(s: Store, id: Id, now: int, k: Id) returns (call: Call)
    requires Inv(s) && id in s.envelopes && k in s.sessions && Live(s.sessions[k], id, now)
    requires s.sessions[k].issuedAt <= now
    requires SoleHolder(s.sessions, s.sessions[k].token, k) && HasField(s.envelopes[id], s.sessions[k].role)
    requires !Full(|s.facts|)
    ensures call.now == now
    ensures var least := |LeastFields(s.envelopes[id].fields, s.sessions[k].role)|;
      WentOn(s, Next(s, call), id, least) && Next(s, call).Size() == s.Size() + least + 1
  {
    var inputs := SessionCanBeCompleted(s, id, now, k);
    var session := s.sessions[k];
    call := Call(now, Complete(id, s.envelopes[id].version, session.signerId, session.token, session.version, inputs));
    CompletionDone(s, call);
    CompletionSize(s, call);
  }

  // ------------------------------------------------- all that is still to be done

  ghost predicate EveryRoleHasAField(e: Envelope) {
    forall signer :: signer in e.signers ==> HasField(e, signer.role)
  }

  ghost predicate RoomForFacts(s: Store, id: Id)
    requires id in s.envelopes
  {
    |s.facts| + FactsBeforeLast(s.envelopes[id], |s.envelopes[id].completed|) <= SCAN_LIMIT
  }

  ghost predicate Signable(s: Store, id: Id, now: int) {
    && id in s.envelopes && s.envelopes[id].Active() && now < s.envelopes[id].expiresAt
    && EveryRoleHasAField(s.envelopes[id]) && RoomForFacts(s, id)
  }

  ghost predicate Holds(s: Store, id: Id, now: int, k: Id) {
    k in s.sessions && Live(s.sessions[k], id, now) && s.sessions[k].issuedAt <= now
      && SoleHolder(s.sessions, s.sessions[k].token, k)
  }

  ghost predicate From(calls: seq<Call>, now: int) {
    forall i :: 0 <= i < |calls| ==> calls[i].now >= now
  }

  ghost predicate EndsCompleted(s: Store, calls: seq<Call>, id: Id) {
    id in Run(s, calls).envelopes && Run(s, calls).envelopes[id].state.Completed?
  }

  lemma SomeRemain(s: Store, id: Id)
    requires Inv(s) && id in s.envelopes && s.envelopes[id].Active()
    ensures Remaining(s.envelopes[id]) >= 1
  {
    assert EnvelopeOk(s, id);
  }

  lemma HolderHasField(s: Store, id: Id, now: int, k: Id)
    requires Inv(s) && Signable(s, id, now) && Holds(s, id, now, k)
    ensures HasField(s.envelopes[id], s.sessions[k].role)
  {
    var signer := OpenSessionOwner(s, id, k);
  }

  lemma SameRoles(e: Envelope, n: Envelope)
    requires SameTerms(e, n)
    ensures EveryRoleHasAField(n) <==> EveryRoleHasAField(e)
  {
    assert forall signer :: HasField(n, signer) <==> HasField(e, signer);
  }

  /** The fewest facts still to be recorded. */
  ghost function FactsLeft(e: Envelope): nat {
    FactsBeforeLast(e, |e.completed|) + |LeastFields(e.fields, RoleAt(e.signers, |e.signers|))|
  }

  ghost function NextFacts(e: Envelope): nat {
    |LeastFields(e.fields, RoleAt(e.signers, |e.completed| + 1))|
  }

  /** The records of `more` sessions, of all remaining completions and of their receipts. */
  ghost function Records(e: Envelope, more: int): int {
    2 * more + Remaining(e) + FactsLeft(e)
  }

  /** The envelope of `n` has one signer less to go than that of `s`, and no session. */
  ghost predicate OneLess(s: Store, n: Store, id: Id, now: int)
    requires id in s.envelopes
  {
    && Signable(n, id, now) && NothingLive(n, id, now) && |n.sessions| == |s.sessions|
    && Remaining(n.envelopes[id]) == Remaining(s.envelopes[id]) - 1
    && FactsLeft(n.envelopes[id]) + NextFacts(s.envelopes[id]) == FactsLeft(s.envelopes[id])
  }

  lemma WentOnLeaves(s: Store, n: Store, id: Id, now: int, added: nat)
    requires Signable(s, id, now) && WentOn(s, n, id, added) && added == NextFacts(s.envelopes[id])
    ensures n.envelopes[id].state.Completed? || OneLess(s, n, id, now)
  {
    var e := s.envelopes[id];
    SameRoles(e, n.envelopes[id]);
    SameFactsBeforeLast(e, n.envelopes[id], |e.completed| + 1);
    assert |n.sessions.Keys| == |s.sessions.Keys|;
  }

  lemma RoleOfNext(s: Store, id: Id, k: Id, signer: Signer)
    requires id in s.envelopes && RouteOk(s.envelopes[id]) && SessionsOk(s, id) && signer in s.envelopes[id].signers
    requires k in s.sessions && OpenFor(s.sessions[k], id, signer.id)
    ensures s.sessions[k].role == RoleAt(s.envelopes[id].signers, |s.envelopes[id].completed| + 1)
  {
    OpenSessionIsNext(s, id, signer, k);
    RoleOf(s.envelopes[id], signer);
  }

  lemma OpenRole(s: Store, id: Id, k: Id)
    requires Inv(s) && k in s.sessions && OpenIn(s.sessions[k], id) && id in s.envelopes
    ensures s.sessions[k].role == RoleAt(s.envelopes[id].signers, |s.envelopes[id].completed| + 1)
  {
    var signer := OpenSessionOwner(s, id, k);
    RoleOfNext(s, id, k, signer);
  }

  lemma CompleteFrom(s: Store, id: Id, now: int, k: Id) returns (call: Call)
    requires Inv(s) && Signable(s, id, now) && Holds(s, id, now, k)
    ensures call.now == now && id in Next(s, call).envelopes
    ensures Next(s, call).Size() == s.Size() + NextFacts(s.envelopes[id]) + 1
    ensures if Next(s, call).envelopes[id].state.Completed? then Remaining(s.envelopes[id]) == 1
            else OneLess(s, Next(s, call), id, now)
  {
    HolderHasField(s, id, now, k);
    OpenRole(s, id, k);
    call := CompleteNext(s, id, now, k);
    NextKeepsInv(s, call);
    LastOne(s, Next(s, call), id, NextFacts(s.envelopes[id]));
    WentOnLeaves(s, Next(s, call), id, now, NextFacts(s.envelopes[id]));
  }

  lemma LastOne(s: Store, n: Store, id: Id, added: nat)
    requires Inv(n) && id in s.envelopes && WentOn(s, n, id, added)
    ensures n.envelopes[id].state.Completed? ==> Remaining(s.envelopes[id]) == 1
  {
    assert EnvelopeOk(n, id);
  }

  lemma IssueFrom(s: Store, id: Id, now: int) returns (call: Call, k: Id)
    requires Inv(s) && Signable(s, id, now) && NothingLive(s, id, now) && !Full(|s.sessions|)
    ensures call.now == now && Signable(Next(s, call), id, now) && Holds(Next(s, call), id, now, k)
    ensures |Next(s, call).sessions| == |s.sessions| + 1 && Next(s, call).Size() == s.Size() + 2
    ensures forall more :: Records(Next(s, call).envelopes[id], more) == Records(s.envelopes[id], more)
    ensures Remaining(Next(s, call).envelopes[id]) == Remaining(s.envelopes[id])
  {
    k := Unused(s.sessions.Keys);
    var token := FreshToken(s.sessions);
    call := IssueNext(s, id, now, s.envelopes[id].expiresAt, token, k);
    IssuedIsReady(s, Next(s, call), id, now, token, k);
    IssueSize(s, call);
  }

  lemma IssuedIsReady(s: Store, n: Store, id: Id, now: int, token: Token, k: Id)
    requires Signable(s, id, now) && Issued(s, n, id, now, s.envelopes[id].expiresAt, token, k)
    requires Unissued(s.sessions, token)
    ensures Signable(n, id, now) && Holds(n, id, now, k)
    ensures |n.sessions| == |s.sessions| + 1 && Remaining(n.envelopes[id]) == Remaining(s.envelopes[id])
    ensures forall more :: Records(n.envelopes[id], more) == Records(s.envelopes[id], more)
  {
    SameRoles(s.envelopes[id], n.envelopes[id]);
    SameFactsBeforeLast(s.envelopes[id], n.envelopes[id], |s.envelopes[id].completed|);
    assert |n.sessions.Keys| == |s.sessions.Keys| + 1;
    assert forall other :: other in n.sessions && n.sessions[other].token == n.sessions[k].token ==> other == k;
  }

  lemma CallFirst(s: Store, call: Call, rest: seq<Call>, id: Id, now: int)
    requires call.now >= now && From(rest, now) && EndsCompleted(Next(s, call), rest, id)
    ensures From([call] + rest, now) && EndsCompleted(s, [call] + rest, id)
    ensures Run(s, [call] + rest) == Run(Next(s, call), rest)
  {
    RunFirst(s, call, rest);
  }

  lemma {:induction false} FinishFrom(s: Store, id: Id, now: int, k: Id) returns (calls: seq<Call>)
    requires Inv(s) && Signable(s, id, now) && Holds(s, id, now, k)
    requires Remaining(s.envelopes[id]) >= 2 ==> |s.sessions| + Remaining(s.envelopes[id]) <= SCAN_LIMIT + 2
    ensures From(calls, now) && EndsCompleted(s, calls, id)
    ensures Run(s, calls).Size() == s.Size() + Records(s.envelopes[id], Remaining(s.envelopes[id]) - 1)
    decreases Remaining(s.envelopes[id]), 0
  {
    SomeRemain(s, id);
    var call := CompleteFrom(s, id, now, k);
    calls := FinishAfter(s, Next(s, call), id, now, call);
  }

  lemma RecordsOfLast(e: Envelope)
    requires Remaining(e) == 1
    ensures Records(e, 0) == NextFacts(e) + 1
  {
  }

  lemma RecordsOfOneLess(s: Store, n: Store, id: Id, now: int)
    requires id in s.envelopes && OneLess(s, n, id, now)
    ensures Records(s.envelopes[id], Remaining(s.envelopes[id]) - 1) ==
      Records(n.envelopes[id], Remaining(n.envelopes[id])) + NextFacts(s.envelopes[id]) + 1
  {
  }

  lemma {:induction false} FinishAfter(s: Store, n: Store, id: Id, now: int, call: Call) returns (calls: seq<Call>)
    requires Inv(s) && n == Next(s, call) && call.now == now && id in s.envelopes && id in n.envelopes
    requires n.Size() == s.Size() + NextFacts(s.envelopes[id]) + 1
    requires if n.envelopes[id].state.Completed? then Remaining(s.envelopes[id]) == 1 else OneLess(s, n, id, now)
    requires Remaining(s.envelopes[id]) >= 2 ==> |s.sessions| + Remaining(s.envelopes[id]) <= SCAN_LIMIT + 2
    ensures From(calls, now) && EndsCompleted(s, calls, id)
    ensures Run(s, calls).Size() == s.Size() + Records(s.envelopes[id], Remaining(s.envelopes[id]) - 1)
    decreases Remaining(s.envelopes[id]) - 1, 2
  {
    NextKeepsInv(s, call);
    var rest := [];
    if n.envelopes[id].state.Completed? {
      RecordsOfLast(s.envelopes[id]);
    } else {
      RecordsOfOneLess(s, n, id, now);
      rest := IssueAndFinish(n, id, now);
    }
    CallFirst(s, call, rest, id, now);
    calls := [call] + rest;
  }

  lemma {:induction false} IssueAndFinish(s: Store, id: Id, now: int) returns (calls: seq<Call>)
    requires Inv(s) && Signable(s, id, now) && NothingLive(s, id, now)
    requires |s.sessions| + Remaining(s.envelopes[id]) <= SCAN_LIMIT + 1
    ensures From(calls, now) && EndsCompleted(s, calls, id)
    ensures Run(s, calls).Size() == s.Size() + Records(s.envelopes[id], Remaining(s.envelopes[id]))
    decreases Remaining(s.envelopes[id]), 1
  {
    SomeRemain(s, id);
    var issue, k := IssueFrom(s, id, now);
    NextKeepsInv(s, issue);
    var rest := FinishFrom(Next(s, issue), id, now, k);
    CallFirst(s, issue, rest, id, now);
    calls := [issue] + rest;
  }
}
