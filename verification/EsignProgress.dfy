/** What can still happen to an envelope: when its route goes on, when it can be completed, and when the store is too
    full for either. */
module EsignProgress {
  import opened Options
  import opened Esign
  import opened EsignRuns

  // ------------------------------------------------------------- records added

  lemma IssuedSize(s: Store, n: Store, id: Id, signer: Signer, now: int, k: Id, session: Session)
    requires Issues(s, n, id, signer, now, k, session)
    ensures n.Size() == s.Size() + 1
  {
    assert n.sessions.Keys == s.sessions.Keys + {k} && n.envelopes.Keys == s.envelopes.Keys;
    assert |n.sessions.Keys| == |s.sessions.Keys| + 1 && |n.envelopes.Keys| == |s.envelopes.Keys|;
  }

  lemma IssueSize(s: Store, call: Call)
    requires call.command.IssueSession? && Step(s, call.now, call.command).Done?
    ensures Next(s, call).Size() == s.Size() + 2
  {
    var now, c := call.now, call.command;
    var signer, session := IssueMeans(s, now, c);
    IssuedSize(s, After(s, now, c), c.envelopeId, signer, now, c.sessionId, session);
    NextWhenDone(s, call);
  }

  lemma CompleteSize(s: Store, now: int, c: Command)
    requires c.Complete? && StepComplete(s, now, c).Done?
    ensures StepComplete(s, now, c).store.Size() == s.Size() + |c.inputs|
  {
    var n := StepComplete(s, now, c).store;
    assert n.sessions.Keys == s.sessions.Keys && n.envelopes.Keys == s.envelopes.Keys;
    assert |n.sessions.Keys| == |s.sessions.Keys| && |n.envelopes.Keys| == |s.envelopes.Keys|;
  }

  lemma CompletionSize(s: Store, call: Call)
    requires call.command.Complete? && Step(s, call.now, call.command).Done?
    ensures Next(s, call).Size() == s.Size() + |call.command.inputs| + 1
  {
    CompleteSize(s, call.now, call.command);
    NextWhenDone(s, call);
  }

  // -------------------------------------------------------- the next session

  /** The conditions under which a session is issued. */
  lemma IssueAccepted(s: Store, now: int, c: Command, signer: Signer)
    requires c.IssueSession? && c.envelopeId in s.envelopes && s.envelopes[c.envelopeId].Active()
    requires c.expectedVersion == s.envelopes[c.envelopeId].version
    requires FindSigner(s.envelopes[c.envelopeId].signers, c.signerId) == Some(signer)
    requires c.signerId !in s.envelopes[c.envelopeId].completed && InTurn(s.envelopes[c.envelopeId], signer)
    requires now < c.expiresAt <= s.envelopes[c.envelopeId].expiresAt && c.sessionId !in s.sessions
    requires forall k :: k in s.sessions && OpenIn(s.sessions[k], c.envelopeId) ==> s.sessions[k].expiresAt <= now
    ensures Step(s, now, c).Done? <==> !Full(|s.sessions|)
  {
    forall k | k in s.sessions && OpenFor(s.sessions[k], c.envelopeId, c.signerId)
      ensures s.sessions[k].expiresAt <= now {
      assert OpenIn(s.sessions[k], c.envelopeId);
    }
  }

  /** Main result: while an envelope is active and unexpired and no session on it is live, there is a next signer,
      and a session can be issued to them if and only if the store's sessions can still be listed and, under a quota,
      it leaves room for two more records. */
  lemma NextSessionCanBeIssued(s: Store, id: Id, now: int, expiresAt: int, token: Token, sessionId: Id)
    returns (signer: Signer)
    requires Inv(s) && id in s.envelopes && s.envelopes[id].Active() && now < expiresAt <= s.envelopes[id].expiresAt
    requires sessionId !in s.sessions
    requires forall k :: k in s.sessions && OpenIn(s.sessions[k], id) ==> s.sessions[k].expiresAt <= now
    ensures signer in s.envelopes[id].signers && signer.order == |s.envelopes[id].completed| + 1
    ensures var c := IssueSession(id, s.envelopes[id].version, signer.id, expiresAt, token, sessionId);
      && (Step(s, now, c).Done? <==> !Full(|s.sessions|))
      && forall cap: nat :: Commits(cap, s, Call(now, c)) <==> !Full(|s.sessions|) && s.Size() + 2 <= cap
  {
    var e := s.envelopes[id];
    assert EnvelopeOk(s, id);
    signer := NextSigner(e);
    FoundSigner(e, signer);
    var c := IssueSession(id, e.version, signer.id, expiresAt, token, sessionId);
    IssueAccepted(s, now, c, signer);
    if Step(s, now, c).Done? { IssueSize(s, Call(now, c)); }
  }

  lemma FoundSigner(e: Envelope, signer: Signer)
    requires Route(e.signers) && signer in e.signers
    ensures FindSigner(e.signers, signer.id) == Some(signer)
  {
    var found := FindSigner(e.signers, signer.id);
    SameSigner(e, found.value, signer);
  }

  lemma NextSigner(e: Envelope) returns (signer: Signer)
    requires Route(e.signers) && Progress(e) && e.Active()
    ensures signer in e.signers && signer.order == |e.completed| + 1 && signer.id !in e.completed && InTurn(e, signer)
  {
    assert HasOrder(e.signers, |e.completed| + 1);
    signer :| signer in e.signers && signer.order == |e.completed| + 1;
  }

  ghost predicate HasField(e: Envelope, role: string) {
    exists f :: f in e.fields && f.role == role
  }

  /** Whoever has completed an envelope held a field of it. */
  ghost predicate Held(s: Store) {
    forall id, signer ::
      id in s.envelopes && signer in s.envelopes[id].signers && signer.id in s.envelopes[id].completed ==>
      HasField(s.envelopes[id], signer.role)
  }

  lemma CompletedHolds(s: Store, n: Store, id: Id, signer: Signer, sessionId: Id, session: Session,
      inputs: seq<FactInput>, now: int)
    requires Held(s) && Completes(s, n, id, signer, sessionId, session, inputs, now) && RouteOk(s.envelopes[id])
    ensures Held(n)
  {
    var e := s.envelopes[id];
    assert InputFits(e.fields, signer.role, inputs[0], session.issuedAt, now);
    assert HasField(n.envelopes[id], signer.role);
    forall x, other | x in n.envelopes && other in n.envelopes[x].signers && other.id in n.envelopes[x].completed
      ensures HasField(n.envelopes[x], other.role) {
      if x == id {
        if other.id == signer.id { SameSigner(e, other, signer); } else { assert HasField(e, other.role); }
      } else {
        assert HasField(s.envelopes[x], other.role);
      }
    }
  }

  ghost predicate SameCompletions(s: Store, n: Store) {
    && s.envelopes.Keys <= n.envelopes.Keys && n.facts == s.facts
    && forall x :: x in n.envelopes ==>
      if x in s.envelopes then
        n.envelopes[x].signers == s.envelopes[x].signers && n.envelopes[x].fields == s.envelopes[x].fields
          && n.envelopes[x].completed == s.envelopes[x].completed
      else n.envelopes[x].completed == {}
  }

  lemma IssueKeepsCompletions(s: Store, now: int, c: Command)
    requires c.IssueSession? && StepIssue(s, now, c).Done?
    ensures SameCompletions(s, StepIssue(s, now, c).store)
  {
  }

  lemma DeclineKeepsCompletions(s: Store, now: int, c: Command)
    requires c.Decline? && StepDecline(s, now, c).Done?
    ensures SameCompletions(s, StepDecline(s, now, c).store)
  {
  }

  lemma VoidKeepsCompletions(s: Store, now: int, c: Command)
    requires c.VoidEnvelope? && StepVoid(s, now, c).Done?
    ensures SameCompletions(s, StepVoid(s, now, c).store)
  {
  }

  lemma DispatchKeepsCompletions(s: Store, now: int, c: Command)
    requires (c.Dispatch? || c.DraftEnvelope?) && Step(s, now, c).Done?
    ensures SameCompletions(s, After(s, now, c))
  {
  }

  lemma SameEnvelopes(s: Store, now: int, c: Command)
    requires c.CreateTemplate? || c.CreateVersion? || c.RegisterDocument? || c.Remind? || c.Export? || c.Log?
    requires Step(s, now, c).Done?
    ensures After(s, now, c).envelopes == s.envelopes && After(s, now, c).facts == s.facts
  {
  }

  lemma OthersKeepCompletions(s: Store, now: int, c: Command)
    requires !c.Complete? && Step(s, now, c).Done?
    ensures SameCompletions(s, After(s, now, c))
  {
    match c
    case IssueSession(_, _, _, _, _, _) => IssueKeepsCompletions(s, now, c);
    case Decline(_, _, _, _, _, _, _) => DeclineKeepsCompletions(s, now, c);
    case VoidEnvelope(_, _, _, _) => VoidKeepsCompletions(s, now, c);
    case Dispatch(_, _, _, _) => DispatchKeepsCompletions(s, now, c);
    case DraftEnvelope(_, _, _, _, _, _) => DispatchKeepsCompletions(s, now, c);
    case _ => SameEnvelopes(s, now, c);
  }

  lemma SameCompletionsHold(s: Store, n: Store)
    requires Held(s) && SameCompletions(s, n)
    ensures Held(n)
  {
    forall x, other | x in n.envelopes && other in n.envelopes[x].signers && other.id in n.envelopes[x].completed
      ensures HasField(n.envelopes[x], other.role) {
      assert HasField(s.envelopes[x], other.role);
    }
  }

  lemma StepKeepsHeld(s: Store, now: int, c: Command)
    requires Inv(s) && Held(s)
    ensures Held(After(s, now, c))
  {
    if Step(s, now, c).Done? {
      if c.Complete? {
        var signer, sessionId, session := CompleteMeans(s, now, c);
        assert EnvelopeOk(s, c.envelopeId);
        CompletedHolds(s, After(s, now, c), c.envelopeId, signer, sessionId, session, c.inputs, now);
      } else {
        OthersKeepCompletions(s, now, c);
        SameCompletionsHold(s, After(s, now, c));
      }
    }
  }

  lemma NextKeepsHeld(s: Store, call: Call)
    requires Inv(s) && Held(s)
    ensures Held(Next(s, call))
  {
    StepKeepsHeld(s, call.now, call.command);
    NextIs(s, call);
    SameCompletionsHold(After(s, call.now, call.command), Next(s, call));
  }

  lemma {:induction false} RunsKeepHeld(s: Store, calls: seq<Call>)
    requires Inv(s) && Held(s)
    ensures Held(Run(s, calls))
    decreases |calls|
  {
    if calls != [] {
      NextKeepsInv(s, calls[0]);
      NextKeepsHeld(s, calls[0]);
      RunsKeepHeld(Next(s, calls[0]), calls[1..]);
    }
  }

  /** Main result: an envelope with a signer whose role has no field can never be completed, only declined or voided.
      Templates with such a role are accepted. */
  lemma CompletedNeedsAFieldPerRole(calls: seq<Call>, id: Id, signer: Signer)
    requires id in Run(EMPTY, calls).envelopes && signer in Run(EMPTY, calls).envelopes[id].signers
    ensures Run(EMPTY, calls).envelopes[id].state.Completed? ==> HasField(Run(EMPTY, calls).envelopes[id], signer.role)
  {
    RunsKeepHeld(EMPTY, calls);
    CompletedIsExactCover(calls, id);
  }

  function SomeMethod(kind: FieldKind): (how: Method)
    ensures Compatible(kind, how)
  {
    match kind
    case Signature => DrawnMark
    case Initials => TypedName
    case Text => TypedText
    case Checkbox => SelectedCheckbox
    case Date => EnteredDate
  }

  // ---------------------------------------------------- the fewest facts of a role

  function RequiredOf(fields: seq<Field>, role: string): (r: seq<Field>)
    ensures forall f :: f in r <==> f in fields && f.role == role && f.required
  {
    if fields == [] then []
    else
      assert fields == [fields[0]] + fields[1..];
      var rest := RequiredOf(fields[1..], role);
      if fields[0].role == role && fields[0].required then [fields[0]] + rest else rest
  }

  function FirstOf(fields: seq<Field>, role: string): (r: seq<Field>)
    ensures |r| <= 1 && forall f :: f in r ==> f in fields && f.role == role
    ensures r == [] ==> forall f :: f in fields ==> f.role != role
  {
    if fields == [] then []
    else
      assert fields == [fields[0]] + fields[1..];
      if fields[0].role == role then [fields[0]] else FirstOf(fields[1..], role)
  }

  /** The required fields of a role or, if it has none, its first field: each completion records a fact. */
  function LeastFields(fields: seq<Field>, role: string): seq<Field> {
    var required := RequiredOf(fields, role);
    if required == [] then FirstOf(fields, role) else required
  }

  function InputOf(f: Field, at: int): FactInput {
    FactInput(f.id, SomeMethod(f.kind), at, "")
  }

  function LeastInputs(fields: seq<Field>, role: string, at: int): seq<FactInput> {
    var least := LeastFields(fields, role);
    seq(|least|, i requires 0 <= i < |least| => InputOf(least[i], at))
  }

  lemma {:induction false} RequiredDistinct(fields: seq<Field>, role: string)
    requires DistinctFields(fields)
    ensures DistinctFields(RequiredOf(fields, role))
  {
    if fields != [] {
      RequiredDistinct(fields[1..], role);
      var rest := RequiredOf(fields[1..], role);
      forall i | 0 <= i < |rest| ensures rest[i].id != fields[0].id {
        assert rest[i] in rest;
      }
    }
  }

  lemma InputsAreOf(fields: seq<Field>, role: string, at: int, input: FactInput) returns (f: Field)
    requires input in LeastInputs(fields, role, at)
    ensures f in fields && f.role == role && input == InputOf(f, at)
  {
    var least, inputs := LeastFields(fields, role), LeastInputs(fields, role, at);
    var i :| 0 <= i < |inputs| && inputs[i] == input;
    f := least[i];
    assert f in least;
  }

  lemma LeastDistinct(fields: seq<Field>, role: string, at: int)
    requires DistinctFields(fields)
    ensures DistinctInputs(LeastInputs(fields, role, at))
  {
    RequiredDistinct(fields, role);
  }

  lemma LeastCovers(fields: seq<Field>, role: string, at: int)
    ensures CoversRequired(fields, role, LeastInputs(fields, role, at))
  {
    var least, inputs := LeastFields(fields, role), LeastInputs(fields, role, at);
    forall f | f in fields && f.role == role && f.required
      ensures exists input :: input in inputs && input.fieldId == f.id {
      assert f in least;
      var i :| 0 <= i < |least| && least[i] == f;
      assert inputs[i] in inputs;
    }
  }

  lemma LeastFit(e: Envelope, role: string, at: int, issuedAt: int, now: int)
    requires DistinctFields(e.fields) && HasField(e, role) && issuedAt <= at <= now + CLOCK_SKEW
    ensures FactsFit(e.fields, role, LeastInputs(e.fields, role, at), issuedAt, now)
  {
    LeastDistinct(e.fields, role, at);
    LeastCovers(e.fields, role, at);
    forall input | input in LeastInputs(e.fields, role, at) ensures InputFits(e.fields, role, input, issuedAt, now) {
      var f := InputsAreOf(e.fields, role, at, input);
      var found := FindField(e.fields, role, input.fieldId);
      SameField(e.fields, f, found.value);
    }
  }

  ghost function FieldIds(inputs: seq<FactInput>): set<Id> {
    set input | input in inputs :: input.fieldId
  }

  lemma {:induction false} FewIds(inputs: seq<FactInput>)
    ensures |FieldIds(inputs)| <= |inputs|
  {
    if inputs == [] {
      assert FieldIds(inputs) == {};
    } else {
      var last, before := inputs[|inputs| - 1], inputs[..|inputs| - 1];
      FewIds(before);
      assert inputs == before + [last];
      assert FieldIds(inputs) == FieldIds(before) + {last.fieldId};
    }
  }

  lemma {:induction false} DistinctCovered(fields: seq<Field>, ids: set<Id>)
    requires DistinctFields(fields) && forall f :: f in fields ==> f.id in ids
    ensures |fields| <= |ids|
    decreases |fields|
  {
    if fields != [] {
      var last, before := fields[|fields| - 1], fields[..|fields| - 1];
      assert last in fields;
      forall f | f in before ensures f.id in ids - {last.id} {
        assert f in fields;
      }
      DistinctCovered(before, ids - {last.id});
    }
  }

  /** No accepted completion records fewer facts. */
  lemma LeastIsLeast(fields: seq<Field>, role: string, inputs: seq<FactInput>, issuedAt: int, now: int)
    requires DistinctFields(fields) && FactsFit(fields, role, inputs, issuedAt, now)
    ensures |LeastFields(fields, role)| <= |inputs|
  {
    var required, ids := RequiredOf(fields, role), FieldIds(inputs);
    RequiredDistinct(fields, role);
    forall f | f in required ensures f.id in ids {
      assert f in fields && f.role == role && f.required;
    }
    DistinctCovered(required, ids);
    FewIds(inputs);
  }

  lemma SameField(fields: seq<Field>, f: Field, g: Field)
    requires DistinctFields(fields) && f in fields && g in fields && f.id == g.id
    ensures f == g
  {
    var i :| 0 <= i < |fields| && fields[i] == f;
    var j :| 0 <= j < |fields| && fields[j] == g;
  }

  /** The fields of a signer who has not completed have no facts yet. */
  lemma OpenRoleUnrecorded(s: Store, id: Id, signer: Signer, f: Field)
    requires id in s.envelopes && RouteOk(s.envelopes[id]) && SessionsOk(s, id) && FactsOk(s, id)
    requires signer in s.envelopes[id].signers && signer.id !in s.envelopes[id].completed && f in s.envelopes[id].fields
    requires f.role == signer.role
    ensures !Recorded(s.facts, id, f.id)
  {
    var e := s.envelopes[id];
    forall fact | fact in s.facts && fact.envelopeId == id ensures fact.fieldId != f.id {
      assert FactOk(s, e, fact);
      var session := s.sessions[fact.sessionId];
      assert SessionOk(e, session);
      var owner :| owner in e.signers && owner.id == session.signerId && owner.role == session.role;
      var g :| g in e.fields && g.id == fact.fieldId && g.role == session.role;
      if g.id == f.id {
        SameField(e.fields, f, g);
        SameSigner(e, owner, signer);
      }
    }
  }

  lemma HolderIsFound(s: Store, id: Id, signerId: Id, now: int, k: Id)
    requires k in s.sessions && SoleHolder(s.sessions, s.sessions[k].token, k) && OpenFor(s.sessions[k], id, signerId)
    requires now < s.sessions[k].expiresAt
    ensures SessionFor(s, id, signerId, s.sessions[k].token, now) == Some(k)
  {
    assert SoleHolder(s.sessions, s.sessions[k].token, k);
    assert forall j :: SoleHolder(s.sessions, s.sessions[k].token, j) ==> j == k;
  }

  lemma UnrecordedInputs(s: Store, id: Id, signer: Signer, at: int)
    requires id in s.envelopes && RouteOk(s.envelopes[id]) && SessionsOk(s, id) && FactsOk(s, id)
    requires signer in s.envelopes[id].signers && signer.id !in s.envelopes[id].completed
    ensures forall input :: input in LeastInputs(s.envelopes[id].fields, signer.role, at) ==>
      !Recorded(s.facts, id, input.fieldId)
  {
    var e := s.envelopes[id];
    forall input | input in LeastInputs(e.fields, signer.role, at) ensures !Recorded(s.facts, id, input.fieldId) {
      var f := InputsAreOf(e.fields, signer.role, at, input);
      OpenRoleUnrecorded(s, id, signer, f);
    }
  }

  /** The conditions under which a completion is accepted. */
  lemma CompletionAccepted(s: Store, now: int, c: Command, signer: Signer, k: Id)
    requires c.Complete? && c.envelopeId in s.envelopes && s.envelopes[c.envelopeId].Active()
    requires c.expectedVersion == s.envelopes[c.envelopeId].version
    requires FindSigner(s.envelopes[c.envelopeId].signers, c.signerId) == Some(signer)
    requires SessionFor(s, c.envelopeId, c.signerId, c.token, now) == Some(k)
    requires c.expectedSession == s.sessions[k].version
    requires FactsFit(s.envelopes[c.envelopeId].fields, signer.role, c.inputs, s.sessions[k].issuedAt, now)
    requires forall input :: input in c.inputs ==> !Recorded(s.facts, c.envelopeId, input.fieldId)
    ensures Step(s, now, c).Done? <==> !Full(|s.facts|)
  {
  }

  lemma OpenSessionOwner(s: Store, id: Id, k: Id) returns (signer: Signer)
    requires Inv(s) && k in s.sessions && OpenIn(s.sessions[k], id) && id in s.envelopes
    ensures FindSigner(s.envelopes[id].signers, s.sessions[k].signerId) == Some(signer)
    ensures signer.role == s.sessions[k].role
    ensures signer in s.envelopes[id].signers && signer.id !in s.envelopes[id].completed && s.envelopes[id].Active()
    ensures RouteOk(s.envelopes[id]) && SessionsOk(s, id) && FactsOk(s, id)
  {
    var e, session := s.envelopes[id], s.sessions[k];
    assert EnvelopeOk(s, id) && SessionOk(e, session);
    signer := FindSigner(e.signers, session.signerId).value;
    OpenSessionIsNext(s, id, signer, k);
  }

  /** Main result: the holder of a live session whose role has a field can complete it if and only if the store's
      facts can still be listed and, under a quota, it leaves room for the facts and a receipt. */
  lemma SessionCanBeCompleted(s: Store, id: Id, now: int, k: Id) returns (inputs: seq<FactInput>)
    requires Inv(s) && k in s.sessions && OpenIn(s.sessions[k], id) && id in s.envelopes
    requires SoleHolder(s.sessions, s.sessions[k].token, k) && s.sessions[k].issuedAt <= now < s.sessions[k].expiresAt
    requires HasField(s.envelopes[id], s.sessions[k].role)
    ensures var session := s.sessions[k];
      var c := Complete(id, s.envelopes[id].version, session.signerId, session.token, session.version, inputs);
      && (Step(s, now, c).Done? <==> !Full(|s.facts|))
      && forall cap: nat :: Commits(cap, s, Call(now, c)) <==> !Full(|s.facts|) && s.Size() + |inputs| + 1 <= cap
    ensures inputs == LeastInputs(s.envelopes[id].fields, s.sessions[k].role, s.sessions[k].issuedAt)
  {
    var e, session := s.envelopes[id], s.sessions[k];
    var signer := OpenSessionOwner(s, id, k);
    HolderIsFound(s, id, session.signerId, now, k);
    inputs := LeastInputs(e.fields, signer.role, session.issuedAt);
    LeastFit(e, signer.role, session.issuedAt, session.issuedAt, now);
    UnrecordedInputs(s, id, signer, session.issuedAt);
    var c := Complete(id, e.version, session.signerId, session.token, session.version, inputs);
    CompletionAccepted(s, now, c, signer, k);
    if Step(s, now, c).Done? { CompletionSize(s, Call(now, c)); }
  }
}
