/** The e-signature commands as updates of the record store, proved against their specification. */
module EsignDesk {
  import opened Options
  import opened Esign
  import opened EsignRuns
  import opened EsignProgress
  import opened EsignRecords
  import opened EsignCompletable

  /** Some run of calls leaves this store. */
  ghost predicate Reachable(s: Store) {
    exists calls :: Run(EMPTY, calls) == s
  }

  lemma NextIsReachable(s: Store, call: Call)
    requires Reachable(s)
    ensures Reachable(Next(s, call))
  {
    var calls :| Run(EMPTY, calls) == s;
    RunThen(EMPTY, calls, [call]);
    assert [call][1..] == [];
    assert Run(EMPTY, calls + [call]) == Next(s, call);
  }

  /** So whatever a desk is asked, its records keep every promise that runs keep. */
  lemma ReachableIsSound(s: Store)
    requires Reachable(s)
    ensures Inv(s) && Held(s) && Timed(s) && Numbered(s) && AllBound(s)
  {
    var calls :| Run(EMPTY, calls) == s;
    RunsKeepInv(EMPTY, calls);
    RunsKeepHeld(EMPTY, calls);
    RunsKeepTimed(EMPTY, calls);
    RunsKeepNumbers(EMPTY, calls);
    EnvelopesStayBound(EMPTY, calls);
  }

  class Desk {
    var heads: map<Id, Head>
    var templates: map<Id, Template>
    var documents: map<Id, Document>
    var envelopes: map<Id, Envelope>
    var sessions: map<Id, Session>
    var facts: seq<Fact>
    var events: map<Id, Event>
    var certificates: map<Id, Certificate>
    var others: nat

    constructor ()
      ensures Valid() && State() == EMPTY
    {
      heads, templates, documents, envelopes, sessions, facts, events, certificates := map[], map[], map[], map[],
        map[], [], map[], map[];
      others := 0;
      new;
      assert Run(EMPTY, []) == EMPTY;
    }

    function State(): Store
      reads this
    {
      Store(heads, templates, documents, envelopes, sessions, facts, events, certificates, others)
    }

    ghost predicate Valid()
      reads this
    {
      Reachable(State())
    }

    method TemplateCreate(now: int, c: Command) returns (ok: bool)
      requires Valid() && c.CreateTemplate?
      modifies this
      ensures Valid() && State() == Next(old(State()), Call(now, c))
      ensures ok <==> Step(old(State()), now, c).Done?
    {
      NextIsReachable(State(), Call(now, c));
      if c.id in heads {
        return false;
      }
      heads := heads[c.id := Head(0, 1)];
      others, ok := others + 1, true;
    }

    method MayVersion(c: Command) returns (ok: bool)
      requires c.CreateVersion?
      ensures ok <==> StepVersion(State(), c).Done?
    {
      if c.headId !in heads {
        return false;
      }
      var head := heads[c.headId];
      if c.expectedVersion != head.current || !ValidSnapshot(c.roles, c.fields) || Full(|templates|) {
        return false;
      }
      var template := Template(c.headId, head.current + 1, c.roles, c.fields, c.disclosure);
      ok := c.id !in templates && forall k :: k in templates ==> templates[k] != template;
    }

    method StoreVersion(c: Command)
      requires c.CreateVersion? && StepVersion(State(), c).Done?
      modifies this
      ensures State() == StepVersion(old(State()), c).store
    {
      var head := heads[c.headId];
      templates := templates[c.id := Template(c.headId, head.current + 1, c.roles, c.fields, c.disclosure)];
      heads := heads[c.headId := Head(head.current + 1, head.version + 1)];
    }

    method TemplateVersionCreate(now: int, c: Command) returns (ok: bool)
      requires Valid() && c.CreateVersion?
      modifies this
      ensures Valid() && State() == Next(old(State()), Call(now, c))
      ensures ok <==> Step(old(State()), now, c).Done?
    {
      NextIsReachable(State(), Call(now, c));
      ok := MayVersion(c);
      if ok {
        StoreVersion(c);
        others := others + 1;
      }
    }

    method DocumentRegister(now: int, c: Command) returns (ok: bool)
      requires Valid() && c.RegisterDocument?
      modifies this
      ensures Valid() && State() == Next(old(State()), Call(now, c))
      ensures ok <==> Step(old(State()), now, c).Done?
    {
      ghost var goal := Next(State(), Call(now, c));
      NextIsReachable(State(), Call(now, c));
      var document := c.document;
      if Full(|documents|) || c.id in documents {
        return false;
      }
      if exists k | k in documents ::
          documents[k].objectRef == document.objectRef && documents[k].objectVersion == document.objectVersion {
        return false;
      }
      documents := documents[c.id := document];
      others, ok := others + 1, true;
      assert State() == goal;
    }

    method EnvelopeDraft(now: int, c: Command) returns (ok: bool)
      requires Valid() && c.DraftEnvelope?
      modifies this
      ensures Valid() && State() == Next(old(State()), Call(now, c))
      ensures ok <==> Step(old(State()), now, c).Done?
    {
      ghost var goal := Next(State(), Call(now, c));
      NextIsReachable(State(), Call(now, c));
      if c.templateId !in templates || c.documentId !in documents {
        return false;
      }
      var template, document := templates[c.templateId], documents[c.documentId];
      if document.sha256 != c.documentHash || exists f :: f in template.fields && f.page > document.pageCount {
        return false;
      }
      if !DistinctSigners(c.signers) || !RouteMatches(c.signers, template.roles) || c.expiresAt <= now
        || c.id in envelopes {
        return false;
      }
      envelopes := envelopes[c.id :=
        Envelope(Draft, c.templateId, c.documentId, c.documentHash, c.signers, template.fields, c.expiresAt, {}, 1,
          None, None)];
      others, ok := others + 1, true;
      assert State() == goal;
    }

    method EnvelopeDispatchPlan(now: int, c: Command) returns (ok: bool)
      requires Valid() && c.Dispatch?
      modifies this
      ensures Valid() && State() == Next(old(State()), Call(now, c))
      ensures ok <==> Step(old(State()), now, c).Done?
    {
      ghost var goal := Next(State(), Call(now, c));
      NextIsReachable(State(), Call(now, c));
      if c.envelopeId !in envelopes {
        return false;
      }
      var envelope := envelopes[c.envelopeId];
      if c.expectedVersion != envelope.version || !envelope.state.Draft? || envelope.expiresAt <= now {
        return false;
      }
      if c.preview != BoundaryOf(c.envelopeId, envelope) || c.eventId in events {
        return false;
      }
      events := events[c.eventId := DispatchPlan(c.envelopeId, c.preview)];
      envelopes := envelopes[c.envelopeId :=
        envelope.(state := Ready, planId := Some(c.eventId), version := envelope.version + 1)];
      others, ok := others + 1, true;
      assert State() == goal;
    }

    method MayIssue(now: int, c: Command) returns (ok: bool, signer: Signer)
      requires c.IssueSession?
      ensures ok <==> Step(State(), now, c).Done?
      ensures ok ==> FindSigner(envelopes[c.envelopeId].signers, c.signerId) == Some(signer)
    {
      ok, signer := false, Signer(0, "", "", 0);
      if c.envelopeId !in envelopes {
        return;
      }
      var envelope := envelopes[c.envelopeId];
      if !envelope.Active() || c.expectedVersion != envelope.version {
        return;
      }
      var found := FindSigner(envelope.signers, c.signerId);
      if found.None? || c.signerId in envelope.completed || !InTurn(envelope, found.value) {
        return;
      }
      if c.expiresAt <= now || c.expiresAt > envelope.expiresAt || Full(|sessions|) {
        return;
      }
      if exists k :: k in sessions && OpenFor(sessions[k], c.envelopeId, c.signerId) && sessions[k].expiresAt > now {
        return;
      }
      ok, signer := c.sessionId !in sessions, found.value;
    }

    method StoreSession(now: int, c: Command, signer: Signer)
      requires c.IssueSession? && StepIssue(State(), now, c).Done?
      requires FindSigner(envelopes[c.envelopeId].signers, c.signerId) == Some(signer)
      modifies this
      ensures State() == StepIssue(old(State()), now, c).store
    {
      var envelope := envelopes[c.envelopeId];
      RetireSessions(c.envelopeId, c.signerId, now);
      sessions := sessions[c.sessionId :=
        Session(c.envelopeId, c.signerId, signer.keyHash, signer.role, c.token, Open, now, c.expiresAt, None, 1)];
      envelopes := envelopes[c.envelopeId := envelope.(state := InProgress, version := envelope.version + 1)];
    }

    method SignerSessionIssue(now: int, c: Command) returns (ok: bool)
      requires Valid() && c.IssueSession?
      modifies this
      ensures Valid() && State() == Next(old(State()), Call(now, c))
      ensures ok <==> Step(old(State()), now, c).Done?
    {
      NextIsReachable(State(), Call(now, c));
      var signer;
      ok, signer := MayIssue(now, c);
      if ok {
        StoreSession(now, c, signer);
        others := others + 1;
      }
    }

    /** The loop that closes this signer's expired sessions, one record at a time. */
    method RetireSessions(envelopeId: Id, signerId: Id, now: int)
      modifies `sessions
      ensures sessions == RetireExpired(old(sessions), envelopeId, signerId, now)
    {
      var expired := set k | k in sessions && OpenFor(sessions[k], envelopeId, signerId)
        && sessions[k].expiresAt <= now;
      while expired != {}
        invariant sessions.Keys == old(sessions.Keys) && expired <= sessions.Keys
        invariant forall k :: k in expired ==>
          sessions[k] == old(sessions)[k] && OpenFor(sessions[k], envelopeId, signerId) && sessions[k].expiresAt <= now
        invariant forall k :: k in sessions && k !in expired ==>
          sessions[k] == RetireExpired(old(sessions), envelopeId, signerId, now)[k]
        decreases expired
      {
        var k :| k in expired;
        sessions := sessions[k :=
          sessions[k].(state := Expired, endedAt := Some(now), version := sessions[k].version + 1)];
        expired := expired - {k};
      }
    }

    /** `sessionForToken`. */
    method SessionForToken(envelopeId: Id, signerId: Id, token: Token, now: int) returns (found: Option<Id>)
      ensures found == SessionFor(State(), envelopeId, signerId, token, now)
    {
      var matches := set k | k in sessions && sessions[k].token == token;
      assert forall k :: k in sessions && sessions[k].token == token ==> k in matches;
      if matches == {} {
        assert forall k :: !SoleHolder(sessions, token, k);
        return None;
      }
      var id :| id in matches;
      if matches != {id} {
        assert exists other :: other in matches && other != id;
        assert forall k :: !SoleHolder(sessions, token, k);
        return None;
      }
      assert SoleHolder(sessions, token, id);
      found := if OpenFor(sessions[id], envelopeId, signerId) && sessions[id].expiresAt > now then Some(id) else None;
    }

    method MayComplete(now: int, c: Command) returns (ok: bool, signer: Signer, sessionId: Id)
      requires c.Complete?
      ensures ok <==> Step(State(), now, c).Done?
      ensures ok ==> FindSigner(envelopes[c.envelopeId].signers, c.signerId) == Some(signer)
      ensures ok ==> SessionFor(State(), c.envelopeId, c.signerId, c.token, now) == Some(sessionId)
    {
      ok, signer, sessionId := false, Signer(0, "", "", 0), 0;
      if c.envelopeId !in envelopes {
        return;
      }
      var envelope := envelopes[c.envelopeId];
      if !envelope.Active() || c.expectedVersion != envelope.version {
        return;
      }
      var route := FindSigner(envelope.signers, c.signerId);
      var found := SessionForToken(c.envelopeId, c.signerId, c.token, now);
      if route.None? || found.None? {
        return;
      }
      signer, sessionId := route.value, found.value;
      if c.expectedSession != sessions[sessionId].version
        || !FactsFit(envelope.fields, signer.role, c.inputs, sessions[sessionId].issuedAt, now) {
        return;
      }
      ok := !Full(|facts|) && !exists input :: input in c.inputs && Recorded(facts, c.envelopeId, input.fieldId);
    }

    method StoreCompletion(now: int, c: Command, signer: Signer, sessionId: Id)
      requires c.Complete? && StepComplete(State(), now, c).Done?
      requires FindSigner(envelopes[c.envelopeId].signers, c.signerId) == Some(signer)
      requires SessionFor(State(), c.envelopeId, c.signerId, c.token, now) == Some(sessionId)
      modifies this
      ensures State() == StepComplete(old(State()), now, c).store
    {
      var envelope, session := envelopes[c.envelopeId], sessions[sessionId];
      PushFacts(envelope, c.envelopeId, sessionId, signer, c.inputs);
      sessions := sessions[sessionId :=
        session.(state := Finished, endedAt := Some(now), version := session.version + 1)];
      var completed := envelope.completed + {c.signerId};
      var all := AllCompleted(envelope.signers, completed);
      envelopes := envelopes[c.envelopeId := envelope.(
        state := if all then Completed else InProgress, completed := completed,
        endedAt := if all then Some(now) else envelope.endedAt, version := envelope.version + 1)];
    }

    method FieldCompletionRecord(now: int, c: Command) returns (ok: bool)
      requires Valid() && c.Complete?
      modifies this
      ensures Valid() && State() == Next(old(State()), Call(now, c))
      ensures ok <==> Step(old(State()), now, c).Done?
    {
      NextIsReachable(State(), Call(now, c));
      var signer, sessionId;
      ok, signer, sessionId := MayComplete(now, c);
      if ok {
        StoreCompletion(now, c, signer, sessionId);
        others := others + 1;
      }
    }

    method PushFacts(envelope: Envelope, envelopeId: Id, sessionId: Id, signer: Signer, inputs: seq<FactInput>)
      modifies `facts
      ensures facts == old(facts) + FactsFor(envelope, envelopeId, sessionId, signer, inputs)
    {
      var i := 0;
      while i < |inputs|
        invariant 0 <= i <= |inputs|
        invariant facts == old(facts) + FactsFor(envelope, envelopeId, sessionId, signer, inputs[..i])
      {
        facts := facts + [FactFor(envelope, envelopeId, sessionId, signer, inputs[i])];
        assert FactsFor(envelope, envelopeId, sessionId, signer, inputs[..i + 1])
            == FactsFor(envelope, envelopeId, sessionId, signer, inputs[..i])
             + [FactFor(envelope, envelopeId, sessionId, signer, inputs[i])];
        i := i + 1;
      }
      assert inputs[..i] == inputs;
    }

    method MayDecline(now: int, c: Command) returns (ok: bool, sessionId: Id)
      requires c.Decline?
      ensures ok <==> Step(State(), now, c).Done?
      ensures ok ==> SessionFor(State(), c.envelopeId, c.signerId, c.token, now) == Some(sessionId)
    {
      ok, sessionId := false, 0;
      if c.envelopeId !in envelopes {
        return;
      }
      var envelope := envelopes[c.envelopeId];
      if !envelope.Active() || c.expectedVersion != envelope.version || FindSigner(envelope.signers, c.signerId).None? {
        return;
      }
      var found := SessionForToken(c.envelopeId, c.signerId, c.token, now);
      if found.None? || c.expectedSession != sessions[found.value].version || c.eventId in events {
        return;
      }
      ok, sessionId := true, found.value;
    }

    method StoreDecline(now: int, c: Command, sessionId: Id)
      requires c.Decline? && StepDecline(State(), now, c).Done?
      requires SessionFor(State(), c.envelopeId, c.signerId, c.token, now) == Some(sessionId)
      modifies this
      ensures State() == StepDecline(old(State()), now, c).store
    {
      var envelope, session := envelopes[c.envelopeId], sessions[sessionId];
      events := events[c.eventId := DeclineEvent(c.envelopeId, c.signerId, c.reason, now)];
      sessions := sessions[sessionId :=
        session.(state := Refusing, endedAt := Some(now), version := session.version + 1)];
      envelopes := envelopes[c.envelopeId :=
        envelope.(state := Declined, endedAt := Some(now), version := envelope.version + 1)];
    }

    method DeclineRecord(now: int, c: Command) returns (ok: bool)
      requires Valid() && c.Decline?
      modifies this
      ensures Valid() && State() == Next(old(State()), Call(now, c))
      ensures ok <==> Step(old(State()), now, c).Done?
    {
      NextIsReachable(State(), Call(now, c));
      var sessionId;
      ok, sessionId := MayDecline(now, c);
      if ok {
        StoreDecline(now, c, sessionId);
        others := others + 1;
      }
    }

    /** The loop that revokes every open session of a voided envelope. */
    method RevokeSessions(envelopeId: Id, now: int)
      modifies `sessions
      ensures sessions == CancelOpen(old(sessions), envelopeId, now)
    {
      var open := set k | k in sessions && sessions[k].envelopeId == envelopeId && sessions[k].state.Open?;
      while open != {}
        invariant sessions.Keys == old(sessions.Keys) && open <= sessions.Keys
        invariant forall k :: k in open ==>
          sessions[k] == old(sessions)[k] && sessions[k].envelopeId == envelopeId && sessions[k].state.Open?
        invariant forall k :: k in sessions && k !in open ==>
          sessions[k] == CancelOpen(old(sessions), envelopeId, now)[k]
        decreases open
      {
        var k :| k in open;
        sessions := sessions[k :=
          sessions[k].(state := Cancelled, endedAt := Some(now), version := sessions[k].version + 1)];
        open := open - {k};
      }
    }

    method StoreVoid(now: int, c: Command)
      requires c.VoidEnvelope? && StepVoid(State(), now, c).Done?
      modifies this
      ensures State() == StepVoid(old(State()), now, c).store
    {
      var envelope := envelopes[c.envelopeId];
      events := events[c.eventId := VoidEvent(c.envelopeId, c.reason, now)];
      RevokeSessions(c.envelopeId, now);
      envelopes := envelopes[c.envelopeId :=
        envelope.(state := Voided, endedAt := Some(now), version := envelope.version + 1)];
    }

    method EnvelopeVoid(now: int, c: Command) returns (ok: bool)
      requires Valid() && c.VoidEnvelope?
      modifies this
      ensures Valid() && State() == Next(old(State()), Call(now, c))
      ensures ok <==> Step(old(State()), now, c).Done?
    {
      NextIsReachable(State(), Call(now, c));
      if c.envelopeId !in envelopes {
        return false;
      }
      var envelope := envelopes[c.envelopeId];
      if c.expectedVersion != envelope.version || envelope.Terminal() || Full(|sessions|) || c.eventId in events {
        return false;
      }
      StoreVoid(now, c);
      others, ok := others + 1, true;
    }

    method ReminderPlanned(now: int, c: Command) returns (ok: bool)
      requires Valid() && c.Remind?
      modifies this
      ensures Valid() && State() == Next(old(State()), Call(now, c))
      ensures ok <==> Step(old(State()), now, c).Done?
    {
      ghost var goal := Next(State(), Call(now, c));
      NextIsReachable(State(), Call(now, c));
      if c.envelopeId !in envelopes {
        return false;
      }
      var envelope := envelopes[c.envelopeId];
      if !envelope.Active() || c.expectedVersion != envelope.version || FindSigner(envelope.signers, c.signerId).None? {
        return false;
      }
      if c.signerId in envelope.completed || c.notBefore < now || c.notBefore >= envelope.expiresAt {
        return false;
      }
      if c.planPreview != Reminder(c.envelopeId, envelope.version, c.signerId, c.notBefore) || c.eventId in events {
        return false;
      }
      events := events[c.eventId := Event.ReminderPlan(c.envelopeId, c.planPreview)];
      others, ok := others + 1, true;
      assert State() == goal;
    }

    method MayExport(c: Command) returns (ok: bool, found: bool)
      requires c.Export?
      ensures ok <==> StepExport(State(), c).Done?
      ensures ok ==> c.envelopeId in envelopes && found == Certified(State(), c.envelopeId)
    {
      ok, found := false, false;
      if c.envelopeId !in envelopes {
        return;
      }
      var envelope := envelopes[c.envelopeId];
      if c.expectedVersion != envelope.version || !envelope.Terminal() || Full(State().Size()) {
        return;
      }
      found := Certified(State(), c.envelopeId);
      ok := found || c.certificateId !in certificates;
    }

    method StoreCertificate(c: Command)
      requires c.Export? && StepExport(State(), c).Done? && !Certified(State(), c.envelopeId)
      modifies `certificates
      ensures State() == StepExport(old(State()), c).store
    {
      certificates :=
        certificates[c.certificateId := Certificate(c.envelopeId, ManifestOf(State(), c.envelopeId), c.format)];
    }

    method ExportOnce(c: Command) returns (ok: bool)
      requires c.Export?
      modifies `certificates
      ensures ok <==> StepExport(old(State()), c).Done?
      ensures State() == if ok then StepExport(old(State()), c).store else old(State())
    {
      var found;
      ok, found := MayExport(c);
      if ok && !found {
        StoreCertificate(c);
      }
    }

    method CertificateExport(now: int, c: Command) returns (ok: bool)
      requires Valid() && c.Export?
      modifies this
      ensures Valid() && State() == Next(old(State()), Call(now, c))
      ensures ok <==> Step(old(State()), now, c).Done?
    {
      NextIsReachable(State(), Call(now, c));
      ok := ExportOnce(c);
      if ok {
        others := others + 1;
      }
    }

    /** `executeEsignAction`, once a request is known to be no repeat. */
    method Execute(now: int, c: Command) returns (ok: bool)
      requires Valid()
      modifies this
      ensures Valid() && State() == Next(old(State()), Call(now, c))
      ensures ok <==> Step(old(State()), now, c).Done?
    {
      match c
      case CreateTemplate(_) => ok := TemplateCreate(now, c);
      case CreateVersion(_, _, _, _, _, _) => ok := TemplateVersionCreate(now, c);
      case RegisterDocument(_, _) => ok := DocumentRegister(now, c);
      case DraftEnvelope(_, _, _, _, _, _) => ok := EnvelopeDraft(now, c);
      case Dispatch(_, _, _, _) => ok := EnvelopeDispatchPlan(now, c);
      case IssueSession(_, _, _, _, _, _) => ok := SignerSessionIssue(now, c);
      case Complete(_, _, _, _, _, _) => ok := FieldCompletionRecord(now, c);
      case Decline(_, _, _, _, _, _, _) => ok := DeclineRecord(now, c);
      case VoidEnvelope(_, _, _, _) => ok := EnvelopeVoid(now, c);
      case Remind(_, _, _, _, _, _) => ok := ReminderPlanned(now, c);
      case Export(_, _, _, _) => ok := CertificateExport(now, c);
      case Log(count) =>
        NextIsReachable(State(), Call(now, c));
        others, ok := others + count + 1, true;
    }
  }
}
