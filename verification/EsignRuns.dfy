/** What every run of e-signature commands keeps, envelope by envelope. */
module EsignRuns {
  import opened Options
  import opened Sorting
  import opened Esign

  // ---------------------------------------------------------------- invariants

  ghost predicate Route(signers: seq<Signer>) {
    && signers != []
    && (forall i, j :: 0 <= i < j < |signers| ==>
         signers[i].id != signers[j].id && signers[i].role != signers[j].role && signers[i].order != signers[j].order)
    && (forall s :: s in signers ==> 1 <= s.order <= |signers|)
    && forall k :: 1 <= k <= |signers| ==> HasOrder(signers, k)
  }

  ghost predicate HasOrder(signers: seq<Signer>, k: int) {
    exists s :: s in signers && s.order == k
  }

  ghost predicate RouteOk(e: Envelope) {
    && Route(e.signers) && DistinctFields(e.fields)
    && forall f :: f in e.fields ==> exists s :: s in e.signers && s.role == f.role
  }

  /** The completed signers are exactly the first ones of the route. */
  ghost predicate Prefix(e: Envelope) {
    && (forall id :: id in e.completed ==> exists s :: s in e.signers && s.id == id)
    && forall s :: s in e.signers ==> (s.id in e.completed <==> s.order <= |e.completed|)
  }

  ghost predicate Progress(e: Envelope) {
    && Prefix(e) && |e.completed| <= |e.signers|
    && (e.state.Draft? || e.state.Ready? ==> e.completed == {})
    && (e.state.Completed? <==> |e.completed| == |e.signers|)
  }

  ghost predicate SessionOk(e: Envelope, session: Session) {
    exists s :: s in e.signers && s.id == session.signerId && s.role == session.role && s.keyHash == session.keyHash
      && (session.state.Open? ==> e.state.InProgress? && s.order == |e.completed| + 1)
      && (session.state.Finished? ==> s.id in e.completed)
  }

  ghost predicate SessionsOk(s: Store, id: Id)
    requires id in s.envelopes
  {
    && (forall k :: k in s.sessions && s.sessions[k].envelopeId == id ==> SessionOk(s.envelopes[id], s.sessions[k]))
    && forall j, k :: j in s.sessions && k in s.sessions && OpenIn(s.sessions[j], id) && OpenIn(s.sessions[k], id) ==>
         j == k
  }

  ghost predicate OpenIn(session: Session, id: Id) {
    session.envelopeId == id && session.state.Open?
  }

  /** A fact names one field of the envelope, was made by a compatible method, and belongs to a finished session
      of the signer who holds the field's role. */
  ghost predicate FactOk(s: Store, e: Envelope, fact: Fact) {
    && fact.sessionId in s.sessions
    && var session := s.sessions[fact.sessionId];
    && session.envelopeId == fact.envelopeId && session.state.Finished? && session.signerId == fact.signerId
    && fact.signerId in e.completed && Compatible(fact.kind, fact.how)
    && exists f :: f in e.fields && f.id == fact.fieldId && f.kind == fact.kind && f.role == session.role
  }

  ghost predicate FactsOk(s: Store, id: Id)
    requires id in s.envelopes
  {
    && (forall fact :: fact in s.facts && fact.envelopeId == id ==> FactOk(s, s.envelopes[id], fact))
    && forall i, j :: 0 <= i < j < |s.facts| && s.facts[i].envelopeId == id && s.facts[j].envelopeId == id ==>
         s.facts[i].fieldId != s.facts[j].fieldId
  }

  ghost predicate Covered(s: Store, id: Id)
    requires id in s.envelopes
  {
    var e := s.envelopes[id];
    forall signer, f ::
      signer in e.signers && signer.id in e.completed && f in e.fields && f.role == signer.role && f.required ==>
      Recorded(s.facts, id, f.id)
  }

  ghost predicate CertificatesOk(s: Store, id: Id)
    requires id in s.envelopes
  {
    && (forall k :: k in s.certificates && s.certificates[k].envelopeId == id ==>
          s.envelopes[id].Terminal() && s.certificates[k].manifest == ManifestOf(s, id))
    && forall j, k | j in s.certificates && k in s.certificates ::
         s.certificates[j].envelopeId == id && s.certificates[k].envelopeId == id ==> j == k
  }

  ghost predicate EnvelopeOk(s: Store, id: Id)
    requires id in s.envelopes
  {
    RouteOk(s.envelopes[id]) && Progress(s.envelopes[id]) && SessionsOk(s, id) && FactsOk(s, id) && Covered(s, id)
      && CertificatesOk(s, id)
  }

  ghost predicate Anchored(s: Store) {
    && (forall k :: k in s.templates ==> ValidSnapshot(s.templates[k].roles, s.templates[k].fields))
    && (forall k :: k in s.sessions ==> s.sessions[k].envelopeId in s.envelopes)
    && (forall fact :: fact in s.facts ==> fact.envelopeId in s.envelopes)
    && (forall k :: k in s.events ==> s.events[k].envelopeId in s.envelopes)
    && forall k :: k in s.certificates ==> s.certificates[k].envelopeId in s.envelopes
  }

  ghost predicate Inv(s: Store) {
    Anchored(s) && forall id :: id in s.envelopes ==> EnvelopeOk(s, id)
  }

  // ------------------------------------------------------- frames, per envelope

  /** Nothing about envelope `id` differs between `s` and `n`, but `extra` facts on others were added. */
  ghost predicate Untouched(s: Store, n: Store, id: Id, extra: seq<Fact>) {
    && id in s.envelopes && id in n.envelopes && n.envelopes[id] == s.envelopes[id]
    && (forall k :: k in s.sessions && s.sessions[k].envelopeId == id ==>
         k in n.sessions && n.sessions[k] == s.sessions[k])
    && (forall k :: k in n.sessions && n.sessions[k].envelopeId == id ==>
         k in s.sessions && n.sessions[k] == s.sessions[k])
    && (forall k :: k in s.events && s.events[k].envelopeId == id ==> k in n.events && n.events[k] == s.events[k])
    && (forall k :: k in n.events && n.events[k].envelopeId == id ==> k in s.events && n.events[k] == s.events[k])
    && (forall k :: k in n.certificates && n.certificates[k].envelopeId == id ==>
         k in s.certificates && n.certificates[k] == s.certificates[k])
    && n.facts == s.facts + extra && forall fact :: fact in extra ==> fact.envelopeId != id
  }

  lemma {:induction false} FactsOfAppend(facts: seq<Fact>, extra: seq<Fact>, id: Id)
    requires forall fact :: fact in extra ==> fact.envelopeId != id
    ensures FactsOf(facts + extra, id) == FactsOf(facts, id)
    decreases |extra|
  {
    if extra == [] {
      assert facts + extra == facts;
    } else {
      var last := |facts + extra| - 1;
      assert (facts + extra)[..last] == facts + extra[..|extra| - 1];
      assert (facts + extra)[last] == extra[|extra| - 1];
      FactsOfAppend(facts, extra[..|extra| - 1], id);
    }
  }

  lemma UntouchedManifest(s: Store, n: Store, id: Id, extra: seq<Fact>)
    requires Untouched(s, n, id, extra)
    ensures ManifestOf(n, id) == ManifestOf(s, id)
  {
    FactsOfAppend(s.facts, extra, id);
    var a, b := ManifestOf(s, id), ManifestOf(n, id);
    assert a.sessions == b.sessions;
    assert a.events == b.events;
  }

  lemma RecordedStays(facts: seq<Fact>, extra: seq<Fact>, id: Id, fieldId: Id)
    requires Recorded(facts, id, fieldId)
    ensures Recorded(facts + extra, id, fieldId)
  {
    var fact :| fact in facts && fact.envelopeId == id && fact.fieldId == fieldId;
    assert fact in facts + extra;
  }

  lemma AppendedFrom(facts: seq<Fact>, extra: seq<Fact>, i: nat)
    requires i < |facts + extra|
    ensures if i < |facts| then (facts + extra)[i] == facts[i] else (facts + extra)[i] in extra
  {
    if i >= |facts| {
      assert (facts + extra)[i] == extra[i - |facts|];
    }
  }

  lemma UntouchedFacts(s: Store, n: Store, id: Id, extra: seq<Fact>)
    requires Untouched(s, n, id, extra) && FactsOk(s, id) && Covered(s, id)
    ensures FactsOk(n, id) && Covered(n, id)
  {
    forall fact | fact in n.facts && fact.envelopeId == id ensures FactOk(n, n.envelopes[id], fact) {
      assert fact in s.facts;
      assert FactOk(s, s.envelopes[id], fact);
    }
    forall i, j | 0 <= i < j < |n.facts| && n.facts[i].envelopeId == id && n.facts[j].envelopeId == id
      ensures n.facts[i].fieldId != n.facts[j].fieldId {
      AppendedFrom(s.facts, extra, i);
      AppendedFrom(s.facts, extra, j);
    }
    var e := s.envelopes[id];
    forall signer, f | signer in e.signers && signer.id in e.completed && f in e.fields && f.role == signer.role
      && f.required
      ensures Recorded(n.facts, id, f.id) {
      RecordedStays(s.facts, extra, id, f.id);
    }
  }

  lemma UntouchedKeepsOk(s: Store, n: Store, id: Id, extra: seq<Fact>)
    requires Untouched(s, n, id, extra) && EnvelopeOk(s, id)
    ensures EnvelopeOk(n, id)
  {
    UntouchedManifest(s, n, id, extra);
    UntouchedFacts(s, n, id, extra);
  }

  // ------------------------------------------------------------ route and order

  lemma SignerRolesDistinct(signers: seq<Signer>, roles: seq<Role>)
    requires DistinctRoles(roles) && RouteMatches(signers, roles)
    ensures |signers| == |roles|
    ensures forall i, j :: 0 <= i < j < |signers| ==> signers[i].role != signers[j].role
    ensures forall r :: r in roles ==> exists s :: s in signers && s.role == r.name
  {
    var xs, ys := RoleNames(roles), SignerRoles(signers);
    SameElements(xs, ys);
    forall i, j | 0 <= i < j < |signers| ensures signers[i].role != signers[j].role {
      DistinctCount(xs, ys[i]);
      if ys[i] == ys[j] { TwiceCounted(ys, i, j); }
    }
    forall r | r in roles ensures exists s :: s in signers && s.role == r.name {
      var i :| 0 <= i < |roles| && roles[i] == r;
      assert xs[i] in ys;
      var j :| 0 <= j < |ys| && ys[j] == xs[i];
      assert signers[j] in signers;
    }
  }

  ghost predicate GivesOrder(roles: seq<Role>, k: int) {
    exists r :: r in roles && r.order == k
  }

  lemma RoleOrders(roles: seq<Role>)
    requires ContiguousFromOne(roles)
    ensures forall r :: r in roles ==> 1 <= r.order <= |roles|
    ensures forall k :: 1 <= k <= |roles| ==> GivesOrder(roles, k)
  {
    var orders := Orders(roles);
    var sorted := Sort(orders, (x: int, y: int) => x <= y);
    SameElements(sorted, orders);
    forall r | r in roles ensures 1 <= r.order <= |roles| {
      var i :| 0 <= i < |roles| && roles[i] == r;
      assert orders[i] in sorted;
    }
    forall k | 1 <= k <= |roles| ensures GivesOrder(roles, k) {
      assert sorted[k - 1] in orders;
      var i :| 0 <= i < |orders| && orders[i] == k;
      assert roles[i] in roles && roles[i].order == k;
    }
  }

  lemma SameRole(roles: seq<Role>, a: Role, b: Role)
    requires DistinctRoles(roles) && a in roles && b in roles && (a.name == b.name || a.order == b.order)
    ensures a == b
  {
    var i :| 0 <= i < |roles| && roles[i] == a;
    var j :| 0 <= j < |roles| && roles[j] == b;
  }

  /** A draft's signers, given in any order, number off 1, 2, 3, … like the template's roles. */
  lemma RouteFromTemplate(signers: seq<Signer>, roles: seq<Role>, fields: seq<Field>)
    requires ValidSnapshot(roles, fields) && DistinctSigners(signers) && RouteMatches(signers, roles)
    ensures Route(signers)
    ensures forall f :: f in fields ==> exists s :: s in signers && s.role == f.role
  {
    SignerRolesDistinct(signers, roles);
    RoleOrders(roles);
    forall i, j | 0 <= i < j < |signers| ensures signers[i].order != signers[j].order {
      assert signers[i] in signers && signers[j] in signers;
      var a :| a in roles && a.name == signers[i].role && a.order == signers[i].order;
      var b :| b in roles && b.name == signers[j].role && b.order == signers[j].order;
      if a.order == b.order { SameRole(roles, a, b); }
    }
    forall k | 1 <= k <= |signers| ensures HasOrder(signers, k) {
      assert GivesOrder(roles, k);
      var r :| r in roles && r.order == k;
      var s :| s in signers && s.role == r.name;
      var a :| a in roles && a.name == s.role && a.order == s.order;
      SameRole(roles, a, r);
    }
    forall f | f in fields ensures exists s :: s in signers && s.role == f.role {
      assert FieldFits(f, roles);
      var r :| r in roles && r.name == f.role;
    }
  }

  lemma SameSigner(e: Envelope, a: Signer, b: Signer)
    requires Route(e.signers) && a in e.signers && b in e.signers
    requires a.id == b.id || a.role == b.role || a.order == b.order
    ensures a == b
  {
    var i :| 0 <= i < |e.signers| && e.signers[i] == a;
    var j :| 0 <= j < |e.signers| && e.signers[j] == b;
  }

  /** A signer whose turn it is comes right after the completed ones. */
  lemma TurnIsNext(e: Envelope, signer: Signer)
    requires Route(e.signers) && Progress(e) && signer in e.signers && signer.id !in e.completed && InTurn(e, signer)
    ensures signer.order == |e.completed| + 1
  {
    var k := |e.completed| + 1;
    assert HasOrder(e.signers, k);
    var other :| other in e.signers && other.order == k;
    assert other.id !in e.completed;
  }

  lemma NextCompletes(e: Envelope, n: Envelope, signer: Signer)
    requires Route(e.signers) && Progress(e) && signer in e.signers && signer.order == |e.completed| + 1
    requires n.signers == e.signers && n.completed == e.completed + {signer.id}
    requires n.state == (if AllCompleted(e.signers, n.completed) then Completed else InProgress)
    ensures Progress(n) && |n.completed| == |e.completed| + 1
  {
    assert signer.id !in e.completed;
    forall s | s in n.signers ensures s.id in n.completed <==> s.order <= |n.completed| {
      if s.id == signer.id { SameSigner(e, s, signer); }
      if s.order == signer.order { SameSigner(e, s, signer); }
    }
    if AllCompleted(e.signers, n.completed) {
      assert HasOrder(e.signers, |e.signers|);
    }
  }

  // ---------------------------------------------------------- each command alone

  /** All that a command did, it did to envelope `id`. */
  ghost predicate Local(s: Store, n: Store, id: Id, extra: seq<Fact>) {
    forall x :: x in n.envelopes && x != id ==> Untouched(s, n, x, extra)
  }

  lemma Combine(s: Store, n: Store, id: Id, extra: seq<Fact>)
    requires Inv(s) && Anchored(n) && Local(s, n, id, extra) && (id in n.envelopes ==> EnvelopeOk(n, id))
    ensures Inv(n)
  {
    forall x | x in n.envelopes ensures EnvelopeOk(n, x) {
      if x != id { UntouchedKeepsOk(s, n, x, extra); }
    }
  }

  lemma OpenCertificates(s: Store, n: Store, id: Id)
    requires id in s.envelopes && CertificatesOk(s, id) && !s.envelopes[id].Terminal()
    requires id in n.envelopes && n.certificates == s.certificates
    ensures CertificatesOk(n, id)
  {
  }

  lemma SameFacts(s: Store, n: Store, id: Id)
    requires id in s.envelopes && FactsOk(s, id) && Covered(s, id)
    requires id in n.envelopes && n.facts == s.facts
    requires var e, e' := s.envelopes[id], n.envelopes[id];
      e'.signers == e.signers && e'.fields == e.fields && e'.completed == e.completed
    requires forall k :: k in s.sessions && s.sessions[k].state.Finished? ==>
      k in n.sessions && n.sessions[k] == s.sessions[k]
    ensures FactsOk(n, id) && Covered(n, id)
  {
    forall fact | fact in n.facts && fact.envelopeId == id ensures FactOk(n, n.envelopes[id], fact) {
      assert FactOk(s, s.envelopes[id], fact);
    }
  }

  lemma SameSessions(s: Store, n: Store, id: Id)
    requires id in s.envelopes && SessionsOk(s, id) && id in n.envelopes && n.sessions == s.sessions
    requires var e, e' := s.envelopes[id], n.envelopes[id];
      e'.signers == e.signers && e'.completed == e.completed && (e'.state == e.state || !e.state.InProgress?)
    ensures SessionsOk(n, id)
  {
    forall k | k in n.sessions && n.sessions[k].envelopeId == id ensures SessionOk(n.envelopes[id], n.sessions[k]) {
      assert SessionOk(s.envelopes[id], s.sessions[k]);
    }
  }

  /** Registries: only heads, templates or documents changed. */
  lemma RegistryKeepsOk(s: Store, n: Store)
    requires Inv(s) && Anchored(n)
    requires n.envelopes == s.envelopes && n.sessions == s.sessions && n.facts == s.facts && n.events == s.events
    requires n.certificates == s.certificates
    ensures Inv(n)
  {
    assert n.facts == s.facts + [];
    forall x | x in n.envelopes ensures EnvelopeOk(n, x) {
      UntouchedKeepsOk(s, n, x, []);
    }
  }

  lemma RegistryKeepsInv(s: Store, now: int, c: Command)
    requires Inv(s) && (c.CreateTemplate? || c.CreateVersion? || c.RegisterDocument? || c.Log?) && Step(s, now, c).Done?
    ensures Inv(After(s, now, c))
  {
    RegistryAnchored(s, now, c);
    RegistryKeepsOk(s, After(s, now, c));
  }

  lemma RegistryAnchored(s: Store, now: int, c: Command)
    requires Anchored(s) && (c.CreateTemplate? || c.CreateVersion? || c.RegisterDocument? || c.Log?)
    requires Step(s, now, c).Done?
    ensures var n := After(s, now, c);
      && Anchored(n) && n.envelopes == s.envelopes && n.sessions == s.sessions && n.facts == s.facts
      && n.events == s.events && n.certificates == s.certificates
  {
  }

  ghost predicate Drafts(s: Store, n: Store, id: Id) {
    && id !in s.envelopes && id in n.envelopes && n == s.(envelopes := s.envelopes[id := n.envelopes[id]])
    && n.envelopes[id].completed == {}
  }

  lemma DraftedLocal(s: Store, n: Store, id: Id)
    requires Anchored(s) && Drafts(s, n, id)
    ensures Anchored(n) && Local(s, n, id, [])
  {
    assert n.facts == s.facts + [];
  }

  lemma DraftMeans(s: Store, now: int, c: Command)
    requires c.DraftEnvelope? && Step(s, now, c).Done?
    ensures Drafts(s, After(s, now, c), c.id)
  {
  }

  lemma DraftOk(s: Store, now: int, c: Command)
    requires Anchored(s) && c.DraftEnvelope? && Step(s, now, c).Done?
    ensures var n := After(s, now, c); c.id in n.envelopes && EnvelopeOk(n, c.id)
  {
    var n := After(s, now, c);
    var template := s.templates[c.templateId];
    RouteFromTemplate(c.signers, template.roles, template.fields);
    assert RouteOk(n.envelopes[c.id]) && Progress(n.envelopes[c.id]);
    NothingYet(s, n, c.id);
  }

  lemma NothingYet(s: Store, n: Store, id: Id)
    requires Anchored(s) && id !in s.envelopes && id in n.envelopes && n.envelopes[id].completed == {}
    requires n.sessions == s.sessions && n.facts == s.facts && n.certificates == s.certificates
    ensures SessionsOk(n, id) && FactsOk(n, id) && Covered(n, id) && CertificatesOk(n, id)
  {
  }

  lemma DraftKeepsInv(s: Store, now: int, c: Command)
    requires Inv(s) && c.DraftEnvelope? && Step(s, now, c).Done?
    ensures Inv(After(s, now, c))
  {
    DraftMeans(s, now, c);
    DraftedLocal(s, After(s, now, c), c.id);
    DraftOk(s, now, c);
    Combine(s, After(s, now, c), c.id, []);
  }

  /** An event was added and the envelope moved at most from draft to ready. */
  ghost predicate Notes(s: Store, n: Store, id: Id, eventId: Id, event: Event) {
    && id in s.envelopes && !s.envelopes[id].Terminal() && eventId !in s.events && event.envelopeId == id
    && var e := s.envelopes[id];
    && n == s.(events := s.events[eventId := event], envelopes := n.envelopes)
    && id in n.envelopes && n.envelopes == s.envelopes[id := n.envelopes[id]]
    && var e' := n.envelopes[id];
    && e'.signers == e.signers && e'.fields == e.fields && e'.completed == e.completed
    && (e'.state == e.state || (e.state.Draft? && e'.state.Ready?))
  }

  lemma NotedAnchored(s: Store, n: Store, id: Id, eventId: Id, event: Event)
    requires Anchored(s) && Notes(s, n, id, eventId, event)
    ensures Anchored(n) && Local(s, n, id, [])
  {
    assert n.facts == s.facts + [];
    forall x | x in n.envelopes && x != id ensures Untouched(s, n, x, []) {
    }
  }

  lemma NotedKeepsInv(s: Store, n: Store, id: Id, eventId: Id, event: Event)
    requires Inv(s) && Notes(s, n, id, eventId, event)
    ensures Inv(n)
  {
    NotedAnchored(s, n, id, eventId, event);
    NotedOk(s, n, id, eventId, event);
    Combine(s, n, id, []);
  }

  lemma NotedOk(s: Store, n: Store, id: Id, eventId: Id, event: Event)
    requires Notes(s, n, id, eventId, event) && EnvelopeOk(s, id)
    ensures EnvelopeOk(n, id)
  {
    OpenCertificates(s, n, id);
    SameFacts(s, n, id);
    SameSessions(s, n, id);
  }

  lemma NoteMeans(s: Store, now: int, c: Command) returns (event: Event)
    requires (c.Dispatch? || c.Remind?) && Step(s, now, c).Done?
    ensures Notes(s, After(s, now, c), c.envelopeId, c.eventId, event)
  {
    var n := After(s, now, c);
    event := n.events[c.eventId];
    assert n.envelopes == s.envelopes[c.envelopeId := n.envelopes[c.envelopeId]];
  }

  lemma NoteKeepsInv(s: Store, now: int, c: Command)
    requires Inv(s) && (c.Dispatch? || c.Remind?) && Step(s, now, c).Done?
    ensures Inv(After(s, now, c))
  {
    var event := NoteMeans(s, now, c);
    NotedKeepsInv(s, After(s, now, c), c.envelopeId, c.eventId, event);
  }

  ghost predicate Exports(s: Store, n: Store, id: Id, certificateId: Id, format: string) {
    && id in s.envelopes && s.envelopes[id].Terminal()
    && (Certified(s, id) ==> n == s)
    && (!Certified(s, id) ==>
          && certificateId !in s.certificates
          && n == s.(certificates := s.certificates[certificateId := Certificate(id, ManifestOf(s, id), format)]))
  }

  lemma ExportedOk(s: Store, n: Store, id: Id, certificateId: Id, format: string)
    requires id in s.envelopes && EnvelopeOk(s, id) && s.envelopes[id].Terminal() && !Certified(s, id)
    requires certificateId !in s.certificates
    requires n == s.(certificates := s.certificates[certificateId := Certificate(id, ManifestOf(s, id), format)])
    ensures EnvelopeOk(n, id)
  {
    assert ManifestOf(n, id) == ManifestOf(s, id);
    SameFacts(s, n, id);
    SameSessions(s, n, id);
  }

  lemma ExportedLocal(s: Store, n: Store, id: Id, certificateId: Id, format: string)
    requires id in s.envelopes && certificateId !in s.certificates
    requires n == s.(certificates := s.certificates[certificateId := Certificate(id, ManifestOf(s, id), format)])
    ensures Local(s, n, id, [])
  {
    assert n.facts == s.facts + [];
    forall x | x in n.envelopes && x != id ensures Untouched(s, n, x, []) {
    }
  }

  lemma ExportedAnchored(s: Store, n: Store, id: Id, certificateId: Id, format: string)
    requires Anchored(s) && id in s.envelopes && certificateId !in s.certificates
    requires n == s.(certificates := s.certificates[certificateId := Certificate(id, ManifestOf(s, id), format)])
    ensures Anchored(n)
  {
  }

  lemma ExportedKeepsInv(s: Store, n: Store, id: Id, certificateId: Id, format: string)
    requires Inv(s) && Exports(s, n, id, certificateId, format)
    ensures Inv(n)
  {
    if !Certified(s, id) {
      ExportedAnchored(s, n, id, certificateId, format);
      ExportedLocal(s, n, id, certificateId, format);
      ExportedOk(s, n, id, certificateId, format);
      Combine(s, n, id, []);
    }
  }

  lemma ExportMeans(s: Store, now: int, c: Command)
    requires c.Export? && Step(s, now, c).Done?
    ensures Exports(s, After(s, now, c), c.envelopeId, c.certificateId, c.format)
  {
  }

  lemma ExportKeepsInv(s: Store, now: int, c: Command)
    requires Inv(s) && c.Export? && Step(s, now, c).Done?
    ensures Inv(After(s, now, c))
  {
    ExportMeans(s, now, c);
    ExportedKeepsInv(s, After(s, now, c), c.envelopeId, c.certificateId, c.format);
  }

  // --- issuing a session

  ghost predicate Issues(s: Store, n: Store, id: Id, signer: Signer, now: int, sessionId: Id, session: Session) {
    && id in s.envelopes && sessionId !in s.sessions
    && var e := s.envelopes[id];
    && e.Active() && signer in e.signers && signer.id !in e.completed && InTurn(e, signer)
    && session.envelopeId == id && session.signerId == signer.id && session.keyHash == signer.keyHash
    && session.role == signer.role && session.state.Open?
    && (forall k :: k in s.sessions && OpenFor(s.sessions[k], id, signer.id) ==> s.sessions[k].expiresAt <= now)
    && n == s.(sessions := RetireExpired(s.sessions, id, signer.id, now)[sessionId := session],
               envelopes := s.envelopes[id := e.(state := InProgress, version := e.version + 1)])
  }

  lemma IssuedLocal(s: Store, n: Store, id: Id, signer: Signer, now: int, sessionId: Id, session: Session)
    requires Anchored(s) && Issues(s, n, id, signer, now, sessionId, session)
    ensures Local(s, n, id, [])
  {
    assert n.facts == s.facts + [];
    forall x | x in n.envelopes && x != id ensures Untouched(s, n, x, []) {
    }
  }

  lemma IssuedAnchored(s: Store, n: Store, id: Id, signer: Signer, now: int, sessionId: Id, session: Session)
    requires Anchored(s) && Issues(s, n, id, signer, now, sessionId, session)
    ensures Anchored(n)
  {
  }

  /** Any session still open would be for this very signer, and unexpired ones are excluded. */
  lemma IssuedIsOnlyOpen(s: Store, n: Store, id: Id, signer: Signer, now: int, sessionId: Id, session: Session, k: Id)
    requires Issues(s, n, id, signer, now, sessionId, session) && RouteOk(s.envelopes[id]) && Progress(s.envelopes[id])
    requires SessionsOk(s, id)
    requires k in n.sessions && OpenIn(n.sessions[k], id)
    ensures k == sessionId
  {
    var e := s.envelopes[id];
    TurnIsNext(e, signer);
    if k != sessionId {
      assert SessionOk(e, s.sessions[k]);
      var other :| other in e.signers && other.id == s.sessions[k].signerId && other.order == |e.completed| + 1;
      SameSigner(e, other, signer);
      assert false;
    }
  }

  lemma IssuedSessionsOk(s: Store, n: Store, id: Id, signer: Signer, now: int, sessionId: Id, session: Session)
    requires Issues(s, n, id, signer, now, sessionId, session) && RouteOk(s.envelopes[id]) && Progress(s.envelopes[id])
    requires SessionsOk(s, id)
    ensures SessionsOk(n, id)
  {
    var e := s.envelopes[id];
    TurnIsNext(e, signer);
    forall k | k in n.sessions && n.sessions[k].envelopeId == id ensures SessionOk(n.envelopes[id], n.sessions[k]) {
      if k != sessionId { assert SessionOk(e, s.sessions[k]); }
    }
    forall j, k | j in n.sessions && k in n.sessions && OpenIn(n.sessions[j], id) && OpenIn(n.sessions[k], id)
      ensures j == k {
      IssuedIsOnlyOpen(s, n, id, signer, now, sessionId, session, j);
      IssuedIsOnlyOpen(s, n, id, signer, now, sessionId, session, k);
    }
  }

  lemma IssuedOk(s: Store, n: Store, id: Id, signer: Signer, now: int, sessionId: Id, session: Session)
    requires Issues(s, n, id, signer, now, sessionId, session) && EnvelopeOk(s, id)
    ensures EnvelopeOk(n, id)
  {
    OpenCertificates(s, n, id);
    SameFacts(s, n, id);
    IssuedSessionsOk(s, n, id, signer, now, sessionId, session);
  }

  lemma IssueMeans(s: Store, now: int, c: Command) returns (signer: Signer, session: Session)
    requires c.IssueSession? && Step(s, now, c).Done?
    ensures Issues(s, After(s, now, c), c.envelopeId, signer, now, c.sessionId, session)
  {
    signer := FindSigner(s.envelopes[c.envelopeId].signers, c.signerId).value;
    session := After(s, now, c).sessions[c.sessionId];
  }

  lemma IssueKeepsInv(s: Store, now: int, c: Command)
    requires Inv(s) && c.IssueSession? && Step(s, now, c).Done?
    ensures Inv(After(s, now, c))
  {
    var n := After(s, now, c);
    var signer, session := IssueMeans(s, now, c);
    IssuedAnchored(s, n, c.envelopeId, signer, now, c.sessionId, session);
    IssuedLocal(s, n, c.envelopeId, signer, now, c.sessionId, session);
    IssuedOk(s, n, c.envelopeId, signer, now, c.sessionId, session);
    Combine(s, n, c.envelopeId, []);
  }

  // --- completing, declining, voiding

  /** Session `sessionId` was the signer's open one and became `session`. */
  ghost predicate Closes(s: Store, n: Store, id: Id, signer: Signer, sessionId: Id, session: Session) {
    && id in s.envelopes && s.envelopes[id].Active() && signer in s.envelopes[id].signers
    && sessionId in s.sessions && OpenFor(s.sessions[sessionId], id, signer.id)
    && !session.state.Open?
    && session == s.sessions[sessionId].(state := session.state, endedAt := session.endedAt,
              version := session.version)
    && n.sessions == s.sessions[sessionId := session] && n.certificates == s.certificates
    && id in n.envelopes && n.envelopes == s.envelopes[id := n.envelopes[id]]
    && n.envelopes[id].signers == s.envelopes[id].signers && n.envelopes[id].fields == s.envelopes[id].fields
    && n.templates == s.templates
  }

  lemma OpenSessionIsNext(s: Store, id: Id, signer: Signer, sessionId: Id)
    requires id in s.envelopes && RouteOk(s.envelopes[id]) && SessionsOk(s, id) && signer in s.envelopes[id].signers
    requires sessionId in s.sessions && OpenFor(s.sessions[sessionId], id, signer.id)
    ensures signer.order == |s.envelopes[id].completed| + 1 && signer.role == s.sessions[sessionId].role
    ensures signer.keyHash == s.sessions[sessionId].keyHash
    ensures s.envelopes[id].state.InProgress?
  {
    var e := s.envelopes[id];
    assert SessionOk(e, s.sessions[sessionId]);
    var other :| other in e.signers && other.id == signer.id && other.role == s.sessions[sessionId].role
      && other.keyHash == s.sessions[sessionId].keyHash && other.order == |e.completed| + 1;
    SameSigner(e, other, signer);
  }

  lemma ClosedSessionsOk(s: Store, n: Store, id: Id, signer: Signer, sessionId: Id, session: Session)
    requires Closes(s, n, id, signer, sessionId, session) && SessionsOk(s, id)
    requires s.envelopes[id].completed <= n.envelopes[id].completed
    requires session.state.Finished? ==> signer.id in n.envelopes[id].completed
    ensures SessionsOk(n, id)
    ensures forall k :: k in n.sessions ==> !OpenIn(n.sessions[k], id)
  {
    forall k | k in n.sessions ensures !OpenIn(n.sessions[k], id) {
      if k != sessionId { assert OpenIn(s.sessions[sessionId], id); }
    }
    forall k | k in n.sessions && n.sessions[k].envelopeId == id ensures SessionOk(n.envelopes[id], n.sessions[k]) {
      assert SessionOk(s.envelopes[id], s.sessions[k]);
    }
  }

  ghost predicate Completes(s: Store, n: Store, id: Id, signer: Signer, sessionId: Id, session: Session,
      inputs: seq<FactInput>, now: int)
  {
    && Closes(s, n, id, signer, sessionId, session) && session.state.Finished?
    && var e, e' := s.envelopes[id], n.envelopes[id];
    && e'.completed == e.completed + {signer.id}
    && e'.state == (if AllCompleted(e.signers, e'.completed) then Completed else InProgress)
    && n.facts == s.facts + FactsFor(e, id, sessionId, signer, inputs) && n.events == s.events
    && FactsFit(e.fields, signer.role, inputs, session.issuedAt, now)
    && forall input :: input in inputs ==> !Recorded(s.facts, id, input.fieldId)
  }

  lemma CompletedAnchored(s: Store, n: Store, id: Id, signer: Signer, sessionId: Id, session: Session,
      inputs: seq<FactInput>, now: int)
    requires Anchored(s) && Completes(s, n, id, signer, sessionId, session, inputs, now)
    ensures Anchored(n)
  {
    var extra := FactsFor(s.envelopes[id], id, sessionId, signer, inputs);
    assert forall fact :: fact in extra ==> fact.envelopeId == id;
    assert forall fact :: fact in n.facts ==> fact in s.facts || fact in extra;
  }

  lemma CompletedLeaves(s: Store, n: Store, id: Id, signer: Signer, sessionId: Id, session: Session,
      inputs: seq<FactInput>, now: int, x: Id)
    requires Completes(s, n, id, signer, sessionId, session, inputs, now) && x in n.envelopes && x != id
    ensures Untouched(s, n, x, FactsFor(s.envelopes[id], id, sessionId, signer, inputs))
  {
  }

  lemma CompletedLocal(s: Store, n: Store, id: Id, signer: Signer, sessionId: Id, session: Session,
      inputs: seq<FactInput>, now: int)
    requires Anchored(s) && Completes(s, n, id, signer, sessionId, session, inputs, now)
    ensures Anchored(n) && Local(s, n, id, FactsFor(s.envelopes[id], id, sessionId, signer, inputs))
  {
    var extra := FactsFor(s.envelopes[id], id, sessionId, signer, inputs);
    CompletedAnchored(s, n, id, signer, sessionId, session, inputs, now);
    forall x | x in n.envelopes && x != id ensures Untouched(s, n, x, extra) {
      CompletedLeaves(s, n, id, signer, sessionId, session, inputs, now, x);
    }
  }

  lemma NewFactOk(s: Store, n: Store, id: Id, signer: Signer, sessionId: Id, session: Session, inputs: seq<FactInput>,
      now: int, i: nat)
    requires Completes(s, n, id, signer, sessionId, session, inputs, now) && signer.role == session.role && i < |inputs|
    ensures var fact := FactsFor(s.envelopes[id], id, sessionId, signer, inputs)[i];
      FactOk(n, n.envelopes[id], fact) && fact.envelopeId == id && fact.fieldId == inputs[i].fieldId
        && !Recorded(s.facts, id, fact.fieldId)
  {
    assert InputFits(s.envelopes[id].fields, signer.role, inputs[i], session.issuedAt, now);
    var f := FindField(s.envelopes[id].fields, signer.role, inputs[i].fieldId).value;
    assert f in n.envelopes[id].fields;
  }

  lemma OldFactOk(s: Store, n: Store, id: Id, signer: Signer, sessionId: Id, session: Session, inputs: seq<FactInput>,
      now: int, fact: Fact)
    requires Completes(s, n, id, signer, sessionId, session, inputs, now) && FactOk(s, s.envelopes[id], fact)
    requires fact.envelopeId == id
    ensures FactOk(n, n.envelopes[id], fact)
  {
  }

  lemma CompletedFactsOk(s: Store, n: Store, id: Id, signer: Signer, sessionId: Id, session: Session,
      inputs: seq<FactInput>, now: int)
    requires Completes(s, n, id, signer, sessionId, session, inputs, now) && signer.role == session.role
    requires FactsOk(s, id)
    ensures FactsOk(n, id)
  {
    var extra := FactsFor(s.envelopes[id], id, sessionId, signer, inputs);
    var old' := |s.facts|;
    forall fact | fact in n.facts && fact.envelopeId == id ensures FactOk(n, n.envelopes[id], fact) {
      var i :| 0 <= i < |n.facts| && n.facts[i] == fact;
      if i < old' {
        assert fact == s.facts[i];
        OldFactOk(s, n, id, signer, sessionId, session, inputs, now, fact);
      } else {
        NewFactOk(s, n, id, signer, sessionId, session, inputs, now, i - old');
      }
    }
    CompletedFactsDiffer(s, n, id, signer, sessionId, session, inputs, now);
  }

  lemma CompletedFactsDiffer(s: Store, n: Store, id: Id, signer: Signer, sessionId: Id, session: Session,
      inputs: seq<FactInput>, now: int)
    requires Completes(s, n, id, signer, sessionId, session, inputs, now) && signer.role == session.role
    requires FactsOk(s, id)
    ensures forall i, j :: 0 <= i < j < |n.facts| && n.facts[i].envelopeId == id && n.facts[j].envelopeId == id ==>
      n.facts[i].fieldId != n.facts[j].fieldId
  {
    var extra := FactsFor(s.envelopes[id], id, sessionId, signer, inputs);
    var old' := |s.facts|;
    forall i, j | 0 <= i < j < |n.facts| && n.facts[i].envelopeId == id && n.facts[j].envelopeId == id
      ensures n.facts[i].fieldId != n.facts[j].fieldId {
      if j >= old' {
        NewFactOk(s, n, id, signer, sessionId, session, inputs, now, j - old');
        assert n.facts[j] == extra[j - old'];
        if i < old' {
          assert n.facts[i] == s.facts[i] && s.facts[i] in s.facts;
        } else {
          NewFactOk(s, n, id, signer, sessionId, session, inputs, now, i - old');
          assert n.facts[i] == extra[i - old'];
        }
      }
    }
  }

  lemma CompletedCovers(s: Store, n: Store, id: Id, signer: Signer, sessionId: Id, session: Session,
      inputs: seq<FactInput>, now: int)
    requires Completes(s, n, id, signer, sessionId, session, inputs, now) && RouteOk(s.envelopes[id]) && Covered(s, id)
    ensures Covered(n, id)
  {
    var e := s.envelopes[id];
    var extra := FactsFor(e, id, sessionId, signer, inputs);
    forall other, f | other in e.signers && other.id in n.envelopes[id].completed && f in e.fields
      && f.role == other.role && f.required
      ensures Recorded(n.facts, id, f.id) {
      if other.id in e.completed {
        RecordedStays(s.facts, extra, id, f.id);
      } else {
        SameSigner(e, other, signer);
        var input :| input in inputs && input.fieldId == f.id;
        var i :| 0 <= i < |inputs| && inputs[i] == input;
        assert extra[i] in n.facts;
      }
    }
  }

  lemma CompletedOk(s: Store, n: Store, id: Id, signer: Signer, sessionId: Id, session: Session,
      inputs: seq<FactInput>, now: int)
    requires Completes(s, n, id, signer, sessionId, session, inputs, now) && EnvelopeOk(s, id)
    ensures EnvelopeOk(n, id)
  {
    OpenSessionIsNext(s, id, signer, sessionId);
    OpenCertificates(s, n, id);
    CompletedFactsOk(s, n, id, signer, sessionId, session, inputs, now);
    CompletedCovers(s, n, id, signer, sessionId, session, inputs, now);
    ClosedSessionsOk(s, n, id, signer, sessionId, session);
    NextCompletes(s.envelopes[id], n.envelopes[id], signer);
  }

  lemma CompleteMeans(s: Store, now: int, c: Command) returns (signer: Signer, sessionId: Id, session: Session)
    requires c.Complete? && Step(s, now, c).Done?
    ensures Completes(s, After(s, now, c), c.envelopeId, signer, sessionId, session, c.inputs, now)
    ensures signer.id == c.signerId
  {
    signer := FindSigner(s.envelopes[c.envelopeId].signers, c.signerId).value;
    sessionId := SessionFor(s, c.envelopeId, c.signerId, c.token, now).value;
    session := After(s, now, c).sessions[sessionId];
  }

  lemma CompleteKeepsInv(s: Store, now: int, c: Command)
    requires Inv(s) && c.Complete? && Step(s, now, c).Done?
    ensures Inv(After(s, now, c))
  {
    var n := After(s, now, c);
    var signer, sessionId, session := CompleteMeans(s, now, c);
    CompletedLocal(s, n, c.envelopeId, signer, sessionId, session, c.inputs, now);
    CompletedOk(s, n, c.envelopeId, signer, sessionId, session, c.inputs, now);
    Combine(s, n, c.envelopeId, FactsFor(s.envelopes[c.envelopeId], c.envelopeId, sessionId, signer, c.inputs));
  }

  ghost predicate Declines(s: Store, n: Store, id: Id, signer: Signer, sessionId: Id, session: Session, eventId: Id,
      event: Event)
  {
    && Closes(s, n, id, signer, sessionId, session) && session.state.Refusing?
    && n.envelopes[id].completed == s.envelopes[id].completed && n.envelopes[id].state.Declined?
    && eventId !in s.events && event.envelopeId == id && n.events == s.events[eventId := event] && n.facts == s.facts
  }

  lemma DeclinedLocal(s: Store, n: Store, id: Id, signer: Signer, sessionId: Id, session: Session, eventId: Id,
      event: Event)
    requires Declines(s, n, id, signer, sessionId, session, eventId, event)
    ensures Local(s, n, id, [])
  {
    assert n.facts == s.facts + [];
    forall x | x in n.envelopes && x != id ensures Untouched(s, n, x, []) {
    }
  }

  lemma DeclinedAnchored(s: Store, n: Store, id: Id, signer: Signer, sessionId: Id, session: Session, eventId: Id,
      event: Event)
    requires Anchored(s) && Declines(s, n, id, signer, sessionId, session, eventId, event)
    ensures Anchored(n)
  {
  }

  lemma DeclinedOk(s: Store, n: Store, id: Id, signer: Signer, sessionId: Id, session: Session, eventId: Id,
      event: Event)
    requires Declines(s, n, id, signer, sessionId, session, eventId, event) && EnvelopeOk(s, id)
    ensures EnvelopeOk(n, id)
  {
    OpenCertificates(s, n, id);
    SameFacts(s, n, id);
    ClosedSessionsOk(s, n, id, signer, sessionId, session);
  }

  lemma DeclineMeans(s: Store, now: int, c: Command) returns (signer: Signer, sessionId: Id, session: Session)
    requires c.Decline? && Step(s, now, c).Done?
    ensures Declines(s, After(s, now, c), c.envelopeId, signer, sessionId, session, c.eventId,
      DeclineEvent(c.envelopeId, c.signerId, c.reason, now))
  {
    signer := FindSigner(s.envelopes[c.envelopeId].signers, c.signerId).value;
    sessionId := SessionFor(s, c.envelopeId, c.signerId, c.token, now).value;
    session := After(s, now, c).sessions[sessionId];
  }

  lemma DeclineKeepsInv(s: Store, now: int, c: Command)
    requires Inv(s) && c.Decline? && Step(s, now, c).Done?
    ensures Inv(After(s, now, c))
  {
    var n := After(s, now, c);
    var signer, sessionId, session := DeclineMeans(s, now, c);
    var event := DeclineEvent(c.envelopeId, c.signerId, c.reason, now);
    DeclinedAnchored(s, n, c.envelopeId, signer, sessionId, session, c.eventId, event);
    DeclinedLocal(s, n, c.envelopeId, signer, sessionId, session, c.eventId, event);
    DeclinedOk(s, n, c.envelopeId, signer, sessionId, session, c.eventId, event);
    Combine(s, n, c.envelopeId, []);
  }

  ghost predicate Voids(s: Store, n: Store, id: Id, now: int, eventId: Id, event: Event) {
    && id in s.envelopes && !s.envelopes[id].Terminal() && eventId !in s.events && event.envelopeId == id
    && var e := s.envelopes[id];
    n == s.(events := s.events[eventId := event], sessions := CancelOpen(s.sessions, id, now),
            envelopes := s.envelopes[id := e.(state := Voided, endedAt := Some(now), version := e.version + 1)])
  }

  lemma VoidedLocal(s: Store, n: Store, id: Id, now: int, eventId: Id, event: Event)
    requires Voids(s, n, id, now, eventId, event)
    ensures Local(s, n, id, [])
  {
    assert n.facts == s.facts + [];
    forall x | x in n.envelopes && x != id ensures Untouched(s, n, x, []) {
    }
  }

  lemma VoidedAnchored(s: Store, n: Store, id: Id, now: int, eventId: Id, event: Event)
    requires Anchored(s) && Voids(s, n, id, now, eventId, event)
    ensures Anchored(n)
  {
  }

  lemma VoidedSessionsOk(s: Store, n: Store, id: Id, now: int, eventId: Id, event: Event)
    requires Voids(s, n, id, now, eventId, event) && SessionsOk(s, id)
    ensures SessionsOk(n, id)
  {
    forall k | k in n.sessions && n.sessions[k].envelopeId == id ensures SessionOk(n.envelopes[id], n.sessions[k]) {
      assert SessionOk(s.envelopes[id], s.sessions[k]);
    }
  }

  lemma VoidedOk(s: Store, n: Store, id: Id, now: int, eventId: Id, event: Event)
    requires Voids(s, n, id, now, eventId, event) && EnvelopeOk(s, id)
    ensures EnvelopeOk(n, id)
  {
    OpenCertificates(s, n, id);
    SameFacts(s, n, id);
    VoidedSessionsOk(s, n, id, now, eventId, event);
  }

  lemma VoidMeans(s: Store, now: int, c: Command)
    requires c.VoidEnvelope? && Step(s, now, c).Done?
    ensures Voids(s, After(s, now, c), c.envelopeId, now, c.eventId, VoidEvent(c.envelopeId, c.reason, now))
  {
  }

  lemma VoidKeepsInv(s: Store, now: int, c: Command)
    requires Inv(s) && c.VoidEnvelope? && Step(s, now, c).Done?
    ensures Inv(After(s, now, c))
  {
    VoidMeans(s, now, c);
    VoidedKeepsInv(s, After(s, now, c), c.envelopeId, now, c.eventId, VoidEvent(c.envelopeId, c.reason, now));
  }

  lemma VoidedKeepsInv(s: Store, n: Store, id: Id, now: int, eventId: Id, event: Event)
    requires Inv(s) && Voids(s, n, id, now, eventId, event)
    ensures Inv(n)
  {
    VoidedAnchored(s, n, id, now, eventId, event);
    VoidedLocal(s, n, id, now, eventId, event);
    VoidedOk(s, n, id, now, eventId, event);
    Combine(s, n, id, []);
  }

  lemma StepKeepsInv(s: Store, now: int, c: Command)
    requires Inv(s)
    ensures Inv(After(s, now, c))
  {
    if Step(s, now, c).Done? {
      match c
      case CreateTemplate(_) => RegistryKeepsInv(s, now, c);
      case CreateVersion(_, _, _, _, _, _) => RegistryKeepsInv(s, now, c);
      case RegisterDocument(_, _) => RegistryKeepsInv(s, now, c);
      case DraftEnvelope(_, _, _, _, _, _) => DraftKeepsInv(s, now, c);
      case Dispatch(_, _, _, _) => NoteKeepsInv(s, now, c);
      case IssueSession(_, _, _, _, _, _) => IssueKeepsInv(s, now, c);
      case Complete(_, _, _, _, _, _) => CompleteKeepsInv(s, now, c);
      case Decline(_, _, _, _, _, _, _) => DeclineKeepsInv(s, now, c);
      case VoidEnvelope(_, _, _, _) => VoidKeepsInv(s, now, c);
      case Remind(_, _, _, _, _, _) => NoteKeepsInv(s, now, c);
      case Export(_, _, _, _) => ExportKeepsInv(s, now, c);
      case Log(_) => RegistryKeepsInv(s, now, c);
    }
  }

  /** Filing a receipt touches no record of the workflow. */
  lemma NextIs(s: Store, call: Call)
    ensures var n := After(s, call.now, call.command); Next(s, call) == n || Next(s, call) == n.(others := n.others + 1)
    ensures Step(s, call.now, call.command).Refused? ==> Next(s, call) == s
  {
  }

  lemma NextWhenDone(s: Store, call: Call)
    requires Step(s, call.now, call.command).Done?
    ensures var n := After(s, call.now, call.command); Next(s, call) == n.(others := n.others + 1)
  {
  }

  lemma FilingKeepsInv(s: Store, others: nat)
    requires Inv(s)
    ensures Inv(s.(others := others))
  {
    RegistryKeepsOk(s, s.(others := others));
  }

  lemma FiledKeepsInv(s: Store, n: Store)
    requires Inv(s) && (n == s || n == s.(others := s.others + 1))
    ensures Inv(n)
  {
    FilingKeepsInv(s, s.others + 1);
  }

  lemma NextKeepsInv(s: Store, call: Call)
    requires Inv(s)
    ensures Inv(Next(s, call))
  {
    StepKeepsInv(s, call.now, call.command);
    NextIs(s, call);
    FiledKeepsInv(After(s, call.now, call.command), Next(s, call));
  }

  lemma {:induction false} RunsKeepInv(s: Store, calls: seq<Call>)
    requires Inv(s)
    ensures Inv(Run(s, calls))
    decreases |calls|
  {
    if calls != [] {
      NextKeepsInv(s, calls[0]);
      RunsKeepInv(Next(s, calls[0]), calls[1..]);
    }
  }

  lemma RunFirst(s: Store, call: Call, rest: seq<Call>)
    ensures Run(s, [call] + rest) == Run(Next(s, call), rest)
  {
    assert ([call] + rest)[1..] == rest;
  }

  lemma {:induction false} RunThen(s: Store, calls: seq<Call>, rest: seq<Call>)
    ensures Run(s, calls + rest) == Run(Run(s, calls), rest)
    decreases |calls|
  {
    if calls == [] {
      assert calls + rest == rest;
    } else {
      assert calls + rest == [calls[0]] + (calls[1..] + rest);
      RunFirst(s, calls[0], calls[1..] + rest);
      RunThen(Next(s, calls[0]), calls[1..], rest);
    }
  }

  /** An open session is for the signer right after the completed ones. */
  ghost predicate ForNext(e: Envelope, session: Session) {
    exists signer :: signer in e.signers && signer.id == session.signerId && signer.order == |e.completed| + 1
  }

  ghost predicate InRouteOrder(s: Store, id: Id)
    requires id in s.envelopes
  {
    && Route(s.envelopes[id].signers) && Prefix(s.envelopes[id])
    && (forall j, k :: j in s.sessions && k in s.sessions && OpenIn(s.sessions[j], id) && OpenIn(s.sessions[k], id) ==>
         j == k)
    && forall k :: k in s.sessions && OpenIn(s.sessions[k], id) ==> ForNext(s.envelopes[id], s.sessions[k])
  }

  lemma OkIsInOrder(s: Store, id: Id)
    requires id in s.envelopes && RouteOk(s.envelopes[id]) && Progress(s.envelopes[id]) && SessionsOk(s, id)
    ensures InRouteOrder(s, id)
  {
    forall k | k in s.sessions && OpenIn(s.sessions[k], id) ensures ForNext(s.envelopes[id], s.sessions[k]) {
      assert SessionOk(s.envelopes[id], s.sessions[k]);
    }
  }

  /** Main result: signers complete in route order. The route numbers its signers 1, 2, 3, …; the completed ones are
      exactly those up to some number, and the only session that can be open belongs to the next one. */
  lemma SignersCompleteInOrder(calls: seq<Call>, id: Id)
    requires id in Run(EMPTY, calls).envelopes
    ensures InRouteOrder(Run(EMPTY, calls), id)
  {
    RunsKeepInv(EMPTY, calls);
    OkIsInOrder(Run(EMPTY, calls), id);
  }

  /** Each signer completes at most once, and only as the next one of the route. */
  lemma CompletesOnce(s: Store, now: int, c: Command)
    requires Inv(s) && c.Complete? && Step(s, now, c).Done?
    ensures c.envelopeId in s.envelopes && c.envelopeId in After(s, now, c).envelopes
    ensures c.signerId !in s.envelopes[c.envelopeId].completed
    ensures After(s, now, c).envelopes[c.envelopeId].completed == s.envelopes[c.envelopeId].completed + {c.signerId}
    ensures exists signer ::
      signer in s.envelopes[c.envelopeId].signers && signer.id == c.signerId
        && signer.order == |s.envelopes[c.envelopeId].completed| + 1
  {
    var signer, sessionId, session := CompleteMeans(s, now, c);
    assert EnvelopeOk(s, c.envelopeId);
    OpenSessionIsNext(s, c.envelopeId, signer, sessionId);
  }

  ghost predicate IsFactAt(s: Store, i: int, id: Id, fieldId: Id) {
    0 <= i < |s.facts| && s.facts[i].envelopeId == id && s.facts[i].fieldId == fieldId
  }

  ghost predicate HasFact(s: Store, id: Id, fieldId: Id) {
    exists i :: IsFactAt(s, i, id, fieldId)
  }

  ghost predicate ExactCover(s: Store, id: Id)
    requires id in s.envelopes
  {
    var e := s.envelopes[id];
    && (e.state.Completed? <==> AllCompleted(e.signers, e.completed))
    && (e.state.Completed? ==> forall f :: f in e.fields && f.required ==> HasFact(s, id, f.id))
    && (forall i, j, fieldId :: IsFactAt(s, i, id, fieldId) && IsFactAt(s, j, id, fieldId) ==> i == j)
    && forall fact :: fact in s.facts && fact.envelopeId == id ==> FactOk(s, e, fact)
  }

  lemma CompletedIffAll(e: Envelope)
    requires RouteOk(e) && Progress(e)
    ensures e.state.Completed? <==> AllCompleted(e.signers, e.completed)
  {
    assert HasOrder(e.signers, |e.signers|);
  }

  lemma RequiredIsRecorded(s: Store, id: Id, f: Field)
    requires id in s.envelopes && RouteOk(s.envelopes[id]) && Progress(s.envelopes[id]) && Covered(s, id)
    requires s.envelopes[id].state.Completed? && f in s.envelopes[id].fields && f.required
    ensures HasFact(s, id, f.id)
  {
    CompletedIffAll(s.envelopes[id]);
    var signer :| signer in s.envelopes[id].signers && signer.role == f.role;
    assert Recorded(s.facts, id, f.id);
    var fact :| fact in s.facts && fact.envelopeId == id && fact.fieldId == f.id;
    var i :| 0 <= i < |s.facts| && s.facts[i] == fact;
    assert IsFactAt(s, i, id, f.id);
  }

  lemma OkIsExactCover(s: Store, id: Id)
    requires id in s.envelopes && EnvelopeOk(s, id)
    ensures ExactCover(s, id)
  {
    CompletedIffAll(s.envelopes[id]);
    forall f | f in s.envelopes[id].fields && f.required && s.envelopes[id].state.Completed?
      ensures HasFact(s, id, f.id) {
      RequiredIsRecorded(s, id, f);
    }
  }

  /** Main result: an envelope is completed exactly when all its signers are; then every required field has a fact.
      No field ever has two, and each was made by a compatible method in a finished session of the signer holding its
      role. */
  lemma CompletedIsExactCover(calls: seq<Call>, id: Id)
    requires id in Run(EMPTY, calls).envelopes
    ensures ExactCover(Run(EMPTY, calls), id)
  {
    RunsKeepInv(EMPTY, calls);
    OkIsExactCover(Run(EMPTY, calls), id);
  }

  ghost predicate SameEnd(s: Store, n: Store, id: Id)
    requires id in s.envelopes
  {
    id in n.envelopes && n.envelopes[id] == s.envelopes[id] && ManifestOf(n, id) == ManifestOf(s, id)
  }

  ghost predicate Ended(s: Store, id: Id) {
    Inv(s) && id in s.envelopes && s.envelopes[id].Terminal()
  }

  lemma UntouchedEnd(s: Store, n: Store, id: Id, extra: seq<Fact>)
    requires Untouched(s, n, id, extra)
    ensures id in s.envelopes && SameEnd(s, n, id)
  {
    UntouchedManifest(s, n, id, extra);
  }

  lemma RegistryEnds(s: Store, now: int, c: Command, id: Id)
    requires (c.CreateTemplate? || c.CreateVersion? || c.RegisterDocument? || c.Log?) && Step(s, now, c).Done?
    requires Ended(s, id)
    ensures SameEnd(s, After(s, now, c), id)
  {
    RegistryAnchored(s, now, c);
    assert ManifestOf(After(s, now, c), id) == ManifestOf(s, id);
  }

  lemma DraftEnds(s: Store, now: int, c: Command, id: Id)
    requires c.DraftEnvelope? && Step(s, now, c).Done? && Ended(s, id)
    ensures SameEnd(s, After(s, now, c), id)
  {
    DraftMeans(s, now, c);
    DraftedLocal(s, After(s, now, c), c.id);
    UntouchedEnd(s, After(s, now, c), id, []);
  }

  lemma NoteEnds(s: Store, now: int, c: Command, id: Id)
    requires (c.Dispatch? || c.Remind?) && Step(s, now, c).Done? && Ended(s, id)
    ensures SameEnd(s, After(s, now, c), id)
  {
    var event := NoteMeans(s, now, c);
    NotedAnchored(s, After(s, now, c), c.envelopeId, c.eventId, event);
    UntouchedEnd(s, After(s, now, c), id, []);
  }

  lemma IssueEnds(s: Store, now: int, c: Command, id: Id)
    requires c.IssueSession? && Step(s, now, c).Done? && Ended(s, id)
    ensures SameEnd(s, After(s, now, c), id)
  {
    var signer, session := IssueMeans(s, now, c);
    IssuedLocal(s, After(s, now, c), c.envelopeId, signer, now, c.sessionId, session);
    UntouchedEnd(s, After(s, now, c), id, []);
  }

  lemma CompleteEnds(s: Store, now: int, c: Command, id: Id)
    requires c.Complete? && Step(s, now, c).Done? && Ended(s, id)
    ensures SameEnd(s, After(s, now, c), id)
  {
    var signer, sessionId, session := CompleteMeans(s, now, c);
    CompletedLocal(s, After(s, now, c), c.envelopeId, signer, sessionId, session, c.inputs, now);
    var extra := FactsFor(s.envelopes[c.envelopeId], c.envelopeId, sessionId, signer, c.inputs);
    UntouchedEnd(s, After(s, now, c), id, extra);
  }

  lemma DeclineEnds(s: Store, now: int, c: Command, id: Id)
    requires c.Decline? && Step(s, now, c).Done? && Ended(s, id)
    ensures SameEnd(s, After(s, now, c), id)
  {
    var signer, sessionId, session := DeclineMeans(s, now, c);
    var event := DeclineEvent(c.envelopeId, c.signerId, c.reason, now);
    DeclinedLocal(s, After(s, now, c), c.envelopeId, signer, sessionId, session, c.eventId, event);
    UntouchedEnd(s, After(s, now, c), id, []);
  }

  lemma VoidEnds(s: Store, now: int, c: Command, id: Id)
    requires c.VoidEnvelope? && Step(s, now, c).Done? && Ended(s, id)
    ensures SameEnd(s, After(s, now, c), id)
  {
    VoidMeans(s, now, c);
    VoidedLocal(s, After(s, now, c), c.envelopeId, now, c.eventId, VoidEvent(c.envelopeId, c.reason, now));
    UntouchedEnd(s, After(s, now, c), id, []);
  }

  lemma ExportEnds(s: Store, now: int, c: Command, id: Id)
    requires c.Export? && Step(s, now, c).Done? && Ended(s, id)
    ensures SameEnd(s, After(s, now, c), id)
  {
    ExportMeans(s, now, c);
    assert ManifestOf(After(s, now, c), id) == ManifestOf(s, id);
  }

  lemma TerminalStep(s: Store, now: int, c: Command, id: Id)
    requires Ended(s, id)
    ensures SameEnd(s, After(s, now, c), id)
  {
    if Step(s, now, c).Done? {
      match c
      case DraftEnvelope(_, _, _, _, _, _) => DraftEnds(s, now, c, id);
      case Dispatch(_, _, _, _) => NoteEnds(s, now, c, id);
      case Remind(_, _, _, _, _, _) => NoteEnds(s, now, c, id);
      case IssueSession(_, _, _, _, _, _) => IssueEnds(s, now, c, id);
      case Complete(_, _, _, _, _, _) => CompleteEnds(s, now, c, id);
      case Decline(_, _, _, _, _, _, _) => DeclineEnds(s, now, c, id);
      case VoidEnvelope(_, _, _, _) => VoidEnds(s, now, c, id);
      case Export(_, _, _, _) => ExportEnds(s, now, c, id);
      case _ => RegistryEnds(s, now, c, id);
    }
  }

  lemma TerminalNext(s: Store, call: Call, id: Id)
    requires Inv(s) && id in s.envelopes && s.envelopes[id].Terminal()
    ensures SameEnd(s, Next(s, call), id)
  {
    TerminalStep(s, call.now, call.command, id);
    NextIs(s, call);
    var n := After(s, call.now, call.command);
    assert ManifestOf(n.(others := n.others + 1), id) == ManifestOf(n, id);
  }

  lemma TerminalHasNoSession(s: Store, id: Id)
    requires Inv(s) && id in s.envelopes && s.envelopes[id].Terminal()
    ensures forall k :: k in s.sessions ==> !OpenIn(s.sessions[k], id)
  {
    assert EnvelopeOk(s, id);
    forall k | k in s.sessions && s.sessions[k].envelopeId == id ensures !s.sessions[k].state.Open? {
      assert SessionOk(s.envelopes[id], s.sessions[k]);
    }
  }

  lemma {:induction false} TerminalStays(s: Store, calls: seq<Call>, id: Id)
    requires Inv(s) && id in s.envelopes && s.envelopes[id].Terminal()
    ensures SameEnd(s, Run(s, calls), id)
    decreases |calls|
  {
    if calls != [] {
      TerminalNext(s, calls[0], id);
      NextKeepsInv(s, calls[0]);
      TerminalStays(Next(s, calls[0]), calls[1..], id);
    }
  }

  /** Main result: a completed, declined or voided envelope never changes again, has no open session, and every later
      certificate digests the same manifest. */
  lemma TerminalIsFinal(s: Store, calls: seq<Call>, id: Id)
    requires Inv(s) && id in s.envelopes && s.envelopes[id].Terminal()
    ensures SameEnd(s, Run(s, calls), id)
    ensures forall k :: k in Run(s, calls).sessions ==> !OpenIn(Run(s, calls).sessions[k], id)
  {
    TerminalStays(s, calls, id);
    RunsKeepInv(s, calls);
    TerminalHasNoSession(Run(s, calls), id);
  }

  lemma CertificateIsCurrent(s: Store, k: Id)
    requires k in s.certificates && s.certificates[k].envelopeId in s.envelopes
    requires CertificatesOk(s, s.certificates[k].envelopeId)
    ensures Certified(s, s.certificates[k].envelopeId)
    ensures forall j :: j in s.certificates && s.certificates[j].envelopeId == s.certificates[k].envelopeId ==> j == k
  {
  }

  /** Main result: over any run an envelope gets at most one certificate; exporting again returns the one there is. */
  lemma OneCertificate(calls: seq<Call>, k: Id, now: int, c: Command)
    requires k in Run(EMPTY, calls).certificates && c.Export?
    requires c.envelopeId == Run(EMPTY, calls).certificates[k].envelopeId
    ensures var s := Run(EMPTY, calls);
      && After(s, now, c) == s
      && forall j :: j in s.certificates && s.certificates[j].envelopeId == c.envelopeId ==> j == k
  {
    RunsKeepInv(EMPTY, calls);
    OnlyCertificate(Run(EMPTY, calls), k);
    ReexportChangesNothing(Run(EMPTY, calls), now, c);
  }

  lemma OnlyCertificate(s: Store, k: Id)
    requires Inv(s) && k in s.certificates
    ensures s.certificates[k].envelopeId in s.envelopes && Certified(s, s.certificates[k].envelopeId)
    ensures forall j :: j in s.certificates && s.certificates[j].envelopeId == s.certificates[k].envelopeId ==> j == k
  {
    var id := s.certificates[k].envelopeId;
    assert EnvelopeOk(s, id);
    CertificateIsCurrent(s, k);
  }

  lemma ReexportChangesNothing(s: Store, now: int, c: Command)
    requires c.Export? && c.envelopeId in s.envelopes && Certified(s, c.envelopeId)
    ensures After(s, now, c) == s
  {
  }
}
