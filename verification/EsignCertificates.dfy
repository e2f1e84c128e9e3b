/** What a certificate lists, stated on the records of the store. */
module EsignCertificates {
  import opened Sorting
  import opened Esign
  import opened EsignRuns

  // -------------------------------------------------------------------- the facts

  /** The list has the envelope's facts and no others, each as often as it is stored, in the order of their fields. */
  ghost predicate ListsFacts(facts: seq<Fact>, id: Id, listed: seq<Fact>) {
    && (forall fact :: multiset(listed)[fact] == if fact.envelopeId == id then multiset(facts)[fact] else 0)
    && forall i, j :: 0 <= i < j < |listed| ==> listed[i].fieldId <= listed[j].fieldId
  }

  lemma {:induction false} FactsOfCount(facts: seq<Fact>, id: Id, fact: Fact)
    ensures multiset(FactsOf(facts, id))[fact] == if fact.envelopeId == id then multiset(facts)[fact] else 0
  {
    if facts != [] {
      var before, last := facts[..|facts| - 1], facts[|facts| - 1];
      FactsOfCount(before, id, fact);
      assert facts == before + [last];
    }
  }

  lemma SortedFactsList(facts: seq<Fact>, id: Id)
    ensures ListsFacts(facts, id, Sort(FactsOf(facts, id), ByField))
  {
    SortSorts(FactsOf(facts, id), ByField);
    forall fact
      ensures multiset(FactsOf(facts, id))[fact] == if fact.envelopeId == id then multiset(facts)[fact] else 0 {
      FactsOfCount(facts, id, fact);
    }
  }

  // -------------------------------------------------------------------- all of it

  /** The manifest is the envelope as it is, with exactly its sessions, facts and events. */
  ghost predicate Manifests(s: Store, id: Id, m: Manifest) {
    && id in s.envelopes && m.envelopeId == id && m.envelope == s.envelopes[id] && ListsFacts(s.facts, id, m.facts)
    && (forall k :: k in m.sessions <==> k in s.sessions && s.sessions[k].envelopeId == id)
    && (forall k :: k in m.sessions ==> m.sessions[k] == s.sessions[k])
    && (forall k :: k in m.events <==> k in s.events && s.events[k].envelopeId == id)
    && forall k :: k in m.events ==> m.events[k] == s.events[k]
  }

  lemma ManifestOfManifests(s: Store, id: Id)
    requires id in s.envelopes
    ensures Manifests(s, id, ManifestOf(s, id))
  {
    SortedFactsList(s.facts, id);
  }

  ghost predicate CertifiedBy(s: Store, id: Id, k: Id) {
    k in s.certificates && s.certificates[k].envelopeId == id && Manifests(s, id, s.certificates[k].manifest)
  }

  ghost predicate HasCertificate(s: Store, id: Id) {
    exists k :: k in s.certificates && s.certificates[k].envelopeId == id
  }

  /** A terminal envelope is certified while all records of the workspace can be listed and the new id is free; if
      there is a certificate, the id does not matter. */
  lemma ExportExactly(s: Store, c: Command)
    requires Inv(s) && c.Export?
    ensures StepExport(s, c).Done? <==>
      && c.envelopeId in s.envelopes && s.envelopes[c.envelopeId].Terminal()
      && s.envelopes[c.envelopeId].version == c.expectedVersion && s.Size() <= SCAN_LIMIT
      && (c.certificateId in s.certificates ==> HasCertificate(s, c.envelopeId))
  {
    if c.envelopeId in s.envelopes {
      assert EnvelopeOk(s, c.envelopeId);
    }
  }

  lemma CertifiedManifests(s: Store, id: Id, k: Id)
    requires id in s.envelopes && k in s.certificates && s.certificates[k].envelopeId == id && CertificatesOk(s, id)
    ensures CertifiedBy(s, id, k)
  {
    ManifestOfManifests(s, id);
  }

  lemma CertificateKeepsManifest(s: Store, n: Store, id: Id)
    requires id in s.envelopes && n == s.(certificates := n.certificates)
    ensures ManifestOf(n, id) == ManifestOf(s, id)
  {
  }

  lemma NewIsFiled(s: Store, c: Command)
    requires c.Export? && StepExport(s, c).Done? && !HasCertificate(s, c.envelopeId)
    ensures c.envelopeId in s.envelopes && c.certificateId !in s.certificates
    ensures StepExport(s, c).store == s.(certificates :=
      s.certificates[c.certificateId := Certificate(c.envelopeId, ManifestOf(s, c.envelopeId), c.format)])
  {
  }

  lemma NewCertificate(s: Store, c: Command)
    requires c.Export? && StepExport(s, c).Done? && !HasCertificate(s, c.envelopeId)
    ensures var n := StepExport(s, c).store;
      CertifiedBy(n, c.envelopeId, c.certificateId) && n.certificates[c.certificateId].format == c.format
        && c.certificateId !in s.certificates
        && n == s.(certificates := s.certificates[c.certificateId := n.certificates[c.certificateId]])
  {
    var n := StepExport(s, c).store;
    NewIsFiled(s, c);
    CertificateKeepsManifest(s, n, c.envelopeId);
    ManifestOfManifests(n, c.envelopeId);
  }

  lemma OldCertificate(s: Store, c: Command, k: Id)
    requires c.Export? && StepExport(s, c).Done? && k in s.certificates
    requires s.certificates[k].envelopeId == c.envelopeId && c.envelopeId in s.envelopes
    requires s.certificates[k].manifest == ManifestOf(s, c.envelopeId)
    ensures StepExport(s, c).store == s
  {
    assert Certified(s, c.envelopeId);
  }

  /** Main result: an accepted export leaves a certificate that lists exactly the envelope's facts, sessions and
      events. It is new unless there was one, and nothing else changes. */
  lemma ExportLeaves(s: Store, c: Command) returns (k: Id)
    requires Inv(s) && c.Export? && StepExport(s, c).Done?
    ensures CertifiedBy(StepExport(s, c).store, c.envelopeId, k)
    ensures HasCertificate(s, c.envelopeId) ==> StepExport(s, c).store == s
    ensures !HasCertificate(s, c.envelopeId) ==>
      var n := StepExport(s, c).store;
      && k == c.certificateId && k !in s.certificates && n.certificates[k].format == c.format
      && n == s.(certificates := s.certificates[k := n.certificates[k]])
  {
    if HasCertificate(s, c.envelopeId) {
      k :| k in s.certificates && s.certificates[k].envelopeId == c.envelopeId;
      ExportIsOf(s, c);
      CertifiedManifests(s, c.envelopeId, k);
      OldCertificate(s, c, k);
    } else {
      k := c.certificateId;
      NewCertificate(s, c);
    }
  }

  lemma ExportIsOf(s: Store, c: Command)
    requires Inv(s) && c.Export? && StepExport(s, c).Done?
    ensures c.envelopeId in s.envelopes && CertificatesOk(s, c.envelopeId)
  {
    assert c.envelopeId in s.envelopes;
    assert EnvelopeOk(s, c.envelopeId);
  }

  // --------------------------------------------------------------- over whole runs

  ghost predicate IsListedAt(m: Manifest, i: int, fieldId: Id) {
    0 <= i < |m.facts| && m.facts[i].fieldId == fieldId
  }

  /** Each required field has one fact on the list, and no field has two. */
  ghost predicate ProvesFields(m: Manifest) {
    && (forall f :: f in m.envelope.fields && f.required ==> exists i :: IsListedAt(m, i, f.id))
    && forall i, j, fieldId :: IsListedAt(m, i, fieldId) && IsListedAt(m, j, fieldId) ==> i == j
  }

  lemma ListedIsStored(facts: seq<Fact>, id: Id, listed: seq<Fact>, fact: Fact)
    requires ListsFacts(facts, id, listed)
    ensures fact in listed <==> fact in facts && fact.envelopeId == id
  {
    assert fact in listed <==> fact in multiset(listed);
    assert fact in facts <==> fact in multiset(facts);
  }

  lemma OncePerField(s: Store, id: Id, m: Manifest, i: nat, j: nat)
    requires Manifests(s, id, m) && FactsOk(s, id) && i < j < |m.facts|
    ensures m.facts[i].fieldId != m.facts[j].fieldId
  {
    var f, g := m.facts[i], m.facts[j];
    ListedIsStored(s.facts, id, m.facts, f);
    ListedIsStored(s.facts, id, m.facts, g);
    if f.fieldId == g.fieldId {
      var x :| 0 <= x < |s.facts| && s.facts[x] == f;
      var y :| 0 <= y < |s.facts| && s.facts[y] == g;
      assert x == y;
      Twice(m.facts, i, j);
      Once(s.facts, id, x);
    }
  }

  lemma Twice(facts: seq<Fact>, i: nat, j: nat)
    requires i < j < |facts| && facts[i] == facts[j]
    ensures multiset(facts)[facts[i]] >= 2
  {
    assert facts == facts[..i] + [facts[i]] + facts[i + 1..j] + [facts[j]] + facts[j + 1..];
  }

  lemma Once(facts: seq<Fact>, id: Id, x: nat)
    requires x < |facts| && facts[x].envelopeId == id
    requires forall i, j :: 0 <= i < j < |facts| && facts[i].envelopeId == id && facts[j].envelopeId == id ==>
      facts[i].fieldId != facts[j].fieldId
    ensures multiset(facts)[facts[x]] == 1
  {
    var before, after := facts[..x], facts[x + 1..];
    assert facts == before + [facts[x]] + after;
    assert facts[x] !in before && facts[x] !in after by {
      assert forall i :: 0 <= i < |after| ==> after[i] == facts[x + 1 + i];
    }
    assert facts[x] !in multiset(before) && facts[x] !in multiset(after);
  }

  lemma CompletedIsProved(s: Store, id: Id, m: Manifest)
    requires id in s.envelopes && EnvelopeOk(s, id) && Manifests(s, id, m) && s.envelopes[id].state.Completed?
    ensures ProvesFields(m)
  {
    forall f | f in m.envelope.fields && f.required ensures exists i :: IsListedAt(m, i, f.id) {
      RequiredIsRecorded(s, id, f);
      var x :| IsFactAt(s, x, id, f.id);
      ListedIsStored(s.facts, id, m.facts, s.facts[x]);
      var i :| 0 <= i < |m.facts| && m.facts[i] == s.facts[x];
      assert IsListedAt(m, i, f.id);
    }
    forall i, j, fieldId | IsListedAt(m, i, fieldId) && IsListedAt(m, j, fieldId) ensures i == j {
      if i < j { OncePerField(s, id, m, i, j); } else if j < i { OncePerField(s, id, m, j, i); }
    }
  }

  /** Main result: whatever certificate a run has stored, it says of its envelope all there is to say at any later
      time: it lists exactly the facts, sessions and events then stored. If the envelope is completed, each required
      field has exactly one fact on the list. */
  lemma CertificatesSayAll(calls: seq<Call>, k: Id)
    requires k in Run(EMPTY, calls).certificates
    ensures var s := Run(EMPTY, calls);
      var id, m := s.certificates[k].envelopeId, s.certificates[k].manifest;
      Manifests(s, id, m) && m.envelope.Terminal() && (m.envelope.state.Completed? ==> ProvesFields(m))
  {
    RunsKeepInv(EMPTY, calls);
    var s := Run(EMPTY, calls);
    var id := s.certificates[k].envelopeId;
    assert EnvelopeOk(s, id);
    CertifiedManifests(s, id, k);
    if s.envelopes[id].state.Completed? { CompletedIsProved(s, id, s.certificates[k].manifest); }
  }
}
