/** What the immutable records promise: template versions number off, and an envelope stays bound to the version and
    document it names. */
module EsignRecords {
  import opened Esign
  import opened EsignRuns

  // ------------------------------------------------- what no command touches

  ghost predicate SameBinding(e: Envelope, n: Envelope) {
    && n.templateId == e.templateId && n.documentId == e.documentId && n.documentHash == e.documentHash
    && n.signers == e.signers && n.fields == e.fields && n.expiresAt == e.expiresAt
  }

  /** No version or document was changed, no envelope re-bound. */
  ghost predicate Preserves(s: Store, n: Store) {
    && (forall k :: k in s.templates ==> k in n.templates && n.templates[k] == s.templates[k])
    && (forall k :: k in s.documents ==> k in n.documents && n.documents[k] == s.documents[k])
    && forall id :: id in s.envelopes ==> id in n.envelopes && SameBinding(s.envelopes[id], n.envelopes[id])
  }

  ghost predicate OnlyOld(s: Store, n: Store) {
    Preserves(s, n) && n.envelopes.Keys <= s.envelopes.Keys
  }

  ghost predicate SameRegistry(s: Store, n: Store) {
    n.heads == s.heads && n.templates == s.templates && n.documents == s.documents
  }

  lemma DispatchPreserves(s: Store, now: int, c: Command)
    requires c.Dispatch? && StepDispatch(s, now, c).Done?
    ensures SameRegistry(s, StepDispatch(s, now, c).store) && OnlyOld(s, StepDispatch(s, now, c).store)
  {
  }

  lemma IssuePreserves(s: Store, now: int, c: Command)
    requires c.IssueSession? && StepIssue(s, now, c).Done?
    ensures SameRegistry(s, StepIssue(s, now, c).store) && OnlyOld(s, StepIssue(s, now, c).store)
  {
  }

  lemma CompletePreserves(s: Store, now: int, c: Command)
    requires c.Complete? && StepComplete(s, now, c).Done?
    ensures SameRegistry(s, StepComplete(s, now, c).store) && OnlyOld(s, StepComplete(s, now, c).store)
  {
  }

  lemma DeclinePreserves(s: Store, now: int, c: Command)
    requires c.Decline? && StepDecline(s, now, c).Done?
    ensures SameRegistry(s, StepDecline(s, now, c).store) && OnlyOld(s, StepDecline(s, now, c).store)
  {
  }

  lemma VoidPreserves(s: Store, now: int, c: Command)
    requires c.VoidEnvelope? && StepVoid(s, now, c).Done?
    ensures SameRegistry(s, StepVoid(s, now, c).store) && OnlyOld(s, StepVoid(s, now, c).store)
  {
  }

  lemma RemindPreserves(s: Store, now: int, c: Command)
    requires c.Remind? && StepRemind(s, now, c).Done?
    ensures SameRegistry(s, StepRemind(s, now, c).store) && OnlyOld(s, StepRemind(s, now, c).store)
  {
  }

  lemma ExportPreserves(s: Store, c: Command)
    requires c.Export? && StepExport(s, c).Done?
    ensures SameRegistry(s, StepExport(s, c).store) && OnlyOld(s, StepExport(s, c).store)
  {
    var n := StepExport(s, c).store;
    assert n == s.(certificates := n.certificates);
  }

  ghost predicate ActsOnEnvelope(c: Command) {
    !c.CreateTemplate? && !c.CreateVersion? && !c.RegisterDocument? && !c.DraftEnvelope? && !c.Log?
  }

  lemma ActionsPreserve(s: Store, now: int, c: Command)
    requires ActsOnEnvelope(c) && Step(s, now, c).Done?
    ensures SameRegistry(s, After(s, now, c)) && OnlyOld(s, After(s, now, c))
  {
    match c
    case Dispatch(_, _, _, _) => DispatchPreserves(s, now, c);
    case IssueSession(_, _, _, _, _, _) => IssuePreserves(s, now, c);
    case Complete(_, _, _, _, _, _) => CompletePreserves(s, now, c);
    case Decline(_, _, _, _, _, _, _) => DeclinePreserves(s, now, c);
    case VoidEnvelope(_, _, _, _) => VoidPreserves(s, now, c);
    case Remind(_, _, _, _, _, _) => RemindPreserves(s, now, c);
    case Export(_, _, _, _) => ExportPreserves(s, c);
  }

  // ------------------------------------------------------------ template versions

  ghost predicate IsVersion(s: Store, k: Id, headId: Id, number: int) {
    k in s.templates && s.templates[k].headId == headId && s.templates[k].number == number
  }

  ghost predicate HasVersion(s: Store, headId: Id, number: int) {
    exists k :: IsVersion(s, k, headId, number)
  }

  ghost predicate NumberedTo(s: Store, headId: Id)
    requires headId in s.heads
  {
    forall number :: 1 <= number <= s.heads[headId].current ==> HasVersion(s, headId, number)
  }

  predicate SameVersion(a: Template, b: Template) {
    a.headId == b.headId && a.number == b.number
  }

  /** The versions of each template number off 1, 2, 3, … up to its current one. */
  ghost predicate Numbered(s: Store) {
    && (forall k :: k in s.templates ==>
         s.templates[k].headId in s.heads && 1 <= s.templates[k].number <= s.heads[s.templates[k].headId].current)
    && (forall j, k :: j in s.templates && k in s.templates && SameVersion(s.templates[j], s.templates[k]) ==> j == k)
    && forall headId :: headId in s.heads ==> NumberedTo(s, headId)
  }

  /** `n` has one version more, the next one of its template. */
  ghost predicate Versioned(s: Store, n: Store, k: Id, template: Template) {
    && template.headId in s.heads && k !in s.templates && template.number == s.heads[template.headId].current + 1
    && n.templates == s.templates[k := template] && template.headId in n.heads
    && n.heads == s.heads[template.headId := n.heads[template.headId]]
    && n.heads[template.headId].current == template.number
  }

  lemma VersionedHas(s: Store, n: Store, k: Id, template: Template, headId: Id, number: int)
    requires Versioned(s, n, k, template) && HasVersion(s, headId, number)
    ensures HasVersion(n, headId, number)
  {
    var j :| IsVersion(s, j, headId, number);
    assert IsVersion(n, j, headId, number);
  }

  lemma VersionedNumbers(s: Store, n: Store, k: Id, template: Template)
    requires Numbered(s) && Versioned(s, n, k, template)
    ensures Numbered(n)
  {
    forall headId | headId in n.heads ensures NumberedTo(n, headId) {
      assert NumberedTo(s, headId);
      forall number | 1 <= number <= n.heads[headId].current ensures HasVersion(n, headId, number) {
        if headId == template.headId && number == template.number {
          assert IsVersion(n, k, headId, number);
        } else {
          VersionedHas(s, n, k, template, headId, number);
        }
      }
    }
  }

  lemma VersionMeans(s: Store, c: Command) returns (template: Template)
    requires c.CreateVersion? && StepVersion(s, c).Done?
    ensures Versioned(s, StepVersion(s, c).store, c.id, template)
  {
    template := Template(c.headId, s.heads[c.headId].current + 1, c.roles, c.fields, c.disclosure);
  }

  lemma NewHeadNumbers(s: Store, n: Store, id: Id)
    requires Numbered(s) && id !in s.heads && n.heads == s.heads[id := Head(0, 1)] && n.templates == s.templates
    ensures Numbered(n)
  {
    SameVersions(s, n);
    forall headId | headId in n.heads ensures NumberedTo(n, headId) {
      if headId != id { assert NumberedTo(s, headId); }
    }
  }

  lemma SameVersions(s: Store, n: Store)
    requires n.templates == s.templates
    ensures forall headId, number :: HasVersion(s, headId, number) ==> HasVersion(n, headId, number)
  {
    forall headId, number | HasVersion(s, headId, number) ensures HasVersion(n, headId, number) {
      var k :| IsVersion(s, k, headId, number);
      assert IsVersion(n, k, headId, number);
    }
  }

  lemma SameTemplatesNumbered(s: Store, n: Store)
    requires Numbered(s) && n.heads == s.heads && n.templates == s.templates
    ensures Numbered(n)
  {
    SameVersions(s, n);
    forall headId | headId in n.heads ensures NumberedTo(n, headId) {
      assert NumberedTo(s, headId);
    }
  }

  lemma OthersLeaveTemplates(s: Store, now: int, c: Command)
    requires !c.CreateTemplate? && !c.CreateVersion? && Step(s, now, c).Done?
    ensures After(s, now, c).heads == s.heads && After(s, now, c).templates == s.templates
  {
    if ActsOnEnvelope(c) { ActionsPreserve(s, now, c); }
  }

  lemma VersionKeepsNumbers(s: Store, c: Command)
    requires Numbered(s) && c.CreateVersion? && StepVersion(s, c).Done?
    ensures Numbered(StepVersion(s, c).store)
  {
    var template := VersionMeans(s, c);
    VersionedNumbers(s, StepVersion(s, c).store, c.id, template);
  }

  lemma TemplateKeepsNumbers(s: Store, now: int, c: Command)
    requires Numbered(s) && c.CreateTemplate? && Step(s, now, c).Done?
    ensures Numbered(After(s, now, c))
  {
    NewHeadNumbers(s, After(s, now, c), c.id);
  }

  lemma OthersKeepNumbers(s: Store, now: int, c: Command)
    requires Numbered(s) && !c.CreateTemplate? && !c.CreateVersion? && Step(s, now, c).Done?
    ensures Numbered(After(s, now, c))
  {
    OthersLeaveTemplates(s, now, c);
    SameTemplatesNumbered(s, After(s, now, c));
  }

  lemma StepKeepsNumbers(s: Store, now: int, c: Command)
    requires Numbered(s)
    ensures Numbered(After(s, now, c))
  {
    if Step(s, now, c).Done? {
      match c
      case CreateTemplate(_) => TemplateKeepsNumbers(s, now, c);
      case CreateVersion(_, _, _, _, _, _) => VersionKeepsNumbers(s, c);
      case _ => OthersKeepNumbers(s, now, c);
    }
  }

  lemma FiledNumbered(s: Store, n: Store, others: nat)
    requires Numbered(s) && (n == s || n == s.(others := others))
    ensures Numbered(n)
  {
    SameTemplatesNumbered(s, n);
  }

  lemma NextKeepsNumbers(s: Store, call: Call)
    requires Numbered(s)
    ensures Numbered(Next(s, call))
  {
    StepKeepsNumbers(s, call.now, call.command);
    NextIs(s, call);
    FiledNumbered(After(s, call.now, call.command), Next(s, call), Next(s, call).others);
  }

  lemma {:induction false} RunsKeepNumbers(s: Store, calls: seq<Call>)
    requires Numbered(s)
    ensures Numbered(Run(s, calls))
    decreases |calls|
  {
    if calls != [] {
      NextKeepsNumbers(s, calls[0]);
      RunsKeepNumbers(Next(s, calls[0]), calls[1..]);
    }
  }

  lemma NeverDuplicate(s: Store, c: Command)
    requires Numbered(s) && c.CreateVersion?
    ensures StepVersion(s, c) != Refused(Duplicate)
  {
  }

  /** Main result: on every run the versions of each template number off from 1 to the current one, each once. So the
      engine's refusal of an exact duplicate is never given: a new version has a number that no stored one has. */
  lemma VersionsNumberOff(calls: seq<Call>, c: Command)
    requires c.CreateVersion?
    ensures Numbered(Run(EMPTY, calls))
    ensures StepVersion(Run(EMPTY, calls), c) != Refused(Duplicate)
  {
    RunsKeepNumbers(EMPTY, calls);
    NeverDuplicate(Run(EMPTY, calls), c);
  }

  // ------------------------------------------------------------- bound envelopes

  /** The envelope carries the document's hash and the version's fields, its pages exist, and its signers take
      exactly the version's roles. */
  ghost predicate Bound(s: Store, e: Envelope) {
    && e.templateId in s.templates && e.documentId in s.documents
    && var template, document := s.templates[e.templateId], s.documents[e.documentId];
    && e.documentHash == document.sha256 && e.fields == template.fields
    && (forall f :: f in e.fields ==> f.page <= document.pageCount)
    && DistinctSigners(e.signers) && RouteMatches(e.signers, template.roles)
  }

  ghost predicate AllBound(s: Store) {
    forall id :: id in s.envelopes ==> Bound(s, s.envelopes[id])
  }

  lemma OldStayBound(s: Store, n: Store)
    requires AllBound(s) && OnlyOld(s, n)
    ensures AllBound(n)
  {
    forall id | id in n.envelopes ensures Bound(n, n.envelopes[id]) {
      assert Bound(s, s.envelopes[id]) && SameBinding(s.envelopes[id], n.envelopes[id]);
    }
  }

  lemma DraftIsBound(s: Store, now: int, c: Command)
    requires c.DraftEnvelope? && StepDraft(s, now, c).Done?
    ensures var n := StepDraft(s, now, c).store;
      Preserves(s, n) && c.id in n.envelopes && n.envelopes.Keys == s.envelopes.Keys + {c.id}
        && Bound(n, n.envelopes[c.id])
  {
  }

  lemma DraftKeepsBound(s: Store, now: int, c: Command)
    requires AllBound(s) && c.DraftEnvelope? && StepDraft(s, now, c).Done?
    ensures Preserves(s, StepDraft(s, now, c).store) && AllBound(StepDraft(s, now, c).store)
  {
    var n := StepDraft(s, now, c).store;
    DraftIsBound(s, now, c);
    forall id | id in n.envelopes ensures Bound(n, n.envelopes[id]) {
      if id != c.id { assert Bound(s, s.envelopes[id]) && SameBinding(s.envelopes[id], n.envelopes[id]); }
    }
  }

  lemma RegistryPreserves(s: Store, now: int, c: Command)
    requires (c.CreateTemplate? || c.CreateVersion? || c.RegisterDocument? || c.Log?) && Step(s, now, c).Done?
    ensures OnlyOld(s, After(s, now, c))
  {
  }

  lemma StepKeepsBound(s: Store, now: int, c: Command)
    requires AllBound(s)
    ensures Preserves(s, After(s, now, c)) && AllBound(After(s, now, c))
  {
    if Step(s, now, c).Done? {
      if c.DraftEnvelope? {
        DraftKeepsBound(s, now, c);
      } else {
        if ActsOnEnvelope(c) { ActionsPreserve(s, now, c); } else { RegistryPreserves(s, now, c); }
        OldStayBound(s, After(s, now, c));
      }
    }
  }

  lemma NextKeepsBound(s: Store, call: Call)
    requires AllBound(s)
    ensures Preserves(s, Next(s, call)) && AllBound(Next(s, call))
  {
    StepKeepsBound(s, call.now, call.command);
    NextIs(s, call);
    OldStayBound(After(s, call.now, call.command), Next(s, call));
  }

  lemma PreservesOn(s: Store, m: Store, n: Store)
    requires Preserves(s, m) && Preserves(m, n)
    ensures Preserves(s, n)
  {
    forall id | id in s.envelopes ensures id in n.envelopes && SameBinding(s.envelopes[id], n.envelopes[id]) {
      assert SameBinding(s.envelopes[id], m.envelopes[id]);
    }
  }

  /** Main result: whatever happens later, a template version and a document stay as they were stored, and an
      envelope stays bound to the same ones, with the hash, fields, signers and deadline it was drafted with. */
  lemma {:induction false} EnvelopesStayBound(s: Store, calls: seq<Call>)
    requires AllBound(s)
    ensures Preserves(s, Run(s, calls)) && AllBound(Run(s, calls))
    decreases |calls|
  {
    if calls != [] {
      var n := Next(s, calls[0]);
      NextKeepsBound(s, calls[0]);
      EnvelopesStayBound(n, calls[1..]);
      PreservesOn(s, n, Run(n, calls[1..]));
    }
  }
}
