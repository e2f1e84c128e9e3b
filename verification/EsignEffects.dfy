/** Exactly when each e-signature command is accepted, and what it leaves in the store. */
module EsignEffects {
  import opened Options
  import opened Sorting
  import opened Esign
  import opened EsignRuns
  import opened EsignProgress
  import opened EsignRecords

  // ------------------------------------------------------------------- templates

  /** There are roles, no two share name or order, and their orders are 1 to their number. */
  ghost predicate GoodRoles(roles: seq<Role>) {
    && roles != [] && (forall r :: r in roles ==> 1 <= r.order <= |roles|)
    && forall i, j :: 0 <= i < j < |roles| ==> roles[i].name != roles[j].name && roles[i].order != roles[j].order
  }

  /** No two fields share an id, and each is some role's and lies on its page. */
  ghost predicate GoodFields(fields: seq<Field>, roles: seq<Role>) {
    && (forall i, j :: 0 <= i < j < |fields| ==> fields[i].id != fields[j].id)
    && forall f :: f in fields ==>
         && f.x + f.width <= 10_000 && f.y + f.height <= 10_000
         && exists i :: 0 <= i < |roles| && roles[i].name == f.role
  }

  /** Rising numbers from 1 to their count are 1, 2, 3, … */
  lemma {:induction false} RisingFromOne(xs: seq<int>, i: nat)
    requires i < |xs| && (forall k :: 0 <= k < |xs| ==> 1 <= xs[k] <= |xs|)
    requires forall k, m :: 0 <= k < m < |xs| ==> xs[k] < xs[m]
    ensures xs[i] == i + 1
  {
    NotBelow(xs, i);
    NotAbove(xs, i);
  }

  lemma {:induction false} NotBelow(xs: seq<int>, i: nat)
    requires i < |xs| && xs[0] >= 1 && forall k, m :: 0 <= k < m < |xs| ==> xs[k] < xs[m]
    ensures xs[i] >= i + 1
  {
    if i > 0 { NotBelow(xs, i - 1); }
  }

  lemma {:induction false} NotAbove(xs: seq<int>, i: nat)
    requires i < |xs| && xs[|xs| - 1] <= |xs| && forall k, m :: 0 <= k < m < |xs| ==> xs[k] < xs[m]
    ensures xs[i] <= i + 1
    decreases |xs| - i
  {
    if i + 1 < |xs| { NotAbove(xs, i + 1); }
  }

  lemma OrdersDistinct(roles: seq<Role>)
    ensures Distinct(Orders(roles)) <==> forall i, j :: 0 <= i < j < |roles| ==> roles[i].order != roles[j].order
  {
    forall i, j | 0 <= i < j < |roles|
      ensures Orders(roles)[i] != Orders(roles)[j] <==> roles[i].order != roles[j].order {
    }
  }

  lemma SortedRises(xs: seq<int>, r: seq<int>)
    requires Distinct(xs) && r == Sort(xs, (x: int, y: int) => x <= y)
    ensures forall k, m :: 0 <= k < m < |r| ==> r[k] < r[m]
  {
    SortSorts(xs, (x: int, y: int) => x <= y);
    forall k, m | 0 <= k < m < |r| ensures r[k] < r[m] {
      if r[k] == r[m] {
        TwiceCounted(r, k, m);
        DistinctCount(xs, r[k]);
        assert false;
      }
    }
  }

  lemma GoodRolesAreContiguous(roles: seq<Role>)
    requires GoodRoles(roles)
    ensures ContiguousFromOne(roles)
  {
    var xs := Orders(roles);
    var r := Sort(xs, (x: int, y: int) => x <= y);
    SameElements(r, xs);
    OrdersDistinct(roles);
    SortedRises(xs, r);
    forall k | 0 <= k < |r| ensures 1 <= r[k] <= |r| {
      assert r[k] in xs;
      var i :| 0 <= i < |xs| && xs[i] == r[k];
      assert roles[i] in roles;
    }
    forall k | 0 <= k < |r| ensures r[k] == k + 1 {
      RisingFromOne(r, k);
    }
  }

  lemma ValidIsGood(roles: seq<Role>, fields: seq<Field>)
    ensures ValidSnapshot(roles, fields) <==> GoodRoles(roles) && GoodFields(fields, roles)
  {
    if ValidSnapshot(roles, fields) {
      RoleOrders(roles);
      forall f | f in fields ensures exists i :: 0 <= i < |roles| && roles[i].name == f.role {
        assert FieldFits(f, roles);
        var r :| r in roles && r.name == f.role;
        var i :| 0 <= i < |roles| && roles[i] == r;
      }
    }
    if GoodRoles(roles) && GoodFields(fields, roles) {
      GoodRolesAreContiguous(roles);
      forall f | f in fields ensures FieldFits(f, roles) {
        var i :| 0 <= i < |roles| && roles[i].name == f.role;
        assert roles[i] in roles;
      }
    }
  }

  /** A version is accepted exactly on the current one, with sound roles and fields. */
  lemma VersionExactly(s: Store, c: Command)
    requires Numbered(s) && c.CreateVersion?
    ensures StepVersion(s, c).Done? <==>
      && c.headId in s.heads && c.expectedVersion == s.heads[c.headId].current
      && GoodRoles(c.roles) && GoodFields(c.fields, c.roles) && |s.templates| <= SCAN_LIMIT && c.id !in s.templates
  {
    ValidIsGood(c.roles, c.fields);
    NeverDuplicate(s, c);
  }

  /** A template begins without versions. */
  lemma TemplateExactly(s: Store, now: int, c: Command)
    requires c.CreateTemplate?
    ensures Step(s, now, c).Done? <==> c.id !in s.heads
    ensures Step(s, now, c).Done? ==> After(s, now, c) == s.(heads := s.heads[c.id := Head(0, 1)])
  {
  }

  lemma VersionLeaves(s: Store, c: Command)
    requires c.CreateVersion? && StepVersion(s, c).Done?
    ensures var n := StepVersion(s, c).store;
      && c.headId in s.heads && c.headId in n.heads && c.id in n.templates
      && var t := n.templates[c.id];
      && t.headId == c.headId && t.number == s.heads[c.headId].current + 1
      && t.roles == c.roles && t.fields == c.fields && t.disclosure == c.disclosure
      && n == s.(templates := s.templates[c.id := t],
                 heads := s.heads[c.headId := Head(t.number, s.heads[c.headId].version + 1)])
  {
  }

  lemma DocumentExactly(s: Store, c: Command)
    requires c.RegisterDocument?
    ensures StepDocument(s, c).Done? <==>
      && |s.documents| <= SCAN_LIMIT && c.id !in s.documents
      && forall k :: k in s.documents && s.documents[k].objectRef == c.document.objectRef ==>
           s.documents[k].objectVersion != c.document.objectVersion
    ensures StepDocument(s, c).Done? ==>
      StepDocument(s, c).store == s.(documents := s.documents[c.id := c.document])
  {
  }

  // --------------------------------------------------------------------- drafting

  /** Each role is taken by one signer, in the role's order. */
  ghost predicate TakeRoles(signers: seq<Signer>, roles: seq<Role>) {
    && |signers| == |roles| && (forall i, j :: 0 <= i < j < |signers| ==> signers[i].role != signers[j].role)
    && forall i :: 0 <= i < |signers| ==> HasRole(roles, signers[i].role, signers[i].order)
  }

  ghost predicate HasRole(roles: seq<Role>, name: string, order: int) {
    exists j :: 0 <= j < |roles| && roles[j].name == name && roles[j].order == order
  }

  lemma SubsetOfSameSize(xs: seq<string>, ys: seq<string>)
    requires Distinct(xs) && Distinct(ys) && |xs| == |ys| && forall x :: x in xs ==> x in ys
    ensures multiset(xs) == multiset(ys)
  {
    var a, b := set x | x in xs, set y | y in ys;
    DistinctSize(xs);
    DistinctSize(ys);
    if y :| y in b && y !in a {
      assert a <= b - {y};
      Fewer(a, b - {y});
    }
    forall x ensures x in xs <==> x in ys {
      assert x in a <==> x in xs;
      assert x in b <==> x in ys;
    }
    SameDistinct(xs, ys);
  }

  lemma {:induction false} DistinctSize(xs: seq<string>)
    requires Distinct(xs)
    ensures |set x | x in xs| == |xs|
  {
    if xs == [] {
      assert (set x | x in xs) == {};
    } else {
      var before, last := xs[..|xs| - 1], xs[|xs| - 1];
      DistinctSize(before);
      assert xs == before + [last];
      assert (set x | x in xs) == (set x | x in before) + {last};
    }
  }

  lemma Fewer(a: set<string>, b: set<string>)
    requires a <= b
    ensures |a| <= |b|
  {
    assert b == a + (b - a);
  }

  lemma RouteMatchesRoles(signers: seq<Signer>, roles: seq<Role>)
    requires DistinctRoles(roles)
    ensures RouteMatches(signers, roles) <==> TakeRoles(signers, roles)
  {
    if RouteMatches(signers, roles) {
      SignerRolesDistinct(signers, roles);
      forall i | 0 <= i < |signers| ensures HasRole(roles, signers[i].role, signers[i].order) {
        assert signers[i] in signers;
        var r :| r in roles && r.name == signers[i].role && r.order == signers[i].order;
        var j :| 0 <= j < |roles| && roles[j] == r;
      }
      assert TakeRoles(signers, roles);
    }
    if TakeRoles(signers, roles) { TakenRolesMatch(signers, roles); }
  }

  lemma TakenRolesMatch(signers: seq<Signer>, roles: seq<Role>)
    requires DistinctRoles(roles) && TakeRoles(signers, roles)
    ensures RouteMatches(signers, roles)
  {
    var xs, ys := SignerRoles(signers), RoleNames(roles);
    forall x | x in xs ensures x in ys {
      var i :| 0 <= i < |xs| && xs[i] == x;
      assert HasRole(roles, signers[i].role, signers[i].order);
      var j :| 0 <= j < |roles| && roles[j].name == signers[i].role && roles[j].order == signers[i].order;
      assert ys[j] == x;
    }
    SubsetOfSameSize(xs, ys);
    forall s | s in signers ensures exists r :: r in roles && r.name == s.role && r.order == s.order {
      var i :| 0 <= i < |signers| && signers[i] == s;
      assert HasRole(roles, signers[i].role, signers[i].order);
      var j :| 0 <= j < |roles| && roles[j].name == signers[i].role && roles[j].order == signers[i].order;
      assert roles[j] in roles;
    }
  }

  /** A draft is accepted exactly for a stored version and document, with the document's hash, pages and the version's
      roles, and before its deadline. */
  lemma DraftExactly(s: Store, now: int, c: Command)
    requires Anchored(s) && c.DraftEnvelope?
    ensures StepDraft(s, now, c).Done? <==>
      && c.templateId in s.templates && c.documentId in s.documents && c.id !in s.envelopes && now < c.expiresAt
      && s.documents[c.documentId].sha256 == c.documentHash
      && (forall f :: f in s.templates[c.templateId].fields ==> f.page <= s.documents[c.documentId].pageCount)
      && (forall i, j :: 0 <= i < j < |c.signers| ==>
           c.signers[i].id != c.signers[j].id && c.signers[i].keyHash != c.signers[j].keyHash)
      && TakeRoles(c.signers, s.templates[c.templateId].roles)
  {
    if c.templateId in s.templates { RouteMatchesRoles(c.signers, s.templates[c.templateId].roles); }
  }

  lemma DraftLeaves(s: Store, now: int, c: Command)
    requires c.DraftEnvelope? && StepDraft(s, now, c).Done?
    ensures var n := StepDraft(s, now, c).store;
      && c.id in n.envelopes && c.templateId in s.templates
      && n == s.(envelopes := s.envelopes[c.id := n.envelopes[c.id]])
      && var e := n.envelopes[c.id];
      && e.state.Draft? && e.templateId == c.templateId && e.documentId == c.documentId
      && e.documentHash == c.documentHash && e.signers == c.signers && e.expiresAt == c.expiresAt
      && e.fields == s.templates[c.templateId].fields && e.completed == {} && e.version == 1 && e.planId.None?
      && e.endedAt.None?
  {
  }

  /** A draft is dispatched exactly if what was previewed is what it still is, before its deadline. */
  lemma DispatchExactly(s: Store, now: int, c: Command)
    requires c.Dispatch?
    ensures StepDispatch(s, now, c).Done? <==>
      && c.envelopeId in s.envelopes
      && var e := s.envelopes[c.envelopeId];
      && e.state.Draft? && e.version == c.expectedVersion && now < e.expiresAt && c.eventId !in s.events
      && c.preview.envelopeId == c.envelopeId && c.preview.version == e.version
      && c.preview.documentHash == e.documentHash && c.preview.expiresAt == e.expiresAt
      && c.preview.signers == e.signers && c.preview.fields == e.fields
    ensures StepDispatch(s, now, c).Done? ==>
      var e := s.envelopes[c.envelopeId];
      StepDispatch(s, now, c).store ==
        s.(events := s.events[c.eventId := DispatchPlan(c.envelopeId, c.preview)],
           envelopes := s.envelopes[c.envelopeId :=
             e.(state := Ready, planId := Some(c.eventId), version := e.version + 1)])
  {
  }

  // --------------------------------------------------------------------- sessions

  /** The envelope is ready or in progress, in the version the caller saw. */
  ghost predicate ActiveAt(s: Store, id: Id, version: nat) {
    id in s.envelopes && (s.envelopes[id].state.Ready? || s.envelopes[id].state.InProgress?)
      && s.envelopes[id].version == version
  }

  /** Signer `signerId` comes next in the route. */
  ghost predicate NextInRoute(e: Envelope, signerId: Id, signer: Signer) {
    signer in e.signers && signer.id == signerId && signer.order == |e.completed| + 1
  }

  lemma NextIffInTurn(e: Envelope, signer: Signer)
    requires Route(e.signers) && Progress(e) && signer in e.signers
    ensures signer.order == |e.completed| + 1 <==> signer.id !in e.completed && InTurn(e, signer)
  {
    if signer.id !in e.completed && InTurn(e, signer) { TurnIsNext(e, signer); }
  }

  ghost predicate NoneOpen(s: Store, id: Id, now: int) {
    forall k :: k in s.sessions && s.sessions[k].envelopeId == id && s.sessions[k].state.Open? ==>
      s.sessions[k].expiresAt <= now
  }

  lemma OpenIsNexts(s: Store, id: Id, signer: Signer, k: Id)
    requires id in s.envelopes && EnvelopeOk(s, id) && NextInRoute(s.envelopes[id], signer.id, signer)
    requires k in s.sessions && s.sessions[k].envelopeId == id && s.sessions[k].state.Open?
    ensures s.sessions[k].signerId == signer.id
  {
    var e := s.envelopes[id];
    assert SessionOk(e, s.sessions[k]);
    var other :| other in e.signers && other.id == s.sessions[k].signerId && other.order == |e.completed| + 1;
    SameSigner(e, other, signer);
  }

  /** The conditions on a command whose signer was found. */
  lemma IssuesOnConditions(s: Store, now: int, c: Command, signer: Signer)
    requires c.IssueSession? && ActiveAt(s, c.envelopeId, c.expectedVersion)
    requires FindSigner(s.envelopes[c.envelopeId].signers, c.signerId) == Some(signer)
    ensures StepIssue(s, now, c).Done? <==>
      && c.signerId !in s.envelopes[c.envelopeId].completed && InTurn(s.envelopes[c.envelopeId], signer)
      && now < c.expiresAt <= s.envelopes[c.envelopeId].expiresAt && !Full(|s.sessions|)
      && (!exists k ::
           k in s.sessions && OpenFor(s.sessions[k], c.envelopeId, c.signerId) && s.sessions[k].expiresAt > now)
      && c.sessionId !in s.sessions
  {
  }

  lemma IssuesIff(s: Store, now: int, c: Command, signer: Signer)
    requires Inv(s) && c.IssueSession? && ActiveAt(s, c.envelopeId, c.expectedVersion)
    requires FindSigner(s.envelopes[c.envelopeId].signers, c.signerId) == Some(signer)
    ensures StepIssue(s, now, c).Done? <==>
      && NextInRoute(s.envelopes[c.envelopeId], c.signerId, signer)
      && now < c.expiresAt <= s.envelopes[c.envelopeId].expiresAt && NoneOpen(s, c.envelopeId, now)
      && |s.sessions| <= SCAN_LIMIT && c.sessionId !in s.sessions
  {
    assert EnvelopeOk(s, c.envelopeId);
    IssuesOnConditions(s, now, c, signer);
    NextIffInTurn(s.envelopes[c.envelopeId], signer);
    if NextInRoute(s.envelopes[c.envelopeId], c.signerId, signer) {
      NoneOpenIffNone(s, c.envelopeId, signer, now);
    }
  }

  lemma NextIsFound(s: Store, id: Id, signerId: Id, signer: Signer)
    requires Inv(s) && id in s.envelopes && NextInRoute(s.envelopes[id], signerId, signer)
    ensures FindSigner(s.envelopes[id].signers, signerId) == Some(signer)
  {
    assert EnvelopeOk(s, id);
    FoundSigner(s.envelopes[id], signer);
  }

  /** Exactly the next signer gets a session, on an active envelope without a live one, for a time that ends with the
      envelope at the latest. */
  lemma IssueExactly(s: Store, now: int, c: Command)
    requires Inv(s) && c.IssueSession?
    ensures StepIssue(s, now, c).Done? <==>
      && ActiveAt(s, c.envelopeId, c.expectedVersion)
      && (exists signer :: NextInRoute(s.envelopes[c.envelopeId], c.signerId, signer))
      && now < c.expiresAt <= s.envelopes[c.envelopeId].expiresAt && NoneOpen(s, c.envelopeId, now)
      && |s.sessions| <= SCAN_LIMIT && c.sessionId !in s.sessions
  {
    if StepIssue(s, now, c).Done? {
      IssuesIff(s, now, c, FindSigner(s.envelopes[c.envelopeId].signers, c.signerId).value);
    }
    if ActiveAt(s, c.envelopeId, c.expectedVersion) {
      forall signer | NextInRoute(s.envelopes[c.envelopeId], c.signerId, signer)
        ensures FindSigner(s.envelopes[c.envelopeId].signers, c.signerId) == Some(signer) {
        NextIsFound(s, c.envelopeId, c.signerId, signer);
      }
      if signer :| NextInRoute(s.envelopes[c.envelopeId], c.signerId, signer) { IssuesIff(s, now, c, signer); }
    }
  }

  lemma NoneOpenIffNone(s: Store, id: Id, signer: Signer, now: int)
    requires id in s.envelopes && EnvelopeOk(s, id) && NextInRoute(s.envelopes[id], signer.id, signer)
    ensures NoneOpen(s, id, now) <==>
      !exists k :: k in s.sessions && OpenFor(s.sessions[k], id, signer.id) && s.sessions[k].expiresAt > now
  {
    forall k | k in s.sessions && s.sessions[k].envelopeId == id && s.sessions[k].state.Open?
      ensures OpenFor(s.sessions[k], id, signer.id) {
      OpenIsNexts(s, id, signer, k);
    }
  }

  /** Session `k` as it was or, if it was an outdated one of this signer on this envelope, expired. */
  ghost predicate KeptOrExpired(s: Store, n: Store, k: Id, id: Id, signerId: Id, now: int)
    requires k in s.sessions
  {
    && k in n.sessions
    && var was := s.sessions[k];
    n.sessions[k] ==
      if was.envelopeId == id && was.signerId == signerId && was.state.Open? && was.expiresAt <= now
      then was.(state := Expired, endedAt := Some(now), version := was.version + 1) else was
  }

  ghost predicate IsSessionOf(e: Envelope, session: Session, now: int, c: Command)
    requires c.IssueSession?
  {
    && (exists signer :: signer in e.signers && signer.id == c.signerId == session.signerId
         && signer.keyHash == session.keyHash && signer.role == session.role)
    && session.envelopeId == c.envelopeId && session.token == c.token && session.state.Open?
    && session.issuedAt == now && session.expiresAt == c.expiresAt && session.endedAt.None? && session.version == 1
  }

  lemma IssueSessions(s: Store, now: int, c: Command)
    requires c.IssueSession? && StepIssue(s, now, c).Done?
    ensures var n := StepIssue(s, now, c).store;
      && c.envelopeId in s.envelopes && c.sessionId in n.sessions && n.sessions.Keys == s.sessions.Keys + {c.sessionId}
      && IsSessionOf(s.envelopes[c.envelopeId], n.sessions[c.sessionId], now, c)
  {
  }

  lemma IssueRetires(s: Store, now: int, c: Command, k: Id)
    requires c.IssueSession? && StepIssue(s, now, c).Done? && k in s.sessions
    ensures KeptOrExpired(s, StepIssue(s, now, c).store, k, c.envelopeId, c.signerId, now)
  {
  }

  /** The new session is the signer's, with their key and role, the token and the times of the command. */
  lemma IssueLeaves(s: Store, now: int, c: Command)
    requires c.IssueSession? && StepIssue(s, now, c).Done?
    ensures var n := StepIssue(s, now, c).store;
      && c.envelopeId in s.envelopes && c.sessionId in n.sessions && n.sessions.Keys == s.sessions.Keys + {c.sessionId}
      && IsSessionOf(s.envelopes[c.envelopeId], n.sessions[c.sessionId], now, c)
      && (forall k :: k in s.sessions ==> KeptOrExpired(s, n, k, c.envelopeId, c.signerId, now))
      && var e := s.envelopes[c.envelopeId];
      && n == s.(sessions := n.sessions,
                 envelopes := s.envelopes[c.envelopeId := e.(state := InProgress, version := e.version + 1)])
  {
    IssueSessions(s, now, c);
    forall k | k in s.sessions
      ensures KeptOrExpired(s, StepIssue(s, now, c).store, k, c.envelopeId, c.signerId, now) {
      IssueRetires(s, now, c, k);
    }
  }

  // ------------------------------------------------------- what the signer may do

  /** The signer's own live session: the only one with that token. */
  ghost predicate HasToken(s: Store, id: Id, signerId: Id, token: Token, now: int, k: Id) {
    && k in s.sessions && s.sessions[k].token == token && s.sessions[k].envelopeId == id
    && s.sessions[k].signerId == signerId && s.sessions[k].state.Open? && now < s.sessions[k].expiresAt
    && forall other :: other in s.sessions && other != k ==> s.sessions[other].token != token
  }

  lemma TokenIsFound(s: Store, id: Id, signerId: Id, token: Token, now: int, k: Id)
    ensures SessionFor(s, id, signerId, token, now) == Some(k) <==> HasToken(s, id, signerId, token, now, k)
  {
    if HasToken(s, id, signerId, token, now, k) {
      assert SoleHolder(s.sessions, token, k);
      assert forall j :: SoleHolder(s.sessions, token, j) ==> j == k;
    }
  }

  const ALLOWED := {(Signature, TypedName), (Signature, DrawnMark), (Initials, TypedName), (Initials, DrawnMark),
                    (FieldKind.Text, TypedText), (Checkbox, SelectedCheckbox), (Date, EnteredDate)}

  /** The input fills field `f` of that role by a method for its kind, not before the session nor beyond the clock's
      tolerance. */
  ghost predicate Fills(input: FactInput, f: Field, role: string, issuedAt: int, now: int) {
    f.id == input.fieldId && f.role == role && (f.kind, input.how) in ALLOWED
      && issuedAt <= input.completedAt <= now + 300_000
  }

  ghost predicate FilledIn(fields: seq<Field>, role: string, input: FactInput, issuedAt: int, now: int) {
    exists f :: f in fields && Fills(input, f, role, issuedAt, now)
  }

  ghost predicate Names(inputs: seq<FactInput>, fieldId: Id) {
    exists i :: 0 <= i < |inputs| && inputs[i].fieldId == fieldId
  }

  /** There are inputs, each fills another field of the role, and no required one is left out. */
  ghost predicate FillFields(fields: seq<Field>, role: string, inputs: seq<FactInput>, issuedAt: int, now: int) {
    && inputs != [] && (forall i, j :: 0 <= i < j < |inputs| ==> inputs[i].fieldId != inputs[j].fieldId)
    && (forall i :: 0 <= i < |inputs| ==> FilledIn(fields, role, inputs[i], issuedAt, now))
    && forall f :: f in fields && f.role == role && f.required ==> Names(inputs, f.id)
  }

  lemma InputFitsIffFilled(fields: seq<Field>, role: string, input: FactInput, issuedAt: int, now: int)
    requires DistinctFields(fields)
    ensures InputFits(fields, role, input, issuedAt, now) <==> FilledIn(fields, role, input, issuedAt, now)
  {
    var found := FindField(fields, role, input.fieldId);
    if f :| f in fields && Fills(input, f, role, issuedAt, now) {
      SameField(fields, f, found.value);
    }
    if InputFits(fields, role, input, issuedAt, now) {
      assert Fills(input, found.value, role, issuedAt, now);
    }
  }

  lemma FactsFitIffFill(fields: seq<Field>, role: string, inputs: seq<FactInput>, issuedAt: int, now: int)
    requires DistinctFields(fields)
    ensures FactsFit(fields, role, inputs, issuedAt, now) <==> FillFields(fields, role, inputs, issuedAt, now)
  {
    forall i | 0 <= i < |inputs|
      ensures InputFits(fields, role, inputs[i], issuedAt, now) <==> FilledIn(fields, role, inputs[i], issuedAt, now) {
      InputFitsIffFilled(fields, role, inputs[i], issuedAt, now);
    }
    forall id ensures Names(inputs, id) <==> exists input :: input in inputs && input.fieldId == id {
      if i :| 0 <= i < |inputs| && inputs[i].fieldId == id { assert inputs[i] in inputs; }
    }
  }

  /** What a live session's holder can be asked about: who they are in the route, and that their fields are empty. */
  lemma HolderIsNext(s: Store, id: Id, signerId: Id, token: Token, now: int, k: Id) returns (signer: Signer)
    requires Inv(s) && id in s.envelopes && HasToken(s, id, signerId, token, now, k)
    ensures FindSigner(s.envelopes[id].signers, signerId) == Some(signer) && signer.role == s.sessions[k].role
    ensures forall f :: f in s.envelopes[id].fields && f.role == signer.role ==> !Recorded(s.facts, id, f.id)
  {
    signer := OpenSessionOwner(s, id, k);
    forall f | f in s.envelopes[id].fields && f.role == signer.role ensures !Recorded(s.facts, id, f.id) {
      OpenRoleUnrecorded(s, id, signer, f);
    }
  }

  lemma FilledAreUnrecorded(s: Store, id: Id, role: string, inputs: seq<FactInput>, issuedAt: int, now: int)
    requires id in s.envelopes && FillFields(s.envelopes[id].fields, role, inputs, issuedAt, now)
    requires forall f :: f in s.envelopes[id].fields && f.role == role ==> !Recorded(s.facts, id, f.id)
    ensures forall input :: input in inputs ==> !Recorded(s.facts, id, input.fieldId)
  {
    forall input | input in inputs ensures !Recorded(s.facts, id, input.fieldId) {
      var i :| 0 <= i < |inputs| && inputs[i] == input;
      assert FilledIn(s.envelopes[id].fields, role, inputs[i], issuedAt, now);
    }
  }

  /** The holder of the token may complete: the session is in the version they saw, and the inputs fill their fields. */
  ghost predicate MayComplete(s: Store, now: int, c: Command, k: Id)
    requires c.Complete? && c.envelopeId in s.envelopes
  {
    && HasToken(s, c.envelopeId, c.signerId, c.token, now, k) && s.sessions[k].version == c.expectedSession
    && FillFields(s.envelopes[c.envelopeId].fields, s.sessions[k].role, c.inputs, s.sessions[k].issuedAt, now)
  }

  /** The conditions on a command whose signer and session were found. */
  lemma CompletesOnConditions(s: Store, now: int, c: Command, signer: Signer, k: Id)
    requires c.Complete? && ActiveAt(s, c.envelopeId, c.expectedVersion)
    requires FindSigner(s.envelopes[c.envelopeId].signers, c.signerId) == Some(signer)
    requires SessionFor(s, c.envelopeId, c.signerId, c.token, now) == Some(k)
    ensures StepComplete(s, now, c).Done? <==>
      && c.expectedSession == s.sessions[k].version
      && FactsFit(s.envelopes[c.envelopeId].fields, signer.role, c.inputs, s.sessions[k].issuedAt, now)
      && !Full(|s.facts|)
      && forall input :: input in c.inputs ==> !Recorded(s.facts, c.envelopeId, input.fieldId)
  {
  }

  lemma FieldsAreDistinct(s: Store, id: Id)
    requires Inv(s) && id in s.envelopes
    ensures DistinctFields(s.envelopes[id].fields)
  {
    assert EnvelopeOk(s, id);
  }

  lemma CompletesIff(s: Store, now: int, c: Command, k: Id)
    requires Inv(s) && c.Complete? && ActiveAt(s, c.envelopeId, c.expectedVersion)
    requires HasToken(s, c.envelopeId, c.signerId, c.token, now, k)
    ensures StepComplete(s, now, c).Done? <==> MayComplete(s, now, c, k) && |s.facts| <= SCAN_LIMIT
  {
    var id := c.envelopeId;
    var e, session := s.envelopes[id], s.sessions[k];
    TokenIsFound(s, id, c.signerId, c.token, now, k);
    var signer := HolderIsNext(s, id, c.signerId, c.token, now, k);
    CompletesOnConditions(s, now, c, signer, k);
    FieldsAreDistinct(s, id);
    FactsFitIffFill(e.fields, signer.role, c.inputs, session.issuedAt, now);
    if FillFields(e.fields, signer.role, c.inputs, session.issuedAt, now) {
      FilledAreUnrecorded(s, id, signer.role, c.inputs, session.issuedAt, now);
    }
  }

  /** Main result: a completion is accepted exactly from the sole holder of a live session of the active envelope, whose
      inputs fill that signer's fields. That a field has a fact already is never the reason of a refusal. */
  lemma CompleteExactly(s: Store, now: int, c: Command)
    requires Inv(s) && c.Complete?
    ensures StepComplete(s, now, c).Done? <==>
      && ActiveAt(s, c.envelopeId, c.expectedVersion) && (exists k :: MayComplete(s, now, c, k))
      && |s.facts| <= SCAN_LIMIT
  {
    if StepComplete(s, now, c).Done? {
      var k := SessionFor(s, c.envelopeId, c.signerId, c.token, now).value;
      TokenIsFound(s, c.envelopeId, c.signerId, c.token, now, k);
      CompletesIff(s, now, c, k);
    }
    if ActiveAt(s, c.envelopeId, c.expectedVersion) {
      forall k | MayComplete(s, now, c, k) && |s.facts| <= SCAN_LIMIT ensures StepComplete(s, now, c).Done? {
        CompletesIff(s, now, c, k);
      }
    }
  }

  /** The fact that input leaves: of the field it names, in the session it came in. */
  ghost predicate Records(e: Envelope, fact: Fact, id: Id, k: Id, signerId: Id, input: FactInput) {
    && fact.envelopeId == id && fact.sessionId == k && fact.signerId == signerId && fact.fieldId == input.fieldId
    && fact.how == input.how && fact.completedAt == input.completedAt && fact.valueHash == input.valueHash
    && exists f :: f in e.fields && f.id == input.fieldId && f.kind == fact.kind
  }

  /** The session was ended in that state at that time. */
  ghost predicate EndsSession(s: Store, n: Store, k: Id, state: SessionState, now: int) {
    && k in s.sessions
    && n.sessions == s.sessions[k :=
         s.sessions[k].(state := state, endedAt := Some(now), version := s.sessions[k].version + 1)]
  }

  lemma FactsAreRecorded(e: Envelope, id: Id, k: Id, signer: Signer, inputs: seq<FactInput>, issuedAt: int, now: int)
    requires FactsFit(e.fields, signer.role, inputs, issuedAt, now)
    ensures var extra := FactsFor(e, id, k, signer, inputs);
      |extra| == |inputs| && forall i :: 0 <= i < |inputs| ==> Records(e, extra[i], id, k, signer.id, inputs[i])
  {
    forall i | 0 <= i < |inputs|
      ensures Records(e, FactsFor(e, id, k, signer, inputs)[i], id, k, signer.id, inputs[i]) {
      assert InputFits(e.fields, signer.role, inputs[i], issuedAt, now);
      var f := FindField(e.fields, signer.role, inputs[i].fieldId).value;
      assert f in e.fields;
    }
  }

  /** The envelope with one signer more completed; it is completed itself when that was the last one. */
  ghost predicate Advances(e: Envelope, n: Envelope, signerId: Id, now: int) {
    && n == e.(state := n.state, completed := e.completed + {signerId}, endedAt := n.endedAt, version := e.version + 1)
    && if forall signer :: signer in e.signers ==> signer.id in n.completed
       then n.state == Completed && n.endedAt == Some(now) else n.state == InProgress && n.endedAt == e.endedAt
  }

  lemma CompleteUpdates(s: Store, now: int, c: Command, k: Id)
    requires c.Complete? && StepComplete(s, now, c).Done?
    requires SessionFor(s, c.envelopeId, c.signerId, c.token, now) == Some(k)
    ensures var n := StepComplete(s, now, c).store;
      && c.envelopeId in s.envelopes && c.envelopeId in n.envelopes && EndsSession(s, n, k, Finished, now)
      && Advances(s.envelopes[c.envelopeId], n.envelopes[c.envelopeId], c.signerId, now)
      && n == s.(facts := n.facts, sessions := n.sessions,
                 envelopes := s.envelopes[c.envelopeId := n.envelopes[c.envelopeId]])
  {
  }

  lemma CompleteRecords(s: Store, now: int, c: Command, k: Id)
    requires c.Complete? && StepComplete(s, now, c).Done?
    requires SessionFor(s, c.envelopeId, c.signerId, c.token, now) == Some(k)
    ensures var n := StepComplete(s, now, c).store;
      && c.envelopeId in s.envelopes && |n.facts| == |s.facts| + |c.inputs| && n.facts[..|s.facts|] == s.facts
      && forall i :: 0 <= i < |c.inputs| ==> Records(s.envelopes[c.envelopeId], n.facts[|s.facts| + i], c.envelopeId, k,
           c.signerId, c.inputs[i])
  {
    var e := s.envelopes[c.envelopeId];
    var signer := FindSigner(e.signers, c.signerId).value;
    FactsAreRecorded(e, c.envelopeId, k, signer, c.inputs, s.sessions[k].issuedAt, now);
    assert StepComplete(s, now, c).store.facts == s.facts + FactsFor(e, c.envelopeId, k, signer, c.inputs);
  }

  /** Main result: an accepted completion records each input as one fact, in order, finishes the session of the
      token, and counts the signer; it changes nothing else. */
  lemma CompleteLeaves(s: Store, now: int, c: Command) returns (k: Id)
    requires c.Complete? && StepComplete(s, now, c).Done?
    ensures var n := StepComplete(s, now, c).store;
      && HasToken(s, c.envelopeId, c.signerId, c.token, now, k) && EndsSession(s, n, k, Finished, now)
      && c.envelopeId in s.envelopes && c.envelopeId in n.envelopes
      && Advances(s.envelopes[c.envelopeId], n.envelopes[c.envelopeId], c.signerId, now)
      && |n.facts| == |s.facts| + |c.inputs| && n.facts[..|s.facts|] == s.facts
      && (forall i :: 0 <= i < |c.inputs| ==>
           Records(s.envelopes[c.envelopeId], n.facts[|s.facts| + i], c.envelopeId, k, c.signerId, c.inputs[i]))
      && n == s.(facts := n.facts, sessions := n.sessions,
                 envelopes := s.envelopes[c.envelopeId := n.envelopes[c.envelopeId]])
  {
    k := SessionFor(s, c.envelopeId, c.signerId, c.token, now).value;
    TokenIsFound(s, c.envelopeId, c.signerId, c.token, now, k);
    CompleteUpdates(s, now, c, k);
    CompleteRecords(s, now, c, k);
  }

  // ------------------------------------------------------------- declining, voiding

  ghost predicate MayDecline(s: Store, now: int, c: Command, k: Id)
    requires c.Decline?
  {
    HasToken(s, c.envelopeId, c.signerId, c.token, now, k) && s.sessions[k].version == c.expectedSession
  }

  lemma DeclinesIff(s: Store, now: int, c: Command, k: Id)
    requires Inv(s) && c.Decline? && ActiveAt(s, c.envelopeId, c.expectedVersion)
    requires HasToken(s, c.envelopeId, c.signerId, c.token, now, k)
    ensures StepDecline(s, now, c).Done? <==> s.sessions[k].version == c.expectedSession && c.eventId !in s.events
  {
    TokenIsFound(s, c.envelopeId, c.signerId, c.token, now, k);
    var signer := HolderIsNext(s, c.envelopeId, c.signerId, c.token, now, k);
  }

  lemma DeclineExactly(s: Store, now: int, c: Command)
    requires Inv(s) && c.Decline?
    ensures StepDecline(s, now, c).Done? <==>
      && ActiveAt(s, c.envelopeId, c.expectedVersion) && (exists k :: MayDecline(s, now, c, k))
      && c.eventId !in s.events
  {
    if StepDecline(s, now, c).Done? {
      var k := SessionFor(s, c.envelopeId, c.signerId, c.token, now).value;
      TokenIsFound(s, c.envelopeId, c.signerId, c.token, now, k);
      DeclinesIff(s, now, c, k);
      assert MayDecline(s, now, c, k);
    }
    if ActiveAt(s, c.envelopeId, c.expectedVersion) && c.eventId !in s.events {
      forall k | MayDecline(s, now, c, k) ensures StepDecline(s, now, c).Done? {
        DeclinesIff(s, now, c, k);
      }
    }
  }

  lemma DeclineLeaves(s: Store, now: int, c: Command) returns (k: Id)
    requires c.Decline? && StepDecline(s, now, c).Done?
    ensures var n := StepDecline(s, now, c).store;
      && HasToken(s, c.envelopeId, c.signerId, c.token, now, k) && EndsSession(s, n, k, Refusing, now)
      && c.envelopeId in s.envelopes
      && var e := s.envelopes[c.envelopeId];
      && n == s.(events := s.events[c.eventId := DeclineEvent(c.envelopeId, c.signerId, c.reason, now)],
                 sessions := n.sessions,
                 envelopes := s.envelopes[c.envelopeId :=
                   e.(state := Declined, endedAt := Some(now), version := e.version + 1)])
  {
    k := SessionFor(s, c.envelopeId, c.signerId, c.token, now).value;
    TokenIsFound(s, c.envelopeId, c.signerId, c.token, now, k);
  }

  lemma VoidExactly(s: Store, now: int, c: Command)
    requires c.VoidEnvelope?
    ensures StepVoid(s, now, c).Done? <==>
      && c.envelopeId in s.envelopes && s.envelopes[c.envelopeId].version == c.expectedVersion
      && s.envelopes[c.envelopeId].state in {Draft, Ready, InProgress} && |s.sessions| <= SCAN_LIMIT
      && c.eventId !in s.events
  {
  }

  /** Session `k` as it was or, if it was open on this envelope, cancelled. */
  ghost predicate KeptOrCancelled(s: Store, n: Store, k: Id, id: Id, now: int)
    requires k in s.sessions
  {
    && k in n.sessions
    && var was := s.sessions[k];
    n.sessions[k] ==
      if was.envelopeId == id && was.state.Open?
      then was.(state := Cancelled, endedAt := Some(now), version := was.version + 1) else was
  }

  lemma VoidLeaves(s: Store, now: int, c: Command)
    requires c.VoidEnvelope? && StepVoid(s, now, c).Done?
    ensures var n := StepVoid(s, now, c).store;
      && c.envelopeId in s.envelopes && n.sessions.Keys == s.sessions.Keys
      && (forall k :: k in s.sessions ==> KeptOrCancelled(s, n, k, c.envelopeId, now))
      && var e := s.envelopes[c.envelopeId];
      && n == s.(events := s.events[c.eventId := VoidEvent(c.envelopeId, c.reason, now)], sessions := n.sessions,
                 envelopes := s.envelopes[c.envelopeId :=
                   e.(state := Voided, endedAt := Some(now), version := e.version + 1)])
  {
  }

  /** A reminder can be planned for a signer still to come, not in the past and before the deadline, exactly as
      previewed; it adds the plan and nothing else. */
  lemma RemindExactly(s: Store, now: int, c: Command)
    requires c.Remind?
    ensures StepRemind(s, now, c).Done? <==>
      && ActiveAt(s, c.envelopeId, c.expectedVersion) && now <= c.notBefore < s.envelopes[c.envelopeId].expiresAt
      && (exists signer :: signer in s.envelopes[c.envelopeId].signers && signer.id == c.signerId)
      && c.signerId !in s.envelopes[c.envelopeId].completed && c.eventId !in s.events
      && c.planPreview.envelopeId == c.envelopeId && c.planPreview.version == c.expectedVersion
      && c.planPreview.signerId == c.signerId && c.planPreview.notBefore == c.notBefore
    ensures StepRemind(s, now, c).Done? ==>
      StepRemind(s, now, c).store == s.(events := s.events[c.eventId := ReminderPlan(c.envelopeId, c.planPreview)])
  {
  }
}
