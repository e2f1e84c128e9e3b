/** The e-signature workflow: templates, documents, envelopes, signer sessions, field facts and certificates. */
module Esign {
  import opened Options
  import opened Sorting

  type Id = nat
  type Hash = string
  type Token = string

  const PAGE_EDGE := 10_000
  const CLOCK_SKEW := 300_000
  /** A listing of more records than this is refused. */
  const SCAN_LIMIT := 100_000

  datatype FieldKind = Signature | Initials | Text | Checkbox | Date
  datatype Method = TypedName | DrawnMark | TypedText | SelectedCheckbox | EnteredDate

  datatype Role = Role(name: string, order: int)
  datatype Field = Field(id: Id, role: string, kind: FieldKind, page: int, x: int, y: int, width: int, height: int,
      required: bool)
  datatype Head = Head(current: nat, version: nat)
  datatype Template = Template(headId: Id, number: nat, roles: seq<Role>, fields: seq<Field>, disclosure: string)
  datatype Document = Document(objectRef: string, objectVersion: string, sha256: Hash, pageCount: int)

  datatype Signer = Signer(id: Id, keyHash: Hash, role: string, order: int)
  datatype EnvelopeState = Draft | Ready | InProgress | Completed | Declined | Voided
  datatype Envelope = Envelope(state: EnvelopeState, templateId: Id, documentId: Id, documentHash: Hash,
      signers: seq<Signer>, fields: seq<Field>, expiresAt: int, completed: set<Id>, version: nat, planId: Option<Id>,
      endedAt: Option<int>)
  {
    predicate Active() { state.Ready? || state.InProgress? }
    predicate Terminal() { state.Completed? || state.Declined? || state.Voided? }
  }
  datatype SessionState = Open | Finished | Refusing | Expired | Cancelled
  /** `token` is kept in place of its hash. */
  datatype Session = Session(envelopeId: Id, signerId: Id, keyHash: Hash, role: string, token: Token,
      state: SessionState, issuedAt: int, expiresAt: int, endedAt: Option<int>, version: nat)
  datatype Fact = Fact(envelopeId: Id, sessionId: Id, signerId: Id, fieldId: Id, kind: FieldKind, how: Method,
      completedAt: int, valueHash: Hash)
  datatype Event = DispatchPlan(envelopeId: Id, boundary: Boundary)
                 | DeclineEvent(envelopeId: Id, signerId: Id, reason: string, at: int)
                 | VoidEvent(envelopeId: Id, reason: string, at: int) | ReminderPlan(envelopeId: Id, reminder: Reminder)
  /** Preview hashes, kept as what they digest. */
  datatype Boundary = Boundary(envelopeId: Id, version: nat, documentHash: Hash, expiresAt: int, signers: seq<Signer>,
      fields: seq<Field>)
  datatype Reminder = Reminder(envelopeId: Id, version: nat, signerId: Id, notBefore: int)
  /** A certificate's content hash, kept as the manifest it digests. */
  datatype Manifest = Manifest(envelopeId: Id, envelope: Envelope, sessions: map<Id, Session>, facts: seq<Fact>,
      events: map<Id, Event>)
  datatype Certificate = Certificate(envelopeId: Id, manifest: Manifest, format: string)

  /** `others` counts the remaining e-signature records: command receipts, proposals and their audits. */
  datatype Store = Store(heads: map<Id, Head>, templates: map<Id, Template>, documents: map<Id, Document>,
      envelopes: map<Id, Envelope>, sessions: map<Id, Session>, facts: seq<Fact>, events: map<Id, Event>,
      certificates: map<Id, Certificate>, others: nat)
  {
    /** What listing every e-signature record of the workspace returns. */
    function Size(): nat {
      |heads| + |templates| + |documents| + |envelopes| + |sessions| + |facts| + |events| + |certificates| + others
    }
  }

  const EMPTY := Store(map[], map[], map[], map[], map[], [], map[], map[], 0)

  predicate Full(count: nat) { count > SCAN_LIMIT }

  datatype FactInput = FactInput(fieldId: Id, how: Method, completedAt: int, valueHash: Hash)

  datatype Command =
    | CreateTemplate(id: Id)
    | CreateVersion(id: Id, headId: Id, expectedVersion: nat, roles: seq<Role>, fields: seq<Field>, disclosure: string)
    | RegisterDocument(id: Id, document: Document)
    | DraftEnvelope(id: Id, templateId: Id, documentId: Id, documentHash: Hash, signers: seq<Signer>, expiresAt: int)
    | Dispatch(envelopeId: Id, expectedVersion: nat, preview: Boundary, eventId: Id)
    | IssueSession(envelopeId: Id, expectedVersion: nat, signerId: Id, expiresAt: int, token: Token, sessionId: Id)
    | Complete(envelopeId: Id, expectedVersion: nat, signerId: Id, token: Token, expectedSession: nat,
      inputs: seq<FactInput>)
    | Decline(envelopeId: Id, expectedVersion: nat, signerId: Id, token: Token, expectedSession: nat,
      reason: string, eventId: Id)
    | VoidEnvelope(envelopeId: Id, expectedVersion: nat, reason: string, eventId: Id)
    | Remind(envelopeId: Id, expectedVersion: nat, signerId: Id, notBefore: int, planPreview: Reminder, eventId: Id)
    | Export(envelopeId: Id, expectedVersion: nat, format: string, certificateId: Id)
    | Log(count: nat)

  datatype Refusal = NotFound | IdTaken | Stale | BadTemplate | Duplicate | BadRoute | WrongDocument | NotDraft | Expiry
                   | WrongPreview | NotActive | NoSigner | AlreadyCompleted | OutOfTurn | SessionOpen | BadToken
                   | BadFacts | FactExists | IsTerminal | NotTerminal | Saturated
  datatype Outcome = Done(store: Store) | Refused(reason: Refusal)

  // ----------------------------------------------------------------- templates

  predicate DistinctRoles(roles: seq<Role>) {
    forall i, j :: 0 <= i < j < |roles| ==> roles[i].name != roles[j].name && roles[i].order != roles[j].order
  }

  function Orders(roles: seq<Role>): seq<int> {
    seq(|roles|, i requires 0 <= i < |roles| => roles[i].order)
  }

  predicate ContiguousFromOne(roles: seq<Role>) {
    var sorted := Sort(Orders(roles), (x: int, y: int) => x <= y);
    forall i :: 0 <= i < |sorted| ==> sorted[i] == i + 1
  }

  predicate DistinctFields(fields: seq<Field>) {
    forall i, j :: 0 <= i < j < |fields| ==> fields[i].id != fields[j].id
  }

  predicate FieldFits(f: Field, roles: seq<Role>) {
    (exists r :: r in roles && r.name == f.role) && f.x + f.width <= PAGE_EDGE && f.y + f.height <= PAGE_EDGE
  }

  /** `validateRoleAndFieldSnapshots`; the input schema adds that there is at least one role. */
  predicate ValidSnapshot(roles: seq<Role>, fields: seq<Field>) {
    && roles != [] && DistinctRoles(roles) && ContiguousFromOne(roles) && DistinctFields(fields)
    && forall f :: f in fields ==> FieldFits(f, roles)
  }

  // ----------------------------------------------------------------- envelopes

  predicate DistinctSigners(signers: seq<Signer>) {
    forall i, j :: 0 <= i < j < |signers| ==> signers[i].id != signers[j].id && signers[i].keyHash != signers[j].keyHash
  }

  function RoleNames(roles: seq<Role>): seq<string> {
    seq(|roles|, i requires 0 <= i < |roles| => roles[i].name)
  }

  function SignerRoles(signers: seq<Signer>): seq<string> {
    seq(|signers|, i requires 0 <= i < |signers| => signers[i].role)
  }

  /** Sorted and compared as text, the two lists of role names are equal exactly when they are permutations. */
  predicate RouteMatches(signers: seq<Signer>, roles: seq<Role>) {
    && multiset(RoleNames(roles)) == multiset(SignerRoles(signers))
    && forall s :: s in signers ==> exists r :: r in roles && r.name == s.role && r.order == s.order
  }

  function BoundaryOf(id: Id, e: Envelope): Boundary {
    Boundary(id, e.version, e.documentHash, e.expiresAt, e.signers, e.fields)
  }

  function FindSigner(signers: seq<Signer>, id: Id): (r: Option<Signer>)
    ensures r.Some? ==> r.value in signers && r.value.id == id
    ensures r.None? ==> forall s :: s in signers ==> s.id != id
  {
    if signers == [] then None
    else if signers[0].id == id then Some(signers[0])
    else
      assert signers == [signers[0]] + signers[1..];
      FindSigner(signers[1..], id)
  }

  // ------------------------------------------------------------------ sessions

  predicate InTurn(e: Envelope, signer: Signer) {
    forall other :: other in e.signers && other.order < signer.order ==> other.id in e.completed
  }

  predicate OpenFor(session: Session, envelopeId: Id, signerId: Id) {
    session.envelopeId == envelopeId && session.signerId == signerId && session.state.Open?
  }

  function RetireExpired(sessions: map<Id, Session>, envelopeId: Id, signerId: Id, now: int): map<Id, Session> {
    map id | id in sessions ::
      if OpenFor(sessions[id], envelopeId, signerId) && sessions[id].expiresAt <= now
      then sessions[id].(state := Expired, endedAt := Some(now), version := sessions[id].version + 1) else sessions[id]
  }

  function CancelOpen(sessions: map<Id, Session>, envelopeId: Id, now: int): map<Id, Session> {
    map id | id in sessions ::
      if sessions[id].envelopeId == envelopeId && sessions[id].state.Open?
      then sessions[id].(state := Cancelled, endedAt := Some(now), version := sessions[id].version + 1)
        else sessions[id]
  }

  predicate SoleHolder(sessions: map<Id, Session>, token: Token, id: Id) {
    && id in sessions && sessions[id].token == token
    && forall other :: other in sessions && sessions[other].token == token ==> other == id
  }

  /** `sessionForToken`: two sessions with one token hash are an integrity error, hence refused too. */
  ghost function SessionFor(s: Store, envelopeId: Id, signerId: Id, token: Token, now: int): (r: Option<Id>)
    ensures r.Some? ==>
      SoleHolder(s.sessions, token, r.value) && OpenFor(s.sessions[r.value], envelopeId, signerId)
        && s.sessions[r.value].expiresAt > now
  {
    if exists id :: SoleHolder(s.sessions, token, id) then
      var id :| SoleHolder(s.sessions, token, id);
      if OpenFor(s.sessions[id], envelopeId, signerId) && s.sessions[id].expiresAt > now then Some(id) else None
    else None
  }

  // --------------------------------------------------------------- field facts

  predicate Compatible(kind: FieldKind, how: Method) {
    match kind
    case Signature => how.TypedName? || how.DrawnMark?
    case Initials => how.TypedName? || how.DrawnMark?
    case Text => how.TypedText?
    case Checkbox => how.SelectedCheckbox?
    case Date => how.EnteredDate?
  }

  function FindField(fields: seq<Field>, role: string, id: Id): (r: Option<Field>)
    ensures r.Some? ==> r.value in fields && r.value.role == role && r.value.id == id
    ensures r.None? ==> forall f :: f in fields && f.role == role ==> f.id != id
  {
    if fields == [] then None
    else if fields[0].role == role && fields[0].id == id then Some(fields[0])
    else
      assert fields == [fields[0]] + fields[1..];
      FindField(fields[1..], role, id)
  }

  predicate DistinctInputs(inputs: seq<FactInput>) {
    forall i, j :: 0 <= i < j < |inputs| ==> inputs[i].fieldId != inputs[j].fieldId
  }

  predicate CoversRequired(fields: seq<Field>, role: string, inputs: seq<FactInput>) {
    forall f :: f in fields && f.role == role && f.required ==> exists input :: input in inputs && input.fieldId == f.id
  }

  predicate InputFits(fields: seq<Field>, role: string, input: FactInput, issuedAt: int, now: int) {
    var field := FindField(fields, role, input.fieldId);
    field.Some? && Compatible(field.value.kind, input.how) && issuedAt <= input.completedAt <= now + CLOCK_SKEW
  }

  predicate FactsFit(fields: seq<Field>, role: string, inputs: seq<FactInput>, issuedAt: int, now: int) {
    && inputs != [] && DistinctInputs(inputs) && CoversRequired(fields, role, inputs)
    && forall input :: input in inputs ==> InputFits(fields, role, input, issuedAt, now)
  }

  predicate Recorded(facts: seq<Fact>, envelopeId: Id, fieldId: Id) {
    exists fact :: fact in facts && fact.envelopeId == envelopeId && fact.fieldId == fieldId
  }

  function FactFor(e: Envelope, envelopeId: Id, sessionId: Id, signer: Signer, input: FactInput): Fact {
    var field := FindField(e.fields, signer.role, input.fieldId);
    var kind := if field.Some? then field.value.kind else Text;
    Fact(envelopeId, sessionId, signer.id, input.fieldId, kind, input.how, input.completedAt, input.valueHash)
  }

  function FactsFor(e: Envelope, envelopeId: Id, sessionId: Id, signer: Signer, inputs: seq<FactInput>): seq<Fact> {
    seq(|inputs|, i requires 0 <= i < |inputs| => FactFor(e, envelopeId, sessionId, signer, inputs[i]))
  }

  predicate AllCompleted(signers: seq<Signer>, completed: set<Id>) {
    forall s :: s in signers ==> s.id in completed
  }

  // -------------------------------------------------------------- certificates

  function FactsOf(facts: seq<Fact>, envelopeId: Id): seq<Fact> {
    if facts == [] then []
    else
      var last := facts[|facts| - 1];
      FactsOf(facts[..|facts| - 1], envelopeId) + if last.envelopeId == envelopeId then [last] else []
  }

  predicate ByField(a: Fact, b: Fact) { a.fieldId <= b.fieldId }

  function ManifestOf(s: Store, id: Id): Manifest
    requires id in s.envelopes
  {
    Manifest(id, s.envelopes[id],
             map k | k in s.sessions && s.sessions[k].envelopeId == id :: s.sessions[k],
             Sort(FactsOf(s.facts, id), ByField),
             map k | k in s.events && s.events[k].envelopeId == id :: s.events[k])
  }

  predicate Certified(s: Store, id: Id)
    requires id in s.envelopes
  {
    exists k :: k in s.certificates && s.certificates[k].envelopeId == id
      && s.certificates[k].manifest == ManifestOf(s, id)
  }

  // ------------------------------------------------------------------ commands

  ghost function StepVersion(s: Store, c: Command): Outcome
    requires c.CreateVersion?
  {
    if c.headId !in s.heads then Refused(NotFound)
    else
      var head := s.heads[c.headId];
      var template := Template(c.headId, head.current + 1, c.roles, c.fields, c.disclosure);
      if c.expectedVersion != head.current then Refused(Stale)
      else if !ValidSnapshot(c.roles, c.fields) then Refused(BadTemplate)
      else if Full(|s.templates|) then Refused(Saturated)
      else if exists k :: k in s.templates && s.templates[k] == template then Refused(Duplicate)
      else if c.id in s.templates then Refused(IdTaken)
      else Done(s.(templates := s.templates[c.id := template],
        heads := s.heads[c.headId := Head(head.current + 1, head.version + 1)]))
  }

  ghost function StepDocument(s: Store, c: Command): Outcome
    requires c.RegisterDocument?
  {
    if Full(|s.documents|) then Refused(Saturated)
    else if exists k ::
      k in s.documents && s.documents[k].objectRef == c.document.objectRef
        && s.documents[k].objectVersion == c.document.objectVersion then Refused(Duplicate)
    else if c.id in s.documents then Refused(IdTaken)
    else Done(s.(documents := s.documents[c.id := c.document]))
  }

  ghost function StepDraft(s: Store, now: int, c: Command): Outcome
    requires c.DraftEnvelope?
  {
    if c.templateId !in s.templates || c.documentId !in s.documents then Refused(NotFound)
    else
      var template, document := s.templates[c.templateId], s.documents[c.documentId];
      if document.sha256 != c.documentHash then Refused(WrongDocument)
      else if exists f :: f in template.fields && f.page > document.pageCount then Refused(WrongDocument)
      else if !DistinctSigners(c.signers) || !RouteMatches(c.signers, template.roles) then Refused(BadRoute)
      else if c.expiresAt <= now then Refused(Expiry)
      else if c.id in s.envelopes then Refused(IdTaken)
      else Done(s.(envelopes := s.envelopes[c.id :=
        Envelope(Draft, c.templateId, c.documentId, c.documentHash, c.signers, template.fields, c.expiresAt, {}, 1,
          None, None)]))
  }

  ghost function StepDispatch(s: Store, now: int, c: Command): Outcome
    requires c.Dispatch?
  {
    if c.envelopeId !in s.envelopes then Refused(NotFound)
    else
      var e := s.envelopes[c.envelopeId];
      if c.expectedVersion != e.version then Refused(Stale)
      else if !e.state.Draft? then Refused(NotDraft)
      else if e.expiresAt <= now then Refused(Expiry)
      else if c.preview != BoundaryOf(c.envelopeId, e) then Refused(WrongPreview)
      else if c.eventId in s.events then Refused(IdTaken)
      else Done(s.(events := s.events[c.eventId := DispatchPlan(c.envelopeId, c.preview)],
                   envelopes := s.envelopes[c.envelopeId := e.(state := Ready, planId := Some(c.eventId),
                     version := e.version + 1)]))
  }

  ghost function StepIssue(s: Store, now: int, c: Command): Outcome
    requires c.IssueSession?
  {
    if c.envelopeId !in s.envelopes then Refused(NotFound)
    else
      var e := s.envelopes[c.envelopeId];
      var signer := FindSigner(e.signers, c.signerId);
      if !e.Active() then Refused(NotActive)
      else if c.expectedVersion != e.version then Refused(Stale)
      else if signer.None? then Refused(NoSigner)
      else if c.signerId in e.completed then Refused(AlreadyCompleted)
      else if !InTurn(e, signer.value) then Refused(OutOfTurn)
      else if c.expiresAt <= now || c.expiresAt > e.expiresAt then Refused(Expiry)
      else if Full(|s.sessions|) then Refused(Saturated)
      else if exists k ::
        k in s.sessions && OpenFor(s.sessions[k], c.envelopeId, c.signerId)
          && s.sessions[k].expiresAt > now then Refused(SessionOpen)
      else if c.sessionId in s.sessions then Refused(IdTaken)
      else
        var session := Session(c.envelopeId, c.signerId, signer.value.keyHash, signer.value.role, c.token, Open,
          now, c.expiresAt, None, 1);
        Done(s.(sessions := RetireExpired(s.sessions, c.envelopeId, c.signerId, now)[c.sessionId := session],
                envelopes := s.envelopes[c.envelopeId := e.(state := InProgress, version := e.version + 1)]))
  }

  ghost function StepComplete(s: Store, now: int, c: Command): Outcome
    requires c.Complete?
  {
    if c.envelopeId !in s.envelopes then Refused(NotFound)
    else
      var e := s.envelopes[c.envelopeId];
      var signer := FindSigner(e.signers, c.signerId);
      var found := SessionFor(s, c.envelopeId, c.signerId, c.token, now);
      if !e.Active() then Refused(NotActive)
      else if c.expectedVersion != e.version then Refused(Stale)
      else if signer.None? then Refused(NoSigner)
      else if found.None? then Refused(BadToken)
      else
        var session := s.sessions[found.value];
        if c.expectedSession != session.version then Refused(Stale)
        else if !FactsFit(e.fields, signer.value.role, c.inputs, session.issuedAt, now) then Refused(BadFacts)
        else if Full(|s.facts|) then Refused(Saturated)
        else if exists input ::
          input in c.inputs && Recorded(s.facts, c.envelopeId, input.fieldId) then Refused(FactExists)
        else
          var completed := e.completed + {c.signerId};
          var all := AllCompleted(e.signers, completed);
          Done(s.(facts := s.facts + FactsFor(e, c.envelopeId, found.value, signer.value, c.inputs),
                  sessions := s.sessions[found.value := session.(state := Finished, endedAt := Some(now),
                    version := session.version + 1)],
                  envelopes := s.envelopes[c.envelopeId := e.(
                    state := if all then Completed else InProgress, completed := completed,
                    endedAt := if all then Some(now) else e.endedAt, version := e.version + 1)]))
  }

  ghost function StepDecline(s: Store, now: int, c: Command): Outcome
    requires c.Decline?
  {
    if c.envelopeId !in s.envelopes then Refused(NotFound)
    else
      var e := s.envelopes[c.envelopeId];
      var found := SessionFor(s, c.envelopeId, c.signerId, c.token, now);
      if !e.Active() then Refused(NotActive)
      else if c.expectedVersion != e.version then Refused(Stale)
      else if FindSigner(e.signers, c.signerId).None? then Refused(NoSigner)
      else if found.None? then Refused(BadToken)
      else if c.expectedSession != s.sessions[found.value].version then Refused(Stale)
      else if c.eventId in s.events then Refused(IdTaken)
      else
        var session := s.sessions[found.value];
        Done(s.(events := s.events[c.eventId := DeclineEvent(c.envelopeId, c.signerId, c.reason, now)],
                sessions := s.sessions[found.value :=
                  session.(state := Refusing, endedAt := Some(now), version := session.version + 1)],
                envelopes := s.envelopes[c.envelopeId := e.(state := Declined, endedAt := Some(now),
                  version := e.version + 1)]))
  }

  ghost function StepVoid(s: Store, now: int, c: Command): Outcome
    requires c.VoidEnvelope?
  {
    if c.envelopeId !in s.envelopes then Refused(NotFound)
    else
      var e := s.envelopes[c.envelopeId];
      if c.expectedVersion != e.version then Refused(Stale)
      else if e.Terminal() then Refused(IsTerminal)
      else if Full(|s.sessions|) then Refused(Saturated)
      else if c.eventId in s.events then Refused(IdTaken)
      else Done(s.(events := s.events[c.eventId := VoidEvent(c.envelopeId, c.reason, now)],
                   sessions := CancelOpen(s.sessions, c.envelopeId, now),
                   envelopes := s.envelopes[c.envelopeId := e.(state := Voided, endedAt := Some(now),
                     version := e.version + 1)]))
  }

  ghost function StepRemind(s: Store, now: int, c: Command): Outcome
    requires c.Remind?
  {
    if c.envelopeId !in s.envelopes then Refused(NotFound)
    else
      var e := s.envelopes[c.envelopeId];
      if !e.Active() then Refused(NotActive)
      else if c.expectedVersion != e.version then Refused(Stale)
      else if FindSigner(e.signers, c.signerId).None? then Refused(NoSigner)
      else if c.signerId in e.completed then Refused(AlreadyCompleted)
      else if c.notBefore < now || c.notBefore >= e.expiresAt then Refused(Expiry)
      else if c.planPreview != Reminder(c.envelopeId, e.version, c.signerId, c.notBefore) then Refused(WrongPreview)
      else if c.eventId in s.events then Refused(IdTaken)
      else Done(s.(events := s.events[c.eventId := ReminderPlan(c.envelopeId, c.planPreview)]))
  }

  ghost function StepExport(s: Store, c: Command): Outcome
    requires c.Export?
  {
    if c.envelopeId !in s.envelopes then Refused(NotFound)
    else
      var e := s.envelopes[c.envelopeId];
      if c.expectedVersion != e.version then Refused(Stale)
      else if !e.Terminal() then Refused(NotTerminal)
      else if Full(s.Size()) then Refused(Saturated)
      else if Certified(s, c.envelopeId) then Done(s)
      else if c.certificateId in s.certificates then Refused(IdTaken)
      else Done(s.(certificates :=
        s.certificates[c.certificateId := Certificate(c.envelopeId, ManifestOf(s, c.envelopeId), c.format)]))
  }

  ghost function Step(s: Store, now: int, c: Command): Outcome {
    match c
    case CreateTemplate(id) => if id in s.heads then Refused(IdTaken) else Done(s.(heads := s.heads[id := Head(0, 1)]))
    case CreateVersion(_, _, _, _, _, _) => StepVersion(s, c)
    case RegisterDocument(_, _) => StepDocument(s, c)
    case DraftEnvelope(_, _, _, _, _, _) => StepDraft(s, now, c)
    case Dispatch(_, _, _, _) => StepDispatch(s, now, c)
    case IssueSession(_, _, _, _, _, _) => StepIssue(s, now, c)
    case Complete(_, _, _, _, _, _) => StepComplete(s, now, c)
    case Decline(_, _, _, _, _, _, _) => StepDecline(s, now, c)
    case VoidEnvelope(_, _, _, _) => StepVoid(s, now, c)
    case Remind(_, _, _, _, _, _) => StepRemind(s, now, c)
    case Export(_, _, _, _) => StepExport(s, c)
    case Log(count) => Done(s.(others := s.others + count))
  }

  ghost function After(s: Store, now: int, c: Command): Store {
    match Step(s, now, c) case Done(next) => next case Refused(_) => s
  }

  datatype Call = Call(now: int, command: Command)

  /** A whole call: the command and, if it was accepted, its receipt. */
  ghost function Next(s: Store, call: Call): Store {
    match Step(s, call.now, call.command)
    case Done(next) => next.(others := next.others + 1)
    case Refused(_) => s
  }

  ghost function Run(s: Store, calls: seq<Call>): Store
    decreases |calls|
  {
    if calls == [] then s else Run(Next(s, calls[0]), calls[1..])
  }

  /** A record is created only while the workspace holds fewer than its plan allows; otherwise the whole call is rolled
      back. `cap` is what this leaves for the e-signature records. */
  ghost predicate Commits(cap: nat, s: Store, call: Call) {
    Step(s, call.now, call.command).Done? && Next(s, call).Size() <= cap
  }

  ghost function Try(cap: nat, s: Store, call: Call): Store {
    if Commits(cap, s, call) then Next(s, call) else s
  }

  ghost function TryAll(cap: nat, s: Store, calls: seq<Call>): Store
    decreases |calls|
  {
    if calls == [] then s else TryAll(cap, Try(cap, s, calls[0]), calls[1..])
  }
}
