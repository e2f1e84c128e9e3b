/** Exactly when each Letterline command is accepted, and what it leaves in the store. */
module LetterlineEffects {
  import opened Options
  import opened Letterline
  import opened LetterlineRuns

  // --------------------------------------------------------------------- consent

  /** Consent was given, not bought, to this policy, for different purposes, and not in the future. */
  ghost predicate GoodConsent(c: Consent, policy: string, now: int) {
    && c.granted && !c.purchasedList && c.policy == policy && c.capturedAt <= now + 300_000
    && forall i, j :: 0 <= i < j < |c.purposes| ==> c.purposes[i] != c.purposes[j]
  }

  ghost predicate Lives(s: Mail, id: Id, address: Address) {
    id in s.people.subscribers && s.people.subscribers[id].address == address
  }

  /** Whoever has the address is not suppressed and did not consent later; if nobody has, the new id is free. */
  ghost predicate MayOptIn(s: Mail, c: Command)
    requires c.OptIn?
  {
    && (forall id :: Lives(s, id, c.address) ==>
         !s.people.subscribers[id].suppressed && s.people.subscribers[id].consentAt <= c.consent.capturedAt)
    && ((forall id :: !Lives(s, id, c.address)) ==> c.subscriberId !in s.people.subscribers)
  }

  lemma AddressDecides(s: Mail, address: Address)
    requires Subscribers(s)
    ensures forall id: Id :: Lives(s, id, address) <==> Existing(s, address) == Some(id)
  {
    forall id: Id ensures Lives(s, id, address) <==> IsAt(s, id, address) { }
  }

  /** Whoever has the address may renew; if nobody has, somebody new may enrol. */
  ghost predicate MayAt(s: Mail, c: Command, at: Option<Id>)
    requires c.OptIn?
  {
    match at
    case None => c.subscriberId !in s.people.subscribers
    case Some(id) =>
      && id in s.people.subscribers && !s.people.subscribers[id].suppressed
      && s.people.subscribers[id].consentAt <= c.consent.capturedAt
  }

  lemma MayOptInAt(s: Mail, c: Command, at: Option<Id>)
    requires c.OptIn? && forall id: Id :: Lives(s, id, c.address) <==> at == Some(id)
    ensures MayOptIn(s, c) <==> MayAt(s, c, at)
  {
    if at.Some? { assert Lives(s, at.value, c.address); }
  }

  /** An opt-in that passes the checks is one of the two. */
  lemma OptInIs(s: Mail, now: int, c: Command, at: Option<Id>)
    requires c.OptIn? && at == Existing(s, c.address)
    ensures at.Some? ==> at.value in s.people.subscribers
    ensures StepOptIn(s, now, c).Done? ==>
      StepOptIn(s, now, c) == match at case None => Enrol(s, c) case Some(id) => Renew(s, c, id)
    ensures StepOptIn(s, now, c).Done? <==>
      && c.audienceId in s.people.audiences && ConsentOk(c.consent, s.people.audiences[c.audienceId], now, false)
      && !Full(s.people.subscribers) && !Full(s.people.consents) && c.receiptId !in s.people.consents
      && match at case None => Enrol(s, c).Done? case Some(id) => Renew(s, c, id).Done?
  {
    if at.Some? { assert IsAt(s, at.value, c.address); }
  }

  lemma MayAtDecides(s: Mail, c: Command, at: Option<Id>)
    requires c.OptIn? && (at.Some? ==> at.value in s.people.subscribers)
    ensures MayAt(s, c, at) <==> match at case None => Enrol(s, c).Done? case Some(id) => Renew(s, c, id).Done?
  {
  }

  lemma OptInExactly(s: Mail, now: int, c: Command)
    requires Subscribers(s) && c.OptIn?
    ensures StepOptIn(s, now, c).Done? <==>
      && c.audienceId in s.people.audiences && GoodConsent(c.consent, s.people.audiences[c.audienceId], now)
      && !c.consent.reconfirmed && |s.people.subscribers| <= SCAN_LIMIT && |s.people.consents| <= SCAN_LIMIT
      && c.receiptId !in s.people.consents && MayOptIn(s, c)
  {
    AddressDecides(s, c.address);
    MayOptInAt(s, c, Existing(s, c.address));
    OptInIs(s, now, c, Existing(s, c.address));
    MayAtDecides(s, c, Existing(s, c.address));
  }

  /** The receipt is stored under the new id unless an identical one is stored already. */
  ghost predicate Receives(s: Mail, n: Mail, receipt: ConsentReceipt, receiptId: Id) {
    n.people.consents ==
      if forall k :: k in s.people.consents ==> s.people.consents[k] != receipt
      then s.people.consents[receiptId := receipt] else s.people.consents
  }

  /** The subscriber's consent is the receipt, in that audience as well, at its time; address and the rest stay. */
  ghost predicate ConsentedTo(was: Subscriber, now: Subscriber, receipt: ConsentReceipt) {
    now == was.(suppressed := false, audiences := was.audiences + {receipt.audienceId},
      consentAt := receipt.consent.capturedAt, receipt := Some(receipt), version := was.version + 1)
  }

  ghost predicate Enrols(s: Mail, n: Mail, c: Command)
    requires c.OptIn?
  {
    var receipt := ConsentReceipt(InitialOptIn, c.subscriberId, c.address, c.audienceId, c.consent);
    && Receives(s, n, receipt, c.receiptId) && c.subscriberId in n.people.subscribers
    && var sub := n.people.subscribers[c.subscriberId];
    && sub.address == c.address && !sub.suppressed && sub.audiences == {c.audienceId}
    && sub.consentAt == c.consent.capturedAt && sub.receipt == Some(receipt) && sub.version == 1
    && n == s.(people := s.people.(subscribers := s.people.subscribers[c.subscriberId := sub],
                                   consents := n.people.consents))
  }

  ghost predicate Renews(s: Mail, n: Mail, c: Command, id: Id)
    requires c.OptIn? && id in s.people.subscribers
  {
    var receipt := ConsentReceipt(RepeatOptIn, id, c.address, c.audienceId, c.consent);
    && Receives(s, n, receipt, c.receiptId) && id in n.people.subscribers
    && ConsentedTo(s.people.subscribers[id], n.people.subscribers[id], receipt)
    && n == s.(people := s.people.(subscribers := s.people.subscribers[id := n.people.subscribers[id]],
                                   consents := n.people.consents))
  }

  lemma EnrolLeaves(s: Mail, c: Command)
    requires c.OptIn? && Enrol(s, c).Done?
    ensures Enrols(s, Enrol(s, c).mail, c)
  {
  }

  lemma RenewLeaves(s: Mail, c: Command, id: Id)
    requires c.OptIn? && id in s.people.subscribers && Renew(s, c, id).Done?
    ensures Renews(s, Renew(s, c, id).mail, c, id)
  {
  }

  lemma LeavesAt(s: Mail, c: Command, at: Option<Id>, out: Outcome)
    requires c.OptIn? && out.Done? && (at.Some? ==> at.value in s.people.subscribers)
    requires out == match at case None => Enrol(s, c) case Some(id) => Renew(s, c, id)
    ensures at.None? ==> Enrols(s, out.mail, c)
    ensures at.Some? ==> Renews(s, out.mail, c, at.value)
  {
    match at
    case None => EnrolLeaves(s, c);
    case Some(id) => RenewLeaves(s, c, id);
  }

  lemma LeavesByAddress(s: Mail, n: Mail, c: Command, at: Option<Id>)
    requires c.OptIn? && (at.Some? ==> at.value in s.people.subscribers)
    requires forall id: Id :: Lives(s, id, c.address) <==> at == Some(id)
    requires at.None? ==> Enrols(s, n, c)
    requires at.Some? ==> Renews(s, n, c, at.value)
    ensures (forall id :: !Lives(s, id, c.address)) ==> Enrols(s, n, c)
    ensures forall id :: Lives(s, id, c.address) ==> Renews(s, n, c, id)
  {
    if at.Some? { assert Lives(s, at.value, c.address); }
  }

  /** An opt-in adds its audience and time to the subscriber with that address, or makes a new one. */
  lemma OptInLeaves(s: Mail, now: int, c: Command)
    requires Subscribers(s) && c.OptIn? && StepOptIn(s, now, c).Done?
    ensures (forall id :: !Lives(s, id, c.address)) ==> Enrols(s, StepOptIn(s, now, c).mail, c)
    ensures forall id :: Lives(s, id, c.address) ==> Renews(s, StepOptIn(s, now, c).mail, c, id)
  {
    var at, out := Existing(s, c.address), StepOptIn(s, now, c);
    AddressDecides(s, c.address);
    OptInIs(s, now, c, at);
    LeavesAt(s, c, at, out);
    LeavesByAddress(s, out.mail, c, at);
  }

  // ---------------------------------------------------------------- reactivation

  /** Of the subscriber's suppressions `k` is the last. */
  ghost predicate IsLast(s: Mail, id: Id, k: Id) {
    && k in s.people.suppressions && s.people.suppressions[k].subscriberId == id
    && forall j :: j in s.people.suppressions && s.people.suppressions[j].subscriberId == id ==>
         s.people.suppressions[j].occurredAt < s.people.suppressions[k].occurredAt
           || (s.people.suppressions[j].occurredAt == s.people.suppressions[k].occurredAt && j <= k)
  }

  /** The last suppression is by the subscriber or by hand, and everything held against them is older than the
      consent. */
  ghost predicate MayReturn(s: Mail, id: Id, at: int) {
    && (exists k :: IsLast(s, id, k) && s.people.suppressions[k].reason in {Unsubscribe, Manual})
    && forall k :: k in s.people.suppressions && s.people.suppressions[k].subscriberId == id ==>
         s.people.suppressions[k].occurredAt < at
  }

  lemma LastIsLatest(s: Mail, id: Id, k: Id)
    ensures IsLast(s, id, k) <==> Latest(s.people.suppressions, id) == Some(k)
  {
    if IsLast(s, id, k) {
      assert IsLatest(s.people.suppressions, id, k);
      LatestIsUnique(s.people.suppressions, id, k);
    }
  }

  lemma ReturnDecides(s: Mail, id: Id, k: Id, at: int)
    requires Latest(s.people.suppressions, id) == Some(k)
    ensures MayReturn(s, id, at) <==>
      Reversible(s.people.suppressions[k].reason) && s.people.suppressions[k].occurredAt < at
  {
    LastIsLatest(s, id, k);
    forall j ensures IsLast(s, id, j) <==> j == k { LastIsLatest(s, id, j); }
  }

  lemma ReactivateExactly(s: Mail, now: int, c: Command)
    requires Subscribers(s) && c.Reactivate?
    ensures StepReactivate(s, now, c).Done? <==>
      && c.subscriberId in s.people.subscribers && s.people.subscribers[c.subscriberId].suppressed
      && c.audienceId in s.people.audiences && GoodConsent(c.consent, s.people.audiences[c.audienceId], now)
      && c.consent.reconfirmed && c.consent.doubleOptIn && MayReturn(s, c.subscriberId, c.consent.capturedAt)
      && |s.people.suppressions| <= SCAN_LIMIT && |s.people.consents| <= SCAN_LIMIT
      && c.receiptId !in s.people.consents
  {
    var latest := Latest(s.people.suppressions, c.subscriberId);
    if latest.Some? {
      ReturnDecides(s, c.subscriberId, latest.value, c.consent.capturedAt);
    } else {
      forall k ensures !IsLast(s, c.subscriberId, k) { LastIsLatest(s, c.subscriberId, k); }
    }
  }

  lemma ReactivateLeaves(s: Mail, now: int, c: Command)
    requires c.Reactivate? && StepReactivate(s, now, c).Done?
    ensures var n := StepReactivate(s, now, c).mail;
      && c.subscriberId in s.people.subscribers && c.subscriberId in n.people.subscribers
      && var was := s.people.subscribers[c.subscriberId];
      && var receipt := ConsentReceipt(Reactivation, c.subscriberId, was.address, c.audienceId, c.consent);
      && Receives(s, n, receipt, c.receiptId) && ConsentedTo(was, n.people.subscribers[c.subscriberId], receipt)
      && n == s.(people := s.people.(
                   subscribers := s.people.subscribers[c.subscriberId := n.people.subscribers[c.subscriberId]],
                   consents := n.people.consents))
  {
  }

  // ----------------------------------------------------------------- suppression

  /** The suppression as it is recorded. */
  ghost predicate SaysThat(r: Suppression, sub: Subscriber, id: Id, reason: Reason, at: int, evidence: string,
      source: Option<Id>) {
    && r.subscriberId == id && r.address == sub.address && r.reason == reason && r.occurredAt == at
    && r.evidence == evidence && r.source == source
  }

  ghost predicate Said(s: Mail, id: Id, reason: Reason, at: int, evidence: string, source: Option<Id>)
    requires id in s.people.subscribers
  {
    exists k :: k in s.people.suppressions
      && SaysThat(s.people.suppressions[k], s.people.subscribers[id], id, reason, at, evidence, source)
  }

  /** A suppression is refused if it is older than the consent, cannot be compared with all others, or needs a new id
      and has none. */
  ghost predicate MaySuppress(s: Mail, id: Id, reason: Reason, at: int, evidence: string, source: Option<Id>, k: Id) {
    && id in s.people.subscribers && s.people.subscribers[id].consentAt <= at
    && |s.people.suppressions| <= SCAN_LIMIT
    && (k in s.people.suppressions ==> Said(s, id, reason, at, evidence, source))
  }

  /** The suppression is recorded and the subscriber marked; nothing changes if it was recorded before. */
  ghost predicate Marks(s: Mail, n: Mail, id: Id, reason: Reason, at: int, evidence: string, source: Option<Id>, k: Id)
    requires id in s.people.subscribers
  {
    if Said(s, id, reason, at, evidence, source) then n == s
    else
      && k in n.people.suppressions
      && SaysThat(n.people.suppressions[k], s.people.subscribers[id], id, reason, at, evidence, source)
      && n == s.(people := s.people.(suppressions := s.people.suppressions[k := n.people.suppressions[k]],
                   subscribers := s.people.subscribers[id :=
                     s.people.subscribers[id].(suppressed := true, version := s.people.subscribers[id].version + 1)]))
  }

  lemma ApplyExactly(s: Mail, id: Id, reason: Reason, at: int, evidence: string, source: Option<Id>, k: Id)
    requires id in s.people.subscribers
    ensures ApplySuppression(s, id, reason, at, evidence, source, k).Done? <==>
      MaySuppress(s, id, reason, at, evidence, source, k)
    ensures ApplySuppression(s, id, reason, at, evidence, source, k).Done? ==>
      Marks(s, ApplySuppression(s, id, reason, at, evidence, source, k).mail, id, reason, at, evidence, source, k)
  {
    var sub := s.people.subscribers[id];
    forall j | j in s.people.suppressions
      ensures SaysThat(s.people.suppressions[j], sub, id, reason, at, evidence, source) <==>
        s.people.suppressions[j] == Suppression(id, sub.address, reason, at, evidence, source) {
    }
  }

  lemma SuppressExactly(s: Mail, now: int, c: Command)
    requires c.Suppress?
    ensures StepSuppress(s, now, c).Done? <==>
      && c.occurredAt <= now + 300_000
      && MaySuppress(s, c.subscriberId, c.reason, c.occurredAt, c.evidence, None, c.suppressionId)
    ensures StepSuppress(s, now, c).Done? ==>
      && c.subscriberId in s.people.subscribers
      && Marks(s, StepSuppress(s, now, c).mail, c.subscriberId, c.reason, c.occurredAt, c.evidence, None,
           c.suppressionId)
  {
    if c.subscriberId in s.people.subscribers {
      ApplyExactly(s, c.subscriberId, c.reason, c.occurredAt, c.evidence, None, c.suppressionId);
    }
  }

  // ----------------------------------------------------------------- provider events

  /** What the provider reports that ends consent. */
  const ENDING := map[HardBounced := HardBounce, Complained := Complaint, Unsubscribed := Unsubscribe]

  /** The event is about a recipient of a stored plan, and its times are in order. */
  ghost predicate Credible(s: Mail, now: int, e: ProviderEvent) {
    && e.planId in s.press.plans && e.subscriberId in s.people.subscribers
    && (exists i :: 0 <= i < |s.press.plans[e.planId].recipients|
         && s.press.plans[e.planId].recipients[i].subscriberId == e.subscriberId)
    && e.occurredAt <= e.verifiedAt <= now + 300_000
  }

  ghost function Noted(s: Mail, eventId: string, e: ProviderEvent): Mail {
    s.(people := s.people.(events := s.people.events[eventId := e]))
  }

  lemma RecipientAt(p: Plan, id: Id)
    ensures IsRecipient(p, id) <==> exists i :: 0 <= i < |p.recipients| && p.recipients[i].subscriberId == id
  {
    if IsRecipient(p, id) {
      var r :| r in p.recipients && r.subscriberId == id;
      var i :| 0 <= i < |p.recipients| && p.recipients[i] == r;
    }
    if i :| 0 <= i < |p.recipients| && p.recipients[i].subscriberId == id { assert p.recipients[i] in p.recipients; }
  }

  ghost predicate MayIngest(s: Mail, c: Command)
    requires c.Ingest?
  {
    if c.eventId in s.people.events then s.people.events[c.eventId] == c.event
    else c.event.eventType in ENDING ==>
      MaySuppress(s, c.event.subscriberId, ENDING[c.event.eventType], c.event.occurredAt, c.event.evidence,
        Some(c.receiptId), c.suppressionId)
  }

  ghost predicate Ingests(s: Mail, n: Mail, c: Command)
    requires c.Ingest?
  {
    if c.eventId in s.people.events then n == s
    else if c.event.eventType in ENDING then
      && c.event.subscriberId in s.people.subscribers
      && Marks(Noted(s, c.eventId, c.event), n, c.event.subscriberId, ENDING[c.event.eventType], c.event.occurredAt,
           c.event.evidence, Some(c.receiptId), c.suppressionId)
    else n == Noted(s, c.eventId, c.event)
  }

  lemma IngestEnding(s: Mail, c: Command)
    requires c.Ingest? && c.event.subscriberId in s.people.subscribers
    ensures c.event.eventType in ENDING <==> SuppressiveReason(c.event.eventType).Some?
    ensures c.event.eventType in ENDING ==> SuppressiveReason(c.event.eventType) == Some(ENDING[c.event.eventType])
  {
  }

  /** Main result: a report is accepted exactly when it is credible, is not bound to another event, and, if it ends
      consent, the suppression it brings is acceptable. A report that was taken before changes nothing; any other is
      noted, and its suppression applied. */
  lemma IngestExactly(s: Mail, now: int, c: Command)
    requires c.Ingest?
    ensures StepIngest(s, now, c).Done? <==>
      Credible(s, now, c.event) && |s.people.events| <= SCAN_LIMIT && MayIngest(s, c)
    ensures StepIngest(s, now, c).Done? ==> Ingests(s, StepIngest(s, now, c).mail, c)
  {
    var e := c.event;
    if e.planId in s.press.plans && e.subscriberId in s.people.subscribers {
      RecipientAt(s.press.plans[e.planId], e.subscriberId);
      IngestEnding(s, c);
      if e.eventType in ENDING {
        ApplyExactly(Noted(s, c.eventId, e), e.subscriberId, ENDING[e.eventType], e.occurredAt, e.evidence,
          Some(c.receiptId), c.suppressionId);
        ApplyExactly(s, e.subscriberId, ENDING[e.eventType], e.occurredAt, e.evidence, Some(c.receiptId),
          c.suppressionId);
      }
    }
  }

  // -------------------------------------------------------------------- campaigns

  lemma OpeningExactly(s: Mail, now: int, c: Command)
    requires c.CreateAudience? || c.CreateCampaign?
    ensures c.CreateAudience? ==> (Step(s, now, c).Done? <==> c.id !in s.people.audiences)
    ensures c.CreateAudience? && Step(s, now, c).Done? ==>
      After(s, now, c) == s.(people := s.people.(audiences := s.people.audiences[c.id := c.policy]))
    ensures c.CreateCampaign? ==>
      (Step(s, now, c).Done? <==> c.audienceId in s.people.audiences && c.id !in s.press.campaigns)
    ensures c.CreateCampaign? && Step(s, now, c).Done? ==>
      var n := After(s, now, c);
      && c.id in n.press.campaigns && n == s.(press := s.press.(campaigns := n.press.campaigns))
      && n.press.campaigns == s.press.campaigns[c.id := n.press.campaigns[c.id]]
      && var k := n.press.campaigns[c.id];
      && k.audienceId == c.audienceId && k.state.DraftEmpty? && k.version == 1 && k.versionId.None? && k.hash.None?
      && k.reviewId.None? && k.approvalId.None? && k.scheduleId.None? && k.planId.None?
  {
  }

  /** The versions of the campaign. */
  function VersionsOf(s: Mail, campaignId: Id): set<Id> {
    set v | v in s.press.versions && s.press.versions[v].campaignId == campaignId
  }

  lemma DraftExactly(s: Mail, c: Command)
    requires c.DraftVersion?
    ensures StepDraft(s, c).Done? <==>
      && c.campaignId in s.press.campaigns && s.press.campaigns[c.campaignId].version == c.expectedVersion
      && |s.press.versions| <= SCAN_LIMIT && c.versionId !in s.press.versions
  {
  }

  /** Main result: a draft stores, as the campaign's next version, the digest of the content it was given for that
      campaign and its audience, makes it the current one, and forgets review, approval, schedule and plan. */
  lemma DraftLeaves(s: Mail, c: Command)
    requires c.DraftVersion? && StepDraft(s, c).Done?
    ensures var n := StepDraft(s, c).mail;
      && c.campaignId in s.press.campaigns && c.versionId in n.press.versions && c.campaignId in n.press.campaigns
      && var was, k := s.press.campaigns[c.campaignId], n.press.campaigns[c.campaignId];
      && var v := n.press.versions[c.versionId];
      && v.campaignId == c.campaignId && v.number == |VersionsOf(s, c.campaignId)| + 1
      && v.hash.campaignId == c.campaignId && v.hash.audienceId == was.audienceId && v.hash.content == c.content
      && k.state.Draft? && k.versionId == Some(c.versionId) && k.hash == Some(v.hash) && k.version == was.version + 1
      && k.reviewId.None? && k.approvalId.None? && k.scheduleId.None? && k.planId.None?
      && k.audienceId == was.audienceId && k.scheduledAt == was.scheduledAt
      && n == s.(press := s.press.(versions := s.press.versions[c.versionId := v],
                                   campaigns := s.press.campaigns[c.campaignId := k]))
  {
    assert VersionsOf(s, c.campaignId) ==
        set v | v in s.press.versions && s.press.versions[v].campaignId == c.campaignId;
  }

  /** The caller saw the campaign as it is: its version, its current content version and that one's hash. */
  ghost predicate SeesCurrent(s: Mail, b: Basis) {
    && b.campaignId in s.press.campaigns && b.versionId in s.press.versions
    && var k := s.press.campaigns[b.campaignId];
    && k.version == b.expectedVersion && k.versionId == Some(b.versionId) && k.hash == Some(b.hash)
    && s.press.versions[b.versionId].campaignId == b.campaignId && s.press.versions[b.versionId].hash == b.hash
  }

  lemma ReviewExactly(s: Mail, c: Command)
    requires c.ReviewVersion?
    ensures StepReview(s, c).Done? <==>
      && SeesCurrent(s, c.basis) && s.press.campaigns[c.basis.campaignId].state.Draft?
      && c.reviewId !in s.press.reviews
    ensures StepReview(s, c).Done? ==>
      var n, id := StepReview(s, c).mail, c.basis.campaignId;
      && id in s.press.campaigns && c.reviewId in n.press.reviews
      && var k, r := s.press.campaigns[id], n.press.reviews[c.reviewId];
      && r.campaignId == id && r.versionId == c.basis.versionId && r.hash == c.basis.hash && r.positive == c.positive
      && n == s.(press := s.press.(reviews := s.press.reviews[c.reviewId := r],
                   campaigns := s.press.campaigns[id := k.(state := if c.positive then Reviewed else ChangesRequested,
                     version := k.version + 1, reviewId := Some(c.reviewId))]))
  {
  }

  lemma ApproveExactly(s: Mail, c: Command)
    requires c.Approve?
    ensures StepApprove(s, c).Done? <==>
      && SeesCurrent(s, c.basis) && c.reviewId in s.press.reviews && c.approvalId !in s.press.approvals
      && var k, r := s.press.campaigns[c.basis.campaignId], s.press.reviews[c.reviewId];
      && k.state.Reviewed? && k.reviewId == Some(c.reviewId) && r.positive && r.versionId == c.basis.versionId
      && r.hash == c.basis.hash
    ensures StepApprove(s, c).Done? ==>
      var n, id := StepApprove(s, c).mail, c.basis.campaignId;
      && id in s.press.campaigns && c.approvalId in n.press.approvals
      && var k, a := s.press.campaigns[id], n.press.approvals[c.approvalId];
      && a.campaignId == id && a.versionId == c.basis.versionId && a.hash == c.basis.hash && a.reviewId == c.reviewId
      && n == s.(press := s.press.(approvals := s.press.approvals[c.approvalId := a],
                   campaigns := s.press.campaigns[id :=
                     k.(state := Approved, version := k.version + 1, approvalId := Some(c.approvalId))]))
  {
  }

  lemma ScheduleExactly(s: Mail, now: int, c: Command)
    requires c.ScheduleCampaign?
    ensures StepSchedule(s, now, c).Done? <==>
      && SeesCurrent(s, c.basis) && s.press.campaigns[c.basis.campaignId].state.Approved?
      && s.press.campaigns[c.basis.campaignId].approvalId.Some? && now < c.scheduledAt
      && c.scheduleId !in s.press.schedules
    ensures StepSchedule(s, now, c).Done? ==>
      var n, id := StepSchedule(s, now, c).mail, c.basis.campaignId;
      && id in s.press.campaigns && c.scheduleId in n.press.schedules
      && var k, t := s.press.campaigns[id], n.press.schedules[c.scheduleId];
      && t.campaignId == id && t.versionId == c.basis.versionId && t.hash == c.basis.hash
      && k.approvalId == Some(t.approvalId) && t.scheduledAt == c.scheduledAt
      && n == s.(press := s.press.(schedules := s.press.schedules[c.scheduleId := t],
                   campaigns := s.press.campaigns[id := k.(state := Scheduled, version := k.version + 1,
                     scheduleId := Some(c.scheduleId), scheduledAt := c.scheduledAt)]))
  {
  }

  /** Somebody of the audience is not suppressed. */
  ghost predicate SomebodyReceives(s: Mail, audienceId: Id) {
    exists id :: id in s.people.subscribers && audienceId in s.people.subscribers[id].audiences
      && !s.people.subscribers[id].suppressed
  }

  lemma RecipientsIffSomebody(s: Mail, audienceId: Id)
    requires Subscribers(s)
    ensures Recipients(s, audienceId) != [] <==> SomebodyReceives(s, audienceId)
  {
    if Recipients(s, audienceId) != [] {
      RecipientsAreReceiving(s, audienceId, Recipients(s, audienceId)[0]);
    }
    if SomebodyReceives(s, audienceId) {
      var id :| id in s.people.subscribers && audienceId in s.people.subscribers[id].audiences
        && !s.people.subscribers[id].suppressed;
      assert FlagAgrees(s, id) && ConsentBound(s, id);
      LatestDecides(s, id);
      ReceivingAreRecipients(s, audienceId, id);
    }
  }

  lemma PlanDecides(s: Mail, c: Command)
    requires c.CreatePlan?
    ensures StepPlan(s, c).Done? <==>
      && Current(s, c.basis)
      && var k := s.press.campaigns[c.basis.campaignId];
      && k.state.Scheduled? && k.scheduleId.Some? && k.scheduledAt == c.scheduledAt && c.planId !in s.press.plans
      && Recipients(s, k.audienceId) != [] && !Full(s.people.subscribers)
      && !(ScansSuppressions(s, k.audienceId) && Full(s.people.suppressions))
  {
  }

  lemma PlanExactly(s: Mail, c: Command)
    requires Subscribers(s) && c.CreatePlan?
    ensures StepPlan(s, c).Done? <==>
      && SeesCurrent(s, c.basis)
      && var k := s.press.campaigns[c.basis.campaignId];
      && k.state.Scheduled? && k.scheduleId.Some? && k.scheduledAt == c.scheduledAt && c.planId !in s.press.plans
      && SomebodyReceives(s, k.audienceId) && |s.people.subscribers| <= SCAN_LIMIT
      && |s.people.suppressions| <= SCAN_LIMIT
  {
    PlanDecides(s, c);
    if c.basis.campaignId in s.press.campaigns {
      RecipientsIffSomebody(s, s.press.campaigns[c.basis.campaignId].audienceId);
    }
  }

  lemma PlanLeaves(s: Mail, c: Command)
    requires c.CreatePlan? && StepPlan(s, c).Done?
    ensures var n, id := StepPlan(s, c).mail, c.basis.campaignId;
      && id in s.press.campaigns && c.planId in n.press.plans
      && var k, p := s.press.campaigns[id], n.press.plans[c.planId];
      && p.campaignId == id && p.versionId == c.basis.versionId && p.hash == c.basis.hash
      && p.audienceId == k.audienceId && k.scheduleId == Some(p.scheduleId)
      && n == s.(press := s.press.(plans := s.press.plans[c.planId := p],
                   campaigns := s.press.campaigns[id :=
                     k.(state := DispatchPlanned, version := k.version + 1, planId := Some(c.planId))]))
  {
  }
}
