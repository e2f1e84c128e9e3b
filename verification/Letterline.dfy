/** Letterline: consent and suppression of subscribers, and the campaign chain from draft to dispatch plan. */
module Letterline {
  import opened Options
  import opened Sorting

  type Id = nat
  /** The digest of a normalised address, read as a number. */
  type Address = nat

  const SCAN_LIMIT := 100_000
  const CLOCK_SKEW := 300_000

  datatype Reason = Unsubscribe | HardBounce | Complaint | LegalBlock | Manual
  datatype Consent = Consent(granted: bool, purchasedList: bool, policy: string, purposes: seq<string>,
      capturedAt: int, doubleOptIn: bool, reconfirmed: bool, proof: string)
  datatype Kind = InitialOptIn | RepeatOptIn | Reactivation
  /** A consent receipt; its hash is kept as the receipt it digests. */
  datatype ConsentReceipt = ConsentReceipt(kind: Kind, subscriberId: Id, address: Address, audienceId: Id,
      consent: Consent)
  datatype Subscriber = Subscriber(address: Address, suppressed: bool, audiences: set<Id>, consentAt: int,
      receipt: Option<ConsentReceipt>, version: nat)
  /** `source`: the provider receipt behind it, if any. */
  datatype Suppression = Suppression(subscriberId: Id, address: Address, reason: Reason, occurredAt: int,
      evidence: string, source: Option<Id>)

  datatype CampaignState = DraftEmpty | Draft | ChangesRequested | Reviewed | Approved | Scheduled | DispatchPlanned
  /** A content hash, kept as what it digests. */
  datatype ContentHash = ContentHash(campaignId: Id, audienceId: Id, content: string)
  datatype Campaign = Campaign(audienceId: Id, state: CampaignState, version: nat, versionId: Option<Id>,
      hash: Option<ContentHash>, reviewId: Option<Id>, approvalId: Option<Id>, scheduleId: Option<Id>,
      planId: Option<Id>, scheduledAt: int)
  datatype Version = Version(campaignId: Id, number: nat, hash: ContentHash)
  datatype Review = Review(campaignId: Id, versionId: Id, hash: ContentHash, positive: bool)
  datatype Approval = Approval(campaignId: Id, versionId: Id, hash: ContentHash, reviewId: Id)
  datatype Schedule = Schedule(campaignId: Id, versionId: Id, hash: ContentHash, approvalId: Id, scheduledAt: int)
  datatype Recipient = Recipient(address: Address, subscriberId: Id, receipt: ConsentReceipt)
  datatype Plan = Plan(campaignId: Id, versionId: Id, hash: ContentHash, audienceId: Id, scheduleId: Id,
      recipients: seq<Recipient>)

  datatype EventType = Accepted | Delivered | SoftBounce | HardBounced | Complained | Unsubscribed
  datatype ProviderEvent = ProviderEvent(planId: Id, subscriberId: Id, eventType: EventType, occurredAt: int,
      messageRef: string, evidence: string, verifiedAt: int)

  datatype People = People(audiences: map<Id, string>, subscribers: map<Id, Subscriber>,
      consents: map<Id, ConsentReceipt>, suppressions: map<Id, Suppression>, events: map<string, ProviderEvent>)
  datatype Press = Press(campaigns: map<Id, Campaign>, versions: map<Id, Version>, reviews: map<Id, Review>,
      approvals: map<Id, Approval>, schedules: map<Id, Schedule>, plans: map<Id, Plan>)
  datatype Mail = Mail(people: People, press: Press)

  const EMPTY := Mail(People(map[], map[], map[], map[], map[]), Press(map[], map[], map[], map[], map[], map[]))

  /** The campaign version a command was prepared against. */
  datatype Basis = Basis(campaignId: Id, expectedVersion: nat, versionId: Id, hash: ContentHash)

  datatype Command =
    | CreateAudience(id: Id, policy: string)
    | OptIn(audienceId: Id, address: Address, consent: Consent, subscriberId: Id, receiptId: Id)
    | Reactivate(subscriberId: Id, audienceId: Id, consent: Consent, receiptId: Id)
    | Suppress(subscriberId: Id, reason: Reason, occurredAt: int, evidence: string, suppressionId: Id)
    | Ingest(eventId: string, event: ProviderEvent, receiptId: Id, suppressionId: Id)
    | CreateCampaign(id: Id, audienceId: Id)
    | DraftVersion(campaignId: Id, expectedVersion: nat, content: string, versionId: Id)
    | ReviewVersion(basis: Basis, positive: bool, reviewId: Id)
    | Approve(basis: Basis, reviewId: Id, approvalId: Id)
    | ScheduleCampaign(basis: Basis, scheduledAt: int, scheduleId: Id)
    | CreatePlan(basis: Basis, scheduledAt: int, planId: Id)

  datatype Refusal = NotFound | IdTaken | Saturated | BadConsent | IsSuppressed | Backdated | NotSuppressed | NoEvidence
                   | Permanent | NotNewer | InFuture | NotRecipient | BadGateway | EventBound | Stale | WrongState
                   | NotReviewed | NotScheduled | NoRecipients
  datatype Outcome = Done(mail: Mail) | Refused(reason: Refusal)

  predicate Full<K, V>(records: map<K, V>) {
    |records| > SCAN_LIMIT
  }

  // ------------------------------------------------------- consent, suppression

  predicate ConsentOk(c: Consent, policy: string, now: int, reactivating: bool) {
    && c.capturedAt <= now + CLOCK_SKEW && c.granted && !c.purchasedList && c.policy == policy
    && (forall i, j :: 0 <= i < j < |c.purposes| ==> c.purposes[i] != c.purposes[j])
    && if reactivating then c.reconfirmed && c.doubleOptIn else !c.reconfirmed
  }

  predicate IsAt(s: Mail, id: Id, address: Address) {
    id in s.people.subscribers && s.people.subscribers[id].address == address
  }

  function FirstAt(s: Mail, ids: seq<Id>, address: Address): (r: Option<Id>)
    ensures r.Some? ==> IsAt(s, r.value, address)
    ensures r.None? ==> forall id :: id in ids ==> !IsAt(s, id, address)
  {
    if ids == [] then None
    else if IsAt(s, ids[0], address) then Some(ids[0])
    else
      assert ids == [ids[0]] + ids[1..];
      FirstAt(s, ids[1..], address)
  }

  /** `find` by address hash; no two subscribers share one. */
  function Existing(s: Mail, address: Address): (r: Option<Id>)
    ensures r.Some? ==> IsAt(s, r.value, address)
    ensures r.None? ==> forall id :: !IsAt(s, id, address)
  {
    FirstAt(s, Ascending(s.people.subscribers.Keys), address)
  }

  /** Record `k` comes first when the subscriber's suppressions are listed latest first. */
  predicate IsLatest(suppressions: map<Id, Suppression>, subscriberId: Id, k: Id) {
    && k in suppressions && suppressions[k].subscriberId == subscriberId
    && forall j :: j in suppressions && suppressions[j].subscriberId == subscriberId ==> NotLater(suppressions, j, k)
  }

  predicate NotLater(suppressions: map<Id, Suppression>, j: Id, k: Id)
    requires j in suppressions && k in suppressions
  {
    suppressions[j].occurredAt < suppressions[k].occurredAt
      || (suppressions[j].occurredAt == suppressions[k].occurredAt && j <= k)
  }

  ghost predicate Mentioned(suppressions: map<Id, Suppression>, subscriberId: Id) {
    exists k :: k in suppressions && suppressions[k].subscriberId == subscriberId
  }

  lemma {:induction false} LatestAmong(suppressions: map<Id, Suppression>, ids: set<Id>) returns (k: Id)
    requires ids != {} && ids <= suppressions.Keys
    ensures k in ids && forall j :: j in ids ==> NotLater(suppressions, j, k)
    decreases |ids|
  {
    var x :| x in ids;
    k := x;
    var rest := ids - {x};
    if rest != {} {
      var m := LatestAmong(suppressions, rest);
      if NotLater(suppressions, x, m) { k := m; }
    }
    forall j | j in ids ensures NotLater(suppressions, j, k) {
      assert j == x || j in rest;
    }
  }

  lemma LatestExists(suppressions: map<Id, Suppression>, subscriberId: Id)
    requires Mentioned(suppressions, subscriberId)
    ensures exists k :: IsLatest(suppressions, subscriberId, k)
  {
    var ids := set k | k in suppressions && suppressions[k].subscriberId == subscriberId;
    var some :| some in suppressions && suppressions[some].subscriberId == subscriberId;
    assert some in ids;
    var k := LatestAmong(suppressions, ids);
    assert forall j :: j in suppressions && suppressions[j].subscriberId == subscriberId ==> j in ids;
    assert IsLatest(suppressions, subscriberId, k);
  }

  /** `latestSuppression`. */
  ghost function Latest(suppressions: map<Id, Suppression>, subscriberId: Id): (r: Option<Id>)
    ensures r.Some? <==> Mentioned(suppressions, subscriberId)
    ensures r.Some? ==> IsLatest(suppressions, subscriberId, r.value)
  {
    if Mentioned(suppressions, subscriberId) then
      LatestExists(suppressions, subscriberId);
      var k :| IsLatest(suppressions, subscriberId, k);
      Some(k)
    else None
  }

  /** A receipt identical to a recorded one is not stored again. */
  function RecordConsent(consents: map<Id, ConsentReceipt>, receipt: ConsentReceipt, id: Id): map<Id, ConsentReceipt> {
    if exists k :: k in consents && consents[k] == receipt then consents else consents[id := receipt]
  }

  /** A first opt-in creates the subscriber. */
  function Enrol(s: Mail, c: Command): (out: Outcome)
    requires c.OptIn?
    ensures out.Done? ==> out.mail.press == s.press
  {
    var receipt := ConsentReceipt(InitialOptIn, c.subscriberId, c.address, c.audienceId, c.consent);
    var subscriber := Subscriber(c.address, false, {c.audienceId}, c.consent.capturedAt, Some(receipt), 1);
    if c.subscriberId in s.people.subscribers then Refused(IdTaken)
    else Done(s.(people := s.people.(subscribers := s.people.subscribers[c.subscriberId := subscriber],
                                     consents := RecordConsent(s.people.consents, receipt, c.receiptId))))
  }

  /** A repeated one renews the consent of subscriber `id`. */
  function Renew(s: Mail, c: Command, id: Id): (out: Outcome)
    requires c.OptIn? && id in s.people.subscribers
    ensures out.Done? ==> out.mail.press == s.press
  {
    var sub := s.people.subscribers[id];
    var receipt := ConsentReceipt(RepeatOptIn, id, c.address, c.audienceId, c.consent);
    var renewed := sub.(audiences := sub.audiences + {c.audienceId}, consentAt := c.consent.capturedAt,
      receipt := Some(receipt), version := sub.version + 1);
    if sub.suppressed then Refused(IsSuppressed)
    else if c.consent.capturedAt < sub.consentAt then Refused(Backdated)
    else Done(s.(people := s.people.(subscribers := s.people.subscribers[id := renewed],
                                     consents := RecordConsent(s.people.consents, receipt, c.receiptId))))
  }

  function StepOptIn(s: Mail, now: int, c: Command): (out: Outcome)
    requires c.OptIn?
    ensures out.Done? ==> out.mail.press == s.press
  {
    if c.audienceId !in s.people.audiences then Refused(NotFound)
    else if !ConsentOk(c.consent, s.people.audiences[c.audienceId], now, false) then Refused(BadConsent)
    else if Full(s.people.subscribers) || Full(s.people.consents) then Refused(Saturated)
    else if c.receiptId in s.people.consents then Refused(IdTaken)
    else match Existing(s, c.address)
         case None => Enrol(s, c)
         case Some(id) => Renew(s, c, id)
  }

  predicate Reversible(reason: Reason) {
    reason.Unsubscribe? || reason.Manual?
  }

  ghost function StepReactivate(s: Mail, now: int, c: Command): Outcome
    requires c.Reactivate?
  {
    if c.subscriberId !in s.people.subscribers || c.audienceId !in s.people.audiences then Refused(NotFound)
    else
      var sub := s.people.subscribers[c.subscriberId];
      var latest := Latest(s.people.suppressions, c.subscriberId);
      var receipt := ConsentReceipt(Reactivation, c.subscriberId, sub.address, c.audienceId, c.consent);
      if !sub.suppressed then Refused(NotSuppressed)
      else if Full(s.people.suppressions) then Refused(Saturated)
      else if latest.None? then Refused(NoEvidence)
      else if !Reversible(s.people.suppressions[latest.value].reason) then Refused(Permanent)
      else if !ConsentOk(c.consent, s.people.audiences[c.audienceId], now, true) then Refused(BadConsent)
      else if c.consent.capturedAt <= s.people.suppressions[latest.value].occurredAt then Refused(NotNewer)
      else if Full(s.people.consents) then Refused(Saturated)
      else if c.receiptId in s.people.consents then Refused(IdTaken)
      else
        var active := sub.(suppressed := false, audiences := sub.audiences + {c.audienceId},
                           consentAt := c.consent.capturedAt, receipt := Some(receipt), version := sub.version + 1);
        Done(s.(people := s.people.(subscribers := s.people.subscribers[c.subscriberId := active],
                                    consents := RecordConsent(s.people.consents, receipt, c.receiptId))))
  }

  /** `applySuppression`. */
  ghost function ApplySuppression(s: Mail, subscriberId: Id, reason: Reason, occurredAt: int, evidence: string,
      source: Option<Id>, suppressionId: Id): Outcome
    requires subscriberId in s.people.subscribers
  {
    var sub := s.people.subscribers[subscriberId];
    var payload := Suppression(subscriberId, sub.address, reason, occurredAt, evidence, source);
    if occurredAt < sub.consentAt then Refused(Backdated)
    else if Full(s.people.suppressions) then Refused(Saturated)
    else if exists k :: k in s.people.suppressions && s.people.suppressions[k] == payload then Done(s)
    else if suppressionId in s.people.suppressions then Refused(IdTaken)
    else
      var suppressed := sub.(suppressed := true, version := sub.version + 1);
      Done(s.(people := s.people.(suppressions := s.people.suppressions[suppressionId := payload],
                                  subscribers := s.people.subscribers[subscriberId := suppressed])))
  }

  ghost function StepSuppress(s: Mail, now: int, c: Command): Outcome
    requires c.Suppress?
  {
    if c.subscriberId !in s.people.subscribers then Refused(NotFound)
    else if c.occurredAt > now + CLOCK_SKEW then Refused(InFuture)
    else ApplySuppression(s, c.subscriberId, c.reason, c.occurredAt, c.evidence, None, c.suppressionId)
  }

  function SuppressiveReason(t: EventType): Option<Reason> {
    match t
    case HardBounced => Some(HardBounce)
    case Complained => Some(Complaint)
    case Unsubscribed => Some(Unsubscribe)
    case _ => None
  }

  predicate IsRecipient(p: Plan, subscriberId: Id) {
    exists r :: r in p.recipients && r.subscriberId == subscriberId
  }

  ghost function StepIngest(s: Mail, now: int, c: Command): Outcome
    requires c.Ingest?
  {
    var e := c.event;
    if e.planId !in s.press.plans || e.subscriberId !in s.people.subscribers then Refused(NotFound)
    else if !IsRecipient(s.press.plans[e.planId], e.subscriberId) then Refused(NotRecipient)
    else if e.occurredAt > now + CLOCK_SKEW || e.verifiedAt > now + CLOCK_SKEW then Refused(InFuture)
    else if e.verifiedAt < e.occurredAt then Refused(BadGateway)
    else if Full(s.people.events) then Refused(Saturated)
    else if c.eventId in s.people.events then (if s.people.events[c.eventId] == e then Done(s) else Refused(EventBound))
    else
      var noted := s.(people := s.people.(events := s.people.events[c.eventId := e]));
      match SuppressiveReason(e.eventType)
      case None => Done(noted)
      case Some(reason) =>
        ApplySuppression(noted, e.subscriberId, reason, e.occurredAt, e.evidence, Some(c.receiptId), c.suppressionId)
  }

  // ------------------------------------------------------------------ campaigns

  ghost function StepDraft(s: Mail, c: Command): Outcome
    requires c.DraftVersion?
  {
    if c.campaignId !in s.press.campaigns then Refused(NotFound)
    else
      var k := s.press.campaigns[c.campaignId];
      var hash := ContentHash(c.campaignId, k.audienceId, c.content);
      var prior := |set v | v in s.press.versions && s.press.versions[v].campaignId == c.campaignId|;
      if c.expectedVersion != k.version then Refused(Stale)
      else if Full(s.press.versions) then Refused(Saturated)
      else if c.versionId in s.press.versions then Refused(IdTaken)
      else
        var version := Version(c.campaignId, prior + 1, hash);
        var drafted := k.(state := Draft, version := k.version + 1, versionId := Some(c.versionId), hash := Some(hash),
                          reviewId := None, approvalId := None, scheduleId := None, planId := None);
        Done(s.(press := s.press.(versions := s.press.versions[c.versionId := version],
                                  campaigns := s.press.campaigns[c.campaignId := drafted])))
  }

  /** `assertCurrentCampaignVersion`. */
  predicate Current(s: Mail, b: Basis) {
    && b.campaignId in s.press.campaigns && b.expectedVersion == s.press.campaigns[b.campaignId].version
    && b.versionId in s.press.versions && s.press.versions[b.versionId].campaignId == b.campaignId
    && s.press.versions[b.versionId].hash == b.hash
    && s.press.campaigns[b.campaignId].versionId == Some(b.versionId)
    && s.press.campaigns[b.campaignId].hash == Some(b.hash)
  }

  ghost function StepReview(s: Mail, c: Command): Outcome
    requires c.ReviewVersion?
  {
    if !Current(s, c.basis) then Refused(Stale)
    else
      var id := c.basis.campaignId;
      var k := s.press.campaigns[id];
      if !k.state.Draft? then Refused(WrongState)
      else if c.reviewId in s.press.reviews then Refused(IdTaken)
      else
        var review := Review(id, c.basis.versionId, c.basis.hash, c.positive);
        var state := if c.positive then Reviewed else ChangesRequested;
        var reviewed := k.(state := state, version := k.version + 1, reviewId := Some(c.reviewId));
        Done(s.(press := s.press.(reviews := s.press.reviews[c.reviewId := review],
                                  campaigns := s.press.campaigns[id := reviewed])))
  }

  ghost function StepApprove(s: Mail, c: Command): Outcome
    requires c.Approve?
  {
    if !Current(s, c.basis) then Refused(Stale)
    else if c.reviewId !in s.press.reviews then Refused(NotFound)
    else
      var id := c.basis.campaignId;
      var k, review := s.press.campaigns[id], s.press.reviews[c.reviewId];
      if !k.state.Reviewed? || k.reviewId != Some(c.reviewId) || review.versionId != c.basis.versionId
        || review.hash != c.basis.hash || !review.positive then Refused(NotReviewed)
      else if c.approvalId in s.press.approvals then Refused(IdTaken)
      else
        var approval := Approval(id, c.basis.versionId, c.basis.hash, c.reviewId);
        var approved := k.(state := Approved, version := k.version + 1, approvalId := Some(c.approvalId));
        Done(s.(press := s.press.(approvals := s.press.approvals[c.approvalId := approval],
                                  campaigns := s.press.campaigns[id := approved])))
  }

  ghost function StepSchedule(s: Mail, now: int, c: Command): Outcome
    requires c.ScheduleCampaign?
  {
    if !Current(s, c.basis) then Refused(Stale)
    else
      var id := c.basis.campaignId;
      var k := s.press.campaigns[id];
      if !k.state.Approved? || k.approvalId.None? then Refused(WrongState)
      else if c.scheduledAt <= now then Refused(NotScheduled)
      else if c.scheduleId in s.press.schedules then Refused(IdTaken)
      else
        var schedule := Schedule(id, c.basis.versionId, c.basis.hash, k.approvalId.value, c.scheduledAt);
        var scheduled := k.(state := Scheduled, version := k.version + 1, scheduleId := Some(c.scheduleId),
                            scheduledAt := c.scheduledAt);
        Done(s.(press := s.press.(schedules := s.press.schedules[c.scheduleId := schedule],
                                  campaigns := s.press.campaigns[id := scheduled])))
  }

  /** `effectivelySuppressed`: the stored flag, or the latest suppression against the consent clock. */
  ghost predicate EffectivelySuppressed(s: Mail, id: Id)
    requires id in s.people.subscribers
  {
    || s.people.subscribers[id].suppressed
    || var latest := Latest(s.people.suppressions, id);
       latest.Some? && s.people.suppressions[latest.value].occurredAt >= s.people.subscribers[id].consentAt
  }

  ghost predicate MayReceive(s: Mail, id: Id, audienceId: Id) {
    id in s.people.subscribers && audienceId in s.people.subscribers[id].audiences && !EffectivelySuppressed(s, id)
      && s.people.subscribers[id].receipt.Some?
  }

  function RecipientFor(s: Mail, id: Id): Recipient
    requires id in s.people.subscribers && s.people.subscribers[id].receipt.Some?
  {
    Recipient(s.people.subscribers[id].address, id, s.people.subscribers[id].receipt.value)
  }

  function Before(a: Recipient, b: Recipient): bool {
    a.address < b.address || (a.address == b.address && a.subscriberId <= b.subscriberId)
  }

  ghost function ReceivingIds(s: Mail, audienceId: Id): set<Id> {
    set id | id in s.people.subscribers && MayReceive(s, id, audienceId)
  }

  ghost function Unsorted(s: Mail, audienceId: Id): seq<Recipient> {
    var ids := Ascending(ReceivingIds(s, audienceId));
    assert forall i :: 0 <= i < |ids| ==> ids[i] in ids;
    seq(|ids|, i requires 0 <= i < |ids| => RecipientFor(s, ids[i]))
  }

  /** The recipient manifest. */
  ghost function Recipients(s: Mail, audienceId: Id): seq<Recipient> {
    Sort(Unsorted(s, audienceId), Before)
  }

  /** Deciding eligibility scans the suppressions of every unsuppressed member of the audience. */
  predicate ScansSuppressions(s: Mail, audienceId: Id) {
    exists id :: id in s.people.subscribers && audienceId in s.people.subscribers[id].audiences
      && !s.people.subscribers[id].suppressed
  }

  ghost function StepPlan(s: Mail, c: Command): Outcome
    requires c.CreatePlan?
  {
    if !Current(s, c.basis) then Refused(Stale)
    else
      var id := c.basis.campaignId;
      var k := s.press.campaigns[id];
      var recipients := Recipients(s, k.audienceId);
      if !k.state.Scheduled? || k.scheduleId.None? || k.scheduledAt != c.scheduledAt then Refused(NotScheduled)
      else if Full(s.people.subscribers) then Refused(Saturated)
      else if ScansSuppressions(s, k.audienceId) && Full(s.people.suppressions) then Refused(Saturated)
      else if recipients == [] then Refused(NoRecipients)
      else if c.planId in s.press.plans then Refused(IdTaken)
      else
        var plan := Plan(id, c.basis.versionId, c.basis.hash, k.audienceId, k.scheduleId.value, recipients);
        var planned := k.(state := DispatchPlanned, version := k.version + 1, planId := Some(c.planId));
        Done(s.(press := s.press.(plans := s.press.plans[c.planId := plan],
                                  campaigns := s.press.campaigns[id := planned])))
  }

  ghost function Step(s: Mail, now: int, c: Command): Outcome {
    match c
    case CreateAudience(id, policy) =>
      if id in s.people.audiences then Refused(IdTaken)
      else Done(s.(people := s.people.(audiences := s.people.audiences[id := policy])))
    case OptIn(_, _, _, _, _) => StepOptIn(s, now, c)
    case Reactivate(_, _, _, _) => StepReactivate(s, now, c)
    case Suppress(_, _, _, _, _) => StepSuppress(s, now, c)
    case Ingest(_, _, _, _) => StepIngest(s, now, c)
    case CreateCampaign(id, audienceId) =>
      if audienceId !in s.people.audiences then Refused(NotFound)
      else if id in s.press.campaigns then Refused(IdTaken)
      else
        var campaign := Campaign(audienceId, DraftEmpty, 1, None, None, None, None, None, None, 0);
        Done(s.(press := s.press.(campaigns := s.press.campaigns[id := campaign])))
    case DraftVersion(_, _, _, _) => StepDraft(s, c)
    case ReviewVersion(_, _, _) => StepReview(s, c)
    case Approve(_, _, _) => StepApprove(s, c)
    case ScheduleCampaign(_, _, _) => StepSchedule(s, now, c)
    case CreatePlan(_, _, _) => StepPlan(s, c)
  }

  ghost function After(s: Mail, now: int, c: Command): Mail {
    match Step(s, now, c) case Done(next) => next case Refused(_) => s
  }

  datatype Call = Call(now: int, command: Command)

  ghost function Run(s: Mail, calls: seq<Call>): Mail
    decreases |calls|
  {
    if calls == [] then s else Run(After(s, calls[0].now, calls[0].command), calls[1..])
  }
}
